# Attendance backend — a Dafny model of its service layer

This project models the service layer of an attendance-tracking backend for
classes (`turmas`), students (`alunos`), mentors (`mentores`), class
roll-calls (`chamadas`), mentor roll-calls (`chamadas de mentores`) and
standalone attendance records (`presenças`). The Dafny model is
self-contained and proves properties of it.

Every transactional service call is a pure function from a `Store` to a
`Result<Store>`. The `Store` is eight finite maps keyed by id, plus the next id
to hand out. An `Err` carries no store, which is how the rollback of a failed
transaction is modelled: a roll-call whose student list fails halfway leaves
no header behind.

Four error kinds stand for the exceptions the services throw:
- `NotFound`: a missing entity.
- `Conflict`: a uniqueness check done by the service.
- `Validation`: a student of another class, or an unknown mentor type.
- `ConstraintViolation`: what the database refuses. That is a NOT NULL column, a
  unique key, or a foreign key still referenced by a hard delete.

Java's nullable request fields are `Option`. The clock (`LocalDate.now()`,
`LocalTime.now()`, `LocalDateTime.now()`) comes in as a parameter.

Modules, one per source component:
- `Results`: `Option`, `Result`, `Error`.
- `Calendar`: dates, the month window.
- `MentorTipo`: the mentor-type enum, its names and labels, `valueOf(toUpperCase())`.
- `Entities`: the records, the store, the entity defaulting hooks, and the
  invariant `Valid`. `Valid` means fresh ids, every reference resolves, and every
  unique key of the schema holds.
- `Counting`: the sizes of id sets.
- `TurmaService`, `AlunoService`, `MentorService`, `ChamadaService`,
  `ChamadaMentorService`, `PresencaService`: the services.

Every write operation has a lemma proving that it preserves `Valid`. The
listings and rollups are related to the operations that change them.

Two behaviours of the code are easy to miss and are modelled as written:
- Updating an attendance record does not check that the student belongs to
  the class, although creating one does.
  `PresencaService.AtualizarPresencaSkipsMembership` shows the difference.
- Both roll-call creates can also fail with `ConstraintViolation`, which no
  explicit check in the services raises. For students, a null flag or a
  repeated student reaches `saveAll`. For mentors, a repeated mentor hits the
  unique (roll-call, mentor) key.

Paths in the table are relative to the repository root.

## Model

| member | source | states |
|---|---|---|
| Calendar.InMonthOf | controle-presenca-backend/src/main/java/com/controlepresenca/service/ChamadaMentorService.java:171-176 | the inclusive window from the first to the last day of today's month holds exactly the real dates of the same year and month |
| MentorTipo.ParseTipo | controle-presenca-backend/src/main/java/com/controlepresenca/service/MentorService.java:95-99 | `valueOf(s.toUpperCase())` succeeds exactly when some constant's name equals the upper-cased text, and yields that constant; otherwise the type is invalid |
| MentorTipo.ParseName | controle-presenca-backend/src/main/java/com/controlepresenca/entity/Mentor.java:35-39 | parsing a constant's own name gives the constant back |
| MentorTipo.ParseIgnoresCase | controle-presenca-backend/src/main/java/com/controlepresenca/service/MentorService.java:96 | the parse does not depend on the letter case of the input |
| MentorTipo.ToUpperIdempotent | controle-presenca-backend/src/main/java/com/controlepresenca/service/MentorService.java:96 | upper-casing twice is upper-casing once |
| MentorTipo.NamesAndLabelsInjective | controle-presenca-backend/src/main/java/com/controlepresenca/entity/Mentor.java:35-48 | distinct mentor types have distinct names and distinct labels |
| Entities.NormalizePresente | controle-presenca-backend/src/main/java/com/controlepresenca/entity/ChamadaMentorParticipante.java:43 | a null participant flag is stored as false and a given one as it is |
| Entities.NewParticipanteDraft | controle-presenca-backend/src/main/java/com/controlepresenca/entity/ChamadaMentorParticipante.java:33-36 | a new participant starts as absent, never null |
| Entities.SetPresente | controle-presenca-backend/src/main/java/com/controlepresenca/entity/ChamadaMentorParticipante.java:75-77 | the setter never leaves the flag null: it holds the normalised value |
| Entities.PrePersistParticipante | controle-presenca-backend/src/main/java/com/controlepresenca/entity/ChamadaMentorParticipante.java:87-95 | the insert hook keeps a set flag and turns a null one into false |
| Entities.PersistAfterSetPresente | controle-presenca-backend/src/main/java/com/controlepresenca/entity/ChamadaMentorParticipante.java:75-95 | after the setter the insert hook changes nothing, and the stored flag is the normalised request value |
| Entities.NewMentorDraft | controle-presenca-backend/src/main/java/com/controlepresenca/entity/Mentor.java:52-55 | a new mentor starts active |
| Entities.PrePersistMentor | controle-presenca-backend/src/main/java/com/controlepresenca/entity/Mentor.java:115-123 | the insert hook makes a null `ativo` true and keeps a set one |
| TurmaService.CriarTurma | controle-presenca-backend/src/main/java/com/controlepresenca/service/TurmaService.java:65-74 | Conflict exactly when the code is in use; otherwise one class is added at the next id with the request's fields, active unless `ativa` was false, nothing else changes |
| TurmaService.AtualizarTurma | controle-presenca-backend/src/main/java/com/controlepresenca/service/TurmaService.java:79-99 | NotFound for an unknown id, Conflict when another class has the code, and ConstraintViolation exactly when those pass and `ativa` is null (the NOT NULL column refuses it); otherwise only that class changes, to the request's fields, keeping its creation time |
| TurmaService.RemoverTurma | controle-presenca-backend/src/main/java/com/controlepresenca/service/TurmaService.java:104-114 | NotFound for an unknown id; otherwise only that class's `ativa` becomes false |
| TurmaService.ExcluirTurma | controle-presenca-backend/src/main/java/com/controlepresenca/service/TurmaService.java:119-124 | NotFound for an unknown id; ConstraintViolation exactly when a roll-call or a roll-call row of its students refers to it (a foreign key blocks `deleteById`); otherwise the class, its students and the attendance records of either are deleted, nothing else |
| TurmaService.ListarTurmasAtivas | controle-presenca-backend/src/main/java/com/controlepresenca/service/TurmaService.java:29-34 | exactly the stored classes with `ativa` true |
| TurmaService.ConsultarTurma | controle-presenca-backend/src/main/java/com/controlepresenca/service/TurmaService.java:139-153 | the view of a stored class counts its active students and its attendance records |
| TurmaService.CriarTurmaPreservesValid | controle-presenca-backend/src/main/java/com/controlepresenca/service/TurmaService.java:65-74 | creating a class keeps the store valid |
| TurmaService.CodigoStaysUnique | controle-presenca-backend/src/main/java/com/controlepresenca/service/TurmaService.java:67-69 | a second class with the code of one just created is a Conflict |
| TurmaService.AtualizarTurmaOwnCodigo | controle-presenca-backend/src/main/java/com/controlepresenca/service/TurmaService.java:86-89 | keeping a class's own code never conflicts |
| TurmaService.AtualizarTurmaPreservesValid | controle-presenca-backend/src/main/java/com/controlepresenca/service/TurmaService.java:79-99 | updating a class keeps the store valid |
| TurmaService.RemoverTurmaPreservesValid | controle-presenca-backend/src/main/java/com/controlepresenca/service/TurmaService.java:104-114 | the soft delete keeps the store valid |
| TurmaService.RemoverTurmaHides | controle-presenca-backend/src/main/java/com/controlepresenca/service/TurmaService.java:104-114 | after the soft delete the active listing is the old one without that class, and a second soft delete changes nothing |
| TurmaService.ExcluirTurmaPreservesValid | controle-presenca-backend/src/main/java/com/controlepresenca/service/TurmaService.java:119-124 | the hard delete with its cascade leaves no dangling reference |
| AlunoService.CriarAluno | controle-presenca-backend/src/main/java/com/controlepresenca/service/AlunoService.java:88-108 | NotFound for a missing class, then Conflict for a used matrícula, then for a used email; otherwise one student is added at the next id, active unless `ativo` was false |
| AlunoService.AtualizarAluno | controle-presenca-backend/src/main/java/com/controlepresenca/service/AlunoService.java:113-145 | NotFound for a missing student or class, Conflict when another student holds the matrícula or the email, and ConstraintViolation exactly when those pass and `ativo` is null; otherwise only that student changes, keeping its registration time |
| AlunoService.RemoverAluno | controle-presenca-backend/src/main/java/com/controlepresenca/service/AlunoService.java:150-160 | NotFound for an unknown id; otherwise only that student's `ativo` becomes false |
| AlunoService.ExcluirAluno | controle-presenca-backend/src/main/java/com/controlepresenca/service/AlunoService.java:165-170 | NotFound for an unknown id; ConstraintViolation exactly when a roll-call row names the student (its foreign key blocks the delete); otherwise the student and its attendance records are deleted |
| AlunoService.ListarAlunosAtivos | controle-presenca-backend/src/main/java/com/controlepresenca/service/AlunoService.java:34-39 | exactly the active students |
| AlunoService.ListarAlunosPorTurma | controle-presenca-backend/src/main/java/com/controlepresenca/service/AlunoService.java:54-59 | exactly the active students of that class, a subset of the active listing |
| AlunoService.CriarAlunoPreservesValid | controle-presenca-backend/src/main/java/com/controlepresenca/service/AlunoService.java:88-108 | creating a student keeps the store valid |
| AlunoService.MatriculaAndEmailStayUnique | controle-presenca-backend/src/main/java/com/controlepresenca/service/AlunoService.java:95-103 | a second student with the matrícula or the email of one just created is a Conflict |
| AlunoService.AtualizarAlunoOwnKeys | controle-presenca-backend/src/main/java/com/controlepresenca/service/AlunoService.java:126-134 | keeping a student's own matrícula and email never conflicts |
| AlunoService.AtualizarAlunoPreservesValid | controle-presenca-backend/src/main/java/com/controlepresenca/service/AlunoService.java:113-145 | updating a student keeps the store valid |
| AlunoService.RemoverAlunoPreservesValid | controle-presenca-backend/src/main/java/com/controlepresenca/service/AlunoService.java:150-160 | the soft delete keeps the store valid |
| AlunoService.RemoverAlunoHides | controle-presenca-backend/src/main/java/com/controlepresenca/service/AlunoService.java:150-160 | after the soft delete both listings lose exactly that student, and the class view's student count drops by one when the student was active there |
| AlunoService.TotalAlunosIsListingSize | controle-presenca-backend/src/main/java/com/controlepresenca/repository/TurmaRepository.java:54-55 | the class view's student count is the size of the class's active listing |
| AlunoService.ExcluirAlunoPreservesValid | controle-presenca-backend/src/main/java/com/controlepresenca/service/AlunoService.java:165-170 | the hard delete with its cascade leaves no dangling reference |
| MentorService.CriarMentor | controle-presenca-backend/src/main/java/com/controlepresenca/service/MentorService.java:85-103 | Conflict for a used email, then Validation for an unknown type; otherwise one active mentor is added whose type name is the upper-cased request text |
| MentorService.AtualizarMentor | controle-presenca-backend/src/main/java/com/controlepresenca/service/MentorService.java:108-131 | NotFound, then Conflict only when the email changes to one in use, then Validation exactly when those pass and the type is unknown, then ConstraintViolation exactly when the type parses and `ativo` is null; otherwise only that mentor changes |
| MentorService.RemoverMentor | controle-presenca-backend/src/main/java/com/controlepresenca/service/MentorService.java:136-142 | NotFound for an unknown id; otherwise only that mentor, now inactive, changes, and the id counter is untouched |
| MentorService.ReativarMentor | controle-presenca-backend/src/main/java/com/controlepresenca/service/MentorService.java:147-154 | NotFound for an unknown id; otherwise only that mentor, now active, changes, and the id counter is untouched |
| MentorService.ListarAtivos | controle-presenca-backend/src/main/java/com/controlepresenca/service/MentorService.java:39-44 | exactly the active mentors |
| MentorService.ListarPorTipo | controle-presenca-backend/src/main/java/com/controlepresenca/service/MentorService.java:50-59 | Validation for an unknown type text; otherwise exactly the active mentors whose type name is the upper-cased text |
| MentorService.ObterEstatisticas | controle-presenca-backend/src/main/java/com/controlepresenca/service/MentorService.java:171-180 | the three figures are the numbers of active mentors of kind MENTOR, MENTOR_TRAINEE and MENTOR_COORDENADOR |
| MentorService.EstatisticasPartitionAtivos | controle-presenca-backend/src/main/java/com/controlepresenca/service/MentorService.java:171-180 | the three per-type figures add up to the number of active mentors |
| MentorService.TotalMentoresIsRegularListing | controle-presenca-backend/src/main/java/com/controlepresenca/service/MentorService.java:174-175 | `totalMentores` ends up as the size of the listing of type MENTOR, the second assignment overriding the all-active count |
| MentorService.CriarMentorPreservesValid | controle-presenca-backend/src/main/java/com/controlepresenca/service/MentorService.java:85-103 | creating a mentor keeps the store valid |
| MentorService.MentorEmailStaysUnique | controle-presenca-backend/src/main/java/com/controlepresenca/service/MentorService.java:87-89 | a second mentor with the email of one just created is a Conflict |
| MentorService.AtualizarMentorOwnEmail | controle-presenca-backend/src/main/java/com/controlepresenca/service/MentorService.java:113-116 | keeping a mentor's own email never conflicts |
| MentorService.AtualizarMentorPreservesValid | controle-presenca-backend/src/main/java/com/controlepresenca/service/MentorService.java:108-131 | updating a mentor keeps the store valid |
| MentorService.SetAtivoPreservesValid | controle-presenca-backend/src/main/java/com/controlepresenca/service/MentorService.java:136-154 | deactivating or reactivating keeps the store valid |
| MentorService.RemoverReativarIdempotent | controle-presenca-backend/src/main/java/com/controlepresenca/service/MentorService.java:136-154 | each of remove and reactivate is idempotent, and reactivating a mentor that was active before a removal restores the store |
| MentorService.RemoverMentorHides | controle-presenca-backend/src/main/java/com/controlepresenca/service/MentorService.java:136-142 | after a removal the active listing and every per-type listing lose exactly that mentor |
| ChamadaService.FirstStray | controle-presenca-backend/src/main/java/com/controlepresenca/service/ChamadaService.java:59-66 | the per-student loop stops at the first entry that is missing or of another class, every earlier entry being a student of the class |
| ChamadaService.SaveRows | controle-presenca-backend/src/main/java/com/controlepresenca/service/ChamadaService.java:57-76 | the loop and `saveAll`: NotFound or Validation at the first offending entry, ConstraintViolation exactly when every entry names a student of the class and a flag is null or a student repeats, otherwise row i of the list at id c+1+i with that student's flag |
| ChamadaService.CriarChamada | controle-presenca-backend/src/main/java/com/controlepresenca/service/ChamadaService.java:38-80 | NotFound for a missing class, Conflict exactly for a taken (class, date); ConstraintViolation exactly when those pass, every listed student is of the class and the rows are not insertable; succeeds exactly when every listed student is of the class and the rows are insertable; then one header and one row per entry are added and nothing else changes |
| ChamadaService.ApplyStatuses | controle-presenca-backend/src/main/java/com/controlepresenca/service/ChamadaService.java:152-160 | only flags change; rows of listed students take the flag of their last entry, entries without a row are skipped, a null flag on an existing row is refused |
| ChamadaService.AtualizarChamada | controle-presenca-backend/src/main/java/com/controlepresenca/service/ChamadaService.java:143-163 | NotFound for an unknown id; the header keeps class, date and creation time and takes the new notes; the rows change as the update loop says |
| ChamadaService.RowsSplit | controle-presenca-backend/src/main/java/com/controlepresenca/service/ChamadaService.java:210-212 | a roll-call's rows split into present and absent ones, so their counts add up |
| ChamadaService.Resumo | controle-presenca-backend/src/main/java/com/controlepresenca/service/ChamadaService.java:194-215 | the full view counts the roll-call's rows, the present ones, and the rest as absences |
| ChamadaService.ResumoSimples | controle-presenca-backend/src/main/java/com/controlepresenca/service/ChamadaService.java:220-239 | the listing view counts present and absent rows separately; its total is the row count |
| ChamadaService.ResumosAgree | controle-presenca-backend/src/main/java/com/controlepresenca/service/ChamadaService.java:210-236 | the two views give the same three figures, and presences plus absences are the total |
| ChamadaService.RemoverChamada | controle-presenca-backend/src/main/java/com/controlepresenca/service/ChamadaService.java:168-175 | NotFound for an unknown id; otherwise the header and every row of it are deleted, nothing else |
| ChamadaService.BuscarChamadaPorTurmaEData | controle-presenca-backend/src/main/java/com/controlepresenca/service/ChamadaService.java:181-189 | a roll-call is found exactly when one exists for the class and date, and it is one of them |
| ChamadaService.BlockRows | controle-presenca-backend/src/main/java/com/controlepresenca/service/ChamadaService.java:68-76 | the block of new rows gives the new header one row per entry and as many present rows as entries flagged present |
| ChamadaService.CriarChamadaTotais | controle-presenca-backend/src/main/java/com/controlepresenca/service/ChamadaService.java:38-80 | right after a create, the view counts the list's length, the entries flagged present, and the difference as absences |
| ChamadaService.CriarChamadaPreservesValid | controle-presenca-backend/src/main/java/com/controlepresenca/service/ChamadaService.java:38-80 | a create keeps the store valid: the header's key stays unique and every row resolves and is unique per (roll-call, student) |
| ChamadaService.CriarChamadaOneRowPerStudent | controle-presenca-backend/src/main/java/com/controlepresenca/service/ChamadaService.java:59-76 | after a create, a student has a row in the new roll-call exactly when the student was listed |
| ChamadaService.SecondCriarChamadaConflicts | controle-presenca-backend/src/main/java/com/controlepresenca/service/ChamadaService.java:43-46 | a second create for the same class and date is a Conflict |
| ChamadaService.BuscarAfterCriarChamada | controle-presenca-backend/src/main/java/com/controlepresenca/service/ChamadaService.java:181-189 | the lookup by class and date finds the roll-call just created |
| ChamadaService.AtualizarChamadaPreservesValid | controle-presenca-backend/src/main/java/com/controlepresenca/service/ChamadaService.java:143-163 | an update keeps the store valid |
| ChamadaService.AtualizarChamadaKeepsTotal | controle-presenca-backend/src/main/java/com/controlepresenca/service/ChamadaService.java:152-160 | an update neither adds nor removes rows, so the roll-call's total is unchanged |
| ChamadaService.RemoverChamadaPreservesValid | controle-presenca-backend/src/main/java/com/controlepresenca/service/ChamadaService.java:168-175 | removal with its cascade keeps the store valid |
| ChamadaService.RemoverThenCriarChamada | controle-presenca-backend/src/main/java/com/controlepresenca/service/ChamadaService.java:168-175 | once a roll-call is removed its (class, date) can be taken again |
| ChamadaMentorService.FirstFailure | controle-presenca-backend/src/main/java/com/controlepresenca/service/ChamadaMentorService.java:53-63 | the participant loop stops at the first entry whose mentor is missing or already listed, every earlier entry saving |
| ChamadaMentorService.NewParticipante | controle-presenca-backend/src/main/java/com/controlepresenca/service/ChamadaMentorService.java:57-62 | a participant row is present exactly when its entry was sent as true; null and false are absent |
| ChamadaMentorService.SaveParticipantes | controle-presenca-backend/src/main/java/com/controlepresenca/service/ChamadaMentorService.java:52-63 | NotFound at the first missing mentor, ConstraintViolation at the first repeated one, otherwise entry i saved at the i-th next id and nothing else changes |
| ChamadaMentorService.CriarChamada | controle-presenca-backend/src/main/java/com/controlepresenca/service/ChamadaMentorService.java:38-67 | Conflict exactly for a taken date, ConstraintViolation for a null date (the NOT NULL column refuses the header's insert); no error other than Conflict, NotFound or ConstraintViolation; succeeds exactly when the date is given and free and every entry saves; otherwise ConstraintViolation only for a null date or at the first entry that cannot save while all before it can; then one header and one row per entry, none for a null or empty list |
| ChamadaMentorService.AtualizarChamada | controle-presenca-backend/src/main/java/com/controlepresenca/service/ChamadaMentorService.java:116-152 | the update with the participant list replaced as intended: NotFound for an unknown id; Conflict exactly when the date changes to one another roll-call holds; a null date always fails; no error other than NotFound, Conflict or ConstraintViolation; ConstraintViolation only for a null date or at the first entry that cannot save while all before it can; otherwise date and notes are set, every old row of the roll-call is gone and the new list is saved |
| ChamadaMentorService.RemoverChamada | controle-presenca-backend/src/main/java/com/controlepresenca/service/ChamadaMentorService.java:157-162 | NotFound for an unknown id; otherwise the header and its participants are deleted, nothing else |
| ChamadaMentorService.BuscarPorData | controle-presenca-backend/src/main/java/com/controlepresenca/service/ChamadaMentorService.java:97-100 | the roll-calls held on a date; empty exactly when the date is free |
| ChamadaMentorService.ParticipantesSplit | controle-presenca-backend/src/main/java/com/controlepresenca/service/ChamadaMentorService.java:201-203 | a roll-call's participants split into present and absent ones |
| ChamadaMentorService.Resumo | controle-presenca-backend/src/main/java/com/controlepresenca/service/ChamadaMentorService.java:197-210 | the view counts participants, present and absent ones, and presences plus absences are the total |
| ChamadaMentorService.ChamadasDoMes | controle-presenca-backend/src/main/java/com/controlepresenca/service/ChamadaMentorService.java:172-176 | the roll-calls counted for the month are stored ones, and a stored one with a real date is counted exactly when its date has today's year and month |
| ChamadaMentorService.ObterEstatisticas | controle-presenca-backend/src/main/java/com/controlepresenca/service/ChamadaMentorService.java:168-192 | the total is the number of roll-calls, the month's count is the number of roll-calls dated in today's month (so at most the total), and today's figures are 0 and 0 when today has no roll-call |
| ChamadaMentorService.CriarChamadaCountsInMonth | controle-presenca-backend/src/main/java/com/controlepresenca/service/ChamadaMentorService.java:172-176 | a create adds one to the number of roll-calls, and one to the month's count exactly when its date lies in today's month |
| ChamadaMentorService.AddedChamadaCounted | controle-presenca-backend/src/main/java/com/controlepresenca/service/ChamadaMentorService.java:175-176 | a roll-call stored under a new id raises the total by one, and the month's count by one exactly when its date is in the month |
| ChamadaMentorService.FirstClash | controle-presenca-backend/src/main/java/com/controlepresenca/service/ChamadaMentorService.java:137-149 | the update's loop as the program runs it stops at the first entry whose mentor is missing, repeated, or still listed by the roll-call |
| ChamadaMentorService.AtualizarChamadaAsWritten | controle-presenca-backend/src/main/java/com/controlepresenca/service/ChamadaMentorService.java:116-152 | the update as the program runs it: the same NotFound and Conflict cases, no other error than those and ConstraintViolation, and success exactly when the intended replace succeeds and no listed mentor is already a participant, ending in the same store |
| ChamadaMentorService.RelistingFailsAsWritten | controle-presenca-backend/src/main/java/com/controlepresenca/service/ChamadaMentorService.java:133-149 | whenever the intended replace succeeds but the new list names a current participant, the program fails on the unique (roll-call, mentor) key |
| ChamadaMentorService.RelistingCounterexample | controle-presenca-backend/src/main/java/com/controlepresenca/entity/ChamadaMentorParticipante.java:10-15 | a valid store and an update keeping the date and re-listing the only participant: the replace succeeds, the program gets a ConstraintViolation |
| ChamadaMentorService.BlockTotals | controle-presenca-backend/src/main/java/com/controlepresenca/service/ChamadaMentorService.java:52-63 | the saved block gives its roll-call one row per entry and as many present rows as entries sent as true |
| ChamadaMentorService.BlockParticipants | controle-presenca-backend/src/main/java/com/controlepresenca/service/ChamadaMentorService.java:52-63 | after the block is saved, a mentor takes part in the roll-call exactly when listed |
| ChamadaMentorService.CriarChamadaPreservesValid | controle-presenca-backend/src/main/java/com/controlepresenca/service/ChamadaMentorService.java:38-67 | a create keeps the store valid: one roll-call per date and one row per (roll-call, mentor) |
| ChamadaMentorService.CriarChamadaParticipantes | controle-presenca-backend/src/main/java/com/controlepresenca/service/ChamadaMentorService.java:38-67 | after a create the participants are exactly the listed mentors, counted as the list's length with the entries sent as true present |
| ChamadaMentorService.SecondCriarChamadaConflicts | controle-presenca-backend/src/main/java/com/controlepresenca/service/ChamadaMentorService.java:40-42 | a second create on the same date is a Conflict |
| ChamadaMentorService.AtualizarChamadaPreservesValid | controle-presenca-backend/src/main/java/com/controlepresenca/service/ChamadaMentorService.java:116-152 | an update keeps the store valid, including one roll-call per date after a move |
| ChamadaMentorService.AtualizarChamadaReplacesParticipantes | controle-presenca-backend/src/main/java/com/controlepresenca/service/ChamadaMentorService.java:133-149 | after an update the participants are exactly the mentors of the new list, even when it is shorter than the old one, and the totals are recounted from it |
| ChamadaMentorService.RemoverChamadaPreservesValid | controle-presenca-backend/src/main/java/com/controlepresenca/service/ChamadaMentorService.java:157-162 | removal with its cascade keeps the store valid |
| ChamadaMentorService.RemoverChamadaFreesDate | controle-presenca-backend/src/main/java/com/controlepresenca/entity/ChamadaMentor.java:29 | after removal no participant of the roll-call remains and its date is free |
| ChamadaMentorService.BuscarPorDataUnique | controle-presenca-backend/src/main/java/com/controlepresenca/entity/ChamadaMentor.java:12-13 | in a valid store a date finds exactly its one roll-call |
| ChamadaMentorService.EstatisticasHoje | controle-presenca-backend/src/main/java/com/controlepresenca/service/ChamadaMentorService.java:178-185 | when today has a roll-call, today's figures are its present and absent counts |
| PresencaService.NewPresenca | controle-presenca-backend/src/main/java/com/controlepresenca/service/PresencaService.java:243-251 | the stored record takes the given date and time, or today and now when they are null |
| PresencaService.RegistrarPresenca | controle-presenca-backend/src/main/java/com/controlepresenca/service/PresencaService.java:109-138 | NotFound for a missing student, then class; Validation exactly when the student is of another class; Conflict exactly when the student has a record on the effective date; otherwise one record added |
| PresencaService.RegistrarPresencaRapida | controle-presenca-backend/src/main/java/com/controlepresenca/service/PresencaService.java:186-194 | succeeds exactly when the student is of the class and has no record today; the record is dated today at now |
| PresencaService.AtualizarPresenca | controle-presenca-backend/src/main/java/com/controlepresenca/service/PresencaService.java:143-171 | NotFound for a missing record, student or class; null date or time and a (student, date) held by another record are refused by the schema; otherwise only that record changes, to the request's fields |
| PresencaService.RemoverPresenca | controle-presenca-backend/src/main/java/com/controlepresenca/service/PresencaService.java:176-181 | NotFound for an unknown id; otherwise exactly that record is removed |
| PresencaService.AtLeastAsRecentTotal | controle-presenca-backend/src/main/java/com/controlepresenca/repository/PresencaRepository.java:117 | any two records can be put in report order |
| PresencaService.AtLeastAsRecentTransitive | controle-presenca-backend/src/main/java/com/controlepresenca/repository/PresencaRepository.java:117 | the report order is transitive |
| PresencaService.Insert | controle-presenca-backend/src/main/java/com/controlepresenca/repository/PresencaRepository.java:117 | insertion adds exactly one element to the list |
| PresencaService.InsertKeepsOrder | controle-presenca-backend/src/main/java/com/controlepresenca/repository/PresencaRepository.java:117 | inserting a new record into a sorted list without repeats keeps it sorted and without repeats |
| PresencaService.GerarRelatorio | controle-presenca-backend/src/main/java/com/controlepresenca/repository/PresencaRepository.java:111-120 | the report lists exactly the records passing the optional class and inclusive date filters, each once, by date then time, most recent first |
| PresencaService.RegistrarPresencaPreservesValid | controle-presenca-backend/src/main/java/com/controlepresenca/service/PresencaService.java:109-138 | registration keeps one record per (student, date) and every reference resolving |
| PresencaService.SecondQuickRegistrationConflicts | controle-presenca-backend/src/main/java/com/controlepresenca/service/PresencaService.java:186-193 | a second quick registration of a student on the same day is a Conflict |
| PresencaService.RegisteredRecordReported | controle-presenca-backend/src/main/java/com/controlepresenca/repository/PresencaRepository.java:114-116 | a registered record passes the report filter of its class for any window that holds its date |
| PresencaService.ReplaceRecordValid | controle-presenca-backend/src/main/java/com/controlepresenca/entity/Presenca.java:17-18 | replacing a record by one whose references resolve and whose (student, date) is free keeps the store valid |
| PresencaService.AtualizarPresencaPreservesValid | controle-presenca-backend/src/main/java/com/controlepresenca/service/PresencaService.java:143-171 | an update keeps the store valid |
| PresencaService.AtualizarPresencaSkipsMembership | controle-presenca-backend/src/main/java/com/controlepresenca/service/PresencaService.java:150-167 | an update may move a record to a class its student is not in, which registration refuses with Validation |
| PresencaService.RemoverPresencaPreservesValid | controle-presenca-backend/src/main/java/com/controlepresenca/service/PresencaService.java:176-181 | removal keeps the store valid |
| PresencaService.RemoverPresencaFreesDate | controle-presenca-backend/src/main/java/com/controlepresenca/service/PresencaService.java:176-181 | after removal the student has no record on that date, so it can be registered again |

## Left out

- Controllers, the REST layer, the CSV and report-export service, configuration and the frontend: they hold no business rule of the services.
- Read-only lookups that only fetch: `buscarPorId`, `buscarPorCodigo`, `buscarPorMatricula`, `buscarPorEmail`, `buscarPorNome`, `listarTodos*`, the period listings, `listarPresencasPor*` and `contarPresencasPor*`. The listings modelled are enough to state what the writes do to them.
- Listing order by name: listings are sets of ids, because their order carries no property of the services. The report's date and time order is modelled.
- Timestamps: `LocalDateTime.now()` is one opaque parameter per call. In `registrarPresenca` the two `LocalDate.now()` calls are one `today`, so a call that straddles midnight is not modelled.
- Ids: one counter shared by all tables, where the database has one per table. Ids are opaque, so only their freshness matters.
- Null strings (names, codes, emails, notes) are not modelled: strings are plain `seq<char>`. Null dates and null lists in class roll-call requests are not modelled either. A null date in a mentor roll-call request is modelled.
- A null `mentorId` in a mentor roll-call entry is not modelled: ids are plain numbers. In the program, `findById(null)` throws and the transaction rolls back.
- MentorTipo.ParseTipo: upper-casing is modelled for ASCII letters only. Java's `toUpperCase` also maps some non-ASCII characters to ASCII: 'ı' (U+0131) becomes 'I', 'ſ' (U+017F) becomes 'S', and ligatures such as 'ﬁ' expand to two letters. So `valueOf` accepts texts such as "mentor_traınee" that the model refuses with Validation. MentorTipo.ParseIgnoresCase likewise holds for ASCII case only. Locale-specific case mapping is not modelled either.
- ChamadaMentorService.AtualizarChamada models the evidently intended replace of the participant list. What the program does instead is modelled by ChamadaMentorService.AtualizarChamadaAsWritten (see Findings).
- The order of the update's final flush is not modelled. If the flush fails, the whole update fails, so only the error kind could differ.
- Concurrency and isolation: two concurrent creates racing for one unique key are not modelled. Every call is atomic and sequential.
- Bean-validation annotations (`@NotBlank`, `@Email`, `@Size`) on the entities and DTOs are not modelled.
- The `(int)` casts of the counts are not modelled, because counts are unbounded. Counts above 2^31-1 are out of scope; there the casts would wrap. The casts are at ChamadaMentorService.java:175-185 and 205-207, ChamadaService.java:211 and 234-236, and MentorService.java:174-177.

## Findings

| source | as written | input that shows it | evidently intended | confidence | as-written member | corrected member |
|---|---|---|---|---|---|---|
| controle-presenca-backend/src/main/java/com/controlepresenca/service/ChamadaMentorService.java:133-149 | `deleteAll` queues the deletion of the old participants, and the loop then saves the new ones. Participant ids are IDENTITY-generated, so each `save` inserts its row at once, before the queued deletes run. | updating a roll-call whose participant is mentor 1 with a list that again names mentor 1 (`ChamadaMentorService.RelistingCounterexample`) | the old list is replaced by the new one, whichever mentors it names | medium; not executed | ChamadaMentorService.AtualizarChamadaAsWritten | ChamadaMentorService.AtualizarChamada |

A re-listed mentor's new row collides with the old row, which is still in the table, on the unique (roll-call, mentor) key. `ChamadaMentorService.RelistingFailsAsWritten` proves that every such update fails.

`ChamadaMentorService.AtualizarChamadaReplacesParticipantes` proves the intended replace for the corrected member: afterwards the participants are exactly the new list. The rest of the model uses the corrected member.
