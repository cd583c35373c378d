/**
 * The persistent entities and the store that holds them.
 *
 * Each table is a finite map from a generated id to the row. Foreign keys are
 * ids; the store-wide invariant `Valid` collects what the database schema
 * guarantees: generated ids are fresh, foreign keys resolve, and the unique
 * columns and column pairs are unique.
 */
module Entities {
  import opened Results
  import opened Calendar
  import opened MentorTipo

  type Id = nat

  /** A creation or registration stamp (LocalDateTime), carried and never inspected. */
  type Instant = nat

  datatype Turma = Turma(nome: string, codigo: string, descricao: string, ativa: bool, dataCriacao: Instant)

  datatype Aluno = Aluno(nome: string, matricula: string, email: string, turmaId: Id, ativo: bool, dataCadastro: Instant)

  datatype Mentor = Mentor(nome: string, email: string, tipo: TipoMentor, ativo: bool, dataCadastro: Instant)

  /** A class roll-call: one per class and date. */
  datatype Chamada = Chamada(turmaId: Id, dataChamada: Date, observacoes: string, dataCriacao: Instant)

  /** One student's present/absent row inside a class roll-call. */
  datatype ChamadaAluno = ChamadaAluno(chamadaId: Id, alunoId: Id, presente: bool, dataRegistro: Instant)

  /** A mentor roll-call: one per date, across the whole program. */
  datatype ChamadaMentor = ChamadaMentor(dataChamada: Date, observacoes: string, dataCriacao: Instant)

  /** One mentor's present/absent row inside a mentor roll-call. */
  datatype Participante = Participante(chamadaMentorId: Id, mentorId: Id, presente: bool, dataRegistro: Instant)

  /** A standalone attendance record: one per student and day. */
  datatype Presenca = Presenca(alunoId: Id, turmaId: Id, dataPresenca: Date, horaPresenca: Time, observacoes: string, dataHoraRegistro: Instant)

  datatype Store = Store(
    turmas: map<Id, Turma>,
    alunos: map<Id, Aluno>,
    mentores: map<Id, Mentor>,
    chamadas: map<Id, Chamada>,
    chamadaAlunos: map<Id, ChamadaAluno>,
    chamadasMentor: map<Id, ChamadaMentor>,
    participantes: map<Id, Participante>,
    presencas: map<Id, Presenca>,
    nextId: Id)

  function EmptyStore(): Store {
    Store(map[], map[], map[], map[], map[], map[], map[], map[], 0)
  }

  // ---------------------------------------------------------------------------
  // Nullable Boolean columns before they are stored
  // ---------------------------------------------------------------------------

  /** A participant's `presente` as the constructor and `setPresente` store it: null becomes false. */
  function NormalizePresente(presente: Option<bool>): (b: bool)
    ensures presente.Some? ==> b == presente.value
    ensures presente.None? ==> !b
  {
    presente.GetOr(false)
  }

  /** The Java-side state of a participant's `presente` field (a nullable Boolean). */
  datatype ParticipanteDraft = ParticipanteDraft(presente: Option<bool>)

  /** `new ChamadaMentorParticipante()`: the field starts as false. */
  function NewParticipanteDraft(): (d: ParticipanteDraft)
    ensures d.presente == Some(false)
  {
    ParticipanteDraft(Some(false))
  }

  /** `setPresente(v)` and the three-argument constructor: never leave the field null. */
  function SetPresente(d: ParticipanteDraft, v: Option<bool>): (d': ParticipanteDraft)
    ensures d'.presente == Some(NormalizePresente(v))
  {
    d.(presente := Some(v.GetOr(false)))
  }

  /** The @PrePersist hook: a null `presente` becomes false, a set one is kept. */
  function PrePersistParticipante(d: ParticipanteDraft): (d': ParticipanteDraft)
    ensures d.presente.Some? ==> d' == d
    ensures d.presente.None? ==> d'.presente == Some(false)
  {
    if d.presente.None? then d.(presente := Some(false)) else d
  }

  /** Whatever the setter received, the hook changes nothing and the stored flag is its normalisation. */
  lemma PersistAfterSetPresente(d: ParticipanteDraft, v: Option<bool>)
    ensures PrePersistParticipante(SetPresente(d, v)) == SetPresente(d, v)
    ensures PrePersistParticipante(SetPresente(d, v)).presente == Some(NormalizePresente(v))
  {
  }

  /** The Java-side state of a mentor's `ativo` field (a nullable Boolean). */
  datatype MentorDraft = MentorDraft(nome: string, email: string, tipo: TipoMentor, ativo: Option<bool>)

  /** `new Mentor(...)`: a new mentor starts active. */
  function NewMentorDraft(nome: string, email: string, tipo: TipoMentor): (d: MentorDraft)
    ensures d.ativo == Some(true)
    ensures d.nome == nome && d.email == email && d.tipo == tipo
  {
    MentorDraft(nome, email, tipo, Some(true))
  }

  /** The @PrePersist hook: a null `ativo` becomes true, a set one is kept. */
  function PrePersistMentor(d: MentorDraft): (d': MentorDraft)
    ensures d'.ativo.Some?
    ensures d.ativo.Some? ==> d' == d
    ensures d.ativo.None? ==> d'.ativo == Some(true) && d'.(ativo := None) == d
  {
    if d.ativo.None? then d.(ativo := Some(true)) else d
  }

  // ---------------------------------------------------------------------------
  // What the schema guarantees
  // ---------------------------------------------------------------------------

  ghost predicate KeysBelow<V>(m: map<Id, V>, bound: Id) {
    forall k :: k in m ==> k < bound
  }

  /** Every id in use is below the next id to hand out. */
  ghost predicate FreshIds(s: Store) {
    && KeysBelow(s.turmas, s.nextId)
    && KeysBelow(s.alunos, s.nextId)
    && KeysBelow(s.mentores, s.nextId)
    && KeysBelow(s.chamadas, s.nextId)
    && KeysBelow(s.chamadaAlunos, s.nextId)
    && KeysBelow(s.chamadasMentor, s.nextId)
    && KeysBelow(s.participantes, s.nextId)
    && KeysBelow(s.presencas, s.nextId)
  }

  ghost predicate AlunosInTurmas(alunos: map<Id, Aluno>, turmas: map<Id, Turma>) {
    forall k :: k in alunos ==> alunos[k].turmaId in turmas
  }

  ghost predicate ChamadasInTurmas(chamadas: map<Id, Chamada>, turmas: map<Id, Turma>) {
    forall k :: k in chamadas ==> chamadas[k].turmaId in turmas
  }

  ghost predicate RowsResolve(rows: map<Id, ChamadaAluno>, chamadas: map<Id, Chamada>, alunos: map<Id, Aluno>) {
    forall k :: k in rows ==> rows[k].chamadaId in chamadas && rows[k].alunoId in alunos
  }

  ghost predicate ParticipantesResolve(ps: map<Id, Participante>, chamadas: map<Id, ChamadaMentor>, mentores: map<Id, Mentor>) {
    forall k :: k in ps ==> ps[k].chamadaMentorId in chamadas && ps[k].mentorId in mentores
  }

  ghost predicate PresencasResolve(ps: map<Id, Presenca>, alunos: map<Id, Aluno>, turmas: map<Id, Turma>) {
    forall k :: k in ps ==> ps[k].alunoId in alunos && ps[k].turmaId in turmas
  }

  /** Every foreign key resolves. */
  ghost predicate Referential(s: Store) {
    && AlunosInTurmas(s.alunos, s.turmas)
    && ChamadasInTurmas(s.chamadas, s.turmas)
    && RowsResolve(s.chamadaAlunos, s.chamadas, s.alunos)
    && ParticipantesResolve(s.participantes, s.chamadasMentor, s.mentores)
    && PresencasResolve(s.presencas, s.alunos, s.turmas)
  }

  ghost predicate UniqueCodigo(turmas: map<Id, Turma>) {
    forall j, k :: j in turmas && k in turmas && turmas[j].codigo == turmas[k].codigo ==> j == k
  }

  ghost predicate UniqueMatricula(alunos: map<Id, Aluno>) {
    forall j, k :: j in alunos && k in alunos && alunos[j].matricula == alunos[k].matricula ==> j == k
  }

  ghost predicate UniqueAlunoEmail(alunos: map<Id, Aluno>) {
    forall j, k :: j in alunos && k in alunos && alunos[j].email == alunos[k].email ==> j == k
  }

  ghost predicate UniqueMentorEmail(mentores: map<Id, Mentor>) {
    forall j, k :: j in mentores && k in mentores && mentores[j].email == mentores[k].email ==> j == k
  }

  /** At most one class roll-call per (class, date). */
  ghost predicate UniqueChamada(chamadas: map<Id, Chamada>) {
    forall j, k ::
      (j in chamadas && k in chamadas && chamadas[j].turmaId == chamadas[k].turmaId
       && chamadas[j].dataChamada == chamadas[k].dataChamada) ==> j == k
  }

  /** At most one row per (roll-call, student). */
  ghost predicate UniqueRow(rows: map<Id, ChamadaAluno>) {
    forall j, k ::
      (j in rows && k in rows && rows[j].chamadaId == rows[k].chamadaId
       && rows[j].alunoId == rows[k].alunoId) ==> j == k
  }

  /** At most one mentor roll-call per date. */
  ghost predicate UniqueChamadaMentor(chamadas: map<Id, ChamadaMentor>) {
    forall j, k :: j in chamadas && k in chamadas && chamadas[j].dataChamada == chamadas[k].dataChamada ==> j == k
  }

  /** At most one participant row per (mentor roll-call, mentor). */
  ghost predicate UniqueParticipante(ps: map<Id, Participante>) {
    forall j, k ::
      (j in ps && k in ps && ps[j].chamadaMentorId == ps[k].chamadaMentorId
       && ps[j].mentorId == ps[k].mentorId) ==> j == k
  }

  /** At most one standalone attendance record per (student, date). */
  ghost predicate UniquePresenca(ps: map<Id, Presenca>) {
    forall j, k ::
      (j in ps && k in ps && ps[j].alunoId == ps[k].alunoId
       && ps[j].dataPresenca == ps[k].dataPresenca) ==> j == k
  }

  ghost predicate Unique(s: Store) {
    && UniqueCodigo(s.turmas)
    && UniqueMatricula(s.alunos)
    && UniqueAlunoEmail(s.alunos)
    && UniqueMentorEmail(s.mentores)
    && UniqueChamada(s.chamadas)
    && UniqueRow(s.chamadaAlunos)
    && UniqueChamadaMentor(s.chamadasMentor)
    && UniqueParticipante(s.participantes)
    && UniquePresenca(s.presencas)
  }

  ghost predicate Valid(s: Store) {
    FreshIds(s) && Referential(s) && Unique(s)
  }

  lemma EmptyStoreValid()
    ensures Valid(EmptyStore())
  {
  }

  // ---------------------------------------------------------------------------
  // Framing
  // ---------------------------------------------------------------------------

  datatype Table = Turmas | Alunos | Mentores | Chamadas | ChamadaAlunos | ChamadasMentor | Participantes | Presencas

  /** Every table outside `changed` is identical in `s` and `s'`. */
  ghost predicate OnlyChanged(s: Store, s': Store, changed: set<Table>) {
    && (Turmas !in changed ==> s'.turmas == s.turmas)
    && (Alunos !in changed ==> s'.alunos == s.alunos)
    && (Mentores !in changed ==> s'.mentores == s.mentores)
    && (Chamadas !in changed ==> s'.chamadas == s.chamadas)
    && (ChamadaAlunos !in changed ==> s'.chamadaAlunos == s.chamadaAlunos)
    && (ChamadasMentor !in changed ==> s'.chamadasMentor == s.chamadasMentor)
    && (Participantes !in changed ==> s'.participantes == s.participantes)
    && (Presencas !in changed ==> s'.presencas == s.presencas)
  }

  /** `m'` is `m` with one entry added at `k` and every other entry kept. */
  ghost predicate AddsOne<V>(m: map<Id, V>, m': map<Id, V>, k: Id) {
    && m'.Keys == m.Keys + {k}
    && forall j :: j in m && j != k ==> m'[j] == m[j]
  }

  /** `m'` has the same keys as `m` and differs from it at most at `k`. */
  ghost predicate ChangesOne<V>(m: map<Id, V>, m': map<Id, V>, k: Id) {
    && m'.Keys == m.Keys
    && forall j :: j in m && j != k ==> m'[j] == m[j]
  }
}
