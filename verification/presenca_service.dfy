/**
 * Standalone attendance records: registration checked against the student's
 * class with one record per (student, date), the quick variant stamped with
 * the current date and time, the unchecked overwrite of the update, removal,
 * and the report with its optional filters and most-recent-first order.
 */
module PresencaService {
  import opened Results
  import opened Calendar
  import opened Entities

  /** The request of registration and update; date and time may be null. */
  datatype PresencaInput =
    PresencaInput(alunoId: Id, turmaId: Id, dataPresenca: Option<Date>, horaPresenca: Option<Time>, observacoes: string)

  /** `existsByAlunoIdAndDataPresenca`. */
  predicate ExistsByAlunoIdAndData(presencas: map<Id, Presenca>, alunoId: Id, data: Date) {
    exists k :: k in presencas && presencas[k].alunoId == alunoId && presencas[k].dataPresenca == data
  }

  /**
   * `convertToEntity`: the record a registration stores, with a null date
   * replaced by `today` and a null time by `now` (`LocalDate.now()` and
   * `LocalTime.now()` as parameters), stamped at instant `at`.
   */
  function NewPresenca(input: PresencaInput, today: Date, now: Time, at: Instant): (p: Presenca)
    ensures p.alunoId == input.alunoId && p.turmaId == input.turmaId && p.observacoes == input.observacoes
    ensures input.dataPresenca.Some? ==> p.dataPresenca == input.dataPresenca.value
    ensures input.dataPresenca.None? ==> p.dataPresenca == today
    ensures input.horaPresenca.Some? ==> p.horaPresenca == input.horaPresenca.value
    ensures input.horaPresenca.None? ==> p.horaPresenca == now
    ensures p.dataHoraRegistro == at
  {
    Presenca(input.alunoId, input.turmaId, input.dataPresenca.GetOr(today), input.horaPresenca.GetOr(now),
             input.observacoes, at)
  }

  /**
   * `registrarPresenca`: the student must exist (NotFound), then the class
   * (NotFound), then the student must be in that class (Validation); a record
   * for the student on the effective date is a Conflict; otherwise one new
   * record is stored.
   */
  function RegistrarPresenca(s: Store, input: PresencaInput, today: Date, now: Time, at: Instant): (r: Result<Store>)
    ensures input.alunoId !in s.alunos ==> r == Err(NotFound)
    ensures input.alunoId in s.alunos && input.turmaId !in s.turmas ==> r == Err(NotFound)
    ensures r == Err(Validation) <==>
              input.alunoId in s.alunos && input.turmaId in s.turmas && s.alunos[input.alunoId].turmaId != input.turmaId
    ensures r == Err(Conflict) <==>
              && input.alunoId in s.alunos && input.turmaId in s.turmas && s.alunos[input.alunoId].turmaId == input.turmaId
              && ExistsByAlunoIdAndData(s.presencas, input.alunoId, input.dataPresenca.GetOr(today))
    ensures r.Ok? <==>
              && input.alunoId in s.alunos && input.turmaId in s.turmas && s.alunos[input.alunoId].turmaId == input.turmaId
              && !ExistsByAlunoIdAndData(s.presencas, input.alunoId, input.dataPresenca.GetOr(today))
    ensures r.Ok? ==>
              var s' := r.value;
              && OnlyChanged(s, s', {Presencas}) && s'.nextId == s.nextId + 1
              && AddsOne(s.presencas, s'.presencas, s.nextId)
              && s'.presencas[s.nextId] == NewPresenca(input, today, now, at)
  {
    if input.alunoId !in s.alunos then Err(NotFound)
    else if input.turmaId !in s.turmas then Err(NotFound)
    else if s.alunos[input.alunoId].turmaId != input.turmaId then Err(Validation)
    else if ExistsByAlunoIdAndData(s.presencas, input.alunoId, input.dataPresenca.GetOr(today)) then Err(Conflict)
    else Ok(s.(presencas := s.presencas[s.nextId := NewPresenca(input, today, now, at)], nextId := s.nextId + 1))
  }

  /**
   * `registrarPresencaRapida`: a registration dated `today` at `now`, with
   * no notes.
   */
  function RegistrarPresencaRapida(s: Store, alunoId: Id, turmaId: Id, today: Date, now: Time, at: Instant): (r: Result<Store>)
    ensures r.Ok? <==>
              && alunoId in s.alunos && turmaId in s.turmas && s.alunos[alunoId].turmaId == turmaId
              && !ExistsByAlunoIdAndData(s.presencas, alunoId, today)
    ensures r.Ok? ==>
              && AddsOne(s.presencas, r.value.presencas, s.nextId)
              && r.value.presencas[s.nextId] == Presenca(alunoId, turmaId, today, now, "", at)
  {
    RegistrarPresenca(s, PresencaInput(alunoId, turmaId, Some(today), Some(now), ""), today, now, at)
  }

  /** Another record than `id` already holds (student, date). */
  predicate TakenByOther(presencas: map<Id, Presenca>, id: Id, alunoId: Id, data: Date) {
    exists k :: k in presencas && k != id && presencas[k].alunoId == alunoId && presencas[k].dataPresenca == data
  }

  /**
   * `atualizarPresenca`: the record, the student and the class must exist
   * (NotFound, in that order); then student, class, date, time and notes are
   * overwritten without the membership or duplicate checks of registration.
   * What the database still refuses is a ConstraintViolation: a null date or
   * time (NOT NULL columns) and a (student, date) pair another record holds.
   */
  function AtualizarPresenca(s: Store, id: Id, input: PresencaInput): (r: Result<Store>)
    ensures id !in s.presencas ==> r == Err(NotFound)
    ensures r == Err(NotFound) <==> id !in s.presencas || input.alunoId !in s.alunos || input.turmaId !in s.turmas
    ensures r.Ok? <==>
              && id in s.presencas && input.alunoId in s.alunos && input.turmaId in s.turmas
              && input.dataPresenca.Some? && input.horaPresenca.Some?
              && !TakenByOther(s.presencas, id, input.alunoId, input.dataPresenca.value)
    ensures r.Err? ==> r.error in {NotFound, ConstraintViolation}
    ensures r.Ok? ==>
              && OnlyChanged(s, r.value, {Presencas}) && r.value.nextId == s.nextId
              && ChangesOne(s.presencas, r.value.presencas, id) && id in r.value.presencas
              && var p := r.value.presencas[id];
              && p.alunoId == input.alunoId && p.turmaId == input.turmaId
              && Some(p.dataPresenca) == input.dataPresenca && Some(p.horaPresenca) == input.horaPresenca
              && p.observacoes == input.observacoes
              && p.dataHoraRegistro == s.presencas[id].dataHoraRegistro
  {
    if id !in s.presencas then Err(NotFound)
    else if input.alunoId !in s.alunos then Err(NotFound)
    else if input.turmaId !in s.turmas then Err(NotFound)
    else if input.dataPresenca.None? || input.horaPresenca.None? then Err(ConstraintViolation)
    else if TakenByOther(s.presencas, id, input.alunoId, input.dataPresenca.value) then Err(ConstraintViolation)
    else
      var p := s.presencas[id].(alunoId := input.alunoId, turmaId := input.turmaId,
                                dataPresenca := input.dataPresenca.value, horaPresenca := input.horaPresenca.value,
                                observacoes := input.observacoes);
      Ok(s.(presencas := s.presencas[id := p]))
  }

  /** `removerPresenca`: NotFound for an unknown id, otherwise exactly that record goes. */
  function RemoverPresenca(s: Store, id: Id): (r: Result<Store>)
    ensures r.Err? <==> id !in s.presencas
    ensures r.Err? ==> r.error == NotFound
    ensures r.Ok? ==>
              && OnlyChanged(s, r.value, {Presencas}) && r.value.nextId == s.nextId
              && r.value.presencas.Keys == s.presencas.Keys - {id}
              && forall k :: k in r.value.presencas ==> r.value.presencas[k] == s.presencas[k]
  {
    if id !in s.presencas then Err(NotFound)
    else Ok(s.(presencas := s.presencas - {id}))
  }

  // ---------------------------------------------------------------------------
  // The report

  /**
   * The filter of `findRelatorioPresencas`: each of class, first date and
   * last date applies only when given, and the date bounds are inclusive.
   */
  predicate Matches(p: Presenca, turmaId: Option<Id>, inicio: Option<Date>, fim: Option<Date>) {
    && (turmaId.None? || p.turmaId == turmaId.value)
    && (inicio.None? || DateLe(inicio.value, p.dataPresenca))
    && (fim.None? || DateLe(p.dataPresenca, fim.value))
  }

  /** `ORDER BY dataPresenca DESC, horaPresenca DESC`: `a` may be listed before `b`. */
  predicate AtLeastAsRecent(a: Presenca, b: Presenca) {
    DateLe(b.dataPresenca, a.dataPresenca) && (a.dataPresenca == b.dataPresenca ==> b.horaPresenca <= a.horaPresenca)
  }

  lemma AtLeastAsRecentTotal(a: Presenca, b: Presenca)
    ensures AtLeastAsRecent(a, b) || AtLeastAsRecent(b, a)
  {
    DateLeTotal(a.dataPresenca, b.dataPresenca);
  }

  lemma AtLeastAsRecentTransitive(a: Presenca, b: Presenca, c: Presenca)
    requires AtLeastAsRecent(a, b) && AtLeastAsRecent(b, c)
    ensures AtLeastAsRecent(a, c)
  {
    DateLeTransitive(c.dataPresenca, b.dataPresenca, a.dataPresenca);
    if a.dataPresenca == c.dataPresenca {
      DateLeAntisymmetric(a.dataPresenca, b.dataPresenca);
    }
  }

  /** The listed records are in report order. */
  predicate Sorted(ps: map<Id, Presenca>, ids: seq<Id>) {
    forall i, j :: 0 <= i < j < |ids| && ids[i] in ps && ids[j] in ps ==> AtLeastAsRecent(ps[ids[i]], ps[ids[j]])
  }

  /** No record is listed twice. */
  predicate NoDup(ids: seq<Id>) {
    forall i, j :: 0 <= i < j < |ids| ==> ids[i] != ids[j]
  }

  /** Puts `k` before the first listed record that is older than it. */
  function Insert(ps: map<Id, Presenca>, ids: seq<Id>, k: Id): (r: seq<Id>)
    requires k in ps && forall i :: 0 <= i < |ids| ==> ids[i] in ps
    ensures |r| == |ids| + 1
    ensures forall x :: x in r <==> x == k || x in ids
    ensures forall i :: 0 <= i < |r| ==> r[i] in ps
    decreases |ids|
  {
    if |ids| == 0 then [k]
    else if AtLeastAsRecent(ps[k], ps[ids[0]]) then [k] + ids
    else [ids[0]] + Insert(ps, ids[1..], k)
  }

  /** A record at least as recent as every listed one, and not among them, can be put in front. */
  lemma PrependKeepsOrder(ps: map<Id, Presenca>, x: Id, rest: seq<Id>)
    requires x in ps && forall i :: 0 <= i < |rest| ==> rest[i] in ps
    requires Sorted(ps, rest) && NoDup(rest)
    requires forall j :: 0 <= j < |rest| ==> AtLeastAsRecent(ps[x], ps[rest[j]]) && rest[j] != x
    ensures Sorted(ps, [x] + rest) && NoDup([x] + rest)
  {
    var r := [x] + rest;
    forall i, j | 0 <= i < j < |r| ensures AtLeastAsRecent(ps[r[i]], ps[r[j]]) && r[i] != r[j] {
      assert r[j] == rest[j - 1];
      if i > 0 {
        assert r[i] == rest[i - 1];
      }
    }
  }

  /** Dropping the first element keeps a list sorted. */
  lemma TailSorted(ps: map<Id, Presenca>, ids: seq<Id>)
    requires |ids| > 0 && Sorted(ps, ids)
    ensures Sorted(ps, ids[1..])
  {
    var tail := ids[1..];
    forall i, j | 0 <= i < j < |tail| && tail[i] in ps && tail[j] in ps
      ensures AtLeastAsRecent(ps[tail[i]], ps[tail[j]])
    {
      assert tail[i] == ids[i + 1] && tail[j] == ids[j + 1];
    }
  }

  /** Inserting into a sorted list without repeats keeps it sorted, and without repeats when `k` is new. */
  lemma {:induction false} InsertKeepsOrder(ps: map<Id, Presenca>, ids: seq<Id>, k: Id)
    requires k in ps && forall i :: 0 <= i < |ids| ==> ids[i] in ps
    requires Sorted(ps, ids) && NoDup(ids) && k !in ids
    ensures Sorted(ps, Insert(ps, ids, k)) && NoDup(Insert(ps, ids, k))
    decreases |ids|
  {
    if |ids| == 0 {
    } else if AtLeastAsRecent(ps[k], ps[ids[0]]) {
      forall j | 0 <= j < |ids| ensures AtLeastAsRecent(ps[k], ps[ids[j]]) && ids[j] != k {
        if j > 0 {
          AtLeastAsRecentTransitive(ps[k], ps[ids[0]], ps[ids[j]]);
        }
      }
      PrependKeepsOrder(ps, k, ids);
    } else {
      var tail := ids[1..];
      TailSorted(ps, ids);
      InsertKeepsOrder(ps, tail, k);
      var rest := Insert(ps, tail, k);
      AtLeastAsRecentTotal(ps[k], ps[ids[0]]);
      forall j | 0 <= j < |rest| ensures AtLeastAsRecent(ps[ids[0]], ps[rest[j]]) && rest[j] != ids[0] {
        assert rest[j] in rest;
        if rest[j] != k {
          var i :| 0 <= i < |tail| && tail[i] == rest[j];
          assert ids[i + 1] == rest[j];
        }
      }
      PrependKeepsOrder(ps, ids[0], rest);
    }
  }

  /**
   * `gerarRelatorio`: every record that passes the filter, each once, most
   * recent first (records with equal date and time may come in any order).
   */
  method GerarRelatorio(s: Store, turmaId: Option<Id>, inicio: Option<Date>, fim: Option<Date>) returns (ids: seq<Id>)
    ensures forall k :: k in ids <==> k in s.presencas && Matches(s.presencas[k], turmaId, inicio, fim)
    ensures NoDup(ids)
    ensures Sorted(s.presencas, ids)
  {
    var remaining := s.presencas.Keys;
    ids := [];
    while remaining != {}
      invariant remaining <= s.presencas.Keys
      invariant forall k :: k in ids <==> k in s.presencas && k !in remaining && Matches(s.presencas[k], turmaId, inicio, fim)
      invariant NoDup(ids) && Sorted(s.presencas, ids)
      decreases |remaining|
    {
      var k :| k in remaining;
      if Matches(s.presencas[k], turmaId, inicio, fim) {
        InsertKeepsOrder(s.presencas, ids, k);
        ids := Insert(s.presencas, ids, k);
      }
      remaining := remaining - {k};
    }
  }

  // ---------------------------------------------------------------------------
  // Properties

  /** Adding a record at the next id whose keys resolve and whose (student, date) pair is free keeps the store valid. */
  lemma AddRecordValid(s: Store, p: Presenca)
    requires Valid(s)
    requires p.alunoId in s.alunos && p.turmaId in s.turmas
    requires !ExistsByAlunoIdAndData(s.presencas, p.alunoId, p.dataPresenca)
    ensures Valid(s.(presencas := s.presencas[s.nextId := p], nextId := s.nextId + 1))
  {
  }

  lemma RegistrarPresencaPreservesValid(s: Store, input: PresencaInput, today: Date, now: Time, at: Instant)
    requires Valid(s)
    ensures RegistrarPresenca(s, input, today, now, at).Ok? ==> Valid(RegistrarPresenca(s, input, today, now, at).value)
  {
    var r := RegistrarPresenca(s, input, today, now, at);
    if r.Ok? {
      var p := NewPresenca(input, today, now, at);
      assert r.value == s.(presencas := s.presencas[s.nextId := p], nextId := s.nextId + 1);
      AddRecordValid(s, p);
    }
  }

  /** Once a student has a quick registration on a day, a second one that day is a Conflict. */
  lemma SecondQuickRegistrationConflicts(s: Store, alunoId: Id, turmaId: Id, today: Date, now: Time, now': Time,
                                         at: Instant, at': Instant)
    requires RegistrarPresencaRapida(s, alunoId, turmaId, today, now, at).Ok?
    ensures RegistrarPresencaRapida(RegistrarPresencaRapida(s, alunoId, turmaId, today, now, at).value,
                                    alunoId, turmaId, today, now', at') == Err(Conflict)
  {
    var s' := RegistrarPresencaRapida(s, alunoId, turmaId, today, now, at).value;
    assert s'.presencas[s.nextId].alunoId == alunoId && s'.presencas[s.nextId].dataPresenca == today;
  }

  /** A registered record shows up in the report of its class for any window holding its date. */
  lemma RegisteredRecordReported(s: Store, input: PresencaInput, today: Date, now: Time, at: Instant,
                                 inicio: Option<Date>, fim: Option<Date>)
    requires RegistrarPresenca(s, input, today, now, at).Ok?
    requires var d := input.dataPresenca.GetOr(today);
             (inicio.None? || DateLe(inicio.value, d)) && (fim.None? || DateLe(d, fim.value))
    ensures var s' := RegistrarPresenca(s, input, today, now, at).value;
            s.nextId in s'.presencas && Matches(s'.presencas[s.nextId], Some(input.turmaId), inicio, fim)
  {
  }

  /** Replacing a record by one whose keys resolve and whose (student, date) pair is free keeps the store valid. */
  lemma ReplaceRecordValid(s: Store, id: Id, p: Presenca)
    requires Valid(s) && id in s.presencas
    requires p.alunoId in s.alunos && p.turmaId in s.turmas
    requires !TakenByOther(s.presencas, id, p.alunoId, p.dataPresenca)
    ensures Valid(s.(presencas := s.presencas[id := p]))
  {
  }

  lemma AtualizarPresencaPreservesValid(s: Store, id: Id, input: PresencaInput)
    requires Valid(s)
    ensures AtualizarPresenca(s, id, input).Ok? ==> Valid(AtualizarPresenca(s, id, input).value)
  {
    var r := AtualizarPresenca(s, id, input);
    if r.Ok? {
      var p := r.value.presencas[id];
      assert r.value == s.(presencas := s.presencas[id := p]);
      ReplaceRecordValid(s, id, p);
    }
  }

  /**
   * The update does not check membership: a record may be moved to a class
   * its student does not belong to, which registration would refuse.
   */
  lemma AtualizarPresencaSkipsMembership(s: Store, id: Id, input: PresencaInput, today: Date, now: Time, at: Instant)
    requires AtualizarPresenca(s, id, input).Ok?
    requires s.alunos[input.alunoId].turmaId != input.turmaId
    ensures RegistrarPresenca(s, input, today, now, at) == Err(Validation)
    ensures AtualizarPresenca(s, id, input).value.presencas[id].turmaId != s.alunos[input.alunoId].turmaId
  {
  }

  lemma RemoverPresencaPreservesValid(s: Store, id: Id)
    requires Valid(s)
    ensures RemoverPresenca(s, id).Ok? ==> Valid(RemoverPresenca(s, id).value)
  {
  }

  /** Removing a record frees its (student, date) pair for a new registration. */
  lemma RemoverPresencaFreesDate(s: Store, id: Id)
    requires Valid(s) && id in s.presencas
    ensures !ExistsByAlunoIdAndData(RemoverPresenca(s, id).value.presencas,
                                    s.presencas[id].alunoId, s.presencas[id].dataPresenca)
  {
  }
}
