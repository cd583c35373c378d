/**
 * The class roll-call workflow: one roll-call per (class, date), written as a
 * header plus one present/absent row per listed student; an update that only
 * touches the notes and the flags of rows that already exist; removal with
 * the cascade to the rows; and the totals derived when a roll-call is read.
 */
module ChamadaService {
  import opened Results
  import opened Calendar
  import opened Entities
  import Counting

  /** One student's entry in a create or update request; `presente` may be null. */
  datatype StatusAluno = StatusAluno(alunoId: Id, presente: Option<bool>)

  /** The create request; the update reuses it and ignores the class and the date. */
  datatype ChamadaRequest = ChamadaRequest(turmaId: Id, dataChamada: Date, observacoes: string, alunos: seq<StatusAluno>)

  /** `existsByTurmaIdAndDataChamada`. */
  predicate ChamadaExists(chamadas: map<Id, Chamada>, turmaId: Id, data: Date) {
    exists k :: k in chamadas && chamadas[k].turmaId == turmaId && chamadas[k].dataChamada == data
  }

  /** The entry names a stored student of class `turmaId`. */
  predicate BelongsTo(alunos: map<Id, Aluno>, entry: StatusAluno, turmaId: Id) {
    entry.alunoId in alunos && alunos[entry.alunoId].turmaId == turmaId
  }

  /** Where the per-student loop stops: the first entry that does not belong to the class, or `|st|`. */
  function FirstStray(alunos: map<Id, Aluno>, turmaId: Id, st: seq<StatusAluno>): (i: nat)
    ensures i <= |st|
    ensures forall j :: 0 <= j < i ==> BelongsTo(alunos, st[j], turmaId)
    ensures i < |st| ==> !BelongsTo(alunos, st[i], turmaId)
    decreases |st|
  {
    if |st| == 0 then 0
    else if !BelongsTo(alunos, st[0], turmaId) then 0
    else 1 + FirstStray(alunos, turmaId, st[1..])
  }

  /** What `saveAll` accepts: no null flag (NOT NULL column) and no student twice (unique (chamada, aluno)). */
  predicate RowsInsertable(st: seq<StatusAluno>) {
    && (forall i :: 0 <= i < |st| ==> st[i].presente.Some?)
    && (forall i, j :: 0 <= i < j < |st| ==> st[i].alunoId != st[j].alunoId)
  }

  /** The rows `saveAll` writes for header `c`: entry `i` gets id `c + 1 + i`. */
  function RowBlock(c: Id, st: seq<StatusAluno>, at: Instant): (rows: map<Id, ChamadaAluno>)
    requires forall i :: 0 <= i < |st| ==> st[i].presente.Some?
    ensures forall k :: k in rows <==> c < k <= c + |st|
    ensures forall i :: 0 <= i < |st| ==> rows[c + 1 + i] == ChamadaAluno(c, st[i].alunoId, st[i].presente.value, at)
    decreases |st|
  {
    if |st| == 0 then map[]
    else
      var n := |st|;
      RowBlock(c, st[..n - 1], at)[c + n := ChamadaAluno(c, st[n - 1].alunoId, st[n - 1].presente.value, at)]
  }

  /**
   * The part of `criarChamada` after the header `c` is saved in `s1`: the
   * per-student loop, then `saveAll`.
   */
  function SaveRows(s1: Store, turmaId: Id, c: Id, st: seq<StatusAluno>, at: Instant): (r: Result<Store>)
    ensures r.Ok? <==> (forall i :: 0 <= i < |st| ==> BelongsTo(s1.alunos, st[i], turmaId)) && RowsInsertable(st)
    ensures r == Err(NotFound) ==>
              exists i :: 0 <= i < |st| && st[i].alunoId !in s1.alunos
                          && forall j :: 0 <= j < i ==> BelongsTo(s1.alunos, st[j], turmaId)
    ensures r == Err(Validation) ==>
              exists i :: 0 <= i < |st| && st[i].alunoId in s1.alunos && s1.alunos[st[i].alunoId].turmaId != turmaId
                          && forall j :: 0 <= j < i ==> BelongsTo(s1.alunos, st[j], turmaId)
    ensures r.Err? ==> r.error in {NotFound, Validation, ConstraintViolation}
    ensures r == Err(ConstraintViolation) <==>
              (forall i :: 0 <= i < |st| ==> BelongsTo(s1.alunos, st[i], turmaId)) && !RowsInsertable(st)
    ensures r.Ok? ==>
              && OnlyChanged(s1, r.value, {ChamadaAlunos}) && r.value.nextId == c + 1 + |st|
              && (forall k :: k in r.value.chamadaAlunos <==> k in s1.chamadaAlunos || c < k <= c + |st|)
              && (forall k :: k in s1.chamadaAlunos && !(c < k <= c + |st|) ==> r.value.chamadaAlunos[k] == s1.chamadaAlunos[k])
              && (forall i :: 0 <= i < |st| ==>
                    r.value.chamadaAlunos[c + 1 + i] == ChamadaAluno(c, st[i].alunoId, st[i].presente.value, at))
  {
    var i := FirstStray(s1.alunos, turmaId, st);
    if i < |st| then
      if st[i].alunoId !in s1.alunos then Err(NotFound) else Err(Validation)
    else if !RowsInsertable(st) then Err(ConstraintViolation)
    else
      var block := RowBlock(c, st, at);
      Ok(s1.(chamadaAlunos := s1.chamadaAlunos + block, nextId := c + 1 + |st|))
  }

  /**
   * `criarChamada`. A missing class is NotFound and an existing roll-call for
   * the class and date is a Conflict. The header is saved first; then the
   * students are checked in list order and the first one that is missing
   * (NotFound) or of another class (Validation) aborts the transaction,
   * header included. Finally `saveAll` writes the rows.
   */
  function CriarChamada(s: Store, req: ChamadaRequest, at: Instant): (r: Result<Store>)
    ensures req.turmaId !in s.turmas ==> r == Err(NotFound)
    ensures r == Err(Conflict) <==> req.turmaId in s.turmas && ChamadaExists(s.chamadas, req.turmaId, req.dataChamada)
    ensures r.Ok? <==>
              && req.turmaId in s.turmas && !ChamadaExists(s.chamadas, req.turmaId, req.dataChamada)
              && (forall i :: 0 <= i < |req.alunos| ==> BelongsTo(s.alunos, req.alunos[i], req.turmaId))
              && RowsInsertable(req.alunos)
    ensures r == Err(NotFound) && req.turmaId in s.turmas ==>
              exists i :: 0 <= i < |req.alunos| && req.alunos[i].alunoId !in s.alunos
                          && forall j :: 0 <= j < i ==> BelongsTo(s.alunos, req.alunos[j], req.turmaId)
    ensures r == Err(Validation) ==>
              exists i :: 0 <= i < |req.alunos| && req.alunos[i].alunoId in s.alunos
                          && s.alunos[req.alunos[i].alunoId].turmaId != req.turmaId
                          && forall j :: 0 <= j < i ==> BelongsTo(s.alunos, req.alunos[j], req.turmaId)
    ensures r == Err(ConstraintViolation) <==>
              && req.turmaId in s.turmas && !ChamadaExists(s.chamadas, req.turmaId, req.dataChamada)
              && (forall i :: 0 <= i < |req.alunos| ==> BelongsTo(s.alunos, req.alunos[i], req.turmaId))
              && !RowsInsertable(req.alunos)
    ensures r.Ok? ==>
              var s', c, n := r.value, s.nextId, |req.alunos|;
              && OnlyChanged(s, s', {Chamadas, ChamadaAlunos}) && s'.nextId == c + 1 + n
              && AddsOne(s.chamadas, s'.chamadas, c)
              && s'.chamadas[c] == Chamada(req.turmaId, req.dataChamada, req.observacoes, at)
              && (forall k :: k in s'.chamadaAlunos <==> k in s.chamadaAlunos || c < k <= c + n)
              && (forall k :: k in s.chamadaAlunos && !(c < k <= c + n) ==> s'.chamadaAlunos[k] == s.chamadaAlunos[k])
              && (forall i :: 0 <= i < n ==>
                    s'.chamadaAlunos[c + 1 + i] == ChamadaAluno(c, req.alunos[i].alunoId, req.alunos[i].presente.value, at))
  {
    if req.turmaId !in s.turmas then Err(NotFound)
    else if ChamadaExists(s.chamadas, req.turmaId, req.dataChamada) then Err(Conflict)
    else
      var c := s.nextId;
      var s1 := s.(chamadas := s.chamadas[c := Chamada(req.turmaId, req.dataChamada, req.observacoes, at)], nextId := c + 1);
      SaveRows(s1, req.turmaId, c, req.alunos, at)
  }

  /** `findByChamadaIdAndAlunoId(c, a)` finds a row. */
  predicate HasRow(rows: map<Id, ChamadaAluno>, c: Id, a: Id) {
    exists k :: k in rows && rows[k].chamadaId == c && rows[k].alunoId == a
  }

  /** Student `a` has an entry in the list. */
  predicate Listed(st: seq<StatusAluno>, a: Id) {
    exists i :: 0 <= i < |st| && st[i].alunoId == a
  }

  /** Entry `i` is the last one for its student. */
  predicate IsLast(st: seq<StatusAluno>, i: int)
    requires 0 <= i < |st|
  {
    forall j :: i < j < |st| ==> st[j].alunoId != st[i].alunoId
  }

  /** `rows'` holds the same rows as `rows` except, perhaps, for their flags. */
  predicate OnlyFlags(rows: map<Id, ChamadaAluno>, rows': map<Id, ChamadaAluno>) {
    && rows'.Keys == rows.Keys
    && forall k :: k in rows ==> rows'[k].(presente := rows[k].presente) == rows[k]
  }

  /** `setPresente(p)` followed by `save` on the row of roll-call `c` for student `a`. */
  function SetFlag(rows: map<Id, ChamadaAluno>, c: Id, a: Id, p: bool): (r: map<Id, ChamadaAluno>)
    ensures OnlyFlags(rows, r)
    ensures forall k :: k in rows && rows[k].chamadaId == c && rows[k].alunoId == a ==> r[k].presente == p
    ensures forall k :: k in rows && !(rows[k].chamadaId == c && rows[k].alunoId == a) ==> r[k] == rows[k]
    ensures forall c', a' :: HasRow(r, c', a') <==> HasRow(rows, c', a')
  {
    var r := map k | k in rows :: if rows[k].chamadaId == c && rows[k].alunoId == a then rows[k].(presente := p) else rows[k];
    forall c', a' | HasRow(rows, c', a') ensures HasRow(r, c', a') {
      var k :| k in rows && rows[k].chamadaId == c' && rows[k].alunoId == a';
      assert k in r && r[k].chamadaId == c' && r[k].alunoId == a';
    }
    r
  }

  /**
   * The update loop of `atualizarChamada`, entry by entry in list order: an
   * entry whose student has a row in roll-call `c` sets that row's flag (a
   * null flag is rejected by the NOT NULL column); any other entry is
   * skipped. No row is created or removed, and the last entry for a student
   * decides its flag.
   */
  function ApplyStatuses(rows: map<Id, ChamadaAluno>, c: Id, st: seq<StatusAluno>): (r: Result<map<Id, ChamadaAluno>>)
    ensures r.Err? <==> exists i :: 0 <= i < |st| && st[i].presente.None? && HasRow(rows, c, st[i].alunoId)
    ensures r.Err? ==> r.error == ConstraintViolation
    ensures r.Ok? ==> OnlyFlags(rows, r.value)
    ensures r.Ok? ==> forall k :: k in rows && (rows[k].chamadaId != c || !Listed(st, rows[k].alunoId)) ==> r.value[k] == rows[k]
    ensures r.Ok? ==> forall k, i ::
              k in rows && rows[k].chamadaId == c && 0 <= i < |st| && st[i].alunoId == rows[k].alunoId && IsLast(st, i)
              ==> Some(r.value[k].presente) == st[i].presente
    decreases |st|
  {
    if |st| == 0 then Ok(rows)
    else if !HasRow(rows, c, st[0].alunoId) then ApplyStatuses(rows, c, st[1..])
    else if st[0].presente.None? then Err(ConstraintViolation)
    else ApplyStatuses(SetFlag(rows, c, st[0].alunoId, st[0].presente.value), c, st[1..])
  }

  /**
   * `atualizarChamada`: a missing id is NotFound. Only the header's notes
   * change (the request's class and date are ignored), then the update loop
   * runs over the rows.
   */
  function AtualizarChamada(s: Store, id: Id, req: ChamadaRequest): (r: Result<Store>)
    ensures id !in s.chamadas ==> r == Err(NotFound)
    ensures r.Ok? <==>
              id in s.chamadas
              && !exists i :: 0 <= i < |req.alunos| && req.alunos[i].presente.None? && HasRow(s.chamadaAlunos, id, req.alunos[i].alunoId)
    ensures r.Err? && id in s.chamadas ==> r.error == ConstraintViolation
    ensures r.Ok? ==>
              var s' := r.value;
              && OnlyChanged(s, s', {Chamadas, ChamadaAlunos}) && s'.nextId == s.nextId
              && ChangesOne(s.chamadas, s'.chamadas, id)
              && s'.chamadas[id].turmaId == s.chamadas[id].turmaId
              && s'.chamadas[id].dataChamada == s.chamadas[id].dataChamada
              && s'.chamadas[id].dataCriacao == s.chamadas[id].dataCriacao
              && s'.chamadas[id].observacoes == req.observacoes
              && OnlyFlags(s.chamadaAlunos, s'.chamadaAlunos)
              && (forall k :: k in s.chamadaAlunos && (s.chamadaAlunos[k].chamadaId != id || !Listed(req.alunos, s.chamadaAlunos[k].alunoId))
                    ==> s'.chamadaAlunos[k] == s.chamadaAlunos[k])
              && (forall k, i ::
                    k in s.chamadaAlunos && s.chamadaAlunos[k].chamadaId == id && 0 <= i < |req.alunos|
                    && req.alunos[i].alunoId == s.chamadaAlunos[k].alunoId && IsLast(req.alunos, i)
                    ==> Some(s'.chamadaAlunos[k].presente) == req.alunos[i].presente)
  {
    if id !in s.chamadas then Err(NotFound)
    else
      var s1 := s.(chamadas := s.chamadas[id := s.chamadas[id].(observacoes := req.observacoes)]);
      match ApplyStatuses(s1.chamadaAlunos, id, req.alunos)
      case Err(e) => Err(e)
      case Ok(rows) => Ok(s1.(chamadaAlunos := rows))
  }

  /** The rows of roll-call `c`. */
  function RowsOf(rows: map<Id, ChamadaAluno>, c: Id): (r: set<Id>)
    ensures forall k :: k in r <==> k in rows && rows[k].chamadaId == c
  {
    set k | k in rows && rows[k].chamadaId == c
  }

  /** The rows of roll-call `c` marked present (`countByChamadaIdAndPresenteTrue`). */
  function PresentRowsOf(rows: map<Id, ChamadaAluno>, c: Id): (r: set<Id>)
    ensures forall k :: k in r <==> k in rows && rows[k].chamadaId == c && rows[k].presente
  {
    set k | k in rows && rows[k].chamadaId == c && rows[k].presente
  }

  /** The rows of roll-call `c` marked absent (`countByChamadaIdAndPresenteFalse`). */
  function AbsentRowsOf(rows: map<Id, ChamadaAluno>, c: Id): (r: set<Id>)
    ensures forall k :: k in r <==> k in rows && rows[k].chamadaId == c && !rows[k].presente
  {
    set k | k in rows && rows[k].chamadaId == c && !rows[k].presente
  }

  /** Every row of a roll-call is either present or absent, never both. */
  lemma RowsSplit(rows: map<Id, ChamadaAluno>, c: Id)
    ensures RowsOf(rows, c) == PresentRowsOf(rows, c) + AbsentRowsOf(rows, c)
    ensures |RowsOf(rows, c)| == |PresentRowsOf(rows, c)| + |AbsentRowsOf(rows, c)|
  {
    Counting.PartitionSize(RowsOf(rows, c), PresentRowsOf(rows, c), AbsentRowsOf(rows, c));
  }

  /** A roll-call as the DTOs show it: the header, its rows and the three totals. */
  datatype ChamadaResumo = ChamadaResumo(chamada: Chamada, rows: set<Id>, totalAlunos: int, totalPresentes: int, totalFaltas: int)

  /**
   * `convertToDTO` (the detailed view of `buscarChamadaPorId`): the total is
   * the number of rows, presentes those flagged present, faltas the
   * difference — which is the number of absent rows.
   */
  function Resumo(s: Store, id: Id): (v: ChamadaResumo)
    requires id in s.chamadas
    ensures v.chamada == s.chamadas[id] && v.rows == RowsOf(s.chamadaAlunos, id)
    ensures v.totalAlunos == |v.rows| && v.totalPresentes == |PresentRowsOf(s.chamadaAlunos, id)|
    ensures v.totalFaltas == |AbsentRowsOf(s.chamadaAlunos, id)|
    ensures 0 <= v.totalPresentes <= v.totalAlunos
  {
    var rows := RowsOf(s.chamadaAlunos, id);
    var presentes := |PresentRowsOf(s.chamadaAlunos, id)|;
    RowsSplit(s.chamadaAlunos, id);
    ChamadaResumo(s.chamadas[id], rows, |rows|, presentes, |rows| - presentes)
  }

  /**
   * `convertToDTOSimples` (the listings): present and absent rows are
   * counted separately and the total is their sum.
   */
  function ResumoSimples(s: Store, id: Id): (v: ChamadaResumo)
    requires id in s.chamadas
    ensures v.chamada == s.chamadas[id] && v.rows == {}
    ensures v.totalAlunos == |RowsOf(s.chamadaAlunos, id)|
    ensures v.totalPresentes == |PresentRowsOf(s.chamadaAlunos, id)|
  {
    var presentes := |PresentRowsOf(s.chamadaAlunos, id)|;
    var faltas := |AbsentRowsOf(s.chamadaAlunos, id)|;
    RowsSplit(s.chamadaAlunos, id);
    ChamadaResumo(s.chamadas[id], {}, presentes + faltas, presentes, faltas)
  }

  /** The two views agree on the three totals, and presentes + faltas = total. */
  lemma ResumosAgree(s: Store, id: Id)
    requires id in s.chamadas
    ensures var v, w := Resumo(s, id), ResumoSimples(s, id);
            && v.totalAlunos == w.totalAlunos && v.totalPresentes == w.totalPresentes && v.totalFaltas == w.totalFaltas
            && v.totalPresentes + v.totalFaltas == v.totalAlunos
  {
  }

  /** `removerChamada`: a missing id is NotFound; otherwise the header and, by cascade, its rows go. */
  function RemoverChamada(s: Store, id: Id): (r: Result<Store>)
    ensures r.Err? <==> id !in s.chamadas
    ensures r.Err? ==> r.error == NotFound
    ensures r.Ok? ==>
              var s' := r.value;
              && OnlyChanged(s, s', {Chamadas, ChamadaAlunos}) && s'.nextId == s.nextId
              && s'.chamadas == s.chamadas - {id}
              && (forall k :: k in s'.chamadaAlunos <==> k in s.chamadaAlunos && s.chamadaAlunos[k].chamadaId != id)
              && (forall k :: k in s'.chamadaAlunos ==> s'.chamadaAlunos[k] == s.chamadaAlunos[k])
              && RowsOf(s'.chamadaAlunos, id) == {}
  {
    if id !in s.chamadas then Err(NotFound)
    else
      Ok(s.(chamadas := s.chamadas - {id},
            chamadaAlunos := map k | k in s.chamadaAlunos && s.chamadaAlunos[k].chamadaId != id :: s.chamadaAlunos[k]))
  }

  /**
   * `buscarChamadaPorTurmaEData`: the roll-call of a class on a date, if
   * there is one (the unique key makes it the only one).
   */
  ghost function BuscarChamadaPorTurmaEData(s: Store, turmaId: Id, data: Date): (r: Option<Id>)
    ensures r.Some? <==> ChamadaExists(s.chamadas, turmaId, data)
    ensures r.Some? ==> r.value in s.chamadas && s.chamadas[r.value].turmaId == turmaId && s.chamadas[r.value].dataChamada == data
  {
    if ChamadaExists(s.chamadas, turmaId, data) then
      Some(var k :| k in s.chamadas && s.chamadas[k].turmaId == turmaId && s.chamadas[k].dataChamada == data; k)
    else None
  }

  // ---------------------------------------------------------------------------
  // Properties
  // ---------------------------------------------------------------------------

  /** The flags a create request records, in list order (null counts as not present). */
  function Flags(st: seq<StatusAluno>): (f: seq<bool>)
    ensures |f| == |st|
    ensures forall i :: 0 <= i < |st| ==> (f[i] <==> st[i].presente == Some(true))
  {
    seq(|st|, i requires 0 <= i < |st| => st[i].presente == Some(true))
  }

  /** A successful create is the old store plus the header and the block of rows. */
  lemma CriarChamadaStore(s: Store, req: ChamadaRequest, at: Instant)
    requires CriarChamada(s, req, at).Ok?
    ensures RowsInsertable(req.alunos)
    ensures CriarChamada(s, req, at).value
            == s.(chamadas := s.chamadas[s.nextId := Chamada(req.turmaId, req.dataChamada, req.observacoes, at)],
                  chamadaAlunos := s.chamadaAlunos + RowBlock(s.nextId, req.alunos, at),
                  nextId := s.nextId + 1 + |req.alunos|)
  {
  }

  /**
   * Rows added as a block for a header no earlier row points at are exactly
   * that header's rows: one per entry, and as many present as entries flagged
   * present.
   */
  lemma BlockRows(earlier: map<Id, ChamadaAluno>, all: map<Id, ChamadaAluno>, c: Id, st: seq<StatusAluno>, at: Instant)
    requires forall i :: 0 <= i < |st| ==> st[i].presente.Some?
    requires forall k :: k in earlier ==> earlier[k].chamadaId < c && k < c
    requires all == earlier + RowBlock(c, st, at)
    ensures |RowsOf(all, c)| == |st|
    ensures |PresentRowsOf(all, c)| == Counting.CountTrue(Flags(st))
  {
    var block := RowBlock(c, st, at);
    forall k | c < k <= c + |st| ensures all[k] == ChamadaAluno(c, st[k - c - 1].alunoId, st[k - c - 1].presente.value, at) {
      var i := k - c - 1;
      assert block[c + 1 + i] == ChamadaAluno(c, st[i].alunoId, st[i].presente.value, at);
    }
    assert RowsOf(all, c) == Counting.Range(c + 1, |st|) by {
      forall k | k in RowsOf(all, c) ensures c < k <= c + |st| {
        assert k in block;
      }
    }
    assert PresentRowsOf(all, c) == Counting.Selected(c + 1, Flags(st)) by {
      forall k | k in PresentRowsOf(all, c) ensures k in Counting.Selected(c + 1, Flags(st)) {
        assert k in block;
      }
    }
  }

  /** In a valid store no row points at the next id, and every row id is below it. */
  lemma RowsBelowNextId(s: Store)
    requires FreshIds(s) && RowsResolve(s.chamadaAlunos, s.chamadas, s.alunos)
    ensures forall k :: k in s.chamadaAlunos ==> s.chamadaAlunos[k].chamadaId < s.nextId && k < s.nextId
  {
    forall k | k in s.chamadaAlunos ensures s.chamadaAlunos[k].chamadaId < s.nextId {
      assert s.chamadaAlunos[k].chamadaId in s.chamadas;
    }
  }

  /**
   * After a create, the detailed view counts one row per listed student and
   * as many present as the request flagged present.
   */
  lemma CriarChamadaTotais(s: Store, req: ChamadaRequest, at: Instant)
    requires Valid(s)
    requires CriarChamada(s, req, at).Ok?
    ensures var v := Resumo(CriarChamada(s, req, at).value, s.nextId);
            && v.totalAlunos == |req.alunos|
            && v.totalPresentes == Counting.CountTrue(Flags(req.alunos))
            && v.totalFaltas == |req.alunos| - Counting.CountTrue(Flags(req.alunos))
  {
    CriarChamadaStore(s, req, at);
    RowsBelowNextId(s);
    var rows := CriarChamada(s, req, at).value.chamadaAlunos;
    BlockRows(s.chamadaAlunos, rows, s.nextId, req.alunos, at);
  }

  /** The block of rows keeps every row's keys resolving and the (roll-call, student) pairs unique. */
  lemma BlockRowsValid(s: Store, chamadas: map<Id, Chamada>, c: Id, st: seq<StatusAluno>, at: Instant)
    requires forall i :: 0 <= i < |st| ==> st[i].presente.Some?
    requires forall i, j :: 0 <= i < j < |st| ==> st[i].alunoId != st[j].alunoId
    requires forall i :: 0 <= i < |st| ==> st[i].alunoId in s.alunos
    requires forall k :: k in s.chamadaAlunos ==> s.chamadaAlunos[k].chamadaId < c && k < c
    requires RowsResolve(s.chamadaAlunos, chamadas, s.alunos) && UniqueRow(s.chamadaAlunos)
    requires c in chamadas
    ensures RowsResolve(s.chamadaAlunos + RowBlock(c, st, at), chamadas, s.alunos)
    ensures UniqueRow(s.chamadaAlunos + RowBlock(c, st, at))
  {
    var all := s.chamadaAlunos + RowBlock(c, st, at);
    forall k | k in all
      ensures all[k].chamadaId in chamadas && all[k].alunoId in s.alunos
      ensures c < k ==> all[k].chamadaId == c && all[k].alunoId == st[k - c - 1].alunoId
      ensures k < c ==> all[k].chamadaId < c
    {
      if c < k {
        var i := k - c - 1;
        assert all[c + 1 + i] == ChamadaAluno(c, st[i].alunoId, st[i].presente.value, at);
      }
    }
  }

  /** The store a create that passed every check leaves: the header at the next id, then the block of rows. */
  ghost predicate IsHeaderAndBlock(s: Store, s': Store, req: ChamadaRequest, at: Instant)
    requires RowsInsertable(req.alunos)
  {
    s' == s.(chamadas := s.chamadas[s.nextId := Chamada(req.turmaId, req.dataChamada, req.observacoes, at)],
             chamadaAlunos := s.chamadaAlunos + RowBlock(s.nextId, req.alunos, at),
             nextId := s.nextId + 1 + |req.alunos|)
  }

  lemma HeaderAndBlockFresh(s: Store, s': Store, req: ChamadaRequest, at: Instant)
    requires FreshIds(s) && RowsInsertable(req.alunos) && IsHeaderAndBlock(s, s', req, at)
    ensures FreshIds(s')
  {
  }

  lemma HeaderAndBlockReferential(s: Store, s': Store, req: ChamadaRequest, at: Instant)
    requires FreshIds(s) && Referential(s) && UniqueRow(s.chamadaAlunos)
    requires req.turmaId in s.turmas
    requires forall i :: 0 <= i < |req.alunos| ==> BelongsTo(s.alunos, req.alunos[i], req.turmaId)
    requires RowsInsertable(req.alunos) && IsHeaderAndBlock(s, s', req, at)
    ensures Referential(s') && UniqueRow(s'.chamadaAlunos)
  {
    RowsBelowNextId(s);
    assert RowsResolve(s.chamadaAlunos, s'.chamadas, s.alunos) by {
      forall k | k in s.chamadaAlunos ensures s.chamadaAlunos[k].chamadaId in s'.chamadas {
        assert s.chamadaAlunos[k].chamadaId in s.chamadas;
      }
    }
    BlockRowsValid(s, s'.chamadas, s.nextId, req.alunos, at);
  }

  lemma HeaderUnique(s: Store, s': Store, req: ChamadaRequest, at: Instant)
    requires UniqueChamada(s.chamadas) && s.nextId !in s.chamadas
    requires !ChamadaExists(s.chamadas, req.turmaId, req.dataChamada)
    requires RowsInsertable(req.alunos) && IsHeaderAndBlock(s, s', req, at)
    ensures UniqueChamada(s'.chamadas)
  {
  }

  /** The header and the block of rows of a create that passed every check keep the store valid. */
  lemma HeaderAndBlockValid(s: Store, s': Store, req: ChamadaRequest, at: Instant)
    requires Valid(s)
    requires req.turmaId in s.turmas && !ChamadaExists(s.chamadas, req.turmaId, req.dataChamada)
    requires forall i :: 0 <= i < |req.alunos| ==> BelongsTo(s.alunos, req.alunos[i], req.turmaId)
    requires RowsInsertable(req.alunos) && IsHeaderAndBlock(s, s', req, at)
    ensures Valid(s')
  {
    HeaderAndBlockFresh(s, s', req, at);
    HeaderAndBlockReferential(s, s', req, at);
    HeaderUnique(s, s', req, at);
  }

  lemma CriarChamadaPreservesValid(s: Store, req: ChamadaRequest, at: Instant)
    requires Valid(s)
    ensures CriarChamada(s, req, at).Ok? ==> Valid(CriarChamada(s, req, at).value)
  {
    if CriarChamada(s, req, at).Ok? {
      CriarChamadaStore(s, req, at);
      assert forall i :: 0 <= i < |req.alunos| ==> BelongsTo(s.alunos, req.alunos[i], req.turmaId);
      HeaderAndBlockValid(s, CriarChamada(s, req, at).value, req, at);
    }
  }

  /** A block of rows for a fresh header holds a row for a student exactly when the student is listed. */
  lemma BlockHasRow(earlier: map<Id, ChamadaAluno>, all: map<Id, ChamadaAluno>, c: Id, st: seq<StatusAluno>, at: Instant, a: Id)
    requires forall i :: 0 <= i < |st| ==> st[i].presente.Some?
    requires forall k :: k in earlier ==> earlier[k].chamadaId < c && k < c
    requires all == earlier + RowBlock(c, st, at)
    ensures HasRow(all, c, a) <==> Listed(st, a)
  {
    var block := RowBlock(c, st, at);
    if HasRow(all, c, a) {
      var k :| k in all && all[k].chamadaId == c && all[k].alunoId == a;
      assert k in block;
      var i := k - c - 1;
      assert block[c + 1 + i] == ChamadaAluno(c, st[i].alunoId, st[i].presente.value, at);
    }
    if Listed(st, a) {
      var i :| 0 <= i < |st| && st[i].alunoId == a;
      assert all[c + 1 + i].chamadaId == c;
    }
  }

  /** A successful create stores a row for each listed student and for no one else. */
  lemma CriarChamadaOneRowPerStudent(s: Store, req: ChamadaRequest, at: Instant, a: Id)
    requires Valid(s)
    requires CriarChamada(s, req, at).Ok?
    ensures HasRow(CriarChamada(s, req, at).value.chamadaAlunos, s.nextId, a) <==> Listed(req.alunos, a)
  {
    CriarChamadaStore(s, req, at);
    RowsBelowNextId(s);
    var rows := CriarChamada(s, req, at).value.chamadaAlunos;
    BlockHasRow(s.chamadaAlunos, rows, s.nextId, req.alunos, at, a);
  }

  /** Once a class has a roll-call on a date, a second create for that class and date is a Conflict. */
  lemma SecondCriarChamadaConflicts(s: Store, req: ChamadaRequest, req': ChamadaRequest, at: Instant, at': Instant)
    requires CriarChamada(s, req, at).Ok?
    requires req'.turmaId == req.turmaId && req'.dataChamada == req.dataChamada
    ensures CriarChamada(CriarChamada(s, req, at).value, req', at') == Err(Conflict)
  {
    var s' := CriarChamada(s, req, at).value;
    assert s.nextId in s'.chamadas;
  }

  /** The roll-call just created is the one found for its class and date. */
  lemma BuscarAfterCriarChamada(s: Store, req: ChamadaRequest, at: Instant)
    requires Valid(s)
    requires CriarChamada(s, req, at).Ok?
    ensures BuscarChamadaPorTurmaEData(CriarChamada(s, req, at).value, req.turmaId, req.dataChamada) == Some(s.nextId)
  {
    var s' := CriarChamada(s, req, at).value;
    CriarChamadaPreservesValid(s, req, at);
    assert s.nextId in s'.chamadas;
  }

  lemma AtualizarChamadaPreservesValid(s: Store, id: Id, req: ChamadaRequest)
    requires Valid(s)
    ensures AtualizarChamada(s, id, req).Ok? ==> Valid(AtualizarChamada(s, id, req).value)
  {
    var r := AtualizarChamada(s, id, req);
    if r.Ok? {
      var s' := r.value;
      assert forall k :: k in s'.chamadaAlunos ==>
        s'.chamadaAlunos[k].chamadaId == s.chamadaAlunos[k].chamadaId && s'.chamadaAlunos[k].alunoId == s.chamadaAlunos[k].alunoId;
      assert forall k :: k in s'.chamadas ==>
        s'.chamadas[k].turmaId == s.chamadas[k].turmaId && s'.chamadas[k].dataChamada == s.chamadas[k].dataChamada;
    }
  }

  /** An update never changes how many students a roll-call has. */
  lemma AtualizarChamadaKeepsTotal(s: Store, id: Id, req: ChamadaRequest)
    requires AtualizarChamada(s, id, req).Ok?
    ensures RowsOf(AtualizarChamada(s, id, req).value.chamadaAlunos, id) == RowsOf(s.chamadaAlunos, id)
    ensures Resumo(AtualizarChamada(s, id, req).value, id).totalAlunos == Resumo(s, id).totalAlunos
  {
    var s' := AtualizarChamada(s, id, req).value;
    assert forall k :: k in s'.chamadaAlunos ==> s'.chamadaAlunos[k].chamadaId == s.chamadaAlunos[k].chamadaId;
  }

  lemma RemoverChamadaPreservesValid(s: Store, id: Id)
    requires Valid(s)
    ensures RemoverChamada(s, id).Ok? ==> Valid(RemoverChamada(s, id).value)
  {
  }

  /** Once a class's roll-call is removed, a new one for the same class and date is no longer a Conflict. */
  lemma RemoverThenCriarChamada(s: Store, id: Id, req: ChamadaRequest, at: Instant)
    requires Valid(s)
    requires id in s.chamadas
    requires req.turmaId == s.chamadas[id].turmaId && req.dataChamada == s.chamadas[id].dataChamada
    ensures CriarChamada(RemoverChamada(s, id).value, req, at) != Err(Conflict)
  {
  }
}
