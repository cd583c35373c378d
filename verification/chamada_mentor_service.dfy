/**
 * The mentors' roll-call workflow: at most one roll-call per date, written as
 * a header plus one participant row per listed mentor; an update that may move
 * the date and replaces the whole participant list; removal with the cascade
 * to the participants; and the totals and statistics derived from them.
 */
module ChamadaMentorService {
  import opened Results
  import opened Calendar
  import opened Entities
  import Counting

  /** One mentor's entry in a request; `presente` may be null. */
  datatype ParticipanteInput = ParticipanteInput(mentorId: Id, presente: Option<bool>)

  /** The create request, reused by the update; the date and the participant list may be null. */
  datatype ChamadaMentorRequest =
    ChamadaMentorRequest(dataChamada: Option<Date>, observacoes: string, participantes: Option<seq<ParticipanteInput>>)

  /** The entries the participant loop walks: none when the list is null or empty. */
  function Entries(req: ChamadaMentorRequest): (ps: seq<ParticipanteInput>)
    ensures req.participantes.None? ==> ps == []
    ensures req.participantes.Some? ==> ps == req.participantes.value
  {
    if req.participantes.Some? then req.participantes.value else []
  }

  /** `existsByDataChamada`. */
  predicate DataTaken(chamadas: map<Id, ChamadaMentor>, data: Date) {
    exists k :: k in chamadas && chamadas[k].dataChamada == data
  }

  /** `existsByDataChamada` on the request's date: a null date matches no stored roll-call, whose date is NOT NULL. */
  predicate RequestDateTaken(chamadas: map<Id, ChamadaMentor>, req: ChamadaMentorRequest) {
    req.dataChamada.Some? && DataTaken(chamadas, req.dataChamada.value)
  }

  /**
   * Entry `i` of the loop saves: its mentor is found, and no earlier entry
   * already inserted a row for the same mentor (the unique (roll-call,
   * mentor) key; rows are inserted one by one as they are saved).
   */
  predicate Saveable(mentores: map<Id, Mentor>, ps: seq<ParticipanteInput>, i: int)
    requires 0 <= i < |ps|
  {
    ps[i].mentorId in mentores && forall j :: 0 <= j < i ==> ps[j].mentorId != ps[i].mentorId
  }

  /** Where the participant loop, started at entry `from`, stops: the first entry that fails, or `|ps|`. */
  function FirstFailure(mentores: map<Id, Mentor>, ps: seq<ParticipanteInput>, from: nat): (i: nat)
    requires from <= |ps|
    ensures from <= i <= |ps|
    ensures forall j :: from <= j < i ==> Saveable(mentores, ps, j)
    ensures i < |ps| ==> !Saveable(mentores, ps, i)
    decreases |ps| - from
  {
    if from == |ps| then from
    else if !Saveable(mentores, ps, from) then from
    else FirstFailure(mentores, ps, from + 1)
  }

  /**
   * The row one entry becomes: `new ChamadaMentorParticipante()` starts with
   * false, `setPresente` turns a null into false, and @PrePersist keeps what
   * is set.
   */
  function NewParticipante(c: Id, p: ParticipanteInput, at: Instant): (row: Participante)
    ensures row.chamadaMentorId == c && row.mentorId == p.mentorId && row.dataRegistro == at
    ensures row.presente <==> p.presente == Some(true)
  {
    var d := SetPresente(NewParticipanteDraft(), p.presente);
    Participante(c, p.mentorId, PrePersistParticipante(d).presente.value, at)
  }

  /** The rows the loop saves for roll-call `c`, entry `i` at id `base + i`. */
  function ParticipantBlock(c: Id, base: Id, ps: seq<ParticipanteInput>, at: Instant): (rows: map<Id, Participante>)
    ensures forall k :: k in rows <==> base <= k < base + |ps|
    ensures forall i :: 0 <= i < |ps| ==> rows[base + i] == NewParticipante(c, ps[i], at)
    decreases |ps|
  {
    if |ps| == 0 then map[]
    else
      var n := |ps|;
      ParticipantBlock(c, base, ps[..n - 1], at)[base + n - 1 := NewParticipante(c, ps[n - 1], at)]
  }

  /**
   * The participant loop for roll-call `c` once its header is in `s1`:
   * entries in list order, each either a missing mentor (NotFound), a repeat
   * of an earlier mentor (the unique key: ConstraintViolation) or a new row.
   */
  function SaveParticipantes(s1: Store, c: Id, ps: seq<ParticipanteInput>, at: Instant): (r: Result<Store>)
    ensures r.Ok? <==> forall i :: 0 <= i < |ps| ==> Saveable(s1.mentores, ps, i)
    ensures r.Err? ==> r.error in {NotFound, ConstraintViolation}
    ensures r == Err(NotFound) ==>
              exists i :: 0 <= i < |ps| && ps[i].mentorId !in s1.mentores
                          && forall j :: 0 <= j < i ==> Saveable(s1.mentores, ps, j)
    ensures r == Err(ConstraintViolation) ==>
              exists i :: 0 <= i < |ps| && ps[i].mentorId in s1.mentores && !Saveable(s1.mentores, ps, i)
                          && forall j :: 0 <= j < i ==> Saveable(s1.mentores, ps, j)
    ensures r.Ok? ==>
              && OnlyChanged(s1, r.value, {Participantes}) && r.value.nextId == s1.nextId + |ps|
              && (forall k :: k in r.value.participantes <==> k in s1.participantes || s1.nextId <= k < s1.nextId + |ps|)
              && (forall k :: k in s1.participantes && k < s1.nextId ==> r.value.participantes[k] == s1.participantes[k])
              && (forall i :: 0 <= i < |ps| ==> r.value.participantes[s1.nextId + i] == NewParticipante(c, ps[i], at))
  {
    var i := FirstFailure(s1.mentores, ps, 0);
    if i < |ps| then
      if ps[i].mentorId !in s1.mentores then Err(NotFound) else Err(ConstraintViolation)
    else
      Ok(s1.(participantes := s1.participantes + ParticipantBlock(c, s1.nextId, ps, at),
             nextId := s1.nextId + |ps|))
  }

  /**
   * `criarChamada`: a date that already has a roll-call is a Conflict; a
   * null date passes that check and the header's immediate insert violates
   * the NOT NULL column; otherwise the header is saved and the participant
   * loop runs, and a failing entry aborts the transaction, header included.
   */
  function CriarChamada(s: Store, req: ChamadaMentorRequest, at: Instant): (r: Result<Store>)
    ensures r == Err(Conflict) <==> RequestDateTaken(s.chamadasMentor, req)
    ensures r.Err? ==> r.error in {Conflict, NotFound, ConstraintViolation}
    ensures req.dataChamada.None? ==> r == Err(ConstraintViolation)
    ensures r.Ok? <==>
              && req.dataChamada.Some? && !DataTaken(s.chamadasMentor, req.dataChamada.value)
              && forall i :: 0 <= i < |Entries(req)| ==> Saveable(s.mentores, Entries(req), i)
    ensures r == Err(NotFound) ==>
              exists i :: 0 <= i < |Entries(req)| && Entries(req)[i].mentorId !in s.mentores
                          && forall j :: 0 <= j < i ==> Saveable(s.mentores, Entries(req), j)
    ensures r == Err(ConstraintViolation) ==>
              || req.dataChamada.None?
              || exists i :: 0 <= i < |Entries(req)| && Entries(req)[i].mentorId in s.mentores
                             && !Saveable(s.mentores, Entries(req), i)
                             && forall j :: 0 <= j < i ==> Saveable(s.mentores, Entries(req), j)
    ensures r.Ok? ==>
              var s', c, ps := r.value, s.nextId, Entries(req);
              && OnlyChanged(s, s', {ChamadasMentor, Participantes}) && s'.nextId == c + 1 + |ps|
              && AddsOne(s.chamadasMentor, s'.chamadasMentor, c)
              && s'.chamadasMentor[c] == ChamadaMentor(req.dataChamada.value, req.observacoes, at)
              && (forall k :: k in s'.participantes <==> k in s.participantes || c < k <= c + |ps|)
              && (forall k :: k in s.participantes && k < c ==> s'.participantes[k] == s.participantes[k])
              && (forall i :: 0 <= i < |ps| ==> s'.participantes[c + 1 + i] == NewParticipante(c, ps[i], at))
  {
    if RequestDateTaken(s.chamadasMentor, req) then Err(Conflict)
    else if req.dataChamada.None? then Err(ConstraintViolation)
    else
      var c := s.nextId;
      var s1 := s.(chamadasMentor := s.chamadasMentor[c := ChamadaMentor(req.dataChamada.value, req.observacoes, at)],
                   nextId := c + 1);
      SaveParticipantes(s1, c, Entries(req), at)
  }

  /** The participant rows that do not belong to roll-call `id`. */
  function ParticipantesSem(ps: map<Id, Participante>, id: Id): (r: map<Id, Participante>)
    ensures forall k :: k in r <==> k in ps && ps[k].chamadaMentorId != id
    ensures forall k :: k in r ==> r[k] == ps[k]
  {
    map k | k in ps && ps[k].chamadaMentorId != id :: ps[k]
  }

  /**
   * `atualizar`, with the participant list replaced as intended: NotFound
   * for an unknown id; moving to a date another roll-call holds is a Conflict
   * (keeping the date never is); the date and notes are overwritten, every
   * existing participant row is deleted, and the list is saved anew exactly
   * as on create. A null date passes the Conflict check and is refused by
   * the NOT NULL column when the header is flushed at commit, after the loop.
   */
  function AtualizarChamada(s: Store, id: Id, req: ChamadaMentorRequest, at: Instant): (r: Result<Store>)
    ensures id !in s.chamadasMentor ==> r == Err(NotFound)
    ensures r == Err(NotFound) && id in s.chamadasMentor ==>
              exists i :: 0 <= i < |Entries(req)| && Entries(req)[i].mentorId !in s.mentores
                          && forall j :: 0 <= j < i ==> Saveable(s.mentores, Entries(req), j)
    ensures r == Err(Conflict) <==>
              id in s.chamadasMentor && req.dataChamada.Some? && s.chamadasMentor[id].dataChamada != req.dataChamada.value
              && DataTaken(s.chamadasMentor, req.dataChamada.value)
    ensures id in s.chamadasMentor && req.dataChamada.None? ==> r.Err? && r.error in {NotFound, ConstraintViolation}
    ensures r.Err? ==> r.error in {NotFound, Conflict, ConstraintViolation}
    ensures r.Ok? <==>
              && id in s.chamadasMentor && req.dataChamada.Some?
              && !(s.chamadasMentor[id].dataChamada != req.dataChamada.value && DataTaken(s.chamadasMentor, req.dataChamada.value))
              && forall i :: 0 <= i < |Entries(req)| ==> Saveable(s.mentores, Entries(req), i)
    ensures r == Err(ConstraintViolation) ==>
              || req.dataChamada.None?
              || exists i :: 0 <= i < |Entries(req)| && Entries(req)[i].mentorId in s.mentores
                             && !Saveable(s.mentores, Entries(req), i)
                             && forall j :: 0 <= j < i ==> Saveable(s.mentores, Entries(req), j)
    ensures r.Ok? ==>
              var s', n, ps := r.value, s.nextId, Entries(req);
              && OnlyChanged(s, s', {ChamadasMentor, Participantes}) && s'.nextId == n + |ps|
              && ChangesOne(s.chamadasMentor, s'.chamadasMentor, id)
              && s'.chamadasMentor[id].dataChamada == req.dataChamada.value
              && s'.chamadasMentor[id].observacoes == req.observacoes
              && s'.chamadasMentor[id].dataCriacao == s.chamadasMentor[id].dataCriacao
              && (forall k :: k in s'.participantes <==>
                    (k in s.participantes && s.participantes[k].chamadaMentorId != id) || n <= k < n + |ps|)
              && (forall k :: k in s.participantes && s.participantes[k].chamadaMentorId != id && k < n ==>
                    s'.participantes[k] == s.participantes[k])
              && (forall i :: 0 <= i < |ps| ==> s'.participantes[n + i] == NewParticipante(id, ps[i], at))
  {
    if id !in s.chamadasMentor then Err(NotFound)
    else
      var h := s.chamadasMentor[id];
      if req.dataChamada.Some? && h.dataChamada != req.dataChamada.value && DataTaken(s.chamadasMentor, req.dataChamada.value)
      then Err(Conflict)
      else
        var s1 := s.(chamadasMentor := s.chamadasMentor[id := h.(dataChamada := req.dataChamada.GetOr(h.dataChamada),
                                                                  observacoes := req.observacoes)],
                     participantes := ParticipantesSem(s.participantes, id));
        var r1 := SaveParticipantes(s1, id, Entries(req), at);
        if r1.Ok? && req.dataChamada.None? then Err(ConstraintViolation) else r1
  }

  /**
   * Entry `i` of the update's loop as the program runs it. Participant ids
   * are IDENTITY-generated, so each `save` inserts its row at once, while the
   * deletion of the old rows waits for the flush at commit: an entry for a
   * mentor the roll-call still lists hits the unique (roll-call, mentor) key
   * just as a repeated entry does.
   */
  predicate SaveableBeforeFlush(s: Store, id: Id, ps: seq<ParticipanteInput>, i: int)
    requires 0 <= i < |ps|
  {
    Saveable(s.mentores, ps, i) && !HasParticipant(s.participantes, id, ps[i].mentorId)
  }

  /** Where the update's loop as the program runs it, started at entry `from`, stops. */
  function FirstClash(s: Store, id: Id, ps: seq<ParticipanteInput>, from: nat): (i: nat)
    requires from <= |ps|
    ensures from <= i <= |ps|
    ensures forall j :: from <= j < i ==> SaveableBeforeFlush(s, id, ps, j)
    ensures i < |ps| ==> !SaveableBeforeFlush(s, id, ps, i)
    decreases |ps| - from
  {
    if from == |ps| then from
    else if !SaveableBeforeFlush(s, id, ps, from) then from
    else FirstClash(s, id, ps, from + 1)
  }

  /**
   * `atualizar` as written: the same checks, but the loop runs while the old
   * rows are still in the table. It succeeds only when no listed mentor is
   * already a participant, and then ends in the store of `AtualizarChamada`.
   */
  function AtualizarChamadaAsWritten(s: Store, id: Id, req: ChamadaMentorRequest, at: Instant): (r: Result<Store>)
    ensures id !in s.chamadasMentor ==> r == Err(NotFound)
    ensures r == Err(Conflict) <==> AtualizarChamada(s, id, req, at) == Err(Conflict)
    ensures r.Ok? <==>
              && AtualizarChamada(s, id, req, at).Ok?
              && forall i :: 0 <= i < |Entries(req)| ==> !HasParticipant(s.participantes, id, Entries(req)[i].mentorId)
    ensures r.Ok? ==> r == AtualizarChamada(s, id, req, at)
    ensures r.Err? ==> r.error in {NotFound, Conflict, ConstraintViolation}
    ensures r == Err(NotFound) && id in s.chamadasMentor ==>
              exists i :: 0 <= i < |Entries(req)| && Entries(req)[i].mentorId !in s.mentores
                          && forall j :: 0 <= j < i ==> SaveableBeforeFlush(s, id, Entries(req), j)
  {
    if id !in s.chamadasMentor then Err(NotFound)
    else
      var h := s.chamadasMentor[id];
      if req.dataChamada.Some? && h.dataChamada != req.dataChamada.value && DataTaken(s.chamadasMentor, req.dataChamada.value)
      then Err(Conflict)
      else
        var ps := Entries(req);
        var i := FirstClash(s, id, ps, 0);
        if i < |ps| then
          if ps[i].mentorId !in s.mentores then Err(NotFound) else Err(ConstraintViolation)
        else if req.dataChamada.None? then Err(ConstraintViolation)
        else
          assert forall j | 0 <= j < |ps| :: !HasParticipant(s.participantes, id, ps[j].mentorId) by {
            forall j | 0 <= j < |ps| ensures !HasParticipant(s.participantes, id, ps[j].mentorId) {
              assert SaveableBeforeFlush(s, id, ps, j);
            }
          }
          AtualizarChamada(s, id, req, at)
  }

  /** `remover`: NotFound for an unknown id; deleting the header cascades to its participants. */
  function RemoverChamada(s: Store, id: Id): (r: Result<Store>)
    ensures r.Err? <==> id !in s.chamadasMentor
    ensures r.Err? ==> r.error == NotFound
    ensures r.Ok? ==>
              var s' := r.value;
              && OnlyChanged(s, s', {ChamadasMentor, Participantes}) && s'.nextId == s.nextId
              && s'.chamadasMentor == s.chamadasMentor - {id}
              && (forall k :: k in s'.participantes <==> k in s.participantes && s.participantes[k].chamadaMentorId != id)
              && (forall k :: k in s'.participantes ==> s'.participantes[k] == s.participantes[k])
  {
    if id !in s.chamadasMentor then Err(NotFound)
    else Ok(s.(chamadasMentor := s.chamadasMentor - {id}, participantes := ParticipantesSem(s.participantes, id)))
  }

  /** `buscarPorData`: the roll-calls held on a date (at most one in a valid store). */
  function BuscarPorData(s: Store, data: Date): (r: set<Id>)
    ensures forall k :: k in r <==> k in s.chamadasMentor && s.chamadasMentor[k].dataChamada == data
    ensures r == {} <==> !DataTaken(s.chamadasMentor, data)
  {
    set k | k in s.chamadasMentor && s.chamadasMentor[k].dataChamada == data
  }

  // ---------------------------------------------------------------------------
  // Totals

  /** `countByChamadaMentorId`. */
  function ParticipantesOf(ps: map<Id, Participante>, c: Id): (r: set<Id>)
    ensures forall k :: k in r <==> k in ps && ps[k].chamadaMentorId == c
  {
    set k | k in ps && ps[k].chamadaMentorId == c
  }

  /** `countByChamadaMentorIdAndPresenteTrue`. */
  function PresentesOf(ps: map<Id, Participante>, c: Id): (r: set<Id>)
    ensures forall k :: k in r <==> k in ps && ps[k].chamadaMentorId == c && ps[k].presente
  {
    set k | k in ps && ps[k].chamadaMentorId == c && ps[k].presente
  }

  /** `countByChamadaMentorIdAndPresenteFalse`. */
  function AusentesOf(ps: map<Id, Participante>, c: Id): (r: set<Id>)
    ensures forall k :: k in r <==> k in ps && ps[k].chamadaMentorId == c && !ps[k].presente
  {
    set k | k in ps && ps[k].chamadaMentorId == c && !ps[k].presente
  }

  /** Every participant of a roll-call is counted exactly once, as present or as absent. */
  lemma ParticipantesSplit(ps: map<Id, Participante>, c: Id)
    ensures |ParticipantesOf(ps, c)| == |PresentesOf(ps, c)| + |AusentesOf(ps, c)|
  {
    Counting.PartitionSize(ParticipantesOf(ps, c), PresentesOf(ps, c), AusentesOf(ps, c));
  }

  datatype ChamadaMentorResumo = ChamadaMentorResumo(chamada: ChamadaMentor, totalMentores: int, totalPresentes: int, totalAusentes: int)

  /**
   * `convertToDTO`: the three counts are separate queries; since `presente`
   * is never null the present and absent counts add up to the total.
   */
  function Resumo(s: Store, id: Id): (v: ChamadaMentorResumo)
    requires id in s.chamadasMentor
    ensures v.chamada == s.chamadasMentor[id]
    ensures v.totalMentores == |ParticipantesOf(s.participantes, id)|
    ensures v.totalPresentes == |PresentesOf(s.participantes, id)|
    ensures v.totalAusentes == |AusentesOf(s.participantes, id)|
    ensures v.totalMentores == v.totalPresentes + v.totalAusentes
  {
    ParticipantesSplit(s.participantes, id);
    ChamadaMentorResumo(s.chamadasMentor[id], |ParticipantesOf(s.participantes, id)|,
                        |PresentesOf(s.participantes, id)|, |AusentesOf(s.participantes, id)|)
  }

  datatype ChamadaMentorEstatisticas =
    ChamadaMentorEstatisticas(totalChamadas: int, totalChamadasMesAtual: int, totalPresentesHoje: int, totalAusentesHoje: int)

  /** `countByDataChamadaBetween(first, last day of the month of today)`. */
  function ChamadasDoMes(chamadas: map<Id, ChamadaMentor>, today: Date): (r: set<Id>)
    requires ValidDate(today)
    ensures r <= chamadas.Keys
    ensures forall k :: k in chamadas && ValidDate(chamadas[k].dataChamada) ==>
              (k in r <==> chamadas[k].dataChamada.year == today.year && chamadas[k].dataChamada.month == today.month)
  {
    set k | k in chamadas && InMonthOf(chamadas[k].dataChamada, today)
  }

  /** The participant rows of the roll-calls held on `data` with the given flag. */
  function ParticipantesDoDia(s: Store, data: Date, presente: bool): (r: set<Id>)
    ensures forall k :: k in r <==>
              && k in s.participantes && s.participantes[k].presente == presente
              && s.participantes[k].chamadaMentorId in BuscarPorData(s, data)
  {
    set k | k in s.participantes && s.participantes[k].presente == presente
            && s.participantes[k].chamadaMentorId in BuscarPorData(s, data)
  }

  /**
   * `obterEstatisticas`, with `LocalDate.now()` as the parameter `today`: the
   * number of roll-calls, those in the current month, and the present and
   * absent counts of today's roll-call (0 and 0 when there is none).
   */
  function ObterEstatisticas(s: Store, today: Date): (e: ChamadaMentorEstatisticas)
    requires ValidDate(today)
    ensures e.totalChamadas == |s.chamadasMentor|
    ensures e.totalChamadasMesAtual == |ChamadasDoMes(s.chamadasMentor, today)|
    ensures 0 <= e.totalChamadasMesAtual <= e.totalChamadas
    ensures !DataTaken(s.chamadasMentor, today) ==> e.totalPresentesHoje == 0 && e.totalAusentesHoje == 0
  {
    var mes := ChamadasDoMes(s.chamadasMentor, today);
    Counting.SubsetSize(mes, s.chamadasMentor.Keys);
    if BuscarPorData(s, today) == {} then ChamadaMentorEstatisticas(|s.chamadasMentor|, |mes|, 0, 0)
    else
      ChamadaMentorEstatisticas(|s.chamadasMentor|, |mes|,
                                |ParticipantesDoDia(s, today, true)|, |ParticipantesDoDia(s, today, false)|)
  }

  // ---------------------------------------------------------------------------
  // Properties

  /** Mentor `m` has a participant row in roll-call `c`. */
  predicate HasParticipant(ps: map<Id, Participante>, c: Id, m: Id) {
    exists k :: k in ps && ps[k].chamadaMentorId == c && ps[k].mentorId == m
  }

  /** Mentor `m` has an entry in the list. */
  predicate ListsMentor(ps: seq<ParticipanteInput>, m: Id) {
    exists i :: 0 <= i < |ps| && ps[i].mentorId == m
  }

  /** The entries' flags as stored: present only when sent as true. */
  function PresentFlags(ps: seq<ParticipanteInput>): (f: seq<bool>)
    ensures |f| == |ps|
    ensures forall i :: 0 <= i < |ps| ==> (f[i] <==> ps[i].presente == Some(true))
  {
    seq(|ps|, i requires 0 <= i < |ps| => ps[i].presente == Some(true))
  }

  /** A successful participant loop appends the block of rows at the next ids. */
  lemma SaveParticipantesStore(s1: Store, c: Id, ps: seq<ParticipanteInput>, at: Instant)
    requires SaveParticipantes(s1, c, ps, at).Ok?
    ensures forall i :: 0 <= i < |ps| ==> Saveable(s1.mentores, ps, i)
    ensures SaveParticipantes(s1, c, ps, at).value
            == s1.(participantes := s1.participantes + ParticipantBlock(c, s1.nextId, ps, at), nextId := s1.nextId + |ps|)
  {
  }

  /** In a block added above every earlier row, none of them of `c`, row `k` of `c` is entry `k - base`. */
  lemma BlockRowsOf(earlier: map<Id, Participante>, all: map<Id, Participante>, c: Id, base: Id,
                    ps: seq<ParticipanteInput>, at: Instant)
    requires forall k :: k in earlier ==> earlier[k].chamadaMentorId != c && k < base
    requires all == earlier + ParticipantBlock(c, base, ps, at)
    ensures forall k :: k in ParticipantesOf(all, c) <==> base <= k < base + |ps|
    ensures forall k :: base <= k < base + |ps| ==> all[k] == NewParticipante(c, ps[k - base], at)
  {
    var block := ParticipantBlock(c, base, ps, at);
    forall k | base <= k < base + |ps| ensures all[k] == NewParticipante(c, ps[k - base], at) {
      var i := k - base;
      assert block[base + i] == NewParticipante(c, ps[i], at);
    }
    forall k | k in ParticipantesOf(all, c) ensures base <= k < base + |ps| {
      assert k in block;
    }
  }

  /**
   * A block of rows for roll-call `c` added above every earlier row, none of
   * them of `c`, gives `c` one row per entry, present as flagged.
   */
  lemma BlockTotals(earlier: map<Id, Participante>, all: map<Id, Participante>, c: Id, base: Id,
                    ps: seq<ParticipanteInput>, at: Instant)
    requires forall k :: k in earlier ==> earlier[k].chamadaMentorId != c && k < base
    requires all == earlier + ParticipantBlock(c, base, ps, at)
    ensures |ParticipantesOf(all, c)| == |ps|
    ensures |PresentesOf(all, c)| == Counting.CountTrue(PresentFlags(ps))
  {
    BlockRowsOf(earlier, all, c, base, ps, at);
    assert ParticipantesOf(all, c) == Counting.Range(base, |ps|);
    assert PresentesOf(all, c) == Counting.Selected(base, PresentFlags(ps)) by {
      forall k | k in PresentesOf(all, c) ensures k in Counting.Selected(base, PresentFlags(ps)) {
        assert k in ParticipantesOf(all, c);
      }
    }
  }

  /** Such a block makes `c`'s participants exactly the listed mentors. */
  lemma BlockParticipants(earlier: map<Id, Participante>, all: map<Id, Participante>, c: Id, base: Id,
                          ps: seq<ParticipanteInput>, at: Instant, m: Id)
    requires forall k :: k in earlier ==> earlier[k].chamadaMentorId != c && k < base
    requires all == earlier + ParticipantBlock(c, base, ps, at)
    ensures HasParticipant(all, c, m) <==> ListsMentor(ps, m)
  {
    BlockRowsOf(earlier, all, c, base, ps, at);
    if HasParticipant(all, c, m) {
      var k :| k in all && all[k].chamadaMentorId == c && all[k].mentorId == m;
      assert k in ParticipantesOf(all, c);
      assert ps[k - base].mentorId == m;
    }
    if ListsMentor(ps, m) {
      var i :| 0 <= i < |ps| && ps[i].mentorId == m;
      assert all[base + i] == NewParticipante(c, ps[i], at);
    }
  }

  /** Each row of the block points at roll-call `c` and at a stored mentor, and the block's mentors are distinct. */
  lemma BlockResolves(mentores: map<Id, Mentor>, c: Id, base: Id, ps: seq<ParticipanteInput>, at: Instant)
    requires forall i :: 0 <= i < |ps| ==> Saveable(mentores, ps, i)
    ensures forall k :: k in ParticipantBlock(c, base, ps, at) ==>
              ParticipantBlock(c, base, ps, at)[k].chamadaMentorId == c
              && ParticipantBlock(c, base, ps, at)[k].mentorId in mentores
    ensures UniqueParticipante(ParticipantBlock(c, base, ps, at))
  {
    var block := ParticipantBlock(c, base, ps, at);
    forall k | k in block ensures block[k].chamadaMentorId == c && block[k].mentorId == ps[k - base].mentorId {
      var i := k - base;
      assert block[base + i] == NewParticipante(c, ps[i], at);
    }
    forall k | k in block ensures block[k].mentorId in mentores {
      assert Saveable(mentores, ps, k - base);
    }
    forall j, k | j in block && k in block && j < k ensures block[j].mentorId != block[k].mentorId {
      assert Saveable(mentores, ps, k - base);
    }
  }

  /** Adding the block to rows none of which is of roll-call `c` keeps the rows resolving and unique. */
  lemma AppendBlockRows(earlier: map<Id, Participante>, all: map<Id, Participante>, chamadas: map<Id, ChamadaMentor>,
                        mentores: map<Id, Mentor>, c: Id, base: Id, ps: seq<ParticipanteInput>, at: Instant)
    requires ParticipantesResolve(earlier, chamadas, mentores) && UniqueParticipante(earlier)
    requires c in chamadas
    requires forall k :: k in earlier ==> earlier[k].chamadaMentorId != c && k < base
    requires forall i :: 0 <= i < |ps| ==> Saveable(mentores, ps, i)
    requires all == earlier + ParticipantBlock(c, base, ps, at)
    ensures ParticipantesResolve(all, chamadas, mentores) && UniqueParticipante(all)
  {
    var block := ParticipantBlock(c, base, ps, at);
    BlockResolves(mentores, c, base, ps, at);
    assert forall k :: k in all ==> (k in block <==> base <= k);
  }

  /**
   * Appending the block of a loop that saved every entry keeps a valid store
   * valid, provided the roll-call exists and has no rows yet.
   */
  lemma AppendBlockValid(s1: Store, c: Id, ps: seq<ParticipanteInput>, at: Instant)
    requires Valid(s1)
    requires c in s1.chamadasMentor
    requires forall k :: k in s1.participantes ==> s1.participantes[k].chamadaMentorId != c
    requires forall i :: 0 <= i < |ps| ==> Saveable(s1.mentores, ps, i)
    ensures Valid(s1.(participantes := s1.participantes + ParticipantBlock(c, s1.nextId, ps, at), nextId := s1.nextId + |ps|))
  {
    var all := s1.participantes + ParticipantBlock(c, s1.nextId, ps, at);
    AppendBlockRows(s1.participantes, all, s1.chamadasMentor, s1.mentores, c, s1.nextId, ps, at);
  }

  /** The store after a create's header is saved, before the participant loop. */
  function HeaderSaved(s: Store, req: ChamadaMentorRequest, at: Instant): Store
    requires req.dataChamada.Some?
  {
    s.(chamadasMentor := s.chamadasMentor[s.nextId := ChamadaMentor(req.dataChamada.value, req.observacoes, at)],
       nextId := s.nextId + 1)
  }

  lemma CriarChamadaStore(s: Store, req: ChamadaMentorRequest, at: Instant)
    requires CriarChamada(s, req, at).Ok?
    ensures req.dataChamada.Some? && !DataTaken(s.chamadasMentor, req.dataChamada.value)
    ensures SaveParticipantes(HeaderSaved(s, req, at), s.nextId, Entries(req), at).Ok?
    ensures CriarChamada(s, req, at) == SaveParticipantes(HeaderSaved(s, req, at), s.nextId, Entries(req), at)
  {
  }

  /** A new header on a free date keeps the store valid, and no row points at it yet. */
  lemma HeaderSavedValid(s: Store, req: ChamadaMentorRequest, at: Instant)
    requires Valid(s) && req.dataChamada.Some? && !DataTaken(s.chamadasMentor, req.dataChamada.value)
    ensures Valid(HeaderSaved(s, req, at))
    ensures forall k :: k in s.participantes ==> s.participantes[k].chamadaMentorId != s.nextId && k < s.nextId
  {
    forall k | k in s.participantes ensures s.participantes[k].chamadaMentorId != s.nextId {
      assert s.participantes[k].chamadaMentorId in s.chamadasMentor;
    }
  }

  lemma CriarChamadaPreservesValid(s: Store, req: ChamadaMentorRequest, at: Instant)
    requires Valid(s)
    ensures CriarChamada(s, req, at).Ok? ==> Valid(CriarChamada(s, req, at).value)
  {
    if CriarChamada(s, req, at).Ok? {
      CriarChamadaStore(s, req, at);
      var s1 := HeaderSaved(s, req, at);
      HeaderSavedValid(s, req, at);
      SaveParticipantesStore(s1, s.nextId, Entries(req), at);
      AppendBlockValid(s1, s.nextId, Entries(req), at);
    }
  }

  /**
   * After a create, the roll-call's participants are exactly the listed
   * mentors, and its totals are the list's length and the number of entries
   * sent as present.
   */
  lemma CriarChamadaParticipantes(s: Store, req: ChamadaMentorRequest, at: Instant)
    requires Valid(s)
    requires CriarChamada(s, req, at).Ok?
    ensures var s' := CriarChamada(s, req, at).value;
            && (forall m :: HasParticipant(s'.participantes, s.nextId, m) <==> ListsMentor(Entries(req), m))
            && s.nextId in s'.chamadasMentor
            && Resumo(s', s.nextId).totalMentores == |Entries(req)|
            && Resumo(s', s.nextId).totalPresentes == Counting.CountTrue(PresentFlags(Entries(req)))
  {
    CriarChamadaStore(s, req, at);
    var s1 := HeaderSaved(s, req, at);
    HeaderSavedValid(s, req, at);
    SaveParticipantesStore(s1, s.nextId, Entries(req), at);
    var s' := CriarChamada(s, req, at).value;
    BlockTotals(s.participantes, s'.participantes, s.nextId, s1.nextId, Entries(req), at);
    forall m ensures HasParticipant(s'.participantes, s.nextId, m) <==> ListsMentor(Entries(req), m) {
      BlockParticipants(s.participantes, s'.participantes, s.nextId, s1.nextId, Entries(req), at, m);
    }
  }

  /** Once a date has a roll-call, a second create on that date is a Conflict. */
  lemma SecondCriarChamadaConflicts(s: Store, req: ChamadaMentorRequest, req': ChamadaMentorRequest, at: Instant, at': Instant)
    requires CriarChamada(s, req, at).Ok?
    requires req'.dataChamada == req.dataChamada
    ensures CriarChamada(CriarChamada(s, req, at).value, req', at') == Err(Conflict)
  {
    var s' := CriarChamada(s, req, at).value;
    assert s.nextId in s'.chamadasMentor;
  }

  /** The store after an update's header change and the deletion of the old participants. */
  function HeaderUpdated(s: Store, id: Id, req: ChamadaMentorRequest): Store
    requires id in s.chamadasMentor
  {
    s.(chamadasMentor := s.chamadasMentor[id := s.chamadasMentor[id].(dataChamada := req.dataChamada.GetOr(s.chamadasMentor[id].dataChamada),
                                                                      observacoes := req.observacoes)],
       participantes := ParticipantesSem(s.participantes, id))
  }

  lemma AtualizarChamadaStore(s: Store, id: Id, req: ChamadaMentorRequest, at: Instant)
    requires AtualizarChamada(s, id, req, at).Ok?
    ensures id in s.chamadasMentor && req.dataChamada.Some?
    ensures s.chamadasMentor[id].dataChamada == req.dataChamada.value || !DataTaken(s.chamadasMentor, req.dataChamada.value)
    ensures SaveParticipantes(HeaderUpdated(s, id, req), id, Entries(req), at).Ok?
    ensures AtualizarChamada(s, id, req, at) == SaveParticipantes(HeaderUpdated(s, id, req), id, Entries(req), at)
  {
  }

  /** Moving a roll-call to its own date or a free one, and dropping its rows, keeps the store valid. */
  lemma HeaderUpdatedValid(s: Store, id: Id, req: ChamadaMentorRequest)
    requires Valid(s) && id in s.chamadasMentor && req.dataChamada.Some?
    requires s.chamadasMentor[id].dataChamada == req.dataChamada.value || !DataTaken(s.chamadasMentor, req.dataChamada.value)
    ensures Valid(HeaderUpdated(s, id, req))
    ensures forall k :: k in HeaderUpdated(s, id, req).participantes ==>
              HeaderUpdated(s, id, req).participantes[k].chamadaMentorId != id && k < s.nextId
  {
    var s1 := HeaderUpdated(s, id, req);
    assert UniqueChamadaMentor(s1.chamadasMentor) by {
      forall j, k | j in s1.chamadasMentor && k in s1.chamadasMentor
                    && s1.chamadasMentor[j].dataChamada == s1.chamadasMentor[k].dataChamada
        ensures j == k
      {
        if j != id && k != id {
          assert s.chamadasMentor[j].dataChamada == s.chamadasMentor[k].dataChamada;
        }
      }
    }
  }

  lemma AtualizarChamadaPreservesValid(s: Store, id: Id, req: ChamadaMentorRequest, at: Instant)
    requires Valid(s)
    ensures AtualizarChamada(s, id, req, at).Ok? ==> Valid(AtualizarChamada(s, id, req, at).value)
  {
    if AtualizarChamada(s, id, req, at).Ok? {
      AtualizarChamadaStore(s, id, req, at);
      HeaderUpdatedValid(s, id, req);
      var s1 := HeaderUpdated(s, id, req);
      SaveParticipantesStore(s1, id, Entries(req), at);
      AppendBlockValid(s1, id, Entries(req), at);
    }
  }

  /**
   * An update replaces the participant list wholesale: afterwards the
   * roll-call's participants are exactly the mentors of the new list, none of
   * the old rows survives unless re-listed, and the totals are recounted.
   */
  lemma AtualizarChamadaReplacesParticipantes(s: Store, id: Id, req: ChamadaMentorRequest, at: Instant)
    requires Valid(s)
    requires AtualizarChamada(s, id, req, at).Ok?
    ensures var s' := AtualizarChamada(s, id, req, at).value;
            && (forall m :: HasParticipant(s'.participantes, id, m) <==> ListsMentor(Entries(req), m))
            && id in s'.chamadasMentor
            && Resumo(s', id).totalMentores == |Entries(req)|
            && Resumo(s', id).totalPresentes == Counting.CountTrue(PresentFlags(Entries(req)))
  {
    AtualizarChamadaStore(s, id, req, at);
    HeaderUpdatedValid(s, id, req);
    var s1 := HeaderUpdated(s, id, req);
    SaveParticipantesStore(s1, id, Entries(req), at);
    var s' := AtualizarChamada(s, id, req, at).value;
    BlockTotals(s1.participantes, s'.participantes, id, s.nextId, Entries(req), at);
    forall m ensures HasParticipant(s'.participantes, id, m) <==> ListsMentor(Entries(req), m) {
      BlockParticipants(s1.participantes, s'.participantes, id, s.nextId, Entries(req), at, m);
    }
  }

  lemma RemoverChamadaPreservesValid(s: Store, id: Id)
    requires Valid(s)
    ensures RemoverChamada(s, id).Ok? ==> Valid(RemoverChamada(s, id).value)
  {
  }

  /** After a removal no participant row of the roll-call is left and its date is free again. */
  lemma RemoverChamadaFreesDate(s: Store, id: Id)
    requires Valid(s)
    requires id in s.chamadasMentor
    ensures var s' := RemoverChamada(s, id).value;
            && ParticipantesOf(s'.participantes, id) == {}
            && !DataTaken(s'.chamadasMentor, s.chamadasMentor[id].dataChamada)
  {
  }

  /** In a valid store a date has at most one roll-call. */
  lemma BuscarPorDataUnique(s: Store, data: Date, c: Id)
    requires Valid(s)
    requires c in s.chamadasMentor && s.chamadasMentor[c].dataChamada == data
    ensures BuscarPorData(s, data) == {c}
  {
  }

  /** Today's figures are the present and absent counts of today's roll-call. */
  lemma EstatisticasHoje(s: Store, today: Date, c: Id)
    requires Valid(s) && ValidDate(today)
    requires c in s.chamadasMentor && s.chamadasMentor[c].dataChamada == today
    ensures ObterEstatisticas(s, today).totalPresentesHoje == Resumo(s, c).totalPresentes
    ensures ObterEstatisticas(s, today).totalAusentesHoje == Resumo(s, c).totalAusentes
  {
    BuscarPorDataUnique(s, today, c);
    assert ParticipantesDoDia(s, today, true) == PresentesOf(s.participantes, c);
    assert ParticipantesDoDia(s, today, false) == AusentesOf(s.participantes, c);
  }

  /**
   * A create adds one to the number of roll-calls, and one to the month's
   * count exactly when its date lies in the month of `today`.
   */
  lemma CriarChamadaCountsInMonth(s: Store, req: ChamadaMentorRequest, at: Instant, today: Date)
    requires Valid(s) && ValidDate(today)
    requires CriarChamada(s, req, at).Ok?
    ensures var before, after := ObterEstatisticas(s, today), ObterEstatisticas(CriarChamada(s, req, at).value, today);
            && after.totalChamadas == before.totalChamadas + 1
            && after.totalChamadasMesAtual
               == before.totalChamadasMesAtual + (if InMonthOf(req.dataChamada.value, today) then 1 else 0)
  {
    var s' := CriarChamada(s, req, at).value;
    var c := s.nextId;
    var h := ChamadaMentor(req.dataChamada.value, req.observacoes, at);
    assert c !in s.chamadasMentor;
    assert s'.chamadasMentor == s.chamadasMentor[c := h];
    AddedChamadaCounted(s.chamadasMentor, c, h, today);
  }

  /** Adding a roll-call under a new id adds it to the month's roll-calls exactly when its date is in the month. */
  lemma AddedChamadaCounted(chamadas: map<Id, ChamadaMentor>, c: Id, h: ChamadaMentor, today: Date)
    requires ValidDate(today) && c !in chamadas
    ensures |chamadas[c := h]| == |chamadas| + 1
    ensures |ChamadasDoMes(chamadas[c := h], today)|
            == |ChamadasDoMes(chamadas, today)| + (if InMonthOf(h.dataChamada, today) then 1 else 0)
  {
    var mes, mes' := ChamadasDoMes(chamadas, today), ChamadasDoMes(chamadas[c := h], today);
    assert c !in mes;
    if InMonthOf(h.dataChamada, today) {
      assert mes' == mes + {c};
    } else {
      assert mes' == mes;
    }
  }

  /**
   * As written, an update that re-lists a mentor the roll-call already has
   * fails on the unique key, where replacing the list succeeds.
   */
  lemma RelistingFailsAsWritten(s: Store, id: Id, req: ChamadaMentorRequest, at: Instant, i: nat)
    requires AtualizarChamada(s, id, req, at).Ok?
    requires i < |Entries(req)| && HasParticipant(s.participantes, id, Entries(req)[i].mentorId)
    ensures AtualizarChamadaAsWritten(s, id, req, at) == Err(ConstraintViolation)
  {
    var ps := Entries(req);
    var j := FirstClash(s, id, ps, 0);
    assert !SaveableBeforeFlush(s, id, ps, i);
    assert j <= i;
    assert Saveable(s.mentores, ps, j);
  }

  /** A roll-call on 2024-03-04 with mentor 1 as its participant, and an update that keeps the date and re-lists mentor 1. */
  function RelistingExample(): (Store, ChamadaMentorRequest) {
    var d := Date(2024, 3, 4);
    var s := EmptyStore().(mentores := map[1 := Mentor("Ana", "ana@example.org", MentorTipo.Regular, true, 0)],
                           chamadasMentor := map[2 := ChamadaMentor(d, "", 0)],
                           participantes := map[3 := Participante(2, 1, true, 0)],
                           nextId := 4);
    (s, ChamadaMentorRequest(Some(d), "", Some([ParticipanteInput(1, Some(false))])))
  }

  /** On that input the intended replace succeeds and the program as written violates the unique key. */
  lemma RelistingCounterexample()
    ensures var (s, req) := RelistingExample();
            && Valid(s)
            && AtualizarChamada(s, 2, req, 0).Ok?
            && AtualizarChamadaAsWritten(s, 2, req, 0) == Err(ConstraintViolation)
  {
    var (s, req) := RelistingExample();
    assert Saveable(s.mentores, Entries(req), 0);
    assert s.participantes[3].chamadaMentorId == 2 && s.participantes[3].mentorId == 1;
    RelistingFailsAsWritten(s, 2, req, 0, 0);
  }
}
