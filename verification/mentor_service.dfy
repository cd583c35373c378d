/**
 * Mentor CRUD: unique email, the case-insensitive match of the requested kind
 * to TipoMentor, soft delete and reactivation through `ativo`, the listing by
 * kind and the per-kind statistics.
 */
module MentorService {
  import opened Results
  import opened MentorTipo
  import opened Entities
  import Counting

  /** The fields a create or update request carries; the kind is a free string, `ativo` may be null. */
  datatype MentorInput = MentorInput(nome: string, email: string, tipoMentor: string, ativo: Option<bool>)

  /** `existsByEmail`. */
  predicate EmailInUse(mentores: map<Id, Mentor>, email: string) {
    exists k :: k in mentores && mentores[k].email == email
  }

  /**
   * `criar`: a used email is a Conflict, then an unknown kind is a
   * Validation error. The new mentor is always active: the request's `ativo`
   * is ignored and `new Mentor()` sets it.
   */
  function CriarMentor(s: Store, input: MentorInput, at: Instant): (r: Result<Store>)
    ensures EmailInUse(s.mentores, input.email) ==> r == Err(Conflict)
    ensures !EmailInUse(s.mentores, input.email) && ParseTipo(input.tipoMentor).None? ==> r == Err(Validation)
    ensures r.Ok? <==> !EmailInUse(s.mentores, input.email) && ParseTipo(input.tipoMentor).Some?
    ensures r.Ok? ==>
              var s' := r.value;
              && OnlyChanged(s, s', {Mentores}) && s'.nextId == s.nextId + 1
              && AddsOne(s.mentores, s'.mentores, s.nextId)
              && var m := s'.mentores[s.nextId];
              && m.nome == input.nome && m.email == input.email
              && Name(m.tipo) == ToUpper(input.tipoMentor)
              && m.ativo
              && m.dataCadastro == at
  {
    if EmailInUse(s.mentores, input.email) then Err(Conflict)
    else match ParseTipo(input.tipoMentor)
      case None => Err(Validation)
      case Some(tipo) =>
        var d := PrePersistMentor(NewMentorDraft(input.nome, input.email, tipo));
        Ok(s.(mentores := s.mentores[s.nextId := Mentor(d.nome, d.email, d.tipo, d.ativo.value, at)],
              nextId := s.nextId + 1))
  }

  /**
   * `atualizar`: a missing id is NotFound; an email that differs from the
   * mentor's own and is already used is a Conflict; an unknown kind is a
   * Validation error; a null `ativo` is rejected by the NOT NULL column.
   * Nome, email, kind and ativo are overwritten, dataCadastro is kept.
   */
  function AtualizarMentor(s: Store, id: Id, input: MentorInput): (r: Result<Store>)
    ensures id !in s.mentores ==> r == Err(NotFound)
    ensures id in s.mentores && s.mentores[id].email != input.email && EmailInUse(s.mentores, input.email)
            ==> r == Err(Conflict)
    ensures r.Ok? <==>
              && id in s.mentores
              && (s.mentores[id].email == input.email || !EmailInUse(s.mentores, input.email))
              && ParseTipo(input.tipoMentor).Some?
              && input.ativo.Some?
    ensures r == Err(Validation) <==>
              && id in s.mentores
              && (s.mentores[id].email == input.email || !EmailInUse(s.mentores, input.email))
              && ParseTipo(input.tipoMentor).None?
    ensures r == Err(ConstraintViolation) <==>
              && id in s.mentores
              && (s.mentores[id].email == input.email || !EmailInUse(s.mentores, input.email))
              && ParseTipo(input.tipoMentor).Some?
              && input.ativo.None?
    ensures r.Ok? ==>
              var s' := r.value;
              && OnlyChanged(s, s', {Mentores}) && s'.nextId == s.nextId
              && ChangesOne(s.mentores, s'.mentores, id)
              && var m := s'.mentores[id];
              && m.nome == input.nome && m.email == input.email
              && Name(m.tipo) == ToUpper(input.tipoMentor)
              && Some(m.ativo) == input.ativo
              && m.dataCadastro == s.mentores[id].dataCadastro
  {
    if id !in s.mentores then Err(NotFound)
    else if s.mentores[id].email != input.email && EmailInUse(s.mentores, input.email) then Err(Conflict)
    else match ParseTipo(input.tipoMentor)
      case None => Err(Validation)
      case Some(tipo) =>
        if input.ativo.None? then Err(ConstraintViolation)
        else
          var m := s.mentores[id].(nome := input.nome, email := input.email, tipo := tipo, ativo := input.ativo.value);
          Ok(s.(mentores := s.mentores[id := m]))
  }

  /** Sets one mentor's `ativo`; the shared body of `remover` and `reativar`. */
  function SetAtivo(s: Store, id: Id, ativo: bool): (r: Result<Store>)
    ensures r.Err? <==> id !in s.mentores
    ensures r.Err? ==> r.error == NotFound
    ensures r.Ok? ==>
              && OnlyChanged(s, r.value, {Mentores}) && r.value.nextId == s.nextId
              && ChangesOne(s.mentores, r.value.mentores, id)
              && r.value.mentores[id] == s.mentores[id].(ativo := ativo)
  {
    if id !in s.mentores then Err(NotFound)
    else Ok(s.(mentores := s.mentores[id := s.mentores[id].(ativo := ativo)]))
  }

  /** `remover` (soft delete). */
  function RemoverMentor(s: Store, id: Id): (r: Result<Store>)
    ensures r.Err? <==> id !in s.mentores
    ensures r.Err? ==> r.error == NotFound
    ensures r.Ok? ==>
              && OnlyChanged(s, r.value, {Mentores}) && r.value.nextId == s.nextId
              && ChangesOne(s.mentores, r.value.mentores, id)
              && r.value.mentores[id] == s.mentores[id].(ativo := false)
  {
    SetAtivo(s, id, false)
  }

  /** `reativar`. */
  function ReativarMentor(s: Store, id: Id): (r: Result<Store>)
    ensures r.Err? <==> id !in s.mentores
    ensures r.Err? ==> r.error == NotFound
    ensures r.Ok? ==>
              && OnlyChanged(s, r.value, {Mentores}) && r.value.nextId == s.nextId
              && ChangesOne(s.mentores, r.value.mentores, id)
              && r.value.mentores[id] == s.mentores[id].(ativo := true)
  {
    SetAtivo(s, id, true)
  }

  /** `listarAtivos` (`findByAtivoTrueOrderByNome`), as a set of ids. */
  function ListarAtivos(s: Store): (r: set<Id>)
    ensures forall k :: k in r <==> k in s.mentores && s.mentores[k].ativo
  {
    set k | k in s.mentores && s.mentores[k].ativo
  }

  /** The active mentors of one kind (`findByTipoMentorAndAtivoTrue…`, `countByTipoMentorAndAtivoTrue`). */
  function AtivosDoTipo(s: Store, tipo: TipoMentor): (r: set<Id>)
    ensures r <= ListarAtivos(s)
    ensures forall k :: k in r <==> k in s.mentores && s.mentores[k].ativo && s.mentores[k].tipo == tipo
  {
    set k | k in s.mentores && s.mentores[k].ativo && s.mentores[k].tipo == tipo
  }

  /** `listarPorTipo`: an unknown kind is a Validation error, otherwise the active mentors of that kind. */
  function ListarPorTipo(s: Store, tipoMentor: string): (r: Result<set<Id>>)
    ensures r.Err? <==> ParseTipo(tipoMentor).None?
    ensures r.Err? ==> r.error == Validation
    ensures r.Ok? ==> forall k :: k in r.value <==>
              k in s.mentores && s.mentores[k].ativo && Name(s.mentores[k].tipo) == ToUpper(tipoMentor)
  {
    match ParseTipo(tipoMentor)
    case None => Err(Validation)
    case Some(tipo) =>
      assert forall k :: k in s.mentores && Name(s.mentores[k].tipo) == ToUpper(tipoMentor) ==> s.mentores[k].tipo == tipo by {
        forall t: TipoMentor | t != tipo ensures Name(t) != Name(tipo) {
          NamesAndLabelsInjective(t, tipo);
        }
      }
      Ok(AtivosDoTipo(s, tipo))
  }

  datatype MentorEstatisticas = MentorEstatisticas(totalMentores: nat, totalMentorTrainees: nat, totalMentorCoordenadores: nat)

  /**
   * `obterEstatisticas`. The all-active count first stored in totalMentores
   * is overwritten by the count of active mentors of kind MENTOR, so that is
   * what totalMentores holds.
   */
  function ObterEstatisticas(s: Store): (r: MentorEstatisticas)
    ensures r.totalMentores == |AtivosDoTipo(s, Regular)|
    ensures r.totalMentorTrainees == |AtivosDoTipo(s, Trainee)|
    ensures r.totalMentorCoordenadores == |AtivosDoTipo(s, Coordenador)|
  {
    var stats := MentorEstatisticas(|ListarAtivos(s)|, 0, 0);
    var stats := stats.(totalMentores := |AtivosDoTipo(s, Regular)|);
    var stats := stats.(totalMentorTrainees := |AtivosDoTipo(s, Trainee)|);
    stats.(totalMentorCoordenadores := |AtivosDoTipo(s, Coordenador)|)
  }

  // ---------------------------------------------------------------------------
  // Properties
  // ---------------------------------------------------------------------------

  /** The three per-kind counts add up to the number of active mentors. */
  lemma EstatisticasPartitionAtivos(s: Store)
    ensures var st := ObterEstatisticas(s);
            st.totalMentores + st.totalMentorTrainees + st.totalMentorCoordenadores == |ListarAtivos(s)|
  {
    var r, t, c := AtivosDoTipo(s, Regular), AtivosDoTipo(s, Trainee), AtivosDoTipo(s, Coordenador);
    assert ListarAtivos(s) == r + t + c;
    Counting.PartitionSize(r + t, r, t);
    Counting.PartitionSize(r + t + c, r + t, c);
  }

  /** totalMentores is what listing kind "mentor" (any case) returns, not the number of active mentors. */
  lemma TotalMentoresIsRegularListing(s: Store)
    ensures ListarPorTipo(s, "mentor") == Ok(AtivosDoTipo(s, Regular))
    ensures |ListarPorTipo(s, "mentor").value| == ObterEstatisticas(s).totalMentores
  {
    assert ToUpper("mentor") == "MENTOR";
  }

  lemma CriarMentorPreservesValid(s: Store, input: MentorInput, at: Instant)
    requires Valid(s)
    ensures CriarMentor(s, input, at).Ok? ==> Valid(CriarMentor(s, input, at).value)
  {
  }

  /** After a mentor is created, another with the same email is a Conflict. */
  lemma MentorEmailStaysUnique(s: Store, a: MentorInput, b: MentorInput, at: Instant, at': Instant)
    requires CriarMentor(s, a, at).Ok?
    requires b.email == a.email
    ensures CriarMentor(CriarMentor(s, a, at).value, b, at') == Err(Conflict)
  {
    var s' := CriarMentor(s, a, at).value;
    assert s.nextId in s'.mentores;
  }

  /** Keeping one's own email is never a Conflict. */
  lemma AtualizarMentorOwnEmail(s: Store, id: Id, input: MentorInput)
    requires id in s.mentores && input.email == s.mentores[id].email
    ensures AtualizarMentor(s, id, input) != Err(Conflict)
  {
  }

  lemma AtualizarMentorPreservesValid(s: Store, id: Id, input: MentorInput)
    requires Valid(s)
    ensures AtualizarMentor(s, id, input).Ok? ==> Valid(AtualizarMentor(s, id, input).value)
  {
    var r := AtualizarMentor(s, id, input);
    if r.Ok? {
      var s' := r.value;
      assert UniqueMentorEmail(s'.mentores);
    }
  }

  lemma SetAtivoPreservesValid(s: Store, id: Id, ativo: bool)
    requires Valid(s)
    ensures SetAtivo(s, id, ativo).Ok? ==> Valid(SetAtivo(s, id, ativo).value)
  {
    var r := SetAtivo(s, id, ativo);
    if r.Ok? {
      var s' := r.value;
      assert forall k :: k in s'.mentores ==> s'.mentores[k].email == s.mentores[k].email;
    }
  }

  /**
   * `remover` and `reativar` are idempotent, and reactivating a removed
   * mentor who was active restores the store.
   */
  lemma RemoverReativarIdempotent(s: Store, id: Id)
    requires id in s.mentores
    ensures RemoverMentor(RemoverMentor(s, id).value, id) == RemoverMentor(s, id)
    ensures ReativarMentor(ReativarMentor(s, id).value, id) == ReativarMentor(s, id)
    ensures s.mentores[id].ativo ==> ReativarMentor(RemoverMentor(s, id).value, id) == Ok(s)
  {
    var s1 := RemoverMentor(s, id).value;
    assert s1.mentores[id := s1.mentores[id].(ativo := false)] == s1.mentores;
    var s2 := ReativarMentor(s, id).value;
    assert s2.mentores[id := s2.mentores[id].(ativo := true)] == s2.mentores;
    if s.mentores[id].ativo {
      assert s1.mentores[id := s1.mentores[id].(ativo := true)] == s.mentores;
    }
  }

  /** Soft delete hides the mentor from the active listing and from the listing of its kind. */
  lemma RemoverMentorHides(s: Store, id: Id, tipo: TipoMentor)
    requires id in s.mentores
    ensures ListarAtivos(RemoverMentor(s, id).value) == ListarAtivos(s) - {id}
    ensures AtivosDoTipo(RemoverMentor(s, id).value, tipo) == AtivosDoTipo(s, tipo) - {id}
  {
  }
}
