/**
 * Class (turma) CRUD: unique código, soft delete through `ativa`, hard delete
 * with the JPA cascade to the class's students and attendance records, and
 * the listing and counts shown with each class.
 */
module TurmaService {
  import opened Results
  import opened Entities

  /** The fields a create or update request carries; `ativa` may be null. */
  datatype TurmaInput = TurmaInput(nome: string, codigo: string, descricao: string, ativa: Option<bool>)

  /** `existsByCodigo`. */
  predicate CodigoInUse(turmas: map<Id, Turma>, codigo: string) {
    exists k :: k in turmas && turmas[k].codigo == codigo
  }

  /** `existsByCodigoAndIdNot`. */
  predicate CodigoInUseByOther(turmas: map<Id, Turma>, codigo: string, id: Id) {
    exists k :: k in turmas && k != id && turmas[k].codigo == codigo
  }

  /** `criarTurma`: a used código is a Conflict; a null `ativa` means active. */
  function CriarTurma(s: Store, input: TurmaInput, at: Instant): (r: Result<Store>)
    ensures r.Err? <==> CodigoInUse(s.turmas, input.codigo)
    ensures r.Err? ==> r.error == Conflict
    ensures r.Ok? ==>
              var s' := r.value;
              && OnlyChanged(s, s', {Turmas}) && s'.nextId == s.nextId + 1
              && AddsOne(s.turmas, s'.turmas, s.nextId)
              && var t := s'.turmas[s.nextId];
              && t.nome == input.nome && t.codigo == input.codigo && t.descricao == input.descricao
              && (t.ativa <==> input.ativa != Some(false))
              && t.dataCriacao == at
  {
    if CodigoInUse(s.turmas, input.codigo) then Err(Conflict)
    else
      var t := Turma(input.nome, input.codigo, input.descricao, input.ativa.GetOr(true), at);
      Ok(s.(turmas := s.turmas[s.nextId := t], nextId := s.nextId + 1))
  }

  /**
   * `atualizarTurma`: a missing id is NotFound, a código used by another
   * class is a Conflict, and a null `ativa` is rejected by the NOT NULL
   * column. Only nome, código, descrição and ativa change.
   */
  function AtualizarTurma(s: Store, id: Id, input: TurmaInput): (r: Result<Store>)
    ensures id !in s.turmas ==> r == Err(NotFound)
    ensures id in s.turmas && CodigoInUseByOther(s.turmas, input.codigo, id) ==> r == Err(Conflict)
    ensures r.Ok? <==> id in s.turmas && !CodigoInUseByOther(s.turmas, input.codigo, id) && input.ativa.Some?
    ensures r == Err(ConstraintViolation) <==>
              id in s.turmas && !CodigoInUseByOther(s.turmas, input.codigo, id) && input.ativa.None?
    ensures r.Ok? ==>
              var s' := r.value;
              && OnlyChanged(s, s', {Turmas}) && s'.nextId == s.nextId
              && ChangesOne(s.turmas, s'.turmas, id)
              && var t := s'.turmas[id];
              && t.nome == input.nome && t.codigo == input.codigo && t.descricao == input.descricao
              && Some(t.ativa) == input.ativa
              && t.dataCriacao == s.turmas[id].dataCriacao
  {
    if id !in s.turmas then Err(NotFound)
    else if CodigoInUseByOther(s.turmas, input.codigo, id) then Err(Conflict)
    else if input.ativa.None? then Err(ConstraintViolation)
    else
      var t := s.turmas[id].(nome := input.nome, codigo := input.codigo, descricao := input.descricao, ativa := input.ativa.value);
      Ok(s.(turmas := s.turmas[id := t]))
  }

  /** `removerTurma` (soft delete): the class stays, inactive. */
  function RemoverTurma(s: Store, id: Id): (r: Result<Store>)
    ensures r.Err? <==> id !in s.turmas
    ensures r.Err? ==> r.error == NotFound
    ensures r.Ok? ==>
              && OnlyChanged(s, r.value, {Turmas}) && r.value.nextId == s.nextId
              && ChangesOne(s.turmas, r.value.turmas, id)
              && r.value.turmas[id] == s.turmas[id].(ativa := false)
  {
    if id !in s.turmas then Err(NotFound)
    else Ok(s.(turmas := s.turmas[id := s.turmas[id].(ativa := false)]))
  }

  /** The students of class `t`, which the cascade from Turma.alunos removes with it. */
  function AlunosDaTurma(alunos: map<Id, Aluno>, t: Id): (r: set<Id>)
    ensures forall k :: k in r <==> k in alunos && alunos[k].turmaId == t
  {
    set k | k in alunos && alunos[k].turmaId == t
  }

  /**
   * Rows that keep a class from being deleted: a roll-call of the class
   * (Chamada has no cascade from Turma) or a roll-call row of one of its
   * students (ChamadaAluno has no cascade from Aluno).
   */
  predicate TurmaReferenced(s: Store, id: Id) {
    || (exists k :: k in s.chamadas && s.chamadas[k].turmaId == id)
    || (exists k :: k in s.chamadaAlunos && s.chamadaAlunos[k].alunoId in AlunosDaTurma(s.alunos, id))
  }

  /** The attendance records that survive deleting class `id` and its students `gone`. */
  function PresencasSem(presencas: map<Id, Presenca>, id: Id, gone: set<Id>): (r: map<Id, Presenca>)
    ensures forall k :: k in r <==> k in presencas && presencas[k].turmaId != id && presencas[k].alunoId !in gone
    ensures forall k :: k in r ==> r[k] == presencas[k]
  {
    map k | k in presencas && presencas[k].turmaId != id && presencas[k].alunoId !in gone :: presencas[k]
  }

  /**
   * `excluirTurma` (hard delete): a missing id is NotFound; the class goes
   * with its students and every attendance record of the class or of those
   * students, unless a foreign key still points at them.
   */
  function ExcluirTurma(s: Store, id: Id): (r: Result<Store>)
    ensures id !in s.turmas ==> r == Err(NotFound)
    ensures r.Ok? <==> id in s.turmas && !TurmaReferenced(s, id)
    ensures r == Err(ConstraintViolation) <==> id in s.turmas && TurmaReferenced(s, id)
    ensures r.Ok? ==>
              var s' := r.value;
              && OnlyChanged(s, s', {Turmas, Alunos, Presencas}) && s'.nextId == s.nextId
              && s'.turmas.Keys == s.turmas.Keys - {id}
              && (forall k :: k in s'.turmas ==> s'.turmas[k] == s.turmas[k])
              && (forall k :: k in s'.alunos <==> k in s.alunos && s.alunos[k].turmaId != id)
              && (forall k :: k in s'.alunos ==> s'.alunos[k] == s.alunos[k])
              && (forall k :: k in s'.presencas <==>
                    k in s.presencas && s.presencas[k].turmaId != id && s.presencas[k].alunoId !in AlunosDaTurma(s.alunos, id))
              && (forall k :: k in s'.presencas ==> s'.presencas[k] == s.presencas[k])
  {
    if id !in s.turmas then Err(NotFound)
    else if TurmaReferenced(s, id) then Err(ConstraintViolation)
    else
      var gone := AlunosDaTurma(s.alunos, id);
      Ok(s.(turmas := s.turmas - {id}, alunos := s.alunos - gone, presencas := PresencasSem(s.presencas, id, gone)))
  }

  /** `listarTurmasAtivas`. */
  function ListarTurmasAtivas(s: Store): (r: set<Id>)
    ensures forall k :: k in r <==> k in s.turmas && s.turmas[k].ativa
  {
    set k | k in s.turmas && s.turmas[k].ativa
  }

  /** The active students of class `t` (`countAlunosByTurmaId`). */
  function AlunosAtivosDaTurma(s: Store, t: Id): (r: set<Id>)
    ensures r <= AlunosDaTurma(s.alunos, t)
    ensures forall k :: k in r <==> k in s.alunos && s.alunos[k].turmaId == t && s.alunos[k].ativo
  {
    set k | k in s.alunos && s.alunos[k].turmaId == t && s.alunos[k].ativo
  }

  /** A class's summary as `convertToDTO` builds it. */
  datatype TurmaView = TurmaView(turma: Turma, totalAlunos: nat, totalPresencas: nat)

  /** `buscarPorId` with its counts: inactive students are not counted. */
  function ConsultarTurma(s: Store, id: Id): (r: Option<TurmaView>)
    ensures r.Some? <==> id in s.turmas
    ensures r.Some? ==>
              && r.value.turma == s.turmas[id]
              && r.value.totalAlunos == |AlunosAtivosDaTurma(s, id)|
              && r.value.totalPresencas == |set k | k in s.presencas && s.presencas[k].turmaId == id|
  {
    if id !in s.turmas then None
    else
      Some(TurmaView(s.turmas[id], |AlunosAtivosDaTurma(s, id)|, |set k | k in s.presencas && s.presencas[k].turmaId == id|))
  }

  // ---------------------------------------------------------------------------
  // Properties
  // ---------------------------------------------------------------------------

  lemma CriarTurmaPreservesValid(s: Store, input: TurmaInput, at: Instant)
    requires Valid(s)
    ensures CriarTurma(s, input, at).Ok? ==> Valid(CriarTurma(s, input, at).value)
  {
  }

  /** After a class is created, creating another with the same código is a Conflict. */
  lemma CodigoStaysUnique(s: Store, a: TurmaInput, b: TurmaInput, at: Instant, at': Instant)
    requires CriarTurma(s, a, at).Ok?
    requires b.codigo == a.codigo
    ensures CriarTurma(CriarTurma(s, a, at).value, b, at') == Err(Conflict)
  {
    var s' := CriarTurma(s, a, at).value;
    assert s.nextId in s'.turmas && s'.turmas[s.nextId].codigo == b.codigo;
  }

  /** Keeping one's own código is never a Conflict. */
  lemma AtualizarTurmaOwnCodigo(s: Store, id: Id, input: TurmaInput)
    requires Valid(s)
    requires id in s.turmas && input.codigo == s.turmas[id].codigo
    ensures AtualizarTurma(s, id, input) != Err(Conflict)
  {
  }

  lemma AtualizarTurmaPreservesValid(s: Store, id: Id, input: TurmaInput)
    requires Valid(s)
    ensures AtualizarTurma(s, id, input).Ok? ==> Valid(AtualizarTurma(s, id, input).value)
  {
    var r := AtualizarTurma(s, id, input);
    if r.Ok? {
      var s' := r.value;
      assert UniqueCodigo(s'.turmas);
    }
  }

  lemma RemoverTurmaPreservesValid(s: Store, id: Id)
    requires Valid(s)
    ensures RemoverTurma(s, id).Ok? ==> Valid(RemoverTurma(s, id).value)
  {
    var r := RemoverTurma(s, id);
    if r.Ok? {
      var s' := r.value;
      assert forall k :: k in s'.turmas ==> s'.turmas[k].codigo == s.turmas[k].codigo;
    }
  }

  /** Soft delete hides the class from the active listing and touches nothing else there; it is idempotent. */
  lemma RemoverTurmaHides(s: Store, id: Id)
    requires RemoverTurma(s, id).Ok?
    ensures ListarTurmasAtivas(RemoverTurma(s, id).value) == ListarTurmasAtivas(s) - {id}
    ensures RemoverTurma(RemoverTurma(s, id).value, id) == RemoverTurma(s, id)
  {
    var s' := RemoverTurma(s, id).value;
    assert s'.turmas[id := s'.turmas[id].(ativa := false)] == s'.turmas;
  }

  /** The hard delete leaves no foreign key dangling. */
  lemma ExcluirTurmaPreservesValid(s: Store, id: Id)
    requires Valid(s)
    ensures ExcluirTurma(s, id).Ok? ==> Valid(ExcluirTurma(s, id).value)
  {
    var r := ExcluirTurma(s, id);
    if r.Ok? {
      var s' := r.value;
      var gone := AlunosDaTurma(s.alunos, id);
      forall k | k in s'.chamadas ensures s'.chamadas[k].turmaId in s'.turmas {
        assert s.chamadas[k].turmaId != id;
      }
      forall k | k in s'.chamadaAlunos
        ensures s'.chamadaAlunos[k].chamadaId in s'.chamadas && s'.chamadaAlunos[k].alunoId in s'.alunos
      {
        assert s.chamadaAlunos[k].alunoId !in gone;
      }
      assert ChamadasInTurmas(s'.chamadas, s'.turmas);
      assert RowsResolve(s'.chamadaAlunos, s'.chamadas, s'.alunos);
    }
  }
}
