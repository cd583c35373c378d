/**
 * Student (aluno) CRUD: the class must exist, matrícula and email are unique
 * (on update, among the other students), soft delete through `ativo`, hard
 * delete with the cascade to the student's attendance records, and the active
 * listings.
 */
module AlunoService {
  import opened Results
  import opened Entities
  import TurmaService

  /** The fields a create or update request carries; `ativo` may be null. */
  datatype AlunoInput = AlunoInput(nome: string, matricula: string, email: string, turmaId: Id, ativo: Option<bool>)

  /** `existsByMatricula`. */
  predicate MatriculaInUse(alunos: map<Id, Aluno>, matricula: string) {
    exists k :: k in alunos && alunos[k].matricula == matricula
  }

  /** `existsByEmail`. */
  predicate EmailInUse(alunos: map<Id, Aluno>, email: string) {
    exists k :: k in alunos && alunos[k].email == email
  }

  /** `existsByMatriculaAndIdNot`. */
  predicate MatriculaInUseByOther(alunos: map<Id, Aluno>, matricula: string, id: Id) {
    exists k :: k in alunos && k != id && alunos[k].matricula == matricula
  }

  /** `existsByEmailAndIdNot`. */
  predicate EmailInUseByOther(alunos: map<Id, Aluno>, email: string, id: Id) {
    exists k :: k in alunos && k != id && alunos[k].email == email
  }

  /**
   * `criarAluno`: a missing class is NotFound, then a used matrícula and then
   * a used email are a Conflict; a null `ativo` means active.
   */
  function CriarAluno(s: Store, input: AlunoInput, at: Instant): (r: Result<Store>)
    ensures input.turmaId !in s.turmas ==> r == Err(NotFound)
    ensures r.Ok? <==>
              input.turmaId in s.turmas && !MatriculaInUse(s.alunos, input.matricula) && !EmailInUse(s.alunos, input.email)
    ensures r.Err? && input.turmaId in s.turmas ==> r.error == Conflict
    ensures r.Ok? ==>
              var s' := r.value;
              && OnlyChanged(s, s', {Alunos}) && s'.nextId == s.nextId + 1
              && AddsOne(s.alunos, s'.alunos, s.nextId)
              && var a := s'.alunos[s.nextId];
              && a.nome == input.nome && a.matricula == input.matricula && a.email == input.email
              && a.turmaId == input.turmaId
              && (a.ativo <==> input.ativo != Some(false))
              && a.dataCadastro == at
  {
    if input.turmaId !in s.turmas then Err(NotFound)
    else if MatriculaInUse(s.alunos, input.matricula) then Err(Conflict)
    else if EmailInUse(s.alunos, input.email) then Err(Conflict)
    else
      var a := Aluno(input.nome, input.matricula, input.email, input.turmaId, input.ativo.GetOr(true), at);
      Ok(s.(alunos := s.alunos[s.nextId := a], nextId := s.nextId + 1))
  }

  /**
   * `atualizarAluno`: NotFound for a missing student and then for a missing
   * class; a matrícula or email held by another student is a Conflict; a null
   * `ativo` is rejected by the NOT NULL column. Nome, matrícula, email, class
   * and ativo are overwritten, dataCadastro is kept.
   */
  function AtualizarAluno(s: Store, id: Id, input: AlunoInput): (r: Result<Store>)
    ensures id !in s.alunos || input.turmaId !in s.turmas ==> r == Err(NotFound)
    ensures id in s.alunos && input.turmaId in s.turmas
            && (MatriculaInUseByOther(s.alunos, input.matricula, id) || EmailInUseByOther(s.alunos, input.email, id))
            ==> r == Err(Conflict)
    ensures r.Ok? <==>
              && id in s.alunos && input.turmaId in s.turmas
              && !MatriculaInUseByOther(s.alunos, input.matricula, id)
              && !EmailInUseByOther(s.alunos, input.email, id)
              && input.ativo.Some?
    ensures r == Err(ConstraintViolation) <==>
              && id in s.alunos && input.turmaId in s.turmas
              && !MatriculaInUseByOther(s.alunos, input.matricula, id)
              && !EmailInUseByOther(s.alunos, input.email, id)
              && input.ativo.None?
    ensures r.Ok? ==>
              var s' := r.value;
              && OnlyChanged(s, s', {Alunos}) && s'.nextId == s.nextId
              && ChangesOne(s.alunos, s'.alunos, id)
              && var a := s'.alunos[id];
              && a.nome == input.nome && a.matricula == input.matricula && a.email == input.email
              && a.turmaId == input.turmaId && Some(a.ativo) == input.ativo
              && a.dataCadastro == s.alunos[id].dataCadastro
  {
    if id !in s.alunos then Err(NotFound)
    else if input.turmaId !in s.turmas then Err(NotFound)
    else if MatriculaInUseByOther(s.alunos, input.matricula, id) then Err(Conflict)
    else if EmailInUseByOther(s.alunos, input.email, id) then Err(Conflict)
    else if input.ativo.None? then Err(ConstraintViolation)
    else
      var a := s.alunos[id].(nome := input.nome, matricula := input.matricula, email := input.email,
                             turmaId := input.turmaId, ativo := input.ativo.value);
      Ok(s.(alunos := s.alunos[id := a]))
  }

  /** `removerAluno` (soft delete): the student stays, inactive. */
  function RemoverAluno(s: Store, id: Id): (r: Result<Store>)
    ensures r.Err? <==> id !in s.alunos
    ensures r.Err? ==> r.error == NotFound
    ensures r.Ok? ==>
              && OnlyChanged(s, r.value, {Alunos}) && r.value.nextId == s.nextId
              && ChangesOne(s.alunos, r.value.alunos, id)
              && r.value.alunos[id] == s.alunos[id].(ativo := false)
  {
    if id !in s.alunos then Err(NotFound)
    else Ok(s.(alunos := s.alunos[id := s.alunos[id].(ativo := false)]))
  }

  /** A roll-call row of the student: ChamadaAluno has no cascade from Aluno, so its foreign key blocks the delete. */
  predicate AlunoReferenced(s: Store, id: Id) {
    exists k :: k in s.chamadaAlunos && s.chamadaAlunos[k].alunoId == id
  }

  /**
   * `excluirAluno` (hard delete): a missing id is NotFound; the student goes
   * with all of their attendance records (Aluno.presencas cascades), unless a
   * roll-call row still points at them.
   */
  function ExcluirAluno(s: Store, id: Id): (r: Result<Store>)
    ensures id !in s.alunos ==> r == Err(NotFound)
    ensures r.Ok? <==> id in s.alunos && !AlunoReferenced(s, id)
    ensures r == Err(ConstraintViolation) <==> id in s.alunos && AlunoReferenced(s, id)
    ensures r.Ok? ==>
              var s' := r.value;
              && OnlyChanged(s, s', {Alunos, Presencas}) && s'.nextId == s.nextId
              && s'.alunos == s.alunos - {id}
              && (forall k :: k in s'.presencas <==> k in s.presencas && s.presencas[k].alunoId != id)
              && (forall k :: k in s'.presencas ==> s'.presencas[k] == s.presencas[k])
  {
    if id !in s.alunos then Err(NotFound)
    else if AlunoReferenced(s, id) then Err(ConstraintViolation)
    else
      Ok(s.(alunos := s.alunos - {id},
            presencas := map k | k in s.presencas && s.presencas[k].alunoId != id :: s.presencas[k]))
  }

  /** `listarAlunosAtivos` (`findByAtivoTrue`). */
  function ListarAlunosAtivos(s: Store): (r: set<Id>)
    ensures forall k :: k in r <==> k in s.alunos && s.alunos[k].ativo
  {
    set k | k in s.alunos && s.alunos[k].ativo
  }

  /** `listarAlunosPorTurma` (`findByTurmaIdAndAtivoTrue`). */
  function ListarAlunosPorTurma(s: Store, turmaId: Id): (r: set<Id>)
    ensures r <= ListarAlunosAtivos(s)
    ensures forall k :: k in r <==> k in s.alunos && s.alunos[k].turmaId == turmaId && s.alunos[k].ativo
  {
    set k | k in s.alunos && s.alunos[k].turmaId == turmaId && s.alunos[k].ativo
  }

  // ---------------------------------------------------------------------------
  // Properties
  // ---------------------------------------------------------------------------

  lemma CriarAlunoPreservesValid(s: Store, input: AlunoInput, at: Instant)
    requires Valid(s)
    ensures CriarAluno(s, input, at).Ok? ==> Valid(CriarAluno(s, input, at).value)
  {
  }

  /** After a student is created, another with the same matrícula or email is a Conflict. */
  lemma MatriculaAndEmailStayUnique(s: Store, a: AlunoInput, b: AlunoInput, at: Instant, at': Instant)
    requires CriarAluno(s, a, at).Ok?
    requires b.turmaId in s.turmas
    requires b.matricula == a.matricula || b.email == a.email
    ensures CriarAluno(CriarAluno(s, a, at).value, b, at') == Err(Conflict)
  {
    var s' := CriarAluno(s, a, at).value;
    assert s.nextId in s'.alunos;
  }

  /** Keeping one's own matrícula and email is never a Conflict. */
  lemma AtualizarAlunoOwnKeys(s: Store, id: Id, input: AlunoInput)
    requires Valid(s)
    requires id in s.alunos && input.matricula == s.alunos[id].matricula && input.email == s.alunos[id].email
    ensures AtualizarAluno(s, id, input) != Err(Conflict)
  {
  }

  lemma AtualizarAlunoPreservesValid(s: Store, id: Id, input: AlunoInput)
    requires Valid(s)
    ensures AtualizarAluno(s, id, input).Ok? ==> Valid(AtualizarAluno(s, id, input).value)
  {
    var r := AtualizarAluno(s, id, input);
    if r.Ok? {
      var s' := r.value;
      assert UniqueMatricula(s'.alunos);
      assert UniqueAlunoEmail(s'.alunos);
    }
  }

  lemma RemoverAlunoPreservesValid(s: Store, id: Id)
    requires Valid(s)
    ensures RemoverAluno(s, id).Ok? ==> Valid(RemoverAluno(s, id).value)
  {
    var r := RemoverAluno(s, id);
    if r.Ok? {
      var s' := r.value;
      assert forall k :: k in s'.alunos ==> s'.alunos[k].matricula == s.alunos[k].matricula && s'.alunos[k].email == s.alunos[k].email;
    }
  }

  /**
   * Soft delete hides the student from both active listings and from its
   * class's student count, which drops by one when the student was active.
   */
  lemma RemoverAlunoHides(s: Store, id: Id, turmaId: Id)
    requires RemoverAluno(s, id).Ok?
    ensures ListarAlunosAtivos(RemoverAluno(s, id).value) == ListarAlunosAtivos(s) - {id}
    ensures ListarAlunosPorTurma(RemoverAluno(s, id).value, turmaId) == ListarAlunosPorTurma(s, turmaId) - {id}
    ensures s.alunos[id].ativo && s.alunos[id].turmaId == turmaId && turmaId in s.turmas ==>
              TurmaService.ConsultarTurma(RemoverAluno(s, id).value, turmaId).value.totalAlunos
              == TurmaService.ConsultarTurma(s, turmaId).value.totalAlunos - 1
  {
    var s' := RemoverAluno(s, id).value;
    assert TurmaService.AlunosAtivosDaTurma(s', turmaId) == TurmaService.AlunosAtivosDaTurma(s, turmaId) - {id};
  }

  /** The class summary's student count is the size of the per-class listing. */
  lemma TotalAlunosIsListingSize(s: Store, turmaId: Id)
    requires turmaId in s.turmas
    ensures TurmaService.ConsultarTurma(s, turmaId).value.totalAlunos == |ListarAlunosPorTurma(s, turmaId)|
  {
    assert TurmaService.AlunosAtivosDaTurma(s, turmaId) == ListarAlunosPorTurma(s, turmaId);
  }

  lemma ExcluirAlunoPreservesValid(s: Store, id: Id)
    requires Valid(s)
    ensures ExcluirAluno(s, id).Ok? ==> Valid(ExcluirAluno(s, id).value)
  {
    var r := ExcluirAluno(s, id);
    if r.Ok? {
      var s' := r.value;
      forall k | k in s'.chamadaAlunos ensures s'.chamadaAlunos[k].alunoId in s'.alunos {
        assert s.chamadaAlunos[k].alunoId != id;
      }
      assert RowsResolve(s'.chamadaAlunos, s'.chamadas, s'.alunos);
    }
  }
}
