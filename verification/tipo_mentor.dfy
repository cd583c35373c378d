/**
 * The closed set of mentor kinds (Mentor.TipoMentor), their enum names,
 * their display labels, and how a request string is matched to one.
 */
module MentorTipo {
  import opened Results

  datatype TipoMentor = Regular | Trainee | Coordenador

  /** Every kind, in declaration order. */
  function AllTipos(): (ts: seq<TipoMentor>)
    ensures |ts| == 3
    ensures Regular in ts && Trainee in ts && Coordenador in ts
    ensures forall i, j :: 0 <= i < j < |ts| ==> ts[i] != ts[j]
  {
    [Regular, Trainee, Coordenador]
  }

  /** The enum constant's name: what `valueOf` accepts and what is stored. */
  function Name(t: TipoMentor): string {
    match t
    case Regular => "MENTOR"
    case Trainee => "MENTOR_TRAINEE"
    case Coordenador => "MENTOR_COORDENADOR"
  }

  /** The display label (`getDescricao`). */
  function Label(t: TipoMentor): string {
    match t
    case Regular => "Mentor"
    case Trainee => "Mentor-trainee"
    case Coordenador => "Mentor Coordenador"
  }

  /** Different kinds have different names and different labels. */
  lemma NamesAndLabelsInjective(t: TipoMentor, u: TipoMentor)
    requires t != u
    ensures Name(t) != Name(u)
    ensures Label(t) != Label(u)
  {
    match t
    case Regular => assert Name(t)[6..] == "";
    case Trainee => assert Name(t)[6] == '_';
    case Coordenador => assert Name(t)[7] == 'C';
  }

  /** Upper-casing of one character (ASCII letters only). */
  function UpperChar(c: char): char {
    if 'a' <= c <= 'z' then (c as int - 'a' as int + 'A' as int) as char else c
  }

  /** `String.toUpperCase`, restricted to ASCII letters. */
  function ToUpper(s: string): (u: string)
    ensures |u| == |s|
    ensures forall i :: 0 <= i < |s| ==> u[i] == UpperChar(s[i])
  {
    seq(|s|, i requires 0 <= i < |s| => UpperChar(s[i]))
  }

  /**
   * `TipoMentor.valueOf(s.toUpperCase())`, with `None` where valueOf throws
   * IllegalArgumentException.
   */
  function ParseTipo(s: string): (r: Option<TipoMentor>)
    ensures r.Some? ==> Name(r.value) == ToUpper(s)
    ensures r.None? ==> forall t: TipoMentor :: Name(t) != ToUpper(s)
  {
    var u := ToUpper(s);
    if u == Name(Regular) then Some(Regular)
    else if u == Name(Trainee) then Some(Trainee)
    else if u == Name(Coordenador) then Some(Coordenador)
    else None
  }

  lemma {:induction false} ToUpperIdempotent(s: string)
    ensures ToUpper(ToUpper(s)) == ToUpper(s)
  {
    var u := ToUpper(s);
    assert forall i :: 0 <= i < |u| ==> UpperChar(u[i]) == u[i];
  }

  lemma UpperNameIsName(t: TipoMentor)
    ensures ToUpper(Name(t)) == Name(t)
  {
    var n := Name(t);
    assert forall i :: 0 <= i < |n| ==> !('a' <= n[i] <= 'z');
  }

  /** Each enum name parses back to its kind. */
  lemma ParseName(t: TipoMentor)
    ensures ParseTipo(Name(t)) == Some(t)
  {
    UpperNameIsName(t);
    match t
    case Regular =>
    case Trainee => assert Name(Regular) != Name(Trainee) by { NamesAndLabelsInjective(Regular, Trainee); }
    case Coordenador =>
      NamesAndLabelsInjective(Regular, Coordenador);
      NamesAndLabelsInjective(Trainee, Coordenador);
  }

  /** Matching ignores case: a string parses as its upper-cased form does. */
  lemma ParseIgnoresCase(s: string)
    ensures ParseTipo(s) == ParseTipo(ToUpper(s))
  {
    ToUpperIdempotent(s);
  }
}
