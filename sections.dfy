/** The five test sections in their canonical order (the SECTIONS constant of the
    theme module). Every tie-break in the analytics follows this order. */
module Sections {
  import opened Wrappers

  datatype Section = Inference | Deduction | Assumptions | Interpretation | Arguments

  /** SECTIONS, in display and tie-break order. */
  const All: seq<Section> := [Inference, Deduction, Assumptions, Interpretation, Arguments]

  function Name(s: Section): string {
    match s
    case Inference => "Inference"
    case Deduction => "Deduction"
    case Assumptions => "Assumptions"
    case Interpretation => "Interpretation"
    case Arguments => "Arguments"
  }

  /** Position of a section in SECTIONS. */
  function Index(s: Section): (i: nat)
    ensures i < 5
  {
    match s
    case Inference => 0
    case Deduction => 1
    case Assumptions => 2
    case Interpretation => 3
    case Arguments => 4
  }

  /** The section a stored attempt names, if it is one of SECTIONS; any other string
      (a retired section, an empty field) names none. */
  function Parse(name: string): (r: Option<Section>)
    ensures r.Some? ==> Name(r.value) == name
    ensures r.None? ==> forall s :: Name(s) != name
  {
    if name == "Inference" then Some(Inference)
    else if name == "Deduction" then Some(Deduction)
    else if name == "Assumptions" then Some(Assumptions)
    else if name == "Interpretation" then Some(Interpretation)
    else if name == "Arguments" then Some(Arguments)
    else None
  }

  /** The names of a list of sections, in order. */
  function Names(ss: seq<Section>): (r: seq<string>)
    ensures |r| == |ss| && forall i :: 0 <= i < |ss| ==> r[i] == Name(ss[i])
  {
    if ss == [] then [] else [Name(ss[0])] + Names(ss[1..])
  }

  /** `Index` and `All` are inverse to each other. */
  lemma IndexAll()
    ensures forall s :: All[Index(s)] == s
    ensures forall k :: 0 <= k < |All| ==> Index(All[k]) == k
  {
    forall s ensures All[Index(s)] == s {
      match s
      case Inference =>
      case Deduction =>
      case Assumptions =>
      case Interpretation =>
      case Arguments =>
    }
  }

  /** Each section appears exactly once in SECTIONS, and the names are distinct. */
  lemma AllDistinct()
    ensures forall i, j :: 0 <= i < j < |All| ==> All[i] != All[j]
    ensures forall s :: s in All
    ensures forall s, t :: Name(s) == Name(t) ==> s == t
  {
    IndexAll();
    forall s ensures s in All {
      assert All[Index(s)] == s;
    }
  }

  /** Different sections have different names. */
  lemma NameInjective(s: Section, t: Section)
    requires s != t
    ensures Name(s) != Name(t)
  {
  }

  /** No section name holds a comma, so a comma-joined list splits back apart. */
  lemma NameNoComma(s: Section)
    ensures ',' !in Name(s)
  {
  }

  /** Parsing a section's own name gives that section back. */
  lemma ParseName(s: Section)
    ensures Parse(Name(s)) == Some(s)
  {
  }
}
