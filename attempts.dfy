/** The answer history the dashboard and analytics pages fetch: one row per stored
    attempt, newest first, carrying the section name and whether it was right. */
module Attempts {
  import opened Sections

  datatype Attempt = Attempt(section: string, correct: bool)

  /** Attempts in `hist` whose section name is that of `s`. */
  function Tried(hist: seq<Attempt>, s: Section): nat
  {
    if hist == [] then 0
    else Tried(hist[..|hist| - 1], s) + (if hist[|hist| - 1].section == Name(s) then 1 else 0)
  }

  /** The correct ones among them. */
  function Right(hist: seq<Attempt>, s: Section): (n: nat)
    ensures n <= Tried(hist, s)
  {
    if hist == [] then 0
    else
      var a := hist[|hist| - 1];
      Right(hist[..|hist| - 1], s) + (if a.section == Name(s) && a.correct then 1 else 0)
  }

  /** Correct attempts of any section, recognised or not. */
  function CorrectTotal(hist: seq<Attempt>): (n: nat)
    ensures n <= |hist|
  {
    if hist == [] then 0
    else CorrectTotal(hist[..|hist| - 1]) + (if hist[|hist| - 1].correct then 1 else 0)
  }

  /** An attempt with a name outside SECTIONS counts for no section. */
  lemma {:induction false} UnknownIgnored(hist: seq<Attempt>, a: Attempt, s: Section)
    requires Parse(a.section).None?
    ensures Tried(hist + [a], s) == Tried(hist, s) && Right(hist + [a], s) == Right(hist, s)
  {
    assert (hist + [a])[..|hist|] == hist;
  }

  /** Counting a history in two pieces. */
  lemma {:induction false} TriedAppend(h1: seq<Attempt>, h2: seq<Attempt>, s: Section)
    ensures Tried(h1 + h2, s) == Tried(h1, s) + Tried(h2, s)
    ensures Right(h1 + h2, s) == Right(h1, s) + Right(h2, s)
    decreases |h2|
  {
    if h2 == [] {
      assert h1 + h2 == h1;
    } else {
      var init := h2[..|h2| - 1];
      assert (h1 + h2)[..|h1 + h2| - 1] == h1 + init;
      TriedAppend(h1, init, s);
    }
  }
}
