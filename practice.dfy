/** The practice setup page (src/app/practice/page.tsx): the chosen sections, the
    question count and its controls, and the quiz link it starts. */
module Practice {
  import opened Wrappers
  import opened Sections
  import opened Percent
  import opened Seqs
  import opened Text
  import Sampler

  /** `+e.target.value || 1`, clamped into 1..50; `None` is input that is not a number. */
  function Typed(v: Option<int>): (n: int)
    ensures 1 <= n <= 50
    ensures v.None? || v == Some(0) ==> n == 1
    ensures v.Some? && 1 <= v.value <= 50 ==> n == v.value
    ensures v.Some? && v.value > 50 ==> n == 50
    ensures v.Some? && v.value < 0 ==> n == 1
  {
    var w := if v.None? || v == Some(0) then 1 else v.value;
    Max(1, Min(50, w))
  }

  /** The query of the quiz link. */
  datatype Params = Params(mode: string, sections: string, limit: string)

  class Setup {
    var sel: seq<Section>
    var cnt: int

    ghost predicate Valid()
      reads this
    {
      Distinct(sel) && 1 <= cnt <= 50
    }

    /** Every section chosen, 20 questions (lines 15-16). */
    constructor ()
      ensures Valid() && sel == All && cnt == 20
    {
      AllDistinct();
      sel := All;
      cnt := 20;
    }

    /** A click on a section row. */
    method Toggle(s: Section)
      requires Valid()
      modifies this
      ensures Valid() && sel == Toggled(old(sel), s) && cnt == old(cnt)
    {
      if s in sel {
        sel := Without(sel, s);
      } else {
        sel := sel + [s];
      }
    }

    /** The − button. */
    method Decrement()
      requires Valid()
      modifies this
      ensures Valid() && sel == old(sel) && cnt == Max(1, old(cnt) - 1)
    {
      cnt := Max(1, cnt - 1);
    }

    /** The + button. */
    method Increment()
      requires Valid()
      modifies this
      ensures Valid() && sel == old(sel) && cnt == Min(50, old(cnt) + 1)
    {
      cnt := Min(50, cnt + 1);
    }

    /** Typing into the number box. */
    method Type(v: Option<int>)
      requires Valid()
      modifies this
      ensures Valid() && sel == old(sel) && cnt == Typed(v)
    {
      var w := if v.None? || v == Some(0) then 1 else v.value;
      cnt := Max(1, Min(50, w));
    }

    /** Dragging the slider, which offers 5..50. */
    method Slide(v: int)
      requires Valid() && 5 <= v <= 50
      modifies this
      ensures Valid() && sel == old(sel) && cnt == v
    {
      cnt := v;
    }

    /** The Start button: disabled with no section chosen; otherwise the quiz link. */
    method Start() returns (p: Option<Params>)
      requires Valid()
      ensures p.None? <==> sel == []
      ensures p.Some? ==> p.value == Params("practice", Join(Names(sel), ','), Dec(cnt as nat))
    {
      if |sel| == 0 {
        return None;
      }
      p := Some(Params("practice", Join(Names(sel), ','), Dec(cnt as nat)));
    }
  }

  /** The quiz reads the link back: a practice session over the chosen sections, in
      order, with the count as its limit and at most two questions per passage. */
  lemma ParamsRoundTrip(sel: seq<Section>, cnt: nat)
    requires sel != []
    ensures Sampler.ReadParams(Some("practice"), Some(Join(Names(sel), ',')), Some(Dec(cnt))) ==
      Sampler.QueryParams("practice", Names(sel), Some(cnt))
    ensures Sampler.MaxPerPassage("practice") == Sampler.AtMost(2)
  {
    var ns := Names(sel);
    forall i | 0 <= i < |sel|
      ensures ',' !in ns[i]
    {
      NameNoComma(sel[i]);
    }
    SplitJoin(ns, ',');
    JoinNamesNonEmpty(ns, sel[0]);
    ParseDec(cnt);
    var p := Sampler.ReadParams(Some("practice"), Some(Join(ns, ',')), Some(Dec(cnt)));
    assert p.secs == ns;
    assert p.limit == Some(cnt);
  }

  /** A comma-joined list led by a section name is not empty. */
  lemma JoinNamesNonEmpty(ns: seq<string>, s: Section)
    requires ns != [] && ns[0] == Name(s)
    ensures Join(ns, ',') != ""
  {
    assert |Name(s)| > 0 by {
      match s
      case Inference =>
      case Deduction =>
      case Assumptions =>
      case Interpretation =>
      case Arguments =>
    }
    if |ns| > 1 {
      assert Join(ns, ',') == ns[0] + [','] + Join(ns[1..], ',');
    }
  }
}
