/** The mock-test page (src/app/test/page.tsx): the fixed composition it shows and
    the quiz link it starts. */
module MockTest {
  import opened Wrappers
  import opened Sections
  import opened Seqs
  import opened Text
  import opened Quotas
  import Analytics
  import Sampler

  /** The `comp` table, in display order. */
  const Composition: seq<CompEntry> := [
    CompEntry("Inference", 5),
    CompEntry("Deduction", 5),
    CompEntry("Assumptions", 12),
    CompEntry("Interpretation", 6),
    CompEntry("Arguments", 12)
  ]

  function Total(es: seq<CompEntry>): int
  {
    if es == [] then 0 else es[0].n + Total(es[1..])
  }

  /** The table lists SECTIONS once each, in their order, with the test weights used by
      the analytics, and adds up to the TOTAL of 40 it displays. */
  lemma CompositionShape()
    ensures Keys(Composition) == Names(All)
    ensures Distinct(Keys(Composition))
    ensures forall i :: 0 <= i < |All| ==> Composition[i].n == Analytics.Weight(All[i])
    ensures Total(Composition) == 40
  {
    CompositionKeys();
    NamesDistinct();
    CompositionTotal();
  }

  lemma CompositionKeys()
    ensures Keys(Composition) == Names(All)
  {
    assert forall i :: 0 <= i < 5 ==> Composition[i].s == Name(All[i]);
  }

  lemma NamesDistinct()
    ensures Distinct(Names(All))
  {
    AllDistinct();
    forall i, j | 0 <= i < j < |All| ensures Names(All)[i] != Names(All)[j] {
      NameInjective(All[i], All[j]);
    }
  }

  lemma CompositionTotal()
    ensures Total(Composition) == 40
  {
    var c := Composition;
    assert c[1..][1..][1..][1..][1..] == [];
  }

  /** The query the Start button sends. */
  datatype Params = Params(mode: string, sections: string, limit: string, comp: seq<CompEntry>)

  function StartParams(): (p: Params)
    ensures p.mode == "test" && p.limit == Dec(40) && p.comp == Composition
    ensures Split(p.sections, ',') == Names(All)
  {
    forall i | 0 <= i < |All| ensures ',' !in Names(All)[i] {
      NameNoComma(All[i]);
    }
    SplitJoin(Names(All), ',');
    Params("test", Join(Names(All), ','), "40", Composition)
  }

  /** The quiz reads the link back as a mock test over all of SECTIONS with a limit of
      40, and so samples at most three questions per passage. */
  lemma TestLinkRead()
    ensures var p := StartParams();
      Sampler.ReadParams(Some(p.mode), Some(p.sections), Some(p.limit)) == Sampler.QueryParams("test", Names(All), Some(40)) &&
      Sampler.MaxPerPassage(p.mode) == Sampler.AtMost(3)
  {
    ParseDec(40);
  }

  /** The composition as the quiz sees it after parsing: every element readable. */
  function Readable(es: seq<CompEntry>): (items: seq<Option<CompEntry>>)
    ensures |items| == |es| && forall i :: 0 <= i < |es| ==> items[i] == Some(es[i])
  {
    if es == [] then [] else [Some(es[0])] + Readable(es[1..])
  }

  /** On the quiz side this request gives each section exactly its test weight, and the
      quotas add up to the 40-question limit. */
  lemma TestQuotas()
    ensures var q := CompQuotas(Parsed(Readable(Composition)));
      q != map[] &&
      (forall s :: Name(s) in q && q[Name(s)] == Analytics.Weight(s)) &&
      SumNeeds(q, Names(All)) == 40
  {
    var q := CompQuotas(Parsed(Readable(Composition)));
    ReadableQuotas(Composition);
    CompositionValues();
    WeightQuotas(q);
    WeightsSum(q);
  }

  lemma ReadableQuotas(es: seq<CompEntry>)
    ensures CompQuotas(Parsed(Readable(es))) == FromEntries(es)
  {
    AllReadable(es);
  }

  lemma WeightsSum(q: Quotas)
    requires "Inference" in q && q["Inference"] == 5
    requires "Deduction" in q && q["Deduction"] == 5
    requires "Assumptions" in q && q["Assumptions"] == 12
    requires "Interpretation" in q && q["Interpretation"] == 6
    requires "Arguments" in q && q["Arguments"] == 12
    ensures q != map[] && SumNeeds(q, Names(All)) == 40
  {
    var ns := Names(All);
    SumFive(q, ns);
    assert Need(q, ns[0]) == 5 && Need(q, ns[1]) == 5 && Need(q, ns[2]) == 12;
    assert Need(q, ns[3]) == 6 && Need(q, ns[4]) == 12;
  }

  lemma CompositionValues()
    ensures var q := FromEntries(Composition);
      "Inference" in q && q["Inference"] == 5 &&
      "Deduction" in q && q["Deduction"] == 5 &&
      "Assumptions" in q && q["Assumptions"] == 12 &&
      "Interpretation" in q && q["Interpretation"] == 6 &&
      "Arguments" in q && q["Arguments"] == 12
  {
    CompositionShape();
    FromEntriesAt(Composition, 0);
    FromEntriesAt(Composition, 1);
    FromEntriesAt(Composition, 2);
    FromEntriesAt(Composition, 3);
    FromEntriesAt(Composition, 4);
  }

  lemma WeightQuotas(q: Quotas)
    requires "Inference" in q && q["Inference"] == 5
    requires "Deduction" in q && q["Deduction"] == 5
    requires "Assumptions" in q && q["Assumptions"] == 12
    requires "Interpretation" in q && q["Interpretation"] == 6
    requires "Arguments" in q && q["Arguments"] == 12
    ensures forall s :: Name(s) in q && q[Name(s)] == Analytics.Weight(s)
  {
    forall s ensures Name(s) in q && q[Name(s)] == Analytics.Weight(s) {
      match s
      case Inference =>
      case Deduction =>
      case Assumptions =>
      case Interpretation =>
      case Arguments =>
    }
  }

  /** With no section named twice, each entry sets its own section's quota. */
  lemma FromEntriesAt(es: seq<CompEntry>, i: nat)
    requires i < |es| && Distinct(Keys(es))
    ensures es[i].s in FromEntries(es) && FromEntries(es)[es[i].s] == es[i].n
  {
    var ks := Keys(es);
    assert ks[i] == es[i].s && ks[i] in ks;
    LastIndexDistinct(ks, i);
  }

  lemma SumFive(q: Quotas, ns: seq<string>)
    requires |ns| == 5
    ensures SumNeeds(q, ns) == Need(q, ns[0]) + Need(q, ns[1]) + Need(q, ns[2]) + Need(q, ns[3]) + Need(q, ns[4])
  {
    var n4, n3, n2, n1 := ns[..4], ns[..3], ns[..2], ns[..1];
    assert n4[..3] == n3 && n3[..2] == n2 && n2[..1] == n1 && n1[..0] == [];
    assert SumNeeds(q, n1) == Need(q, ns[0]);
    assert SumNeeds(q, n2) == SumNeeds(q, n1) + Need(q, ns[1]);
    assert SumNeeds(q, n3) == SumNeeds(q, n2) + Need(q, ns[2]);
    assert SumNeeds(q, n4) == SumNeeds(q, n3) + Need(q, ns[3]);
  }

  lemma {:induction false} AllReadable(es: seq<CompEntry>)
    ensures Entries(Readable(es)) == es
  {
    if es != [] {
      assert Readable(es)[1..] == Readable(es[1..]);
      AllReadable(es[1..]);
    }
  }
}
