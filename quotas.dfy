/** The quota planner of the quiz page: how many questions each requested section
    should contribute, either from a composition passed with the request (the mock
    test sends one) or by splitting the question limit evenly. */
module Quotas {
  import opened Wrappers
  import opened Percent
  import opened Seqs

  /** One `{ s, n }` object of the composition. */
  datatype CompEntry = CompEntry(s: string, n: int)

  /** The composition parameter after `JSON.parse`. `Parsed` lists the array's
      elements; an element whose fields cannot be read (a `null`) is `None`, and
      reading it throws, which the surrounding `catch` swallows. */
  datatype Comp = NoComp | Unparsable | Parsed(items: seq<Option<CompEntry>>)

  type Quotas = map<string, int>

  /** `quotas[sec] || 0`. */
  function Need(q: Quotas, s: string): int
  {
    if s in q then q[s] else 0
  }

  /** JavaScript's `%`, which truncates toward zero (Dafny's `%` never goes negative). */
  function JsRem(a: int, n: int): (r: int)
    requires n > 0
    ensures a >= 0 ==> r == a % n
    // for a negative dividend, a = n * -((-a) / n) + r: the quotient is truncated toward zero
    ensures a < 0 ==> -n < r <= 0 && a == n * -((-a) / n) + r
    ensures -n < r < n
  {
    if a >= 0 then a % n else -((-a) % n)
  }

  /** The share of the section at position `i` when `total` is split over `n`:
      `Math.floor(total / n) + (i < total % n ? 1 : 0)`. */
  function Share(total: int, n: nat, i: nat): int
    requires n > 0
  {
    total / n + (if i < JsRem(total, n) then 1 else 0)
  }

  /** The entries the `forEach` gets through before an unreadable element throws. */
  function Entries(items: seq<Option<CompEntry>>): (es: seq<CompEntry>)
    ensures |es| <= |items|
    ensures forall i :: 0 <= i < |es| ==> items[i] == Some(es[i])
    ensures |es| < |items| ==> items[|es|].None?
  {
    if items == [] || items[0].None? then [] else [items[0].value] + Entries(items[1..])
  }

  function Keys(es: seq<CompEntry>): (ks: seq<string>)
    ensures |ks| == |es| && forall i :: 0 <= i < |es| ==> ks[i] == es[i].s
  {
    if es == [] then [] else [es[0].s] + Keys(es[1..])
  }

  /** `quotas[c.s] = c.n` for each entry in turn: every named section gets the count
      of the LAST entry that names it. */
  function FromEntries(es: seq<CompEntry>): (q: Quotas)
  {
    map s | s in Keys(es) :: es[LastIndex(Keys(es), s)].n
  }

  /** What the composition contributes, as a map; empty when there is none, it does
      not parse, or its first element is unreadable. */
  function CompQuotas(comp: Comp): Quotas
  {
    match comp
    case Parsed(items) => FromEntries(Entries(items))
    case _ => map[]
  }

  /** The even split: each listed section gets the share of its last position. */
  function EvenSplit(secs: seq<string>, total: int): (q: Quotas)
    requires |secs| > 0
  {
    map s | s in secs :: Share(total, |secs|, LastIndex(secs, s))
  }

  /** Lines 63-71: the composition wins when it sets at least one quota; otherwise
      `total` is split evenly over `secs` (which `split(",")` never leaves empty). */
  method PlanQuotas(secs: seq<string>, total: int, comp: Comp) returns (q: Quotas)
    requires |secs| > 0
    ensures CompQuotas(comp) != map[] ==> q == CompQuotas(comp)
    ensures CompQuotas(comp) == map[] ==> q == EvenSplit(secs, total)
  {
    q := map[];
    if comp.Parsed? {
      q := ReadComp(comp.items);
    }
    if q == map[] {
      q := SplitEvenly(secs, total);
    }
  }

  /** The `forEach` over the parsed array, stopped by the first unreadable element. */
  method ReadComp(items: seq<Option<CompEntry>>) returns (q: Quotas)
    ensures q == FromEntries(Entries(items))
  {
    q := map[];
    var i := 0;
    while i < |items| && items[i].Some?
      invariant 0 <= i <= |items|
      invariant forall j :: 0 <= j < i ==> items[j].Some?
      invariant q == FromEntries(Entries(items[..i]))
    {
      var e := items[i].value;
      ghost var before := items[..i];
      assert items[..i + 1] == before + [Some(e)];
      EntriesSnoc(before, e);
      FromEntriesSnoc(Entries(before), e);
      q := q[e.s := e.n];
      i := i + 1;
    }
    EntriesStop(items, i);
  }

  /** The `secs.forEach((s, i) => quotas[s] = base + (i < rem ? 1 : 0))` loop. */
  method SplitEvenly(secs: seq<string>, total: int) returns (q: Quotas)
    requires |secs| > 0
    ensures q == EvenSplit(secs, total)
  {
    q := map[];
    var base := total / |secs|;
    var rem := JsRem(total, |secs|);
    var i := 0;
    while i < |secs|
      invariant 0 <= i <= |secs|
      invariant q == SplitPrefix(secs, total, i)
    {
      SplitPrefixStep(secs, total, i);
      q := q[secs[i] := base + (if i < rem then 1 else 0)];
      i := i + 1;
    }
    assert secs[..i] == secs;
  }

  /** The map after the first `k` iterations of the even-split loop. */
  function SplitPrefix(secs: seq<string>, total: int, k: nat): Quotas
    requires 0 < |secs| && k <= |secs|
  {
    map s | s in secs[..k] :: Share(total, |secs|, LastIndex(secs[..k], s))
  }

  lemma SplitPrefixStep(secs: seq<string>, total: int, k: nat)
    requires k < |secs|
    ensures SplitPrefix(secs, total, k + 1) == SplitPrefix(secs, total, k)[secs[k] := Share(total, |secs|, k)]
  {
    var p, p' := secs[..k], secs[..k + 1];
    assert p' == p + [secs[k]];
    assert p'[..k] == p;
    forall s | s in p && s != secs[k] ensures LastIndex(p', s) == LastIndex(p, s) {
    }
  }

  lemma EntriesSnoc(items: seq<Option<CompEntry>>, e: CompEntry)
    requires forall j :: 0 <= j < |items| ==> items[j].Some?
    ensures Entries(items + [Some(e)]) == Entries(items) + [e]
  {
    if items != [] {
      assert (items + [Some(e)])[1..] == items[1..] + [Some(e)];
      EntriesSnoc(items[1..], e);
    } else {
      assert [Some(e)][1..] == [];
    }
  }

  lemma EntriesStop(items: seq<Option<CompEntry>>, i: nat)
    requires i <= |items| && forall j :: 0 <= j < i ==> items[j].Some?
    requires i == |items| || items[i].None?
    ensures Entries(items[..i]) == Entries(items)
  {
    if i > 0 {
      assert items[..i][1..] == items[1..][..i - 1];
      EntriesStop(items[1..], i - 1);
    } else if items != [] {
      assert items[0].None?;
    }
  }

  lemma FromEntriesSnoc(es: seq<CompEntry>, e: CompEntry)
    ensures FromEntries(es + [e]) == FromEntries(es)[e.s := e.n]
  {
    var ks, ks' := Keys(es), Keys(es + [e]);
    assert ks' == ks + [e.s];
    assert ks'[..|ks'| - 1] == ks;
    forall s | s in ks && s != e.s ensures LastIndex(ks', s) == LastIndex(ks, s) {
    }
  }

  /** A readable composition sets exactly the sections it names, each to the count of
      the last entry naming it; later entries override earlier ones. */
  lemma {:induction false} CompQuotasLastWins(items: seq<Option<CompEntry>>, s: string)
    ensures var es := Entries(items);
      (s in CompQuotas(Parsed(items)) <==> exists i :: 0 <= i < |es| && es[i].s == s) &&
      (s in CompQuotas(Parsed(items)) ==>
        exists i :: 0 <= i < |es| && es[i].s == s && CompQuotas(Parsed(items))[s] == es[i].n &&
          forall j :: i < j < |es| ==> es[j].s != s)
  {
    var es := Entries(items);
    FromEntriesLastWins(es, s);
  }

  lemma FromEntriesLastWins(es: seq<CompEntry>, s: string)
    ensures var q := FromEntries(es);
      (s in q <==> exists i :: 0 <= i < |es| && es[i].s == s) &&
      (s in q ==> exists i :: (0 <= i < |es| && es[i].s == s && q[s] == es[i].n &&
                                forall j :: i < j < |es| ==> es[j].s != s))
  {
    var ks := Keys(es);
    if s in ks {
      var i := LastIndex(ks, s);
      assert es[i].s == s && FromEntries(es)[s] == es[i].n;
      forall j | i < j < |es| ensures es[j].s != s {
        assert ks[j] == es[j].s;
      }
    } else {
      forall i | 0 <= i < |es| ensures es[i].s != s {
        assert ks[i] == es[i].s;
      }
    }
  }

  /** Without a usable composition (none given, unparsable, or unreadable before any
      entry) the even split is used. */
  lemma NoCompMeansEvenSplit(comp: Comp)
    requires comp.NoComp? || comp.Unparsable? || (comp.Parsed? && (comp.items == [] || comp.items[0].None?))
    ensures CompQuotas(comp) == map[]
  {
  }

  /** The even split names exactly the listed sections, and any two quotas differ by at
      most one. */
  lemma EvenSplitBalanced(secs: seq<string>, total: int)
    requires |secs| > 0
    ensures EvenSplit(secs, total).Keys == set s | s in secs
    ensures forall s, t :: s in secs && t in secs ==>
      EvenSplit(secs, total)[s] - EvenSplit(secs, total)[t] <= 1
    ensures forall s :: s in secs ==> total / |secs| <= EvenSplit(secs, total)[s] <= total / |secs| + 1
  {
  }

  /** With no section listed twice and a non-negative total, the first `total % n`
      sections get one more than the rest, and the quotas add up to `total`. */
  lemma EvenSplitExact(secs: seq<string>, total: int)
    requires |secs| > 0 && Distinct(secs) && total >= 0
    ensures forall i :: 0 <= i < |secs| ==>
      EvenSplit(secs, total)[secs[i]] == total / |secs| + (if i < total % |secs| then 1 else 0)
    ensures SumNeeds(EvenSplit(secs, total), secs) == total
  {
    var q := EvenSplit(secs, total);
    var n := |secs|;
    var base, rem := total / n, total % n;
    forall i | 0 <= i < n ensures q[secs[i]] == base + (if i < rem then 1 else 0) {
      LastIndexDistinct(secs, i);
    }
    SumShares(q, secs, base, rem, n);
    assert secs[..n] == secs;
    DivSplit(total, n);
  }

  lemma DivSplit(a: int, n: nat)
    requires n > 0
    ensures n * (a / n) + a % n == a
  {
  }

  /** The sum of the quotas of the listed sections, in order. */
  function SumNeeds(q: Quotas, secs: seq<string>): int
  {
    if secs == [] then 0 else SumNeeds(q, secs[..|secs| - 1]) + Need(q, secs[|secs| - 1])
  }

  lemma {:induction false} SumShares(q: Quotas, secs: seq<string>, base: int, rem: nat, k: nat)
    requires k <= |secs|
    requires forall i :: 0 <= i < |secs| ==> secs[i] in q && q[secs[i]] == base + (if i < rem then 1 else 0)
    ensures SumNeeds(q, secs[..k]) == k * base + Min(k, rem)
  {
    if k > 0 {
      SumShares(q, secs, base, rem, k - 1);
      assert secs[..k][..k - 1] == secs[..k - 1];
      assert k * base == (k - 1) * base + base;
    }
  }

  /** One request entry: the section and how many rows to fetch for it. */
  datatype Request = Request(section: string, limit: int)

  /** Lines 74-76: sections with a positive quota, in order, each asking for four
      times its quota but at most 200 rows. */
  function Requests(secs: seq<string>, q: Quotas): (rs: seq<Request>)
    ensures |rs| <= |secs|
    ensures forall r :: r in rs ==>
      r.section in secs && Need(q, r.section) > 0 && r.limit == Min(4 * Need(q, r.section), 200) && 0 < r.limit <= 200
    ensures forall s :: s in secs && Need(q, s) > 0 ==> exists r :: r in rs && r.section == s
  {
    if secs == [] then []
    else
      var rest := Requests(secs[1..], q);
      var s := secs[0];
      assert forall t :: t in secs[1..] ==> t in secs;
      if Need(q, s) > 0 then [Request(s, Min(4 * Need(q, s), 200))] + rest else rest
  }

  /** The sections with a positive quota, in their order in `secs`, a section named
      twice kept twice. */
  function Positive(secs: seq<string>, q: Quotas): (p: seq<string>)
    ensures |p| <= |secs|
    ensures forall s :: s in p <==> s in secs && Need(q, s) > 0
  {
    if secs == [] then []
    else (if Need(q, secs[0]) > 0 then [secs[0]] else []) + Positive(secs[1..], q)
  }

  /** A section with a positive quota is kept as often as it is named; the others go. */
  lemma {:induction false} PositiveCounts(secs: seq<string>, q: Quotas, s: string)
    ensures multiset(Positive(secs, q))[s] == if Need(q, s) > 0 then multiset(secs)[s] else 0
  {
    if secs != [] {
      PositiveCounts(secs[1..], q, s);
      assert secs == [secs[0]] + secs[1..];
      assert multiset(secs) == multiset([secs[0]]) + multiset(secs[1..]);
    }
  }

  /** Filtering keeps the order: the sections of a prefix come before those of the rest. */
  lemma {:induction false} PositiveAppend(a: seq<string>, b: seq<string>, q: Quotas)
    ensures Positive(a + b, q) == Positive(a, q) + Positive(b, q)
  {
    if a != [] {
      var h := if Need(q, a[0]) > 0 then [a[0]] else [];
      assert (a + b)[0] == a[0] && (a + b)[1..] == a[1..] + b;
      assert Positive(a + b, q) == h + Positive(a[1..] + b, q);
      PositiveAppend(a[1..], b, q);
      assert Positive(a, q) == h + Positive(a[1..], q);
      assert h + (Positive(a[1..], q) + Positive(b, q)) == (h + Positive(a[1..], q)) + Positive(b, q);
    } else {
      assert a + b == b;
    }
  }

  /** The request list is the `filter` followed by the `map`: one request per section
      with a positive quota, in order and with repeats. */
  lemma {:induction false} RequestsInOrder(secs: seq<string>, q: Quotas)
    ensures |Requests(secs, q)| == |Positive(secs, q)|
    ensures forall k :: 0 <= k < |Requests(secs, q)| ==>
      Requests(secs, q)[k] == Request(Positive(secs, q)[k], Min(4 * Need(q, Positive(secs, q)[k]), 200))
  {
    if secs != [] {
      RequestsInOrder(secs[1..], q);
      var rs, rest := Requests(secs, q), Requests(secs[1..], q);
      var p, pr := Positive(secs, q), Positive(secs[1..], q);
      if Need(q, secs[0]) > 0 {
        assert rs == [Request(secs[0], Min(4 * Need(q, secs[0]), 200))] + rest;
        assert p == [secs[0]] + pr;
        forall k | 0 <= k < |rs| ensures rs[k] == Request(p[k], Min(4 * Need(q, p[k]), 200)) {
          if k > 0 {
            assert rs[k] == rest[k - 1] && p[k] == pr[k - 1];
          }
        }
      } else {
        assert rs == rest;
        assert p == [] + pr == pr;
      }
    }
  }
}
