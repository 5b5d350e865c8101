/** The analytics page (src/app/analytics/page.tsx lines 40-83 and 230-235): per-section
    counters over the history, the recent trend, the strongest and weakest sections, and
    the Logic Profile ranking with its labels. */
module Analytics {
  import opened Wrappers
  import opened Sections
  import opened Percent
  import opened Attempts

  /** One counter `{ c, t }` of `sp`. */
  datatype Count = Count(c: nat, t: nat)

  /** The counter the page keeps for section `s`. */
  function Stat(hist: seq<Attempt>, s: Section): (r: Count)
    ensures r.c <= r.t
  {
    Count(Right(hist, s), Tried(hist, s))
  }

  /** `sp`: a counter per section, then one pass over the history; a row whose section
      name is not one of SECTIONS is skipped. */
  method CountSections(hist: seq<Attempt>) returns (sp: map<Section, Count>)
    ensures Counters(sp) && forall s :: sp[s] == Stat(hist, s)
  {
    sp := map s | s in All :: Count(0, 0);
    TracksEmpty(sp, hist);
    var i := 0;
    while i < |hist|
      invariant 0 <= i <= |hist|
      invariant Tracks(sp, hist[..i])
    {
      TracksStep(sp, hist, i);
      sp := Bump(sp, hist[i]);
      i := i + 1;
    }
    assert hist[..i] == hist;
  }

  /** `sp` holds the counters of the history `h`. */
  ghost predicate Tracks(sp: map<Section, Count>, h: seq<Attempt>)
  {
    Counters(sp) && forall s :: sp[s] == Stat(h, s)
  }

  lemma TracksEmpty(sp: map<Section, Count>, hist: seq<Attempt>)
    requires sp == map s | s in All :: Count(0, 0)
    ensures Tracks(sp, hist[..0])
  {
    AllDistinct();
    assert hist[..0] == [];
  }

  /** The loop body: the row bumps the counter of the section it names, if any, and no
      other. */
  function Bump(sp: map<Section, Count>, a: Attempt): (r: map<Section, Count>)
    requires Counters(sp)
    ensures Counters(r)
    ensures forall s :: r[s] == (if a.section == Name(s)
      then Count(sp[s].c + (if a.correct then 1 else 0), sp[s].t + 1) else sp[s])
  {
    var name := Parse(a.section);
    if name.Some? then
      var x := sp[name.value];
      var r := sp[name.value := Count(x.c + (if a.correct then 1 else 0), x.t + 1)];
      assert forall s :: s != name.value ==> a.section != Name(s) by {
        forall s | s != name.value ensures a.section != Name(s) {
          NameInjective(name.value, s);
        }
      }
      r
    else sp
  }

  /** Bumping by one more row keeps the counters equal to the history's. */
  lemma TracksStep(sp: map<Section, Count>, hist: seq<Attempt>, i: nat)
    requires i < |hist| && Tracks(sp, hist[..i])
    ensures Tracks(Bump(sp, hist[i]), hist[..i + 1])
  {
    var h, a := hist[..i], hist[i];
    assert hist[..i + 1] == h + [a];
    var r := Bump(sp, a);
    forall s ensures r[s] == Stat(h + [a], s) {
      StatSnoc(h, a, s);
    }
  }

  lemma StatSnoc(h: seq<Attempt>, a: Attempt, s: Section)
    ensures Stat(h + [a], s) ==
      if a.section == Name(s) then Count(Stat(h, s).c + (if a.correct then 1 else 0), Stat(h, s).t + 1)
      else Stat(h, s)
  {
    assert (h + [a])[..|h|] == h;
  }

  /** Rounded percentage of correct rows in a window, 0 for an empty one. */
  function WindowAcc(w: seq<Attempt>): (r: nat)
    ensures r <= 100
  {
    Pct(CorrectTotal(w), |w|)
  }

  /** The 50 newest rows and the 50 before them. */
  function Recent(hist: seq<Attempt>): seq<Attempt>
  {
    hist[..Min(50, |hist|)]
  }

  function Prior(hist: seq<Attempt>): seq<Attempt>
  {
    hist[Min(50, |hist|)..Min(100, |hist|)]
  }

  /** Recent accuracy minus prior accuracy, in points, when both windows have rows. */
  function Trend(hist: seq<Attempt>): (r: int)
    ensures -100 <= r <= 100
    ensures |hist| <= 50 ==> r == 0
    ensures |hist| > 50 ==> r == WindowAcc(hist[..50]) - WindowAcc(hist[50..Min(100, |hist|)])
  {
    var recent, prior := Recent(hist), Prior(hist);
    if |recent| > 0 && |prior| > 0 then WindowAcc(recent) - WindowAcc(prior) else 0
  }

  /** `sp` once filled: a counter for every section, none claiming more correct rows
      than rows. */
  predicate Counters(sp: map<Section, Count>)
  {
    forall s :: s in sp && sp[s].c <= sp[s].t
  }

  /** One entry of `sectionAccuracies`. */
  datatype SecAcc = SecAcc(section: Section, pct: nat, total: nat)

  /** The entry for section `s`, when it has rows. */
  function AccOf(sp: map<Section, Count>, s: Section): (x: SecAcc)
    requires Counters(sp) && sp[s].t > 0
    ensures x.section == s && x.total == sp[s].t && x.pct <= 100
  {
    SecAcc(s, RoundPct(sp[s].c, sp[s].t), sp[s].t)
  }

  /** The sections of `ss` with at least one row, each with its rounded accuracy. */
  function AccsOf(sp: map<Section, Count>, ss: seq<Section>): (r: seq<SecAcc>)
    requires Counters(sp)
    ensures forall x :: x in r ==> x.section in ss && sp[x.section].t > 0 && x == AccOf(sp, x.section)
    ensures forall s :: s in ss && sp[s].t > 0 ==> AccOf(sp, s) in r
  {
    if ss == [] then []
    else
      var rest := AccsOf(sp, ss[1..]);
      if sp[ss[0]].t > 0 then [AccOf(sp, ss[0])] + rest else rest
  }

  /** Entries listed in SECTIONS order, each section at most once. */
  predicate InOrder(r: seq<SecAcc>)
  {
    forall i, j :: 0 <= i < j < |r| ==> Index(r[i].section) < Index(r[j].section)
  }

  /** `sectionAccuracies`, in SECTIONS order; a section without rows is left out. */
  function Accs(sp: map<Section, Count>): (r: seq<SecAcc>)
    requires Counters(sp)
    ensures forall x :: x in r ==> sp[x.section].t > 0 && x == AccOf(sp, x.section)
    ensures forall s :: sp[s].t > 0 <==> exists x :: x in r && x.section == s
    ensures forall s :: sp[s].t > 0 ==> AccOf(sp, s) in r
    ensures InOrder(r)
  {
    AccsOrdered(sp, All, 0);
    AllDistinct();
    AccsOf(sp, All)
  }

  /** The entries drawn from `All[k..]` are of sections from position `k` on. */
  lemma AccsAfter(sp: map<Section, Count>, k: nat)
    requires Counters(sp) && k <= |All|
    ensures forall x :: x in AccsOf(sp, All[k..]) ==> k <= Index(x.section)
  {
    forall x | x in AccsOf(sp, All[k..])
      ensures k <= Index(x.section)
    {
      var m :| 0 <= m < |All[k..]| && All[k..][m] == x.section;
      assert All[k + m] == x.section;
      IndexAll();
    }
  }

  /** The entries drawn from `All[k..]` come in SECTIONS order. */
  lemma {:induction false} AccsOrdered(sp: map<Section, Count>, ss: seq<Section>, k: nat)
    requires Counters(sp) && k <= |All| && ss == All[k..]
    ensures InOrder(AccsOf(sp, ss))
    decreases |All| - k
  {
    if k < |All| {
      assert ss[1..] == All[k + 1..];
      AccsOrdered(sp, ss[1..], k + 1);
      if sp[ss[0]].t > 0 {
        AccsAfter(sp, k + 1);
        assert Index(ss[0]) == k by {
          assert ss[0] == All[k];
          IndexAll();
        }
        ConsInOrder(AccOf(sp, ss[0]), AccsOf(sp, ss[1..]));
      }
    }
  }

  lemma ConsInOrder(x: SecAcc, rest: seq<SecAcc>)
    requires InOrder(rest) && forall y :: y in rest ==> Index(x.section) < Index(y.section)
    ensures InOrder([x] + rest)
  {
    var r := [x] + rest;
    forall i, j | 0 <= i < j < |r|
      ensures Index(r[i].section) < Index(r[j].section)
    {
      assert r[j] == rest[j - 1] && rest[j - 1] in rest;
      if i > 0 {
        assert r[i] == rest[i - 1];
      }
    }
  }

  /** `reduce((a, b) => (a.pct >= b.pct ? a : b))`: the position of the first maximum. */
  function StrongestAt(xs: seq<SecAcc>): (i: nat)
    requires |xs| > 0
    ensures i < |xs|
    ensures forall j :: 0 <= j < |xs| ==> xs[j].pct <= xs[i].pct
    ensures forall j :: 0 <= j < i ==> xs[j].pct < xs[i].pct
  {
    if |xs| == 1 then 0
    else
      var i := StrongestAt(xs[..|xs| - 1]);
      if xs[i].pct >= xs[|xs| - 1].pct then i else |xs| - 1
  }

  /** `reduce((a, b) => (a.pct <= b.pct ? a : b))`: the position of the first minimum. */
  function WeakestAt(xs: seq<SecAcc>): (i: nat)
    requires |xs| > 0
    ensures i < |xs|
    ensures forall j :: 0 <= j < |xs| ==> xs[i].pct <= xs[j].pct
    ensures forall j :: 0 <= j < i ==> xs[i].pct < xs[j].pct
  {
    if |xs| == 1 then 0
    else
      var i := WeakestAt(xs[..|xs| - 1]);
      if xs[i].pct <= xs[|xs| - 1].pct then i else |xs| - 1
  }

  /** `strongest`, null when no section has rows. */
  function Strongest(sp: map<Section, Count>): (r: Option<SecAcc>)
    requires Counters(sp)
    ensures r.None? <==> forall s :: sp[s].t == 0
  {
    var xs := Accs(sp);
    if xs == [] then None
    else
      var i := StrongestAt(xs);
      assert AccOf(sp, xs[i].section) in xs;
      Some(xs[i])
  }

  /** `weakest`, null when no section has rows. */
  function Weakest(sp: map<Section, Count>): (r: Option<SecAcc>)
    requires Counters(sp)
    ensures r.None? <==> forall s :: sp[s].t == 0
  {
    var xs := Accs(sp);
    if xs == [] then None
    else
      var i := WeakestAt(xs);
      assert AccOf(sp, xs[i].section) in xs;
      Some(xs[i])
  }

  /** The strongest/weakest cards appear only for two different sections. */
  predicate ShowCards(sp: map<Section, Count>)
    requires Counters(sp)
  {
    Strongest(sp).Some? && Weakest(sp).Some? && Strongest(sp).value.section != Weakest(sp).value.section
  }

  /** The strongest section has the highest accuracy of the sections with rows, and of
      those with that accuracy it comes first in SECTIONS; the weakest likewise with the
      lowest. */
  lemma StrongestWeakest(sp: map<Section, Count>, s: Section)
    requires Counters(sp) && sp[s].t > 0
    ensures Strongest(sp).Some? && Weakest(sp).Some?
    ensures var st, wk, p := Strongest(sp).value, Weakest(sp).value, AccOf(sp, s).pct;
      wk.pct <= p <= st.pct &&
      (p == st.pct ==> Index(st.section) <= Index(s)) &&
      (p == wk.pct ==> Index(wk.section) <= Index(s))
  {
    var xs := Accs(sp);
    assert AccOf(sp, s) in xs;
    var k :| 0 <= k < |xs| && xs[k] == AccOf(sp, s);
    var i, j := StrongestAt(xs), WeakestAt(xs);
    if xs[k].pct == xs[i].pct {
      InOrderIndex(xs, i, k);
    }
    if xs[k].pct == xs[j].pct {
      InOrderIndex(xs, j, k);
    }
  }

  lemma InOrderIndex(xs: seq<SecAcc>, a: nat, b: nat)
    requires InOrder(xs) && a <= b < |xs|
    ensures Index(xs[a].section) <= Index(xs[b].section)
    ensures a < b ==> xs[a].section != xs[b].section
  {
    if a < b {
      assert Index(xs[a].section) < Index(xs[b].section);
    }
  }

  /** The cards appear exactly when two sections with rows differ in accuracy. */
  lemma ShowCardsExactly(sp: map<Section, Count>)
    requires Counters(sp)
    ensures ShowCards(sp) <==>
      exists s, s' :: sp[s].t > 0 && sp[s'].t > 0 && AccOf(sp, s).pct != AccOf(sp, s').pct
  {
    if ShowCards(sp) {
      ShowCardsWitness(sp);
    }
    if s, s' :| sp[s].t > 0 && sp[s'].t > 0 && AccOf(sp, s).pct != AccOf(sp, s').pct {
      ShowCardsFrom(sp, s, s');
    }
  }

  lemma ShowCardsWitness(sp: map<Section, Count>)
    requires Counters(sp) && ShowCards(sp)
    ensures exists s, s' :: sp[s].t > 0 && sp[s'].t > 0 && AccOf(sp, s).pct != AccOf(sp, s').pct
  {
    var xs := Accs(sp);
    var i, j := StrongestAt(xs), WeakestAt(xs);
    assert Strongest(sp).value == xs[i] && Weakest(sp).value == xs[j];
    ExtremesAt(xs);
    assert xs[i] in xs && xs[j] in xs;
    var s, s' := xs[i].section, xs[j].section;
    assert sp[s].t > 0 && sp[s'].t > 0 && AccOf(sp, s).pct != AccOf(sp, s').pct;
  }

  lemma ShowCardsFrom(sp: map<Section, Count>, s: Section, s': Section)
    requires Counters(sp) && sp[s].t > 0 && sp[s'].t > 0 && AccOf(sp, s).pct != AccOf(sp, s').pct
    ensures ShowCards(sp)
  {
    var xs := Accs(sp);
    assert AccOf(sp, s) in xs && AccOf(sp, s') in xs;
    var i, j := StrongestAt(xs), WeakestAt(xs);
    assert Strongest(sp) == Some(xs[i]) && Weakest(sp) == Some(xs[j]);
    assert xs[i].pct > xs[j].pct;
    InOrderIndex(xs, Min(i, j), Max(i, j));
  }

  /** When the highest and lowest accuracy coincide, the first maximum and the first
      minimum are both the first entry. */
  lemma ExtremesAt(xs: seq<SecAcc>)
    requires |xs| > 0
    ensures xs[StrongestAt(xs)].pct == xs[WeakestAt(xs)].pct ==> StrongestAt(xs) == 0 && WeakestAt(xs) == 0
  {
    var i, j := StrongestAt(xs), WeakestAt(xs);
    if xs[i].pct == xs[j].pct {
      assert xs[j].pct <= xs[0].pct <= xs[i].pct;
    }
  }

  /** Questions per section in the real test (TEST_WEIGHTS). */
  function Weight(s: Section): (w: nat)
    ensures w > 0
  {
    match s
    case Inference => 5
    case Deduction => 5
    case Assumptions => 12
    case Interpretation => 6
    case Arguments => 12
  }

  function WeightSum(ss: seq<Section>): nat
  {
    if ss == [] then 0 else Weight(ss[0]) + WeightSum(ss[1..])
  }

  /** TEST_WEIGHTS adds up to the 40 questions of a test. */
  lemma WeightsTotal()
    ensures WeightSum(All) == 40
  {
  }

  /** Attempts per section needed for the Logic Profile (PROFILE_REQ). */
  const ProfileReq: nat := 20

  predicate Unlocked(sp: map<Section, Count>)
    requires Counters(sp)
  {
    forall s :: sp[s].t >= ProfileReq
  }

  /** `p.t > 0 ? p.c / p.t : 0`, kept exact. */
  function Accuracy(x: Count): (a: real)
    requires x.c <= x.t
    ensures 0.0 <= a <= 1.0
  {
    if x.t > 0 then
      assert (x.c as real / x.t as real) * (x.t as real) == x.c as real;
      x.c as real / x.t as real
    else 0.0
  }

  /** `(1 - accuracy) * testWeight`, the share of the test still to be won. */
  function Priority(x: Count, w: nat): (p: real)
    requires x.c <= x.t
    ensures 0.0 <= p <= (w as real) / 40.0
  {
    var a := Accuracy(x);
    MulNonneg(1.0 - a, w as real);
    MulNonneg(a, w as real);
    assert (1.0 - a) * (w as real) == w as real - a * (w as real);
    (1.0 - a) * (w as real) / 40.0
  }

  /** One ranking row. */
  datatype Ranked = Ranked(section: Section, accuracy: nat, testQuestions: nat, priority: real)

  function Item(sp: map<Section, Count>, s: Section): (r: Ranked)
    requires Counters(sp)
    ensures r.section == s && r.testQuestions == Weight(s) && r.priority == Priority(sp[s], Weight(s))
    ensures r.accuracy <= 100
  {
    var x := sp[s];
    Ranked(s, if x.t > 0 then RoundPct(x.c, x.t) else 0, Weight(s), Priority(x, Weight(s)))
  }

  /** The rows before sorting, in the order of `ss`. */
  function Items(sp: map<Section, Count>, ss: seq<Section>): (r: seq<Ranked>)
    requires Counters(sp)
    ensures |r| == |ss| && forall i :: 0 <= i < |ss| ==> r[i] == Item(sp, ss[i])
  {
    if ss == [] then [] else [Item(sp, ss[0])] + Items(sp, ss[1..])
  }

  /** `a` sorts before `b`: higher priority, or equal priority and earlier in SECTIONS
      (the stable sort keeps the input order of ties). */
  predicate Before(a: Ranked, b: Ranked)
  {
    a.priority > b.priority || (a.priority == b.priority && Index(a.section) < Index(b.section))
  }

  predicate Ranks(xs: seq<Ranked>)
  {
    forall i, j :: 0 <= i < j < |xs| ==> Before(xs[i], xs[j])
  }

  lemma ConsRanks(y: Ranked, rest: seq<Ranked>)
    requires Ranks(rest) && forall z :: z in rest ==> Before(y, z)
    ensures Ranks([y] + rest)
  {
    var r := [y] + rest;
    forall i, j | 0 <= i < j < |r| ensures Before(r[i], r[j]) {
      assert r[j] == rest[j - 1];
      if i > 0 {
        assert r[i] == rest[i - 1];
      }
    }
  }

  /** Stable insertion of `x` behind every row whose priority is at least its own. */
  function Insert(x: Ranked, ys: seq<Ranked>): (r: seq<Ranked>)
    requires Ranks(ys) && forall y :: y in ys ==> Index(y.section) < Index(x.section)
    ensures Ranks(r) && multiset(r) == multiset(ys) + multiset{x}
  {
    if ys == [] then [x]
    else if ys[0].priority >= x.priority then
      TailRanks(x, ys);
      var rest := Insert(x, ys[1..]);
      InsertedAfterHead(x, ys, rest);
      ConsRanks(ys[0], rest);
      assert multiset([ys[0]] + rest) == multiset(ys) + multiset{x} by {
        assert ys == [ys[0]] + ys[1..];
      }
      [ys[0]] + rest
    else
      HeadFirst(x, ys);
      ConsRanks(x, ys);
      [x] + ys
  }

  lemma TailRanks(x: Ranked, ys: seq<Ranked>)
    requires Ranks(ys) && ys != [] && forall y :: y in ys ==> Index(y.section) < Index(x.section)
    ensures Ranks(ys[1..]) && forall y :: y in ys[1..] ==> Index(y.section) < Index(x.section)
  {
    var t := ys[1..];
    forall i, j | 0 <= i < j < |t| ensures Before(t[i], t[j]) {
      assert t[i] == ys[i + 1] && t[j] == ys[j + 1];
    }
  }

  lemma InsertedAfterHead(x: Ranked, ys: seq<Ranked>, rest: seq<Ranked>)
    requires Ranks(ys) && ys != [] && forall y :: y in ys ==> Index(y.section) < Index(x.section)
    requires ys[0].priority >= x.priority && multiset(rest) == multiset(ys[1..]) + multiset{x}
    ensures forall z :: z in rest ==> Before(ys[0], z)
  {
    forall z | z in rest ensures Before(ys[0], z) {
      assert z in multiset(rest);
      if z != x {
        assert z in multiset(ys[1..]);
        var k :| 0 <= k < |ys[1..]| && ys[1..][k] == z;
        assert ys[k + 1] == z;
      }
    }
  }

  lemma HeadFirst(x: Ranked, ys: seq<Ranked>)
    requires Ranks(ys) && ys != [] && Before(x, ys[0])
    ensures forall z :: z in ys ==> Before(x, z)
  {
    forall z | z in ys ensures Before(x, z) {
      var k :| 0 <= k < |ys| && ys[k] == z;
      assert k == 0 || Before(ys[0], ys[k]);
    }
  }

  /** `.sort((a, b) => b.priority - a.priority)` on rows listed in SECTIONS order. */
  function Sort(xs: seq<Ranked>): (r: seq<Ranked>)
    requires forall i, j :: 0 <= i < j < |xs| ==> Index(xs[i].section) < Index(xs[j].section)
    ensures Ranks(r) && multiset(r) == multiset(xs)
  {
    if xs == [] then []
    else
      var init, x := xs[..|xs| - 1], xs[|xs| - 1];
      assert xs == init + [x];
      var r := Sort(init);
      assert forall y :: y in r ==> Index(y.section) < Index(x.section) by {
        forall y | y in r ensures Index(y.section) < Index(x.section) {
          assert y in multiset(init);
          var k :| 0 <= k < |init| && init[k] == y;
        }
      }
      Insert(x, r)
  }

  /** `profileRanked`: empty while locked, otherwise the rows in priority order. */
  function Ranking(sp: map<Section, Count>): (r: seq<Ranked>)
    requires Counters(sp)
    ensures !Unlocked(sp) ==> r == []
    ensures Unlocked(sp) ==> Ranks(r) && multiset(r) == multiset(Items(sp, All))
  {
    if Unlocked(sp) then Sort(Items(sp, All)) else []
  }

  /** The unlocked ranking lists each of the five sections exactly once with its own row,
      in non-increasing priority, ties in SECTIONS order. */
  lemma RankingSections(sp: map<Section, Count>)
    requires Counters(sp) && Unlocked(sp)
    ensures var r := Ranking(sp);
      |r| == 5 &&
      (forall s :: Item(sp, s) in r) &&
      (forall i :: 0 <= i < |r| ==> r[i] == Item(sp, r[i].section)) &&
      (forall i, j :: 0 <= i < j < |r| ==> r[i].section != r[j].section && r[i].priority >= r[j].priority)
  {
    var r, xs := Ranking(sp), Items(sp, All);
    RankingHasAll(sp, r, xs);
    RankingRows(sp, r, xs);
    RanksDistinct(sp, r);
  }

  lemma RankingHasAll(sp: map<Section, Count>, r: seq<Ranked>, xs: seq<Ranked>)
    requires Counters(sp) && xs == Items(sp, All) && multiset(r) == multiset(xs)
    ensures |r| == 5 && forall s :: Item(sp, s) in r
  {
    assert |r| == |multiset(r)| == |multiset(xs)| == 5;
    forall s ensures Item(sp, s) in r {
      IndexAll();
      assert xs[Index(s)] == Item(sp, s);
      assert Item(sp, s) in multiset(r);
    }
  }

  lemma RankingRows(sp: map<Section, Count>, r: seq<Ranked>, xs: seq<Ranked>)
    requires Counters(sp) && xs == Items(sp, All) && multiset(r) == multiset(xs)
    ensures forall i :: 0 <= i < |r| ==> r[i] == Item(sp, r[i].section)
  {
    forall i | 0 <= i < |r| ensures r[i] == Item(sp, r[i].section) {
      assert r[i] in multiset(xs);
      var k :| 0 <= k < |xs| && xs[k] == r[i];
    }
  }

  lemma RanksDistinct(sp: map<Section, Count>, r: seq<Ranked>)
    requires Counters(sp) && Ranks(r) && forall i :: 0 <= i < |r| ==> r[i] == Item(sp, r[i].section)
    ensures forall i, j :: 0 <= i < j < |r| ==> r[i].section != r[j].section && r[i].priority >= r[j].priority
  {
    forall i, j | 0 <= i < j < |r| ensures r[i].section != r[j].section && r[i].priority >= r[j].priority {
      assert Before(r[i], r[j]);
    }
  }

  /** Lower accuracy on a section weighted no less never gives a lower priority. */
  lemma PriorityMonotone(x: Count, w: nat, y: Count, v: nat)
    requires x.c <= x.t && y.c <= y.t && w >= v
    requires Accuracy(x) <= Accuracy(y)
    ensures Priority(x, w) >= Priority(y, v)
  {
    var a, b := Accuracy(x), Accuracy(y);
    var p, q := (1.0 - a) * (w as real), (1.0 - b) * (v as real);
    MulNonneg(b - a, w as real);
    MulNonneg(1.0 - b, (w - v) as real);
    Spread(a, b, w as real, v as real);
    assert p >= q;
    assert Priority(x, w) == p / 40.0 && Priority(y, v) == q / 40.0;
  }

  lemma MulNonneg(p: real, q: real)
    requires p >= 0.0 && q >= 0.0
    ensures p * q >= 0.0
  {
  }

  lemma Spread(a: real, b: real, w: real, v: real)
    ensures (1.0 - a) * w - (1.0 - b) * v == (b - a) * w + (1.0 - b) * (w - v)
  {
  }

  /** Rank label: the top two are High Priority, the third Medium, the rest Low. */
  function RankLabel(rank: nat): (l: string)
    ensures l == "High Priority" <==> rank <= 2
    ensures l == "Medium" <==> rank == 3
    ensures l == "Low Priority" <==> rank > 3
  {
    if rank <= 2 then "High Priority" else if rank == 3 then "Medium" else "Low Priority"
  }

  /** Weight label: heavy from ten test questions, moderate from six, light below. */
  function WeightLabel(w: nat): (l: string)
    ensures l == "heavily weighted" <==> w >= 10
    ensures l == "moderately weighted" <==> 6 <= w < 10
    ensures l == "lightly weighted" <==> w < 6
  {
    if w >= 10 then "heavily weighted" else if w >= 6 then "moderately weighted" else "lightly weighted"
  }

  /** Accuracy label: Low below 50, Moderate below 75, High from 75. */
  function AccLabel(acc: nat): (l: string)
    ensures l == "Low" <==> acc < 50
    ensures l == "Moderate" <==> 50 <= acc < 75
    ensures l == "High" <==> acc >= 75
  {
    if acc < 50 then "Low" else if acc < 75 then "Moderate" else "High"
  }

  /** Of the five ranked rows, two are High Priority, one Medium and two Low; the weight
      labels put Assumptions and Arguments heavy, Interpretation moderate and Inference and
      Deduction light. */
  lemma Labels()
    ensures [RankLabel(1), RankLabel(2), RankLabel(3), RankLabel(4), RankLabel(5)] ==
      ["High Priority", "High Priority", "Medium", "Low Priority", "Low Priority"]
    ensures WeightLabel(Weight(Assumptions)) == WeightLabel(Weight(Arguments)) == "heavily weighted"
    ensures WeightLabel(Weight(Interpretation)) == "moderately weighted"
    ensures WeightLabel(Weight(Inference)) == WeightLabel(Weight(Deduction)) == "lightly weighted"
  {
  }
}
