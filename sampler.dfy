/** The passage-aware sampler of the quiz page (lines 61 and 95-118): for each requested
    section in turn it walks that section's passages in a random order and takes up to
    `maxPerPassage` unused questions from each until the section's quota is met. */
module Sampler {
  import opened Wrappers
  import opened Percent
  import opened Seqs
  import opened Passages
  import opened Quotas
  import opened Sections
  import opened Text

  /** The query of the quiz link as the page reads it (lines 30-32). */
  datatype QueryParams = QueryParams(mode: string, secs: seq<string>, limit: Option<int>)

  /** `searchParams.get(..) || default` for each parameter, `None` for an absent one:
      the mode falls back to practice, the sections to all of SECTIONS and the limit
      to ten. A limit that `parseInt` cannot read is `None` (`NaN`). */
  function ReadParams(mode: Option<string>, sections: Option<string>, limit: Option<string>): (p: QueryParams)
    ensures |p.secs| >= 1
    ensures mode.None? || mode == Some("") ==> p.mode == "practice"
    ensures mode.Some? && mode.value != "" ==> p.mode == mode.value
    ensures sections.None? || sections == Some("") ==> p.secs == Names(All)
    ensures sections.Some? && sections.value != "" ==> p.secs == Split(sections.value, ',')
    ensures limit.None? || limit == Some("") ==> p.limit == Some(10)
    ensures limit.Some? && limit.value != "" ==> p.limit == ParseInt(limit.value)
  {
    var secText := if sections.None? || sections.value == "" then Join(Names(All), ',') else sections.value;
    var limText := if limit.None? || limit.value == "" then "10" else limit.value;
    DefaultParams();
    QueryParams(if mode.None? || mode.value == "" then "practice" else mode.value,
      Split(secText, ','), ParseInt(limText))
  }

  /** The defaults read back as all of SECTIONS and a limit of 10. */
  lemma DefaultParams()
    ensures Split(Join(Names(All), ','), ',') == Names(All)
    ensures ParseInt("10") == Some(10)
  {
    forall i | 0 <= i < |All| ensures ',' !in Names(All)[i] {
      NameNoComma(All[i]);
    }
    SplitJoin(Names(All), ',');
    ParseDec(10);
    assert Dec(10) == "10";
  }

  /** `maxPerPassage`: a number, or `Infinity`. */
  datatype Cap = AtMost(n: nat) | Unbounded

  /** Line 61: three per passage in a mock test, two in practice, no limit otherwise. */
  function MaxPerPassage(mode: string): Cap
  {
    if mode == "test" then AtMost(3) else if mode == "practice" then AtMost(2) else Unbounded
  }

  /** `Math.min(maxPerPassage, room)` as a slice length (a slice of negative length
      is empty). */
  function Room(cap: Cap, room: int): (r: nat)
    ensures r <= Max(0, room)
    ensures cap.AtMost? ==> r <= cap.n
  {
    match cap
    case AtMost(n) => Min(n, Max(0, room))
    case Unbounded => Max(0, room)
  }

  /** Whether a passage that has given `taken` questions was stopped short by the cap. */
  predicate Allows(cap: Cap, taken: nat)
  {
    cap.Unbounded? || taken < cap.n
  }

  predicate GroupsDistinctIds(gs: seq<Group>)
  {
    forall g :: g in gs ==> DistinctIds(g.qs)
  }

  /** How many questions of `s` sit under passage key `k`. */
  function KeyCount(s: seq<Question>, k: string): nat
  {
    |WithKey(s, k)|
  }

  /** `pqs.some((q) => q.section === sec)`. */
  predicate HasSection(qs: seq<Question>, sec: string)
  {
    exists q :: q in qs && q.section == sec
  }

  /** `[...byPassage.entries()].filter(...)`: the passages holding a question of `sec`. */
  function SecGroups(gs: seq<Group>, sec: string): (r: seq<Group>)
    ensures forall g :: g in r <==> g in gs && HasSection(g.qs, sec)
    ensures WellGrouped(gs) ==> WellGrouped(r)
  {
    if gs == [] then []
    else
      var rest := SecGroups(gs[1..], sec);
      assert forall g :: g in gs <==> g == gs[0] || g in gs[1..];
      assert WellGrouped(gs) ==> WellGrouped(gs[1..]);
      if HasSection(gs[0].qs, sec) then
        assert WellGrouped(gs) ==> forall m :: 0 <= m < |rest| ==> rest[m].key != gs[0].key by {
          if WellGrouped(gs) {
            forall m | 0 <= m < |rest| ensures rest[m].key != gs[0].key {
              assert rest[m] in gs[1..];
            }
          }
        }
        [gs[0]] + rest
      else rest
  }

  /** `pqs.filter((q) => q.section === sec && !usedIds.has(q.id))`. */
  function Avail(qs: seq<Question>, sec: string, used: set<int>): (r: seq<Question>)
    ensures forall q :: q in r <==> q in qs && q.section == sec && q.id !in used
    ensures DistinctIds(qs) ==> DistinctIds(r)
  {
    if qs == [] then []
    else
      var rest := Avail(qs[1..], sec, used);
      assert forall q :: q in qs <==> q == qs[0] || q in qs[1..];
      assert DistinctIds(qs) ==> DistinctIds(qs[1..]);
      if qs[0].section == sec && qs[0].id !in used then
        assert DistinctIds(qs) ==> forall m :: 0 <= m < |rest| ==> rest[m].id != qs[0].id by {
          if DistinctIds(qs) {
            forall m | 0 <= m < |rest| ensures rest[m].id != qs[0].id {
              assert rest[m] in qs[1..];
            }
          }
        }
        [qs[0]] + rest
      else rest
  }

  /** A reordering keeps ids distinct. */
  lemma {:induction false} ShuffleDistinctIds(s: seq<Question>, d: Draw)
    ensures DistinctIds(s) ==> DistinctIds(Shuffle(s, d))
    decreases |s|
  {
    if s != [] && DistinctIds(s) {
      var i := Pick(d, |s|);
      var rest := Rm(s, i);
      RmDistinctIds(s, i);
      ShuffleDistinctIds(rest, Rest(d));
      var tail := Shuffle(rest, Rest(d));
      forall x | x in tail ensures x.id != s[i].id {
        assert x in multiset(tail);
      }
      ConsDistinctIds(s[i], tail);
    }
  }

  lemma RmDistinctIds(s: seq<Question>, i: nat)
    requires DistinctIds(s) && i < |s|
    ensures DistinctIds(Rm(s, i))
    ensures forall x :: x in Rm(s, i) ==> x.id != s[i].id
  {
    var rest := Rm(s, i);
    assert rest == s[..i] + s[i + 1..];
    forall a, b | 0 <= a < b < |rest| ensures rest[a].id != rest[b].id {
      assert rest[a] == s[if a < i then a else a + 1] && rest[b] == s[if b < i then b else b + 1];
    }
    forall x | x in rest ensures x.id != s[i].id {
      var m :| 0 <= m < |rest| && rest[m] == x;
      assert rest[m] == s[if m < i then m else m + 1];
    }
  }

  lemma ConsDistinctIds(q: Question, tail: seq<Question>)
    requires DistinctIds(tail) && forall x :: x in tail ==> x.id != q.id
    ensures DistinctIds([q] + tail)
  {
    var out := [q] + tail;
    forall a, b | 0 <= a < b < |out| ensures out[a].id != out[b].id {
      assert out[b] == tail[b - 1] && out[b] in tail;
      if a > 0 {
        assert out[a] == tail[a - 1];
      }
    }
  }

  /** Lines 112-113 for one passage: the unused questions of `sec` under `g`, in the
      order of draw `d`, cut to `Math.min(maxPerPassage, need - count)`. */
  function TakeFrom(g: Group, sec: string, used: set<int>, cap: Cap, room: int, d: Draw): (take: seq<Question>)
    ensures |take| <= Room(cap, room)
    ensures forall q :: q in take ==> q in g.qs && q.section == sec && q.id !in used
    ensures DistinctIds(g.qs) ==> DistinctIds(take)
    ensures |take| < Room(cap, room) ==>
      forall q :: q in g.qs && q.section == sec ==> q.id in used || q in take
  {
    var avail := Avail(g.qs, sec, used);
    var secQs := Shuffle(avail, d);
    ShuffleDistinctIds(avail, d);
    ShuffleMembers(avail, d);
    var n := Min(Room(cap, room), |secQs|);
    PrefixMembers(secQs, n);
    secQs[..n]
  }

  /** Lines 104-117 for one section: `picks` are the questions it contributes, `used'`
      the ids taken so far, `k` the next unused draw. */
  method FillSection(byPassage: seq<Group>, sec: string, need: int, cap: Cap,
                     used: set<int>, rng: seq<Draw>, k0: nat)
    returns (picks: seq<Question>, used': set<int>, k: nat)
    requires WellGrouped(byPassage)
    ensures SectionPick(byPassage, sec, need, cap, picks)
    ensures forall q :: q in picks ==> q.id !in used
    ensures used' == used + Ids(picks)
    ensures GroupsDistinctIds(byPassage) ==> DistinctIds(picks)
    ensures Exhausted(byPassage, sec, need, cap, picks, used')
  {
    var secPassages := SecGroups(byPassage, sec);
    var sh := Shuffle(secPassages, NextDraw(rng, k0));
    ShuffleWellGrouped(secPassages, NextDraw(rng, k0));
    ShuffleMembers(secPassages, NextDraw(rng, k0));
    k := k0 + 1;
    picks, used' := [], used;
    var count, idx := 0, 0;
    while idx < |sh|
      invariant count == |picks|
      invariant Filling(byPassage, sh, idx, sec, need, cap, used, picks, used')
    {
      if count >= need {
        break;
      }
      var g := sh[idx];
      var take := TakeFrom(g, sec, used', cap, need - count, NextDraw(rng, k));
      k := k + 1;
      TakeStep(byPassage, sh, idx, sec, need, cap, used, picks, used', take);
      picks := picks + take;
      used' := used' + Ids(take);
      count := count + |take|;
      idx := idx + 1;
    }
    FillFinish(byPassage, sh, idx, sec, need, cap, used, picks, used');
  }

  /** The invariant of the passage loop after `idx` passages of `sh`. */
  ghost predicate Filling(byPassage: seq<Group>, sh: seq<Group>, idx: nat, sec: string, need: int, cap: Cap,
                          used: set<int>, picks: seq<Question>, used': set<int>)
  {
    idx <= |sh| &&
    SectionPick(byPassage, sec, need, cap, picks) &&
    used' == used + Ids(picks) &&
    (forall q :: q in picks ==> q.id !in used) &&
    (GroupsDistinctIds(byPassage) ==> DistinctIds(picks)) &&
    (forall j :: idx <= j < |sh| ==> KeyCount(picks, sh[j].key) == 0) &&
    (|picks| < need ==>
      forall j :: 0 <= j < idx && Allows(cap, KeyCount(picks, sh[j].key)) ==>
        forall q :: q in sh[j].qs && q.section == sec ==> q.id in used')
  }

  /** After the passage loop: a section still short of its quota has been through every
      passage holding one of its questions. */
  lemma FillFinish(byPassage: seq<Group>, sh: seq<Group>, idx: nat, sec: string, need: int, cap: Cap,
                   used: set<int>, picks: seq<Question>, used': set<int>)
    requires forall g :: g in sh <==> g in SecGroups(byPassage, sec)
    requires Filling(byPassage, sh, idx, sec, need, cap, used, picks, used')
    requires |picks| < need ==> idx == |sh|
    ensures Exhausted(byPassage, sec, need, cap, picks, used')
  {
    if |picks| < need {
      forall j | 0 <= j < |byPassage| && Allows(cap, KeyCount(picks, byPassage[j].key))
        ensures forall q :: q in byPassage[j].qs && q.section == sec ==> q.id in used'
      {
        if HasSection(byPassage[j].qs, sec) {
          assert byPassage[j] in sh;
          var m :| 0 <= m < |sh| && sh[m] == byPassage[j];
        }
      }
    }
  }

  lemma ShuffleMembers<T>(xs: seq<T>, d: Draw)
    ensures forall x :: x in Shuffle(xs, d) <==> x in xs
  {
    forall x ensures x in Shuffle(xs, d) <==> x in xs {
      assert x in Shuffle(xs, d) <==> x in multiset(Shuffle(xs, d));
    }
  }

  lemma PrefixMembers<T>(s: seq<T>, n: nat)
    requires n <= |s|
    ensures forall x :: x in s[..n] ==> x in s
    ensures n == |s| ==> s[..n] == s
  {
  }

  lemma IdsAppend(a: seq<Question>, b: seq<Question>)
    ensures Ids(a + b) == Ids(a) + Ids(b)
  {
    assert forall q :: q in a + b <==> q in a || q in b;
  }

  /** One pass of the passage loop keeps every invariant of `FillSection`. */
  lemma TakeStep(byPassage: seq<Group>, sh: seq<Group>, idx: nat, sec: string, need: int, cap: Cap,
                 used: set<int>, picks: seq<Question>, used': set<int>, take: seq<Question>)
    requires WellGrouped(sh) && idx < |sh| && forall g :: g in sh ==> g in byPassage
    requires |picks| < need
    requires Filling(byPassage, sh, idx, sec, need, cap, used, picks, used')
    requires |take| <= Room(cap, need - |picks|)
    requires forall q :: q in take ==> q in sh[idx].qs && q.section == sec && q.id !in used'
    requires DistinctIds(sh[idx].qs) ==> DistinctIds(take)
    requires |take| < Room(cap, need - |picks|) ==>
      forall q :: q in sh[idx].qs && q.section == sec ==> q.id in used' || q in take
    ensures Filling(byPassage, sh, idx + 1, sec, need, cap, used, picks + take, used' + Ids(take))
  {
    var g := sh[idx];
    IdsAppend(picks, take);
    forall q | q in take ensures q in Flat(byPassage) {
      FlatHas(byPassage, g, q);
    }
    assert forall q :: q in picks + take <==> q in picks || q in take;
    if GroupsDistinctIds(byPassage) {
      assert g in byPassage;
      AppendDistinctIds(picks, take);
    }
    StepKeyCounts(sh, idx, cap, need, picks, take);
    StepFill(sh, idx, sec, need, cap, picks, used', take);
  }

  lemma AppendDistinctIds(a: seq<Question>, b: seq<Question>)
    requires DistinctIds(a) && DistinctIds(b)
    requires forall q :: q in b ==> q.id !in Ids(a)
    ensures DistinctIds(a + b)
  {
    var s := a + b;
    forall i, j | 0 <= i < j < |s| ensures s[i].id != s[j].id {
      if i < |a| && j >= |a| {
        assert s[j] == b[j - |a|] && s[i] in a;
      } else if i >= |a| {
        assert s[i] == b[i - |a|] && s[j] == b[j - |a|];
      }
    }
  }

  /** Questions taken from one passage add to that passage's count only. */
  lemma KeyCountsAfter(picks: seq<Question>, take: seq<Question>, key: string)
    requires forall q :: q in take ==> Key(q) == key
    ensures forall kk :: KeyCount(picks + take, kk) == KeyCount(picks, kk) + (if kk == key then |take| else 0)
  {
    forall kk ensures KeyCount(picks + take, kk) == KeyCount(picks, kk) + (if kk == key then |take| else 0) {
      WithKeyAppend(picks, take, kk);
      WithKeyUniform(take, key, kk);
    }
  }

  lemma StepKeyCounts(sh: seq<Group>, idx: nat, cap: Cap, need: int, picks: seq<Question>, take: seq<Question>)
    requires WellGrouped(sh) && idx < |sh|
    requires forall kk :: KeyCount(picks, kk) <= Room(cap, need)
    requires forall j :: idx <= j < |sh| ==> KeyCount(picks, sh[j].key) == 0
    requires |picks| < need && |take| <= Room(cap, need - |picks|)
    requires forall q :: q in take ==> q in sh[idx].qs
    ensures forall kk :: KeyCount(picks + take, kk) <= Room(cap, need)
    ensures forall j :: idx + 1 <= j < |sh| ==> KeyCount(picks + take, sh[j].key) == 0
  {
    KeyCountsAfter(picks, take, sh[idx].key);
  }

  lemma StepFill(sh: seq<Group>, idx: nat, sec: string, need: int, cap: Cap,
                 picks: seq<Question>, used': set<int>, take: seq<Question>)
    requires WellGrouped(sh) && idx < |sh|
    requires forall j :: idx <= j < |sh| ==> KeyCount(picks, sh[j].key) == 0
    requires |picks| < need ==>
      forall j :: 0 <= j < idx && Allows(cap, KeyCount(picks, sh[j].key)) ==>
        forall q :: q in sh[j].qs && q.section == sec ==> q.id in used'
    requires |take| <= Room(cap, need - |picks|)
    requires forall q :: q in take ==> q in sh[idx].qs
    requires |take| < Room(cap, need - |picks|) ==>
      forall q :: q in sh[idx].qs && q.section == sec ==> q.id in used' || q in take
    ensures |picks + take| < need ==>
      forall j :: 0 <= j < idx + 1 && Allows(cap, KeyCount(picks + take, sh[j].key)) ==>
        forall q :: q in sh[j].qs && q.section == sec ==> q.id in used' + Ids(take)
  {
    KeyCountsAfter(picks, take, sh[idx].key);
    if |picks + take| < need {
      forall j, q | 0 <= j < idx + 1 && Allows(cap, KeyCount(picks + take, sh[j].key)) && q in sh[j].qs && q.section == sec
        ensures q.id in used' + Ids(take)
      {
        if j == idx {
          assert |take| < Room(cap, need - |picks|);
        } else {
          assert KeyCount(picks + take, sh[j].key) == KeyCount(picks, sh[j].key);
        }
      }
    }
  }

  lemma FlatHas(gs: seq<Group>, g: Group, q: Question)
    requires g in gs && q in g.qs
    ensures q in Flat(gs)
  {
    if gs[0] != g {
      FlatHas(gs[1..], g, q);
    }
  }

  /** What one section may contribute: questions of that section from the pool, no more
      than its quota, and no more than the cap from any one passage. */
  ghost predicate SectionPick(byPassage: seq<Group>, sec: string, need: int, cap: Cap, picks: seq<Question>)
  {
    (forall q :: q in picks ==> q.section == sec && q in Flat(byPassage)) &&
    |picks| <= Max(0, need) &&
    (forall kk :: KeyCount(picks, kk) <= Room(cap, need))
  }

  /** A section that fell short of its quota took every question of that section it
      could: in each passage that the cap did not stop, every such question is in `ids`
      (taken now or by an earlier section). */
  ghost predicate Exhausted(byPassage: seq<Group>, sec: string, need: int, cap: Cap, picks: seq<Question>, ids: set<int>)
  {
    |picks| < need ==>
      forall j :: 0 <= j < |byPassage| && Allows(cap, KeyCount(picks, byPassage[j].key)) ==>
        forall q :: q in byPassage[j].qs && q.section == sec ==> q.id in ids
  }

  /** Lines 104-118: every requested section in order; `parts[i]` is what section
      `secs[i]` contributed and `result` is all of them, one after another. */
  method Select(secs: seq<string>, quotas: Quotas, cap: Cap, byPassage: seq<Group>, rng: seq<Draw>, k0: nat)
    returns (result: seq<Question>, parts: seq<seq<Question>>, k: nat)
    requires WellGrouped(byPassage)
    ensures |parts| == |secs| && result == Flatten(parts)
    ensures forall i :: 0 <= i < |secs| ==> SectionPick(byPassage, secs[i], Need(quotas, secs[i]), cap, parts[i])
    ensures forall i :: 0 <= i < |secs| ==>
      Exhausted(byPassage, secs[i], Need(quotas, secs[i]), cap, parts[i], Ids(Flatten(parts[..i + 1])))
    ensures GroupsDistinctIds(byPassage) ==> DistinctIds(result)
  {
    result, parts, k := [], [], k0;
    var used: set<int> := {};
    var i := 0;
    while i < |secs|
      invariant 0 <= i <= |secs| && |parts| == i
      invariant result == Flatten(parts) && used == Ids(result)
      invariant forall i' :: 0 <= i' < i ==> SectionPick(byPassage, secs[i'], Need(quotas, secs[i']), cap, parts[i'])
      invariant forall i' :: 0 <= i' < i ==>
        Exhausted(byPassage, secs[i'], Need(quotas, secs[i']), cap, parts[i'], Ids(Flatten(parts[..i' + 1])))
      invariant GroupsDistinctIds(byPassage) ==> DistinctIds(result)
    {
      var sec := secs[i];
      var picks, used', k' := FillSection(byPassage, sec, Need(quotas, sec), cap, used, rng, k);
      FlattenSnoc(parts, picks);
      IdsAppend(result, picks);
      if GroupsDistinctIds(byPassage) {
        AppendDistinctIds(result, picks);
      }
      ghost var was := parts;
      parts := parts + [picks];
      forall i' | 0 <= i' < i + 1
        ensures Exhausted(byPassage, secs[i'], Need(quotas, secs[i']), cap, parts[i'], Ids(Flatten(parts[..i' + 1])))
      {
        if i' < i {
          assert parts[..i' + 1] == was[..i' + 1];
        } else {
          assert parts[..i' + 1] == parts;
        }
      }
      result := result + picks;
      used, k := used', k';
      i := i + 1;
    }
  }

  lemma FlattenSnoc<T>(ss: seq<seq<T>>, s: seq<T>)
    ensures Flatten(ss + [s]) == Flatten(ss) + s
  {
    FlattenAppend(ss, [s]);
    assert Flatten([s]) == s + Flatten([s][1..]);
    assert [s][1..] == [];
  }

  /** Lines 120-127: the taken questions regrouped by passage. `grp`, which the session
      walks, keeps the groups in first-appearance order; `qs` lists the groups in the
      order of draw `d`. */
  method Arrange(result: seq<Question>, d: Draw) returns (qs: seq<Question>, grp: seq<Group>)
    ensures grp == Grouped(result) && WellGrouped(grp) && NonEmptyGroups(grp)
    ensures multiset(Flat(grp)) == multiset(result) && multiset(qs) == multiset(result)
    ensures Contiguous(Flat(grp)) && Contiguous(qs)
    ensures qs == Flat(Shuffle(grp, d))
  {
    grp := GroupBy(result);
    GroupedShape(result);
    GroupedPermutation(result);
    ShuffleFlat(grp, d);
    ShuffleWellGrouped(grp, d);
    FlatContiguous(grp);
    FlatContiguous(Shuffle(grp, d));
    qs := Flat(Shuffle(grp, d));
  }

  /** What the page holds once loading succeeds. */
  datatype Quiz = Quiz(qs: seq<Question>, grp: seq<Group>)

  /** Lines 55-127 from the parsed parameters and the fetched rows: `None` is the error
      state for an empty fetch (line 89). `rng` supplies the draws of the four shuffles.
      `parts[i]` is what section `secs[i]` contributed to the quiz. */
  method BuildQuiz(mode: string, secs: seq<string>, total: int, comp: Comp, data: seq<Question>, rng: seq<Draw>)
    returns (r: Option<Quiz>, quotas: Quotas, ghost parts: seq<seq<Question>>)
    requires |secs| > 0
    ensures CompQuotas(comp) != map[] ==> quotas == CompQuotas(comp)
    ensures CompQuotas(comp) == map[] ==> quotas == EvenSplit(secs, total)
    ensures r.None? <==> data == []
    ensures r.Some? ==> forall q :: q in r.value.qs ==> q in data && q.section in secs
    ensures r.Some? && DistinctIds(data) ==> DistinctIds(r.value.qs)
    ensures r.Some? ==> multiset(r.value.qs) == multiset(Flat(r.value.grp))
    ensures r.Some? ==> Contiguous(r.value.qs) && Contiguous(Flat(r.value.grp))
    ensures r.Some? ==> WellGrouped(r.value.grp) && NonEmptyGroups(r.value.grp)
    ensures r.Some? ==> |parts| == |secs| && multiset(r.value.qs) == multiset(Flatten(parts))
    ensures r.Some? ==> forall i :: 0 <= i < |secs| ==>
      SectionPick(Grouped(Shuffle(data, NextDraw(rng, 0))), secs[i], Need(quotas, secs[i]), MaxPerPassage(mode), parts[i])
    ensures r.Some? ==> forall i :: 0 <= i < |secs| ==>
      Exhausted(Grouped(Shuffle(data, NextDraw(rng, 0))), secs[i], Need(quotas, secs[i]), MaxPerPassage(mode),
                parts[i], Ids(Flatten(parts[..i + 1])))
  {
    quotas := PlanQuotas(secs, total, comp);
    if data == [] {
      return None, quotas, [];
    }
    var pool := Shuffle(data, NextDraw(rng, 0));
    var byPassage := GroupBy(pool);
    GroupedShape(pool);
    GroupedPermutation(pool);
    ShuffleDistinctIds(data, NextDraw(rng, 0));
    ShuffleMembers(data, NextDraw(rng, 0));
    assert forall q :: q in Flat(byPassage) ==> q in data by {
      forall q | q in Flat(byPassage) ensures q in data {
        assert q in multiset(Flat(byPassage));
      }
    }
    if DistinctIds(data) {
      GroupedDistinctIds(pool);
    }
    var result, k;
    result, parts, k := Select(secs, quotas, MaxPerPassage(mode), byPassage, rng, 1);
    var qs, grp := Arrange(result, NextDraw(rng, k));
    SelectedFromData(data, byPassage, secs, quotas, MaxPerPassage(mode), parts, qs);
    if DistinctIds(data) {
      PermutationDistinctIds(result, qs);
    }
    r := Some(Quiz(qs, grp));
  }

  /** A rearrangement of what the sections picked holds only pool questions of the
      requested sections. */
  lemma SelectedFromData(data: seq<Question>, byPassage: seq<Group>, secs: seq<string>, quotas: Quotas, cap: Cap,
                         parts: seq<seq<Question>>, qs: seq<Question>)
    requires forall q :: q in Flat(byPassage) ==> q in data
    requires |parts| == |secs|
    requires forall i :: 0 <= i < |secs| ==> SectionPick(byPassage, secs[i], Need(quotas, secs[i]), cap, parts[i])
    requires multiset(qs) == multiset(Flatten(parts))
    ensures forall q :: q in qs ==> q in data && q.section in secs
  {
    forall q | q in qs ensures q in data && q.section in secs {
      assert q in multiset(Flatten(parts));
      FlattenMember(parts, q);
      var i :| 0 <= i < |parts| && q in parts[i];
    }
  }

  /** Any rearrangement keeps ids distinct. */
  lemma PermutationDistinctIds(s: seq<Question>, t: seq<Question>)
    requires DistinctIds(s) && multiset(t) == multiset(s)
    ensures DistinctIds(t)
  {
    var d := ShuffleReaches(s, t);
    ShuffleDistinctIds(s, d);
  }

  lemma {:induction false} WithKeyDistinctIds(s: seq<Question>, k: string)
    requires DistinctIds(s)
    ensures DistinctIds(WithKey(s, k))
    decreases |s|
  {
    if s != [] {
      var init, last := s[..|s| - 1], s[|s| - 1];
      assert s == init + [last];
      assert DistinctIds(init);
      WithKeyDistinctIds(init, k);
      var w := WithKey(init, k);
      if Key(last) == k {
        forall m | 0 <= m < |w| ensures w[m].id != last.id {
          assert w[m] in init;
        }
        AppendDistinctIds(w, [last]);
      }
    }
  }

  /** Grouping a pool without repeated ids gives groups without repeated ids. */
  lemma GroupedDistinctIds(pool: seq<Question>)
    requires DistinctIds(pool)
    ensures GroupsDistinctIds(Grouped(pool))
  {
    forall g | g in Grouped(pool) ensures DistinctIds(g.qs) {
      var j :| 0 <= j < |Grouped(pool)| && Grouped(pool)[j] == g;
      WithKeyDistinctIds(pool, KeysOf(pool)[j]);
    }
  }
}
