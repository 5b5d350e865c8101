/** Scoring at the end of a quiz (`fin`, quiz page lines 176-196): the headline score
    over the answer map, the per-section breakdown and the list of wrong answers, both
    walked in the order of the passage groups. */
module Scoring {
  import opened Percent
  import opened Passages
  import opened Seqs

  /** One entry of the answer map: the chosen option and whether it was right. */
  datatype Answer = Answer(s: string, c: bool)

  type AnswerMap = map<int, Answer>

  datatype SectionScore = SectionScore(section: string, correct: nat, total: nat, percentage: nat)

  /** A wrongly answered question with the answer given. */
  datatype Incorrect = Incorrect(q: Question, userAnswer: string)

  /** What `fin` stores for the results page (its `timeSpent` is not modelled). */
  datatype Results = Results(
    totalCorrect: nat, totalQuestions: nat, percentage: nat,
    breakdown: seq<SectionScore>, incorrect: seq<Incorrect>)

  /** `Array.from(aMap.values()).filter((a) => a.c).length`. */
  function CorrectCount(aMap: AnswerMap): (n: nat)
    ensures n <= |aMap|
  {
    var ks := set id | id in aMap && aMap[id].c;
    assert ks <= aMap.Keys;
    SubsetCard(ks, aMap.Keys);
    |ks|
  }

  predicate IsAnswered(q: Question, aMap: AnswerMap) { q.id in aMap }

  predicate IsCorrect(q: Question, aMap: AnswerMap) { q.id in aMap && aMap[q.id].c }

  /** Answered questions of section `s` in `flat`. */
  function SecTotal(flat: seq<Question>, aMap: AnswerMap, s: string): nat
  {
    if flat == [] then 0
    else
      var q := flat[|flat| - 1];
      SecTotal(flat[..|flat| - 1], aMap, s) + (if q.section == s && IsAnswered(q, aMap) then 1 else 0)
  }

  /** Correctly answered questions of section `s` in `flat`. */
  function SecCorrect(flat: seq<Question>, aMap: AnswerMap, s: string): (n: nat)
    ensures n <= SecTotal(flat, aMap, s)
  {
    if flat == [] then 0
    else
      var q := flat[|flat| - 1];
      SecCorrect(flat[..|flat| - 1], aMap, s) + (if q.section == s && IsCorrect(q, aMap) then 1 else 0)
  }

  /** The sections of the answered questions of `flat`, in order of first appearance:
      the insertion order of the `sm` map. */
  function AnsweredSections(flat: seq<Question>, aMap: AnswerMap): (ss: seq<string>)
    ensures forall i, j :: 0 <= i < j < |ss| ==> ss[i] != ss[j]
    ensures forall s :: s in ss <==> SecTotal(flat, aMap, s) > 0
  {
    if flat == [] then []
    else
      var init, q := flat[..|flat| - 1], flat[|flat| - 1];
      var ss := AnsweredSections(init, aMap);
      if IsAnswered(q, aMap) && q.section !in ss then ss + [q.section] else ss
  }

  /** The per-section tallies `{ c, t }` that `sm` holds, in its insertion order. */
  datatype Tally = Tally(section: string, c: nat, t: nat)

  function Tallies(flat: seq<Question>, aMap: AnswerMap): (ts: seq<Tally>)
    ensures |ts| == |AnsweredSections(flat, aMap)|
    ensures forall i :: 0 <= i < |ts| ==>
      var s := AnsweredSections(flat, aMap)[i];
      ts[i] == Tally(s, SecCorrect(flat, aMap, s), SecTotal(flat, aMap, s))
  {
    var ss := AnsweredSections(flat, aMap);
    seq(|ss|, i requires 0 <= i < |ss| => Tally(ss[i], SecCorrect(flat, aMap, ss[i]), SecTotal(flat, aMap, ss[i])))
  }

  /** Adding one question to the walk: an answered question bumps its section's tally,
      or opens a new tally at the end. */
  lemma TalliesSnoc(flat: seq<Question>, q: Question, aMap: AnswerMap)
    ensures var ts, ts' := Tallies(flat, aMap), Tallies(flat + [q], aMap);
      var inc := if IsCorrect(q, aMap) then 1 else 0;
      (!IsAnswered(q, aMap) ==> ts' == ts) &&
      (IsAnswered(q, aMap) ==> forall m :: 0 <= m < |ts| && ts[m].section == q.section ==>
        ts' == ts[m := Tally(q.section, ts[m].c + inc, ts[m].t + 1)]) &&
      (IsAnswered(q, aMap) && (forall m :: 0 <= m < |ts| ==> ts[m].section != q.section) ==>
        ts' == ts + [Tally(q.section, inc, 1)])
  {
    var flat' := flat + [q];
    assert flat'[..|flat'| - 1] == flat && flat'[|flat'| - 1] == q;
    var ss := AnsweredSections(flat, aMap);
    if IsAnswered(q, aMap) && q.section !in ss {
      assert SecTotal(flat, aMap, q.section) == 0;
    }
  }

  /** `sb`: each tally with its percentage, `d.t > 0 ? Math.round(d.c / d.t * 100) : 0`. */
  function Breakdown(flat: seq<Question>, aMap: AnswerMap): (sb: seq<SectionScore>)
    ensures |sb| == |Tallies(flat, aMap)|
  {
    var ts := Tallies(flat, aMap);
    seq(|ts|, i requires 0 <= i < |ts| => SectionScore(ts[i].section, ts[i].c, ts[i].t, Pct(ts[i].c, ts[i].t)))
  }

  /** The breakdown lists each answered section once, in first-answered order, with its
      own counts, a total of at least one, and a percentage in 0..100. */
  lemma BreakdownShape(flat: seq<Question>, aMap: AnswerMap)
    ensures var sb := Breakdown(flat, aMap);
      (forall i, j :: 0 <= i < j < |sb| ==> sb[i].section != sb[j].section) &&
      (forall s :: (exists i :: 0 <= i < |sb| && sb[i].section == s) <==> SecTotal(flat, aMap, s) > 0) &&
      (forall i :: 0 <= i < |sb| ==>
        sb[i].correct == SecCorrect(flat, aMap, sb[i].section) &&
        sb[i].total == SecTotal(flat, aMap, sb[i].section) &&
        0 < sb[i].total && sb[i].correct <= sb[i].total &&
        sb[i].percentage == RoundPct(sb[i].correct, sb[i].total) && sb[i].percentage <= 100)
  {
    var sb, ss := Breakdown(flat, aMap), AnsweredSections(flat, aMap);
    forall s | SecTotal(flat, aMap, s) > 0 ensures exists i :: 0 <= i < |sb| && sb[i].section == s {
      var i :| 0 <= i < |ss| && ss[i] == s;
      assert sb[i].section == s;
    }
  }

  /** The wrong answers among the questions of `flat`, in order. */
  function Incorrects(flat: seq<Question>, aMap: AnswerMap): (iq: seq<Incorrect>)
    ensures forall x :: x in iq ==> x.q in flat && IsAnswered(x.q, aMap) && !aMap[x.q.id].c && x.userAnswer == aMap[x.q.id].s
    ensures forall q :: q in flat && IsAnswered(q, aMap) && !aMap[q.id].c ==> Incorrect(q, aMap[q.id].s) in iq
  {
    if flat == [] then []
    else
      var init, q := flat[..|flat| - 1], flat[|flat| - 1];
      assert flat == init + [q];
      Incorrects(init, aMap) + (if IsAnswered(q, aMap) && !aMap[q.id].c then [Incorrect(q, aMap[q.id].s)] else [])
  }

  /** `sm` filled by walking the groups in order (lines 181-187); the walk over each
      group's questions is the walk over `Flat(grp)`. */
  method TallySections(grp: seq<Group>, aMap: AnswerMap) returns (sm: seq<Tally>)
    ensures sm == Tallies(Flat(grp), aMap)
  {
    var flat := Flat(grp);
    sm := [];
    var i := 0;
    while i < |flat|
      invariant 0 <= i <= |flat|
      invariant sm == Tallies(flat[..i], aMap)
    {
      var q := flat[i];
      TalliesSnoc(flat[..i], q, aMap);
      assert flat[..i + 1] == flat[..i] + [q];
      if q.id in aMap {
        var a := aMap[q.id];
        var m := 0;
        while m < |sm| && sm[m].section != q.section
          invariant 0 <= m <= |sm|
          invariant forall l :: 0 <= l < m ==> sm[l].section != q.section
        {
          m := m + 1;
        }
        if m < |sm| {
          sm := sm[m := Tally(q.section, sm[m].c + (if a.c then 1 else 0), sm[m].t + 1)];
        } else {
          sm := sm + [Tally(q.section, if a.c then 1 else 0, 1)];
        }
      }
      i := i + 1;
    }
    assert flat[..i] == flat;
  }

  /** `iq` filled by the second walk over the groups (lines 191-195). */
  method CollectIncorrect(grp: seq<Group>, aMap: AnswerMap) returns (iq: seq<Incorrect>)
    ensures iq == Incorrects(Flat(grp), aMap)
  {
    var flat := Flat(grp);
    iq := [];
    var i := 0;
    while i < |flat|
      invariant 0 <= i <= |flat|
      invariant iq == Incorrects(flat[..i], aMap)
    {
      var q := flat[i];
      assert flat[..i + 1][..i] == flat[..i];
      if q.id in aMap && !aMap[q.id].c {
        iq := iq + [Incorrect(q, aMap[q.id].s)];
      }
      i := i + 1;
    }
    assert flat[..i] == flat;
  }

  /** The results `fin` stores for the answers `aMap` to the groups `grp`. */
  function Summary(grp: seq<Group>, aMap: AnswerMap): Results
  {
    Results(CorrectCount(aMap), |aMap|, Pct(CorrectCount(aMap), |aMap|),
      Breakdown(Flat(grp), aMap), Incorrects(Flat(grp), aMap))
  }

  /** `fin`'s computation. */
  method Summarize(grp: seq<Group>, aMap: AnswerMap) returns (r: Results)
    ensures r == Summary(grp, aMap)
    ensures r.totalCorrect == CorrectCount(aMap) && r.totalQuestions == |aMap|
    ensures r.percentage == Pct(CorrectCount(aMap), |aMap|) && r.percentage <= 100
    ensures |aMap| == 0 ==> r.percentage == 0
    ensures r.breakdown == Breakdown(Flat(grp), aMap)
    ensures r.incorrect == Incorrects(Flat(grp), aMap)
  {
    var tc := |set id | id in aMap && aMap[id].c|;
    var pct := if |aMap| > 0 then RoundPct(tc, |aMap|) else 0;
    var sm := TallySections(grp, aMap);
    var sb := seq(|sm|, i requires 0 <= i < |sm| =>
      SectionScore(sm[i].section, sm[i].c, sm[i].t, if sm[i].t > 0 then RoundPct(sm[i].c, sm[i].t) else 0));
    var iq := CollectIncorrect(grp, aMap);
    r := Results(tc, |aMap|, pct, sb, iq);
  }

  /** Answered, and correctly answered, questions of `flat`, all sections together. */
  function AnsweredCount(flat: seq<Question>, aMap: AnswerMap): nat
  {
    if flat == [] then 0
    else AnsweredCount(flat[..|flat| - 1], aMap) + (if IsAnswered(flat[|flat| - 1], aMap) then 1 else 0)
  }

  function CorrectIn(flat: seq<Question>, aMap: AnswerMap): nat
  {
    if flat == [] then 0
    else CorrectIn(flat[..|flat| - 1], aMap) + (if IsCorrect(flat[|flat| - 1], aMap) then 1 else 0)
  }

  function SumTotals(sb: seq<SectionScore>): nat
  {
    if sb == [] then 0 else SumTotals(sb[..|sb| - 1]) + sb[|sb| - 1].total
  }

  function SumCorrect(sb: seq<SectionScore>): nat
  {
    if sb == [] then 0 else SumCorrect(sb[..|sb| - 1]) + sb[|sb| - 1].correct
  }

  function SumT(ts: seq<Tally>): nat
  {
    if ts == [] then 0 else SumT(ts[..|ts| - 1]) + ts[|ts| - 1].t
  }

  function SumC(ts: seq<Tally>): nat
  {
    if ts == [] then 0 else SumC(ts[..|ts| - 1]) + ts[|ts| - 1].c
  }

  lemma {:induction false} SumUpdate(ts: seq<Tally>, m: nat, x: Tally)
    requires m < |ts|
    ensures SumT(ts[m := x]) + ts[m].t == SumT(ts) + x.t
    ensures SumC(ts[m := x]) + ts[m].c == SumC(ts) + x.c
    decreases |ts|
  {
    var ts' := ts[m := x];
    assert ts'[..|ts'| - 1] == if m == |ts| - 1 then ts[..|ts| - 1] else ts[..|ts| - 1][m := x];
    if m < |ts| - 1 {
      SumUpdate(ts[..|ts| - 1], m, x);
    }
  }

  lemma SumSnoc(ts: seq<Tally>, x: Tally)
    ensures SumT(ts + [x]) == SumT(ts) + x.t && SumC(ts + [x]) == SumC(ts) + x.c
  {
    assert (ts + [x])[..|ts|] == ts;
  }

  /** The tallies together count every answered question once. */
  lemma {:induction false} TalliesSum(flat: seq<Question>, aMap: AnswerMap)
    ensures SumT(Tallies(flat, aMap)) == AnsweredCount(flat, aMap)
    ensures SumC(Tallies(flat, aMap)) == CorrectIn(flat, aMap)
    decreases |flat|
  {
    if flat != [] {
      var init, q := flat[..|flat| - 1], flat[|flat| - 1];
      assert flat == init + [q];
      TalliesSum(init, aMap);
      TalliesSnoc(init, q, aMap);
      var ts := Tallies(init, aMap);
      var inc := if IsCorrect(q, aMap) then 1 else 0;
      if IsAnswered(q, aMap) {
        if m :| 0 <= m < |ts| && ts[m].section == q.section {
          SumUpdate(ts, m, Tally(q.section, ts[m].c + inc, ts[m].t + 1));
        } else {
          SumSnoc(ts, Tally(q.section, inc, 1));
        }
      }
    }
  }

  lemma {:induction false} BreakdownSumsOf(ts: seq<Tally>)
    ensures var sb := seq(|ts|, i requires 0 <= i < |ts| => SectionScore(ts[i].section, ts[i].c, ts[i].t, Pct(ts[i].c, ts[i].t)));
      SumTotals(sb) == SumT(ts) && SumCorrect(sb) == SumC(ts)
    decreases |ts|
  {
    if ts != [] {
      var init := ts[..|ts| - 1];
      BreakdownSumsOf(init);
      var sb := seq(|ts|, i requires 0 <= i < |ts| => SectionScore(ts[i].section, ts[i].c, ts[i].t, Pct(ts[i].c, ts[i].t)));
      var sb' := seq(|init|, i requires 0 <= i < |init| => SectionScore(init[i].section, init[i].c, init[i].t, Pct(init[i].c, init[i].t)));
      assert sb[..|sb| - 1] == sb';
    }
  }

  /** The breakdown's totals add up to the answered questions of the walk and its
      correct counts to the correct ones. */
  lemma BreakdownSums(flat: seq<Question>, aMap: AnswerMap)
    ensures SumTotals(Breakdown(flat, aMap)) == AnsweredCount(flat, aMap)
    ensures SumCorrect(Breakdown(flat, aMap)) == CorrectIn(flat, aMap)
  {
    TalliesSum(flat, aMap);
    BreakdownSumsOf(Tallies(flat, aMap));
  }

  /** One wrong answer per answered, not correct, question of the walk. */
  lemma {:induction false} IncorrectsCount(flat: seq<Question>, aMap: AnswerMap)
    ensures CorrectIn(flat, aMap) <= AnsweredCount(flat, aMap)
    ensures |Incorrects(flat, aMap)| == AnsweredCount(flat, aMap) - CorrectIn(flat, aMap)
    decreases |flat|
  {
    if flat != [] {
      IncorrectsCount(flat[..|flat| - 1], aMap);
    }
  }

  /** Questions of `flat` whose id is in `ks`. */
  function CountIn(flat: seq<Question>, ks: set<int>): nat
  {
    if flat == [] then 0
    else CountIn(flat[..|flat| - 1], ks) + (if flat[|flat| - 1].id in ks then 1 else 0)
  }

  lemma IdsSnoc(init: seq<Question>, q: Question)
    ensures Ids(init + [q]) == Ids(init) + {q.id}
  {
  }

  lemma {:induction false} CountInSet(flat: seq<Question>, ks: set<int>)
    requires DistinctIds(flat)
    ensures CountIn(flat, ks) == |ks * Ids(flat)|
    decreases |flat|
  {
    if flat != [] {
      var init, q := flat[..|flat| - 1], flat[|flat| - 1];
      DistinctSnoc(flat);
      CountInSet(init, ks);
      assert flat == init + [q];
      CountInStep(init, q, ks);
    }
  }

  lemma DistinctSnoc(flat: seq<Question>)
    requires DistinctIds(flat) && flat != []
    ensures DistinctIds(flat[..|flat| - 1]) && flat[|flat| - 1].id !in Ids(flat[..|flat| - 1])
  {
    var init, q := flat[..|flat| - 1], flat[|flat| - 1];
    forall x | x in init ensures x.id != q.id {
      var j :| 0 <= j < |init| && init[j] == x;
      assert flat[j] == x;
    }
  }

  lemma CountInStep(init: seq<Question>, q: Question, ks: set<int>)
    requires q.id !in Ids(init)
    ensures |ks * Ids(init + [q])| == |ks * Ids(init)| + (if q.id in ks then 1 else 0)
  {
    IdsSnoc(init, q);
    if q.id in ks {
      assert ks * Ids(init + [q]) == ks * Ids(init) + {q.id};
    } else {
      assert ks * Ids(init + [q]) == ks * Ids(init);
    }
  }

  lemma {:induction false} CountsAreCountIn(flat: seq<Question>, aMap: AnswerMap)
    ensures AnsweredCount(flat, aMap) == CountIn(flat, aMap.Keys)
    ensures CorrectIn(flat, aMap) == CountIn(flat, set id | id in aMap && aMap[id].c)
    decreases |flat|
  {
    if flat != [] {
      CountsAreCountIn(flat[..|flat| - 1], aMap);
    }
  }

  /** When the quiz's questions have distinct ids and every answer belongs to one of
      them, the breakdown accounts for every answer: its totals sum to the number of
      answered questions and its correct counts to the headline score; the wrong
      answers are the rest. */
  lemma BreakdownCoversAnswers(grp: seq<Group>, aMap: AnswerMap)
    requires DistinctIds(Flat(grp))
    requires aMap.Keys <= Ids(Flat(grp))
    ensures SumTotals(Breakdown(Flat(grp), aMap)) == |aMap|
    ensures SumCorrect(Breakdown(Flat(grp), aMap)) == CorrectCount(aMap)
    ensures |Incorrects(Flat(grp), aMap)| == |aMap| - CorrectCount(aMap)
  {
    var flat := Flat(grp);
    var cs := set id | id in aMap && aMap[id].c;
    CountsAreCountIn(flat, aMap);
    CountInSet(flat, aMap.Keys);
    CountInSet(flat, cs);
    BreakdownSums(flat, aMap);
    IncorrectsCount(flat, aMap);
    assert aMap.Keys * Ids(flat) == aMap.Keys;
    assert cs * Ids(flat) == cs;
  }
}
