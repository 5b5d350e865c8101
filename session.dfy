/** The quiz session (quiz page lines 163-237 and the buttons and dialogs at 312-320):
    a cursor over the passage groups, the pending choice, the answer map, the test
    countdown and the submitted flag, changed by the page's handlers. */
module Session {
  import opened Wrappers
  import opened Text
  import opened Passages
  import opened Scoring
  import opened Seqs

  /** 1-based position of question `qi` of group `gi` in the groups' questions laid end
      to end: the lengths of the earlier groups plus `qi + 1` (line 221). */
  function Position(grp: seq<Group>, gi: nat, qi: nat): (c: nat)
    requires gi < |grp| && qi < |grp[gi].qs|
    ensures 1 <= c <= |Flat(grp)| && Flat(grp)[c - 1] == grp[gi].qs[qi]
  {
    FlatAt(grp, gi);
    |Flat(grp[..gi])| + qi + 1
  }

  lemma FlatAt(grp: seq<Group>, gi: nat)
    requires gi < |grp|
    ensures Flat(grp) == Flat(grp[..gi]) + grp[gi].qs + Flat(grp[gi + 1..])
  {
    assert grp == grp[..gi] + grp[gi..];
    FlatAppend(grp[..gi], grp[gi..]);
    assert grp[gi..][1..] == grp[gi + 1..];
  }

  /** With no empty group, the position is the last one exactly at the last question
      of the last group. */
  lemma PositionLast(grp: seq<Group>, gi: nat, qi: nat)
    requires NonEmptyGroups(grp) && gi < |grp| && qi < |grp[gi].qs|
    ensures Position(grp, gi, qi) == |Flat(grp)| <==> gi == |grp| - 1 && qi == |grp[gi].qs| - 1
  {
    FlatAt(grp, gi);
    if gi < |grp| - 1 {
      assert grp[gi + 1..][0] == grp[gi + 1];
      assert |Flat(grp[gi + 1..])| >= |grp[gi + 1].qs| > 0;
    } else {
      assert grp[gi + 1..] == [];
    }
  }

  /** Moving to the first question of the next group advances the position by one. */
  lemma PositionNextGroup(grp: seq<Group>, gi: nat)
    requires gi + 1 < |grp| && grp[gi].qs != [] && grp[gi + 1].qs != []
    ensures Position(grp, gi + 1, 0) == Position(grp, gi, |grp[gi].qs| - 1) + 1
  {
    assert grp[..gi + 1] == grp[..gi] + [grp[gi]];
    FlatSnoc(grp[..gi], grp[gi]);
  }

  /** The session's mutable state, one field per state hook of the page. */
  datatype State = State(
    gi: nat, qi: nat, sel: Option<string>, ans: bool, aMap: AnswerMap, tl: int, sub: bool,
    skipConfirm: bool, submitConfirm: bool, results: Option<Results>)

  /** `!sel` is false only for a non-empty string. */
  predicate Chosen(sel: Option<string>)
  {
    sel.Some? && sel.value != ""
  }

  /** A mock test runs for 40 minutes, in milliseconds. */
  const TestMillis: int := 40 * 60000

  /** Number of one-second ticks until a countdown that shows `tl` ms runs out: the
      tick that finds 1000 ms or less ends the test. */
  function TicksToExpiry(tl: int): (n: nat)
    ensures n >= 1
    ensures tl > 0 ==> 1000 * (n - 1) < tl <= 1000 * n
    ensures tl <= 1000 ==> n == 1
    decreases tl
  {
    if tl <= 1000 then 1 else 1 + TicksToExpiry(tl - 1000)
  }

  /** A full mock test lasts exactly 2400 ticks. */
  lemma TestLength()
    ensures TicksToExpiry(TestMillis) == 2400
  {
  }

  /** The countdown label `m:ss` (line 279). */
  function ClockText(tl: nat): (r: string)
    ensures exists m: nat, s: nat :: s < 60 && r == Dec(m) + ":" + Pad2(s) && 60000 * m + 1000 * s <= tl < 60000 * m + 1000 * s + 1000
  {
    var m, s := tl / 60000, (tl % 60000) / 1000;
    assert 60000 * m + 1000 * s <= tl < 60000 * m + 1000 * s + 1000;
    Dec(m) + ":" + Pad2(s)
  }

  /** A new mock test shows 40:00. */
  lemma ClockStart()
    ensures ClockText(TestMillis) == "40:00"
  {
    assert Dec(0) == "0" && Dec(4) == "4";
    assert Dec(40) == "40";
  }

  /** The countdown turns red under five minutes. */
  predicate ClockRed(tl: int)
  {
    tl < 300000
  }

  class QuizSession {
    const mode: string
    const grp: seq<Group>
    const qs: seq<Question>

    var gi: nat
    var qi: nat
    var sel: Option<string>
    var ans: bool
    var aMap: AnswerMap
    var tl: int
    var sub: bool
    var skipConfirm: bool
    var submitConfirm: bool
    /** What `fin` stored for the results page, once it has run. */
    var results: Option<Results>

    ghost function St(): State
      reads this
    {
      State(gi, qi, sel, ans, aMap, tl, sub, skipConfirm, submitConfirm, results)
    }

    /** The cursor names a question, the displayed questions are the groups' questions,
        and every answer belongs to one of them. */
    ghost predicate Valid()
      reads this
    {
      |grp| > 0 && NonEmptyGroups(grp) && gi < |grp| && qi < |grp[gi].qs| &&
      multiset(qs) == multiset(Flat(grp)) && aMap.Keys <= Ids(Flat(grp)) && tl >= 0
    }

    /** `cur`, the 1-based position shown as `cur/totQ`. */
    function Cur(): (c: nat)
      reads this
      requires Valid()
      ensures 1 <= c <= |qs|
    {
      assert |qs| == |multiset(qs)| == |Flat(grp)|;
      Position(grp, gi, qi)
    }

    /** The question under the cursor. */
    function Current(): (q: Question)
      reads this
      requires Valid()
      ensures q in Flat(grp) && q == Flat(grp)[Cur() - 1]
    {
      var c := Position(grp, gi, qi);
      assert Flat(grp)[c - 1] == grp[gi].qs[qi];
      grp[gi].qs[qi]
    }

    /** What `nxt` does from state `s`: one position forward, clearing the choice; at
        the last question, the submit dialog in a mock test and `fin` otherwise. */
    ghost predicate NextOf(s: State, t: State)
      requires s.gi < |grp| && s.qi < |grp[s.gi].qs|
    {
      var c := Position(grp, s.gi, s.qi);
      if c < |Flat(grp)| then
        t == s.(gi := t.gi, qi := t.qi, sel := None, ans := false) &&
        t.gi < |grp| && t.qi < |grp[t.gi].qs| && Position(grp, t.gi, t.qi) == c + 1
      else if mode == "test" then t == s.(submitConfirm := true)
      else t == s.(sub := true, results := Some(Summary(grp, s.aMap)))
    }

    /** The page once its questions are in. The countdown starts at mount, so in a
        mock test `waited` ticks have already run while the questions loaded (none in
        the other modes, whose clock never ticks); a test that ran out while loading
        never reaches a first question. */
    constructor (mode: string, grp: seq<Group>, qs: seq<Question>, waited: nat)
      requires |grp| > 0 && NonEmptyGroups(grp) && multiset(qs) == multiset(Flat(grp))
      requires mode != "test" ==> waited == 0
      requires waited < TicksToExpiry(TestMillis)
      ensures Valid() && Cur() == 1
      ensures this.mode == mode && this.grp == grp && this.qs == qs
      ensures St() == State(0, 0, None, false, map[], TestMillis - 1000 * waited, false, false, false, None)
      ensures TicksToExpiry(tl) == TicksToExpiry(TestMillis) - waited
    {
      this.mode := mode;
      this.grp := grp;
      this.qs := qs;
      gi, qi, sel, ans, aMap := 0, 0, None, false, map[];
      tl, sub, skipConfirm, submitConfirm, results := TestMillis - 1000 * waited, false, false, false, None;
      TestLength();
      var n := TicksToExpiry(TestMillis - 1000 * waited);
      assert 1000 * (n - 1) < 1000 * (2400 - waited) <= 1000 * n;
    }

    /** `fin`: marks the session submitted and stores its results. */
    method Fin()
      requires Valid()
      modifies this
      ensures Valid()
      ensures St() == old(St()).(sub := true, results := Some(Summary(grp, aMap)))
    {
      sub := true;
      var r := Summarize(grp, aMap);
      results := Some(r);
    }

    /** `selOpt(o)`: ignored once submitted, and outside a mock test once the answer
        is revealed. */
    method SelectOption(o: string)
      requires Valid()
      modifies this
      ensures Valid()
      ensures (mode != "test" && old(ans)) || old(sub) ==> St() == old(St())
      ensures !((mode != "test" && old(ans)) || old(sub)) ==> St() == old(St()).(sel := Some(o))
    {
      if (mode != "test" && ans) || sub {
        return;
      }
      sel := Some(o);
    }

    /** `nxt`. */
    method Next()
      requires Valid()
      modifies this
      ensures Valid()
      ensures NextOf(old(St()), St())
    {
      PositionLast(grp, gi, qi);
      if qi < |grp[gi].qs| - 1 {
        qi := qi + 1;
      } else if gi < |grp| - 1 {
        PositionNextGroup(grp, gi);
        gi, qi := gi + 1, 0;
      } else {
        if mode == "test" {
          submitConfirm := true;
          return;
        }
        Fin();
        return;
      }
      sel, ans := None, false;
    }

    /** `subm`: records the choice for the current question; a mock test moves on at
        once, the other modes reveal the answer. Without a choice it does nothing. */
    method Submit()
      requires Valid()
      modifies this
      ensures Valid()
      ensures !Chosen(old(sel)) ==> St() == old(St())
      ensures Chosen(old(sel)) ==>
        var q := old(Current());
        var rec := old(St()).(aMap := old(aMap)[q.id := Answer(old(sel).value, old(sel).value == q.correct)]);
        if mode == "test" then NextOf(rec, St()) else St() == rec.(ans := true)
    {
      if !Chosen(sel) {
        return;
      }
      var q := Current();
      var o := sel.value;
      var cor := o == q.correct;
      aMap := aMap[q.id := Answer(o, cor)];
      if mode == "test" {
        Next();
        return;
      }
      ans := true;
    }

    /** `tryNxt`: in practice, moving on from an unrevealed question asks first. */
    method TryNext()
      requires Valid()
      modifies this
      ensures Valid()
      ensures mode == "practice" && !old(ans) ==> St() == old(St()).(skipConfirm := true)
      ensures !(mode == "practice" && !old(ans)) ==> NextOf(old(St()), St())
    {
      if mode == "practice" && !ans {
        skipConfirm := true;
        return;
      }
      Next();
    }

    /** The Next / Finish button outside a mock test: disabled while nothing is chosen
        and the answer is not revealed, `tryNxt` otherwise. */
    method NextButton()
      requires Valid() && mode != "test"
      modifies this
      ensures Valid()
      ensures !old(ans) && !Chosen(old(sel)) ==> St() == old(St())
      ensures mode == "practice" && !old(ans) && Chosen(old(sel)) ==> St() == old(St()).(skipConfirm := true)
      ensures old(ans) || (mode != "practice" && Chosen(old(sel))) ==> NextOf(old(St()), St())
    {
      if !ans && !Chosen(sel) {
        return;
      }
      TryNext();
    }

    /** The Previous button: disabled on the first question, `prv` otherwise. */
    method PreviousButton()
      requires Valid()
      modifies this
      ensures Valid()
      ensures old(Cur()) == 1 ==> St() == old(St())
      ensures old(Cur()) > 1 ==> Cur() == old(Cur()) - 1 && St() == old(St()).(gi := gi, qi := qi, sel := None, ans := false)
    {
      if gi == 0 && qi == 0 {
        return;
      }
      Previous();
    }

    /** `prv`: one position back, or stay on the first question; the choice is cleared
        either way. */
    method Previous()
      requires Valid()
      modifies this
      ensures Valid()
      ensures Cur() == if old(Cur()) > 1 then old(Cur()) - 1 else 1
      ensures St() == old(St()).(gi := gi, qi := qi, sel := None, ans := false)
    {
      if qi > 0 {
        qi := qi - 1;
      } else if gi > 0 {
        PositionNextGroup(grp, gi - 1);
        gi, qi := gi - 1, |grp[gi - 1].qs| - 1;
      }
      sel, ans := None, false;
    }

    /** One tick of the mock-test countdown: the tick that finds 1000 ms or less ends
        the test and zeroes the clock. */
    method Tick()
      requires Valid()
      modifies this
      ensures Valid()
      ensures mode != "test" || old(sub) ==> St() == old(St())
      ensures mode == "test" && !old(sub) && old(tl) <= 1000 ==>
        St() == old(St()).(tl := 0, sub := true, results := Some(Summary(grp, aMap)))
      ensures mode == "test" && !old(sub) && old(tl) > 1000 ==>
        St() == old(St()).(tl := old(tl) - 1000) && TicksToExpiry(tl) == TicksToExpiry(old(tl)) - 1
    {
      if mode != "test" || sub {
        return;
      }
      if tl <= 1000 {
        Fin();
        tl := 0;
      } else {
        tl := tl - 1000;
      }
    }

    /** The mock test's Next / Submit Test button: on the last question it opens the
        submit dialog, and it is disabled there while nothing is chosen. */
    method TestNext()
      requires Valid() && mode == "test"
      modifies this
      ensures Valid()
      ensures old(Cur()) == |qs| && !Chosen(old(sel)) ==> St() == old(St())
      ensures old(Cur()) == |qs| && Chosen(old(sel)) ==> St() == old(St()).(submitConfirm := true)
      ensures old(Cur()) < |qs| ==> NextOf(old(St()), St())
    {
      assert |qs| == |multiset(qs)| == |Flat(grp)|;
      if Cur() == |qs| {
        if Chosen(sel) {
          submitConfirm := true;
        }
        return;
      }
      Next();
    }

    /** The skip dialog's Skip button. */
    method ConfirmSkip()
      requires Valid()
      modifies this
      ensures Valid()
      ensures NextOf(old(St()).(skipConfirm := false), St())
    {
      skipConfirm := false;
      Next();
    }

    /** The skip dialog's Go back button. */
    method CancelSkip()
      requires Valid()
      modifies this
      ensures Valid()
      ensures St() == old(St()).(skipConfirm := false)
    {
      skipConfirm := false;
    }

    /** The submit dialog's Submit Test button. */
    method ConfirmSubmit()
      requires Valid()
      modifies this
      ensures Valid()
      ensures St() == old(St()).(submitConfirm := false, sub := true, results := Some(Summary(grp, aMap)))
    {
      submitConfirm := false;
      Fin();
    }

    /** The submit dialog's Review Answers button. */
    method CancelSubmit()
      requires Valid()
      modifies this
      ensures Valid()
      ensures St() == old(St()).(submitConfirm := false)
    {
      submitConfirm := false;
    }
  }

  /** Recording an answer only ever adds or overwrites an entry: the answered set never
      shrinks. */
  lemma AnswersOnlyGrow(s: State, t: State, id: int, a: Answer)
    requires t == s.(aMap := s.aMap[id := a])
    ensures s.aMap.Keys <= t.aMap.Keys && |s.aMap| <= |t.aMap|
  {
    SubsetCard(s.aMap.Keys, t.aMap.Keys);
  }
}
