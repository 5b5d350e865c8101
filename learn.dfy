/** The learning mode (src/app/learn/page.tsx): grading of the interactive exercises,
    the drag-to-rank reordering, and the slide navigation of a lesson. */
module Learn {
  import opened Wrappers
  import opened Seqs

  /** What an exercise keeps in the answer record under its key: the indices picked in
      a multi-select, the one index of a single-select, a True/False pick, or the current
      order of a ranking. */
  datatype Val = Picks(xs: seq<int>) | Pick(i: int) | Truth(b: bool) | Order(items: seq<string>)

  type Answers = map<string, Val>

  /** `ans[qKey] || []` for a multi-select. */
  function PickedList(ans: Answers, k: string): seq<int>
  {
    if k in ans && ans[k].Picks? then ans[k].xs else []
  }

  /** `ans[qKey]` for a single-select; `None` when nothing is picked. */
  function Picked(ans: Answers, k: string): Option<int>
  {
    if k in ans && ans[k].Pick? then Some(ans[k].i) else None
  }

  /** Multi-select grading: as many picks as correct options, and every correct one picked. */
  predicate IsRightMulti(picked: seq<int>, correct: seq<int>)
  {
    |picked| == |correct| && forall c :: c in correct ==> c in picked
  }

  /** Single-select grading: `ans[qKey] === correctArr[0]` (with no correct option
      listed, `undefined === undefined` holds only when nothing is picked). */
  function IsRightSingle(v: Option<int>, correct: seq<int>): (b: bool)
    ensures correct != [] ==> (b <==> v == Some(correct[0]))
    ensures correct == [] ==> (b <==> v.None?)
  {
    if correct == [] then v.None? else v == Some(correct[0])
  }

  /** The Check Answer gate (line 71). */
  function HasAnswer(multi: bool, ans: Answers, k: string): (b: bool)
    ensures multi ==> (b <==> PickedList(ans, k) != [])
    ensures !multi ==> (b <==> exists i :: i >= 0 && Picked(ans, k) == Some(i))
  {
    if multi then |PickedList(ans, k)| > 0 else Picked(ans, k).Some? && Picked(ans, k).value >= 0
  }

  /** A True/False exercise is right when the pick equals the stated truth; no pick is
      never right. */
  function TruthRight(picked: Option<bool>, correct: bool): (b: bool)
    ensures b <==> picked.Some? && picked.value == correct
  {
    picked == Some(correct)
  }

  /** A ranking starts as the items in their given order. */
  function OrderOf(ans: Answers, k: string, items: seq<string>): seq<string>
  {
    if k in ans && ans[k].Order? then ans[k].items else items
  }

  /** A ranking is right when its order is exactly the correct order. */
  predicate OrderRight(picked: seq<string>, correctOrder: seq<string>)
  {
    picked == correctOrder
  }

  /** With distinct items, a move out of the correct order always spoils it. */
  lemma MoveSpoilsOrder(p: seq<string>, from: nat, to: nat)
    requires Distinct(p) && from < |p| && to < |p| && from != to
    ensures !OrderRight(Moved(p, from, to), p)
  {
    assert Moved(p, from, to)[to] == p[from] != p[to];
  }

  /** `a.splice(from, 1)` followed by `a.splice(to, 0, el)`. */
  function Moved<T>(p: seq<T>, from: nat, to: nat): (r: seq<T>)
    requires from < |p| && to < |p|
    ensures |r| == |p| && r[to] == p[from]
    ensures multiset(r) == multiset(p)
    ensures Rm(r, to) == Rm(p, from)
  {
    var a := Rm(p, from);
    var r := a[..to] + [p[from]] + a[to..];
    assert a == a[..to] + a[to..];
    assert Rm(r, to) == a;
    r
  }

  /** Where each element ends up: the moved one at `to`, the ones between shifted by one
      towards `from`, the rest in place. */
  lemma MovedAt<T>(p: seq<T>, from: nat, to: nat, i: nat)
    requires from < |p| && to < |p| && i < |p|
    ensures Moved(p, from, to)[i] ==
      if i == to then p[from]
      else if from < to && from <= i < to then p[i + 1]
      else if to < from && to < i <= from then p[i - 1]
      else p[i]
  {
  }

  /** Moving back undoes a move. */
  lemma MoveBack<T>(p: seq<T>, from: nat, to: nat)
    requires from < |p| && to < |p|
    ensures Moved(Moved(p, from, to), to, from) == p
  {
    var q := Moved(p, from, to);
    var a := Rm(p, from);
    assert Rm(q, to) == a;
    assert p == a[..from] + [p[from]] + a[from..];
  }

  /** The two splices on a copy of the order, written as the element shifts they are. */
  method Splice(p: seq<string>, from: nat, to: nat) returns (r: seq<string>)
    requires from < |p| && to < |p|
    ensures r == Moved(p, from, to)
  {
    var a := new string[|p|](i requires 0 <= i < |p| => p[i]);
    assert a[..] == p;
    var el := a[from];
    if from < to {
      ShiftDown(a, from, to);
    } else {
      ShiftUp(a, to, from);
    }
    a[to] := el;
    r := a[..];
    MovedExt(p, from, to, r);
  }

  /** Closing the gap at `lo` by moving `lo + 1 .. hi` down one place. */
  method ShiftDown(a: array<string>, lo: nat, hi: nat)
    requires lo < hi < a.Length
    modifies a
    ensures forall i :: 0 <= i < lo ==> a[i] == old(a[i])
    ensures forall i :: lo <= i < hi ==> a[i] == old(a[i + 1])
    ensures forall i :: hi <= i < a.Length ==> a[i] == old(a[i])
  {
    var k := lo;
    while k < hi
      invariant lo <= k <= hi
      invariant forall i :: 0 <= i < lo ==> a[i] == old(a[i])
      invariant forall i :: lo <= i < k ==> a[i] == old(a[i + 1])
      invariant forall i :: k <= i < a.Length ==> a[i] == old(a[i])
    {
      a[k] := a[k + 1];
      k := k + 1;
    }
  }

  /** Opening a gap at `lo` by moving `lo .. hi - 1` up one place. */
  method ShiftUp(a: array<string>, lo: nat, hi: nat)
    requires lo <= hi < a.Length
    modifies a
    ensures forall i :: 0 <= i <= lo ==> a[i] == old(a[i])
    ensures forall i :: lo < i <= hi ==> a[i] == old(a[i - 1])
    ensures forall i :: hi < i < a.Length ==> a[i] == old(a[i])
  {
    var k := hi;
    while k > lo
      invariant lo <= k <= hi
      invariant forall i :: 0 <= i <= k ==> a[i] == old(a[i])
      invariant forall i :: k < i <= hi ==> a[i] == old(a[i - 1])
      invariant forall i :: hi < i < a.Length ==> a[i] == old(a[i])
    {
      a[k] := a[k - 1];
      k := k - 1;
    }
  }

  /** A list that agrees with `Moved` position by position is `Moved`. */
  lemma MovedExt<T>(p: seq<T>, from: nat, to: nat, r: seq<T>)
    requires from < |p| && to < |p| && |r| == |p| && r[to] == p[from]
    requires forall i :: 0 <= i < from && i < to ==> r[i] == p[i]
    requires forall i :: from < i < |p| && to < i ==> r[i] == p[i]
    requires forall i :: from <= i < to ==> r[i] == p[i + 1]
    requires forall i :: to < i <= from ==> r[i] == p[i - 1]
    ensures r == Moved(p, from, to)
  {
    forall i | 0 <= i < |p| ensures r[i] == Moved(p, from, to)[i] {
      MovedAt(p, from, to, i);
    }
  }

  /** With no option listed twice (toggling keeps a pick list free of repeats), the
      multi-select is right exactly when the picked set is the correct set. */
  lemma IsRightMultiSets(picked: seq<int>, correct: seq<int>)
    requires Distinct(picked) && Distinct(correct)
    ensures IsRightMulti(picked, correct) <==> (set x | x in picked) == (set x | x in correct)
  {
    var sp, sc := set x | x in picked, set x | x in correct;
    DistinctCard(picked);
    DistinctCard(correct);
    if IsRightMulti(picked, correct) {
      assert sc <= sp;
      SubsetSameCard(sc, sp);
    }
    if sp == sc {
      forall c | c in correct ensures c in picked {
        assert c in sc;
      }
    }
  }

  lemma {:induction false} DistinctCard<T>(xs: seq<T>)
    requires Distinct(xs)
    ensures |set x | x in xs| == |xs|
  {
    if xs != [] {
      var last := xs[|xs| - 1];
      var init := xs[..|xs| - 1];
      DistinctCard(init);
      assert (set x | x in xs) == (set x | x in init) + {last};
      assert last !in init;
    }
  }

  datatype State = State(started: bool, slide: nat, ans: Answers, showExp: bool, showInfo: bool, exitConfirm: bool)

  /** A lesson in progress: `count` slides, and whether the visitor has paid access
      (which decides where the last slide's button leads). */
  class Lesson {
    const count: nat
    const hasAcc: bool
    var started: bool
    var slide: nat
    var ans: Answers
    var showExp: bool
    var showInfo: bool
    var exitConfirm: bool

    ghost function St(): State
      reads this
    {
      State(started, slide, ans, showExp, showInfo, exitConfirm)
    }

    ghost predicate Valid()
      reads this
    {
      0 < count && slide < count
    }

    /** Begin: first slide, nothing answered, no explanation. Begin does not touch the
        info-box flag, so `priorInfo` is its value from before (false on a fresh page,
        and whatever an earlier lesson left, since exiting does not clear it either);
        the exit dialog is closed, as exiting closes it. */
    constructor (count: nat, hasAcc: bool, priorInfo: bool)
      requires count > 0
      ensures Valid() && this.count == count && this.hasAcc == hasAcc
      ensures St() == State(true, 0, map[], false, priorInfo, false)
    {
      this.count, this.hasAcc := count, hasAcc;
      started, slide, ans := true, 0, map[];
      showExp, showInfo, exitConfirm := false, priorInfo, false;
    }

    /** A click on option `i`: multi-select toggles it, single-select replaces the pick;
        once the explanation shows, nothing changes. */
    method ChooseOption(k: string, i: int, multi: bool)
      modifies this
      ensures old(showExp) ==> St() == old(St())
      ensures !old(showExp) && multi ==> St() == old(St()).(ans := old(ans)[k := Picks(Toggled(PickedList(old(ans), k), i))])
      ensures !old(showExp) && !multi ==> St() == old(St()).(ans := old(ans)[k := Pick(i)])
    {
      if showExp {
        return;
      }
      if multi {
        ans := ans[k := Picks(Toggled(PickedList(ans, k), i))];
      } else {
        ans := ans[k := Pick(i)];
      }
    }

    /** Check Answer on a multiple-choice exercise reveals only when it has an answer. */
    method CheckChoice(k: string, multi: bool)
      modifies this
      ensures St() == old(St()).(showExp := old(showExp) || HasAnswer(multi, old(ans), k))
    {
      if HasAnswer(multi, ans, k) {
        showExp := true;
      }
    }

    /** Check Answer on a True/False or a click-the-segment exercise, shown once
        something is picked. */
    method CheckPicked(k: string)
      modifies this
      ensures St() == old(St()).(showExp := old(showExp) || k in old(ans))
    {
      if k in ans {
        showExp := true;
      }
    }

    /** A click on True or False. */
    method ChooseTruth(k: string, v: bool)
      modifies this
      ensures old(showExp) ==> St() == old(St())
      ensures !old(showExp) ==> St() == old(St()).(ans := old(ans)[k := Truth(v)])
    {
      if !showExp {
        ans := ans[k := Truth(v)];
      }
    }

    /** A ranking not yet in the record is stored in its given order (line 246). */
    method InitOrder(k: string, items: seq<string>)
      modifies this
      ensures k in old(ans) ==> St() == old(St())
      ensures k !in old(ans) ==> St() == old(St()).(ans := old(ans)[k := Order(items)])
    {
      if k !in ans {
        ans := ans[k := Order(items)];
      }
    }

    /** The ▲/▼ buttons: a no-op once submitted or when `to` is off the list; otherwise
        the item at `from` moves to `to`. */
    method Move(k: string, items: seq<string>, from: nat, to: int)
      requires from < |OrderOf(ans, k, items)|
      modifies this
      ensures var p := OrderOf(old(ans), k, items);
        if old(showExp) || to < 0 || to >= |p| then St() == old(St())
        else St() == old(St()).(ans := old(ans)[k := Order(Moved(p, from, to))])
    {
      var p := OrderOf(ans, k, items);
      if showExp || to < 0 || to >= |p| {
        return;
      }
      var a := Splice(p, from, to);
      ans := ans[k := Order(a)];
    }

    /** Dropping the dragged item on row `to`: a no-op once submitted, with nothing
        dragged, or onto itself. */
    method Drop(k: string, items: seq<string>, dragIdx: Option<nat>, to: nat)
      requires to < |OrderOf(ans, k, items)|
      requires dragIdx.Some? ==> dragIdx.value < |OrderOf(ans, k, items)|
      modifies this
      ensures var p := OrderOf(old(ans), k, items);
        if old(showExp) || dragIdx.None? || dragIdx == Some(to) then St() == old(St())
        else St() == old(St()).(ans := old(ans)[k := Order(Moved(p, dragIdx.value, to))])
    {
      if showExp || dragIdx.None? || dragIdx == Some(to) {
        return;
      }
      var a := Splice(OrderOf(ans, k, items), dragIdx.value, to);
      ans := ans[k := Order(a)];
    }

    /** `go(dir)`: hides the explanation and the info box and moves one slide. */
    method Go(dir: int)
      requires Valid() && (dir == 1 || dir == -1) && 0 <= slide + dir < count
      modifies this
      ensures Valid()
      ensures St() == old(St()).(slide := old(slide) + dir, showExp := false, showInfo := false)
    {
      showExp, showInfo := false, false;
      slide := slide + dir;
    }

    /** Previous, disabled on the first slide. */
    method Previous()
      requires Valid()
      modifies this
      ensures Valid()
      ensures old(slide) == 0 ==> St() == old(St())
      ensures old(slide) > 0 ==> St() == old(St()).(slide := old(slide) - 1, showExp := false, showInfo := false)
    {
      if slide > 0 {
        Go(-1);
      }
    }

    /** Next; on the last slide the button is the exit link instead, to practice with
        access and to the pricing page without. */
    method Next() returns (dest: Option<string>)
      requires Valid()
      modifies this
      ensures Valid()
      ensures old(slide) + 1 < count ==> dest.None? && St() == old(St()).(slide := old(slide) + 1, showExp := false, showInfo := false)
      ensures old(slide) + 1 == count ==> St() == old(St()) && dest == Some(if hasAcc then "/practice" else "/pricing")
    {
      if slide + 1 < count {
        Go(1);
        dest := None;
      } else {
        dest := Some(if hasAcc then "/practice" else "/pricing");
      }
    }

    /** A click on the `i`-th progress dot. */
    method Jump(i: nat)
      requires Valid() && i < count
      modifies this
      ensures Valid() && St() == old(St()).(slide := i, showExp := false)
    {
      showExp := false;
      slide := i;
    }

    /** `exitLearn`: back to the lesson list with every answer cleared. */
    method Exit()
      requires Valid()
      modifies this
      ensures Valid() && St() == old(St()).(exitConfirm := false, started := false, slide := 0, showExp := false, ans := map[])
    {
      exitConfirm, started, slide, showExp, ans := false, false, 0, false, map[];
    }

    /** Back: asks for confirmation past the first slide, exits at once on it. */
    method Back()
      requires Valid()
      modifies this
      ensures Valid()
      ensures old(slide) > 0 ==> St() == old(St()).(exitConfirm := true)
      ensures old(slide) == 0 ==> St() == old(St()).(exitConfirm := false, started := false, showExp := false, ans := map[])
    {
      if slide > 0 {
        exitConfirm := true;
      } else {
        Exit();
      }
    }

    /** Keep learning, in the exit dialog. */
    method Stay()
      modifies this
      ensures St() == old(St()).(exitConfirm := false)
    {
      exitConfirm := false;
    }
  }
}
