/** Sequence helpers shared by the quiz model: the random reorderings written as
    `xs.sort(() => Math.random() - 0.5)` and the `flat()` of a list of lists. */
module Seqs {

  /** `xs` without its element at position `i`. */
  function Rm<T>(xs: seq<T>, i: nat): (r: seq<T>)
    requires i < |xs|
    ensures |r| == |xs| - 1
    ensures multiset(r) + multiset{xs[i]} == multiset(xs)
  {
    assert xs == xs[..i] + [xs[i]] + xs[i + 1..];
    xs[..i] + xs[i + 1..]
  }

  /** A draw is a list of positions, one per pick; a position out of range, or a
      missing one, picks the first remaining element. */
  type Draw = seq<nat>

  function Pick(d: Draw, n: nat): (i: nat)
    requires n > 0
    ensures i < n
  {
    if d != [] && d[0] < n then d[0] else 0
  }

  function Rest(d: Draw): Draw
  {
    if d == [] then [] else d[1..]
  }

  /** A reordering of `xs` chosen by the draw `d`. The comparator sort of the source
      promises no particular distribution, only some reordering; `d` says which one,
      by naming at each step which of the remaining elements comes next. */
  function Shuffle<T>(xs: seq<T>, d: Draw): (ys: seq<T>)
    ensures |ys| == |xs|
    ensures multiset(ys) == multiset(xs)
    decreases |xs|
  {
    if xs == [] then []
    else
      var i := Pick(d, |xs|);
      [xs[i]] + Shuffle(Rm(xs, i), Rest(d))
  }

  /** The empty draw leaves the order unchanged. */
  lemma {:induction false} ShuffleEmpty<T>(xs: seq<T>)
    ensures Shuffle(xs, []) == xs
    decreases |xs|
  {
    if xs != [] {
      ShuffleEmpty(Rm(xs, 0));
      assert Rm(xs, 0) == xs[1..];
    }
  }

  /** Every reordering of `xs` is the outcome of some draw: the model leaves the
      randomness entirely open. */
  lemma {:induction false} ShuffleReaches<T>(xs: seq<T>, ys: seq<T>) returns (d: Draw)
    requires multiset(ys) == multiset(xs)
    ensures Shuffle(xs, d) == ys
    decreases |xs|
  {
    PermutationLength(xs, ys);
    if xs == [] {
      d := [];
    } else {
      var i := HeadIndex(xs, ys);
      RestPermutation(xs, ys, i);
      var d' := ShuffleReaches(Rm(xs, i), ys[1..]);
      ShuffleCons(xs, i, d');
      assert ys == [ys[0]] + ys[1..];
      d := [i] + d';
    }
  }

  lemma PermutationLength<T>(xs: seq<T>, ys: seq<T>)
    requires multiset(ys) == multiset(xs)
    ensures |ys| == |xs|
  {
    assert |ys| == |multiset(ys)| == |multiset(xs)| == |xs|;
  }

  /** Where the first element of a reordering sits in the original. */
  lemma HeadIndex<T>(xs: seq<T>, ys: seq<T>) returns (i: nat)
    requires multiset(ys) == multiset(xs) && ys != []
    ensures i < |xs| && xs[i] == ys[0]
  {
    assert ys[0] in multiset(xs);
    i :| 0 <= i < |xs| && xs[i] == ys[0];
  }

  lemma ShuffleCons<T>(xs: seq<T>, i: nat, d': Draw)
    requires i < |xs|
    ensures Shuffle(xs, [i] + d') == [xs[i]] + Shuffle(Rm(xs, i), d')
  {
    var d := [i] + d';
    assert Pick(d, |xs|) == i && Rest(d) == d';
  }

  lemma RestPermutation<T>(xs: seq<T>, ys: seq<T>, i: nat)
    requires multiset(ys) == multiset(xs) && i < |xs| && 0 < |ys| && xs[i] == ys[0]
    ensures multiset(ys[1..]) == multiset(Rm(xs, i))
  {
    assert ys == [ys[0]] + ys[1..];
    assert multiset(ys) == multiset{ys[0]} + multiset(ys[1..]);
    var rest := Rm(xs, i);
    forall x ensures multiset(ys[1..])[x] == multiset(rest)[x] {
      assert (multiset(rest) + multiset{ys[0]})[x] == (multiset(ys[1..]) + multiset{ys[0]})[x];
    }
  }

  /** `ss.flat()`: the lists one after another. */
  function Flatten<T>(ss: seq<seq<T>>): seq<T>
  {
    if ss == [] then [] else ss[0] + Flatten(ss[1..])
  }

  lemma {:induction false} FlattenAppend<T>(a: seq<seq<T>>, b: seq<seq<T>>)
    ensures Flatten(a + b) == Flatten(a) + Flatten(b)
    decreases |a|
  {
    if a != [] {
      assert (a + b)[0] == a[0];
      assert (a + b)[1..] == a[1..] + b;
      FlattenAppend(a[1..], b);
      calc {
        Flatten(a + b);
        a[0] + Flatten(a[1..] + b);
        a[0] + (Flatten(a[1..]) + Flatten(b));
        (a[0] + Flatten(a[1..])) + Flatten(b);
      }
    } else {
      assert a + b == b;
    }
  }

  /** No element occurs twice. */
  predicate Distinct<T(==)>(xs: seq<T>)
  {
    forall i, j :: 0 <= i < j < |xs| ==> xs[i] != xs[j]
  }

  /** The position of the last occurrence of `x`: the one a later `map[key] = value`
      leaves standing. */
  function LastIndex<T(==)>(xs: seq<T>, x: T): (i: nat)
    requires x in xs
    ensures i < |xs| && xs[i] == x
    ensures forall j :: i < j < |xs| ==> xs[j] != x
  {
    if xs[|xs| - 1] == x then |xs| - 1 else LastIndex(xs[..|xs| - 1], x)
  }

  /** An occurrence with none after it is the last one. */
  lemma LastIndexIs<T>(xs: seq<T>, i: nat)
    requires i < |xs| && forall j :: i < j < |xs| ==> xs[j] != xs[i]
    ensures LastIndex(xs, xs[i]) == i
  {
  }

  /** In a list without repetitions the last occurrence is the only one. */
  lemma LastIndexDistinct<T>(xs: seq<T>, i: nat)
    requires Distinct(xs) && i < |xs|
    ensures LastIndex(xs, xs[i]) == i
  {
  }

  lemma {:induction false} FlattenMember<T>(ss: seq<seq<T>>, x: T)
    requires x in Flatten(ss)
    ensures exists i :: 0 <= i < |ss| && x in ss[i]
    decreases |ss|
  {
    if x !in ss[0] {
      FlattenMember(ss[1..], x);
      var i :| 0 <= i < |ss[1..]| && x in ss[1..][i];
      assert x in ss[i + 1];
    }
  }

  /** The draws the model hands out in turn; past the supplied ones it uses the
      empty draw. */
  function NextDraw(rng: seq<Draw>, k: nat): Draw
  {
    if k < |rng| then rng[k] else []
  }

  /** A click on a chip or checkbox: drop `s` if present, otherwise append it
      (`p.includes(s) ? p.filter((x) => x !== s) : [...p, s]`). */
  function Toggled<T(==,!new)>(p: seq<T>, s: T): (r: seq<T>)
    ensures s in r <==> s !in p
    ensures forall x :: x != s ==> (x in r <==> x in p)
    ensures Distinct(p) ==> Distinct(r)
    ensures s !in p ==> r == p + [s]
    ensures s in p ==> Subsequence(r, p) && |r| < |p|
  {
    if s in p then Without(p, s) else p + [s]
  }

  /** Clicking the same item twice restores every item's membership. */
  lemma ToggledTwice<T(!new)>(p: seq<T>, s: T)
    ensures forall x :: x in Toggled(Toggled(p, s), s) <==> x in p
  {
  }

  /** `a` is `b` with some elements dropped and the rest kept in their order. */
  predicate Subsequence<T(==)>(a: seq<T>, b: seq<T>)
    decreases |b|
  {
    a == [] || (b != [] && ((a[0] == b[0] && Subsequence(a[1..], b[1..])) || Subsequence(a, b[1..])))
  }

  /** `p.filter((x) => x !== s)`. */
  function Without<T(==,!new)>(p: seq<T>, s: T): (r: seq<T>)
    ensures forall x :: x in r <==> x in p && x != s
    ensures Distinct(p) ==> Distinct(r)
    ensures |r| <= |p|
    ensures Subsequence(r, p)
    ensures s !in p ==> r == p
    ensures s in p ==> |r| < |p|
  {
    if p == [] then []
    else if p[0] == s then Without(p[1..], s)
    else
      var rest := Without(p[1..], s);
      assert p == [p[0]] + p[1..];
      assert p[0] !in p[1..] ==> p[0] !in rest;
      assert ([p[0]] + rest)[1..] == rest;
      [p[0]] + rest
  }

  /** The filter works element by element, so it keeps the order of the parts. */
  lemma {:induction false} WithoutAppend<T(!new)>(a: seq<T>, b: seq<T>, s: T)
    ensures Without(a + b, s) == Without(a, s) + Without(b, s)
  {
    if a != [] {
      assert (a + b)[0] == a[0] && (a + b)[1..] == a[1..] + b;
      WithoutAppend(a[1..], b, s);
    } else {
      assert a + b == b;
    }
  }

  /** A subset is no larger. */
  lemma SubsetCard<T>(a: set<T>, b: set<T>)
    requires a <= b
    ensures |a| <= |b|
  {
    if a != {} {
      var x :| x in a;
      SubsetCard(a - {x}, b - {x});
    }
  }

  /** A subset of the same size is the whole set. */
  lemma SubsetSameCard<T>(a: set<T>, b: set<T>)
    requires a <= b && |a| == |b|
    ensures a == b
  {
    if a != b {
      var x :| x in b && x !in a;
      SubsetCard(a, b - {x});
    }
  }
}
