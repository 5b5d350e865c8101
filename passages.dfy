/** Questions and their grouping by passage (quiz page, lines 96-101 and 120-127):
    a `Map` from passage key to the questions under it, keyed in order of first
    appearance, with every question lacking a passage filed under "General". */
module Passages {
  import opened Seqs

  datatype Question = Question(
    id: int, section: string, passage: string, text: string,
    options: seq<string>, correct: string, explanation: string)

  /** `q.passage_text || "General"`. */
  function Key(q: Question): string
  {
    if q.passage == "" then "General" else q.passage
  }

  /** One entry of the grouping map: a passage key and its questions. */
  datatype Group = Group(key: string, qs: seq<Question>)

  /** The questions of `qs` filed under `k`, in their order in `qs`. */
  function WithKey(qs: seq<Question>, k: string): (r: seq<Question>)
    ensures |r| <= |qs|
    ensures forall q :: q in r ==> q in qs && Key(q) == k
    ensures forall q :: q in qs && Key(q) == k ==> q in r
  {
    if qs == [] then []
    else
      var init, last := qs[..|qs| - 1], qs[|qs| - 1];
      assert qs == init + [last];
      WithKey(init, k) + (if Key(last) == k then [last] else [])
  }

  /** The distinct passage keys of `qs`, in order of first appearance. */
  function KeysOf(qs: seq<Question>): (ks: seq<string>)
    ensures Distinct(ks)
    ensures forall k :: k in ks <==> exists q :: q in qs && Key(q) == k
  {
    if qs == [] then []
    else
      var init, last := qs[..|qs| - 1], qs[|qs| - 1];
      assert qs == init + [last];
      var ks := KeysOf(init);
      if Key(last) in ks then ks else ks + [Key(last)]
  }

  /** The grouping the `Map` ends up holding: one group per key, in first-appearance
      order, each listing that key's questions in their order in `qs`. */
  function Grouped(qs: seq<Question>): (gs: seq<Group>)
    ensures |gs| == |KeysOf(qs)|
    ensures forall j :: 0 <= j < |gs| ==> gs[j] == Group(KeysOf(qs)[j], WithKey(qs, KeysOf(qs)[j]))
  {
    var ks := KeysOf(qs);
    seq(|ks|, j requires 0 <= j < |ks| => Group(ks[j], WithKey(qs, ks[j])))
  }

  /** The questions of all groups, one group after another: `.flat()` of the values. */
  function Flat(gs: seq<Group>): seq<Question>
  {
    if gs == [] then [] else gs[0].qs + Flat(gs[1..])
  }

  /** The ids of a list of questions. */
  function Ids(s: seq<Question>): set<int>
  {
    set q | q in s :: q.id
  }

  /** No id occurs twice. */
  predicate DistinctIds(s: seq<Question>)
  {
    forall i, j :: 0 <= i < j < |s| ==> s[i].id != s[j].id
  }

  predicate DistinctKeys(gs: seq<Group>)
  {
    forall i, j :: 0 <= i < j < |gs| ==> gs[i].key != gs[j].key
  }

  /** The shape a grouping map has: distinct keys, and every question under its own key. */
  predicate WellGrouped(gs: seq<Group>)
  {
    DistinctKeys(gs) && forall j, q :: 0 <= j < |gs| && q in gs[j].qs ==> Key(q) == gs[j].key
  }

  /** Every group holds at least one question. */
  predicate NonEmptyGroups(gs: seq<Group>)
  {
    forall j :: 0 <= j < |gs| ==> gs[j].qs != []
  }

  /** Questions sharing a passage key stand next to each other. */
  predicate Contiguous(s: seq<Question>)
  {
    forall i, j, l :: 0 <= i < j < l < |s| && Key(s[i]) == Key(s[l]) ==> Key(s[j]) == Key(s[i])
  }

  /** The grouping is well formed, has no empty group, and holds each question of `qs`
      under its key. */
  lemma GroupedShape(qs: seq<Question>)
    ensures WellGrouped(Grouped(qs)) && NonEmptyGroups(Grouped(qs))
    ensures forall q :: q in qs ==> exists j :: 0 <= j < |Grouped(qs)| && q in Grouped(qs)[j].qs
  {
    var gs, ks := Grouped(qs), KeysOf(qs);
    forall j | 0 <= j < |gs| ensures gs[j].qs != [] {
      assert ks[j] in ks;
      var q :| q in qs && Key(q) == ks[j];
      assert q in gs[j].qs;
    }
    forall q | q in qs ensures exists j :: 0 <= j < |gs| && q in gs[j].qs {
      assert Key(q) in ks;
      var j :| 0 <= j < |ks| && ks[j] == Key(q);
      assert q in gs[j].qs;
    }
  }

  lemma FlatSnoc(gs: seq<Group>, g: Group)
    ensures Flat(gs + [g]) == Flat(gs) + g.qs
  {
    if gs == [] {
      assert [g][1..] == [];
    } else {
      assert (gs + [g])[1..] == gs[1..] + [g];
      FlatSnoc(gs[1..], g);
    }
  }

  lemma {:induction false} FlatAppend(a: seq<Group>, b: seq<Group>)
    ensures Flat(a + b) == Flat(a) + Flat(b)
    decreases |a|
  {
    if a == [] {
      assert a + b == b;
    } else {
      assert (a + b)[0] == a[0] && (a + b)[1..] == a[1..] + b;
      FlatAppend(a[1..], b);
    }
  }

  /** Appending `q` to one group adds `q` to the flattened questions. */
  lemma {:induction false} FlatExtend(gs: seq<Group>, j: nat, q: Question)
    requires j < |gs|
    ensures multiset(Flat(gs[j := Group(gs[j].key, gs[j].qs + [q])])) == multiset(Flat(gs)) + multiset{q}
    decreases |gs|
  {
    var gs' := gs[j := Group(gs[j].key, gs[j].qs + [q])];
    if j == 0 {
      assert gs'[1..] == gs[1..];
    } else {
      assert gs'[1..] == gs[1..][j - 1 := Group(gs[j].key, gs[j].qs + [q])];
      FlatExtend(gs[1..], j - 1, q);
    }
  }

  lemma WithKeySnoc(s: seq<Question>, q: Question, k: string)
    ensures WithKey(s + [q], k) == WithKey(s, k) + (if Key(q) == k then [q] else [])
  {
    assert (s + [q])[..|s|] == s;
  }

  lemma WithKeyNone(s: seq<Question>, k: string)
    requires k !in KeysOf(s)
    ensures WithKey(s, k) == []
  {
  }

  lemma {:induction false} WithKeyAppend(a: seq<Question>, b: seq<Question>, k: string)
    ensures WithKey(a + b, k) == WithKey(a, k) + WithKey(b, k)
    decreases |b|
  {
    if b == [] {
      assert a + b == a;
    } else {
      var init, last := b[..|b| - 1], b[|b| - 1];
      assert b == init + [last];
      assert a + b == (a + init) + [last];
      WithKeyAppend(a, init, k);
      WithKeySnoc(a + init, last, k);
      WithKeySnoc(init, last, k);
    }
  }

  /** Filtering by a key every element has keeps everything; by a key none has, nothing. */
  lemma {:induction false} WithKeyUniform(s: seq<Question>, k: string, k': string)
    requires forall q :: q in s ==> Key(q) == k
    ensures WithKey(s, k) == s
    ensures k' != k ==> WithKey(s, k') == []
    decreases |s|
  {
    if s != [] {
      var init, last := s[..|s| - 1], s[|s| - 1];
      assert s == init + [last];
      WithKeyUniform(init, k, k');
    }
  }

  /** How one more question changes the grouping: it joins the group of its key, or
      opens a new group at the end. */
  lemma GroupedSnoc(s: seq<Question>, q: Question)
    ensures var gs, k := Grouped(s), Key(q);
      (forall j :: 0 <= j < |gs| && gs[j].key == k ==> Grouped(s + [q]) == gs[j := Group(k, gs[j].qs + [q])]) &&
      ((forall j :: 0 <= j < |gs| ==> gs[j].key != k) ==> Grouped(s + [q]) == gs + [Group(k, [q])])
  {
    var s' := s + [q];
    assert s'[..|s'| - 1] == s && s'[|s'| - 1] == q;
    if Key(q) in KeysOf(s) {
      assert KeysOf(s') == KeysOf(s);
      forall j | 0 <= j < |Grouped(s)| && Grouped(s)[j].key == Key(q) {
        GroupedJoin(s, q, j);
      }
    } else {
      GroupedOpen(s, q);
    }
  }

  lemma GroupedJoin(s: seq<Question>, q: Question, j: nat)
    requires KeysOf(s + [q]) == KeysOf(s)
    requires j < |KeysOf(s)| && KeysOf(s)[j] == Key(q)
    ensures Grouped(s + [q]) == Grouped(s)[j := Group(Key(q), Grouped(s)[j].qs + [q])]
  {
    var gs, gs' := Grouped(s), Grouped(s + [q]);
    var target := gs[j := Group(Key(q), gs[j].qs + [q])];
    forall m | 0 <= m < |gs| ensures gs'[m] == target[m] {
      WithKeySnoc(s, q, KeysOf(s)[m]);
    }
  }

  lemma GroupedOpen(s: seq<Question>, q: Question)
    requires Key(q) !in KeysOf(s)
    ensures Grouped(s + [q]) == Grouped(s) + [Group(Key(q), [q])]
  {
    var s' := s + [q];
    assert s'[..|s'| - 1] == s && s'[|s'| - 1] == q;
    var ks := KeysOf(s);
    assert KeysOf(s') == ks + [Key(q)];
    var gs, gs' := Grouped(s), Grouped(s');
    var target := gs + [Group(Key(q), [q])];
    forall m | 0 <= m < |gs'| ensures gs'[m] == target[m] {
      WithKeySnoc(s, q, KeysOf(s')[m]);
      if m == |ks| {
        WithKeyNone(s, Key(q));
      }
    }
  }

  /** Grouping only rearranges: the groups hold exactly the questions of `qs`. */
  lemma {:induction false} GroupedPermutation(qs: seq<Question>)
    ensures multiset(Flat(Grouped(qs))) == multiset(qs)
    decreases |qs|
  {
    if qs != [] {
      var init, q := qs[..|qs| - 1], qs[|qs| - 1];
      assert qs == init + [q];
      GroupedPermutation(init);
      GroupedSnoc(init, q);
      var gs := Grouped(init);
      if j :| 0 <= j < |gs| && gs[j].key == Key(q) {
        FlatExtend(gs, j, q);
      } else {
        FlatSnoc(gs, Group(Key(q), [q]));
      }
    }
  }

  /** The `forEach` that fills the grouping map (lines 96-101, again at 120-125). The
      map is a list of groups in insertion order; `has`/`get` is the inner search. */
  method GroupBy(qs: seq<Question>) returns (gs: seq<Group>)
    ensures gs == Grouped(qs)
  {
    gs := [];
    var i := 0;
    while i < |qs|
      invariant 0 <= i <= |qs|
      invariant gs == Grouped(qs[..i])
    {
      var q := qs[i];
      var k := Key(q);
      var j := 0;
      while j < |gs| && gs[j].key != k
        invariant 0 <= j <= |gs|
        invariant forall l :: 0 <= l < j ==> gs[l].key != k
      {
        j := j + 1;
      }
      GroupedSnoc(qs[..i], q);
      assert qs[..i + 1] == qs[..i] + [q];
      if j < |gs| {
        gs := gs[j := Group(k, gs[j].qs + [q])];
      } else {
        gs := gs + [Group(k, [q])];
      }
      i := i + 1;
    }
    assert qs[..i] == qs;
  }

  /** Every question of a well-formed grouping's flattening sits under a key of that
      grouping. */
  lemma {:induction false} FlatKeys(gs: seq<Group>, q: Question)
    requires WellGrouped(gs) && q in Flat(gs)
    ensures exists j :: 0 <= j < |gs| && gs[j].key == Key(q) && q in gs[j].qs
    decreases |gs|
  {
    if q !in gs[0].qs {
      assert WellGrouped(gs[1..]);
      FlatKeys(gs[1..], q);
      var j :| 0 <= j < |gs[1..]| && gs[1..][j].key == Key(q) && q in gs[1..][j].qs;
      assert gs[j + 1].key == Key(q);
    }
  }

  /** Flattening a well-formed grouping keeps each passage together. */
  lemma {:induction false} FlatContiguous(gs: seq<Group>)
    requires WellGrouped(gs)
    ensures Contiguous(Flat(gs))
    decreases |gs|
  {
    if gs != [] {
      var head, rest := gs[0].qs, Flat(gs[1..]);
      assert WellGrouped(gs[1..]);
      FlatContiguous(gs[1..]);
      var s := Flat(gs);
      assert s == head + rest;
      forall i, j, l | 0 <= i < j < l < |s| && Key(s[i]) == Key(s[l]) ensures Key(s[j]) == Key(s[i]) {
        if i < |head| && l >= |head| {
          assert s[l] in rest;
          FlatKeys(gs[1..], s[l]);
          assert false;
        } else if l < |head| {
          assert s[j] in gs[0].qs && s[i] in gs[0].qs;
        } else {
          assert s[i] == rest[i - |head|] && s[j] == rest[j - |head|] && s[l] == rest[l - |head|];
        }
      }
    }
  }

  /** The groups left after taking out position `i` are the others, in order. */
  lemma RmAt(gs: seq<Group>, i: nat, m: nat)
    requires i < |gs| && m < |gs| - 1
    ensures Rm(gs, i)[m] == gs[if m < i then m else m + 1]
  {
  }

  lemma RmWellGrouped(gs: seq<Group>, i: nat)
    requires WellGrouped(gs) && i < |gs|
    ensures WellGrouped(Rm(gs, i))
    ensures forall m :: 0 <= m < |Rm(gs, i)| ==> Rm(gs, i)[m].key != gs[i].key
  {
    var rest := Rm(gs, i);
    forall a, b | 0 <= a < b < |rest| ensures rest[a].key != rest[b].key {
      RmAt(gs, i, a);
      RmAt(gs, i, b);
    }
    forall j, q | 0 <= j < |rest| && q in rest[j].qs ensures Key(q) == rest[j].key {
      RmAt(gs, i, j);
    }
    forall m | 0 <= m < |rest| ensures rest[m].key != gs[i].key {
      RmAt(gs, i, m);
    }
  }

  /** A reordering of a well-formed grouping is well formed. */
  lemma {:induction false} ShuffleWellGrouped(gs: seq<Group>, d: Draw)
    requires WellGrouped(gs)
    ensures WellGrouped(Shuffle(gs, d))
    decreases |gs|
  {
    if gs != [] {
      var i := Pick(d, |gs|);
      var rest := Rm(gs, i);
      RmWellGrouped(gs, i);
      ShuffleWellGrouped(rest, Rest(d));
      var tail := Shuffle(rest, Rest(d));
      forall m | 0 <= m < |tail| ensures tail[m].key != gs[i].key {
        assert tail[m] in multiset(rest);
      }
      var out := Shuffle(gs, d);
      assert out == [gs[i]] + tail;
      forall a, b | 0 <= a < b < |out| ensures out[a].key != out[b].key {
        if a > 0 {
          assert out[a] == tail[a - 1];
        }
        assert out[b] == tail[b - 1];
      }
      forall j, q | 0 <= j < |out| && q in out[j].qs ensures Key(q) == out[j].key {
        if j > 0 {
          assert out[j] == tail[j - 1];
        }
      }
    }
  }

  lemma FlatRm(gs: seq<Group>, i: nat)
    requires i < |gs|
    ensures multiset(Flat(gs)) == multiset(gs[i].qs) + multiset(Flat(Rm(gs, i)))
  {
    var l, r := gs[..i], gs[i + 1..];
    assert gs == l + ([gs[i]] + r);
    assert Rm(gs, i) == l + r;
    FlatAppend(l, [gs[i]] + r);
    FlatAppend(l, r);
    assert ([gs[i]] + r)[0] == gs[i] && ([gs[i]] + r)[1..] == r;
    var fl, fr := Flat(l), Flat(r);
    assert Flat(gs) == fl + (gs[i].qs + fr);
    assert Flat(Rm(gs, i)) == fl + fr;
    assert multiset(fl + (gs[i].qs + fr)) == multiset(fl) + multiset(gs[i].qs) + multiset(fr);
  }

  /** Reordering the groups reorders the flattened questions. */
  lemma {:induction false} ShuffleFlat(gs: seq<Group>, d: Draw)
    ensures multiset(Flat(Shuffle(gs, d))) == multiset(Flat(gs))
    decreases |gs|
  {
    if gs != [] {
      var i := Pick(d, |gs|);
      var tail := Shuffle(Rm(gs, i), Rest(d));
      ShuffleFlat(Rm(gs, i), Rest(d));
      FlatRm(gs, i);
      var out := Shuffle(gs, d);
      assert out == [gs[i]] + tail;
      assert out[0] == gs[i] && out[1..] == tail;
      assert Flat(out) == gs[i].qs + Flat(tail);
    }
  }
}
