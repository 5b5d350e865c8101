/** The session review page (src/app/review/page.tsx lines 38-84): the attempts of one
    stored session joined with their questions, in attempt order. */
module Review {
  import opened Wrappers
  import opened Seqs
  import opened Passages

  /** One stored attempt row. */
  datatype Row = Row(questionId: int, section: string, selected: string, correct: bool)

  /** A question with the attempt's answer. */
  datatype Item = Item(q: Question, userAnswer: string, correct: bool)

  function QIds(qs: seq<Question>): (ids: seq<int>)
    ensures |ids| == |qs| && forall i :: 0 <= i < |qs| ==> ids[i] == qs[i].id
  {
    if qs == [] then [] else [qs[0].id] + QIds(qs[1..])
  }

  /** `new Map(questions.map((q) => [q.id, q]))`: a later question with the same id
      replaces an earlier one. */
  function QMap(qs: seq<Question>): (m: map<int, Question>)
    ensures m.Keys == set q | q in qs :: q.id
    ensures forall id :: id in m ==> m[id] in qs && m[id].id == id
    ensures forall i :: 0 <= i < |qs| && (forall j :: i < j < |qs| ==> qs[j].id != qs[i].id) ==> m[qs[i].id] == qs[i]
  {
    var ids := QIds(qs);
    QIdsMembers(qs);
    QIdsLast(qs);
    map id | id in ids :: qs[LastIndex(ids, id)]
  }

  lemma QIdsMembers(qs: seq<Question>)
    ensures forall id :: id in QIds(qs) <==> exists q :: q in qs && q.id == id
  {
    var ids := QIds(qs);
    forall id | id in ids ensures exists q :: q in qs && q.id == id {
      var i :| 0 <= i < |ids| && ids[i] == id;
      assert qs[i] in qs;
    }
    forall id | exists q :: q in qs && q.id == id ensures id in ids {
      var q :| q in qs && q.id == id;
      var i :| 0 <= i < |qs| && qs[i] == q;
      assert ids[i] == id;
    }
  }

  /** A question with no later one of the same id holds the last occurrence of its id. */
  lemma QIdsLast(qs: seq<Question>)
    ensures forall i :: 0 <= i < |qs| && (forall j :: i < j < |qs| ==> qs[j].id != qs[i].id) ==>
      qs[i].id in QIds(qs) && LastIndex(QIds(qs), qs[i].id) == i
  {
    var ids := QIds(qs);
    forall i | 0 <= i < |qs| && (forall j :: i < j < |qs| ==> qs[j].id != qs[i].id)
      ensures qs[i].id in ids && LastIndex(ids, qs[i].id) == i
    {
      assert ids[i] == qs[i].id;
      LastIndexIs(ids, i);
    }
  }

  /** The joined list: each attempt whose question was fetched, in attempt order. */
  function Merged(rows: seq<Row>, qMap: map<int, Question>): (items: seq<Item>)
    ensures |items| <= |rows|
  {
    if rows == [] then []
    else
      var a := rows[|rows| - 1];
      Merged(rows[..|rows| - 1], qMap) + (if a.questionId in qMap then [Item(qMap[a.questionId], a.selected, a.correct)] else [])
  }

  /** The `for (const a of attempts)` loop. */
  method Merge(rows: seq<Row>, qMap: map<int, Question>) returns (merged: seq<Item>)
    ensures merged == Merged(rows, qMap)
  {
    merged := [];
    var i := 0;
    while i < |rows|
      invariant 0 <= i <= |rows|
      invariant merged == Merged(rows[..i], qMap)
    {
      var a := rows[i];
      assert rows[..i + 1][..i] == rows[..i];
      if a.questionId in qMap {
        merged := merged + [Item(qMap[a.questionId], a.selected, a.correct)];
      }
      i := i + 1;
    }
    assert rows[..i] == rows;
  }

  /** The item attempt `a` contributes, if its question was fetched. */
  predicate FromRow(x: Item, a: Row, qMap: map<int, Question>)
  {
    a.questionId in qMap && x == Item(qMap[a.questionId], a.selected, a.correct)
  }

  /** The merged list is the attempts, in order, that have a fetched question: item `k`
      comes from attempt `pick[k]`, the positions increase, and no other attempt is
      skipped. */
  lemma {:induction false} MergedOrder(rows: seq<Row>, qMap: map<int, Question>) returns (pick: seq<nat>)
    ensures var items := Merged(rows, qMap);
      |pick| == |items| &&
      (forall k :: 0 <= k < |pick| ==> pick[k] < |rows| && FromRow(items[k], rows[pick[k]], qMap)) &&
      (forall k, l :: 0 <= k < l < |pick| ==> pick[k] < pick[l]) &&
      (forall i :: 0 <= i < |rows| && rows[i].questionId in qMap ==> i in pick)
  {
    if rows == [] {
      pick := [];
    } else {
      var n := |rows| - 1;
      var init := rows[..n];
      var p := MergedOrder(init, qMap);
      assert forall i :: 0 <= i < n ==> rows[i] == init[i];
      if rows[n].questionId in qMap {
        pick := p + [n];
      } else {
        pick := p;
      }
    }
  }

  /** The page's state once loading is over. */
  datatype State = Failed | Loaded(items: seq<Item>)

  /** The fetch effect. `rowsRes` and `qsRes` are the two responses, `None` for a
      request that failed or threw. */
  method Load(sessionId: Option<string>, rowsRes: Option<seq<Row>>, qsRes: Option<seq<Question>>)
    returns (st: State)
    ensures sessionId.None? || sessionId == Some("") ==> st == Failed
    ensures rowsRes.None? || rowsRes == Some([]) ==> st == Failed
    ensures sessionId.Some? && sessionId != Some("") && rowsRes.Some? && rowsRes != Some([]) ==>
      st == if qsRes.None? then Failed else Loaded(Merged(rowsRes.value, QMap(qsRes.value)))
  {
    if sessionId.None? || sessionId == Some("") {
      return Failed;
    }
    if rowsRes.None? || rowsRes == Some([]) {
      return Failed;
    }
    if qsRes.None? {
      return Failed;
    }
    var merged := Merge(rowsRes.value, QMap(qsRes.value));
    st := Loaded(merged);
  }

  /** The fetch effect as written: the questions are requested with a GET (line 52), but
      src/app/api/questions/route.ts defines only a POST handler, so the response is a
      405, `qRes.ok` is false and the page always ends in its error state. */
  method LoadAsWritten(sessionId: Option<string>, rowsRes: Option<seq<Row>>) returns (st: State)
    ensures st == Failed
  {
    var qsRes: Option<seq<Question>> := None;
    st := Load(sessionId, rowsRes, qsRes);
  }

  /** "No session data found" shows for a failure or an empty join (line 84). */
  predicate NoSessionData(st: State)
  {
    st.Failed? || st.items == []
  }

  /** An attempt whose question was fetched shows it with that attempt's answer: the
      review is non-empty exactly when some attempt's question came back. */
  lemma NonEmptyExactly(rows: seq<Row>, qs: seq<Question>)
    ensures Merged(rows, QMap(qs)) != [] <==> exists i :: 0 <= i < |rows| && exists q :: q in qs && q.id == rows[i].questionId
  {
    var qMap := QMap(qs);
    var pick := MergedOrder(rows, qMap);
    if Merged(rows, qMap) != [] {
      var i := pick[0];
      var q := qMap[rows[i].questionId];
    }
  }
}
