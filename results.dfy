/** The results page (src/app/results/page.tsx): what it shows for the record `fin`
    stored — the grade, the time taken, the section bars, the Review button and the
    review cards of the wrong answers. */
module ResultsPage {
  import opened Wrappers
  import opened Percent
  import opened Text
  import opened Passages
  import opened Scoring

  /** The stored record: `fin`'s results with the seconds the quiz took. */
  datatype Stored = Stored(res: Results, timeSpent: nat)

  datatype Grade = Excellent | Good | Pass | NeedsWork

  /** `gr` (line 44). */
  function GradeOf(p: int): (g: Grade)
    ensures g == Excellent <==> p >= 90
    ensures g == Good <==> 75 <= p < 90
    ensures g == Pass <==> 60 <= p < 75
    ensures g == NeedsWork <==> p < 60
  {
    if p >= 90 then Excellent else if p >= 75 then Good else if p >= 60 then Pass else NeedsWork
  }

  /** `fT(s)`: whole minutes and the remaining seconds (line 45). */
  function FormatTime(s: nat): (r: string)
    ensures exists m: nat, sec: nat :: sec < 60 && 60 * m + sec == s && r == Dec(m) + "m " + Dec(sec) + "s"
  {
    var m, sec := s / 60, s % 60;
    assert 60 * m + sec == s;
    Dec(m) + "m " + Dec(sec) + "s"
  }

  /** Different times are shown differently. */
  lemma FormatTimeInjective(s: nat, s': nat)
    requires FormatTime(s) == FormatTime(s')
    ensures s == s'
  {
    var m, sec := s / 60, s % 60;
    var m', sec' := s' / 60, s' % 60;
    assert FormatTime(s) == Dec(m) + "m " + Dec(sec) + "s";
    assert FormatTime(s') == Dec(m') + "m " + Dec(sec') + "s";
    TimeTextInjective(m, sec, m', sec');
  }

  lemma TimeTextInjective(m: nat, sec: nat, m': nat, sec': nat)
    requires Dec(m) + "m " + Dec(sec) + "s" == Dec(m') + "m " + Dec(sec') + "s"
    ensures m == m' && sec == sec'
  {
    var x, y, x', y' := Dec(m), Dec(sec), Dec(m'), Dec(sec');
    Regroup(x, y);
    Regroup(x', y');
    DigitsPrefix(x, " " + y + "s", x', " " + y' + "s", 'm');
    DigitsPrefix(y, "", y', "", 's');
    DecInjective(m, m');
    DecInjective(sec, sec');
  }

  lemma Regroup(x: string, y: string)
    ensures x + "m " + y + "s" == x + ['m'] + (" " + y + "s")
    ensures (" " + y + "s")[1..] == y + ['s'] + ""
  {
  }

  /** Where the shorter prefix ends, one side holds `c` and the other a character of
      the longer prefix. */
  lemma Seam(a: string, c: char, b: string, a': string, b': string)
    ensures (a + [c] + b)[|a|] == c
    ensures |a| < |a'| ==> (a' + [c] + b')[|a|] == a'[|a|]
  {
  }

  /** A run of digits ended by a non-digit `c` is read back off the front of a string. */
  lemma DigitsPrefix(a: string, b: string, a': string, b': string, c: char)
    requires !IsDigit(c)
    requires forall i :: 0 <= i < |a| ==> IsDigit(a[i])
    requires forall i :: 0 <= i < |a'| ==> IsDigit(a'[i])
    requires a + [c] + b == a' + [c] + b'
    ensures a == a' && b == b'
  {
    var t, t' := a + [c] + b, a' + [c] + b';
    if |a| < |a'| {
      Seam(a, c, b, a', b');
      assert false;
    } else if |a'| < |a| {
      Seam(a', c, b', a, b);
      assert false;
    }
    assert a == t[..|a|] && a' == t'[..|a'|];
    assert b == t[|a| + 1..] && b' == t'[|a'| + 1..];
  }

  /** The bar colour of a section of the breakdown (line 114). */
  function BarColour(x: SectionScore): (c: Colour)
    ensures c == Green <==> x.percentage >= 75
    ensures c == Accent <==> 50 <= x.percentage < 75
    ensures c == Red <==> x.percentage < 50
  {
    Band(x.percentage)
  }

  /** The Review button is enabled only when there is something to review (line 119). */
  predicate ReviewEnabled(r: Results)
  {
    |r.incorrect| > 0
  }

  /** For a quiz whose answers all belong to its questions, Review is enabled exactly
      when some answer was wrong. */
  lemma ReviewEnabledExactly(grp: seq<Group>, aMap: AnswerMap)
    requires DistinctIds(Flat(grp)) && aMap.Keys <= Ids(Flat(grp))
    ensures ReviewEnabled(Summary(grp, aMap)) <==> CorrectCount(aMap) < |aMap|
  {
    BreakdownCoversAnswers(grp, aMap);
  }

  /** What the page shows. */
  datatype View =
    | NoResults
    | Shown(grade: Grade, correct: nat, answered: nat, time: string, bars: seq<Colour>, review: bool)

  /** A missing or unreadable record (modelled as `None`) gives the "No results" view
      (lines 25-41); otherwise the summary. */
  function ViewOf(stored: Option<Stored>): (v: View)
    ensures stored.None? <==> v == NoResults
    ensures stored.Some? ==> var r := stored.value.res;
      v.grade == GradeOf(r.percentage) && v.correct == r.totalCorrect && v.answered == r.totalQuestions &&
      v.time == FormatTime(stored.value.timeSpent) && v.review == ReviewEnabled(r) &&
      |v.bars| == |r.breakdown| && forall i :: 0 <= i < |v.bars| ==> v.bars[i] == Band(r.breakdown[i].percentage)
  {
    match stored
    case None => NoResults
    case Some(st) =>
      var r := st.res;
      Shown(GradeOf(r.percentage), r.totalCorrect, r.totalQuestions, FormatTime(st.timeSpent),
        seq(|r.breakdown|, i requires 0 <= i < |r.breakdown| => BarColour(r.breakdown[i])), ReviewEnabled(r))
  }

  /** The text fields of a wrong answer as `fin` stores it: the question row's own
      snake_case keys, spread, plus `userAnswer` (quiz page line 195). */
  function StoredFields(x: Incorrect): (o: map<string, string>)
    ensures o.Keys == {"section", "passage_text", "question_text", "correct_answer", "explanation", "userAnswer"}
  {
    map["section" := x.q.section, "passage_text" := x.q.passage, "question_text" := x.q.text,
        "correct_answer" := x.q.correct, "explanation" := x.q.explanation, "userAnswer" := x.userAnswer]
  }

  function Field(o: map<string, string>, k: string): Option<string>
  {
    if k in o then Some(o[k]) else None
  }

  /** What a review card shows; `None` is a field that reads as `undefined`. */
  datatype Card = Card(section: Option<string>, passage: Option<string>, question: Option<string>,
                       correctAnswer: Option<string>, userAnswer: Option<string>, explanation: Option<string>)

  /** How an option is drawn on a card: green with a tick, red with a cross, or plain. */
  datatype Mark = Right | Wrong | Plain

  function MarkOf(c: Card, o: string): Mark
  {
    if c.correctAnswer == Some(o) then Right else if c.userAnswer == Some(o) then Wrong else Plain
  }

  /** The card as the page reads it (lines 59-78): camelCase keys. */
  function CardAsWritten(o: map<string, string>): Card
  {
    Card(Field(o, "section"), Field(o, "passageText"), Field(o, "questionText"),
         Field(o, "correctAnswer"), Field(o, "userAnswer"), Field(o, "explanation"))
  }

  /** As written, every review card loses the passage, the question and the correct
      answer, so no option is ever marked right. */
  lemma CardAsWrittenLosesFields(x: Incorrect, o: string)
    ensures var c := CardAsWritten(StoredFields(x));
      c.passage == None && c.question == None && c.correctAnswer == None && MarkOf(c, o) != Right
  {
  }

  /** The card reading the keys `fin` writes. */
  function CardOf(o: map<string, string>): Card
  {
    Card(Field(o, "section"), Field(o, "passage_text"), Field(o, "question_text"),
         Field(o, "correct_answer"), Field(o, "userAnswer"), Field(o, "explanation"))
  }

  /** Read with the keys it was written with, a card shows the wrong answer in full:
      the question's correct option marked right and the answer given marked wrong. */
  lemma CardRoundTrip(x: Incorrect, o: string)
    ensures CardOf(StoredFields(x)) == Card(Some(x.q.section), Some(x.q.passage), Some(x.q.text),
      Some(x.q.correct), Some(x.userAnswer), Some(x.q.explanation))
    ensures o == x.q.correct <==> MarkOf(CardOf(StoredFields(x)), o) == Right
    ensures o != x.q.correct && o == x.userAnswer ==> MarkOf(CardOf(StoredFields(x)), o) == Wrong
  {
  }
}
