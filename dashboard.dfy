/** The dashboard's derived statistics (src/app/dashboard/page.tsx): the access
    countdown, overall accuracy, the Logic Profile calibration counters and progress,
    and the recent-test list. */
module Dashboard {
  import opened Wrappers
  import opened Sections
  import opened Percent
  import opened Text
  import opened Attempts

  /** Overall accuracy over the whole history, 0 for an empty one (lines 93-95). */
  function Accuracy(hist: seq<Attempt>): (p: nat)
    ensures p <= 100
    ensures |hist| == 0 ==> p == 0
    ensures |hist| > 0 ==> p == RoundPct(CorrectTotal(hist), |hist|)
  {
    Pct(CorrectTotal(hist), |hist|)
  }

  /** `sc`: attempts per section, rows with other section names skipped (lines 97-101). */
  method CountAttempts(hist: seq<Attempt>) returns (sc: map<Section, nat>)
    ensures forall s :: s in sc && sc[s] == Tried(hist, s)
  {
    AllDistinct();
    sc := map s | s in All :: 0;
    var i := 0;
    while i < |hist|
      invariant 0 <= i <= |hist|
      invariant forall s :: s in sc
      invariant forall s :: sc[s] == Tried(hist[..i], s)
    {
      assert hist[..i + 1][..i] == hist[..i] && hist[..i + 1][i] == hist[i];
      match Parse(hist[i].section) {
        case Some(s) => sc := sc[s := sc[s] + 1];
        case None =>
      }
      i := i + 1;
    }
    assert hist[..i] == hist;
  }

  /** Attempts per section the profile needs (REQ). */
  const Req: nat := 20

  /** `totC`: calibration progress, each section counting up to `Req`. */
  function TotC(sc: map<Section, nat>, ss: seq<Section>): (n: nat)
    requires forall s :: s in sc
    ensures n <= Req * |ss|
  {
    if ss == [] then 0 else Min(sc[ss[0]], Req) + TotC(sc, ss[1..])
  }

  predicate Unlocked(sc: map<Section, nat>)
    requires forall s :: s in sc
  {
    forall s :: sc[s] >= Req
  }

  /** Progress is full exactly for sections of `ss` that are all at `Req` or beyond. */
  lemma {:induction false} TotCFull(sc: map<Section, nat>, ss: seq<Section>)
    requires forall s :: s in sc
    ensures TotC(sc, ss) == Req * |ss| <==> forall i :: 0 <= i < |ss| ==> sc[ss[i]] >= Req
  {
    if ss != [] {
      TotCFull(sc, ss[1..]);
      assert forall i :: 1 <= i < |ss| ==> ss[i] == ss[1..][i - 1];
    }
  }

  /** `totC` is at most 100, and it is 100 exactly when the profile is unlocked. */
  lemma CalibrationTotal(sc: map<Section, nat>)
    requires forall s :: s in sc
    ensures TotC(sc, All) <= 100
    ensures TotC(sc, All) == 100 <==> Unlocked(sc)
  {
    TotCFull(sc, All);
    IndexAll();
    if forall i :: 0 <= i < |All| ==> sc[All[i]] >= Req {
      forall s ensures sc[s] >= Req {
        assert All[Index(s)] == s;
      }
    }
  }

  /** Per-section ring: `done` capped at `Req` and shown as a percentage of it: five
      points per attempt (lines 684-685). */
  function PctDone(count: nat): (p: nat)
    ensures p == 5 * Min(count, Req) && p <= 100
  {
    var done := Min(count, Req);
    DivIs(200 * done + Req, 2 * Req, 5 * done);
    RoundPct(done, Req)
  }

  /** The access countdown `hh:mm:ss` for `df` ms left (lines 34-45). */
  function Countdown(df: int): (r: string)
    ensures df <= 0 ==> r == "00:00:00"
    ensures df > 0 ==> exists h: nat, m: nat, s: nat ::
      m < 60 && s < 60 && r == Pad2(h) + ":" + Pad2(m) + ":" + Pad2(s) &&
      3600000 * h + 60000 * m + 1000 * s <= df < 3600000 * h + 60000 * m + 1000 * s + 1000
  {
    if df <= 0 then "00:00:00"
    else
      var h, m, s := df / 3600000, (df % 3600000) / 60000, (df % 60000) / 1000;
      ClockParts(df);
      Pad2(h) + ":" + Pad2(m) + ":" + Pad2(s)
  }

  lemma ClockParts(df: nat)
    ensures var h, m, s := df / 3600000, (df % 3600000) / 60000, (df % 60000) / 1000;
      m < 60 && s < 60 &&
      3600000 * h + 60000 * m + 1000 * s <= df < 3600000 * h + 60000 * m + 1000 * s + 1000
  {
    var h, r := df / 3600000, df % 3600000;
    var m, r2 := r / 60000, r % 60000;
    var s := r2 / 1000;
    DivBounds(r2, 1000);
    QuotientBelow(r, 60000, 60);
    assert df == 60000 * (60 * h + m) + r2;
    DivIs(df, 60000, 60 * h + m);
    assert df % 60000 == r2;
    QuotientBelow(r2, 1000, 60);
  }

  /** An expired pass shows zeros; a live one reads back as hours, minutes and seconds. */
  lemma CountdownReadsBack(df: int)
    requires df > 0
    ensures exists h: nat, m: nat, s: nat ::
      Split(Countdown(df), ':') == [Pad2(h), Pad2(m), Pad2(s)] &&
      ParseNat(Pad2(h)) == Some(h) && ParseNat(Pad2(m)) == Some(m) && ParseNat(Pad2(s)) == Some(s) &&
      m < 60 && s < 60 && 3600000 * h + 60000 * m + 1000 * s <= df < 3600000 * h + 60000 * m + 1000 * s + 1000
  {
    var h, m, s := df / 3600000, (df % 3600000) / 60000, (df % 60000) / 1000;
    ClockParts(df);
    assert Countdown(df) == Pad2(h) + ":" + Pad2(m) + ":" + Pad2(s);
    ClockSplit(Pad2(h), Pad2(m), Pad2(s));
  }

  /** Three colon-free fields joined with ':' split back into those fields. */
  lemma ClockSplit(a: string, b: string, c: string)
    requires ParseNat(a).Some? && ParseNat(b).Some? && ParseNat(c).Some?
    ensures Split(a + ":" + b + ":" + c, ':') == [a, b, c]
  {
    DigitsNoColon(a);
    DigitsNoColon(b);
    DigitsNoColon(c);
    SplitJoin([a, b, c], ':');
    assert Join([a, b, c], ':') == a + ":" + b + ":" + c by {
      assert Join([c], ':') == c;
      assert [a, b, c][1..] == [b, c];
      assert [b, c][1..] == [c];
    }
  }

  lemma DigitsNoColon(p: string)
    requires ParseNat(p).Some?
    ensures ':' !in p
  {
    forall i | 0 <= i < |p|
      ensures p[i] != ':'
    {
      assert IsDigit(p[i]);
    }
  }

  /** A past session's score, 0 for one without questions (lines 814-817). */
  function SessionPct(score: nat, total: nat): (p: nat)
    ensures total == 0 ==> p == 0
    ensures total > 0 ==> p == RoundPct(score, total)
    ensures score <= total ==> p <= 100
  {
    Pct(score, total)
  }

  /** The colour of a session's score (line 854). */
  function SessionColour(score: nat, total: nat): (c: Colour)
    ensures c == Green <==> SessionPct(score, total) >= 75
    ensures c == Accent <==> 50 <= SessionPct(score, total) < 75
    ensures c == Red <==> SessionPct(score, total) < 50
  {
    Band(SessionPct(score, total))
  }

  /** The recent-tests list keeps the three newest sessions (line 126). */
  function RecentSessions<T>(sessions: seq<T>): (r: seq<T>)
    ensures |r| == Min(3, |sessions|) && |r| <= 3
    ensures r == sessions[..|r|]
  {
    sessions[..Min(3, |sessions|)]
  }
}
