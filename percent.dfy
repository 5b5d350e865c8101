/** Percentages as the pages display them: Math.round(100 * k / n), written with integers.
    Math.round rounds halves up, so the displayed value is floor((200k + n) / (2n)). */
module Percent {

  function Min(a: int, b: int): int { if a <= b then a else b }
  function Max(a: int, b: int): int { if a >= b then a else b }

  /** 100 * k / n rounded to the nearest integer, halves up. */
  function RoundPct(k: nat, n: nat): (r: nat)
    requires n > 0
    ensures 2 * n * r <= 200 * k + n < 2 * n * r + 2 * n
    ensures k <= n ==> r <= 100
    ensures k == 0 ==> r == 0
    ensures k == n ==> r == 100
  {
    var a, b := 200 * k + n, 2 * n;
    DivBounds(a, b);
    if k == 0 then DivIs(a, b, 0); a / b
    else if k == n then DivIs(a, b, 100); a / b
    else if k < n then QuotientBelow(a, b, 101); a / b
    else a / b
  }

  /** The guarded form every page uses: `n > 0 ? Math.round(k / n * 100) : 0`. */
  function Pct(k: nat, n: nat): (r: nat)
    ensures n == 0 ==> r == 0
    ensures k <= n ==> r <= 100
    ensures n > 0 ==> r == RoundPct(k, n)
  {
    if n > 0 then RoundPct(k, n) else 0
  }

  lemma DivBounds(a: nat, b: nat)
    requires b > 0
    ensures b * (a / b) <= a < b * (a / b) + b
  {
  }

  lemma DivIs(a: nat, b: nat, q: nat)
    requires b > 0 && b * q <= a < b * q + b
    ensures a / b == q
  {
    DivBounds(a, b);
    var d := a / b;
    if d < q {
      MulMonotone(b, d + 1, q);
    } else if d > q {
      MulMonotone(b, q + 1, d);
    }
  }

  lemma QuotientBelow(a: nat, b: nat, q: nat)
    requires b > 0 && a < b * q
    ensures a / b < q
  {
    DivBounds(a, b);
    if a / b >= q {
      MulMonotone(b, q, a / b);
    }
  }

  lemma MulMonotone(b: nat, x: nat, y: nat)
    requires x <= y
    ensures b * x <= b * y
  {
  }

  /** The traffic-light colour the dashboard and results pages give a percentage. */
  datatype Colour = Green | Accent | Red

  /** Green from 75, the accent colour from 50, red below. */
  function Band(p: int): (c: Colour)
    ensures c == Green <==> p >= 75
    ensures c == Accent <==> 50 <= p < 75
    ensures c == Red <==> p < 50
  {
    if p >= 75 then Green else if p >= 50 then Accent else Red
  }
}
