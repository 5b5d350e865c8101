/** The string conversions the pages rely on: decimal rendering (`String(n)`, template
    literals), `parseInt`, `padStart(2, "0")`, and `join(",")` /
    `split(",")` for the sections parameter of the quiz URL. */
module Text {
  import opened Wrappers

  predicate IsDigit(c: char) { '0' <= c <= '9' }

  function DigitChar(d: nat): (c: char)
    requires d < 10
    ensures IsDigit(c) && c as int - '0' as int == d
  {
    ['0', '1', '2', '3', '4', '5', '6', '7', '8', '9'][d]
  }

  /** The decimal rendering of `n`, most significant digit first, without leading zeros. */
  function Dec(n: nat): (r: string)
    ensures |r| >= 1 && forall i :: 0 <= i < |r| ==> IsDigit(r[i])
    ensures (n < 10) == (|r| == 1)
    ensures |r| > 1 ==> r[0] != '0'
  {
    if n < 10 then [DigitChar(n)] else Dec(n / 10) + [DigitChar(n % 10)]
  }

  /** The value of a string of digits, read most significant first. */
  function DigitsValue(s: string): nat
    requires forall i :: 0 <= i < |s| ==> IsDigit(s[i])
  {
    if s == [] then 0
    else
      assert IsDigit(s[|s| - 1]);
      DigitsValue(s[..|s| - 1]) * 10 + (s[|s| - 1] as int - '0' as int)
  }

  /** A string made only of decimal digits, read as a number; anything else gives
      `None`. */
  function ParseNat(s: string): (r: Option<nat>)
    ensures r.Some? <==> (|s| > 0 && forall i :: 0 <= i < |s| ==> IsDigit(s[i]))
  {
    if |s| > 0 && forall i :: 0 <= i < |s| ==> IsDigit(s[i]) then Some(DigitsValue(s)) else None
  }

  /** Reading back a rendered number gives the number. */
  lemma {:induction false} ParseDec(n: nat)
    ensures ParseNat(Dec(n)) == Some(n)
  {
    DecValue(n);
  }

  lemma {:induction false} DecValue(n: nat)
    ensures DigitsValue(Dec(n)) == n
  {
    if n >= 10 {
      DecValue(n / 10);
      var s := Dec(n);
      assert s[..|s| - 1] == Dec(n / 10);
    }
  }

  /** Rendering is injective: different numbers are shown differently. */
  lemma DecInjective(m: nat, n: nat)
    requires Dec(m) == Dec(n)
    ensures m == n
  {
    DecValue(m);
    DecValue(n);
  }

  /** `String(n).padStart(2, "0")`. */
  function Pad2(n: nat): (r: string)
    ensures n < 100 ==> |r| == 2
    ensures ParseNat(r) == Some(n)
  {
    var d := Dec(n);
    ParseDec(n);
    if |d| < 2 then
      assert DigitsValue("0" + d) == DigitsValue(d) by {
        assert ("0" + d)[..1] == "0";
      }
      "0" + d
    else d
  }

  /** `ss.join(sep)`. */
  function Join(ss: seq<string>, sep: char): string
  {
    if ss == [] then ""
    else if |ss| == 1 then ss[0]
    else ss[0] + [sep] + Join(ss[1..], sep)
  }

  /** `s.split(sep)`: the pieces between separators, always at least one. */
  function Split(s: string, sep: char): (r: seq<string>)
    ensures |r| >= 1
    ensures forall i :: 0 <= i < |r| ==> sep !in r[i]
  {
    if s == [] then [""]
    else if s[0] == sep then [""] + Split(s[1..], sep)
    else
      var t := Split(s[1..], sep);
      [[s[0]] + t[0]] + t[1..]
  }

  /** Splitting a joined list of separator-free, non-empty-list pieces gives the list back. */
  lemma {:induction false} SplitJoin(ss: seq<string>, sep: char)
    requires |ss| >= 1
    requires forall i :: 0 <= i < |ss| ==> sep !in ss[i]
    ensures Split(Join(ss, sep), sep) == ss
  {
    if |ss| == 1 {
      SplitPiece(ss[0], sep, []);
      assert ss[0] + [] == ss[0] && ss[0] + "" == ss[0];
      assert Split([], sep) == [""];
      assert ss == [ss[0]];
    } else {
      SplitJoin(ss[1..], sep);
      SplitPiece(ss[0], sep, [sep] + Join(ss[1..], sep));
      assert ss[0] + [sep] + Join(ss[1..], sep) == ss[0] + ([sep] + Join(ss[1..], sep));
      var rest := [sep] + Join(ss[1..], sep);
      assert rest[0] == sep && rest[1..] == Join(ss[1..], sep);
      assert Split(rest, sep) == [""] + ss[1..];
      assert ss[0] + "" == ss[0];
      assert ss == [ss[0]] + ss[1..];
    }
  }

  /** A separator-free prefix becomes the head of the first piece. */
  lemma {:induction false} SplitPiece(a: string, sep: char, b: string)
    requires sep !in a
    ensures Split(a + b, sep) == [a + Split(b, sep)[0]] + Split(b, sep)[1..]
  {
    if a != [] {
      SplitPiece(a[1..], sep, b);
      assert (a + b)[0] == a[0] && (a + b)[1..] == a[1..] + b;
      assert [a[0]] + (a[1..] + Split(b, sep)[0]) == a + Split(b, sep)[0];
    } else {
      assert a + b == b;
      var t := Split(b, sep);
      assert t == [t[0]] + t[1..];
      assert a + t[0] == t[0];
    }
  }

  /** The longest run of digits at the start of `s`. */
  function DigitPrefix(s: string): (d: string)
    ensures |d| <= |s| && d == s[..|d|]
    ensures forall i :: 0 <= i < |d| ==> IsDigit(d[i])
    ensures |d| < |s| ==> !IsDigit(s[|d|])
  {
    if s == [] || !IsDigit(s[0]) then ""
    else
      var t := DigitPrefix(s[1..]);
      assert s[..|t| + 1] == [s[0]] + t;
      [s[0]] + t
  }

  /** The white space and line terminators `parseInt` skips before the number
      (StrWhiteSpaceChar of the ECMAScript language specification). */
  predicate IsJsSpace(c: char)
  {
    var k := c as int;
    k == 0x09 || k == 0x0A || k == 0x0B || k == 0x0C || k == 0x0D || k == 0x20 || k == 0xA0 ||
    k == 0x1680 || 0x2000 <= k <= 0x200A || k == 0x2028 || k == 0x2029 || k == 0x202F ||
    k == 0x205F || k == 0x3000 || k == 0xFEFF
  }

  /** `s` without its leading white space. */
  function TrimStart(s: string): (t: string)
    ensures |t| <= |s| && t == s[|s| - |t|..]
    ensures forall i :: 0 <= i < |s| - |t| ==> IsJsSpace(s[i])
    ensures t == [] || !IsJsSpace(t[0])
  {
    if s != [] && IsJsSpace(s[0]) then TrimStart(s[1..]) else s
  }

  predicate IsHexDigit(c: char) { IsDigit(c) || 'a' <= c <= 'f' || 'A' <= c <= 'F' }

  function HexDigitValue(c: char): (v: nat)
    requires IsHexDigit(c)
    ensures v < 16
    ensures IsDigit(c) ==> v == c as int - '0' as int
  {
    if IsDigit(c) then c as int - '0' as int
    else if 'a' <= c <= 'f' then c as int - 'a' as int + 10
    else c as int - 'A' as int + 10
  }

  /** The value of a string of hexadecimal digits, read most significant first. */
  function HexValue(s: string): nat
    requires forall i :: 0 <= i < |s| ==> IsHexDigit(s[i])
  {
    if s == [] then 0
    else
      assert IsHexDigit(s[|s| - 1]);
      HexValue(s[..|s| - 1]) * 16 + HexDigitValue(s[|s| - 1])
  }

  /** The longest run of hexadecimal digits at the start of `s`. */
  function HexPrefix(s: string): (h: string)
    ensures |h| <= |s| && h == s[..|h|]
    ensures forall i :: 0 <= i < |h| ==> IsHexDigit(h[i])
    ensures |h| < |s| ==> !IsHexDigit(s[|h|])
  {
    if s == [] || !IsHexDigit(s[0]) then ""
    else
      var t := HexPrefix(s[1..]);
      assert s[..|t| + 1] == [s[0]] + t;
      [s[0]] + t
  }

  /** The unsigned number `parseInt` reads once the white space and the sign are gone:
      hexadecimal digits after a "0x" or "0X", decimal digits otherwise, and `None`
      (`NaN`) when there are no such digits. */
  function Magnitude(u: string): Option<nat>
  {
    if |u| >= 2 && u[0] == '0' && (u[1] == 'x' || u[1] == 'X') then
      var h := HexPrefix(u[2..]);
      if h == "" then None else Some(HexValue(h))
    else
      var d := DigitPrefix(u);
      if d == "" then None else Some(DigitsValue(d))
  }

  function Negated(r: Option<int>): Option<int>
  {
    if r.Some? then Some(-r.value) else None
  }

  /** `parseInt(s)` without a radix: leading white space is skipped, one sign is read,
      and what follows the number is ignored; `None` is `NaN`. */
  function ParseInt(s: string): (r: Option<int>)
    ensures ParseNat(s).Some? ==> r == Some(ParseNat(s).value)
    ensures s == [] ==> r.None?
    ensures |s| > 0 && !IsJsSpace(s[0]) && s[0] != '+' && s[0] != '-' && !IsDigit(s[0]) ==> r.None?
    ensures |s| >= 2 && (s[0] == '+' || s[0] == '-') && !IsDigit(s[1]) ==> r.None?
  {
    var t := TrimStart(s);
    assert s != [] && !IsJsSpace(s[0]) ==> t == s by {
      if s != [] && !IsJsSpace(s[0]) { TrimNothing(s); }
    }
    assert ParseNat(s).Some? ==> DigitPrefix(s) == s by {
      if ParseNat(s).Some? { DigitPrefixOf(s, ""); assert s + "" == s; }
    }
    if t != [] && t[0] == '-' then Negated(Magnitude(t[1..]))
    else if t != [] && t[0] == '+' then Magnitude(t[1..])
    else Magnitude(t)
  }

  /** Text that starts with a digit, a sign or anything else but white space is not
      trimmed. */
  lemma TrimNothing(s: string)
    requires s == [] || !IsJsSpace(s[0])
    ensures TrimStart(s) == s
  {
  }

  /** Text without leading white space: its sign, if any, then the magnitude. */
  lemma Unsigned(s: string)
    requires s != [] && !IsJsSpace(s[0]) && s[0] != '+' && s[0] != '-'
    ensures ParseInt(s) == Magnitude(s)
  {
    TrimNothing(s);
  }

  lemma Signed(c: char, s: string)
    requires c == '+' || c == '-'
    ensures ParseInt([c] + s) == if c == '-' then Negated(Magnitude(s)) else Magnitude(s)
  {
    var t := [c] + s;
    assert t[0] == c && t[1..] == s;
    TrimNothing(t);
  }

  /** White space before the number is skipped. */
  lemma ParseIntSkipsSpace(c: char, s: string)
    requires IsJsSpace(c)
    ensures ParseInt([c] + s) == ParseInt(s)
  {
    assert ([c] + s)[1..] == s;
  }

  /** One sign is read: "+" keeps the number and "-" negates it; a `NaN` stays `NaN`. */
  lemma ParseIntSign(s: string)
    requires s == [] || (!IsJsSpace(s[0]) && s[0] != '+' && s[0] != '-')
    ensures ParseInt("+" + s) == ParseInt(s)
    ensures ParseInt("-" + s) == Negated(ParseInt(s))
  {
    Signed('+', s);
    Signed('-', s);
    assert ParseInt(s) == Magnitude(s) by {
      if s != [] { Unsigned(s); } else { TrimNothing(s); }
    }
  }

  /** Decimal digits are read up to the first character that is not one, unless the
      text is the hexadecimal prefix "0x" or "0X". */
  lemma ParseIntDecimal(d: string, rest: string)
    requires |d| > 0 && forall i :: 0 <= i < |d| ==> IsDigit(d[i])
    requires rest == [] || !IsDigit(rest[0])
    requires d == "0" ==> rest == [] || (rest[0] != 'x' && rest[0] != 'X')
    ensures ParseInt(d + rest) == Some(DigitsValue(d))
  {
    var s := d + rest;
    assert s[0] == d[0] && IsDigit(s[0]);
    Unsigned(s);
    assert !(|s| >= 2 && s[0] == '0' && (s[1] == 'x' || s[1] == 'X')) by {
      if |d| >= 2 { assert s[1] == d[1]; } else if |s| >= 2 { assert s[1] == rest[0]; }
    }
    DigitPrefixOf(d, rest);
    assert Magnitude(s) == Some(DigitsValue(d));
  }

  /** After "0x" or "0X" hexadecimal digits are read up to the first character that is
      not one; with none at all the result is `NaN`. */
  lemma ParseIntHex(x: char, h: string, rest: string)
    requires x == 'x' || x == 'X'
    requires forall i :: 0 <= i < |h| ==> IsHexDigit(h[i])
    requires rest == [] || !IsHexDigit(rest[0])
    ensures h != "" ==> ParseInt(['0', x] + h + rest) == Some(HexValue(h))
    ensures h == "" ==> ParseInt(['0', x] + h + rest) == None
  {
    var s := ['0', x] + h + rest;
    assert s == ['0', x] + (h + rest);
    assert s[0] == '0' && s[1] == x && s[2..] == h + rest;
    Unsigned(s);
    HexPrefixOf(h, rest);
  }

  /** `parseInt("5px")` is 5: the text after the digits is ignored. */
  lemma ParseIntTrailingExample()
    ensures ParseInt("5px") == Some(5)
  {
    var s := "5px";
    assert s == s[..1] + s[1..] && s[..1] == "5" && s[1..] == "px";
    assert "5"[..0] == "";
    assert DigitsValue("5") == 5;
    ParseIntDecimal("5", "px");
  }

  /** `parseInt("0x10")` is 16. */
  lemma ParseIntHexExample()
    ensures ParseInt("0x10") == Some(16)
  {
    ParseIntHex('x', "10", "");
    assert ['0', 'x'] + "10" + "" == "0x10";
    assert "10"[..1] == "1" && "1"[..0] == "";
    assert HexValue("10") == 16;
  }

  /** `parseInt(" 5")` is 5: leading white space is skipped. */
  lemma ParseIntSpaceExample()
    ensures ParseInt(" 5") == Some(5)
  {
    var s := " 5";
    assert s == [s[0]] + s[1..] && s[1..] == "5";
    assert IsJsSpace(s[0]);
    FiveReads();
    ParseIntSkipsSpace(s[0], s[1..]);
  }

  /** `parseInt("-5")` is -5. */
  lemma ParseIntSignExample()
    ensures ParseInt("-5") == Some(-5)
  {
    var s := "-5";
    assert s == "-" + s[1..] && s[1..] == "5";
    assert !IsJsSpace(s[1]);
    FiveReads();
    ParseIntSign(s[1..]);
  }

  lemma FiveReads()
    ensures ParseInt("5") == Some(5)
  {
    assert "5"[..0] == "";
    assert DigitsValue("5") == 5;
    assert ParseNat("5") == Some(5);
  }

  lemma {:induction false} DigitPrefixOf(d: string, rest: string)
    requires forall i :: 0 <= i < |d| ==> IsDigit(d[i])
    requires rest == [] || !IsDigit(rest[0])
    ensures DigitPrefix(d + rest) == d
  {
    if d != [] {
      DigitPrefixOf(d[1..], rest);
      assert (d + rest)[1..] == d[1..] + rest;
    }
  }

  lemma {:induction false} HexPrefixOf(h: string, rest: string)
    requires forall i :: 0 <= i < |h| ==> IsHexDigit(h[i])
    requires rest == [] || !IsHexDigit(rest[0])
    ensures HexPrefix(h + rest) == h
  {
    if h != [] {
      HexPrefixOf(h[1..], rest);
      assert (h + rest)[1..] == h[1..] + rest;
    }
  }
}
