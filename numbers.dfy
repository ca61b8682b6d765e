/** Decimal rendering of naturals (template literals such as `${i + 1}`)
    and the global `parseInt(s)` of ECMAScript with no radix argument. */
module Numbers {
  import opened Wrappers
  import opened Text

  predicate IsDigit(c: char) {
    '0' <= c <= '9'
  }

  predicate IsHexDigit(c: char) {
    IsDigit(c) || 'a' <= c <= 'f' || 'A' <= c <= 'F'
  }

  /** A digit of radix 10 or 16. */
  predicate IsRadixDigit(c: char, hex: bool) {
    if hex then IsHexDigit(c) else IsDigit(c)
  }

  function DigitValue(c: char): (r: nat)
    requires IsHexDigit(c)
    ensures r < 16
    ensures IsDigit(c) ==> r < 10
  {
    if IsDigit(c) then c as int - '0' as int
    else if 'a' <= c <= 'f' then c as int - 'a' as int + 10
    else c as int - 'A' as int + 10
  }

  function DigitChar(d: nat): (r: char)
    requires d < 10
    ensures IsDigit(r) && DigitValue(r) == d
  {
    ('0' as int + d) as char
  }

  /** `String(n)` for a natural number: its decimal digits, no leading zero. */
  function NatToString(n: nat): (r: string)
    ensures |r| >= 1
    ensures forall k :: 0 <= k < |r| ==> IsDigit(r[k])
    ensures r[0] == '0' ==> n == 0 && |r| == 1
  {
    if n < 10 then [DigitChar(n)] else NatToString(n / 10) + [DigitChar(n % 10)]
  }

  /** The number a string of digits denotes, most significant digit first. */
  function ValueOf(s: string, hex: bool): nat
    requires forall k :: 0 <= k < |s| ==> IsRadixDigit(s[k], hex)
  {
    if s == [] then 0
    else
      var last := s[|s| - 1];
      assert IsRadixDigit(last, hex);
      ValueOf(s[..|s| - 1], hex) * (if hex then 16 else 10) + DigitValue(last)
  }

  /** How many digits `s` starts with. */
  function LeadingDigits(s: string, hex: bool): (r: nat)
    ensures r <= |s|
    ensures forall k :: 0 <= k < r ==> IsRadixDigit(s[k], hex)
    ensures r < |s| ==> !IsRadixDigit(s[r], hex)
  {
    if s == [] || !IsRadixDigit(s[0], hex) then 0 else 1 + LeadingDigits(s[1..], hex)
  }

  /** `parseInt(s)`: skip leading white space, read an optional sign, then
      the digits; no digit gives `NaN` (`None`). Negative zero is 0. */
  function ParseInt(s: string): (r: Option<int>)
  {
    ParseSigned(TrimStart(s))
  }

  /** An optional `-` or `+`, then the magnitude. */
  function ParseSigned(t: string): (r: Option<int>)
  {
    var negative := t != [] && t[0] == '-';
    var u := if t != [] && (t[0] == '-' || t[0] == '+') then t[1..] else t;
    match ParseMagnitude(u)
    case None => None
    case Some(v) => Some(if negative then -(v as int) else v as int)
  }

  /** A `0x`/`0X` prefix switches to radix 16; then the longest run of
      digits, of which there must be at least one. */
  function ParseMagnitude(u: string): (r: Option<nat>)
  {
    var hex := |u| >= 2 && u[0] == '0' && (u[1] == 'x' || u[1] == 'X');
    var body := if hex then u[2..] else u;
    var n := LeadingDigits(body, hex);
    if n == 0 then None else Some(ValueOf(body[..n], hex))
  }

  lemma {:induction false} ValueOfNatToString(n: nat)
    ensures ValueOf(NatToString(n), false) == n
    decreases n
  {
    if n >= 10 {
      var s := NatToString(n);
      ValueOfNatToString(n / 10);
      assert s[..|s| - 1] == NatToString(n / 10);
    }
  }

  /** The digits are read up to the first character that is not one. */
  lemma {:induction false} LeadingDigitsOfDigits(d: string, rest: string, hex: bool)
    requires forall k :: 0 <= k < |d| ==> IsRadixDigit(d[k], hex)
    requires rest == [] || !IsRadixDigit(rest[0], hex)
    ensures LeadingDigits(d + rest, hex) == |d|
    decreases |d|
  {
    if d == [] {
      assert d + rest == rest;
    } else {
      assert (d + rest)[1..] == d[1..] + rest;
      LeadingDigitsOfDigits(d[1..], rest, hex);
    }
  }

  /** The magnitude of `String(n)` followed by a non-digit is `n`. */
  lemma ParseMagnitudeNatToString(n: nat, rest: string)
    requires rest == [] || (!IsDigit(rest[0]) && (n == 0 ==> rest[0] != 'x' && rest[0] != 'X'))
    ensures ParseMagnitude(NatToString(n) + rest) == Some(n)
  {
    var d := NatToString(n);
    var u := d + rest;
    var hex := |u| >= 2 && u[0] == '0' && (u[1] == 'x' || u[1] == 'X');
    assert !hex by {
      if |u| >= 2 && u[0] == '0' {
        assert n == 0 && |d| == 1;
        assert u[1] == rest[0];
      }
    }
    LeadingDigitsOfDigits(d, rest, false);
    assert u[..|d|] == d;
    ValueOfNatToString(n);
  }

  /** A sign in front of a magnitude is read as such. */
  lemma ParseSignedOf(sign: string, u: string, n: nat)
    requires sign == "" || sign == "+" || sign == "-"
    requires u != [] && IsDigit(u[0])
    requires ParseMagnitude(u) == Some(n)
    ensures ParseSigned(sign + u) == Some(if sign == "-" then -(n as int) else n as int)
  {
    if sign == "" {
      assert sign + u == u;
    } else {
      assert (sign + u)[0] == sign[0];
      assert (sign + u)[1..] == u;
    }
  }

  /** `parseInt` reads back what `String(n)` wrote, after any white space and
      a sign, and stops at the first non-digit after it. */
  lemma ParseIntNatToString(ws: string, sign: string, n: nat, rest: string)
    requires forall k :: 0 <= k < |ws| ==> IsJsSpace(ws[k])
    requires sign == "" || sign == "+" || sign == "-"
    requires rest == [] || (!IsDigit(rest[0]) && (n == 0 ==> rest[0] != 'x' && rest[0] != 'X'))
    ensures ParseInt(ws + sign + NatToString(n) + rest) == Some(if sign == "-" then -(n as int) else n as int)
  {
    var u := NatToString(n) + rest;
    ParseMagnitudeNatToString(n, rest);
    ParseSignedOf(sign, u, n);
    SkipSpaces(ws, sign + u);
    Regroup(ws, sign, NatToString(n), rest);
  }

  lemma Regroup(a: string, b: string, c: string, d: string)
    ensures a + b + c + d == a + (b + (c + d))
  {
  }

  /** `parseInt` skips white space in front of a sign or a digit. */
  lemma SkipSpaces(ws: string, t: string)
    requires forall k :: 0 <= k < |ws| ==> IsJsSpace(ws[k])
    requires t != [] && (t[0] == '+' || t[0] == '-' || IsDigit(t[0]))
    ensures ParseInt(ws + t) == ParseSigned(t)
  {
    TrimStartSpaces(ws, t);
  }

  /** White space in front of a string that does not start with it is what
      `TrimStart` removes. */
  lemma {:induction false} TrimStartSpaces(ws: string, s: string)
    requires forall k :: 0 <= k < |ws| ==> IsJsSpace(ws[k])
    requires s == [] || !IsJsSpace(s[0])
    ensures TrimStart(ws + s) == s
    decreases |ws|
  {
    if ws != [] {
      assert (ws + s)[1..] == ws[1..] + s;
      TrimStartSpaces(ws[1..], s);
    }
  }
}
