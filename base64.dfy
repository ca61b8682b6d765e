/** The base 64 encoding of section 4 of RFC 4648 (alphabet `A-Z a-z 0-9 + /`,
    `=` padding), as `Buffer.toString("base64")` produces it. */
module Base64 {
  import opened Wrappers
  import opened Utf8

  type Sextet = x: int | 0 <= x < 64

  /** Table 1 of RFC 4648. */
  function EncodeSextet(x: Sextet): (c: char)
  {
    if x < 26 then (x + 65) as char
    else if x < 52 then (x - 26 + 97) as char
    else if x < 62 then (x - 52 + 48) as char
    else if x == 62 then '+'
    else '/'
  }

  function DecodeSextet(c: char): Option<Sextet>
  {
    if 'A' <= c <= 'Z' then Some(c as int - 65)
    else if 'a' <= c <= 'z' then Some(c as int - 97 + 26)
    else if '0' <= c <= '9' then Some(c as int - 48 + 52)
    else if c == '+' then Some(62)
    else if c == '/' then Some(63)
    else None
  }

  /** Characters that can occur in an encoding, the pad included. */
  predicate IsBase64Char(c: char) {
    ('A' <= c <= 'Z') || ('a' <= c <= 'z') || ('0' <= c <= '9') || c == '+' || c == '/' || c == '='
  }

  lemma SextetRoundTrip(x: Sextet)
    ensures DecodeSextet(EncodeSextet(x)) == Some(x)
    ensures IsBase64Char(EncodeSextet(x)) && EncodeSextet(x) != '='
  {
  }

  /** Three bytes become four characters; a final one or two bytes become
      two or three characters and `=` padding. */
  function Encode(b: seq<Byte>): (r: string)
    ensures |r| == 4 * ((|b| + 2) / 3)
    decreases |b|
  {
    if b == [] then ""
    else if |b| == 1 then
      [EncodeSextet(b[0] / 4), EncodeSextet((b[0] % 4) * 16), '=', '=']
    else if |b| == 2 then
      [EncodeSextet(b[0] / 4), EncodeSextet((b[0] % 4) * 16 + b[1] / 16),
       EncodeSextet((b[1] % 16) * 4), '=']
    else Group(b[0], b[1], b[2]) + Encode(b[3..])
  }

  /** Decodes one unpadded group of four characters. */
  function DecodeGroup(c0: char, c1: char, c2: char, c3: char): Option<seq<Byte>>
  {
    match (DecodeSextet(c0), DecodeSextet(c1), DecodeSextet(c2), DecodeSextet(c3))
    case (Some(x0), Some(x1), Some(x2), Some(x3)) =>
      Some([x0 as int * 4 + x1 / 16, (x1 % 16) as int * 16 + x2 / 4, (x2 % 4) as int * 64 + x3])
    case _ => None
  }

  /** Decodes the last group, which may carry one or two `=`. */
  function DecodeLast(c0: char, c1: char, c2: char, c3: char): Option<seq<Byte>>
  {
    if c2 == '=' && c3 == '=' then
      match (DecodeSextet(c0), DecodeSextet(c1))
      case (Some(x0), Some(x1)) => Some([x0 as int * 4 + x1 / 16])
      case _ => None
    else if c3 == '=' then
      match (DecodeSextet(c0), DecodeSextet(c1), DecodeSextet(c2))
      case (Some(x0), Some(x1), Some(x2)) => Some([x0 as int * 4 + x1 / 16, (x1 % 16) as int * 16 + x2 / 4])
      case _ => None
    else DecodeGroup(c0, c1, c2, c3)
  }

  /** Decodes a padded encoding; anything else is `None`. */
  function Decode(s: string): Option<seq<Byte>>
    decreases |s|
  {
    if s == [] then Some([])
    else if |s| < 4 then None
    else if |s| == 4 then DecodeLast(s[0], s[1], s[2], s[3])
    else
      match (DecodeGroup(s[0], s[1], s[2], s[3]), Decode(s[4..]))
      case (Some(g), Some(rest)) => Some(g + rest)
      case _ => None
  }

  /** Quotient and remainder by `m` (4 or 16) of `hi * m + lo`. */
  lemma Recombine(hi: int, lo: int, m: int)
    requires m == 4 || m == 16
    requires 0 <= lo < m
    ensures (hi * m + lo) / m == hi && (hi * m + lo) % m == lo
  {
    if m == 4 {
      assert hi * m + lo == hi * 4 + lo;
    } else {
      assert hi * m + lo == hi * 16 + lo;
    }
  }

  lemma DecodeOneByte(b0: Byte)
    ensures Decode(Encode([b0])) == Some([b0])
  {
    var x0: Sextet, x1: Sextet := b0 / 4, (b0 % 4) * 16;
    assert Encode([b0]) == [EncodeSextet(x0), EncodeSextet(x1), '=', '='];
    PadOne(x0, x1);
    Recombine(b0 % 4, 0, 16);
  }

  lemma DecodeTwoBytes(b0: Byte, b1: Byte)
    ensures Decode(Encode([b0, b1])) == Some([b0, b1])
  {
    var x0: Sextet, x1: Sextet, x2: Sextet := b0 / 4, (b0 % 4) * 16 + b1 / 16, (b1 % 16) * 4;
    assert Encode([b0, b1]) == [EncodeSextet(x0), EncodeSextet(x1), EncodeSextet(x2), '='];
    PadTwo(x0, x1, x2);
    FirstByteBack(b0, b1);
    SecondOfTwoBack(b0, b1);
  }

  /** A last group with two `=` decodes to one byte. */
  lemma PadOne(x0: Sextet, x1: Sextet)
    ensures DecodeLast(EncodeSextet(x0), EncodeSextet(x1), '=', '=') == Some([x0 * 4 + x1 / 16])
  {
    SextetRoundTrip(x0);
    SextetRoundTrip(x1);
  }

  /** A last group with one `=` decodes to two bytes. */
  lemma PadTwo(x0: Sextet, x1: Sextet, x2: Sextet)
    ensures DecodeLast(EncodeSextet(x0), EncodeSextet(x1), EncodeSextet(x2), '=')
            == Some([x0 * 4 + x1 / 16, (x1 % 16) * 16 + x2 / 4])
  {
    SextetRoundTrip(x0);
    SextetRoundTrip(x1);
    SextetRoundTrip(x2);
  }

  lemma SecondOfTwoBack(b0: Byte, b1: Byte)
    ensures (((b0 % 4) * 16 + b1 / 16) % 16) * 16 + ((b1 % 16) * 4) / 4 == b1
  {
    Recombine(b0 % 4, b1 / 16, 16);
    Recombine(b1 % 16, 0, 4);
  }

  /** The first four characters of an encoding of three or more bytes. */
  function Group(b0: Byte, b1: Byte, b2: Byte): (r: string)
  {
    [EncodeSextet(b0 / 4), EncodeSextet((b0 % 4) * 16 + b1 / 16),
     EncodeSextet((b1 % 16) * 4 + b2 / 64), EncodeSextet(b2 % 64)]
  }

  lemma FirstByteBack(b0: Byte, b1: Byte)
    ensures (b0 / 4) * 4 + ((b0 % 4) * 16 + b1 / 16) / 16 == b0
  {
    Recombine(b0 % 4, b1 / 16, 16);
  }

  lemma SecondByteBack(b0: Byte, b1: Byte, b2: Byte)
    ensures (((b0 % 4) * 16 + b1 / 16) % 16) * 16 + ((b1 % 16) * 4 + b2 / 64) / 4 == b1
  {
    Recombine(b0 % 4, b1 / 16, 16);
    Recombine(b1 % 16, b2 / 64, 4);
  }

  lemma ThirdByteBack(b1: Byte, b2: Byte)
    ensures (((b1 % 16) * 4 + b2 / 64) % 4) * 64 + b2 % 64 == b2
  {
    Recombine(b1 % 16, b2 / 64, 4);
  }

  lemma DecodeGroupOfGroup(b0: Byte, b1: Byte, b2: Byte)
    ensures |Group(b0, b1, b2)| == 4
    ensures var g := Group(b0, b1, b2);
      DecodeGroup(g[0], g[1], g[2], g[3]) == Some([b0, b1, b2])
      && DecodeLast(g[0], g[1], g[2], g[3]) == Some([b0, b1, b2])
  {
    var x0: Sextet, x1: Sextet := b0 / 4, (b0 % 4) * 16 + b1 / 16;
    var x2: Sextet, x3: Sextet := (b1 % 16) * 4 + b2 / 64, b2 % 64;
    PadNone(x0, x1, x2, x3);
    FirstByteBack(b0, b1);
    SecondByteBack(b0, b1, b2);
    ThirdByteBack(b1, b2);
  }

  /** A group of four sextets decodes to three bytes, as a last group too. */
  lemma PadNone(x0: Sextet, x1: Sextet, x2: Sextet, x3: Sextet)
    ensures var y := [x0 * 4 + x1 / 16, (x1 % 16) * 16 + x2 / 4, (x2 % 4) * 64 + x3];
            DecodeGroup(EncodeSextet(x0), EncodeSextet(x1), EncodeSextet(x2), EncodeSextet(x3)) == Some(y)
            && DecodeLast(EncodeSextet(x0), EncodeSextet(x1), EncodeSextet(x2), EncodeSextet(x3)) == Some(y)
  {
    SextetRoundTrip(x0);
    SextetRoundTrip(x1);
    SextetRoundTrip(x2);
    SextetRoundTrip(x3);
  }

  /** A full group in front of a non-empty encoding decodes on its own. */
  lemma DecodeCons(g: string, rest: string, x: seq<Byte>, y: seq<Byte>)
    requires |g| == 4 && rest != []
    requires DecodeGroup(g[0], g[1], g[2], g[3]) == Some(x)
    requires Decode(rest) == Some(y)
    ensures Decode(g + rest) == Some(x + y)
  {
    var s := g + rest;
    assert s[..4] == g;
    assert s[4..] == rest;
  }

  /** Decoding the encoding gives back the bytes. */
  lemma {:induction false} DecodeEncode(b: seq<Byte>)
    ensures Decode(Encode(b)) == Some(b)
    decreases |b|
  {
    if b == [] {
    } else if |b| == 1 {
      DecodeOneByte(b[0]);
      assert b == [b[0]];
    } else if |b| == 2 {
      DecodeTwoBytes(b[0], b[1]);
      assert b == [b[0], b[1]];
    } else {
      var g := Group(b[0], b[1], b[2]);
      DecodeGroupOfGroup(b[0], b[1], b[2]);
      assert b == [b[0], b[1], b[2]] + b[3..];
      if |b| == 3 {
        assert b[3..] == [];
        assert Encode(b) == g + "";
        assert Encode(b) == g;
        assert b == [b[0], b[1], b[2]];
      } else {
        DecodeEncode(b[3..]);
        DecodeCons(g, Encode(b[3..]), [b[0], b[1], b[2]], b[3..]);
      }
    }
  }

  /** Every character of an encoding is from the alphabet or the pad; in
      particular none is `:`. */
  lemma {:induction false} EncodeAlphabet(b: seq<Byte>)
    ensures forall i :: 0 <= i < |Encode(b)| ==> IsBase64Char(Encode(b)[i])
    ensures ':' !in Encode(b)
    decreases |b|
  {
    var e := Encode(b);
    if |b| == 1 {
      SextetRoundTrip(b[0] / 4);
      SextetRoundTrip((b[0] % 4) * 16);
    } else if |b| == 2 {
      SextetRoundTrip(b[0] / 4);
      SextetRoundTrip((b[0] % 4) * 16 + b[1] / 16);
      SextetRoundTrip((b[1] % 16) * 4);
    } else if |b| >= 3 {
      EncodeAlphabet(b[3..]);
      GroupAlphabet(b[0], b[1], b[2]);
      AlphabetAppend(Group(b[0], b[1], b[2]), Encode(b[3..]));
    }
    NoColon(e);
  }

  predicate AllBase64(s: string) {
    forall i :: 0 <= i < |s| ==> IsBase64Char(s[i])
  }

  lemma GroupAlphabet(b0: Byte, b1: Byte, b2: Byte)
    ensures AllBase64(Group(b0, b1, b2))
  {
    SextetRoundTrip(b0 / 4);
    SextetRoundTrip((b0 % 4) * 16 + b1 / 16);
    SextetRoundTrip((b1 % 16) * 4 + b2 / 64);
    SextetRoundTrip(b2 % 64);
  }

  lemma AlphabetAppend(a: string, b: string)
    requires AllBase64(a) && AllBase64(b)
    ensures AllBase64(a + b)
  {
    assert forall i :: |a| <= i < |a + b| ==> (a + b)[i] == b[i - |a|];
  }

  lemma NoColon(s: string)
    requires AllBase64(s)
    ensures ':' !in s
  {
    assert forall i :: 0 <= i < |s| ==> s[i] != ':';
  }

  /** The question segment of a cache key: base 64 of the UTF-8 bytes. */
  function EncodeString(s: string): (r: string)
  {
    Encode(Utf8.Encode(s))
  }

  function DecodeString(t: string): Option<string>
  {
    match Decode(t)
    case None => None
    case Some(bytes) => Utf8.Decode(bytes)
  }

  lemma DecodeEncodeString(s: string)
    ensures DecodeString(EncodeString(s)) == Some(s)
    ensures ':' !in EncodeString(s)
  {
    DecodeEncode(Utf8.Encode(s));
    Utf8.DecodeEncode(s);
    EncodeAlphabet(Utf8.Encode(s));
  }
}
