/** String operations of the JavaScript runtime and of SQL `LIKE '%x%'`
    that the modelled code relies on. Strings are sequences of Unicode
    scalar values. */
module Text {

  /** `s` begins with `p`. */
  predicate StartsWith(s: string, p: string) {
    |p| <= |s| && s[..|p|] == p
  }

  /** `s.includes(p)` in JavaScript, and `s LIKE '%p%'` in SQL when `p`
      holds no wildcard: a left-to-right scan. */
  predicate Contains(s: string, p: string)
    decreases |s|
  {
    StartsWith(s, p) || (s != [] && Contains(s[1..], p))
  }

  /** The independent, positional definition of "occurs in". */
  ghost predicate OccursAt(s: string, p: string, i: int) {
    0 <= i && i + |p| <= |s| && s[i..i + |p|] == p
  }

  lemma {:induction false} OccursImpliesContains(s: string, p: string, i: int)
    requires OccursAt(s, p, i)
    ensures Contains(s, p)
    decreases i
  {
    if i > 0 {
      assert s[1..][i - 1..i - 1 + |p|] == s[i..i + |p|];
      OccursImpliesContains(s[1..], p, i - 1);
    }
  }

  lemma {:induction false} ContainsImpliesOccurs(s: string, p: string)
    requires Contains(s, p)
    ensures exists i :: OccursAt(s, p, i)
    decreases |s|
  {
    if StartsWith(s, p) {
      assert OccursAt(s, p, 0);
    } else {
      ContainsImpliesOccurs(s[1..], p);
      var i :| OccursAt(s[1..], p, i);
      assert s[i + 1..i + 1 + |p|] == s[1..][i..i + |p|];
      assert OccursAt(s, p, i + 1);
    }
  }

  /** The scan agrees with the positional definition. */
  lemma ContainsIffOccurs(s: string, p: string)
    ensures Contains(s, p) <==> exists i :: OccursAt(s, p, i)
  {
    if Contains(s, p) {
      ContainsImpliesOccurs(s, p);
    }
    forall i | OccursAt(s, p, i) ensures Contains(s, p) {
      OccursImpliesContains(s, p, i);
    }
  }

  /** An occurrence inside a part of a string is an occurrence in the whole. */
  lemma ContainsInMiddle(a: string, p: string, b: string)
    ensures Contains(a + p + b, p)
  {
    var s := a + p + b;
    assert s[|a|..|a| + |p|] == p;
    assert OccursAt(s, p, |a|);
    ContainsIffOccurs(s, p);
  }

  /** The start of any piece lies in the joined string. */
  lemma JoinContainsPrefix(parts: seq<string>, sep: string, k: nat, p: string, tail: string)
    requires k < |parts| && parts[k] == p + tail
    ensures Contains(Join(parts, sep), p)
  {
    var a, b := JoinAround(parts, sep, k);
    assert a + parts[k] + b == a + p + (tail + b);
    ContainsInMiddle(a, p, tail + b);
  }

  /** ASCII lower-casing of one character. */
  function LowerChar(c: char): char {
    if 'A' <= c <= 'Z' then (c as int + 32) as char else c
  }

  /** `s.toLowerCase()` restricted to ASCII letters (SQL `LOWER` likewise). */
  function ToLower(s: string): (r: string)
    ensures |r| == |s|
    ensures forall i :: 0 <= i < |s| ==> r[i] == LowerChar(s[i])
  {
    seq(|s|, i requires 0 <= i < |s| => LowerChar(s[i]))
  }

  lemma ToLowerIdempotent(s: string)
    ensures ToLower(ToLower(s)) == ToLower(s)
  {
  }

  /** The characters `String.prototype.trim` removes: ECMAScript WhiteSpace
      and LineTerminator. */
  predicate IsJsSpace(c: char) {
    c in {'\t', '\n', '\U{000B}', '\U{000C}', '\r', ' ', '\U{00A0}', '\U{1680}',
          '\U{2028}', '\U{2029}', '\U{202F}', '\U{205F}', '\U{3000}', '\U{FEFF}'}
    || ('\U{2000}' <= c <= '\U{200A}')
  }

  function TrimStart(s: string): (r: string)
    ensures |r| <= |s| && r == s[|s| - |r|..]
    ensures r == [] || !IsJsSpace(r[0])
    ensures forall i :: 0 <= i < |s| - |r| ==> IsJsSpace(s[i])
  {
    if s != [] && IsJsSpace(s[0]) then TrimStart(s[1..]) else s
  }

  function TrimEnd(s: string): (r: string)
    ensures |r| <= |s| && r == s[..|r|]
    ensures r == [] || !IsJsSpace(r[|r| - 1])
    ensures forall i :: |r| <= i < |s| ==> IsJsSpace(s[i])
  {
    if s != [] && IsJsSpace(s[|s| - 1]) then TrimEnd(s[..|s| - 1]) else s
  }

  /** `s.trim()`. */
  function Trim(s: string): (r: string)
  {
    TrimEnd(TrimStart(s))
  }

  /** Only white space lies outside `s[i..j]`. */
  ghost predicate SpaceOutside(s: string, i: int, j: int) {
    0 <= i <= j <= |s|
    && (forall k :: 0 <= k < i ==> IsJsSpace(s[k]))
    && (forall k :: j <= k < |s| ==> IsJsSpace(s[k]))
  }

  /** What `trim` promises: the result is a piece of `s`, only white space
      was cut off either side, and it neither starts nor ends with white
      space. */
  lemma TrimSpec(s: string)
    ensures exists i, j :: SpaceOutside(s, i, j) && Trim(s) == s[i..j]
    ensures Trim(s) == [] || (!IsJsSpace(Trim(s)[0]) && !IsJsSpace(Trim(s)[|Trim(s)| - 1]))
  {
    var t := TrimStart(s);
    var i := |s| - |t|;
    var j := i + |TrimEnd(t)|;
    TrimSpan(s, t, i, j);
    TrimEnds(t);
  }

  /** The piece `trim` keeps lies at `s[i..j]`. */
  lemma TrimSpan(s: string, t: string, i: int, j: int)
    requires t == TrimStart(s) && i == |s| - |t| && j == i + |TrimEnd(t)|
    ensures SpaceOutside(s, i, j) && Trim(s) == s[i..j]
  {
    var u := TrimEnd(t);
    assert t == s[i..];
    assert u == t[..|u|];
    SuffixSpace(s, t, i, u);
  }

  /** White space after a prefix `u` of the suffix `t == s[i..]` is white
      space of `s`. */
  lemma SuffixSpace(s: string, t: string, i: int, u: string)
    requires 0 <= i <= |s| && t == s[i..] && |u| <= |t| && u == t[..|u|]
    requires forall k :: 0 <= k < i ==> IsJsSpace(s[k])
    requires forall k :: |u| <= k < |t| ==> IsJsSpace(t[k])
    ensures SpaceOutside(s, i, i + |u|) && u == s[i..i + |u|]
  {
    forall k | i + |u| <= k < |s| ensures IsJsSpace(s[k]) {
      assert s[k] == t[k - i];
    }
  }

  /** Trimming the end keeps the first character of what trimming the
      start kept. */
  lemma TrimEnds(t: string)
    requires t == [] || !IsJsSpace(t[0])
    ensures TrimEnd(t) == [] || (!IsJsSpace(TrimEnd(t)[0]) && !IsJsSpace(TrimEnd(t)[|TrimEnd(t)| - 1]))
  {
    var u := TrimEnd(t);
    if u != [] {
      assert u[0] == t[0];
    }
  }

  /** `s.split(c)` for a one-character separator: the pieces between the
      separators, always one more than there are separators. */
  function Split(s: string, c: char): (r: seq<string>)
    ensures |r| >= 1
    ensures forall k, x :: 0 <= k < |r| && x in r[k] ==> x != c
    decreases |s|
  {
    if s == [] then [""]
    else if s[0] == c then [""] + Split(s[1..], c)
    else
      var rest := Split(s[1..], c);
      [[s[0]] + rest[0]] + rest[1..]
  }

  /** `parts.join(sep)`. */
  function Join(parts: seq<string>, sep: string): string
  {
    if parts == [] then ""
    else if |parts| == 1 then parts[0]
    else parts[0] + sep + Join(parts[1..], sep)
  }

  /** Each piece lies in the joined string. */
  lemma {:induction false} JoinAround(parts: seq<string>, sep: string, k: nat) returns (a: string, b: string)
    requires k < |parts|
    ensures Join(parts, sep) == a + parts[k] + b
    decreases |parts|
  {
    if |parts| == 1 {
      a, b := "", "";
    } else if k == 0 {
      a, b := "", sep + Join(parts[1..], sep);
    } else {
      var a1, b1 := JoinAround(parts[1..], sep, k - 1);
      assert parts[1..][k - 1] == parts[k];
      a, b := parts[0] + sep + a1, b1;
    }
  }

  /** Splitting and re-joining on the same separator gives back the string. */
  lemma {:induction false} JoinSplit(s: string, c: char)
    ensures Join(Split(s, c), [c]) == s
    decreases |s|
  {
    if s == [] {
    } else if s[0] == c {
      JoinSplit(s[1..], c);
      assert s == [c] + s[1..];
    } else {
      JoinSplit(s[1..], c);
      var rest := Split(s[1..], c);
      assert Split(s, c) == [[s[0]] + rest[0]] + rest[1..];
      JoinFirstLonger(s[0], rest, [c]);
      assert s == [s[0]] + s[1..];
    }
  }

  /** Putting a character in front of the first piece puts it in front of
      the joined string. */
  lemma JoinFirstLonger(x: char, parts: seq<string>, sep: string)
    requires |parts| >= 1
    ensures Join([[x] + parts[0]] + parts[1..], sep) == [x] + Join(parts, sep)
  {
    var longer := [[x] + parts[0]] + parts[1..];
    assert longer[1..] == parts[1..];
  }

  /** Splitting at a separator splits the two sides independently. */
  lemma {:induction false} SplitAround(x: string, c: char, y: string)
    ensures Split(x + [c] + y, c) == Split(x, c) + Split(y, c)
    decreases |x|
  {
    if x == [] {
      assert x + [c] + y == [c] + y;
      assert ([c] + y)[1..] == y;
    } else if x[0] == c {
      assert (x + [c] + y)[1..] == x[1..] + [c] + y;
      SplitAround(x[1..], c, y);
    } else {
      assert (x + [c] + y)[1..] == x[1..] + [c] + y;
      SplitAround(x[1..], c, y);
    }
  }

  /** A string without the separator is its own single piece. */
  lemma {:induction false} SplitWithout(y: string, c: char)
    requires c !in y
    ensures Split(y, c) == [y]
    decreases |y|
  {
    if y != [] {
      SplitWithout(y[1..], c);
      assert y == [y[0]] + y[1..];
    }
  }

  /** Joining pieces that hold no separator and splitting again gives the
      pieces back (there is always at least one piece). */
  lemma {:induction false} SplitJoin(parts: seq<string>, c: char)
    requires |parts| >= 1
    requires forall k :: 0 <= k < |parts| ==> c !in parts[k]
    ensures Split(Join(parts, [c]), c) == parts
    decreases |parts|
  {
    if |parts| == 1 {
      SplitWithout(parts[0], c);
    } else {
      SplitJoin(parts[1..], c);
      SplitWithout(parts[0], c);
      SplitAround(parts[0], c, Join(parts[1..], [c]));
      assert parts == [parts[0]] + parts[1..];
    }
  }

  /** `s.split(c)[0]`: everything before the first `c`. */
  function Before(s: string, c: char): (r: string)
  {
    Split(s, c)[0]
  }

  lemma {:induction false} BeforeIsPrefix(s: string, c: char)
    ensures StartsWith(s, Before(s, c))
    ensures c !in Before(s, c)
    ensures |Before(s, c)| < |s| ==> s[|Before(s, c)|] == c
    decreases |s|
  {
    if s != [] && s[0] != c {
      BeforeIsPrefix(s[1..], c);
    }
  }
}
