/** Splitting a list into consecutive slices of a fixed size, as
    `for (i = 0; i < xs.length; i += size) xs.slice(i, i + size)` does. */
module Batching {

  /** The slices `xs[0..size]`, `xs[size..2*size]`, ..., the last one shorter. */
  function Chunks<T>(xs: seq<T>, size: nat): (r: seq<seq<T>>)
    requires size > 0
    decreases |xs|
  {
    if xs == [] then []
    else if |xs| <= size then [xs]
    else [xs[..size]] + Chunks(xs[size..], size)
  }

  /** `xss.flat()`: the lists one after another. */
  function Concat<T>(xss: seq<seq<T>>): seq<T>
  {
    if xss == [] then [] else xss[0] + Concat(xss[1..])
  }

  lemma {:induction false} ConcatAppend<T>(a: seq<seq<T>>, b: seq<seq<T>>)
    ensures Concat(a + b) == Concat(a) + Concat(b)
  {
    if a != [] {
      assert (a + b)[1..] == a[1..] + b;
      ConcatAppend(a[1..], b);
    } else {
      assert a + b == b;
    }
  }

  /** Together the slices are the list. */
  lemma {:induction false} ChunksConcat<T>(xs: seq<T>, size: nat)
    requires size > 0
    ensures Concat(Chunks(xs, size)) == xs
    decreases |xs|
  {
    if xs == [] {
    } else if |xs| <= size {
      assert Concat([xs]) == xs + Concat([]);
    } else {
      ChunksConcat(xs[size..], size);
      assert Chunks(xs, size)[1..] == Chunks(xs[size..], size);
      assert xs == xs[..size] + xs[size..];
    }
  }

  /** Every slice is non-empty and at most `size` long, and all but the
      last are exactly `size` long. */
  lemma {:induction false} ChunksSizes<T>(xs: seq<T>, size: nat)
    requires size > 0
    ensures forall k :: 0 <= k < |Chunks(xs, size)| ==> 0 < |Chunks(xs, size)[k]| <= size
    ensures forall k :: 0 <= k < |Chunks(xs, size)| - 1 ==> |Chunks(xs, size)[k]| == size
    decreases |xs|
  {
    if |xs| > size {
      ChunksSizes(xs[size..], size);
      var c := Chunks(xs, size);
      assert c[1..] == Chunks(xs[size..], size);
      forall k | 1 <= k < |c| ensures c[k] == Chunks(xs[size..], size)[k - 1] {
      }
    }
  }

  /** One step of the loop: the slice at `i` followed by the slices after it. */
  lemma ChunksStep<T>(xs: seq<T>, i: nat, size: nat)
    requires size > 0 && i < |xs|
    ensures Chunks(xs[i..], size)
      == [xs[i..if i + size <= |xs| then i + size else |xs|]]
         + Chunks(xs[if i + size <= |xs| then i + size else |xs|..], size)
  {
    if i + size < |xs| {
      assert xs[i..][..size] == xs[i..i + size];
      assert xs[i..][size..] == xs[i + size..];
    } else {
      assert xs[i..] == xs[i..|xs|];
      assert xs[|xs|..] == [];
    }
  }

  lemma {:induction false} MulBound(d: int, n: int)
    requires n > 0
    ensures d >= 1 ==> d * n >= n
    ensures d <= -1 ==> d * n <= -n
    decreases if d < 0 then -d else d
  {
    if d > 1 {
      MulBound(d - 1, n);
      assert d * n == (d - 1) * n + n;
    } else if d < -1 {
      MulBound(d + 1, n);
      assert d * n == (d + 1) * n - n;
    }
  }

  /** The remainder is the `r` of any `q * n + r` with `0 <= r < n`. */
  lemma ModUnique(x: int, n: int, q: int, r: int)
    requires n > 0 && 0 <= r < n && x == q * n + r
    ensures x % n == r
  {
    var q', r' := x / n, x % n;
    assert x == q' * n + r';
    MulBound(q' - q, n);
    assert (q' - q) * n == r - r';
  }

  lemma ModShift(a: nat, n: nat)
    requires n > 0
    ensures (a + n) % n == a % n
  {
    var q, r := a / n, a % n;
    assert a == q * n + r;
    assert a + n == (q + 1) * n + r;
    ModUnique(a + n, n, q + 1, r);
  }

  /** Adding an item to a list adds it to the last slice, or starts a new
      slice when the list so far fills its slices. */
  lemma {:induction false} ChunksAppend<T>(xs: seq<T>, x: T, n: nat)
    requires n > 0
    ensures |xs| % n == 0 ==> Chunks(xs + [x], n) == Chunks(xs, n) + [[x]]
    ensures |xs| % n != 0 ==>
              var c := Chunks(xs, n);
              |c| > 0 && Chunks(xs + [x], n) == c[..|c| - 1] + [c[|c| - 1] + [x]]
    decreases |xs|
  {
    if |xs| <= n {
      ChunksAppendShort(xs, x, n);
    } else {
      var tail := xs[n..];
      ChunksOfLonger(xs, x, n);
      ModShift(|tail|, n);
      ChunksAppend(tail, x, n);
      var c := Chunks(xs, n);
      var ct := Chunks(tail, n);
      if |xs| % n != 0 {
        assert c[..|c| - 1] == [xs[..n]] + ct[..|ct| - 1];
        assert c[|c| - 1] == ct[|ct| - 1];
      }
    }
  }

  lemma ChunksAppendShort<T>(xs: seq<T>, x: T, n: nat)
    requires n > 0 && |xs| <= n
    ensures |xs| % n == 0 ==> Chunks(xs + [x], n) == Chunks(xs, n) + [[x]]
    ensures |xs| % n != 0 ==> Chunks(xs, n) == [xs] && Chunks(xs + [x], n) == [xs + [x]]
  {
    if xs == [] {
      assert xs + [x] == [x];
    } else if |xs| < n {
      ModUnique(|xs|, n, 0, |xs|);
    } else {
      ModUnique(n, n, 1, 0);
      assert (xs + [x])[..n] == xs;
      assert (xs + [x])[n..] == [x];
    }
  }

  /** A list longer than one slice, with or without one more item. */
  lemma ChunksOfLonger<T>(xs: seq<T>, x: T, n: nat)
    requires n > 0 && |xs| > n
    ensures Chunks(xs, n) == [xs[..n]] + Chunks(xs[n..], n)
    ensures Chunks(xs + [x], n) == [xs[..n]] + Chunks(xs[n..] + [x], n)
    ensures |xs[n..]| + n == |xs|
  {
    assert (xs + [x])[..n] == xs[..n];
    assert (xs + [x])[n..] == xs[n..] + [x];
  }

  /** Item `q * n + r` (with `r < n`) is item `r` of slice `q`: a slice
      starts exactly at the indices divisible by `n`. */
  lemma {:induction false} ChunksAt<T>(xs: seq<T>, n: nat, q: nat, r: nat)
    requires n > 0 && r < n && q * n + r < |xs|
    ensures q < |Chunks(xs, n)| && r < |Chunks(xs, n)[q]| && Chunks(xs, n)[q][r] == xs[q * n + r]
    decreases q
  {
    var i := q * n + r;
    if q > 0 {
      var j := (q - 1) * n + r;
      MulStep(q, n);
      assert i == j + n;
      ChunksAt(xs[n..], n, q - 1, r);
      assert xs[n..][j] == xs[i];
    } else {
      assert i == r;
    }
  }

  lemma MulStep(q: nat, n: nat)
    requires q > 0
    ensures q * n == (q - 1) * n + n
  {
  }

}
