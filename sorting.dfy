/** Ordering and capping of result lists: SQL `ORDER BY <key> LIMIT n` and
    JavaScript's stable `Array.prototype.sort`, both as a stable insertion
    sort on a numeric key. */
module Sorting {

  /** `xs.filter(keep)`. */
  function Filter<T>(xs: seq<T>, keep: T -> bool): (r: seq<T>)
    ensures |r| <= |xs|
    ensures forall x :: x in r ==> x in xs && keep(x)
    ensures forall x :: x in xs && keep(x) ==> x in r
    ensures multiset(r) <= multiset(xs)
  {
    if xs == [] then []
    else
      assert xs == [xs[0]] + xs[1..];
      (if keep(xs[0]) then [xs[0]] else []) + Filter(xs[1..], keep)
  }

  lemma FilterCons<T>(x: T, xs: seq<T>, keep: T -> bool)
    ensures Filter([x] + xs, keep) == (if keep(x) then [x] else []) + Filter(xs, keep)
  {
    assert ([x] + xs)[1..] == xs;
  }

  /** A passing element in front is kept in front. */
  lemma FilterKeep<T>(x: T, xs: seq<T>, keep: T -> bool)
    requires keep(x)
    ensures Filter([x] + xs, keep) == [x] + Filter(xs, keep)
  {
    FilterCons(x, xs, keep);
  }

  /** A failing element in front is dropped. */
  lemma FilterSkip<T>(x: T, xs: seq<T>, keep: T -> bool)
    requires !keep(x)
    ensures Filter([x] + xs, keep) == Filter(xs, keep)
  {
    FilterCons(x, xs, keep);
  }

  lemma {:induction false} FilterAppend<T>(xs: seq<T>, ys: seq<T>, keep: T -> bool)
    ensures Filter(xs + ys, keep) == Filter(xs, keep) + Filter(ys, keep)
    decreases |xs|
  {
    if xs == [] {
      assert xs + ys == ys;
    } else {
      assert (xs + ys)[1..] == xs[1..] + ys;
      FilterAppend(xs[1..], ys, keep);
    }
  }

  /** Filtering keeps a list whose every element passes, and empties one
      whose every element fails. */
  lemma {:induction false} FilterAllOrNone<T>(xs: seq<T>, keep: T -> bool)
    ensures (forall k :: 0 <= k < |xs| ==> keep(xs[k])) ==> Filter(xs, keep) == xs
    ensures (forall k :: 0 <= k < |xs| ==> !keep(xs[k])) ==> Filter(xs, keep) == []
    decreases |xs|
  {
    if xs != [] {
      FilterAllOrNone(xs[1..], keep);
      assert forall k :: 1 <= k < |xs| ==> xs[1..][k - 1] == xs[k];
    }
  }

  ghost predicate SortedBy<T>(xs: seq<T>, key: T -> real) {
    forall i, j :: 0 <= i < j < |xs| ==> key(xs[i]) <= key(xs[j])
  }

  /** Puts `x` in front of the first element whose key is not smaller, so
      that equal keys keep their order. */
  function Insert<T>(x: T, xs: seq<T>, key: T -> real): (r: seq<T>)
    ensures multiset(r) == multiset(xs) + multiset{x}
    ensures |r| == |xs| + 1
  {
    if xs == [] || key(x) <= key(xs[0]) then [x] + xs
    else
      assert xs == [xs[0]] + xs[1..];
      [xs[0]] + Insert(x, xs[1..], key)
  }

  function SortBy<T>(xs: seq<T>, key: T -> real): (r: seq<T>)
    ensures multiset(r) == multiset(xs)
    ensures |r| == |xs|
  {
    if xs == [] then []
    else
      assert xs == [xs[0]] + xs[1..];
      Insert(xs[0], SortBy(xs[1..], key), key)
  }

  lemma {:induction false} InsertSorted<T>(x: T, xs: seq<T>, key: T -> real)
    requires SortedBy(xs, key)
    ensures SortedBy(Insert(x, xs, key), key)
  {
    if xs != [] && key(x) > key(xs[0]) {
      var a := xs[0];
      var r := Insert(x, xs[1..], key);
      InsertSorted(x, xs[1..], key);
      forall j | 0 <= j < |r| ensures key(a) <= key(r[j]) {
        InsertedFrom(x, xs, key, j);
      }
      assert Insert(x, xs, key) == [a] + r;
      SortedCons(a, r, key);
    }
  }

  /** Every element of an insertion below the head is `x` or from the tail. */
  lemma InsertedFrom<T>(x: T, xs: seq<T>, key: T -> real, j: nat)
    requires SortedBy(xs, key) && xs != [] && key(x) > key(xs[0])
    requires j < |Insert(x, xs[1..], key)|
    ensures key(xs[0]) <= key(Insert(x, xs[1..], key)[j])
  {
    var r := Insert(x, xs[1..], key);
    assert r[j] in multiset(r);
    if r[j] != x {
      assert r[j] in multiset(xs[1..]);
      var k :| 0 <= k < |xs[1..]| && xs[1..][k] == r[j];
      assert xs[k + 1] == r[j];
    }
  }

  /** A head no greater than anything of a sorted tail keeps it sorted. */
  lemma SortedCons<T>(a: T, r: seq<T>, key: T -> real)
    requires SortedBy(r, key)
    requires forall j :: 0 <= j < |r| ==> key(a) <= key(r[j])
    ensures SortedBy([a] + r, key)
  {
    forall i, j | 0 <= i < j < |[a] + r| ensures key(([a] + r)[i]) <= key(([a] + r)[j]) {
      if i > 0 {
        assert ([a] + r)[i] == r[i - 1] && ([a] + r)[j] == r[j - 1];
      }
    }
  }

  /** The result is in ascending key order and holds the same elements. */
  lemma {:induction false} SortBySorted<T>(xs: seq<T>, key: T -> real)
    ensures SortedBy(SortBy(xs, key), key)
  {
    if xs != [] {
      SortBySorted(xs[1..], key);
      InsertSorted(xs[0], SortBy(xs[1..], key), key);
    }
  }

  /** Insertion passes over only elements with smaller keys, so `x` lands in
      front of every element with its own key: among the elements of one
      key, `x` comes first. */
  lemma {:induction false} InsertStable<T>(x: T, ys: seq<T>, key: T -> real, keep: T -> bool, v: real)
    requires forall y :: keep(y) <==> key(y) == v
    ensures Filter(Insert(x, ys, key), keep) == (if keep(x) then [x] else []) + Filter(ys, keep)
    decreases |ys|
  {
    if ys == [] || key(x) <= key(ys[0]) {
      assert Insert(x, ys, key) == [x] + ys;
      FilterCons(x, ys, keep);
    } else {
      var a := ys[0];
      var r := Insert(x, ys[1..], key);
      assert Insert(x, ys, key) == [a] + r;
      assert ys == [a] + ys[1..];
      InsertStable(x, ys[1..], key, keep, v);
      assert keep(x) ==> !keep(a);
      InsertPastSmaller(x, a, ys[1..], r, keep);
    }
  }

  /** The step of `InsertStable` past an element `a` with a smaller key. */
  lemma InsertPastSmaller<T>(x: T, a: T, rest: seq<T>, r: seq<T>, keep: T -> bool)
    requires keep(x) ==> !keep(a)
    requires Filter(r, keep) == (if keep(x) then [x] else []) + Filter(rest, keep)
    ensures Filter([a] + r, keep) == (if keep(x) then [x] else []) + Filter([a] + rest, keep)
  {
    if keep(x) {
      FilterSkip(a, r, keep);
      FilterSkip(a, rest, keep);
    } else {
      assert Filter(r, keep) == Filter(rest, keep);
      FilterCons(a, r, keep);
      FilterCons(a, rest, keep);
    }
  }

  /** The sort is stable: for any one key, the elements with that key come
      out in the order they went in. */
  lemma {:induction false} SortByStable<T>(xs: seq<T>, key: T -> real, keep: T -> bool, v: real)
    requires forall y :: keep(y) <==> key(y) == v
    ensures Filter(SortBy(xs, key), keep) == Filter(xs, keep)
    decreases |xs|
  {
    if xs != [] {
      assert xs == [xs[0]] + xs[1..];
      SortByStable(xs[1..], key, keep, v);
      InsertStable(xs[0], SortBy(xs[1..], key), key, keep, v);
      FilterCons(xs[0], xs[1..], keep);
    }
  }

  /** Of the elements that pass, those in a prefix are the first of them. */
  lemma FilterPrefix<T>(xs: seq<T>, n: nat, keep: T -> bool)
    requires n <= |xs|
    ensures Filter(xs[..n], keep) <= Filter(xs, keep)
  {
    assert xs == xs[..n] + xs[n..];
    FilterAppend(xs[..n], xs[n..], keep);
  }

  /** `LIMIT n` / `slice(0, n)`. */
  function Take<T>(xs: seq<T>, n: nat): (r: seq<T>)
    ensures |r| == if |xs| < n then |xs| else n
    ensures r == xs[..|r|]
  {
    if |xs| <= n then xs else xs[..n]
  }

  /** Cutting a sorted list after `n` keeps the `n` smallest keys: nothing
      left out has a smaller key than anything kept. */
  lemma TakeKeepsSmallest<T>(xs: seq<T>, key: T -> real, n: nat)
    requires SortedBy(xs, key)
    ensures SortedBy(Take(xs, n), key)
    ensures multiset(Take(xs, n)) <= multiset(xs)
    ensures forall x, y :: x in Take(xs, n) && y in multiset(xs) - multiset(Take(xs, n)) ==> key(x) <= key(y)
  {
    var t := Take(xs, n);
    assert xs == t + xs[|t|..];
    forall x, y | x in t && y in multiset(xs) - multiset(t) ensures key(x) <= key(y) {
      assert y in multiset(xs[|t|..]);
      var i :| 0 <= i < |t| && t[i] == x;
      var j :| 0 <= j < |xs[|t|..]| && xs[|t|..][j] == y;
      assert xs[i] == x && xs[|t| + j] == y;
    }
  }

  /** The first `n` after a stable sort: at most `n` of the list's
      elements, in key order, and none left out has a smaller key. */
  lemma SortedTop<T>(xs: seq<T>, key: T -> real, n: nat)
    ensures var t := Take(SortBy(xs, key), n);
            |t| <= n
            && SortedBy(t, key)
            && multiset(t) <= multiset(xs)
            && (forall x, y :: x in t && y in multiset(xs) - multiset(t) ==> key(x) <= key(y))
  {
    var sorted := SortBy(xs, key);
    SortBySorted(xs, key);
    TakeKeepsSmallest(sorted, key, n);
  }
}
