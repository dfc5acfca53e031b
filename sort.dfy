/**
 * `Array.prototype.sort` with a numeric comparator `(a, b) => key(a) - key(b)`:
 * a stable sort by key, specified on sequences and carried out in place on an array.
 */
module StableSort {
  /** Ascending by key. */
  predicate SortedBy<T>(xs: seq<T>, key: T -> int) {
    forall i, j :: 0 <= i < j < |xs| ==> key(xs[i]) <= key(xs[j])
  }

  /** `x` placed after every element of `sorted` whose key is not larger than its own. */
  function Insert<T>(sorted: seq<T>, x: T, key: T -> int): (r: seq<T>)
    ensures |r| == |sorted| + 1
    decreases |sorted|
  {
    if sorted == [] then [x]
    else
      var last := sorted[|sorted| - 1];
      if key(last) > key(x) then Insert(sorted[..|sorted| - 1], x, key) + [last]
      else sorted + [x]
  }

  lemma {:induction false} InsertPerm<T>(sorted: seq<T>, x: T, key: T -> int)
    ensures multiset(Insert(sorted, x, key)) == multiset(sorted) + multiset{x}
    decreases |sorted|
  {
    if sorted != [] {
      var last := sorted[|sorted| - 1];
      assert sorted == sorted[..|sorted| - 1] + [last];
      if key(last) > key(x) {
        InsertPerm(sorted[..|sorted| - 1], x, key);
      }
    }
  }

  /** The stable sort: each element inserted in turn, so equal keys keep their order. */
  function SortBy<T>(xs: seq<T>, key: T -> int): (r: seq<T>)
    ensures |r| == |xs|
    decreases |xs|
  {
    if xs == [] then [] else Insert(SortBy(xs[..|xs| - 1], key), xs[|xs| - 1], key)
  }

  /** The result is a permutation of the input. */
  lemma {:induction false} SortPerm<T>(xs: seq<T>, key: T -> int)
    ensures multiset(SortBy(xs, key)) == multiset(xs)
    decreases |xs|
  {
    if xs != [] {
      SortPerm(xs[..|xs| - 1], key);
      InsertPerm(SortBy(xs[..|xs| - 1], key), xs[|xs| - 1], key);
      assert xs == xs[..|xs| - 1] + [xs[|xs| - 1]];
    }
  }

  lemma {:induction false} InsertSorted<T>(sorted: seq<T>, x: T, key: T -> int)
    requires SortedBy(sorted, key)
    ensures SortedBy(Insert(sorted, x, key), key)
    decreases |sorted|
  {
    if sorted != [] {
      var init := sorted[..|sorted| - 1];
      var last := sorted[|sorted| - 1];
      if key(last) > key(x) {
        InsertSorted(init, x, key);
        InsertPerm(init, x, key);
        var r := Insert(init, x, key);
        forall i | 0 <= i < |r| ensures key(r[i]) <= key(last) {
          assert r[i] in multiset(r);
          if r[i] != x {
            assert r[i] in multiset(init);
            var k :| 0 <= k < |init| && init[k] == r[i];
            assert sorted[k] == r[i];
          }
        }
        assert Insert(sorted, x, key) == r + [last];
      }
    }
  }

  /** The result is in ascending key order. */
  lemma {:induction false} SortSorted<T>(xs: seq<T>, key: T -> int)
    ensures SortedBy(SortBy(xs, key), key)
    decreases |xs|
  {
    if xs != [] {
      SortSorted(xs[..|xs| - 1], key);
      InsertSorted(SortBy(xs[..|xs| - 1], key), xs[|xs| - 1], key);
    }
  }

  /** A sequence already in key order is left as it is. */
  lemma {:induction false} SortIdem<T>(xs: seq<T>, key: T -> int)
    requires SortedBy(xs, key)
    ensures SortBy(xs, key) == xs
    decreases |xs|
  {
    if xs != [] {
      var init := xs[..|xs| - 1];
      assert SortedBy(init, key);
      SortIdem(init, key);
      assert init + [xs[|xs| - 1]] == xs;
    }
  }

  /** The elements of `xs` whose key is `k`, in their order in `xs`. */
  function WithKey<T>(xs: seq<T>, key: T -> int, k: int): (r: seq<T>)
    ensures |r| <= |xs|
    ensures forall i :: 0 <= i < |r| ==> key(r[i]) == k
    decreases |xs|
  {
    if xs == [] then []
    else
      var last := xs[|xs| - 1];
      WithKey(xs[..|xs| - 1], key, k) + (if key(last) == k then [last] else [])
  }

  /** Filtering by a key distributes over appending one element. */
  lemma WithKeySnoc<T>(xs: seq<T>, x: T, key: T -> int, k: int)
    ensures WithKey(xs + [x], key, k) == WithKey(xs, key, k) + (if key(x) == k then [x] else [])
  {
    assert (xs + [x])[..|xs|] == xs;
  }

  /** `x` only moves past larger keys, so among its equals it lands last. */
  lemma {:induction false} InsertWithKey<T>(sorted: seq<T>, x: T, key: T -> int, k: int)
    ensures WithKey(Insert(sorted, x, key), key, k)
         == WithKey(sorted, key, k) + (if key(x) == k then [x] else [])
    decreases |sorted|
  {
    if sorted == [] {
      WithKeySnoc([], x, key, k);
    } else {
      var init := sorted[..|sorted| - 1];
      var last := sorted[|sorted| - 1];
      assert sorted == init + [last];
      if key(last) > key(x) {
        InsertWithKey(init, x, key, k);
        WithKeySnoc(Insert(init, x, key), last, key, k);
        WithKeySnoc(init, last, key, k);
      } else {
        WithKeySnoc(sorted, x, key, k);
      }
    }
  }

  /**
   * The sort is stable: for every key, the elements carrying it come out in the
   * order they had in the input.
   */
  lemma {:induction false} SortStable<T>(xs: seq<T>, key: T -> int, k: int)
    ensures WithKey(SortBy(xs, key), key, k) == WithKey(xs, key, k)
    decreases |xs|
  {
    if xs != [] {
      var init := xs[..|xs| - 1];
      SortStable(init, key, k);
      InsertWithKey(SortBy(init, key), xs[|xs| - 1], key, k);
    }
  }

  /** Inserting behind a run of larger keys: the run moves one place right. */
  lemma InsertPast<T>(init: seq<T>, last: T, x: T, key: T -> int)
    requires key(last) > key(x)
    ensures Insert(init + [last], x, key) == Insert(init, x, key) + [last]
  {
    assert (init + [last])[..|init|] == init;
  }

  /** Inserting behind a key not larger than its own: `x` goes last. */
  lemma InsertStop<T>(init: seq<T>, last: T, x: T, key: T -> int)
    requires key(last) <= key(x)
    ensures Insert(init + [last], x, key) == init + [last] + [x]
  {
  }

  /**
   * `a[..i]` already sorted, `a[i]` swapped leftwards past the larger keys before
   * it; what lies right of `i` is not touched.
   */
  method SinkLeft<T>(a: array<T>, i: nat, key: T -> int)
    requires i < a.Length
    modifies a
    ensures a[..i + 1] == Insert(old(a[..i]), old(a[i]), key)
    ensures a[i + 1..] == old(a[i + 1..])
  {
    var x := a[i];
    ghost var init := a[..i];
    var j := i;
    while j > 0 && key(a[j - 1]) > key(x)
      invariant 0 <= j <= i && a[j] == x
      invariant a[i + 1..] == old(a[i + 1..])
      invariant Insert(a[..j], x, key) + a[j + 1..i + 1] == Insert(init, x, key)
      decreases j
    {
      ghost var pre := a[..j - 1];
      var last := a[j - 1];
      ghost var post := a[j + 1..i + 1];
      assert a[..j] == pre + [last];
      InsertPast(pre, last, x, key);
      a[j] := last;
      a[j - 1] := x;
      assert a[..j - 1] == pre;
      assert a[j..i + 1] == [last] + post;
      j := j - 1;
    }
    ghost var post := a[j + 1..i + 1];
    if j > 0 {
      assert a[..j] == a[..j - 1] + [a[j - 1]];
      InsertStop(a[..j - 1], a[j - 1], x, key);
      assert a[..i + 1] == a[..j] + [x] + post;
    } else {
      assert a[..i + 1] == [x] + post;
    }
  }

  /** The in-place sort: each element in turn is swapped leftwards past the larger keys before it. */
  method SortInPlace<T>(a: array<T>, key: T -> int)
    modifies a
    ensures a[..] == SortBy(old(a[..]), key)
  {
    ghost var orig := a[..];
    for i := 0 to a.Length
      invariant a[..i] == SortBy(orig[..i], key)
      invariant a[i..] == orig[i..]
    {
      assert orig[..i + 1][..i] == orig[..i];
      assert orig[..i + 1][i] == a[i];
      SinkLeft(a, i, key);
    }
    assert orig[..a.Length] == orig;
  }
}
