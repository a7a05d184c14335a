/** Python's sorted() with the greatest key first, equal keys in their first order. */
module Sorting {
  function Insert<T>(x: T, xs: seq<T>, key: T -> real): seq<T> {
    if |xs| == 0 then [x]
    else if key(x) > key(xs[|xs| - 1]) then Insert(x, xs[..|xs| - 1], key) + [xs[|xs| - 1]]
    else xs + [x]
  }

  function SortDescending<T>(xs: seq<T>, key: T -> real): seq<T> {
    if |xs| == 0 then [] else Insert(xs[|xs| - 1], SortDescending(xs[..|xs| - 1], key), key)
  }

  ghost predicate IsDescending<T>(xs: seq<T>, key: T -> real) {
    forall p, q :: 0 <= p < q < |xs| ==> key(xs[p]) >= key(xs[q])
  }

  lemma SplitLast<T>(xs: seq<T>)
    requires |xs| > 0
    ensures xs == xs[..|xs| - 1] + [xs[|xs| - 1]]
    ensures multiset(xs) == multiset(xs[..|xs| - 1]) + multiset{xs[|xs| - 1]}
  {
    assert xs == xs[..|xs| - 1] + [xs[|xs| - 1]];
  }

  lemma {:induction false} InsertKeeps<T>(x: T, xs: seq<T>, key: T -> real)
    ensures multiset(Insert(x, xs, key)) == multiset(xs) + multiset{x}
    ensures forall y :: y in Insert(x, xs, key) <==> y == x || y in xs
  {
    if |xs| > 0 {
      SplitLast(xs);
      InsertKeeps(x, xs[..|xs| - 1], key);
    }
  }

  ghost predicate AllAtLeast<T>(xs: seq<T>, key: T -> real, k: real) {
    forall p :: 0 <= p < |xs| ==> key(xs[p]) >= k
  }

  lemma {:induction false} InsertAtLeast<T>(x: T, xs: seq<T>, key: T -> real, k: real)
    requires AllAtLeast(xs, key, k) && key(x) >= k
    ensures AllAtLeast(Insert(x, xs, key), key, k)
  {
    if |xs| > 0 {
      InsertAtLeast(x, xs[..|xs| - 1], key, k);
    }
  }

  lemma {:induction false} InsertSorted<T>(x: T, xs: seq<T>, key: T -> real)
    requires IsDescending(xs, key)
    ensures IsDescending(Insert(x, xs, key), key)
  {
    if |xs| > 0 && key(x) > key(xs[|xs| - 1]) {
      var init, last := xs[..|xs| - 1], xs[|xs| - 1];
      InsertSorted(x, init, key);
      InsertAtLeast(x, init, key, key(last));
    }
  }

  /** The result is a sorted permutation. */
  lemma {:induction false} SortingSorts<T>(xs: seq<T>, key: T -> real)
    ensures IsDescending(SortDescending(xs, key), key)
    ensures multiset(SortDescending(xs, key)) == multiset(xs)
  {
    if |xs| > 0 {
      var init, last := xs[..|xs| - 1], xs[|xs| - 1];
      SplitLast(xs);
      SortingSorts(init, key);
      InsertSorted(last, SortDescending(init, key), key);
      InsertKeeps(last, SortDescending(init, key), key);
    }
  }

  /** The elements with one key, in order. */
  ghost function WithKey<T>(xs: seq<T>, key: T -> real, k: real): seq<T> {
    if |xs| == 0 then []
    else WithKey(xs[..|xs| - 1], key, k) + (if key(xs[|xs| - 1]) == k then [xs[|xs| - 1]] else [])
  }

  lemma {:induction false} InsertStable<T>(x: T, xs: seq<T>, key: T -> real, k: real)
    ensures WithKey(Insert(x, xs, key), key, k) == WithKey(xs, key, k) + (if key(x) == k then [x] else [])
  {
    if |xs| > 0 && key(x) > key(xs[|xs| - 1]) {
      var init := xs[..|xs| - 1];
      InsertStable(x, init, key, k);
      assert Insert(x, xs, key)[..|Insert(x, init, key)|] == Insert(x, init, key);
    } else {
      assert (xs + [x])[..|xs|] == xs;
    }
  }

  /** Elements with equal keys keep their order. */
  lemma {:induction false} SortingIsStable<T>(xs: seq<T>, key: T -> real, k: real)
    ensures WithKey(SortDescending(xs, key), key, k) == WithKey(xs, key, k)
  {
    if |xs| > 0 {
      var init := xs[..|xs| - 1];
      SortingIsStable(init, key, k);
      InsertStable(xs[|xs| - 1], SortDescending(init, key), key, k);
    }
  }
}
