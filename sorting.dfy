/**
 * Ordering of query results by a numeric key, largest key first, as the
 * document store does for `.sort({ field: -1 })`.  The store does not fix the
 * order of records with equal keys, so everything the controllers rely on is
 * stated through `SortedDesc` and the multiset of elements only.
 */
module Sorting {

  /** Every element's key is at least the key of every later element. */
  predicate SortedDesc<T>(xs: seq<T>, key: T -> int)
  {
    forall i, j :: 0 <= i < j < |xs| ==> key(xs[i]) >= key(xs[j])
  }

  /** Places `x` in front of the first element whose key is not larger than its own. */
  function Insert<T(==)>(x: T, xs: seq<T>, key: T -> int): (r: seq<T>)
    requires SortedDesc(xs, key)
    ensures |r| == |xs| + 1
    ensures r[0] == x || (xs != [] && r[0] == xs[0])
    ensures SortedDesc(r, key)
    ensures multiset(r) == multiset(xs) + multiset{x}
  {
    if xs == [] || key(x) >= key(xs[0]) then
      [x] + xs
    else
      var rest := Insert(x, xs[1..], key);
      assert xs == [xs[0]] + xs[1..];
      assert key(xs[0]) >= key(rest[0]);
      [xs[0]] + rest
  }

  /** Insertion sort: a descending-by-key permutation of `xs`. */
  function SortDesc<T(==)>(xs: seq<T>, key: T -> int): (r: seq<T>)
    ensures |r| == |xs|
    ensures SortedDesc(r, key)
    ensures multiset(r) == multiset(xs)
  {
    if xs == [] then []
    else
      assert xs == [xs[0]] + xs[1..];
      Insert(xs[0], SortDesc(xs[1..], key), key)
  }

}
