/**
 * Selecting the records of a collection that match a query, in collection
 * order.  Every query by field value in the controllers is this filter.
 */
module Filtering {

  /** The elements of `xs` satisfying `p`, in their original order. */
  function Filter<T(==,!new)>(xs: seq<T>, p: T -> bool): (r: seq<T>)
    ensures forall x :: x in r <==> x in xs && p(x)
    ensures forall x :: multiset(r)[x] == if p(x) then multiset(xs)[x] else 0
    ensures |r| <= |xs|
  {
    if xs == [] then []
    else
      assert xs == [xs[0]] + xs[1..];
      if p(xs[0]) then [xs[0]] + Filter(xs[1..], p)
      else Filter(xs[1..], p)
  }
}
