/**
  A stable sort, by any order: equal elements stay in the order they were given.
 */
module Sorting {

  /** Any two elements can be compared, and the comparisons fit together. */
  ghost predicate IsOrder<T(!new)>(atMost: (T, T) -> bool) {
    && (forall a, b :: atMost(a, b) || atMost(b, a))
    && (forall a, b, c :: atMost(a, b) && atMost(b, c) ==> atMost(a, c))
  }

  ghost predicate InOrder<T>(xs: seq<T>, atMost: (T, T) -> bool) {
    forall i, j :: 0 <= i < j < |xs| ==> atMost(xs[i], xs[j])
  }

  function Insert<T>(x: T, xs: seq<T>, atMost: (T, T) -> bool): (r: seq<T>)
    ensures |r| == |xs| + 1
  {
    if xs == [] || atMost(x, xs[0]) then [x] + xs else [xs[0]] + Insert(x, xs[1..], atMost)
  }

  function Sorted<T>(xs: seq<T>, atMost: (T, T) -> bool): (r: seq<T>)
    ensures |r| == |xs|
  {
    if xs == [] then [] else Insert(xs[0], Sorted(xs[1..], atMost), atMost)
  }

  lemma {:induction false} InsertAdds<T>(x: T, xs: seq<T>, atMost: (T, T) -> bool)
    ensures multiset(Insert(x, xs, atMost)) == multiset{x} + multiset(xs)
  {
    if xs == [] || atMost(x, xs[0]) {
    } else {
      InsertAdds(x, xs[1..], atMost);
      assert xs == [xs[0]] + xs[1..];
    }
  }

  lemma {:induction false} SortedPermutes<T>(xs: seq<T>, atMost: (T, T) -> bool)
    ensures multiset(Sorted(xs, atMost)) == multiset(xs)
  {
    if xs == [] {
    } else {
      SortedPermutes(xs[1..], atMost);
      InsertAdds(xs[0], Sorted(xs[1..], atMost), atMost);
      assert xs == [xs[0]] + xs[1..];
    }
  }

  lemma {:induction false} InsertKeepsOrder<T(!new)>(x: T, xs: seq<T>, atMost: (T, T) -> bool)
    requires IsOrder(atMost) && InOrder(xs, atMost)
    ensures InOrder(Insert(x, xs, atMost), atMost)
    ensures Insert(x, xs, atMost)[0] == if xs == [] || atMost(x, xs[0]) then x else xs[0]
  {
    if xs == [] {
    } else if atMost(x, xs[0]) {
      SmallerFirst(x, xs, atMost);
    } else {
      InsertKeepsOrder(x, xs[1..], atMost);
      SmallerFirst(xs[0], Insert(x, xs[1..], atMost), atMost);
    }
  }

  lemma SmallerFirst<T(!new)>(x: T, xs: seq<T>, atMost: (T, T) -> bool)
    requires IsOrder(atMost) && InOrder(xs, atMost) && xs != [] && atMost(x, xs[0])
    ensures InOrder([x] + xs, atMost)
  {
    forall j | 0 <= j < |xs| ensures atMost(x, xs[j]) {
      assert j > 0 ==> atMost(xs[0], xs[j]);
    }
  }

  lemma {:induction false} SortedSorts<T(!new)>(xs: seq<T>, atMost: (T, T) -> bool)
    requires IsOrder(atMost)
    ensures InOrder(Sorted(xs, atMost), atMost)
  {
    if xs == [] {
    } else {
      SortedSorts(xs[1..], atMost);
      InsertKeepsOrder(xs[0], Sorted(xs[1..], atMost), atMost);
    }
  }
}
