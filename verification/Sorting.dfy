/** A stable sort by any total preorder. */
module Sorting {

  function Insert<T>(x: T, xs: seq<T>, le: (T, T) -> bool): seq<T> {
    if xs == [] || le(x, xs[0]) then [x] + xs else [xs[0]] + Insert(x, xs[1..], le)
  }

  function Sort<T>(xs: seq<T>, le: (T, T) -> bool): seq<T> {
    if xs == [] then [] else Insert(xs[0], Sort(xs[1..], le), le)
  }

  ghost predicate InOrder<T>(xs: seq<T>, le: (T, T) -> bool) {
    forall i, j :: 0 <= i < j < |xs| ==> le(xs[i], xs[j])
  }

  ghost predicate TotalOrder<T(!new)>(le: (T, T) -> bool) {
    && (forall x, y :: le(x, y) || le(y, x))
    && (forall x, y, z :: le(x, y) && le(y, z) ==> le(x, z))
  }

  lemma {:induction false} InsertAdds<T>(x: T, xs: seq<T>, le: (T, T) -> bool)
    ensures multiset(Insert(x, xs, le)) == multiset{x} + multiset(xs)
  {
    if xs != [] && !le(x, xs[0]) {
      InsertAdds(x, xs[1..], le);
      assert xs == [xs[0]] + xs[1..];
    }
  }

  lemma Prepend<T(!new)>(x: T, xs: seq<T>, le: (T, T) -> bool)
    requires InOrder(xs, le) && forall j :: 0 <= j < |xs| ==> le(x, xs[j])
    ensures InOrder([x] + xs, le)
  {
  }

  lemma BelowAll<T(!new)>(x: T, xs: seq<T>, le: (T, T) -> bool)
    requires TotalOrder(le) && InOrder(xs, le) && xs != [] && le(x, xs[0])
    ensures forall j :: 0 <= j < |xs| ==> le(x, xs[j])
  {
    forall j | 0 < j < |xs|
      ensures le(x, xs[j])
    {
      assert le(xs[0], xs[j]);
    }
  }

  lemma HeadBelowInserted<T(!new)>(x: T, xs: seq<T>, le: (T, T) -> bool)
    requires TotalOrder(le) && InOrder(xs, le) && xs != [] && le(xs[0], x)
    ensures forall j :: 0 <= j < |Insert(x, xs[1..], le)| ==> le(xs[0], Insert(x, xs[1..], le)[j])
  {
    var rest := Insert(x, xs[1..], le);
    InsertAdds(x, xs[1..], le);
    forall j | 0 <= j < |rest|
      ensures le(xs[0], rest[j])
    {
      assert rest[j] in multiset(rest);
    }
  }

  lemma {:induction false} InsertKeepsOrder<T(!new)>(x: T, xs: seq<T>, le: (T, T) -> bool)
    requires TotalOrder(le) && InOrder(xs, le)
    ensures InOrder(Insert(x, xs, le), le)
  {
    if xs == [] {
    } else if le(x, xs[0]) {
      BelowAll(x, xs, le);
      Prepend(x, xs, le);
    } else {
      InsertKeepsOrder(x, xs[1..], le);
      HeadBelowInserted(x, xs, le);
      Prepend(xs[0], Insert(x, xs[1..], le), le);
    }
  }

  /** The result is the same elements in order. */
  lemma {:induction false} SortSorts<T(!new)>(xs: seq<T>, le: (T, T) -> bool)
    requires TotalOrder(le)
    ensures InOrder(Sort(xs, le), le) && multiset(Sort(xs, le)) == multiset(xs)
  {
    if xs != [] {
      SortSorts(xs[1..], le);
      InsertKeepsOrder(xs[0], Sort(xs[1..], le), le);
      InsertAdds(xs[0], Sort(xs[1..], le), le);
      assert xs == [xs[0]] + xs[1..];
    }
  }

  /** What is in order already stays as it is. */
  lemma {:induction false} SortKeepsOrder<T>(xs: seq<T>, le: (T, T) -> bool)
    requires InOrder(xs, le)
    ensures Sort(xs, le) == xs
  {
    if xs != [] {
      SortKeepsOrder(xs[1..], le);
      assert |xs| > 1 ==> le(xs[0], xs[1]);
    }
  }

  /** Sorting rearranges, so it keeps what every element satisfies. */
  lemma SameElements<T>(xs: seq<T>, ys: seq<T>, x: T)
    requires multiset(xs) == multiset(ys)
    ensures x in xs <==> x in ys
    ensures |xs| == |ys|
  {
    assert x in xs <==> x in multiset(xs);
    assert x in ys <==> x in multiset(ys);
    assert |multiset(xs)| == |xs| && |multiset(ys)| == |ys|;
  }
}
