/** Finite sets of slot indices: rank, the lowest few, ascending order. */
module Slots {
  import opened Prelude

  function Below(S: set<nat>, i: nat): set<nat> {
    set j | j in S && j < i
  }

  /** How many members come before i. */
  function Rank(S: set<nat>, i: nat): nat {
    |Below(S, i)|
  }

  /** The b lowest members. */
  function Lowest(S: set<nat>, b: nat): set<nat> {
    set i | i in S && Rank(S, i) < b
  }

  lemma RankNext(S: set<nat>, i: nat)
    ensures Rank(S, i + 1) == Rank(S, i) + if i in S then 1 else 0
  {
    assert Below(S, i + 1) == Below(S, i) + if i in S then {i} else {};
  }

  lemma SubsetSize<T>(a: set<T>, b: set<T>)
    requires a <= b
    ensures |a| <= |b| && (|a| == |b| ==> a == b)
  {
    assert b == a + (b - a);
    assert |b| == |a| + |b - a|;
  }

  lemma RankAtMostSize(S: set<nat>, i: nat)
    ensures Rank(S, i) <= |S|
    ensures i in S ==> Rank(S, i) < |S|
  {
    SubsetSize(Below(S, i), S);
    if i in S {
      SubsetSize(Below(S, i), S - {i});
    }
  }

  lemma HasGreatest(S: set<nat>) returns (m: nat)
    requires S != {}
    ensures m in S && forall j :: j in S ==> j <= m
  {
    m :| m in S;
    while exists j :: j in S && j > m
      invariant m in S
      decreases |S| - Rank(S, m)
    {
      var j :| j in S && j > m;
      assert Below(S, m) + {m} <= Below(S, j);
      SubsetSize(Below(S, m) + {m}, Below(S, j));
      RankAtMostSize(S, j);
      m := j;
    }
  }

  lemma {:induction false} LowestSize(S: set<nat>, b: nat)
    ensures |Lowest(S, b)| == Min(b, |S|)
    decreases |S|
  {
    if S != {} {
      var m := HasGreatest(S);
      var T := S - {m};
      LowestSize(T, b);
      assert Below(S, m) == T;
      forall i | i in T
        ensures Rank(S, i) == Rank(T, i)
      {
        assert Below(S, i) == Below(T, i);
      }
      assert Lowest(S, b) == Lowest(T, b) + if |T| < b then {m} else {};
    } else {
      assert Lowest(S, b) == {};
    }
  }

  /** As many members as that, with every member below one of them, are the lowest. */
  lemma LowestIs(S: set<nat>, T: set<nat>, b: nat)
    requires T <= S && |T| == Min(b, |S|)
    requires forall i, j :: i in S && j in T && i < j ==> i in T
    ensures T == Lowest(S, b)
  {
    forall i | i in T
      ensures i in Lowest(S, b)
    {
      assert Below(S, i) <= T - {i};
      SubsetSize(Below(S, i), T - {i});
    }
    LowestSize(S, b);
    SubsetSize(T, Lowest(S, b));
  }

  /** The slots lo, lo + 1, ..., hi - 1. */
  function Interval(lo: nat, hi: nat): (r: set<nat>)
    ensures forall i :: i in r <==> lo <= i < hi
  {
    if lo < hi then Interval(lo, hi - 1) + {hi - 1} else {}
  }

  lemma {:induction false} RankInInterval(lo: nat, hi: nat, i: nat)
    requires lo <= i <= hi
    ensures Rank(Interval(lo, hi), i) == i - lo
    decreases i
  {
    if i == lo {
      assert Below(Interval(lo, hi), i) == {};
    } else {
      RankInInterval(lo, hi, i - 1);
      RankNext(Interval(lo, hi), i - 1);
    }
  }

  lemma IntervalSize(lo: nat, hi: nat)
    ensures |Interval(lo, hi)| == Max(0, hi - lo)
  {
    if lo <= hi {
      RankInInterval(lo, hi, hi);
      assert Below(Interval(lo, hi), hi) == Interval(lo, hi);
    } else {
      assert Interval(lo, hi) == {};
    }
  }

  lemma JoinIntervals(a: set<nat>, b: set<nat>, n: nat, lo: nat, h: nat)
    requires a == Interval(0, n) && b == Interval(lo, lo + h)
    requires h == 0 || n == lo
    ensures a + b == Interval(0, n + h) && |a + b| == n + h
  {
    IntervalSize(0, n + h);
    forall i
      ensures i in a + b <==> i in Interval(0, n + h)
    {
    }
    assert a + b == Interval(0, n + h);
  }

  /** A set of slots from lo on that has no gap is an interval. */
  lemma {:induction false} NoGapIsInterval(S: set<nat>, lo: nat)
    requires forall i :: i in S ==> lo <= i
    requires forall i, j :: i in S && lo <= j < i ==> j in S
    ensures S == Interval(lo, lo + |S|)
    decreases |S|
  {
    if S != {} {
      var m := HasGreatest(S);
      NoGapIsInterval(S - {m}, lo);
      IntervalSize(lo, m + 1);
      assert S == Interval(lo, m + 1);
    }
  }

  // ----- Ascending order, the order in which a sorted map is walked

  ghost predicate StrictlyAscending(xs: seq<nat>) {
    forall i, j :: 0 <= i < j < |xs| ==> xs[i] < xs[j]
  }

  lemma {:induction false} LeastOf(S: set<nat>) returns (m: nat)
    requires S != {}
    ensures m in S && forall j :: j in S ==> m <= j
    decreases |S|
  {
    m :| m in S;
    var rest := S - {m};
    if rest != {} {
      var l := LeastOf(rest);
      m := Min(l, m);
    }
    assert forall j :: j in S ==> j in rest || m <= j;
  }

  lemma HasLeast(S: set<nat>)
    requires S != {}
    ensures exists m :: m in S && forall j :: j in S ==> m <= j
  {
    var m := LeastOf(S);
  }

  function Least(S: set<nat>): (m: nat)
    requires S != {}
    ensures m in S && forall j :: j in S ==> m <= j
  {
    HasLeast(S);
    var m :| m in S && forall j :: j in S ==> m <= j;
    m
  }

  lemma AppendAbove(xs: seq<nat>, m: nat)
    requires StrictlyAscending(xs) && forall i :: i in xs ==> i < m
    ensures StrictlyAscending(xs + [m])
  {
    assert forall a :: 0 <= a < |xs| ==> xs[a] in xs;
  }

  /** The members in the order a sorted map visits them. */
  method SortedKeys(S: set<nat>) returns (xs: seq<nat>)
    ensures StrictlyAscending(xs)
    ensures forall i :: i in xs <==> i in S
  {
    xs := [];
    var rest := S;
    while rest != {}
      invariant StrictlyAscending(xs)
      invariant forall i :: i in S <==> i in xs || i in rest
      invariant forall i, j :: i in xs && j in rest ==> i < j
      decreases |rest|
    {
      var m := Least(rest);
      AppendAbove(xs, m);
      xs := xs + [m];
      rest := rest - {m};
    }
  }

  /** The members before position n are those below the n-th. */
  lemma AscendingPrefix(S: set<nat>, xs: seq<nat>, n: nat)
    requires StrictlyAscending(xs) && forall i :: i in xs <==> i in S
    requires n < |xs|
    ensures xs[n] in S && xs[n] !in xs[..n]
    ensures forall i :: i in xs[..n] <==> i in S && i < xs[n]
    ensures forall i :: i in xs[..n + 1] <==> i in xs[..n] || i == xs[n]
  {
    assert xs[n] in xs;
    forall i | i in S && i < xs[n]
      ensures i in xs[..n]
    {
      assert i in xs;
      var k :| 0 <= k < |xs| && xs[k] == i;
      assert xs[..n][k] == i;
    }
    assert xs[..n + 1] == xs[..n] + [xs[n]];
  }
}
