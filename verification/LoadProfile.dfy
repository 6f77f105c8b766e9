/** The trace-derived load profile: the busiest sliding window of the trace, and
    the five minutes kept around it. Times are ticks of 100 ns. */
module LoadProfile {
  import opened Prelude

  const TICK := 10_000_000
  const PEAK := 60 * TICK
  const BEFORE := 120 * TICK
  const WINDOW := 300 * TICK

  ghost predicate Sorted(t: seq<int>) {
    forall i, j :: 0 <= i <= j < |t| ==> t[i] <= t[j]
  }

  /** Arrivals in the half-open window of length PEAK that starts at w. */
  function Arrivals(t: seq<int>, w: int): nat {
    if t == [] then 0 else Arrivals(t[..|t| - 1], w) + if w <= t[|t| - 1] < w + PEAK then 1 else 0
  }

  /** Which is 60 seconds of ticks of 100 ns. */
  lemma {:induction false} ArrivalsAre(t: seq<int>, w: int)
    ensures Arrivals(t, w) == |ArrivalsWithin(t, w, w + 600_000_000)|
  {
    if t == [] {
      assert ArrivalsWithin(t, w, w + 600_000_000) == {};
    } else {
      var last := |t| - 1;
      ArrivalsAre(t[..last], w);
      assert ArrivalsWithin(t, w, w + 600_000_000)
          == ArrivalsWithin(t[..last], w, w + 600_000_000) + if w <= t[last] < w + 600_000_000 then {last} else {};
    }
  }

  ghost function ArrivalsWithin(t: seq<int>, from: int, to: int): set<int> {
    set k | 0 <= k < |t| && from <= t[k] < to
  }

  // ----- The search

  /** The first index, from j on, less than PEAK before index i. */
  function FirstWithin(t: seq<int>, i: nat, j: nat): (r: nat)
    requires j <= i < |t|
    ensures j <= r <= i && t[i] - t[r] < PEAK
    ensures forall k :: j <= k < r ==> t[i] - t[k] >= PEAK
    decreases i - j
  {
    if t[i] - t[j] < PEAK then j else FirstWithin(t, i, j + 1)
  }

  /** Arrivals in the window that ends with index i. */
  function Trailing(t: seq<int>, i: nat): int
    requires i < |t|
  {
    i - FirstWithin(t, i, 0) + 1
  }

  lemma FirstIsUnique(t: seq<int>, i: nat, j: nat)
    requires j <= i < |t| && t[i] - t[j] < PEAK
    requires forall k :: 0 <= k < j ==> t[i] - t[k] >= PEAK
    ensures FirstWithin(t, i, 0) == j
  {
  }

  /** What the search has found over the first n indices: the largest trailing
      count, and the window of the first index that reaches it. */
  ghost predicate Found(t: seq<int>, n: nat, best: int, start: nat, at: nat)
    requires n <= |t|
  {
    && (forall i :: 0 <= i < n ==> Trailing(t, i) <= best)
    && (n == 0 ==> best == 0 && start == 0)
    && (n > 0 ==> at < n && Trailing(t, at) == best && start == FirstWithin(t, at, 0)
                  && forall i :: 0 <= i < at ==> Trailing(t, i) < best)
  }

  /** The two-pointer search; the earliest window wins a tie. */
  method Search(t: seq<int>) returns (best: int, start: nat, ghost at: nat)
    requires Sorted(t)
    ensures Found(t, |t|, best, start, at)
    ensures forall i :: 0 <= i < |t| ==> Trailing(t, i) <= best
    ensures t != [] ==> start < |t|
    ensures t != [] ==>
      exists i :: 0 <= i < |t| && Trailing(t, i) == best && FirstWithin(t, i, 0) == start
  {
    best, start, at := 0, 0, 0;
    var j := 0;
    for i := 0 to |t|
      invariant 0 <= j <= i
      invariant forall k :: 0 <= k < j && i < |t| ==> t[i] - t[k] >= PEAK
      invariant Found(t, i, best, start, at)
    {
      while t[i] - t[j] >= PEAK
        invariant 0 <= j <= i
        invariant forall k :: 0 <= k < j ==> t[i] - t[k] >= PEAK
        decreases i - j
      {
        j := j + 1;
      }
      FirstIsUnique(t, i, j);
      if i - j + 1 > best {
        best, start, at := i - j + 1, j, i;
      }
    }
  }

  // ----- What it found

  /** On a sorted trace a window covers a run of consecutive indices. */
  lemma {:induction false} WindowIsRun(t: seq<int>, w: int) returns (a: nat, b: nat)
    requires Sorted(t)
    ensures a <= b <= |t| && Arrivals(t, w) == b - a
    ensures forall k :: 0 <= k < |t| ==> (a <= k < b <==> w <= t[k] < w + PEAK)
    ensures forall k :: 0 <= k < a ==> t[k] < w
    decreases |t|
  {
    if t == [] {
      a, b := 0, 0;
    } else {
      var last := |t| - 1;
      a, b := WindowIsRun(t[..last], w);
      assert forall k :: 0 <= k < last ==> t[..last][k] == t[k];
      if w <= t[last] < w + PEAK {
        if a == b {
          a := last;
        } else {
          assert t[a] >= w;
          assert b == last;
        }
        b := last + 1;
      } else if a == b && t[last] < w {
        a, b := last + 1, last + 1;
      }
    }
  }

  /** No window, wherever it is placed, holds more than the search found. */
  lemma NoneHoldsMore(t: seq<int>, best: int, start: nat, at: nat, w: int)
    requires Sorted(t) && Found(t, |t|, best, start, at)
    ensures Arrivals(t, w) <= best
  {
    var a, b := WindowIsRun(t, w);
    if a < b {
      assert t[b - 1] - t[a] < PEAK;
      assert FirstWithin(t, b - 1, 0) <= a;
      assert Trailing(t, b - 1) <= best;
    } else if t != [] {
      assert Trailing(t, at) >= 0;
    }
  }

  /** The window found holds that many. */
  lemma FoundHoldsBest(t: seq<int>, best: int, start: nat, at: nat)
    requires Sorted(t) && t != [] && Found(t, |t|, best, start, at)
    ensures start < |t| && Arrivals(t, t[start]) == best
    ensures start + best <= |t| && forall k :: 0 <= k < |t| ==>
      (start <= k < start + best <==> t[start] <= t[k] < t[start] + PEAK)
  {
    var a, b := WindowIsRun(t, t[start]);
    NoneHoldsMore(t, best, start, at, t[start]);
    assert a <= start <= at < b;
  }

  /** And it is the first arrival with a window that holds that many. */
  lemma FoundIsFirst(t: seq<int>, best: int, start: nat, at: nat, s: nat)
    requires Sorted(t) && Found(t, |t|, best, start, at) && s < start && t != []
    ensures Arrivals(t, t[s]) < best
  {
    var a, b := WindowIsRun(t, t[s]);
    assert a <= s < b;
    EarlierWindow(t, start, at, a, b - 1);
    assert Trailing(t, b - 1) < best;
  }

  lemma EarlierWindow(t: seq<int>, start: nat, at: nat, a: nat, i: nat)
    requires Sorted(t) && at < |t| && start == FirstWithin(t, at, 0)
    requires a < start && a <= i < |t| && t[i] - t[a] < PEAK
    ensures i < at && i - a + 1 <= Trailing(t, i)
  {
    assert t[at] - t[a] >= PEAK;
  }

  // ----- The kept window

  function KeptFrom(t: seq<int>, start: nat): int
    requires start < |t|
  {
    Min(Max(t[0], t[start] - BEFORE), t[|t| - 1] - WINDOW)
  }

  predicate IsKept(t: seq<int>, start: nat, k: nat)
    requires start < |t| && k < |t|
  {
    KeptFrom(t, start) <= t[k] < KeptFrom(t, start) + WINDOW
  }

  /** The window is moved back so as not to end after the last arrival. */
  predicate EndClamped(t: seq<int>, start: nat)
    requires start < |t|
  {
    t[|t| - 1] - WINDOW < Max(t[0], t[start] - BEFORE)
  }

  /** What is kept: from two minutes before the peak to three after its start; or
      the first five minutes of the trace; or, moved back, the last five, without
      the last tick. */
  lemma KeptIff(t: seq<int>, start: nat, k: nat)
    requires Sorted(t) && start < |t| && k < |t|
    ensures var first, last, from := t[0], t[|t| - 1], t[start] - 1_200_000_000;
            IsKept(t, start, k)
            <==> if Max(first, from) + 3_000_000_000 > last then last - 3_000_000_000 <= t[k] < last
                 else if first <= from then t[start] - 1_200_000_000 <= t[k] < t[start] + 1_800_000_000
                 else t[k] < first + 3_000_000_000
  {
  }

  /** Unless it is moved back, the kept window contains the whole peak window. */
  lemma KeptContainsPeak(t: seq<int>, start: nat)
    requires Sorted(t) && start < |t| && !EndClamped(t, start)
    ensures KeptFrom(t, start) <= t[start] && t[start] + PEAK <= KeptFrom(t, start) + WINDOW
  {
  }

  /** Every arrival of the peak is kept if and only if none of them is at the
      last tick of the trace: a window moved back ends just before it. */
  lemma PeakKeptIff(t: seq<int>, best: int, start: nat, at: nat)
    requires Sorted(t) && t != [] && Found(t, |t|, best, start, at)
    ensures best >= 1 && start + best <= |t|
    ensures (forall k :: start <= k < start + best ==> IsKept(t, start, k)) <==> t[start + best - 1] < t[|t| - 1]
  {
    FoundHoldsBest(t, best, start, at);
    assert Trailing(t, 0) == 1;
    var last := start + best - 1;
    if t[last] < t[|t| - 1] {
      forall k | start <= k < start + best
        ensures IsKept(t, start, k)
      {
        assert t[k] <= t[last];
      }
    } else {
      assert !IsKept(t, start, last);
    }
  }

  /** So a peak at the end of a trace is cut: of its two arrivals, at 399 and
      400 seconds, the second is not kept. */
  lemma PeakCanBeCut() returns (t: seq<int>)
    ensures t == [0, 399 * TICK, 400 * TICK] && Sorted(t) && Found(t, 3, 2, 1, 2)
    ensures IsKept(t, 1, 1) && !IsKept(t, 1, 2)
  {
    t := [0, 399 * TICK, 400 * TICK];
    FirstIsUnique(t, 0, 0);
    FirstIsUnique(t, 1, 1);
    FirstIsUnique(t, 2, 1);
  }

  // ----- The program's checks around it

  datatype Profile =
    | NotSorted
    | NoRows
    | NothingKept
    | Profile(best: int, start: nat, from: int, keep: seq<nat>)

  function Ascents(t: seq<int>): bool {
    |t| <= 1 || (Ascents(t[..|t| - 1]) && t[|t| - 2] <= t[|t| - 1])
  }

  lemma {:induction false} AscentsIsSorted(t: seq<int>)
    ensures Ascents(t) <==> Sorted(t)
    decreases |t|
  {
    if |t| > 1 {
      var last := |t| - 1;
      AscentsIsSorted(t[..last]);
      if Ascents(t) {
        forall i, j | 0 <= i <= j < |t|
          ensures t[i] <= t[j]
        {
          assert t[..last][last - 1] == t[last - 1];
          if i < last {
            assert t[..last][i] <= t[..last][last - 1];
            assert j < last ==> t[..last][i] <= t[..last][j];
          }
        }
      }
      if Sorted(t) {
        assert Sorted(t[..last]);
      }
    }
  }

  /** Indices of the kept rows among the first n. */
  function KeptRows(t: seq<int>, start: nat, n: nat): seq<nat>
    requires start < |t| && n <= |t|
  {
    if n == 0 then []
    else KeptRows(t, start, n - 1) + if IsKept(t, start, n - 1) then [n - 1] else []
  }

  lemma {:induction false} KeptRowsAre(t: seq<int>, start: nat, n: nat)
    requires start < |t| && n <= |t|
    ensures forall k: nat :: k in KeptRows(t, start, n) <==> k < n && IsKept(t, start, k)
    ensures forall i, j :: 0 <= i < j < |KeptRows(t, start, n)| ==> KeptRows(t, start, n)[i] < KeptRows(t, start, n)[j]
  {
    if n > 0 {
      KeptRowsAre(t, start, n - 1);
      var before := KeptRows(t, start, n - 1);
      assert forall i :: 0 <= i < |before| ==> before[i] in before;
    }
  }

  /** Every arrival before the last tick is more than the kept length before it,
      and starts a window less full than the last tick's. */
  ghost predicate LoneEnd(t: seq<int>)
    requires t != []
  {
    var last := t[|t| - 1];
    forall k :: 0 <= k < |t| && t[k] < last ==> t[k] < last - WINDOW && Arrivals(t, t[k]) < Arrivals(t, last)
  }

  /** The rows of the profile, or why there is none. */
  method Build(t: seq<int>) returns (p: Profile)
    ensures p.NotSorted? <==> !Sorted(t)
    ensures p.NoRows? <==> t == []
    ensures p.NothingKept? <==> Sorted(t) && t != [] && LoneEnd(t)
    ensures p.Profile? ==>
      && p.start < |t| && p.from == KeptFrom(t, p.start) && p.keep != []
      && (forall w :: Arrivals(t, w) <= p.best) && Arrivals(t, t[p.start]) == p.best
      && (forall s :: 0 <= s < p.start ==> Arrivals(t, t[s]) < p.best)
      && (forall k: nat :: k in p.keep <==> k < |t| && IsKept(t, p.start, k))
      && (forall i, j :: 0 <= i < j < |p.keep| ==> p.keep[i] < p.keep[j])
  {
    AscentsIsSorted(t);
    if !Ascents(t) {
      return NotSorted;
    }
    var best, start, at := Search(t);
    if t == [] {
      return NoRows;
    }
    FoundHoldsBest(t, best, start, at);
    forall w
      ensures Arrivals(t, w) <= best
    {
      NoneHoldsMore(t, best, start, at, w);
    }
    forall s | 0 <= s < start
      ensures Arrivals(t, t[s]) < best
    {
      FoundIsFirst(t, best, start, at, s);
    }
    var keep := KeptRows(t, start, |t|);
    KeptRowsAre(t, start, |t|);
    KeptUnlessLoneEnd(t, best, start, at);
    if keep == [] {
      assert forall k: nat :: k < |t| ==> !IsKept(t, start, k);
      return NothingKept;
    }
    assert keep[0] in keep;
    p := Profile(best, start, KeptFrom(t, start), keep);
  }

  lemma EmptyIsLoneEnd(t: seq<int>, best: int, start: nat, at: nat)
    requires Sorted(t) && t != [] && Found(t, |t|, best, start, at) && start < |t|
    requires forall k: nat :: k < |t| ==> !IsKept(t, start, k)
    ensures LoneEnd(t)
  {
    var last := t[|t| - 1];
    assert !IsKept(t, start, start);
    forall k | 0 <= k < |t| && t[k] < last
      ensures t[k] < last - WINDOW && Arrivals(t, t[k]) < Arrivals(t, last)
    {
      assert !IsKept(t, start, k);
      assert t[start] == last;
      FoundIsFirst(t, best, start, at, k);
      FoundHoldsBest(t, best, start, at);
    }
  }

  lemma LoneEndIsEmpty(t: seq<int>, best: int, start: nat, at: nat, k: nat)
    requires Sorted(t) && t != [] && Found(t, |t|, best, start, at) && start < |t| && LoneEnd(t) && k < |t|
    ensures !IsKept(t, start, k)
  {
    var last := t[|t| - 1];
    FoundHoldsBest(t, best, start, at);
    NoneHoldsMore(t, best, start, at, last);
    assert t[start] == last;
  }

  lemma KeptUnlessLoneEnd(t: seq<int>, best: int, start: nat, at: nat)
    requires Sorted(t) && t != [] && Found(t, |t|, best, start, at) && start < |t|
    ensures (forall k: nat :: k < |t| ==> !IsKept(t, start, k)) <==> LoneEnd(t)
  {
    if LoneEnd(t) {
      forall k: nat | k < |t|
        ensures !IsKept(t, start, k)
      {
        LoneEndIsEmpty(t, best, start, at, k);
      }
    } else if forall k: nat :: k < |t| ==> !IsKept(t, start, k) {
      EmptyIsLoneEnd(t, best, start, at);
    }
  }
}
