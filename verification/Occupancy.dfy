/** Time spans of requests: how long at least one was in flight, how many were at
    most, and how the two bound the work done. Times are whole ticks. */
module Occupancy {
  import opened Prelude
  import opened Sorting

  /** A request from its first tick to the one after its last. */
  type Span = (int, int)

  ghost predicate Forward(spans: seq<Span>) {
    forall k :: 0 <= k < |spans| ==> spans[k].0 <= spans[k].1
  }

  // ----- Sorting pairs

  predicate Before(a: (int, int), b: (int, int)) {
    a.0 < b.0 || (a.0 == b.0 && a.1 <= b.1)
  }

  lemma BeforeIsTotal()
    ensures TotalOrder(Before)
  {
  }

  // ----- The union of the spans

  function Ticks(s: int, e: int): (r: set<int>)
    ensures forall x :: x in r <==> s <= x < e
    decreases e - s
  {
    if s < e then Ticks(s, e - 1) + {e - 1} else {}
  }

  lemma {:induction false} TicksSize(s: int, e: int)
    ensures |Ticks(s, e)| == Max(0, e - s)
    decreases e - s
  {
    if s < e {
      TicksSize(s, e - 1);
      assert Ticks(s, e) == Ticks(s, e - 1) + {e - 1};
    } else {
      assert Ticks(s, e) == {};
    }
  }

  /** The ticks at which some request is in flight. */
  function Busy(spans: seq<Span>): set<int> {
    if spans == [] then {} else Busy(spans[..|spans| - 1]) + Ticks(spans[|spans| - 1].0, spans[|spans| - 1].1)
  }

  lemma {:induction false} BusyIs(spans: seq<Span>, x: int)
    ensures x in Busy(spans) <==> exists k :: 0 <= k < |spans| && spans[k].0 <= x < spans[k].1
  {
    if spans != [] {
      BusyIs(spans[..|spans| - 1], x);
    }
  }

  lemma BusyOfSame(spans: seq<Span>, others: seq<Span>)
    requires multiset(spans) == multiset(others)
    ensures Busy(spans) == Busy(others)
  {
    forall x
      ensures x in Busy(spans) <==> x in Busy(others)
    {
      BusyIs(spans, x);
      BusyIs(others, x);
      if k :| 0 <= k < |spans| && spans[k].0 <= x < spans[k].1 {
        assert spans[k] in multiset(others);
      }
      if k :| 0 <= k < |others| && others[k].0 <= x < others[k].1 {
        assert others[k] in multiset(spans);
      }
    }
  }

  lemma BusyNext(spans: seq<Span>, i: nat)
    requires i < |spans|
    ensures Busy(spans[..i + 1]) == Busy(spans[..i]) + Ticks(spans[i].0, spans[i].1)
  {
    assert spans[..i + 1][..i] == spans[..i];
  }

  /** The processed spans end by `end`, and the one that ends there has begun
      no later than the next one. */
  ghost predicate SweptTo(spans: seq<Span>, i: nat, end: Option<int>) {
    && i <= |spans|
    && (end.None? <==> i == 0)
    && (end.Some? ==>
          && (forall x :: x in Busy(spans[..i]) ==> x < end.value)
          && exists k :: 0 <= k < i && spans[k].1 == end.value)
  }

  /** What the next span adds: all of it, its part past the end, or nothing. */
  function Added(end: Option<int>, s: Span): int {
    if end.None? || s.0 > end.value then s.1 - s.0
    else if s.1 > end.value then s.1 - end.value
    else 0
  }

  function EndAfter(end: Option<int>, s: Span): Option<int> {
    if end.None? || s.1 > end.value || s.0 > end.value then Some(s.1) else end
  }

  /** Up to the end everything from the next start on is busy already. */
  lemma BusyToEnd(spans: seq<Span>, i: nat, end: int, x: int)
    requires InOrder(spans, Before) && i < |spans| && SweptTo(spans, i, Some(end)) && spans[i].0 <= x < end
    ensures x in Busy(spans[..i])
  {
    var k :| 0 <= k < i && spans[k].1 == end;
    assert Before(spans[k], spans[i]);
    assert spans[..i][k] == spans[k];
    BusyIs(spans[..i], x);
  }

  lemma NewTicks(before: set<int>, s: int, from: int, e: int)
    requires s <= from && (forall x :: x in before ==> x < from) && forall x :: s <= x < from ==> x in before
    ensures |before + Ticks(s, e)| == |before| + Max(0, e - from)
  {
    TicksSize(from, e);
    assert before + Ticks(s, e) == before + Ticks(from, e);
    assert before !! Ticks(from, e);
  }

  lemma AddedTicks(before: set<int>, s: Span, end: Option<int>)
    requires s.0 <= s.1
    requires end.None? ==> before == {}
    requires end.Some? ==> forall x :: x in before ==> x < end.value
    requires end.Some? ==> forall x :: s.0 <= x < end.value ==> x in before
    ensures |before + Ticks(s.0, s.1)| == |before| + Added(end, s)
  {
    NewTicks(before, s.0, if end.None? || s.0 > end.value then s.0 else end.value, s.1);
  }

  lemma SweepEnd(spans: seq<Span>, i: nat, end: Option<int>)
    requires InOrder(spans, Before) && Forward(spans) && i < |spans| && SweptTo(spans, i, end)
    ensures SweptTo(spans, i + 1, EndAfter(end, spans[i]))
  {
    BusyNext(spans, i);
    assert i == 0 ==> Busy(spans[..i]) == {};
  }

  lemma SweepNext(spans: seq<Span>, i: nat, end: Option<int>)
    requires InOrder(spans, Before) && Forward(spans) && i < |spans| && SweptTo(spans, i, end)
    ensures |Busy(spans[..i + 1])| == |Busy(spans[..i])| + Added(end, spans[i])
  {
    BusyNext(spans, i);
    if end.Some? {
      forall x | spans[i].0 <= x < end.value
        ensures x in Busy(spans[..i])
      {
        BusyToEnd(spans, i, end.value, x);
      }
    }
    AddedTicks(Busy(spans[..i]), spans[i], end);
  }

  /** Time with at least one request in flight: the size of the union of the
      spans, in whatever order they are listed. */
  method BusySeconds(spans: seq<Span>) returns (total: int)
    requires Forward(spans)
    ensures total == |Busy(spans)|
  {
    var ordered := Sort(spans, Before);
    BeforeIsTotal();
    SortSorts(spans, Before);
    BusyOfSame(spans, ordered);
    SameSpans(spans, ordered);
    total := 0;
    var end: Option<int> := None;
    for i := 0 to |ordered|
      invariant SweptTo(ordered, i, end)
      invariant total == |Busy(ordered[..i])|
    {
      var s := ordered[i];
      SweepEnd(ordered, i, end);
      SweepNext(ordered, i, end);
      if end.None? || s.0 > end.value {
        total, end := total + s.1 - s.0, Some(s.1);
      } else if s.1 > end.value {
        total, end := total + s.1 - end.value, Some(s.1);
      }
    }
    assert ordered[..|ordered|] == ordered;
  }

  lemma SameSpans(spans: seq<Span>, others: seq<Span>)
    requires Forward(spans) && multiset(spans) == multiset(others)
    ensures Forward(others) && |others| == |spans|
  {
    forall k | 0 <= k < |others|
      ensures others[k].0 <= others[k].1
    {
      assert others[k] in multiset(spans);
    }
    assert |multiset(others)| == |others|;
  }

  // ----- Idle time

  function LastEnd(spans: seq<Span>): (e: int)
    requires spans != []
    ensures forall k :: 0 <= k < |spans| ==> spans[k].1 <= e
    ensures exists k :: 0 <= k < |spans| && spans[k].1 == e
  {
    if |spans| == 1 then spans[0].1
    else
      var e := LastEnd(spans[..|spans| - 1]);
      assert forall k :: 0 <= k < |spans| - 1 ==> spans[..|spans| - 1][k] == spans[k];
      Max(e, spans[|spans| - 1].1)
  }

  /** The window of the run less the busy time. */
  method IdleSeconds(start: int, spans: seq<Span>) returns (idle: int)
    requires spans != [] && Forward(spans)
    ensures idle == LastEnd(spans) - start - |Busy(spans)|
  {
    var busy := BusySeconds(spans);
    idle := LastEnd(spans) - start - busy;
  }

  /** Idle time is the ticks of the window with no request in flight, less what
      requests were busy before the window began. */
  lemma IdleIs(start: int, spans: seq<Span>)
    requires spans != [] && Forward(spans) && start <= LastEnd(spans)
    ensures LastEnd(spans) - start - |Busy(spans)|
         == |Ticks(start, LastEnd(spans)) - Busy(spans)| - |Busy(spans) - Ticks(start, LastEnd(spans))|
  {
    var window, busy := Ticks(start, LastEnd(spans)), Busy(spans);
    TicksSize(start, LastEnd(spans));
    assert window == (window - busy) + (window * busy);
    assert busy == (busy - window) + (window * busy);
  }

  /** So it is never negative when the run starts no later than its first request. */
  lemma IdleIsNotNegative(start: int, spans: seq<Span>)
    requires spans != [] && Forward(spans)
    requires forall k :: 0 <= k < |spans| ==> start <= spans[k].0
    ensures LastEnd(spans) - start - |Busy(spans)| == |Ticks(start, LastEnd(spans)) - Busy(spans)| >= 0
  {
    var k :| 0 <= k < |spans| && spans[k].1 == LastEnd(spans);
    IdleIs(start, spans);
    forall x | x in Busy(spans)
      ensures x in Ticks(start, LastEnd(spans))
    {
      BusyIs(spans, x);
    }
    assert Busy(spans) - Ticks(start, LastEnd(spans)) == {};
  }

  // ----- Requests in flight at once

  /** Requests in flight at tick x. */
  function InFlightAt(spans: seq<Span>, x: int): nat {
    if spans == [] then 0
    else InFlightAt(spans[1..], x) + if spans[0].0 <= x < spans[0].1 then 1 else 0
  }

  /** A start and an end event for every request. */
  function Events(spans: seq<Span>): seq<(int, int)> {
    if spans == [] then [] else [(spans[0].0, 1), (spans[0].1, -1)] + Events(spans[1..])
  }

  /** The steps of the events up to and including time x. */
  function StepsTo(ev: seq<(int, int)>, x: int): int {
    if ev == [] then 0 else StepsTo(ev[1..], x) + if ev[0].0 <= x then ev[0].1 else 0
  }

  lemma {:induction false} EventsCount(spans: seq<Span>, x: int)
    requires Forward(spans)
    ensures StepsTo(Events(spans), x) == InFlightAt(spans, x)
  {
    if spans != [] {
      EventsCount(spans[1..], x);
      var rest := Events(spans[1..]);
      assert Events(spans)[1..] == [(spans[0].1, -1)] + rest;
      assert Events(spans)[1..][1..] == rest;
    }
  }

  lemma {:induction false} InsertSteps(p: (int, int), ps: seq<(int, int)>, x: int)
    ensures StepsTo(Insert(p, ps, Before), x) == StepsTo(ps, x) + if p.0 <= x then p.1 else 0
  {
    if ps != [] && !Before(p, ps[0]) {
      InsertSteps(p, ps[1..], x);
      assert Insert(p, ps, Before)[1..] == Insert(p, ps[1..], Before);
    } else {
      assert Insert(p, ps, Before)[1..] == ps;
    }
  }

  lemma {:induction false} SortedSteps(ps: seq<(int, int)>, x: int)
    ensures StepsTo(Sort(ps, Before), x) == StepsTo(ps, x)
  {
    if ps != [] {
      SortedSteps(ps[1..], x);
      InsertSteps(ps[0], Sort(ps[1..], Before), x);
    }
  }

  /** The sum of the steps. */
  function Sum(ev: seq<(int, int)>): int {
    if ev == [] then 0 else Sum(ev[..|ev| - 1]) + ev[|ev| - 1].1
  }

  lemma {:induction false} StepsToCut(ev: seq<(int, int)>, x: int, i: nat)
    requires i <= |ev|
    requires forall k :: 0 <= k < i ==> ev[k].0 <= x
    requires forall k :: i <= k < |ev| ==> x < ev[k].0
    ensures StepsTo(ev, x) == Sum(ev[..i])
    decreases |ev|
  {
    if ev != [] {
      var last := |ev| - 1;
      StepsToLast(ev, x);
      if i == |ev| {
        StepsToCut(ev[..last], x, last);
        assert ev[..i] == ev && ev[..last][..last] == ev[..last];
      } else {
        StepsToCut(ev[..last], x, i);
        assert ev[..last][..i] == ev[..i];
      }
    }
  }

  lemma {:induction false} StepsToLast(ev: seq<(int, int)>, x: int)
    requires ev != []
    ensures StepsTo(ev, x) == StepsTo(ev[..|ev| - 1], x) + if ev[|ev| - 1].0 <= x then ev[|ev| - 1].1 else 0
  {
    if |ev| > 1 {
      StepsToLast(ev[1..], x);
      assert ev[1..][..|ev| - 2] == ev[..|ev| - 1][1..];
    }
  }

  /** Where the events up to time x end. */
  lemma {:induction false} CutAt(ev: seq<(int, int)>, x: int) returns (i: nat)
    requires InOrder(ev, Before)
    ensures i <= |ev|
    ensures forall k :: 0 <= k < i ==> ev[k].0 <= x
    ensures forall k :: i <= k < |ev| ==> x < ev[k].0
  {
    i := 0;
    while i < |ev| && ev[i].0 <= x
      invariant i <= |ev|
      invariant forall k :: 0 <= k < i ==> ev[k].0 <= x
    {
      i := i + 1;
    }
    if i < |ev| {
      forall k | i <= k < |ev|
        ensures x < ev[k].0
      {
        assert k == i || Before(ev[i], ev[k]);
      }
    }
  }

  /** The running sum never exceeds `top`, which is 0 or reached right after a start. */
  ghost predicate Topped(ev: seq<(int, int)>, n: nat, top: int) {
    && n <= |ev|
    && (forall i :: 0 <= i <= n ==> Sum(ev[..i]) <= top)
    && (top == 0 || exists i :: 0 < i <= n && Sum(ev[..i]) == top && ev[i - 1].1 == 1)
  }

  lemma SumNext(ev: seq<(int, int)>, i: nat)
    requires i < |ev|
    ensures Sum(ev[..i + 1]) == Sum(ev[..i]) + ev[i].1
  {
    assert ev[..i + 1][..i] == ev[..i];
  }

  lemma ToppedNext(ev: seq<(int, int)>, i: nat, top: int)
    requires i < |ev| && Topped(ev, i, top) && (ev[i].1 == 1 || ev[i].1 == -1)
    ensures Topped(ev, i + 1, Max(top, Sum(ev[..i + 1])))
  {
    SumNext(ev, i);
    assert Sum(ev[..i]) <= top;
  }

  /** The most requests in flight at once: the largest count over all times. */
  method MaxInFlight(spans: seq<Span>) returns (top: int)
    requires Forward(spans)
    ensures forall x :: InFlightAt(spans, x) <= top
    ensures exists x :: InFlightAt(spans, x) == top
  {
    var ev := Sort(Events(spans), Before);
    BeforeIsTotal();
    SortSorts(Events(spans), Before);
    UnitSteps(spans, ev);
    var cur := 0;
    top := 0;
    for i := 0 to |ev|
      invariant cur == Sum(ev[..i])
      invariant Topped(ev, i, top)
    {
      SumNext(ev, i);
      ToppedNext(ev, i, top);
      cur := cur + ev[i].1;
      top := Max(top, cur);
    }
    forall x
      ensures InFlightAt(spans, x) <= top
    {
      var i := InFlightIsSum(spans, ev, x);
    }
    TopIsReached(spans, ev, top);
  }

  lemma {:induction false} EventSteps(spans: seq<Span>, k: nat)
    requires k < |Events(spans)|
    ensures Events(spans)[k].1 == 1 || Events(spans)[k].1 == -1
  {
    if k >= 2 {
      EventSteps(spans[1..], k - 2);
    }
  }

  lemma UnitSteps(spans: seq<Span>, ev: seq<(int, int)>)
    requires multiset(ev) == multiset(Events(spans))
    ensures forall k :: 0 <= k < |ev| ==> ev[k].1 == 1 || ev[k].1 == -1
  {
    forall k | 0 <= k < |ev|
      ensures ev[k].1 == 1 || ev[k].1 == -1
    {
      assert ev[k] in multiset(Events(spans));
      var j :| 0 <= j < |Events(spans)| && Events(spans)[j] == ev[k];
      EventSteps(spans, j);
    }
  }

  lemma InFlightIsSum(spans: seq<Span>, ev: seq<(int, int)>, x: int) returns (i: nat)
    requires Forward(spans) && ev == Sort(Events(spans), Before)
    ensures i <= |ev| && InFlightAt(spans, x) == Sum(ev[..i])
    ensures forall k :: 0 <= k < i ==> ev[k].0 <= x
    ensures forall k :: i <= k < |ev| ==> x < ev[k].0
  {
    BeforeIsTotal();
    SortSorts(Events(spans), Before);
    i := CutAt(ev, x);
    StepsToCut(ev, x, i);
    SortedSteps(Events(spans), x);
    EventsCount(spans, x);
  }

  /** At equal times ends come before starts, so what follows a start at its
      own time only adds. */
  lemma {:induction false} StartsOnlyAdd(ev: seq<(int, int)>, i: nat, j: nat)
    requires InOrder(ev, Before) && 0 < i <= j <= |ev| && ev[i - 1].1 == 1
    requires forall k :: i <= k < j ==> ev[k].0 == ev[i - 1].0 && (ev[k].1 == 1 || ev[k].1 == -1)
    ensures Sum(ev[..i]) <= Sum(ev[..j])
    decreases j
  {
    if i < j {
      StartsOnlyAdd(ev, i, j - 1);
      SumNext(ev, j - 1);
      assert Before(ev[i - 1], ev[j - 1]);
    }
  }

  lemma TopIsReached(spans: seq<Span>, ev: seq<(int, int)>, top: int)
    requires Forward(spans) && ev == Sort(Events(spans), Before) && Topped(ev, |ev|, top)
    requires forall k :: 0 <= k < |ev| ==> ev[k].1 == 1 || ev[k].1 == -1
    ensures exists x :: InFlightAt(spans, x) == top
  {
    BeforeIsTotal();
    SortSorts(Events(spans), Before);
    if top == 0 {
      var j := InFlightIsSum(spans, ev, 0);
      assert InFlightAt(spans, 0) == 0;
    } else {
      var i :| 0 < i <= |ev| && Sum(ev[..i]) == top && ev[i - 1].1 == 1;
      var x := ev[i - 1].0;
      var j := InFlightIsSum(spans, ev, x);
      assert i <= j;
      forall k | i <= k < j
        ensures ev[k].0 == x
      {
        assert Before(ev[i - 1], ev[k]);
      }
      StartsOnlyAdd(ev, i, j);
      assert InFlightAt(spans, x) == top;
    }
  }

  // ----- Work, concurrency and busy time

  /** The lengths of the spans together. */
  function Work(spans: seq<Span>): int {
    if spans == [] then 0 else Work(spans[1..]) + spans[0].1 - spans[0].0
  }

  /** Requests in flight summed over the ticks lo, ..., hi - 1. */
  function InFlightOver(spans: seq<Span>, lo: int, hi: int): int
    decreases hi - lo
  {
    if hi <= lo then 0 else InFlightOver(spans, lo, hi - 1) + InFlightAt(spans, hi - 1)
  }

  lemma {:induction false} OverParts(spans: seq<Span>, lo: int, hi: int)
    requires spans != []
    ensures InFlightOver(spans, lo, hi) == InFlightOver(spans[..1], lo, hi) + InFlightOver(spans[1..], lo, hi)
    decreases hi - lo
  {
    if lo < hi {
      OverParts(spans, lo, hi - 1);
      assert spans[..1][1..] == [] && spans[..1][0] == spans[0];
      assert InFlightAt(spans, hi - 1) == InFlightAt(spans[..1], hi - 1) + InFlightAt(spans[1..], hi - 1);
    }
  }

  lemma {:induction false} OverOne(s: Span, lo: int, hi: int)
    requires lo <= s.0 <= s.1
    ensures InFlightOver([s], lo, hi) == Max(0, Min(hi, s.1) - s.0)
    decreases hi - lo
  {
    if lo < hi {
      OverOne(s, lo, hi - 1);
      assert [s][1..] == [];
      assert InFlightAt([s], hi - 1) == if s.0 <= hi - 1 < s.1 then 1 else 0;
    }
  }

  lemma {:induction false} OverIsWork(spans: seq<Span>, lo: int, hi: int)
    requires Forward(spans) && forall k :: 0 <= k < |spans| ==> lo <= spans[k].0 && spans[k].1 <= hi
    ensures InFlightOver(spans, lo, hi) == Work(spans)
  {
    if spans == [] {
      NoneOver(lo, hi);
    } else {
      OverIsWork(spans[1..], lo, hi);
      OverParts(spans, lo, hi);
      assert spans[..1] == [spans[0]];
      OverOne(spans[0], lo, hi);
    }
  }

  lemma {:induction false} NoneOver(lo: int, hi: int)
    ensures InFlightOver([], lo, hi) == 0
    decreases hi - lo
  {
    if lo < hi {
      NoneOver(lo, hi - 1);
    }
  }

  lemma {:induction false} InFlightWhenBusy(spans: seq<Span>, x: int)
    ensures InFlightAt(spans, x) > 0 <==> exists k :: 0 <= k < |spans| && spans[k].0 <= x < spans[k].1
  {
    if spans != [] {
      InFlightWhenBusy(spans[1..], x);
      if k :| 0 <= k < |spans[1..]| && spans[1..][k].0 <= x < spans[1..][k].1 {
        assert spans[k + 1].0 <= x < spans[k + 1].1;
      }
      if k :| 0 < k < |spans| && spans[k].0 <= x < spans[k].1 {
        assert spans[1..][k - 1].0 <= x < spans[1..][k - 1].1;
      }
    }
  }

  lemma OneTickMore(busy: set<int>, lo: int, hi: int)
    requires lo < hi
    ensures |busy * Ticks(lo, hi)| == |busy * Ticks(lo, hi - 1)| + if hi - 1 in busy then 1 else 0
  {
    var before := busy * Ticks(lo, hi - 1);
    if hi - 1 in busy {
      assert busy * Ticks(lo, hi) == before + {hi - 1};
    } else {
      assert busy * Ticks(lo, hi) == before;
    }
  }

  lemma IdleTick(spans: seq<Span>, x: int)
    ensures x !in Busy(spans) ==> InFlightAt(spans, x) == 0
  {
    BusyIs(spans, x);
    InFlightWhenBusy(spans, x);
  }

  lemma OneMoreTop(top: int, before: nat, after: nat, more: bool)
    requires after == before + if more then 1 else 0
    ensures top * after == top * before + if more then top else 0
  {
  }

  lemma {:induction false} OverWithin(spans: seq<Span>, lo: int, hi: int, top: int)
    requires top >= 0 && forall x :: InFlightAt(spans, x) <= top
    ensures InFlightOver(spans, lo, hi) <= top * |Busy(spans) * Ticks(lo, hi)|
    decreases hi - lo
  {
    var busy := Busy(spans);
    if lo < hi {
      OverWithin(spans, lo, hi - 1, top);
      OneTickMore(busy, lo, hi);
      IdleTick(spans, hi - 1);
      OneMoreTop(top, |busy * Ticks(lo, hi - 1)|, |busy * Ticks(lo, hi)|, hi - 1 in busy);
    } else {
      assert busy * Ticks(lo, hi) == {};
    }
  }

  lemma {:induction false} Bounds(spans: seq<Span>) returns (lo: int, hi: int)
    ensures forall k :: 0 <= k < |spans| ==> lo <= spans[k].0 && spans[k].1 <= hi
  {
    if spans == [] {
      lo, hi := 0, 0;
    } else {
      lo, hi := Bounds(spans[1..]);
      lo, hi := Min(lo, spans[0].0), Max(hi, spans[0].1);
      forall k | 0 < k < |spans|
        ensures lo <= spans[k].0 && spans[k].1 <= hi
      {
        assert spans[1..][k - 1] == spans[k];
      }
    }
  }

  /** On the same spans, the work done is at most the busy time times the most
      requests in flight. */
  lemma WorkWithinTopTimesBusy(spans: seq<Span>, top: int)
    requires Forward(spans) && top >= 0 && forall x :: InFlightAt(spans, x) <= top
    ensures Work(spans) <= top * |Busy(spans)|
  {
    var lo, hi := Bounds(spans);
    OverIsWork(spans, lo, hi);
    OverWithin(spans, lo, hi, top);
    forall x | x in Busy(spans)
      ensures x in Ticks(lo, hi)
    {
      BusyIs(spans, x);
    }
    assert Busy(spans) * Ticks(lo, hi) == Busy(spans);
  }
}
