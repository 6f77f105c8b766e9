/** The autoscaling consumer of the published counts: its demand and its rule,
    and the loop it closes with the fleet controller. */
module Autoscaler {
  import opened Prelude
  import opened FleetTypes
  import opened Slots
  import opened FleetStep
  import opened FleetRuns
  import opened FleetStatus
  import opened Recovery

  const MAX_REPLICAS: i32 := 40

  // ----- Demand

  /** How many of the sorted values are at most x: where a right bisection cuts. */
  function UpTo(xs: seq<real>, x: real): nat {
    if xs == [] then 0 else UpTo(xs[..|xs| - 1], x) + if xs[|xs| - 1] <= x then 1 else 0
  }

  /** The cut of a sorted list at x is that count. */
  lemma {:induction false} CutIsCount(xs: seq<real>, x: real, k: nat)
    requires k <= |xs|
    requires forall i :: 0 <= i < k ==> xs[i] <= x
    requires forall i :: k <= i < |xs| ==> x < xs[i]
    ensures UpTo(xs, x) == k
  {
    if xs != [] {
      CutIsCount(xs[..|xs| - 1], x, if k == |xs| then k - 1 else k);
    }
  }

  /** How many of the values lie in (lo, hi]. */
  function Within(xs: seq<real>, lo: real, hi: real): nat {
    if xs == [] then 0 else Within(xs[..|xs| - 1], lo, hi) + if lo < xs[|xs| - 1] <= hi then 1 else 0
  }

  lemma {:induction false} WithinIsDifference(xs: seq<real>, lo: real, hi: real)
    requires lo <= hi
    ensures Within(xs, lo, hi) == UpTo(xs, hi) - UpTo(xs, lo)
  {
    if xs != [] {
      WithinIsDifference(xs[..|xs| - 1], lo, hi);
    }
  }

  function Span(now: real): (s: real)
    ensures s > 0.0
  {
    var elapsed := if now < 5.0 then 5.0 else now;
    if elapsed < 10.0 then elapsed else 10.0
  }

  function DemandRps(arrivals: seq<real>, now: real): real {
    (UpTo(arrivals, now) - UpTo(arrivals, now - 10.0)) as real / Span(now)
  }

  /** Demand is the arrivals of the trailing ten seconds per second: over five
      seconds at first, then over the elapsed time, and over ten once ten have
      elapsed. */
  lemma DemandIsTrailingRate(arrivals: seq<real>, now: real)
    ensures var d, n := DemandRps(arrivals, now), Within(arrivals, now - 10.0, now) as real;
            && (now <= 5.0 ==> d * 5.0 == n)
            && (5.0 <= now <= 10.0 ==> d * now == n)
            && (10.0 <= now ==> d * 10.0 == n)
            && d >= 0.0
  {
    WithinIsDifference(arrivals, now - 10.0, now);
    Quotient(Within(arrivals, now - 10.0, now) as real, Span(now));
  }

  lemma Quotient(n: real, span: real)
    requires n >= 0.0 && span > 0.0
    ensures n / span * span == n && n / span >= 0.0
  {
  }

  /** Demand over the two requests per second of one replica, rounded up. */
  function Needed(demand: real): int {
    -((-demand / 2.0).Floor)
  }

  /** The rule asks for the least number of replicas that serve the demand. */
  lemma NeededIsLeast(demand: real, n: int)
    ensures 2.0 * (n as real) >= demand <==> n >= Needed(demand)
    ensures demand >= 0.0 ==> Needed(demand) >= 0
  {
    var q := -demand / 2.0;
    assert 2.0 * (n as real) >= demand <==> (-n) as real <= q;
    assert (-n) as real <= q <==> -n <= q.Floor;
  }

  // ----- The rule

  datatype Arm = ReadyOnly | ReadyAndWarming

  function Available(arm: Arm, r: Report): nat {
    match arm
    case ReadyOnly => r.ready
    case ReadyAndWarming => r.ready + r.warming
  }

  function Scaled(arm: Arm, r: Report, replicas: i32, needed: int): i32 {
    Min(MAX_REPLICAS, replicas + Max(0, needed - Available(arm, r)))
  }

  /** The rule lowers the count exactly when it starts above the fuse. */
  lemma LowersIffAboveFuse(arm: Arm, r: Report, replicas: i32, needed: int)
    ensures Scaled(arm, r, replicas, needed) < replicas <==> replicas > MAX_REPLICAS
    ensures Scaled(arm, r, replicas, needed) > replicas
       <==> replicas < MAX_REPLICAS && needed > Available(arm, r)
  {
  }

  /** So the rule does scale down: from 41, with nothing needed, to 40. */
  lemma RuleScalesDown(arm: Arm, r: Report)
    requires r.phase.Some?
    ensures Sampled(arm, r, 41, 0, true) == 40
  {
  }

  /** The replica count of the fleet's spec, as the consumer scales it. */
  class Spec {
    var replicas: i32

    /** One observation and the write it implies. `accepted` is whether the
        write, if there is one, is taken. */
    method Sample(arm: Arm, r: Report, needed: int, act: bool, accepted: bool) returns (wrote: bool)
      modifies this
      ensures replicas == Sampled(arm, r, old(replicas), needed, act && accepted)
      ensures wrote <==> r.phase.Some? && act && accepted && Scaled(arm, r, old(replicas), needed) != old(replicas)
    {
      wrote := false;
      if r.phase.None? {
        return;
      }
      var desired := Scaled(arm, r, replicas, needed);
      if act && desired != replicas && accepted {
        replicas := desired;
        wrote := true;
      }
    }
  }

  /** A status that was never written is skipped. */
  function Sampled(arm: Arm, r: Report, replicas: i32, needed: int, taken: bool): i32 {
    if r.phase.None? || !taken then replicas else Scaled(arm, r, replicas, needed)
  }

  // ----- The published counts after a full reconcile

  /** Slots on their way off a node or onto one. */
  function MovingCount(s: State): nat {
    |InPhase(s.status, Phase.Draining)| + |InPhase(s.status, Rescheduling)|
  }

  /** No slot is on its way off or between nodes. */
  ghost predicate Calm(s: State) {
    forall i :: i in s.status ==> s.status[i].phase !in {Phase.Draining, Preempted, Rescheduling}
  }

  lemma CalmMovesNothing(s: State)
    requires Calm(s)
    ensures MovingCount(s) == 0
  {
    assert InPhase(s.status, Phase.Draining) == {} && InPhase(s.status, Rescheduling) == {};
  }

  lemma AtLeast(children: map<nat, NodeName>, n: nat)
    requires forall i: nat :: i < n ==> i in children
    ensures |children| >= n
  {
    IntervalSize(0, n);
    SubsetSize(Interval(0, n), children.Keys);
    assert |children.Keys| == |children|;
  }

  lemma LiveInRange(s: State, s': State, e: Env)
    requires Able(e) && Same(s', Step(s, e))
    ensures |s'.children| >= Desired(e)
  {
    AbleHasTarget(s, e);
    forall i: nat | i < Desired(e)
      ensures i in s'.children
    {
      InRangeLive(s, e, Decide(s, e), i);
    }
    AtLeast(s'.children, Desired(e));
  }

  /** Ready and warming together are all the live slots but the moving ones, and
      the live slots are no fewer than desired. */
  lemma PublishedCounts(s: State, e: Env)
    requires Able(e)
    ensures var r := Step(s, e).report;
            && r.phase.Some? && r.ready + r.warming + MovingCount(Step(s, e)) == r.replicas
            && r.replicas >= Desired(e)
  {
    CountsAddUp(s, e);
    LiveInRange(s, Step(s, e), e);
  }

  // ----- The closed loop

  /** One period of the consumer: whatever reconciles came before the last full
      one, that one, the early returns after it, the demand then read, and
      whether the write is taken. */
  datatype Tick = Tick(before: seq<Env>, last: Env, after: seq<Env>, needed: int, taken: bool)

  datatype Loop = Loop(fleet: State, replicas: i32)

  /** The fleet before the last full reconcile of the period. */
  function Before(l: Loop, t: Tick): State {
    Run(l.fleet, t.before)
  }

  /** The fleet after it. */
  function Seen(l: Loop, t: Tick): State {
    Step(Before(l, t), t.last)
  }

  function Turn(l: Loop, t: Tick, arm: Arm): Loop {
    var fleet := Run(Seen(l, t), t.after);
    Loop(fleet, Sampled(arm, fleet.report, l.replicas, t.needed, t.taken))
  }

  ghost predicate EarlyReturns(es: seq<Env>) {
    forall k :: 0 <= k < |es| ==> !IsFull(es[k])
  }

  /** A full reconcile runs in the period, and early returns at most after it. */
  ghost predicate Served(t: Tick) {
    IsFull(t.last) && EarlyReturns(t.after)
  }

  /** That reconcile finds a healthy candidate and reads the count the consumer
      last wrote. Nothing is asked of those before it. */
  ghost predicate Followed(l: Loop, t: Tick) {
    Able(t.last) && t.last.replicas == l.replicas
  }

  ghost predicate Turned(ls: seq<Loop>, ts: seq<Tick>, arm: Arm, k: nat)
    requires k < |ts| && |ls| == |ts| + 1
  {
    Served(ts[k]) && ls[k + 1] == Turn(ls[k], ts[k], arm)
  }

  /** The loop's states, one per tick, each served. */
  ghost predicate IsLoop(ls: seq<Loop>, ts: seq<Tick>, arm: Arm) {
    && |ls| == |ts| + 1
    && forall k {:trigger Turned(ls, ts, arm, k)} :: 0 <= k < |ts| ==> Turned(ls, ts, arm, k)
  }

  /** The published counts of the two states agree. */
  ghost predicate SameCounts(r: Report, r': Report) {
    && r'.phase == r.phase && r'.ready == r.ready && r'.warming == r.warming && r'.replicas == r.replicas
  }

  /** Early returns leave the counts of a written status as they are. */
  lemma {:induction false} EarlyReturnsKeepCounts(s: State, es: seq<Env>)
    requires EarlyReturns(es) && s.report.phase.Some?
    ensures SameCounts(s.report, Run(s, es).report) && Same(s.status, Run(s, es).status)
    decreases |es|
  {
    if es != [] {
      EarlyReturnsKeepCounts(s, es[..|es| - 1]);
      RunLast(s, es);
      EarlyReturnStutters(Run(s, es[..|es| - 1]), es[|es| - 1]);
    }
  }

  lemma WrittenBySeen(l: Loop, t: Tick)
    requires IsFull(t.last)
    ensures Seen(l, t).report.phase.Some?
  {
  }

  lemma CountsAtTick(l: Loop, t: Tick)
    requires Served(t)
    ensures var r := Run(Seen(l, t), t.after).report;
            SameCounts(Seen(l, t).report, r) && r.phase.Some?
  {
    WrittenBySeen(l, t);
    EarlyReturnsKeepCounts(Seen(l, t), t.after);
  }

  lemma AskedWithWarming(r: Report, replicas: i32, needed: int, moving: nat)
    requires r.phase.Some? && r.ready + r.warming + moving == r.replicas >= replicas
    ensures Sampled(ReadyAndWarming, r, replicas, needed, true)
         == Min(MAX_REPLICAS, Max(replicas, needed + moving - (r.replicas - replicas)))
  {
  }

  lemma FollowedCounts(l: Loop, t: Tick)
    requires Served(t) && Followed(l, t)
    ensures var r := Run(Seen(l, t), t.after).report;
            r.phase.Some? && r.ready + r.warming + MovingCount(Seen(l, t)) == r.replicas >= l.replicas
  {
    PublishedCounts(Before(l, t), t.last);
    CountsAtTick(l, t);
  }

  /** With warming counted in, one tick moves the count exactly to what is
      needed, plus the slots that are moving, less the surplus still held, and
      never down to it. */
  lemma OneTurn(l: Loop, t: Tick)
    requires Served(t) && Followed(l, t)
    ensures var l' := Turn(l, t, ReadyAndWarming);
            var surplus := l'.fleet.report.replicas - l.replicas;
            var asked := t.needed + MovingCount(Seen(l, t)) - surplus;
            && surplus >= 0
            && l'.replicas == if t.taken then Min(MAX_REPLICAS, Max(l.replicas, asked)) else l.replicas
  {
    FollowedCounts(l, t);
    AskedWithWarming(Run(Seen(l, t), t.after).report, l.replicas, t.needed, MovingCount(Seen(l, t)));
  }

  /** The larger of the start and the peak need. */
  function Peak(start: int, ts: seq<Tick>): int {
    if ts == [] then start else Max(Peak(start, ts[..|ts| - 1]), ts[|ts| - 1].needed)
  }

  lemma {:induction false} PeakGrows(start: int, ts: seq<Tick>, k: nat)
    requires k < |ts|
    ensures Peak(start, ts[..k + 1]) == Max(Peak(start, ts[..k]), ts[k].needed)
  {
    assert ts[..k + 1][..k] == ts[..k];
  }

  lemma {:induction false} PeakOfPrefix(start: int, ts: seq<Tick>, k: nat)
    requires k <= |ts|
    ensures Peak(start, ts[..k]) <= Peak(start, ts)
    decreases |ts|
  {
    if k == |ts| {
      assert ts[..k] == ts;
    } else {
      PeakOfPrefix(start, ts[..|ts| - 1], k);
      assert ts[..|ts| - 1][..k] == ts[..k];
    }
  }

  /** The fleet follows the count, and at most m slots are moving. */
  ghost predicate MovingTick(l: Loop, t: Tick, m: nat) {
    Followed(l, t) && MovingCount(Seen(l, t)) <= m
  }

  /** The fleet follows the count, and no slot is draining or rescheduling. */
  ghost predicate CalmTick(l: Loop, t: Tick) {
    Followed(l, t) && Calm(Seen(l, t))
  }

  lemma CalmTickMovesNothing(l: Loop, t: Tick)
    requires CalmTick(l, t)
    ensures MovingTick(l, t, 0)
  {
    CalmMovesNothing(Seen(l, t));
  }

  ghost predicate MovesAtMost(ls: seq<Loop>, ts: seq<Tick>, m: nat) {
    && |ls| == |ts| + 1
    && forall k {:trigger MovingTick(ls[k], ts[k], m)} :: 0 <= k < |ts| ==> MovingTick(ls[k], ts[k], m)
  }

  lemma OneTurnAt(ls: seq<Loop>, ts: seq<Tick>, m: nat, k: nat)
    requires IsLoop(ls, ts, ReadyAndWarming) && MovesAtMost(ls, ts, m) && k < |ts|
    ensures ls[k + 1].replicas <= Max(ls[k].replicas, ts[k].needed + m)
  {
    assert Turned(ls, ts, ReadyAndWarming, k);
    assert MovingTick(ls[k], ts[k], m);
    OneTurn(ls[k], ts[k]);
  }

  lemma {:induction false} LoopWithinPeak(ls: seq<Loop>, ts: seq<Tick>, m: nat, k: nat)
    requires IsLoop(ls, ts, ReadyAndWarming) && MovesAtMost(ls, ts, m) && k < |ls|
    ensures ls[k].replicas <= Peak(ls[0].replicas - m, ts[..k]) + m
  {
    if k == 0 {
      assert ts[..0] == [];
    } else {
      LoopWithinPeak(ls, ts, m, k - 1);
      OneTurnAt(ls, ts, m, k - 1);
      PeakGrows(ls[0].replicas - m, ts, k - 1);
    }
  }

  /** The consumer that counts warming replicas never drives the fleet above the
      larger of where it started and the peak need plus the slots it finds moving. */
  lemma OvershootsByMovesAtMost(ls: seq<Loop>, ts: seq<Tick>, m: nat, k: nat)
    requires IsLoop(ls, ts, ReadyAndWarming) && MovesAtMost(ls, ts, m) && k < |ls|
    ensures ls[k].replicas <= Peak(ls[0].replicas - m, ts) + m
  {
    LoopWithinPeak(ls, ts, m, k);
    PeakOfPrefix(ls[0].replicas - m, ts, k);
  }

  ghost predicate CalmLoop(ls: seq<Loop>, ts: seq<Tick>) {
    && |ls| == |ts| + 1
    && forall k {:trigger CalmTick(ls[k], ts[k])} :: 0 <= k < |ts| ==> CalmTick(ls[k], ts[k])
  }

  lemma CalmLoopMovesNothing(ls: seq<Loop>, ts: seq<Tick>)
    requires CalmLoop(ls, ts)
    ensures MovesAtMost(ls, ts, 0)
  {
    forall k: nat | k < |ts|
      ensures MovingTick(ls[k], ts[k], 0)
    {
      assert CalmTick(ls[k], ts[k]);
      CalmTickMovesNothing(ls[k], ts[k]);
    }
  }

  /** So, when no slot is draining or rescheduling at any tick, never above the
      larger of where it started and the peak need. */
  lemma NeverOvershoots(ls: seq<Loop>, ts: seq<Tick>, k: nat)
    requires IsLoop(ls, ts, ReadyAndWarming) && CalmLoop(ls, ts) && k < |ls|
    ensures ls[k].replicas <= Peak(ls[0].replicas, ts)
  {
    CalmLoopMovesNothing(ls, ts);
    OvershootsByMovesAtMost(ls, ts, 0, k);
  }

  // ----- Asking for what is already on its way

  /** The fleet's own count of ready slots at the tick is r; n are needed; the
      write is taken. */
  ghost predicate StuckTick(l: Loop, t: Tick, r: nat, n: int) {
    Seen(l, t).report.ready == r && t.needed == n && t.taken
  }

  /** One tick of the consumer that cannot see warming replicas. */
  lemma StuckTurn(l: Loop, t: Tick, r: nat, n: int)
    requires Served(t) && StuckTick(l, t, r, n) && r < n && l.replicas <= MAX_REPLICAS
    ensures Turn(l, t, ReadyOnly).replicas == Min(MAX_REPLICAS, l.replicas + (n - r))
  {
    CountsAtTick(l, t);
  }

  ghost predicate Stuck(ls: seq<Loop>, ts: seq<Tick>, r: nat, n: int) {
    && |ls| == |ts| + 1
    && forall k {:trigger StuckTick(ls[k], ts[k], r, n)} :: 0 <= k < |ts| ==> StuckTick(ls[k], ts[k], r, n)
  }

  lemma StuckTurnAt(ls: seq<Loop>, ts: seq<Tick>, r: nat, n: int, k: nat)
    requires IsLoop(ls, ts, ReadyOnly) && Stuck(ls, ts, r, n) && k < |ts|
    requires r < n && ls[k].replicas <= MAX_REPLICAS
    ensures ls[k + 1].replicas == Min(MAX_REPLICAS, ls[k].replicas + (n - r))
  {
    assert Turned(ls, ts, ReadyOnly, k);
    StuckTurn(ls[k], ts[k], r, n);
  }

  /** The consumer that counts ready replicas only, while r slots are ready at
      each tick and more are needed, asks again every tick: it reaches exactly
      the start plus a shortfall per tick, or the fuse. */
  lemma {:induction false} RunsAway(ls: seq<Loop>, ts: seq<Tick>, r: nat, n: int, w: nat)
    requires IsLoop(ls, ts, ReadyOnly) && Stuck(ls, ts, r, n) && w < |ls|
    requires r < n && ls[0].replicas <= MAX_REPLICAS
    ensures ls[w].replicas == Min(MAX_REPLICAS, ls[0].replicas + w * (n - r))
  {
    if w > 0 {
      RunsAway(ls, ts, r, n, w - 1);
      StuckTurnAt(ls, ts, r, n, w - 1);
      OneMoreShortfall(ls[0].replicas, w, n - r);
    }
  }

  lemma OneMoreShortfall(start: int, w: nat, short: nat)
    requires w > 0
    ensures Min(MAX_REPLICAS, Min(MAX_REPLICAS, start + (w - 1) * short) + short)
         == Min(MAX_REPLICAS, start + w * short)
  {
    assert w * short == (w - 1) * short + short;
  }

  // ----- What keeps the ready count where it is

  function ReadyAmong(s: State, e: Env, children: map<nat, NodeName>): set<nat> {
    set i | i in s.children && i in e.ready && i in children
  }

  /** The slots live before and after the reconcile whose child reports ready. */
  function ReadySlots(s: State, e: Env): set<nat> {
    ReadyAmong(s, e, Step(s, e).children)
  }

  lemma ReadyEntry(s: State, e: Env, node: NodeName, i: nat)
    requires Calm(s) && DisplacedSlots(s.children, e.displaced) == {}
    ensures NewEntry(s, e, node, i).phase == Phase.Ready <==> NodeReady(s, e, i)
    ensures NewEntry(s, e, node, i).phase !in {Phase.Draining, Preempted, Rescheduling}
  {
  }

  lemma ReadyOf(s: State, e: Env, children: map<nat, NodeName>)
    requires Calm(s) && DisplacedSlots(s.children, e.displaced) == {}
    ensures InPhase(NewStatus(s, e, children), Phase.Ready) == ReadyAmong(s, e, children)
  {
    forall i
      ensures i in InPhase(NewStatus(s, e, children), Phase.Ready) <==> i in ReadyAmong(s, e, children)
    {
      if i in children {
        ReadyEntry(s, e, children[i], i);
      }
    }
  }

  /** When no slot is moving and none is on a displaced node, the ready count is
      the number of slots, surplus ones included, that were live, stay live and
      report ready. */
  lemma ReadyCount(s: State, e: Env)
    requires IsFull(e) && Calm(s) && DisplacedSlots(s.children, e.displaced) == {}
    ensures Step(s, e).report.ready == |ReadySlots(s, e)|
  {
    ReadyOf(s, e, NewChildren(s, e, Decide(s, e)));
  }

  /** The fleet is calm when the last full reconcile comes, none of its slots is
      on a displaced node, and r of them report ready, whichever they are. */
  ghost predicate ReadyTick(l: Loop, t: Tick, r: nat) {
    && Calm(Before(l, t)) && DisplacedSlots(Before(l, t).children, t.last.displaced) == {}
    && |ReadySlots(Before(l, t), t.last)| == r
  }

  lemma ReadyTickIsStuck(l: Loop, t: Tick, r: nat, n: int)
    requires IsFull(t.last) && ReadyTick(l, t, r) && t.needed == n && t.taken
    ensures StuckTick(l, t, r, n)
  {
    ReadyCount(Before(l, t), t.last);
  }

  /** The same from the slots themselves: r children report ready at each tick of
      a calm fleet. */
  lemma RunsAwayFromReadySlots(ls: seq<Loop>, ts: seq<Tick>, r: nat, n: int, w: nat)
    requires IsLoop(ls, ts, ReadyOnly) && w < |ls| && r < n && ls[0].replicas <= MAX_REPLICAS
    requires forall k {:trigger ReadyTick(ls[k], ts[k], r)} :: 0 <= k < |ts| ==>
      ReadyTick(ls[k], ts[k], r) && ts[k].needed == n && ts[k].taken
    ensures ls[w].replicas == Min(MAX_REPLICAS, ls[0].replicas + w * (n - r))
  {
    forall k: nat | k < |ts|
      ensures StuckTick(ls[k], ts[k], r, n)
    {
      assert Turned(ls, ts, ReadyOnly, k) && ReadyTick(ls[k], ts[k], r);
      ReadyTickIsStuck(ls[k], ts[k], r, n);
    }
    RunsAway(ls, ts, r, n, w);
  }

  // ----- What keeps a fleet calm

  /** The reconcile does not find a slot of the fleet on a displaced node. */
  ghost predicate UndisturbedBy(s: State, e: Env) {
    IsFull(e) ==> DisplacedSlots(s.children, e.displaced) == {}
  }

  lemma StaysCalm(s: State, s': State, e: Env)
    requires Calm(s) && UndisturbedBy(s, e) && Same(s', Step(s, e))
    ensures Calm(s')
  {
    if IsFull(e) {
      var children := NewChildren(s, e, Decide(s, e));
      forall i | i in s'.status
        ensures s'.status[i].phase !in {Phase.Draining, Preempted, Rescheduling}
      {
        assert s'.status[i] == NewEntry(s, e, children[i], i);
        ReadyEntry(s, e, children[i], i);
      }
    }
  }

  /** Nor does any reconcile of the run. */
  ghost predicate Undisturbed(s: State, es: seq<Env>) {
    es == []
    || (Undisturbed(s, es[..|es| - 1]) && UndisturbedBy(Run(s, es[..|es| - 1]), es[|es| - 1]))
  }

  lemma {:induction false} RunStaysCalm(s: State, es: seq<Env>)
    requires Calm(s) && Undisturbed(s, es)
    ensures Calm(Run(s, es))
    decreases |es|
  {
    if es != [] {
      RunStaysCalm(s, es[..|es| - 1]);
      RunLast(s, es);
      StaysCalm(Run(s, es[..|es| - 1]), Run(s, es), es[|es| - 1]);
    }
  }

  /** Nor does any of the period. */
  ghost predicate UndisturbedTick(l: Loop, t: Tick) {
    Undisturbed(l.fleet, t.before) && UndisturbedBy(Before(l, t), t.last)
  }

  lemma TurnStaysCalm(l: Loop, t: Tick, arm: Arm)
    requires Calm(l.fleet) && Served(t) && UndisturbedTick(l, t)
    ensures Calm(Before(l, t)) && Calm(Seen(l, t)) && Calm(Turn(l, t, arm).fleet)
  {
    RunStaysCalm(l.fleet, t.before);
    StaysCalm(Before(l, t), Seen(l, t), t.last);
    WrittenBySeen(l, t);
    EarlyReturnsKeepCounts(Seen(l, t), t.after);
  }

  ghost predicate UndisturbedLoop(ls: seq<Loop>, ts: seq<Tick>) {
    && |ls| == |ts| + 1
    && forall k {:trigger UndisturbedTick(ls[k], ts[k])} :: 0 <= k < |ts| ==> UndisturbedTick(ls[k], ts[k])
  }

  lemma TurnStaysCalmAt(ls: seq<Loop>, ts: seq<Tick>, arm: Arm, k: nat)
    requires IsLoop(ls, ts, arm) && UndisturbedLoop(ls, ts) && k < |ts| && Calm(ls[k].fleet)
    ensures Calm(Seen(ls[k], ts[k])) && Calm(ls[k + 1].fleet)
  {
    assert Turned(ls, ts, arm, k);
    assert UndisturbedTick(ls[k], ts[k]);
    TurnStaysCalm(ls[k], ts[k], arm);
  }

  /** A calm fleet that is not disturbed stays calm. */
  lemma {:induction false} LoopStaysCalm(ls: seq<Loop>, ts: seq<Tick>, arm: Arm, k: nat)
    requires IsLoop(ls, ts, arm) && UndisturbedLoop(ls, ts) && Calm(ls[0].fleet) && k < |ls|
    ensures Calm(ls[k].fleet)
  {
    if k > 0 {
      LoopStaysCalm(ls, ts, arm, k - 1);
      TurnStaysCalmAt(ls, ts, arm, k - 1);
    }
  }

  ghost predicate FollowedLoop(ls: seq<Loop>, ts: seq<Tick>) {
    && |ls| == |ts| + 1
    && forall k {:trigger Followed(ls[k], ts[k])} :: 0 <= k < |ts| ==> Followed(ls[k], ts[k])
  }

  lemma UndisturbedLoopIsCalm(ls: seq<Loop>, ts: seq<Tick>, arm: Arm)
    requires IsLoop(ls, ts, arm) && UndisturbedLoop(ls, ts) && FollowedLoop(ls, ts) && Calm(ls[0].fleet)
    ensures CalmLoop(ls, ts)
  {
    forall k: nat | k < |ts|
      ensures CalmTick(ls[k], ts[k])
    {
      assert Followed(ls[k], ts[k]);
      LoopStaysCalm(ls, ts, arm, k);
      TurnStaysCalmAt(ls, ts, arm, k);
    }
  }

  /** From a calm start, nothing need be asked of the ticks but that no reconcile
      finds a slot of the fleet on a displaced node. */
  lemma UndisturbedNeverOvershoots(ls: seq<Loop>, ts: seq<Tick>, k: nat)
    requires IsLoop(ls, ts, ReadyAndWarming) && UndisturbedLoop(ls, ts) && FollowedLoop(ls, ts)
    requires Calm(ls[0].fleet) && k < |ls|
    ensures ls[k].replicas <= Peak(ls[0].replicas, ts)
  {
    UndisturbedLoopIsCalm(ls, ts, ReadyAndWarming);
    NeverOvershoots(ls, ts, k);
  }
}
