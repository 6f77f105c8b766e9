/** Recovery from displacement: how long it takes, and where it ends. */
module Recovery {
  import opened Prelude
  import opened FleetTypes
  import opened Slots
  import opened FleetStep
  import opened FleetRuns
  import opened FleetSpread
  import opened FleetStatus
  import opened RescheduleCap

  /** In-range slots still pinned to a displaced node. */
  function Stranded(children: map<nat, NodeName>, desired: nat, displaced: set<NodeName>): set<nat> {
    set i | i in children && i < desired && children[i] in displaced
  }

  /** A reconcile that takes neither early return and finds a healthy candidate. */
  ghost predicate Able(e: Env) {
    IsFull(e) && HealthyNames(e) != {}
  }

  lemma AbleHasTarget(s: State, e: Env)
    requires Able(e)
    ensures Sound(s, e, Decide(s, e)) && Decide(s, e).target.Some?
  {
    DecisionIsSound(s, e);
    var n :| n in HealthyNames(e);
    var c :| c in e.candidates && IsHealthy(c.name, e) && c.name == n;
    var b := HealthyPosition(s.children, e, c);
  }

  lemma HealthyHasName(children: map<nat, NodeName>, e: Env)
    ensures Healthy(children, e) != [] ==> HealthyNames(e) != {}
  {
    if Healthy(children, e) != [] {
      HealthyMember(children, e, 0);
      assert Healthy(children, e)[0].name in HealthyNames(e);
    }
  }

  /** Without a healthy candidate there is no node to move to. */
  lemma NoTarget(s: State, e: Env)
    requires IsFull(e) && !Able(e)
    ensures Decide(s, e).target.None?
  {
    DecisionIsSound(s, e);
    HealthyHasName(s.children, e);
  }

  // ----- One reconcile

  /** What a reconcile may move: what the cap leaves room for, if there is a node to move to. */
  ghost function Room(s: State, e: Env): nat {
    if Able(e) then Max(0, Cap(e) - |InFlight(s.status, e.displaced)|) else 0
  }

  /** Surplus slots come after all in-range ones, so the budget is spent on
      in-range slots first. */
  lemma InRangeFirst(s: State, e: Env, d: Decision)
    requires d.target.Some?
    ensures var stranded := Stranded(s.children, Desired(e), e.displaced);
            && MovedInRange(s, e, d) == Lowest(stranded, d.budget)
            && |MovedInRange(s, e, d)| == Min(d.budget, |stranded|)
  {
    var all, stranded := DisplacedSlots(s.children, e.displaced), Stranded(s.children, Desired(e), e.displaced);
    forall i: nat | i < Desired(e)
      ensures Rank(all, i) == Rank(stranded, i)
    {
      assert Below(all, i) == Below(stranded, i);
    }
    LowestSize(stranded, d.budget);
  }

  lemma StrandedAt(s: State, e: Env, d: Decision, i: nat)
    requires d.target.Some? ==> IsHealthy(d.target.value, e)
    requires forall k :: 0 <= k < |d.freshNodes| ==> IsHealthy(d.freshNodes[k], e)
    ensures i in Stranded(NewChildren(s, e, d), Desired(e), e.displaced)
       <==> i in Stranded(s.children, Desired(e), e.displaced) && i !in Moved(s, e, d)
  {
    if i < Desired(e) {
      assert i in Interval(0, Desired(e));
    }
  }

  lemma MovedCount(s: State, e: Env)
    requires IsFull(e)
    ensures |MovedInRange(s, e, Decide(s, e))| == Min(Room(s, e), |Stranded(s.children, Desired(e), e.displaced)|)
  {
    if Able(e) {
      AbleHasTarget(s, e);
      InRangeFirst(s, e, Decide(s, e));
    } else {
      NoTarget(s, e);
      assert MovedInRange(s, e, Decide(s, e)) == {};
    }
  }

  /** A reconcile moves as many stranded slots as its budget allows, the lowest
      first, and strands no other. */
  lemma StrandedAfter(s: State, e: Env)
    requires IsFull(e)
    ensures var before := Stranded(s.children, Desired(e), e.displaced);
            var moved := MovedInRange(s, e, Decide(s, e));
            && Stranded(Step(s, e).children, Desired(e), e.displaced) == before - moved
            && moved <= before
            && |moved| == Min(Room(s, e), |before|)
  {
    DecisionIsSound(s, e);
    MovedCount(s, e);
    StrandedExactly(s, e, Decide(s, e));
  }

  lemma StrandedExactly(s: State, e: Env, d: Decision)
    requires d.target.Some? ==> IsHealthy(d.target.value, e)
    requires forall k :: 0 <= k < |d.freshNodes| ==> IsHealthy(d.freshNodes[k], e)
    ensures Stranded(NewChildren(s, e, d), Desired(e), e.displaced)
         == Stranded(s.children, Desired(e), e.displaced) - MovedInRange(s, e, d)
    ensures MovedInRange(s, e, d) <= Stranded(s.children, Desired(e), e.displaced)
  {
    forall i
      ensures i in Stranded(NewChildren(s, e, d), Desired(e), e.displaced)
         <==> i in Stranded(s.children, Desired(e), e.displaced) - MovedInRange(s, e, d)
    {
      StrandedAt(s, e, d, i);
    }
  }

  lemma StrandedCount(s: State, e: Env)
    requires IsFull(e)
    ensures |Stranded(Step(s, e).children, Desired(e), e.displaced)|
         == |Stranded(s.children, Desired(e), e.displaced)| - |MovedInRange(s, e, Decide(s, e))|
  {
    StrandedAfter(s, e);
    SizeOfRest(Stranded(s.children, Desired(e), e.displaced), MovedInRange(s, e, Decide(s, e)));
  }

  lemma SizeOfRest<T>(a: set<T>, b: set<T>)
    requires b <= a
    ensures |a - b| == |a| - |b|
  {
    assert a == b + (a - b);
  }

  // ----- Two reconciles

  /** Two reconciles that agree on what recovery depends on. */
  ghost predicate SameTrouble(e: Env, e': Env) {
    e.replicas == e'.replicas && e.displaced == e'.displaced && e.cap == e'.cap
  }

  lemma CarriedAt(s: State, e: Env, d: Decision, s1: State, e': Env, i: nat)
    requires d.target.Some? ==> IsHealthy(d.target.value, e)
    requires s1.children == NewChildren(s, e, d) && s1.status == NewStatus(s, e, s1.children)
    requires SameTrouble(e, e')
    ensures IsCarried(s1, e', i) <==> i in MovedInRange(s, e, d)
  {
    if i in s1.children && i < Desired(e) {
      assert s1.status[i] == NewEntry(s, e, s1.children[i], i);
    }
    if i in MovedInRange(s, e, d) {
      CarriedSurvives(s, e, d, i);
    }
  }

  /** What holds the cap after two reconciles is what they moved, and nothing else:
      a move holds the cap for exactly two later reconciles. */
  lemma InFlightIsLastTwoMoves(s: State, e: Env, e': Env)
    requires IsFull(e) && IsFull(e') && SameTrouble(e, e')
    ensures var s1 := Step(s, e);
            |InFlight(Step(s1, e').status, e.displaced)|
            == |MovedInRange(s, e, Decide(s, e))| + |MovedInRange(s1, e', Decide(s1, e'))|
  {
    var d, s1 := Decide(s, e), Step(s, e);
    DecisionIsSound(s, e);
    EnactIsFaithful(s, e, d);
    ActiveAfter(s1, e');
    CarriedExactly(s, e, d, s1, e');
  }

  lemma CarriedExactly(s: State, e: Env, d: Decision, s1: State, e': Env)
    requires d.target.Some? ==> IsHealthy(d.target.value, e)
    requires s1.children == NewChildren(s, e, d) && s1.status == NewStatus(s, e, s1.children)
    requires SameTrouble(e, e')
    ensures Carried(s1, e') == MovedInRange(s, e, d)
  {
    forall i
      ensures i in Carried(s1, e') <==> i in MovedInRange(s, e, d)
    {
      CarriedAt(s, e, d, s1, e', i);
    }
  }

  // ----- What one and two reconciles do, in numbers

  function StrandedIn(s: State, e: Env): nat {
    |Stranded(s.children, Desired(e), e.displaced)|
  }

  function ActiveIn(s: State, e: Env): nat {
    |InFlight(s.status, e.displaced)|
  }

  function MovesOf(s: State, e: Env): nat {
    |MovedInRange(s, e, Decide(s, e))|
  }

  lemma OneMove(s: State, e: Env)
    requires IsFull(e)
    ensures MovesOf(s, e) == if Able(e) then Min(Max(0, Cap(e) - ActiveIn(s, e)), StrandedIn(s, e)) else 0
    ensures StrandedIn(Step(s, e), e) == StrandedIn(s, e) - MovesOf(s, e)
  {
    StrandedAfter(s, e);
    StrandedCount(s, e);
  }

  // ----- Runs

  /** Full reconciles that find the same desired count, displaced nodes and cap;
      everything else may vary, healthy candidates included. */
  ghost predicate SteadyTrouble(es: seq<Env>, e: Env) {
    forall k :: 0 <= k < |es| ==> IsFull(es[k]) && SameTrouble(e, es[k])
  }

  /** How many of the reconciles find a healthy candidate. */
  ghost function AbleIn(es: seq<Env>): nat {
    if es == [] then 0 else AbleIn(es[..|es| - 1]) + if Able(es[|es| - 1]) then 1 else 0
  }

  lemma AbleNext(es: seq<Env>, t: nat)
    requires t < |es|
    ensures AbleIn(es[..t + 1]) == AbleIn(es[..t]) + if Able(es[t]) then 1 else 0
  {
    assert es[..t + 1][..t] == es[..t];
  }

  function CeilDiv(k: nat, c: nat): nat
    requires c > 0
  {
    (k + c - 1) / c
  }

  /** How many slots are stranded before and after each reconcile, how many it
      moves, how many placements hold the cap, and how many reconciles so far
      found a healthy candidate. */
  datatype Course = Course(stranded: seq<nat>, moves: seq<nat>, active: seq<nat>, able: seq<nat>)

  ghost predicate InStep(c: Course) {
    |c.stranded| == |c.active| == |c.able| == |c.moves| + 1
  }

  /** A reconcile that finds a healthy candidate moves what the cap leaves room
      for, another nothing; from the third on, the room is the cap less the
      moves of the two reconciles before. */
  ghost predicate Recovers(c: Course, cap: nat) {
    && InStep(c) && c.able[0] == 0
    && (forall t :: 0 <= t < |c.moves| ==> MoveAt(c, cap, t))
    && (forall t :: 0 <= t < |c.active| - 2 ==> ActiveAt(c, t))
  }

  ghost predicate MoveAt(c: Course, cap: nat, t: nat)
    requires t < |c.moves| && InStep(c)
  {
    && c.able[t] <= c.able[t + 1] <= c.able[t] + 1
    && c.moves[t] == (if c.able[t + 1] > c.able[t] then Min(Max(0, cap - c.active[t]), c.stranded[t]) else 0)
    && c.stranded[t + 1] == c.stranded[t] - c.moves[t]
  }

  ghost predicate ActiveAt(c: Course, t: nat)
    requires t + 2 < |c.active| && InStep(c)
  {
    c.active[t + 2] == c.moves[t] + c.moves[t + 1]
  }

  lemma SameNumbers(s: State, e: Env, e': Env)
    requires SameTrouble(e, e')
    ensures StrandedIn(s, e) == StrandedIn(s, e') && ActiveIn(s, e) == ActiveIn(s, e') && Cap(e) == Cap(e')
  {
  }

  /** The numbers after one more reconcile, from the state before it. */
  lemma NextNumbers(s: State, s': State, e: Env, e': Env)
    requires IsFull(e') && SameTrouble(e, e') && Same(s', Step(s, e'))
    ensures MovesOf(s, e') == if Able(e') then Min(Max(0, Cap(e) - ActiveIn(s, e)), StrandedIn(s, e)) else 0
    ensures StrandedIn(s', e) == StrandedIn(s, e) - MovesOf(s, e')
  {
    OneMove(s, e');
    SameNumbers(s, e, e');
    SameNumbers(s', e, e');
  }

  lemma NextActive(s: State, s1: State, s2: State, es: seq<Env>, t: nat, e: Env)
    requires SteadyTrouble(es, e) && t + 1 < |es|
    requires Same(s1, Step(s, es[t])) && Same(s2, Step(s1, es[t + 1]))
    ensures ActiveIn(s2, e) == MovesOf(s, es[t]) + MovesOf(s1, es[t + 1])
  {
    InFlightIsLastTwoMoves(s, es[t], es[t + 1]);
    SameNumbers(s2, e, es[t]);
  }

  // ----- Traces

  ghost predicate Linked(tr: seq<State>, es: seq<Env>, t: nat)
    requires t < |es| && |tr| == |es| + 1
  {
    Same(tr[t + 1], Step(tr[t], es[t]))
  }

  /** The states a run goes through. */
  ghost predicate IsTrace(tr: seq<State>, es: seq<Env>) {
    && |tr| == |es| + 1
    && forall t {:trigger Linked(tr, es, t)} :: 0 <= t < |es| ==> Linked(tr, es, t)
  }

  lemma LinkedBy(tr: seq<State>, es: seq<Env>, t: nat, s: State, e: Env, s': State)
    requires t < |es| && |tr| == |es| + 1 && Same(s', Step(s, e))
    requires Same(tr[t], s) && Same(tr[t + 1], s') && Same(es[t], e)
    ensures Linked(tr, es, t)
  {
  }

  lemma SameLink(tr: seq<State>, es: seq<Env>, tr': seq<State>, es': seq<Env>, t: nat)
    requires IsTrace(tr, es) && t < |es| && |tr'| == |es'| + 1 && |es'| >= |es|
    requires Same(tr'[t], tr[t]) && Same(tr'[t + 1], tr[t + 1]) && Same(es'[t], es[t])
    ensures Linked(tr', es', t)
  {
    assert Linked(tr, es, t);
    LinkedBy(tr', es', t, tr[t], es[t], tr[t + 1]);
  }

  lemma SnocAt<T>(xs: seq<T>, x: T, t: nat)
    requires t <= |xs|
    ensures Same((xs + [x])[t], if t < |xs| then xs[t] else x)
  {
  }

  /** The longer lists are the shorter ones with s and e at the end. */
  ghost predicate Extends(tr: seq<State>, es: seq<Env>, e: Env, s: State, tr': seq<State>, es': seq<Env>) {
    && |es'| == |es| + 1 && |tr'| == |tr| + 1
    && (forall t :: 0 <= t < |tr| ==> Same(tr'[t], tr[t]))
    && (forall t :: 0 <= t < |es| ==> Same(es'[t], es[t]))
    && Same(tr'[|tr|], s) && Same(es'[|es|], e)
  }

  lemma LongerTrace(tr: seq<State>, es: seq<Env>, e: Env, s: State, tr': seq<State>, es': seq<Env>)
    requires IsTrace(tr, es) && Extends(tr, es, e, s, tr', es') && Linked(tr', es', |es|)
    ensures IsTrace(tr', es')
  {
    forall t: nat | t < |es'|
      ensures Linked(tr', es', t)
    {
      if t < |es| {
        SameLink(tr, es, tr', es', t);
      }
    }
  }

  lemma TraceAppends(tr: seq<State>, es: seq<Env>, e: Env, s: State)
    requires IsTrace(tr, es) && Same(s, Step(tr[|es|], e))
    ensures IsTrace(tr + [s], es + [e])
  {
    forall t: nat | t < |tr|
      ensures Same((tr + [s])[t], tr[t])
    {
      SnocAt(tr, s, t);
    }
    forall t: nat | t < |es|
      ensures Same((es + [e])[t], es[t])
    {
      SnocAt(es, e, t);
    }
    SnocAt(tr, s, |tr|);
    SnocAt(es, e, |es|);
    LinkedBy(tr + [s], es + [e], |es|, tr[|es|], e, s);
    LongerTrace(tr, es, e, s, tr + [s], es + [e]);
  }

  lemma LastOf<T>(xs: seq<T>)
    requires xs != []
    ensures xs == xs[..|xs| - 1] + [xs[|xs| - 1]]
  {
  }

  lemma {:induction false} TraceOf(s: State, es: seq<Env>) returns (tr: seq<State>)
    ensures IsTrace(tr, es) && Same(tr[0], s) && Same(tr[|es|], Run(s, es))
    decreases |es|
  {
    if es == [] {
      tr := [s];
    } else {
      var m := |es| - 1;
      tr := TraceOf(s, es[..m]);
      TraceAppends(tr, es[..m], es[m], Run(s, es));
      LastOf(es);
      tr := tr + [Run(s, es)];
    }
  }

  /** The numbers along a trace. */
  ghost function CourseOf(tr: seq<State>, es: seq<Env>, e: Env): (c: Course)
    requires |tr| == |es| + 1
    ensures InStep(c) && |c.moves| == |es|
    ensures forall t :: 0 <= t < |tr| ==> c.stranded[t] == StrandedIn(tr[t], e) && c.active[t] == ActiveIn(tr[t], e)
    ensures forall t :: 0 <= t < |es| ==> c.moves[t] == MovesOf(tr[t], es[t])
    ensures forall t :: 0 <= t < |tr| ==> c.able[t] == AbleIn(es[..t])
  {
    Course(seq(|tr|, t requires 0 <= t < |tr| => StrandedIn(tr[t], e)),
           seq(|es|, t requires 0 <= t < |es| => MovesOf(tr[t], es[t])),
           seq(|tr|, t requires 0 <= t < |tr| => ActiveIn(tr[t], e)),
           seq(|tr|, t requires 0 <= t < |tr| => AbleIn(es[..t])))
  }

  lemma CourseMoves(tr: seq<State>, es: seq<Env>, e: Env, t: nat)
    requires IsTrace(tr, es) && SteadyTrouble(es, e) && t < |es|
    ensures MoveAt(CourseOf(tr, es, e), Cap(e), t)
  {
    assert Linked(tr, es, t);
    NextNumbers(tr[t], tr[t + 1], e, es[t]);
    AbleNext(es, t);
  }

  lemma CourseActive(tr: seq<State>, es: seq<Env>, e: Env, t: nat)
    requires IsTrace(tr, es) && SteadyTrouble(es, e) && t + 2 < |tr|
    ensures ActiveAt(CourseOf(tr, es, e), t)
  {
    ActiveFromMoves(tr, es, e, t);
  }

  /** Every run of recovery obeys the recurrence. */
  lemma CourseRecovers(tr: seq<State>, es: seq<Env>, e: Env)
    requires IsTrace(tr, es) && SteadyTrouble(es, e)
    ensures Recovers(CourseOf(tr, es, e), Cap(e))
  {
    var c := CourseOf(tr, es, e);
    forall t: nat | t < |c.moves|
      ensures MoveAt(c, Cap(e), t)
    {
      CourseMoves(tr, es, e, t);
    }
    forall t: nat | t < |c.active| - 2
      ensures ActiveAt(c, t)
    {
      CourseActive(tr, es, e, t);
    }
  }

  lemma ActiveFromMoves(tr: seq<State>, es: seq<Env>, e: Env, t: nat)
    requires IsTrace(tr, es) && SteadyTrouble(es, e) && t + 2 < |tr|
    ensures ActiveIn(tr[t + 2], e) == MovesOf(tr[t], es[t]) + MovesOf(tr[t + 1], es[t + 1])
  {
    assert Linked(tr, es, t) && Linked(tr, es, t + 1);
    NextActive(tr[t], tr[t + 1], tr[t + 2], es, t, e);
  }

  lemma {:induction false} StrandedFalls(c: Course, cap: nat, g: nat, t: nat)
    requires Recovers(c, cap) && g <= t < |c.stranded|
    ensures c.stranded[t] <= c.stranded[g]
  {
    if g < t {
      assert MoveAt(c, cap, t - 1);
      StrandedFalls(c, cap, g, t - 1);
    }
  }

  /** When n reconciles had found a healthy candidate. */
  lemma {:induction false} WhenAble(c: Course, cap: nat, t: nat, n: nat) returns (g: nat)
    requires Recovers(c, cap) && t < |c.stranded| && n <= c.able[t]
    ensures g <= t && c.able[g] == n && c.able[t] - n <= t - g
  {
    g := t;
    if n < c.able[t] {
      assert t > 0 && MoveAt(c, cap, t - 1);
      g := WhenAble(c, cap, t - 1, n);
    }
  }

  /** A reconcile that finds a healthy candidate completes a cap's worth of
      moves since any moment two reconciles before it or more, or has none left. */
  lemma CapMoved(c: Course, cap: nat, g: nat, t: nat)
    requires Recovers(c, cap) && g <= t && t + 2 < |c.moves| && c.able[t + 3] > c.able[t + 2]
    ensures c.stranded[t + 3] <= Max(0, c.stranded[g] - cap)
  {
    StrandedFalls(c, cap, g, t);
    assert MoveAt(c, cap, t) && MoveAt(c, cap, t + 1) && MoveAt(c, cap, t + 2) && ActiveAt(c, t);
  }

  /** Every three reconciles that find a healthy candidate move at least a cap's
      worth of slots, or all that were stranded. */
  lemma {:induction false} CourseProgress(c: Course, cap: nat, t: nat)
    requires Recovers(c, cap) && t < |c.stranded|
    ensures c.stranded[t] <= Max(0, c.stranded[0] - c.able[t] / 3 * cap)
  {
    if 0 < t {
      assert MoveAt(c, cap, t - 1);
      if c.able[t] / 3 == c.able[t - 1] / 3 {
        CourseProgress(c, cap, t - 1);
      } else {
        var g := WhenAble(c, cap, t, c.able[t] - 3);
        CourseProgress(c, cap, g);
        CapMoved(c, cap, g, t - 3);
        Thirds(c.able[t], cap);
      }
    }
  }

  lemma Thirds(m: nat, c: nat)
    requires m >= 3
    ensures m / 3 * c == (m - 3) / 3 * c + c
  {
    assert m / 3 == (m - 3) / 3 + 1;
  }

  lemma EnoughRounds(k: nat, c: nat, m: nat)
    requires c >= 1 && m >= 3 * CeilDiv(k, c)
    ensures k <= m / 3 * c
  {
    var q := CeilDiv(k, c);
    assert m / 3 >= q;
    assert q * c >= k;
    assert m / 3 * c >= q * c;
  }

  lemma WholeRun<T>(es: seq<T>)
    ensures es[..|es|] == es
  {
  }

  /** Bounded recovery: k stranded slots are all moved once 3 * ceil(k / cap)
      reconciles have found a healthy candidate, from any state, however many
      found none in between. */
  lemma RecoversInTime(s: State, es: seq<Env>, e: Env)
    requires SteadyTrouble(es, e) && e.cap >= 1
    requires AbleIn(es) >= 3 * CeilDiv(StrandedIn(s, e), Cap(e))
    ensures StrandedIn(Run(s, es), e) == 0
  {
    var tr := TraceOf(s, es);
    CourseRecovers(tr, es, e);
    CourseProgress(CourseOf(tr, es, e), Cap(e), |es|);
    WholeRun(es);
    EnoughRounds(StrandedIn(s, e), Cap(e), AbleIn(es));
  }

  // ----- Early returns in between

  /** The same children and status, whatever the report. */
  ghost predicate SameButReport(s: State, s': State) {
    Same(s.children, s'.children) && Same(s.status, s'.status)
  }

  lemma SameDecision(s: State, s': State, e: Env)
    requires SameButReport(s, s')
    ensures Decide(s, e) == Decide(s', e)
  {
  }

  lemma SamePins(s: State, s': State, e: Env, d: Decision)
    requires SameButReport(s, s')
    ensures NewChildren(s, e, d) == NewChildren(s', e, d)
  {
    assert Moved(s, e, d) == Moved(s', e, d);
    forall i
      ensures PinOf(s, e, d, i) == PinOf(s', e, d, i) && (IsHeld(s, e, i) <==> IsHeld(s', e, i))
    {
    }
  }

  lemma SameStatus(s: State, s': State, e: Env, children: map<nat, NodeName>)
    requires SameButReport(s, s')
    ensures NewStatus(s, e, children) == NewStatus(s', e, children)
  {
    forall i | i in children
      ensures NewEntry(s, e, children[i], i) == NewEntry(s', e, children[i], i)
    {
    }
  }

  /** A reconcile does not read the report. */
  lemma ReportIsNotRead(s: State, s': State, e: Env)
    requires SameButReport(s, s')
    ensures SameButReport(Step(s, e), Step(s', e))
  {
    if IsFull(e) {
      SameDecision(s, s', e);
      SamePins(s, s', e, Decide(s, e));
      SameStatus(s, s', e, NewChildren(s, e, Decide(s, e)));
    }
  }

  function FullOnly(es: seq<Env>): seq<Env> {
    if es == [] then []
    else FullOnly(es[..|es| - 1]) + if IsFull(es[|es| - 1]) then [es[|es| - 1]] else []
  }

  lemma RunNext(s: State, es: seq<Env>, e: Env)
    ensures Same(Run(s, es + [e]), Step(Run(s, es), e))
  {
    assert (es + [e])[..|es|] == es;
  }

  lemma {:induction false} SameRunButReport(s: State, es: seq<Env>)
    ensures SameButReport(Run(s, es), Run(s, FullOnly(es)))
    decreases |es|
  {
    if es != [] {
      var before, e := es[..|es| - 1], es[|es| - 1];
      SameRunButReport(s, before);
      if IsFull(e) {
        RunNext(s, FullOnly(before), e);
        ReportIsNotRead(Run(s, before), Run(s, FullOnly(before)), e);
      } else {
        assert FullOnly(es) == FullOnly(before);
        EarlyReturnStutters(Run(s, before), e);
      }
    }
  }

  /** Early returns leave a run's children and status as if they had not happened. */
  lemma EarlyReturnsDoNotMatter(s: State, es: seq<Env>)
    ensures Run(s, es).children == Run(s, FullOnly(es)).children
    ensures Run(s, es).status == Run(s, FullOnly(es)).status
  {
    SameRunButReport(s, es);
  }

  lemma {:induction false} AbleAreFull(es: seq<Env>)
    ensures AbleIn(FullOnly(es)) == AbleIn(es)
    decreases |es|
  {
    if es != [] {
      var before, e := es[..|es| - 1], es[|es| - 1];
      AbleAreFull(before);
      if IsFull(e) {
        assert (FullOnly(before) + [e])[..|FullOnly(before)|] == FullOnly(before);
      } else {
        assert FullOnly(es) == FullOnly(before);
      }
    }
  }

  /** Recovery takes as many reconciles with a healthy candidate, whatever
      reconciles without one and early returns come between them. */
  lemma RecoversThroughEarlyReturns(s: State, es: seq<Env>, e: Env)
    requires SteadyTrouble(FullOnly(es), e) && e.cap >= 1
    requires AbleIn(es) >= 3 * CeilDiv(StrandedIn(s, e), Cap(e))
    ensures StrandedIn(Run(s, es), e) == 0
  {
    AbleAreFull(es);
    RecoversInTime(s, FullOnly(es), e);
    SameRunButReport(s, es);
  }

  // ----- The end of recovery

  /** Reconciles that besides find the same readiness and hysteresis length. */
  ghost predicate SameReadings(e: Env, e': Env) {
    SameTrouble(e, e') && e.required == e'.required && e.ready == e'.ready
  }

  ghost predicate Steady(es: seq<Env>, e: Env) {
    forall k :: 0 <= k < |es| ==> IsFull(es[k]) && SameReadings(e, es[k])
  }

  function SettledPhase(e: Env, i: nat): Phase {
    if i in e.ready then Phase.Ready else Pending
  }

  ghost predicate SettledAt(s: State, e: Env, i: nat) {
    && i in s.children && s.children[i] !in e.displaced
    && i in s.status && s.status[i] == Entry(s.children[i], SettledPhase(e, i), 0)
  }

  /** Exactly the desired slots, on nodes not displaced, Ready if their node is and Pending otherwise. */
  ghost predicate Settled(s: State, e: Env) {
    && s.status.Keys == s.children.Keys
    && (forall i :: i in s.children ==> i < Desired(e))
    && (forall i {:trigger SettledAt(s, e, i)} :: 0 <= i < Desired(e) ==> SettledAt(s, e, i))
  }

  /** After one reconcile with a healthy candidate every desired slot is live. */
  lemma InRangeLive(s: State, e: Env, d: Decision, i: nat)
    requires Sound(s, e, d) && d.target.Some? && i < Desired(e)
    ensures i in NewChildren(s, e, d)
  {
    assert i in Interval(0, Desired(e));
    if i !in s.children {
      assert i in Missing(s.children, Desired(e));
      RankAtMostSize(Missing(s.children, Desired(e)), i);
    }
  }

  lemma LiveAfter(s: State, e: Env, d: Decision, i: nat)
    requires Sound(s, e, d) && i < Desired(e)
    requires i in s.children || d.target.Some?
    ensures i in NewChildren(s, e, d)
  {
    if i in s.children {
      assert i in Interval(0, Desired(e));
    } else {
      InRangeLive(s, e, d, i);
    }
  }

  lemma LiveNext(s: State, s': State, e: Env, i: nat)
    requires IsFull(e) && Same(s', Step(s, e)) && i < Desired(e)
    requires i in s.children || Able(e)
    ensures i in s'.children
  {
    DecisionIsSound(s, e);
    if Able(e) {
      AbleHasTarget(s, e);
    }
    LiveAfter(s, e, Decide(s, e), i);
  }

  lemma LiveAt(tr: seq<State>, es: seq<Env>, e: Env, t: nat, i: nat)
    requires IsTrace(tr, es) && SteadyTrouble(es, e) && t < |es| && i < Desired(e)
    requires i in tr[t].children || Able(es[t])
    ensures i in tr[t + 1].children
  {
    assert Linked(tr, es, t);
    LiveNext(tr[t], tr[t + 1], es[t], i);
  }

  /** Once some reconcile found a healthy candidate every desired slot is live. */
  lemma {:induction false} LiveOnceAble(tr: seq<State>, es: seq<Env>, e: Env, t: nat, i: nat)
    requires IsTrace(tr, es) && SteadyTrouble(es, e) && t < |tr| && i < Desired(e)
    requires AbleIn(es[..t]) >= 1
    ensures i in tr[t].children
  {
    if t > 0 {
      AbleNext(es, t - 1);
      if AbleIn(es[..t - 1]) >= 1 {
        LiveOnceAble(tr, es, e, t - 1, i);
      }
      LiveAt(tr, es, e, t - 1, i);
    }
  }

  /** The slot stays or is put on a node not displaced, its phase advanced. */
  ghost predicate AdvancedAt(s: State, s': State, e: Env, i: nat) {
    && i in s'.children && i in s'.status && s'.children[i] !in e.displaced
    && s'.status[i] == Entry(s'.children[i], PlacementPhaseFor(PrevPhase(s, i), NodeReady(s, e, i), false), 0)
  }

  lemma PhaseAfter(s: State, s': State, e: Env, i: nat)
    requires IsFull(e) && Same(s', Step(s, e)) && i < Desired(e)
    requires StrandedIn(s, e) == 0 && (i in s.children || Able(e))
    ensures AdvancedAt(s, s', e, i)
  {
    var d := Decide(s, e);
    DecisionIsSound(s, e);
    LiveNext(s, s', e, i);
    assert i !in Stranded(s.children, Desired(e), e.displaced);
    StrandedAt(s, e, d, i);
  }

  /** One reconcile away from settling. */
  ghost predicate HalfwayAt(s: State, e: Env, i: nat) {
    && i in s.children && i in s.status
    && s.status[i].phase !in {Phase.Draining, Preempted}
    && (s.status[i].phase == Phase.Ready ==> i in e.ready)
  }

  lemma AdvancedIsHalfway(s: State, s': State, e: Env, e': Env, i: nat)
    requires SameReadings(e, e') && AdvancedAt(s, s', e', i)
    ensures HalfwayAt(s', e, i)
  {
  }

  lemma AdvancedTwiceIsSettled(s: State, s': State, e: Env, e': Env, i: nat)
    requires SameReadings(e, e') && HalfwayAt(s, e, i) && AdvancedAt(s, s', e', i)
    ensures SettledAt(s', e, i)
  {
  }

  /** Two reconciles settle the phase of every desired slot. */
  lemma FirstHalf(s: State, s': State, e: Env, e': Env, i: nat)
    requires IsFull(e') && SameReadings(e, e') && Same(s', Step(s, e')) && i < Desired(e)
    requires StrandedIn(s, e) == 0 && (i in s.children || Able(e'))
    ensures HalfwayAt(s', e, i)
  {
    SameNumbers(s, e, e');
    PhaseAfter(s, s', e', i);
    AdvancedIsHalfway(s, s', e, e', i);
  }

  lemma SecondHalf(s: State, s': State, e: Env, e': Env, i: nat)
    requires IsFull(e') && SameReadings(e, e') && Same(s', Step(s, e')) && i < Desired(e)
    requires StrandedIn(s, e) == 0 && HalfwayAt(s, e, i)
    ensures SettledAt(s', e, i)
  {
    SameNumbers(s, e, e');
    PhaseAfter(s, s', e', i);
    AdvancedTwiceIsSettled(s, s', e, e', i);
  }

  /** A slot beyond the desired count was live before, and has one reconcile more
      on its counter, still short of the required length. */
  lemma HeldCounter(s: State, s': State, e: Env, i: nat, t: nat)
    requires IsFull(e) && Same(s', Step(s, e)) && i in s'.children && i >= Desired(e)
    requires t > 0 && i in s.children ==> i in s.status && s.status[i].surplus >= Min(t, I32_MAX)
    ensures i in s.children && i in s'.status
    ensures Min(t + 1, I32_MAX) <= s'.status[i].surplus < e.required
  {
    EntryAfter(s, e, Decide(s, e), i);
  }

  lemma {:induction false} SurplusGrows(tr: seq<State>, es: seq<Env>, e: Env, t: nat, i: nat)
    requires IsTrace(tr, es) && Steady(es, e) && 0 < t < |tr|
    requires i in tr[t].children && i >= Desired(e)
    ensures i in tr[t].status && Min(t, I32_MAX) <= tr[t].status[i].surplus < e.required
  {
    assert Linked(tr, es, t - 1);
    if t > 1 && i in tr[t - 1].children {
      SurplusGrows(tr, es, e, t - 1, i);
    }
    HeldCounter(tr[t - 1], tr[t], es[t - 1], i, t - 1);
  }

  lemma StatusKeys(s: State, s': State, e: Env, e': Env)
    requires IsFull(e') && SameTrouble(e, e') && Same(s', Step(s, e'))
    ensures s'.status.Keys == s'.children.Keys && s'.report == Summary(s'.status, e)
  {
    StatusIsFaithful(s, e', NewChildren(s, e', Decide(s, e')));
    SameSummary(s'.status, e, e');
  }

  lemma SteadyIsSteadyTrouble(es: seq<Env>, e: Env)
    requires Steady(es, e)
    ensures SteadyTrouble(es, e)
  {
  }

  lemma NoneStranded(tr: seq<State>, es: seq<Env>, e: Env, t: nat)
    requires IsTrace(tr, es) && Steady(es, e) && e.cap >= 1
    requires t < |tr| && AbleIn(es[..t]) >= 3 * CeilDiv(StrandedIn(tr[0], e), Cap(e))
    ensures StrandedIn(tr[t], e) == 0
  {
    SteadyIsSteadyTrouble(es, e);
    CourseRecovers(tr, es, e);
    CourseProgress(CourseOf(tr, es, e), Cap(e), t);
    EnoughRounds(StrandedIn(tr[0], e), Cap(e), AbleIn(es[..t]));
  }

  /** Enough reconciles to settle: as many as the hysteresis asks for, enough
      with a healthy candidate to recover before the last two, and at least one
      before the last. */
  ghost predicate LongEnough(es: seq<Env>, stranded: nat, e: Env)
    requires e.cap >= 1
  {
    && |es| >= Max(2, e.required)
    && AbleIn(es[..|es| - 2]) >= 3 * CeilDiv(stranded, Cap(e))
    && AbleIn(es[..|es| - 1]) >= 1
  }

  lemma TwoSettle(s: State, s1: State, s2: State, es: seq<Env>, t: nat, e: Env, i: nat)
    requires Steady(es, e) && t + 1 < |es| && i < Desired(e)
    requires Same(s1, Step(s, es[t])) && Same(s2, Step(s1, es[t + 1]))
    requires StrandedIn(s, e) == 0 && StrandedIn(s1, e) == 0 && (i in s.children || Able(es[t]))
    ensures SettledAt(s2, e, i)
  {
    FirstHalf(s, s1, e, es[t], i);
    SecondHalf(s1, s2, e, es[t + 1], i);
  }

  lemma SlotSettles(tr: seq<State>, es: seq<Env>, e: Env, t: nat, i: nat)
    requires IsTrace(tr, es) && Steady(es, e) && e.cap >= 1 && i < Desired(e)
    requires t + 2 < |tr| && AbleIn(es[..t]) >= 3 * CeilDiv(StrandedIn(tr[0], e), Cap(e)) && AbleIn(es[..t + 1]) >= 1
    ensures SettledAt(tr[t + 2], e, i)
  {
    assert Linked(tr, es, t) && Linked(tr, es, t + 1);
    AbleNext(es, t);
    if !Able(es[t]) {
      SteadyIsSteadyTrouble(es, e);
      LiveOnceAble(tr, es, e, t, i);
    }
    NoneStranded(tr, es, e, t);
    NoneStranded(tr, es, e, t + 1);
    TwoSettle(tr[t], tr[t + 1], tr[t + 2], es, t, e, i);
  }

  lemma KeysSettle(tr: seq<State>, es: seq<Env>, e: Env, t: nat)
    requires IsTrace(tr, es) && Steady(es, e) && 0 < t < |tr|
    ensures tr[t].status.Keys == tr[t].children.Keys && tr[t].report == Summary(tr[t].status, e)
  {
    assert Linked(tr, es, t - 1);
    StatusKeys(tr[t - 1], tr[t], e, es[t - 1]);
  }

  lemma SurplusGone(tr: seq<State>, es: seq<Env>, e: Env, t: nat)
    requires IsTrace(tr, es) && Steady(es, e) && Max(1, e.required) <= t < |tr|
    ensures forall i :: i in tr[t].children ==> i < Desired(e)
  {
    forall i | i in tr[t].children
      ensures i < Desired(e)
    {
      if i >= Desired(e) {
        SurplusGrows(tr, es, e, t, i);
      }
    }
  }

  lemma TraceSettles(tr: seq<State>, es: seq<Env>, e: Env)
    requires IsTrace(tr, es) && Steady(es, e) && e.cap >= 1
    requires LongEnough(es, StrandedIn(tr[0], e), e)
    ensures Settled(tr[|es|], e) && tr[|es|].report == Summary(tr[|es|].status, e)
  {
    var m := |es|;
    KeysSettle(tr, es, e, m);
    SurplusGone(tr, es, e, m);
    forall i: nat | i < Desired(e)
      ensures SettledAt(tr[m], e, i)
    {
      SlotSettles(tr, es, e, m - 2, i);
    }
  }

  lemma SameSummary(status: map<nat, Entry>, e: Env, e': Env)
    requires SameTrouble(e, e')
    ensures Summary(status, e) == Summary(status, e')
  {
  }

  lemma SettledPins(s: State, e: Env, d: Decision)
    requires Settled(s, e)
    ensures Moved(s, e, d) == {}
    ensures NewChildren(s, e, d) == s.children
  {
    assert DisplacedSlots(s.children, e.displaced) == {} by {
      forall i | i in s.children
        ensures s.children[i] !in e.displaced
      {
        assert SettledAt(s, e, i);
      }
    }
    forall i
      ensures i in s.children <==> i in NewChildren(s, e, d)
      ensures i in s.children ==> NewChildren(s, e, d)[i] == s.children[i]
    {
      if 0 <= i < Desired(e) {
        assert SettledAt(s, e, i) && i in Interval(0, Desired(e));
      }
    }
  }

  lemma SettledStatus(s: State, e: Env)
    requires Settled(s, e)
    ensures NewStatus(s, e, s.children) == s.status
  {
    forall i | i in s.children
      ensures NewEntry(s, e, s.children[i], i) == s.status[i]
    {
      assert SettledAt(s, e, i);
    }
  }

  lemma SettledStays(s: State, e: Env)
    requires IsFull(e) && Settled(s, e)
    ensures Same(Step(s, e), s.(report := Summary(s.status, e)))
  {
    SettledPins(s, e, Decide(s, e));
    SettledStatus(s, e);
  }

  /** A settled state is a fixed point of every such reconcile. */
  lemma SettledIsFixed(s: State, e: Env)
    requires IsFull(e) && Settled(s, e) && s.report == Summary(s.status, e)
    ensures Step(s, e) == s
  {
    SettledStays(s, e);
    assert s.(report := Summary(s.status, e)) == s;
  }

  lemma SettledAlike(s: State, e: Env, e': Env)
    requires Settled(s, e) && SameReadings(e, e')
    ensures Settled(s, e')
  {
    forall i: nat | i < Desired(e')
      ensures SettledAt(s, e', i)
    {
      assert SettledAt(s, e, i);
    }
  }

  lemma SettledEverAfter(s: State, e: Env, e': Env)
    requires Settled(s, e) && s.report == Summary(s.status, e) && IsFull(e') && SameReadings(e, e')
    ensures Step(s, e') == s
  {
    SettledAlike(s, e, e');
    SameSummary(s.status, e, e');
    SettledIsFixed(s, e');
  }

  /** With displaced nodes, desired count, cap, hysteresis length and readiness
      fixed, every run long enough reaches, from any state, a state that no
      further reconcile changes: exactly the desired slots, none on a displaced
      node. */
  lemma RunSettles(s: State, es: seq<Env>, e: Env)
    requires Steady(es, e) && e.cap >= 1
    requires LongEnough(es, StrandedIn(s, e), e)
    ensures Settled(Run(s, es), e)
    ensures forall e' :: IsFull(e') && SameReadings(e, e') ==> Step(Run(s, es), e') == Run(s, es)
  {
    var tr := TraceOf(s, es);
    TraceSettles(tr, es, e);
    var end := tr[|es|];
    forall e' | IsFull(e') && SameReadings(e, e')
      ensures Step(end, e') == end
    {
      SettledEverAfter(end, e, e');
    }
  }

  lemma {:induction false} AllAble(es: seq<Env>, t: nat)
    requires t <= |es| && forall k :: 0 <= k < |es| ==> Able(es[k])
    ensures AbleIn(es[..t]) == t
  {
    if t > 0 {
      AllAble(es, t - 1);
      AbleNext(es, t - 1);
    }
  }

  /** How long settling may take when every reconcile finds a healthy candidate. */
  function SettlingTime(stranded: nat, e: Env): nat
    requires e.cap >= 1
  {
    Max(3 * CeilDiv(stranded, Cap(e)) + 2, Max(1, e.required))
  }

  /** Then every run settles within that time. */
  lemma SettlesInTime(s: State, es: seq<Env>, e: Env)
    requires Steady(es, e) && (forall k :: 0 <= k < |es| ==> Able(es[k])) && e.cap >= 1
    requires |es| >= SettlingTime(StrandedIn(s, e), e)
    ensures Settled(Run(s, es), e)
    ensures forall e' :: IsFull(e') && SameReadings(e, e') ==> Step(Run(s, es), e') == Run(s, es)
  {
    AllAble(es, |es| - 2);
    AllAble(es, |es| - 1);
    RunSettles(s, es, e);
  }

  lemma SettledButReport(s: State, s': State, e: Env)
    requires SameButReport(s, s') && Settled(s', e)
    ensures Settled(s, e)
  {
    forall i: nat | i < Desired(e)
      ensures SettledAt(s, e, i)
    {
      assert SettledAt(s', e, i);
    }
  }

  /** Settling takes as many full reconciles whatever early returns come between
      them; from then on no such reconcile and no early return changes children
      or placements. */
  lemma SettlesThroughEarlyReturns(s: State, es: seq<Env>, e: Env)
    requires Steady(FullOnly(es), e) && e.cap >= 1
    requires LongEnough(FullOnly(es), StrandedIn(s, e), e)
    ensures Settled(Run(s, es), e)
    ensures forall e' :: (IsFull(e') ==> SameReadings(e, e')) ==>
      Step(Run(s, es), e').children == Run(s, es).children && Step(Run(s, es), e').status == Run(s, es).status
  {
    var end := Run(s, es);
    RunSettles(s, FullOnly(es), e);
    SameRunButReport(s, es);
    SettledButReport(end, Run(s, FullOnly(es)), e);
    forall e' | IsFull(e') ==> SameReadings(e, e')
      ensures Step(end, e').children == end.children && Step(end, e').status == end.status
    {
      if IsFull(e') {
        SettledAlike(end, e, e');
        SettledStays(end, e');
      } else {
        EarlyReturnStutters(end, e');
      }
    }
  }
}
