/** The cap on simultaneous reschedules: what one reconcile keeps, exactly when
    the cap holds after it, and that it holds along runs. */
module RescheduleCap {
  import opened Prelude
  import opened FleetTypes
  import opened Slots
  import opened FleetStep
  import opened FleetRuns

  function Cap(e: Env): nat {
    Max(0, e.cap)
  }

  /** In-range slots that get a replacement node. */
  function MovedInRange(s: State, e: Env, d: Decision): set<nat> {
    set i | i in Moved(s, e, d) && i < Desired(e)
  }

  /** The slot was draining, stays live, and its node is not displaced: it was
      either moved by the last reconcile, or held on a node displaced no longer. */
  predicate IsCarried(s: State, e: Env, i: nat) {
    && i in s.children && s.children[i] !in e.displaced
    && PrevPhase(s, i) == Phase.Draining
    && (i < Desired(e) || IsHeld(s, e, i))
  }

  function Carried(s: State, e: Env): set<nat> {
    set i | i in s.children && IsCarried(s, e, i)
  }

  /** Slots whose node the reconcile changes. */
  function Repinned(s: State, e: Env): set<nat> {
    set i | i in s.children && i in Step(s, e).children && Step(s, e).children[i] != s.children[i]
  }

  lemma MovingAfter(s: State, e: Env, d: Decision, i: nat)
    requires Faithful(s) && i in NewChildren(s, e, d)
    requires d.target.Some? ==> IsHealthy(d.target.value, e)
    requires forall k :: 0 <= k < |d.freshNodes| ==> IsHealthy(d.freshNodes[k], e)
    ensures Moving(NewEntry(s, e, NewChildren(s, e, d)[i], i), e.displaced)
       <==> IsCarried(s, e, i) || (i in Moved(s, e, d) && i < Desired(e))
  {
    assert i in s.status ==> s.status[i].phase != Preempted;
  }

  lemma CarriedSurvives(s: State, e: Env, d: Decision, i: nat)
    requires IsCarried(s, e, i) || (i in MovedInRange(s, e, d) && d.target.Some?)
    ensures i in NewChildren(s, e, d)
  {
    if i < Desired(e) {
      assert i in Interval(0, Desired(e));
    }
  }

  lemma ActiveSet(s: State, e: Env, d: Decision)
    requires Faithful(s)
    requires d.target.Some? ==> IsHealthy(d.target.value, e)
    requires forall k :: 0 <= k < |d.freshNodes| ==> IsHealthy(d.freshNodes[k], e)
    ensures InFlight(NewStatus(s, e, NewChildren(s, e, d)), e.displaced) == Carried(s, e) + MovedInRange(s, e, d)
  {
    var children := NewChildren(s, e, d);
    var active, parts := InFlight(NewStatus(s, e, children), e.displaced), Carried(s, e) + MovedInRange(s, e, d);
    forall i
      ensures i in active <==> i in parts
    {
      if i in children {
        MovingAfter(s, e, d, i);
      } else if i in parts {
        CarriedSurvives(s, e, d, i);
      }
    }
  }

  /** What holds the cap after a full reconcile: what was draining on a node
      not displaced, and what this reconcile moved. */
  lemma ActiveAfter(s: State, e: Env)
    requires IsFull(e) && Faithful(s)
    ensures var d := Decide(s, e);
            && InFlight(Step(s, e).status, e.displaced) == Carried(s, e) + MovedInRange(s, e, d)
            && Carried(s, e) !! MovedInRange(s, e, d)
            && Step(s, e).report.active == |Carried(s, e)| + |MovedInRange(s, e, d)|
  {
    var d := Decide(s, e);
    DecisionIsSound(s, e);
    ActiveSet(s, e, d);
    assert Carried(s, e) !! MovedInRange(s, e, d);
  }

  lemma MovesWithinBudget(s: State, e: Env)
    requires IsFull(e)
    ensures |MovedInRange(s, e, Decide(s, e))| <= Max(0, Cap(e) - |InFlight(s.status, e.displaced)|)
    ensures Repinned(s, e) <= MovedInRange(s, e, Decide(s, e))
    ensures |Repinned(s, e)| <= |MovedInRange(s, e, Decide(s, e))|
  {
    var d := Decide(s, e);
    LowestSize(DisplacedSlots(s.children, e.displaced), d.budget);
    SubsetSize(MovedInRange(s, e, d), Moved(s, e, d));
    forall i | i in Repinned(s, e)
      ensures i in MovedInRange(s, e, d)
    {
    }
    SubsetSize(Repinned(s, e), MovedInRange(s, e, d));
  }

  lemma CarriedWasInFlight(s: State, e: Env)
    requires Faithful(s)
    ensures Carried(s, e) <= InFlight(s.status, e.displaced)
    ensures |Carried(s, e)| <= |InFlight(s.status, e.displaced)|
  {
    SubsetSize(Carried(s, e), InFlight(s.status, e.displaced));
  }

  /** For any displaced set, a full reconcile changes the node of at most
      max(0, cap - in flight) slots, and leaves at most max(cap, in flight) active. */
  lemma CapOneStep(s: State, e: Env)
    requires IsFull(e) && Faithful(s)
    ensures var inFlight := |InFlight(s.status, e.displaced)|;
            && |Repinned(s, e)| <= Max(0, Cap(e) - inFlight)
            && Step(s, e).report.active <= Max(Cap(e), inFlight)
            && Step(s, e).report.active == |InFlight(Step(s, e).status, e.displaced)|
  {
    ActiveAfter(s, e);
    MovesWithinBudget(s, e);
    CarriedWasInFlight(s, e);
  }

  /** After a full reconcile the cap holds if and only if no more slots than the
      cap were draining on nodes not displaced now: slots the last reconcile
      moved, and slots it held on nodes that are displaced no longer. */
  lemma CapHoldsIff(s: State, e: Env)
    requires IsFull(e) && Faithful(s)
    ensures Step(s, e).report.active <= Cap(e) <==> |Carried(s, e)| <= Cap(e)
  {
    ActiveAfter(s, e);
    MovesWithinBudget(s, e);
    CarriedWasInFlight(s, e);
  }

  // ----- Along runs

  ghost predicate CapGrows(es: seq<Env>) {
    forall k, l :: 0 <= k < l < |es| ==> es[k].cap <= es[l].cap
  }

  function LastCap(es: seq<Env>): nat {
    if es == [] then 0 else Cap(es[|es| - 1])
  }

  ghost predicate DisplacedGrows(es: seq<Env>) {
    forall k, l :: 0 <= k < l < |es| ==> es[k].displaced <= es[l].displaced
  }

  function LastDisplaced(es: seq<Env>): set<NodeName> {
    if es == [] then {} else es[|es| - 1].displaced
  }

  lemma InFlightShrinks(status: map<nat, Entry>, before: set<NodeName>, after: set<NodeName>)
    requires before <= after
    ensures |InFlight(status, after)| <= |InFlight(status, before)|
  {
    SubsetSize(InFlight(status, after), InFlight(status, before));
  }

  /** With a cap never lowered, and nodes only ever becoming displaced, active
      reschedules never exceed the cap in any run from an empty fleet, although
      every held slot is forced to Draining. So only a lowered cap or a node
      displaced no longer can take a run above its cap. */
  lemma {:induction false} CapHoldsAlongRuns(es: seq<Env>)
    requires CapGrows(es) && DisplacedGrows(es)
    ensures Run(EMPTY_FLEET, es).report.active <= LastCap(es)
    ensures |InFlight(Run(EMPTY_FLEET, es).status, LastDisplaced(es))| <= LastCap(es)
    decreases |es|
  {
    if es == [] {
      assert InFlight(EMPTY_FLEET.status, {}) == {};
    } else {
      var before, e := es[..|es| - 1], es[|es| - 1];
      var s := Run(EMPTY_FLEET, before);
      CapHoldsAlongRuns(before);
      RunKeepsOrder(before);
      InFlightShrinks(s.status, LastDisplaced(before), e.displaced);
      if IsFull(e) {
        CapOneStep(s, e);
      }
    }
  }
}
