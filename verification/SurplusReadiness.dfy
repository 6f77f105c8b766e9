/** A fleet reads Ready by its surplus: with slots still held, as many Ready
    slots as desired need not be the desired ones. */
module SurplusReadiness {
  import opened Prelude
  import opened FleetTypes
  import opened Slots
  import opened FleetStep
  import opened FleetStatus
  import opened CapExceeded

  // ----- Exactly when

  ghost predicate AllInRangeReady(t: State, desired: nat) {
    forall i: nat :: i < desired ==> i in t.status && t.status[i].phase == Phase.Ready
  }

  ghost function ReadyInRange(t: State, desired: nat): set<nat> {
    set i | i in SlotsIn(t.status, {Phase.Ready}) && i < desired
  }

  ghost function ReadySurplus(t: State, desired: nat): set<nat> {
    set i | i in SlotsIn(t.status, {Phase.Ready}) && i >= desired
  }

  lemma ReadySplits(t: State, desired: nat)
    ensures |SlotsIn(t.status, {Phase.Ready})| == |ReadyInRange(t, desired)| + |ReadySurplus(t, desired)|
  {
    assert SlotsIn(t.status, {Phase.Ready}) == ReadyInRange(t, desired) + ReadySurplus(t, desired);
  }

  lemma FullIff(S: set<nat>, n: nat)
    requires forall i :: i in S ==> i < n
    ensures |S| <= n
    ensures |S| == n <==> forall i: nat :: i < n ==> i in S
  {
    IntervalSize(0, n);
    assert S <= Interval(0, n);
    SubsetSize(S, Interval(0, n));
    if forall i: nat :: i < n ==> i in S {
      assert S == Interval(0, n);
    }
  }

  lemma AllReadyIff(t: State, desired: nat)
    ensures |ReadyInRange(t, desired)| <= desired
    ensures AllInRangeReady(t, desired) <==> |ReadyInRange(t, desired)| == desired
  {
    FullIff(ReadyInRange(t, desired), desired);
    forall i: nat | i < desired
      ensures i in ReadyInRange(t, desired) <==> i in t.status && t.status[i].phase == Phase.Ready
    {
    }
  }

  /** A fleet reads Ready without every desired slot being so exactly when it is
      not Degraded and Ready surplus slots make up for the desired ones that are not. */
  lemma ReadyButNotAllIff(s: State, e: Env)
    requires IsFull(e)
    ensures var t, inRange := Step(s, e), |ReadyInRange(Step(s, e), Desired(e))|;
            t.report.phase == Some(FleetPhase.Ready) && !AllInRangeReady(t, Desired(e))
            <==> && t.report.phase != Some(Degraded) && inRange < Desired(e)
                 && Desired(e) <= inRange + |ReadySurplus(t, Desired(e))|
  {
    FullReportSays(s, e);
    ReadySplits(Step(s, e), Desired(e));
    AllReadyIff(Step(s, e), Desired(e));
  }

  // ----- A run that does

  /** One replica is desired now; of the two there are, only the surplus one reports ready. */
  function Shrunk(node: NodeName): Env {
    Reading(node, {}, 1).(replicas := 1, required := 2, ready := {1})
  }

  lemma PlacedEntries(node: NodeName, i: nat)
    requires i < 2
    ensures var s := Step(EMPTY_FLEET, Reading(node, {}, 1));
            i in s.children && s.children[i] == node && i in s.status && s.status[i] == Entry(node, Pending, 0)
  {
    BothPlaced(node, 1, i);
    OneHealthyNode(node, {}, 1);
  }

  lemma ShrunkChildren(s: State, e: Env, d: Decision, node: NodeName)
    requires e == Shrunk(node) && 0 in s.children && s.children[0] == node && 1 in s.children
    requires 1 in s.status && s.status[1] == Entry(node, Pending, 0)
    ensures 0 in NewChildren(s, e, d) && 1 in NewChildren(s, e, d)
  {
    assert 0 in Interval(0, 1);
    assert DisplacedSlots(s.children, e.displaced) == {};
    assert IsHeld(s, e, 1);
  }

  lemma ShrunkEntry(s: State, e: Env, node: NodeName, at: NodeName, i: nat)
    requires e == Shrunk(node) && i < 2 && i in s.children && i in s.status && s.status[i] == Entry(node, Pending, 0)
    ensures NewEntry(s, e, at, i).phase == if i == 1 then Phase.Ready else Pending
  {
    assert DisplacedSlots(s.children, e.displaced) == {};
  }

  lemma ShrunkEntries(s: State, e: Env, node: NodeName)
    requires e == Shrunk(node)
    requires forall i: nat :: i < 2 ==> i in s.children && s.children[i] == node
    requires forall i: nat :: i < 2 ==> i in s.status && s.status[i] == Entry(node, Pending, 0)
    ensures var t := Step(s, e);
            0 in t.status && t.status[0].phase == Pending && 1 in t.status && t.status[1].phase == Phase.Ready
  {
    var d := Decide(s, e);
    ShrunkChildren(s, e, d, node);
    ShrunkEntry(s, e, node, NewChildren(s, e, d)[0], 0);
    ShrunkEntry(s, e, node, NewChildren(s, e, d)[1], 1);
  }

  lemma TwoSteps(s: State, e0: Env, e1: Env)
    ensures Run(s, [e0, e1]) == Step(Step(s, e0), e1)
  {
    var es := [e0, e1];
    assert es[..1][..0] == [];
    assert Run(s, es[..1]) == Step(s, e0);
  }

  /** A run from an empty fleet after which the fleet reads Ready and its only
      desired slot is Pending. */
  lemma ReadyThroughSurplus(node: NodeName) returns (es: seq<Env>)
    ensures |es| == 2 && es[1].replicas == 1
    ensures var t := Run(EMPTY_FLEET, es);
            t.report.phase == Some(FleetPhase.Ready) && 0 in t.status && t.status[0].phase == Pending
  {
    var e0, e1 := Reading(node, {}, 1), Shrunk(node);
    es := [e0, e1];
    TwoSteps(EMPTY_FLEET, e0, e1);
    BothPlacedThere(node, 1);
    forall i: nat | i < 2
      ensures var s := Step(EMPTY_FLEET, e0);
              i in s.status && s.status[i] == Entry(node, Pending, 0)
    {
      PlacedEntries(node, i);
    }
    var t := Step(Step(EMPTY_FLEET, e0), e1);
    ShrunkEntries(Step(EMPTY_FLEET, e0), e1, node);
    FullReportSays(Step(EMPTY_FLEET, e0), e1);
    SubsetSize({1}, SlotsIn(t.status, {Phase.Ready}));
  }
}
