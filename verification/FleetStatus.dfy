/** What the written status and the pins say after a full reconcile. */
module FleetStatus {
  import opened Prelude
  import opened FleetTypes
  import opened Placement
  import opened Planning
  import opened Slots
  import opened FleetStep
  import opened FleetRuns

  // ----- Honest status

  /** Every live placement is in exactly one of the four published groups. */
  lemma CountsAddUp(s: State, e: Env)
    requires IsFull(e)
    ensures var t := Step(s, e);
            && t.status.Keys == t.children.Keys
            && t.report.replicas == |t.children|
            && t.report.replicas
               == t.report.ready + t.report.warming
                  + |InPhase(t.status, Phase.Draining)| + |InPhase(t.status, Rescheduling)|
  {
    var t := Step(s, e);
    StatusIsFaithful(s, e, t.children);
    assert |t.status.Keys| == |t.status| && |t.children.Keys| == |t.children|;
    PhasesPartition(t.status);
  }

  lemma PhasesPartition(status: map<nat, Entry>)
    requires forall i :: i in status ==> status[i].phase != Preempted
    ensures |status| == |InPhase(status, Phase.Ready)| + |InPhase(status, Pending) + InPhase(status, Phase.Warming)|
                        + |InPhase(status, Phase.Draining)| + |InPhase(status, Rescheduling)|
  {
    assert |status.Keys| == |status|;
    forall i
      ensures i in status.Keys <==> InSomePhase(status, i)
    {
      OnePhase(status, i);
    }
    FourParts(status.Keys, InPhase(status, Phase.Ready), InPhase(status, Pending) + InPhase(status, Phase.Warming),
              InPhase(status, Phase.Draining), InPhase(status, Rescheduling));
  }

  /** The slot is in one of the four published groups. */
  ghost predicate InSomePhase(status: map<nat, Entry>, i: nat) {
    || i in InPhase(status, Phase.Ready)
    || i in InPhase(status, Pending) + InPhase(status, Phase.Warming)
    || i in InPhase(status, Phase.Draining)
    || i in InPhase(status, Rescheduling)
  }

  lemma OnePhase(status: map<nat, Entry>, i: nat)
    requires i in status ==> status[i].phase != Preempted
    ensures i in status <==> InSomePhase(status, i)
  {
  }

  lemma FourParts<T>(all: set<T>, a: set<T>, b: set<T>, c: set<T>, d: set<T>)
    requires a !! b !! c !! d
    requires forall x :: x in all <==> x in a || x in b || x in c || x in d
    ensures |all| == |a| + |b| + |c| + |d|
  {
    assert all == ((a + b) + c) + d;
  }

  lemma DegradedAfter(s: State, e: Env, d: Decision)
    requires d.target.Some? ==> IsHealthy(d.target.value, e)
    requires forall k :: 0 <= k < |d.freshNodes| ==> IsHealthy(d.freshNodes[k], e)
    ensures DrainAndHold(NewStatus(s, e, NewChildren(s, e, d)), e.displaced)
       <==> exists i :: i in NewChildren(s, e, d) && i < Desired(e) && NewChildren(s, e, d)[i] in e.displaced
  {
    var children := NewChildren(s, e, d);
    var status := NewStatus(s, e, children);
    forall i | i in children
      ensures status[i].phase == Phase.Draining && status[i].node in e.displaced
         <==> i < Desired(e) && children[i] in e.displaced
    {
      DrainAndHoldAt(s, e, d, i);
    }
    if i :| i in children && i < Desired(e) && children[i] in e.displaced {
      assert i in status;
    }
  }

  /** The fleet reads Degraded if and only if some in-range slot is still
      pinned to a displaced node. */
  lemma DegradedIffStillDisplaced(s: State, e: Env)
    requires IsFull(e)
    ensures Step(s, e).report.phase == Some(Degraded)
       <==> exists i :: i in Step(s, e).children && i < Desired(e) && Step(s, e).children[i] in e.displaced
  {
    DecisionIsSound(s, e);
    DegradedAfter(s, e, Decide(s, e));
  }

  lemma DrainAndHoldAt(s: State, e: Env, d: Decision, i: nat)
    requires i in NewChildren(s, e, d)
    requires d.target.Some? ==> IsHealthy(d.target.value, e)
    requires forall k :: 0 <= k < |d.freshNodes| ==> IsHealthy(d.freshNodes[k], e)
    ensures var node := NewChildren(s, e, d)[i];
            NewEntry(s, e, node, i).phase == Phase.Draining && node in e.displaced
            <==> i < Desired(e) && node in e.displaced
  {
  }

  lemma SummaryReady(status: map<nat, Entry>, e: Env)
    requires forall i :: i in status ==> i < Desired(e)
    ensures Summary(status, e).phase == Some(FleetPhase.Ready)
       <==> forall i: nat :: i < Desired(e) ==> i in status && status[i].phase == Phase.Ready
  {
    AllReady(status, Desired(e));
  }

  /** Without surplus slots the fleet reads Ready if and only if every slot
      below the desired count is Ready. */
  lemma ReadyIffAllReady(s: State, e: Env)
    requires IsFull(e)
    requires forall i :: i in Step(s, e).children ==> i < Desired(e)
    ensures Step(s, e).report.phase == Some(FleetPhase.Ready)
       <==> forall i: nat :: i < Desired(e) ==> i in Step(s, e).status && Step(s, e).status[i].phase == Phase.Ready
  {
    StatusIsFaithful(s, e, Step(s, e).children);
    SummaryReady(Step(s, e).status, e);
  }

  lemma AllReady(status: map<nat, Entry>, desired: nat)
    requires forall i :: i in status ==> i < desired
    ensures |InPhase(status, Phase.Ready)| >= desired
       <==> forall i: nat :: i < desired ==> i in status && status[i].phase == Phase.Ready
  {
    var ready := InPhase(status, Phase.Ready);
    IntervalSize(0, desired);
    assert ready <= Interval(0, desired);
    SubsetSize(ready, Interval(0, desired));
    if forall i: nat :: i < desired ==> i in status && status[i].phase == Phase.Ready {
      assert ready == Interval(0, desired);
    } else {
      var i: nat :| i < desired && !(i in status && status[i].phase == Phase.Ready);
      assert i in Interval(0, desired) && i !in ready;
    }
  }

  /** The phase of a slot after a full reconcile: Draining when it is desired and
      was on a displaced node; else Rescheduling when it was Draining; else by
      whether its child, if there was one, reports ready. */
  ghost predicate PhaseFollows(s: State, e: Env, i: nat, p: Phase) {
    var before := if i in s.status then s.status[i].phase else Pending;
    if i < Desired(e) && i in s.children && s.children[i] in e.displaced then p == Phase.Draining
    else if before == Phase.Draining || before == Preempted then p == Rescheduling
    else if i in s.children && i in e.ready then p == Phase.Ready
    else p == if before == Phase.Ready then Phase.Warming else Pending
  }

  lemma SlotPhaseFollows(s: State, e: Env, i: nat)
    requires IsFull(e) && i in Step(s, e).children
    ensures i in Step(s, e).status && Step(s, e).status[i].node == Step(s, e).children[i]
    ensures PhaseFollows(s, e, i, Step(s, e).status[i].phase)
    ensures i < Desired(e) ==> Step(s, e).status[i].surplus == 0
  {
    EntryFollows(s, e, NewChildren(s, e, Decide(s, e))[i], i);
  }

  lemma EntryFollows(s: State, e: Env, node: NodeName, i: nat)
    ensures NewEntry(s, e, node, i).node == node && PhaseFollows(s, e, i, NewEntry(s, e, node, i).phase)
    ensures i < Desired(e) ==> NewEntry(s, e, node, i).surplus == 0
  {
  }

  ghost function SlotsIn(status: map<nat, Entry>, phases: set<Phase>): set<nat> {
    set i | i in status && status[i].phase in phases
  }

  /** What a full reconcile reports: Degraded for an in-range slot left on a
      displaced node, or else Ready for as many Ready slots as desired, surplus
      ones included, or else Placing; the count it read; the slots by phase. */
  lemma FullReportSays(s: State, e: Env)
    requires IsFull(e)
    ensures var t := Step(s, e);
            && t.report.desired == e.replicas && t.report.message == NoMessage
            && t.report.ready == |SlotsIn(t.status, {Phase.Ready})|
            && t.report.warming == |SlotsIn(t.status, {Pending, Phase.Warming})|
            && t.report.phase == Some(
                 if exists i :: i in t.children && i < Desired(e) && t.children[i] in e.displaced then Degraded
                 else if |SlotsIn(t.status, {Phase.Ready})| >= e.replicas then FleetPhase.Ready
                 else Placing)
  {
    DegradedIffStillDisplaced(s, e);
    SlotsByPhase(Step(s, e).status);
  }

  lemma SlotsByPhase(status: map<nat, Entry>)
    ensures InPhase(status, Phase.Ready) == SlotsIn(status, {Phase.Ready})
    ensures InPhase(status, Pending) + InPhase(status, Phase.Warming) == SlotsIn(status, {Pending, Phase.Warming})
  {
  }

  lemma AsManyReady(status: map<nat, Entry>, desired: nat)
    requires forall i: nat :: i < desired ==> i in status && status[i].phase == Phase.Ready
    ensures |SlotsIn(status, {Phase.Ready})| >= desired
  {
    IntervalSize(0, desired);
    SubsetSize(Interval(0, desired), SlotsIn(status, {Phase.Ready}));
  }

  lemma ReadyIsNotDisplaced(s: State, e: Env, i: nat)
    requires IsFull(e) && i in Step(s, e).status && Step(s, e).status[i].phase == Phase.Ready && i < Desired(e)
    ensures i in Step(s, e).children && Step(s, e).children[i] !in e.displaced
  {
    DecisionIsSound(s, e);
    DrainAndHoldAt(s, e, Decide(s, e), i);
  }

  /** Once every slot below the desired count is Ready so is the fleet, whatever
      slots are held beside them. */
  lemma ReadyBesideHeld(s: State, e: Env)
    requires IsFull(e)
    requires forall i: nat :: i < Desired(e) ==> i in Step(s, e).status && Step(s, e).status[i].phase == Phase.Ready
    ensures Step(s, e).report.phase == Some(FleetPhase.Ready)
  {
    FullReportSays(s, e);
    AsManyReady(Step(s, e).status, Desired(e));
    forall i: nat | i < Desired(e)
      ensures i in Step(s, e).children && Step(s, e).children[i] !in e.displaced
    {
      ReadyIsNotDisplaced(s, e, i);
    }
  }

  /** What an early return reports: why, and the phase and desired count of a
      fleet that has none yet; nothing else changes. */
  lemma EarlyReturnSays(s: State, e: Env)
    requires !IsFull(e)
    ensures Step(s, e).children == s.children && Step(s, e).status == s.status
    ensures Step(s, e).report.message == if e.strategy == Unsupported then StrategyNotSupported else NoCandidate
    ensures s.report.phase.Some? ==> Step(s, e).report == s.report.(message := Step(s, e).report.message)
    ensures s.report.phase.None? ==>
      Step(s, e).report == s.report.(phase := Some(if e.replicas <= 0 then FleetPhase.Ready else Placing),
                                     desired := e.replicas,
                                     message := Step(s, e).report.message)
  {
  }

  // ----- Pins do not oscillate

  /** A live slot changes node only in a full reconcile in which it is in range
      and its node is displaced, and then it goes to the replacement target. */
  lemma PinChangesOnlyWhenDisplaced(s: State, e: Env, i: nat)
    requires i in s.children && i in Step(s, e).children
    requires Step(s, e).children[i] != s.children[i]
    ensures IsFull(e) && i < Desired(e) && s.children[i] in e.displaced
    ensures Decide(s, e).target == Some(Step(s, e).children[i]) && i in Moved(s, e, Decide(s, e))
  {
  }

  lemma {:induction false} HealthyIsDistinct(cs: seq<Candidate>, e: Env)
    requires DistinctNames(cs)
    ensures DistinctNames(KeepHealthy(cs, e))
  {
    if cs != [] {
      HealthyIsDistinct(cs[1..], e);
      forall b | 0 <= b < |KeepHealthy(cs[1..], e)|
        ensures KeepHealthy(cs[1..], e)[b].name != cs[0].name
      {
        KeptIsHealthy(cs[1..], e, b);
      }
    }
  }

  lemma FoldedIsDistinct(cs: seq<Candidate>, own: map<NodeName, nat>, derived: map<NodeName, Warmth>)
    requires DistinctNames(cs)
    ensures DistinctNames(FoldAll(cs, own, derived))
  {
    forall i, j | 0 <= i < j < |cs|
      ensures FoldAll(cs, own, derived)[i].name != FoldAll(cs, own, derived)[j].name
    {
      FoldAllAt(cs, own, derived, i);
      FoldAllAt(cs, own, derived, j);
    }
  }

  lemma {:induction false} KeepHealthyKeepsAll(cs: seq<Candidate>, e: Env, j: nat)
    requires j < |cs| && IsHealthy(cs[j].name, e)
    ensures cs[j] in KeepHealthy(cs, e)
  {
    if j > 0 {
      KeepHealthyKeepsAll(cs[1..], e, j - 1);
    }
  }

  /** A member of the healthy list is a healthy candidate, with the number of
      slots the fleet has on it. */
  lemma HealthyMember(children: map<nat, NodeName>, e: Env, b: nat)
    requires b < |Healthy(children, e)|
    ensures var c := Healthy(children, e)[b];
            IsHealthy(c.name, e) && c.ownReplicas == OwnCount(children, c.name) && IsCandidate(c.name, e)
  {
    var c := Healthy(children, e)[b];
    var folded := FoldAll(e.candidates, OwnCounts(children), e.derivedWarmth);
    KeptIsHealthy(folded, e, b);
    var i :| 0 <= i < |folded| && folded[i] == c;
    FoldAllAt(e.candidates, OwnCounts(children), e.derivedWarmth, i);
    OwnCountsAt(children, c.name);
    assert e.candidates[i].name == c.name;
  }

  ghost predicate IsCandidate(node: NodeName, e: Env) {
    exists c :: c in e.candidates && c.name == node
  }

  /** Every healthy candidate is in the healthy list. */
  lemma HealthyPosition(children: map<nat, NodeName>, e: Env, c: Candidate) returns (b: nat)
    requires c in e.candidates && IsHealthy(c.name, e)
    ensures b < |Healthy(children, e)| && Healthy(children, e)[b].name == c.name
    ensures Healthy(children, e)[b].ownReplicas == OwnCount(children, c.name)
  {
    var j :| 0 <= j < |e.candidates| && e.candidates[j] == c;
    var folded := FoldAll(e.candidates, OwnCounts(children), e.derivedWarmth);
    FoldAllAt(e.candidates, OwnCounts(children), e.derivedWarmth, j);
    OwnCountsAt(children, c.name);
    KeepHealthyKeepsAll(folded, e, j);
    b :| 0 <= b < |Healthy(children, e)| && Healthy(children, e)[b] == folded[j];
  }

  lemma ChoiceHasFewest(cs: seq<Candidate>, pick: Selector, k: nat)
    requires PicksFewest(pick) && ChosenName(cs, pick).Some? && k < |cs|
    ensures exists b ::
      0 <= b < |cs| && cs[b].name == ChosenName(cs, pick).value && cs[b].ownReplicas <= cs[k].ownReplicas
  {
    assert cs[Choice(cs, pick).value].ownReplicas <= cs[k].ownReplicas;
  }

  /** A moved slot lands on a healthy candidate with the fewest of the fleet's replicas. */
  lemma ReplacementHasFewest(s: State, e: Env, c: Candidate)
    requires Decide(s, e).target.Some?
    requires c in e.candidates && IsHealthy(c.name, e)
    ensures var node := Decide(s, e).target.value;
            && IsHealthy(node, e) && IsCandidate(node, e)
            && OwnCount(s.children, node) <= OwnCount(s.children, c.name)
  {
    var k := HealthyPosition(s.children, e, c);
    StrategyPicksFewest(e.strategy, e.horizon);
    ChoiceHasFewest(Healthy(s.children, e), Pick(e), k);
    var b :| 0 <= b < |Healthy(s.children, e)| && Healthy(s.children, e)[b].name == Decide(s, e).target.value
          && Healthy(s.children, e)[b].ownReplicas <= Healthy(s.children, e)[k].ownReplicas;
    HealthyMember(s.children, e, b);
  }

  /** What the fleet has on a node when the k-th planned slot is placed: the
      pins already there and the slots of the same plan before the k-th. */
  ghost function LoadBefore(own: int, planned: seq<NodeName>, k: nat, node: NodeName): int
    requires k <= |planned|
  {
    if k == 0 then own
    else LoadBefore(own, planned, k - 1, node) + if planned[k - 1] == node then 1 else 0
  }

  lemma {:induction false} LoadBeforeIsCount(own: int, planned: seq<NodeName>, k: nat, node: NodeName)
    requires k <= |planned|
    ensures LoadBefore(own, planned, k, node) == own + multiset(planned[..k])[node]
  {
    if k > 0 {
      LoadBeforeIsCount(own, planned, k - 1, node);
      assert planned[..k] == planned[..k - 1] + [planned[k - 1]];
    }
  }

  lemma PlanPrefix(n: nat, k: nat, cs: seq<Candidate>, pick: Selector)
    requires Decisive(pick) && k <= n && cs != []
    ensures |Plan(n, cs, pick)| == n && Plan(n, cs, pick)[..k] == Plan(k, cs, pick)
  {
    PlanSplits(k, n - k, cs, pick);
    PlanIsComplete(k, cs, pick);
    PlanIsComplete(n, cs, pick);
    Prefix(Plan(k, cs, pick), Plan(n - k, Grown(k, cs, pick), pick));
  }

  lemma Prefix<T>(xs: seq<T>, ys: seq<T>)
    ensures (xs + ys)[..|xs|] == xs
  {
  }

  /** Each planned node is, when its turn comes, one with the fewest of the fleet's replicas. */
  lemma PlannedHasFewest(n: nat, k: nat, cs: seq<Candidate>, pick: Selector, j: nat)
    requires PicksFewest(pick) && Decisive(pick) && DistinctNames(cs) && j < |cs| && k < n
    ensures |Plan(n, cs, pick)| == n
    ensures exists i :: 0 <= i < |cs| && cs[i].name == Plan(n, cs, pick)[k]
                     && LoadBefore(cs[i].ownReplicas, Plan(n, cs, pick), k, cs[i].name)
                     <= LoadBefore(cs[j].ownReplicas, Plan(n, cs, pick), k, cs[j].name)
  {
    PlanPrefix(n, k, cs, pick);
    PlanChoice(n, k, cs, pick);
    var i := Choice(Grown(k, cs, pick), pick).value;
    GrownByPlan(k, cs, pick, i);
    GrownByPlan(k, cs, pick, j);
    LoadBeforeIsCount(cs[i].ownReplicas, Plan(n, cs, pick), k, cs[i].name);
    LoadBeforeIsCount(cs[j].ownReplicas, Plan(n, cs, pick), k, cs[j].name);
    assert Grown(k, cs, pick)[i].ownReplicas <= Grown(k, cs, pick)[j].ownReplicas;
  }

  /** A fresh slot lands on a healthy candidate with the fewest of the fleet's
      replicas, those planned before it in the same reconcile included. */
  lemma FreshPinHasFewest(s: State, e: Env, i: nat, c: Candidate)
    requires i !in s.children && i in Step(s, e).children && DistinctNames(e.candidates)
    requires c in e.candidates && IsHealthy(c.name, e)
    ensures var planned := Decide(s, e).freshNodes;
            var k := Rank(Missing(s.children, Desired(e)), i);
            var node := Step(s, e).children[i];
            && IsHealthy(node, e) && IsCandidate(node, e)
            && k < |planned|
            && LoadBefore(OwnCount(s.children, node), planned, k, node)
               <= LoadBefore(OwnCount(s.children, c.name), planned, k, c.name)
  {
    var k := Rank(Missing(s.children, Desired(e)), i);
    DecisionIsSound(s, e);
    FreshPinAt(s, e, Decide(s, e), i);
    StrategyPicksFewest(e.strategy, e.horizon);
    FoldedIsDistinct(e.candidates, OwnCounts(s.children), e.derivedWarmth);
    HealthyIsDistinct(FoldAll(e.candidates, OwnCounts(s.children), e.derivedWarmth), e);
    var j := HealthyPosition(s.children, e, c);
    var a := PlannedPosition(s.children, e, |Missing(s.children, Desired(e))|, k, j);
    HealthyMember(s.children, e, a);
  }

  lemma PlannedPosition(children: map<nat, NodeName>, e: Env, n: nat, k: nat, j: nat) returns (a: nat)
    requires PicksFewest(Pick(e)) && Decisive(Pick(e)) && DistinctNames(Healthy(children, e))
    requires j < |Healthy(children, e)| && k < n
    ensures |Plan(n, Healthy(children, e), Pick(e))| == n
    ensures a < |Healthy(children, e)| && Healthy(children, e)[a].name == Plan(n, Healthy(children, e), Pick(e))[k]
    ensures var planned := Plan(n, Healthy(children, e), Pick(e));
            LoadBefore(Healthy(children, e)[a].ownReplicas, planned, k, Healthy(children, e)[a].name)
            <= LoadBefore(Healthy(children, e)[j].ownReplicas, planned, k, Healthy(children, e)[j].name)
  {
    var cs, pick := Healthy(children, e), Pick(e);
    PlannedHasFewest(n, k, cs, pick, j);
    a :| 0 <= a < |cs| && cs[a].name == Plan(n, cs, pick)[k]
      && LoadBefore(cs[a].ownReplicas, Plan(n, cs, pick), k, cs[a].name)
      <= LoadBefore(cs[j].ownReplicas, Plan(n, cs, pick), k, cs[j].name);
  }

  lemma FreshPinAt(s: State, e: Env, d: Decision, i: nat)
    requires i !in s.children && i in NewChildren(s, e, d)
    ensures Rank(Missing(s.children, Desired(e)), i) < |d.freshNodes|
    ensures NewChildren(s, e, d)[i] == d.freshNodes[Rank(Missing(s.children, Desired(e)), i)]
  {
  }
}
