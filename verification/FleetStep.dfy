/** One reconcile of the fleet as a pure step over its children and its last
    status: the decision taken from the candidates, and what enacting that
    decision does to every slot. */
module FleetStep {
  import opened Prelude
  import opened FleetTypes
  import opened Placement
  import opened Planning
  import opened Slots

  // ----- State

  /** What the status records of one placement. */
  datatype Entry = Entry(node: NodeName, phase: Phase, surplus: int)

  datatype Message = NoMessage | StrategyNotSupported | NoCandidate

  /** The fleet-level part of the status. `phase` is None until first written. */
  datatype Report = Report(phase: Option<FleetPhase>, ready: nat, desired: int, replicas: nat, warming: nat,
                           active: nat, message: Message)

  /** The owned children, slot to pinned node, and the last status written. */
  datatype State = State(children: map<nat, NodeName>, status: map<nat, Entry>, report: Report)

  const NO_REPORT := Report(None, 0, 0, 0, 0, 0, NoMessage)

  const EMPTY_FLEET := State(map[], map[], NO_REPORT)

  /** Everything a reconcile reads that the fleet controller does not write. */
  datatype Env = Env(
    replicas: i32,
    cap: i32,
    required: i32,
    displaced: set<NodeName>,
    candidates: seq<Candidate>,
    derivedWarmth: map<NodeName, Warmth>,
    gpus: i32,
    allocatable: map<NodeName, Option<int>>,
    strategy: Strategy,
    horizon: Option<int>,
    ready: set<nat>)

  function Desired(e: Env): nat {
    Max(e.replicas, 0)
  }

  /** Takes neither early return. */
  predicate IsFull(e: Env) {
    e.strategy != Unsupported && e.candidates != []
  }

  // ----- The candidates as the planner sees them

  function OwnSlots(children: map<nat, NodeName>, node: NodeName): set<nat> {
    set i | i in children && children[i] == node
  }

  function OwnCount(children: map<nat, NodeName>, node: NodeName): nat {
    |OwnSlots(children, node)|
  }

  lemma OneMoreOwn(children: map<nat, NodeName>, i: nat, node: NodeName, other: NodeName)
    requires i !in children
    ensures OwnCount(children[i := node], other) == OwnCount(children, other) + if other == node then 1 else 0
  {
    assert OwnSlots(children[i := node], other) == OwnSlots(children, other) + if other == node then {i} else {};
  }

  /** The candidate with this fleet's own pins and the derived warmth folded in. */
  function Fold(c: Candidate, own: nat, derived: map<NodeName, Warmth>): Candidate {
    c.(ownReplicas := own,
       activeServiceCount :=
         if own > 0 then Some(c.activeServiceCount.UnwrapOr(0) + own) else c.activeServiceCount,
       warmth := if c.name in derived then Warmer(c.warmth, derived[c.name]) else c.warmth)
  }

  function CountAt(counts: map<NodeName, nat>, n: NodeName): nat {
    if n in counts then counts[n] else 0
  }

  function FoldAll(cs: seq<Candidate>, own: map<NodeName, nat>, derived: map<NodeName, Warmth>): (r: seq<Candidate>)
    ensures |r| == |cs|
  {
    if cs == [] then []
    else [Fold(cs[0], CountAt(own, cs[0].name), derived)] + FoldAll(cs[1..], own, derived)
  }

  lemma {:induction false} FoldAllAt(cs: seq<Candidate>, own: map<NodeName, nat>, derived: map<NodeName, Warmth>,
                                     i: nat)
    requires i < |cs|
    ensures FoldAll(cs, own, derived)[i] == Fold(cs[i], CountAt(own, cs[i].name), derived)
  {
    if i > 0 {
      FoldAllAt(cs[1..], own, derived, i - 1);
    }
  }

  function OwnCounts(children: map<nat, NodeName>): map<NodeName, nat> {
    map n | n in children.Values :: OwnCount(children, n)
  }

  lemma OwnCountsAt(children: map<nat, NodeName>, n: NodeName)
    ensures CountAt(OwnCounts(children), n) == OwnCount(children, n)
  {
    if n !in children.Values {
      assert OwnSlots(children, n) == {};
    }
  }

  predicate IsHealthy(name: NodeName, e: Env) {
    && name !in e.displaced
    && HasCapacityFor(if name in e.allocatable then e.allocatable[name] else None, e.gpus)
  }

  function KeepHealthy(cs: seq<Candidate>, e: Env): seq<Candidate> {
    if cs == [] then []
    else (if IsHealthy(cs[0].name, e) then [cs[0]] else []) + KeepHealthy(cs[1..], e)
  }

  lemma {:induction false} KeptIsHealthy(cs: seq<Candidate>, e: Env, b: nat)
    requires b < |KeepHealthy(cs, e)|
    ensures KeepHealthy(cs, e)[b] in cs && IsHealthy(KeepHealthy(cs, e)[b].name, e)
  {
    if IsHealthy(cs[0].name, e) {
      if b > 0 {
        KeptIsHealthy(cs[1..], e, b - 1);
      }
    } else {
      KeptIsHealthy(cs[1..], e, b);
    }
  }

  function Healthy(children: map<nat, NodeName>, e: Env): seq<Candidate> {
    KeepHealthy(FoldAll(e.candidates, OwnCounts(children), e.derivedWarmth), e)
  }

  // ----- The decision

  function DisplacedSlots(children: map<nat, NodeName>, displaced: set<NodeName>): set<nat> {
    set i | i in children && children[i] in displaced
  }

  function Missing(children: map<nat, NodeName>, desired: nat): set<nat> {
    set i | i in Interval(0, desired) && i !in children
  }

  predicate Moving(x: Entry, displaced: set<NodeName>) {
    (x.phase == Phase.Draining || x.phase == Rescheduling) && x.node !in displaced
  }

  /** Placements that hold the reschedule cap: moving, and on a node not displaced. */
  function InFlight(status: map<nat, Entry>, displaced: set<NodeName>): set<nat> {
    set i | i in status && Moving(status[i], displaced)
  }

  /** The replacement node, the number of moves allowed, the nodes of the fresh slots. */
  datatype Decision = Decision(target: Option<NodeName>, budget: nat, freshNodes: seq<NodeName>)

  function Pick(e: Env): Selector {
    StrategySelector(e.strategy, e.horizon)
  }

  function ChosenName(cs: seq<Candidate>, pick: Selector): Option<NodeName> {
    match Choice(cs, pick)
    case Some(b) => Some(cs[b].name)
    case None => None
  }

  function Decide(s: State, e: Env): Decision {
    var healthy := Healthy(s.children, e);
    Decision(
      ChosenName(healthy, Pick(e)),
      Max(0, Max(0, e.cap) - |InFlight(s.status, e.displaced)|),
      Plan(|Missing(s.children, Desired(e))|, healthy, Pick(e)))
  }

  // ----- Enacting a decision

  function Moved(s: State, e: Env, d: Decision): set<nat> {
    if d.target.None? then {} else Lowest(DisplacedSlots(s.children, e.displaced), d.budget)
  }

  /** The node of an in-range slot, if it gets one. */
  function PinOf(s: State, e: Env, d: Decision, i: nat): Option<NodeName> {
    if i in Moved(s, e, d) then d.target
    else if i in s.children then Some(s.children[i])
    else
      var k := Rank(Missing(s.children, Desired(e)), i);
      if k < |d.freshNodes| then Some(d.freshNodes[k]) else None
  }

  function PrevPhase(s: State, i: nat): Phase {
    if i in s.status then s.status[i].phase else Pending
  }

  function PrevSurplus(s: State, i: nat): int {
    if i in s.status then s.status[i].surplus else 0
  }

  predicate NodeReady(s: State, e: Env, i: nat) {
    i in s.children && i in e.ready
  }

  /** A child beyond the desired count whose hysteresis lets it stay. */
  predicate IsHeld(s: State, e: Env, i: nat) {
    && i in s.children && i >= Desired(e)
    && !SurplusHysteresis(PrevSurplus(s, i), true, e.required).1
  }

  function NewPins(s: State, e: Env, d: Decision): map<nat, NodeName> {
    map i | i in Interval(0, Desired(e)) && PinOf(s, e, d, i).Some? :: PinOf(s, e, d, i).value
  }

  function HeldPins(s: State, e: Env): map<nat, NodeName> {
    map i | i in s.children && IsHeld(s, e, i) :: s.children[i]
  }

  function NewChildren(s: State, e: Env, d: Decision): map<nat, NodeName> {
    NewPins(s, e, d) + HeldPins(s, e)
  }

  function NewEntry(s: State, e: Env, node: NodeName, i: nat): Entry {
    if i < Desired(e) then
      Entry(node,
            PlacementPhaseFor(PrevPhase(s, i), NodeReady(s, e, i), i in DisplacedSlots(s.children, e.displaced)),
            0)
    else
      Entry(node,
            PlacementPhaseFor(PrevPhase(s, i), NodeReady(s, e, i), false),
            SurplusHysteresis(PrevSurplus(s, i), true, e.required).0)
  }

  function NewStatus(s: State, e: Env, children: map<nat, NodeName>): map<nat, Entry> {
    map i | i in children :: NewEntry(s, e, children[i], i)
  }

  function InPhase(status: map<nat, Entry>, p: Phase): set<nat> {
    set i | i in status && status[i].phase == p
  }

  predicate DrainAndHold(status: map<nat, Entry>, displaced: set<NodeName>) {
    exists i :: i in status && status[i].phase == Phase.Draining && status[i].node in displaced
  }

  function Summary(status: map<nat, Entry>, e: Env): Report {
    var ready := |InPhase(status, Phase.Ready)|;
    Report(Some(FleetPhaseFor(e.replicas, ready, DrainAndHold(status, e.displaced))),
           ready,
           e.replicas,
           |status|,
           |InPhase(status, Pending) + InPhase(status, Phase.Warming)|,
           |InFlight(status, e.displaced)|,
           NoMessage)
  }

  function Enact(s: State, e: Env, d: Decision): State {
    var children := NewChildren(s, e, d);
    var status := NewStatus(s, e, children);
    State(children, status, Summary(status, e))
  }

  // ----- The step

  /** The early returns patch the message, and the phase only when there is none yet. */
  function EarlyReport(r: Report, e: Env, message: Message): Report {
    if r.phase.None? then
      r.(phase := Some(FleetPhaseFor(e.replicas, 0, false)), desired := e.replicas, message := message)
    else r.(message := message)
  }

  function Step(s: State, e: Env): State {
    if e.strategy == Unsupported then s.(report := EarlyReport(s.report, e, StrategyNotSupported))
    else if e.candidates == [] then s.(report := EarlyReport(s.report, e, NoCandidate))
    else Enact(s, e, Decide(s, e))
  }

  /** The state after a run of reconciles. */
  function Run(s: State, es: seq<Env>): State {
    if es == [] then s else Step(Run(s, es[..|es| - 1]), es[|es| - 1])
  }

  // ----- What a decision always satisfies

  /** A decision of a reconcile: targets and fresh nodes are healthy, there is
      a target as soon as there is a healthy candidate, and then every missing
      slot gets a node. */
  ghost predicate Sound(s: State, e: Env, d: Decision) {
    && (d.target.Some? ==> IsHealthy(d.target.value, e))
    && (forall k :: 0 <= k < |d.freshNodes| ==> IsHealthy(d.freshNodes[k], e))
    && (d.target.Some? <==> Healthy(s.children, e) != [])
    && |d.freshNodes| == (if d.target.Some? then |Missing(s.children, Desired(e))| else 0)
    && d.budget == Max(0, Max(0, e.cap) - |InFlight(s.status, e.displaced)|)
  }

  lemma DecisionIsSound(s: State, e: Env)
    requires IsFull(e)
    ensures Sound(s, e, Decide(s, e))
  {
    var healthy, pick := Healthy(s.children, e), Pick(e);
    StrategyPicksFewest(e.strategy, e.horizon);
    PlanIsComplete(|Missing(s.children, Desired(e))|, healthy, pick);
    if Choice(healthy, pick).Some? {
      HealthyAt(s.children, e, Choice(healthy, pick).value);
    }
    forall k | 0 <= k < |Decide(s, e).freshNodes|
      ensures IsHealthy(Decide(s, e).freshNodes[k], e)
    {
      PlanChoice(|Missing(s.children, Desired(e))|, k, healthy, pick);
      HealthyAt(s.children, e, Choice(Grown(k, healthy, pick), pick).value);
    }
  }

  lemma HealthyAt(children: map<nat, NodeName>, e: Env, b: nat)
    requires b < |Healthy(children, e)|
    ensures IsHealthy(Healthy(children, e)[b].name, e)
  {
    KeptIsHealthy(FoldAll(e.candidates, OwnCounts(children), e.derivedWarmth), e, b);
  }

  /** The replacement chosen for a displaced slot is the first node the planner
      would give to a fresh slot: every displaced node is already filtered out. */
  lemma ReplacementIsFirstPlanned(s: State, e: Env, node: NodeName)
    requires IsFull(e) && node in e.displaced
    ensures SelectReplacement(Healthy(s.children, e), node, Pick(e)) == Decide(s, e).target
    ensures Decide(s, e).target.Some? ==> Plan(1, Healthy(s.children, e), Pick(e)) == [Decide(s, e).target.value]
    ensures Decide(s, e).target.None? ==> Plan(1, Healthy(s.children, e), Pick(e)) == []
  {
    forall b | 0 <= b < |Healthy(s.children, e)|
      ensures Healthy(s.children, e)[b].name != node
    {
      HealthyAt(s.children, e, b);
    }
    WithoutAbsent(Healthy(s.children, e), node);
    assert Plan(0, LoadFirst(Healthy(s.children, e), ""), Pick(e)) == [];
  }
}
