/** The pure transition functions of the fleet resource: scale-down
    hysteresis, placement phase, fleet phase. */
module FleetTypes {
  import opened Prelude

  type NodeName = string

  datatype Warmth = Warm | Warming | Cold

  datatype Strategy = WarmthFirst | EfficiencyAware | Unsupported

  /** Lifecycle phase of one placement. `Preempted` is read but never written. */
  datatype Phase = Pending | Warming | Ready | Draining | Preempted | Rescheduling

  datatype FleetPhase = Placing | Ready | Degraded

  /** The counter to persist for a slot and whether the slot may go now. */
  function SurplusHysteresis(prev: int, inSurplus: bool, required: i32): (r: (int, bool))
    ensures r.1 ==> inSurplus
    ensures r.0 > 0 ==> inSurplus && required > 0
    ensures 0 <= r.0 <= I32_MAX
  {
    if !inSurplus then (0, false)
    else if required <= 0 then (0, true)
    else
      var next := Min(Max(prev, 0) + 1, I32_MAX);
      (next, next >= required)
  }

  function PlacementPhaseFor(current: Phase, nodeReady: bool, preemption: bool): (p: Phase)
    ensures p == Phase.Draining <==> preemption
    ensures p != Preempted
  {
    if preemption then Phase.Draining
    else match current
      case Draining => Rescheduling
      case Preempted => Rescheduling
      case _ =>
        if nodeReady then Phase.Ready
        else if current == Phase.Ready then Phase.Warming
        else Pending
  }

  /** When each phase is entered. A slot leaves Draining through one Rescheduling,
      and loses Ready through one Warming. */
  lemma PhaseIff(current: Phase, nodeReady: bool)
    ensures var p := PlacementPhaseFor(current, nodeReady, false);
            && (p == Rescheduling <==> current in {Phase.Draining, Preempted})
            && (p == Phase.Ready <==> nodeReady && p != Rescheduling)
            && (p == Phase.Warming <==> current == Phase.Ready && !nodeReady)
    ensures PlacementPhaseFor(PlacementPhaseFor(Phase.Draining, false, false), nodeReady, false)
         == if nodeReady then Phase.Ready else Pending
  {
  }

  function FleetPhaseFor(desired: int, ready: int, drainAndHold: bool): FleetPhase {
    if drainAndHold then Degraded
    else if ready >= desired then FleetPhase.Ready
    else Placing
  }
}
