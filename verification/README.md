# Verified model of the inference fleet operator

A model in Dafny of the part of the operator that keeps state over time, with
proofs of what its runs guarantee. `dafny verify dfyconfig.toml` checks all of it.

The centre is the reconcile of a `FleetService`. `FleetStep.Step` is one
reconcile as a pure step over the owned children (slot to pinned node) and the
last status (phase and surplus counter per slot, published counts).
`FleetController.Fleet` is the same reconcile with the source's passes and
loops over fields updated in place; its `Reconcile` is proved to be exactly one
`Step`, so everything proved about steps and runs holds of it.

| file | what it models |
|---|---|
| `Prelude`, `Sorting`, `Slots` | orderings, 32-bit bounds, a stable sort, finite sets of slots |
| `FleetTypes`, `Placement`, `Planning` | phase and hysteresis transitions, the two comparators, selection, the greedy planner |
| `FleetStep`, `FleetController` | the reconcile as a step, and as the imperative code that refines it |
| `FleetPreference` | which node a reconcile chooses, read off what is listed, derived and pinned |
| `FleetRuns`, `FleetStatus`, `SurplusReadiness` | what every run keeps: slots, counters, deletion; what the status says; where pins go |
| `RescheduleCap`, `CapExceeded`, `Recovery` | the cap on moves and how a run gets above it, the time to recover, the state recovery ends in |
| `FleetSpread`, `FleetScaleUp` | spread over nodes in every run; scale-up in one reconcile or several |
| `Autoscaler` | the autoscaling consumer, and the loop it closes with the fleet |
| `Reporter`, `TrueCounters`, `HitRates` | the node reporter's counter deltas, against what its targets truly counted; the hit rate it publishes |
| `LoadProfile`, `Occupancy` | busiest window of a trace; busy time, idle time and concurrency of a run |
| `CandidateAssembly`, `SlotNames` | candidates from listed objects; slot indices in child names |

## Reading the statements

A *full* reconcile (`IsFull`) takes neither of the two early returns. Those
write only the message (and a first phase) by JSON merge patch, section 2 of
RFC 7386, so they are steps that change neither children nor placements. An
*able* reconcile (`Able`) is full and finds a healthy candidate: listed, not
displaced, with enough GPUs. A node is *displaced* if it is preempted or cordoned.

What a reconcile reads and the fleet controller does not write is `Env`: desired
count, cap, hysteresis length, displaced nodes, candidates, derived warmth, GPU
capacity, strategy, horizon, readiness. Run theorems hold for every sequence of
`Env` unless they say what stays fixed.

Assumed: only the controller writes children and placements, the status it reads
is the one it wrote last, and a reconcile completes or does nothing. Candidate
names are distinct where a lemma says `DistinctNames`;
`CandidateAssembly.CandidatesAreDistinct` shows it of every list of candidates,
with a selector and without.

## Where the code and its documentation differ

- The comment on the efficiency-aware order (`src/fleet_placement.rs:273-278`)
  says "cache before energy" beside an order that puts tokens per joule before
  the hit rate. The code compares tokens per joule first, and so does the model.
- The consumer's documentation says its rule never scales down
  (`hack/adr0009-d5-experiment/consumer.py:40`). The fuse is a minimum, so the
  rule does lower a count, exactly when it starts above 40
  (`Autoscaler.LowersIffAboveFuse`; from 41 to 40 in `Autoscaler.RuleScalesDown`).
- The comment on the fleet phase (`src/fleet_types.rs:392`) says Ready requires
  every desired replica to report Ready. The count it compares includes surplus
  slots still held, so a fleet can read Ready while a desired slot is not, exactly
  when `SurplusReadiness.ReadyButNotAllIff` says; a run that does is in
  `SurplusReadiness.ReadyThroughSurplus`.
- A restart inside a scrape interval that the counters overtake is not noticed,
  and the round can publish a hit rate above one: three, in
  `HitRates.RestartCanExceedOne`. A published rate is within one if and only if
  the misses counters of the targets that emit did not, together, go backwards
  (`HitRates.PublishedWithinOneIff`). When no growth counts more hits than
  queries, one target goes above one exactly if it has restarted since its last
  scrape and its counters have overtaken the baseline with fewer misses
  (`HitRates.ExcessIff`), and the rate is within one when no target has restarted
  since its last scrape (`HitRates.PublishedRateIsARate`). Ranking drops a rate
  above one.
- The kept window of a load profile, when moved back to the end of the trace,
  ends just before the last arrival. The peak is kept whole if and only if none
  of its arrivals is at the last tick of the trace (`LoadProfile.PeakKeptIff`); a
  trace that loses part of it is in `LoadProfile.PeakCanBeCut`.
- Active reschedules can exceed the cap, in two ways: the cap is lowered while
  moves are in flight (`CapExceeded.LoweredCapIsExceeded`), or a node with held
  slots is displaced no longer (`CapExceeded.UndisplacedNodeExceedsCap`). There is
  no other: with a cap never lowered and a displaced set that only grows, no run
  exceeds it (`RescheduleCap.CapHoldsAlongRuns`). For one reconcile the exact
  condition is `RescheduleCap.CapHoldsIff`.

## Model

| member | source | states |
|---|---|---|
| `FleetTypes.SurplusHysteresis` | src/fleet_types.rs:358-367 | a slot may go only when in surplus; the counter stays within 0 and the 32-bit maximum, and is 0 without surplus or without hysteresis |
| `FleetTypes.PlacementPhaseFor` | src/fleet_types.rs:373-387 | Draining exactly on a preemption notice; Preempted is never written |
| `FleetTypes.PhaseIff` | src/fleet_types.rs:378-387 | when each phase is entered without a notice; Draining is left through one Rescheduling, then Ready or Pending by readiness |
| `Placement.HitRateCountsIff` | src/fleet_placement.rs:105-130 | a hit rate is ranked on exactly when it is a number from 0 to 1 and its age is known, not negative and within the horizon, if there is one |
| `Placement.TokensPerJouleCountIff` | src/fleet_placement.rs:105-130 | tokens per joule are ranked on exactly when not negative and fresh in the same sense, with no upper bound |
| `Placement.UtilizationCountsIff` | src/fleet_placement.rs:223-228 | a utilization is ranked on exactly when it is a number not below 0, fraction or percentage |
| `Placement.EveryTierLaws` | src/fleet_placement.rs:214-249 | each tier of either comparator is a total preorder whose ties are equality of the sanitised component it reads, for NaN, infinities, signed zero and absence alike |
| `Placement.EqualIffSameKey` | src/fleet_placement.rs:251-271 | two candidates are indifferent if and only if their full sanitised keys, own replicas and horizon included, are equal |
| `Placement.RankingIsTotalPreorder` | src/fleet_placement.rs:184-197 | either strategy ranks all candidates by one total preorder |
| `Placement.OwnThenWarmth` | src/fleet_placement.rs:284-319 | being ranked no lower means no more own replicas, and at equal own replicas no less warmth |
| `Placement.CompareIsLexicographic` | src/fleet_placement.rs:184-319 | one candidate is preferred exactly when the other's key is below it: fewer own replicas, then warmth, then the strategy's signals in their order and direction, absent below any value |
| `Placement.SelectNode` | src/fleet_placement.rs:324-341 | nothing is selected exactly for an empty list or an unsupported strategy |
| `Placement.SelectsIffPreferred` | src/fleet_placement.rs:324-341 | a position is selected if and only if the strategy is supported, no candidate is ranked above the one there by the order of that strategy, and every later one is ranked below it |
| `Placement.SelectedHasFewestThenWarmest` | src/fleet_placement.rs:324-341 | the winner has the fewest own replicas, and the most warmth among those |
| `Prelude.MaxByIsLastMaximal` | src/fleet_placement.rs:280-283 | under any total preorder the left-to-right maximum is the last of the maximal elements |
| `Placement.SelectionIgnoresOrder` | src/fleet_placement.rs:257-271 | with pairwise distinct keys every permutation of the list selects the same candidate |
| `Placement.StaleSignalsDoNotCount` | src/fleet_placement.rs:105-130 | stripping every signal past the horizon changes no selection |
| `Placement.ReplacementIsPreferred` | src/fleet_placement.rs:356-368 | a replacement is never on the displaced node, no other candidate is ranked above it, and there is none only without another candidate or for an unsupported strategy |
| `Planning.PlanInitialPlacements` | src/fleet_planning.rs:17-47 | the loop computes the plan specified by `Plan`, for any slot count, negative included |
| `Planning.StrategyPicksFewest` | src/fleet_planning.rs:27-31 | both strategies pick a node with the fewest own replicas and never refuse a non-empty list |
| `Planning.PlanIsComplete` | src/fleet_planning.rs:17-47 | with candidates and a supported strategy a plan has exactly max(0, slots) entries |
| `Planning.GrownByPlan` | src/fleet_planning.rs:33-43 | after a plan each candidate differs from before by exactly the slots the plan gives its node, unmeasured service counts becoming that number |
| `Planning.PlanChoice` | src/fleet_planning.rs:26-31 | the k-th node is the selection once the first k are counted |
| `Planning.ReceiverAtMostOneAbove` | src/fleet_planning.rs:26-44 | a node that receives a slot ends at most one replica above every other node |
| `Planning.GreedyIsMinMaxOptimal` | src/fleet_planning.rs:17-47 | no other assignment of as many slots has a smaller largest own replica count |
| `Planning.PlanSplits` | src/fleet_planning.rs:26-44 | planning a + b is planning a and then b on the simulated load |
| `FleetStep.KeptIsHealthy` | src/fleet_controller.rs:667-672 | only candidates neither displaced nor short of GPUs are offered |
| `FleetStep.DecisionIsSound` | src/fleet_controller.rs:639-719 | targets and fresh nodes are healthy; there is a target exactly when some candidate is healthy, and then every missing slot gets a node |
| `FleetStep.ReplacementIsFirstPlanned` | src/fleet_placement.rs:356-368 | the replacement for a displaced slot is the first node the planner would give on the same candidates |
| `FleetPreference.HealthyAre` | src/fleet_controller.rs:606-672 | the candidates offered are exactly the listed ones that are healthy, each with its reported signals and ages, the warmer of reported and derived warmth, and a service count that is reported plus own and absent only when neither is known |
| `FleetPreference.TargetIsPreferred` | src/fleet_controller.rs:674-708 | a replacement is the node of the one healthy listed candidate preferred by the strategy of the fleet, among equals the last listed |
| `FleetPreference.PlannedIsPreferred` | src/fleet_controller.rs:710-719 | each fresh slot goes to the candidate so preferred once the slots planned before it are counted, as own replicas and as services |
| `FleetPreference.PreferredIsOne` | src/fleet_placement.rs:324-341 | at most one listed candidate is preferred, so the choice is determined |
| `FleetPreference.ChosenHasRoom` | src/fleet_placement.rs:70-78 | no chosen node is displaced or known to have fewer allocatable GPUs than the fleet asks for |
| `FleetPreference.NoTargetIff` | src/fleet_controller.rs:667-672 | no node is chosen if and only if every candidate is displaced or known to have too few GPUs |
| `FleetController.OwnPlacementsPerNode` | src/fleet_controller.rs:219-225 | the loop counts, for every node, the slots pinned to it |
| `FleetController.PreemptionPass` | src/fleet_controller.rs:674-708 | the pass flags every slot on a displaced node and moves the lowest of them the budget allows, all to the replacement, none without one |
| `FleetController.AssignSlots` | src/fleet_controller.rs:720-735 | the loop gives in-range slots, ascending, their replacement, their pin or the next planned node in order of slot |
| `FleetController.AssignPins` | src/fleet_controller.rs:720-735 | those assignments are exactly the pins of the decision |
| `FleetController.PlanReconcile` | src/fleet_controller.rs:606-719 | the read-only passes compute the decision of the step |
| `FleetController.Fleet.ApplyPass` | src/fleet_controller.rs:741-779 | every assigned child is written and its placement recorded with phase advanced and counter reset |
| `FleetController.Fleet.ScaleDownPass` | src/fleet_controller.rs:790-841 | exactly the due children are deleted and exactly the held ones recorded |
| `FleetController.Fleet.EnactPlan` | src/fleet_controller.rs:741-905 | children, placements and counts become those of the enacted decision |
| `FleetController.Fleet.Reconcile` | src/fleet_controller.rs:308-905 | the reconcile is exactly one step, on the early returns too, and leaves placements strictly ascending by slot |
| `FleetController.ChildrenPartition` | src/fleet_controller.rs:735-841 | what is patched, kept and deleted adds up to the children of the step |
| `FleetController.CountIsSize` | src/fleet_controller.rs:863-885 | counts over the placement list are numbers of slots |
| `FleetRuns.RunKeepsOrder` | src/fleet_controller.rs:710-841 | in every run from an empty fleet live slots are 0 to m-1, the status records exactly them, and surplus counters do not decrease with the slot |
| `FleetRuns.NeverCreatesBesideSurplus` | src/fleet_controller.rs:710-841 | no reconcile of a run both creates a slot and holds or deletes a surplus one |
| `FleetRuns.EarlyReturnStutters` | src/fleet_controller.rs:324-348 | the early returns change neither children nor placements nor counts, and the phase only when there was none |
| `FleetStatus.EarlyReturnSays` | src/fleet_controller.rs:320-348 | an early return writes its own message, the phase and desired count of a fleet that has none yet, and nothing else |
| `FleetRuns.CounterIsStreak` | src/fleet_types.rs:340-367 | a live slot's counter is the length of its unbroken surplus streak of full reconciles, saturating at the 32-bit maximum |
| `FleetRuns.DeletedExactlyWhenDue` | src/fleet_controller.rs:790-841 | a child is deleted if and only if it is surplus and its streak has reached the required length, at once when that is not positive |
| `FleetStatus.CountsAddUp` | src/fleet_controller.rs:863-885 | after a full reconcile placements are exactly the live children and replicas = ready + warming + draining + rescheduling |
| `FleetStatus.DegradedIffStillDisplaced` | src/fleet_controller.rs:886-889 | the fleet is Degraded if and only if a slot below desired is still pinned to a displaced node |
| `FleetStatus.FullReportSays` | src/fleet_controller.rs:870-902 | a full reconcile reports the desired count it read, no message, the slots by phase, and the fleet phase: Degraded for an in-range slot left on a displaced node, or else Ready exactly for as many Ready slots as desired |
| `FleetStatus.SlotPhaseFollows` | src/fleet_controller.rs:741-841 | the phase a full reconcile writes for each live slot, from the phase it had, its node and its child's readiness |
| `FleetStatus.ReadyIffAllReady` | src/fleet_types.rs:389-403 | with no surplus slot the fleet is Ready if and only if every slot below desired is |
| `FleetStatus.ReadyBesideHeld` | src/fleet_types.rs:389-403 | once every desired slot is Ready the fleet is, whatever surplus slots are held |
| `SurplusReadiness.ReadyButNotAllIff` | src/fleet_types.rs:389-403 | the fleet reads Ready without every desired slot being so if and only if it is not Degraded and Ready surplus slots make up the number |
| `SurplusReadiness.ReadyThroughSurplus` | src/fleet_types.rs:389-403 | a run from an empty fleet after which the fleet reads Ready while its only desired slot is Pending |
| `FleetStatus.PinChangesOnlyWhenDisplaced` | src/fleet_controller.rs:722-735 | a live slot's pin changes only in a full reconcile where it is in range and its node displaced, and then to the replacement |
| `FleetStatus.ReplacementHasFewest` | src/fleet_controller.rs:686-698 | a replacement is a healthy candidate with the fewest of the fleet's replicas |
| `FleetStatus.FreshPinHasFewest` | src/fleet_controller.rs:710-735 | a fresh slot goes to a healthy candidate with the fewest of the fleet's replicas, slots planned before it in the same reconcile included |
| `RescheduleCap.ActiveAfter` | src/fleet_controller.rs:857-869 | active reschedules are exactly the slots just moved and the live ones that were draining off displaced nodes |
| `RescheduleCap.CapOneStep` | src/fleet_controller.rs:639-708 | for any displaced set a full reconcile re-pins at most max(0, cap - in flight) slots and leaves at most max(cap, in flight) active |
| `RescheduleCap.CapHoldsIff` | src/fleet_controller.rs:639-653 | active is within the cap after a full reconcile if and only if no more slots than the cap were draining on nodes not displaced now, moved by the last reconcile or held on a node since returned |
| `RescheduleCap.CapHoldsAlongRuns` | src/fleet_controller.rs:639-708 | with a cap never lowered and a displaced set that only grows, active never exceeds the cap in any run, held slots being forced to Draining notwithstanding |
| `CapExceeded.MovesStayActive` | src/fleet_types.rs:378-387 | what a reconcile moved is still active after the next, whatever the cap has become |
| `CapExceeded.HeldBecomeActive` | src/fleet_controller.rs:857-869 | once no node is displaced, every slot that was on a displaced node is active, moved or held |
| `CapExceeded.LoweredCapIsExceeded` | src/fleet_controller.rs:639-653 | a run from an empty fleet above its cap after the cap alone is lowered |
| `CapExceeded.UndisplacedNodeExceedsCap` | src/fleet_controller.rs:639-653 | a run from an empty fleet, under one cap throughout, above it after a node is displaced no longer |
| `FleetSpread.LevelledIsSpread` | src/fleet_controller.rs:720-735 | when every pin was on a least-loaded node among the slots before it, every prefix of the slots is spread within one |
| `FleetSpread.StepKeepsLevel` | src/fleet_controller.rs:710-841 | a reconcile keeps that, growing or shrinking |
| `FleetSpread.SpreadSurvivesScaling` | src/fleet_planning.rs:26-44 | from an empty fleet with a fixed set of healthy nodes, every reachable fleet, and every prefix of its slots, has per-node counts within one of each other |
| `FleetScaleUp.HealthyAfterPlan` | src/fleet_controller.rs:606-626 | once a plan is pinned, the folded candidates are exactly the planner's simulated ones |
| `FleetScaleUp.ScaleUpIsPathIndependent` | src/fleet_planning.rs:35-43 | a scale-up cut into any number of reconciles gives the pins of one reconcile straight to the last size |
| `Recovery.StrandedAfter` | src/fleet_controller.rs:674-735 | a full reconcile moves exactly as many stranded slots as its budget allows, lower slots before surplus ones, none if no candidate is healthy, and strands no other |
| `Recovery.InFlightIsLastTwoMoves` | src/fleet_types.rs:378-387 | a move holds the cap for exactly two later reconciles, whatever the state before |
| `Recovery.CourseRecovers` | src/fleet_controller.rs:639-708 | along every run of recovery each able reconcile moves min(stranded, cap less the moves of the last two), and any other full one nothing |
| `Recovery.RecoversInTime` | src/fleet_controller.rs:639-708 | with displaced nodes, desired and cap at least 1 fixed, k stranded slots are moved once 3 * ceil(k / cap) reconciles were able, from any state, however many found no healthy candidate in between |
| `Recovery.EarlyReturnsDoNotMatter` | src/fleet_controller.rs:324-348 | a run leaves the children and placements it would leave without its early returns |
| `Recovery.RecoversThroughEarlyReturns` | src/fleet_controller.rs:453-489 | the recovery bound counts able reconciles only, whatever early returns and reconciles without a healthy candidate come between them |
| `Recovery.SettledIsFixed` | src/fleet_controller.rs:741-905 | a settled state is a fixed point of the step: children, phases, counters and counts |
| `Recovery.RunSettles` | src/fleet_controller.rs:639-905 | with readiness and hysteresis length fixed as well, every run long enough, counting able reconciles for recovery and full ones for the rest, reaches a settled state that no such full reconcile changes, able or not |
| `Recovery.SettlesInTime` | src/fleet_controller.rs:639-905 | when all are able, max(3 * ceil(k / cap) + 2, hysteresis length) reconciles settle a fleet with k stranded slots |
| `Recovery.SettlesThroughEarlyReturns` | src/fleet_controller.rs:324-348 | settling counts full reconciles only, and from then on neither they nor early returns change children or placements |
| `Autoscaler.DemandIsTrailingRate` | hack/adr0009-d5-experiment/consumer.py:98-105 | demand times 5 seconds up to time 5, times the time up to 10, and times 10 from then on, is the arrivals in (now - 10, now] |
| `Autoscaler.CutIsCount` | hack/adr0009-d5-experiment/consumer.py:101 | on a sorted list the right bisection point at x is the number of values at most x |
| `Autoscaler.NeededIsLeast` | hack/adr0009-d5-experiment/consumer.py:127 | needed is the least replica count whose two requests per second each cover the demand |
| `Autoscaler.LowersIffAboveFuse` | hack/adr0009-d5-experiment/consumer.py:129 | the rule lowers the count if and only if it is above 40, and raises it if and only if it is below 40 and capacity falls short |
| `Autoscaler.RuleScalesDown` | hack/adr0009-d5-experiment/consumer.py:129 | from 41 replicas with nothing needed the consumer writes 40 |
| `Autoscaler.Spec.Sample` | hack/adr0009-d5-experiment/consumer.py:108-156 | an observation writes the rule's count, and nothing when the status is unwritten, not acting, refused or unchanged |
| `Autoscaler.PublishedCounts` | src/fleet_controller.rs:876-885 | after a full reconcile with a healthy candidate ready + warming + the slots draining or rescheduling is every live slot and at least the desired count |
| `Autoscaler.OneTurn` | hack/adr0009-d5-experiment/consumer.py:126-151 | counting warming, a tick moves the count to exactly min(40, max(count, needed plus slots moving less held surplus)), whatever the reconciles before the last full one found |
| `Autoscaler.OvershootsByMovesAtMost` | hack/adr0009-d5-experiment/consumer.py:93-129 | with at most m slots moving at each tick, the ready + warming consumer never drives the count above the larger of its start and the peak need plus m |
| `Autoscaler.NeverOvershoots` | hack/adr0009-d5-experiment/consumer.py:93-129 | with no slot draining or rescheduling at the ticks, and the last full reconcile before each following the count, the ready + warming consumer never drives it above the larger of its start and the peak need |
| `Autoscaler.UndisturbedNeverOvershoots` | hack/adr0009-d5-experiment/consumer.py:93-129 | so it is when the fleet starts with no slot draining or rescheduling, no full reconcile finds a slot on a displaced node, and the last before each tick follows the count |
| `Autoscaler.ReadyCount` | src/fleet_controller.rs:870-876 | when no slot moves and none is on a displaced node, the published ready count is the number of slots, surplus ones included, that were live, stay live and report ready |
| `Autoscaler.RunsAway` | hack/adr0009-d5-experiment/consumer.py:22-26 | with a published ready count of r at each tick and n > r needed, the ready-only consumer reaches exactly min(40, start + w * (n - r)) after w ticks |
| `Autoscaler.RunsAwayFromReadySlots` | hack/adr0009-d5-experiment/consumer.py:22-26 | the same when any r slots that stay live report ready at each tick of a calm fleet |
| `Reporter.VllmScrape.Step` | src/bin/reporter.rs:303-328 | a step emits the deltas specified by `DeltaFrom` and realigns the baseline of this target only |
| `Reporter.VllmScrape.Sample` | src/bin/reporter.rs:330-392 | the loop publishes the sums and the rate of the round, a silent target keeps its baseline, and waiting, running and tokens are each the sum over the pages that show them, absent exactly when none does |
| `Reporter.PublishedIsRoundOf` | src/bin/reporter.rs:330-392 | over the pages: queued and running requests and token gains are summed where shown, and the targets that respond are the pages with the cache series |
| `Reporter.RatePublished` | src/bin/reporter.rs:381-386 | a rate is published if and only if the targets gained a query, and is the hits they gained over the queries they gained since their baselines |
| `TrueCounters.RoundIsScrapes` | src/bin/reporter.rs:330-380 | over true counters that go on between the targets, a round is one scrape per answering target after another: its baselines are theirs and its sums what they emit |
| `TrueCounters.NeverOverReports` | src/bin/reporter.rs:303-328 | with arbitrary restarts and missed scrapes, of any target, the deltas emitted for a target sum to at most its true increase |
| `TrueCounters.AllNeverOverReport` | src/bin/reporter.rs:330-380 | nor do the deltas of all targets together exceed the true increase |
| `TrueCounters.EmitsLastLessFirst` | src/bin/reporter.rs:303-328 | without restarts of a target its hits and queries telescope to last scrape less first, whatever other targets do and whether or not it shows tokens; its tokens do if every scrape shows them |
| `HitRates.RateIsBetween` | src/bin/reporter.rs:381-386 | with hits among queries per target, the aggregated rate is in [0, 1] and between the smallest and largest rates of targets with queries |
| `HitRates.PublishedWithinOneIff` | src/bin/reporter.rs:330-392 | a published rate is within one if and only if the misses counters of the emitting targets did not together go backwards |
| `HitRates.NoRestartNoExcess` | src/bin/reporter.rs:313-318 | scraping a target that has not restarted since its last scrape never emits more hits than queries |
| `HitRates.ExcessIff` | src/bin/reporter.rs:312-318 | over a true history a scrape emits more hits than queries if and only if the target has restarted since its last scrape and its counters are again at or above the baseline with fewer misses |
| `HitRates.UnbrokenKeepsMisses` | src/bin/reporter.rs:312-318 | in a true history with no restart since the last scrape the misses counter has not fallen below the baseline |
| `HitRates.PublishedRateIsARate` | src/bin/reporter.rs:330-392 | over true counters, when no growth counts more hits than queries and no answering target has restarted since its last scrape, a published rate is in [0, 1] and between the rates of the targets with queries |
| `HitRates.RestartCanExceedOne` | src/bin/reporter.rs:317-318 | a true history with a restart after which a one-target round publishes a rate of three |
| `HitRates.ExcessiveRateIsDropped` | src/fleet_placement.rs:199-204 | ranking drops a published rate if and only if it exceeds one |
| `LoadProfile.Search` | hack/loadgen/build_profile.py:61-67 | the two-pointer loop finds the largest trailing count and the first index that reaches it |
| `LoadProfile.ArrivalsAre` | hack/loadgen/build_profile.py:61-67 | a window holds the arrivals of 60 seconds of 100 ns ticks, its end excluded |
| `LoadProfile.NoneHoldsMore` | hack/loadgen/build_profile.py:61-67 | no half-open window of PEAK, placed anywhere, holds more arrivals |
| `LoadProfile.FoundHoldsBest` | hack/loadgen/build_profile.py:61-67 | the window at the arrival found holds exactly that many, as consecutive rows from it on |
| `LoadProfile.FoundIsFirst` | hack/loadgen/build_profile.py:61 | no earlier arrival starts a window that holds as many |
| `LoadProfile.KeptIff` | hack/loadgen/build_profile.py:68-69 | kept are the rows from 120 s before the peak to 180 s after its start, or the first 300 s of the trace, or the last 300 s without the last tick, and when each |
| `LoadProfile.KeptContainsPeak` | hack/loadgen/build_profile.py:68-69 | unless the end clamp binds, the kept window contains the whole peak window |
| `LoadProfile.PeakKeptIff` | hack/loadgen/build_profile.py:68-69 | all arrivals of the peak are kept if and only if none is at the last tick of the trace |
| `LoadProfile.PeakCanBeCut` | hack/loadgen/build_profile.py:68-69 | a three-arrival trace whose peak of two keeps one and loses the other |
| `LoadProfile.Build` | hack/loadgen/build_profile.py:58-77 | an unsorted trace is refused; nothing is kept if and only if the last tick's window is the fullest and no other arrival is in the kept length before it; otherwise the profile is the peak and exactly the rows of the kept window, ascending |
| `Occupancy.BusySeconds` | hack/loadgen/cost.py:21-28 | for spans in any order the sweep returns the size of their union |
| `Occupancy.IdleSeconds` | hack/loadgen/cost.py:47-48 | idle is the window from the run's start to the last end, less the size of the union |
| `Occupancy.IdleIs` | hack/loadgen/cost.py:47-48 | idle time is the window's ticks with no request in flight, less busy time before the window |
| `Occupancy.IdleIsNotNegative` | hack/loadgen/cost.py:47-48 | when the run starts no later than its first request, idle time is exactly the ticks with no request in flight |
| `Occupancy.MaxInFlight` | hack/loadgen/slo_check.py:102-106 | the event sweep returns the maximum over all times of the number of spans with s <= t < e, and it is reached |
| `Occupancy.WorkWithinTopTimesBusy` | hack/loadgen/slo_check.py:102-106 | on the same spans total length is at most that maximum times the busy time |
| `CandidateAssembly.WarmerIsJoin` | src/fleet_placement.rs:140-149 | the warmer of two is the join of a semilattice: idempotent, commutative, associative, the least upper bound |
| `CandidateAssembly.DeriveWarmth` | src/fleet_placement.rs:160-177 | the loop gives each node the warmest of the instances there that are not the fleet's own, and no other node an entry |
| `CandidateAssembly.WarmestIs` | src/fleet_placement.rs:160-177 | a node reads Warm if a service of another owner is Ready there, Warming if none is but one is Warming, Cold if there are only others, and has no entry without any |
| `CandidateAssembly.WarmthIgnoresOrder` | src/fleet_placement.rs:160-177 | the derived warmth is the same for every permutation of the instances |
| `CandidateAssembly.TextIsLexicographic` | src/fleet_controller.rs:159 | names compare by their first differing character, a proper prefix first |
| `CandidateAssembly.CandidatesByNode` | src/fleet_controller.rs:157-167 | one candidate per name that has a status, from its lexicographically first namespace with one |
| `CandidateAssembly.LendsFromFirst` | src/fleet_controller.rs:157-167 | the state a node takes its signals from is one with a status that no other of its name with a status precedes by namespace |
| `CandidateAssembly.CandidatesIgnoreOrder` | src/fleet_controller.rs:150-167 | the candidates are the same for every permutation of the node states |
| `CandidateAssembly.SelectedAreExactly` | src/fleet_controller.rs:191-212 | the selector's candidates are exactly those of the admitted schedulable nodes: the node state's candidate, or one with no signal, Cold and no replicas |
| `CandidateAssembly.SelectedInOrder` | src/fleet_controller.rs:191-212 | they are listed in the order of the nodes |
| `CandidateAssembly.SelectedAreDistinct` | src/fleet_controller.rs:191-212 | the selector's candidates have distinct names and none is cordoned |
| `CandidateAssembly.StatusCandidatesAre` | src/fleet_controller.rs:424-430 | without a selector the candidates are exactly those of the nodes with a status that are not cordoned, in ascending order of name |
| `CandidateAssembly.FleetCandidatesAre` | src/fleet_controller.rs:424-433 | which candidates a fleet has, with a selector and without |
| `CandidateAssembly.CandidatesAreDistinct` | src/fleet_controller.rs:424-433 | with or without a selector the candidates have distinct names and none is cordoned |
| `SlotNames.SlotRoundTrip` | src/fleet_controller.rs:516-519 | the slot of a child is read back from its name, for every fleet name, up to 64 bits |
| `SlotNames.SlotIff` | src/fleet_controller.rs:514-519 | a child is a slot's exactly when its name ends, behind the last dash, in that number within 64 bits, zeros and one plus sign allowed before it |
| `SlotNames.ChildNamesAreDistinct` | src/fleet_controller.rs:227-238 | no two slots of a fleet share a child name |
| `SlotNames.PaddedNameIsRead` | src/fleet_controller.rs:516-519 | a child name with leading zeros is read as the same slot |

## Left out

- Kubernetes I/O: API reads and writes, server-side apply, watches, requeue timing, timeouts, garbage collection. A reconcile is one atomic step over given inputs, so failures between its writes are not modelled.
- The object builders, CRD derivation, metrics, charts, scripts and the load generator: plumbing.
- `decided_on`, `last_transition_time` and `stable_since` of a placement: recorded and never read by the loop.
- 32-bit wrap-around of replica counts: counts are unbounded, inputs from the spec are 32-bit.
- Spread during displacement: all moves of one reconcile share a target, so balance is claimed only for runs without a displaced pin.
- The cap across a crash between a child's write and the status write.
- Float rounding: signals are NaN, infinities, negative zero or reals, with one NaN; demand is real; counters, trace times and request times are whole numbers. Signals narrowed to 32 bits on publication are not rounded.
- The text scan of a metrics page, NVML, tokens per joule and its time alignment with energy: a page arrives as the readings it shows.
- Retention of the last hit rate and its timestamp between reports: one assignment each; the age the planner applies is modelled.
- Candidate age arithmetic, the node pool's label match and the reading of allocatable GPUs: their results are inputs.
- The consumer's row of observations, its final scale-down write and clock.
- The service-level checks other than the concurrency sweep, and the cost figures derived from window and idle time.
