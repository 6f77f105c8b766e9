/** The fleet controller: the reconcile with its loops, over children and
    status it updates in place, proved to be exactly one step of FleetStep. */
module FleetController {
  import opened Prelude
  import opened FleetTypes
  import opened Placement
  import opened Planning
  import opened Slots
  import opened FleetStep
  import opened Sorting

  datatype PlacementStatus = PlacementStatus(slot: nat, node: NodeName, phase: Phase, surplus: int)

  // ----- The placement list as a map

  ghost predicate AscendingSlots(ps: seq<PlacementStatus>) {
    forall i, j :: 0 <= i < j < |ps| ==> ps[i].slot < ps[j].slot
  }

  function EntryOf(p: PlacementStatus): Entry {
    Entry(p.node, p.phase, p.surplus)
  }

  function StatusOf(ps: seq<PlacementStatus>): map<nat, Entry> {
    if ps == [] then map[]
    else StatusOf(ps[..|ps| - 1])[ps[|ps| - 1].slot := EntryOf(ps[|ps| - 1])]
  }

  lemma {:induction false} StatusOfAscending(ps: seq<PlacementStatus>)
    requires AscendingSlots(ps)
    ensures forall j :: 0 <= j < |ps| ==> ps[j].slot in StatusOf(ps) && StatusOf(ps)[ps[j].slot] == EntryOf(ps[j])
    ensures forall i :: i in StatusOf(ps) ==> exists j :: 0 <= j < |ps| && ps[j].slot == i
  {
    if ps != [] {
      StatusOfAscending(ps[..|ps| - 1]);
    }
  }

  function CountIf(ps: seq<PlacementStatus>, test: PlacementStatus -> bool): nat {
    if ps == [] then 0
    else CountIf(ps[..|ps| - 1], test) + if test(ps[|ps| - 1]) then 1 else 0
  }

  function SlotsWhere(ps: seq<PlacementStatus>, test: PlacementStatus -> bool): set<nat> {
    set j | 0 <= j < |ps| && test(ps[j]) :: ps[j].slot
  }

  /** Counting placements is counting slots. */
  lemma {:induction false} CountIsSize(ps: seq<PlacementStatus>, test: PlacementStatus -> bool)
    requires AscendingSlots(ps)
    ensures CountIf(ps, test) == |SlotsWhere(ps, test)|
  {
    if ps == [] {
      assert SlotsWhere(ps, test) == {};
    } else {
      var init, p := ps[..|ps| - 1], ps[|ps| - 1];
      CountIsSize(init, test);
      assert p.slot !in SlotsWhere(init, test);
      SlotsWhereNext(ps, test);
    }
  }

  lemma SlotsWhereNext(ps: seq<PlacementStatus>, test: PlacementStatus -> bool)
    requires ps != []
    ensures SlotsWhere(ps, test)
         == SlotsWhere(ps[..|ps| - 1], test) + if test(ps[|ps| - 1]) then {ps[|ps| - 1].slot} else {}
  {
    var last := |ps| - 1;
    forall i | i in SlotsWhere(ps, test)
      ensures i in SlotsWhere(ps[..last], test) + if test(ps[last]) then {ps[last].slot} else {}
    {
      var j :| 0 <= j < |ps| && test(ps[j]) && ps[j].slot == i;
      assert j < last ==> ps[..last][j] == ps[j];
    }
    forall i | i in SlotsWhere(ps[..last], test)
      ensures i in SlotsWhere(ps, test)
    {
      var j :| 0 <= j < last && test(ps[..last][j]) && ps[..last][j].slot == i;
      assert ps[j].slot == i;
    }
  }

  // ----- Sorting the list by slot

  predicate BySlot(p: PlacementStatus, q: PlacementStatus) {
    p.slot <= q.slot
  }

  // ----- The loops that only read

  ghost predicate CountsOwn(counts: map<NodeName, nat>, pins: map<nat, NodeName>) {
    forall n :: CountAt(counts, n) == OwnCount(pins, n)
  }

  lemma OneMoreSlot(counts: map<NodeName, nat>, seen: map<nat, NodeName>, i: nat, node: NodeName)
    requires i !in seen && CountsOwn(counts, seen)
    ensures CountsOwn(counts[node := CountAt(counts, node) + 1], seen[i := node])
  {
    var counts', seen' := counts[node := CountAt(counts, node) + 1], seen[i := node];
    forall n
      ensures CountAt(counts', n) == OwnCount(seen', n)
    {
      OneMoreOwn(seen, i, node, n);
      assert CountAt(counts, n) == OwnCount(seen, n);
    }
  }

  /** This fleet's own placements per node. */
  method OwnPlacementsPerNode(current: map<nat, NodeName>) returns (counts: map<NodeName, nat>)
    ensures CountsOwn(counts, current)
  {
    counts := map[];
    var keys := SortedKeys(current.Keys);
    ghost var seen: map<nat, NodeName> := map[];
    assert forall n :: OwnSlots(seen, n) == {};
    for k := 0 to |keys|
      invariant forall i :: i in seen <==> i in keys[..k]
      invariant forall i :: i in seen ==> i in current && seen[i] == current[i]
      invariant CountsOwn(counts, seen)
    {
      var i := keys[k];
      AscendingPrefix(current.Keys, keys, k);
      OneMoreSlot(counts, seen, i, current[i]);
      counts := counts[current[i] := CountAt(counts, current[i]) + 1];
      seen := seen[i := current[i]];
    }
    assert keys[..|keys|] == keys;
    assert seen == current;
  }

  ghost predicate Avoids(cs: seq<Candidate>, displaced: set<NodeName>) {
    cs == [] || (cs[0].name !in displaced && Avoids(cs[1..], displaced))
  }

  lemma {:induction false} AvoidsEach(cs: seq<Candidate>, displaced: set<NodeName>, b: nat)
    requires Avoids(cs, displaced) && b < |cs|
    ensures cs[b].name !in displaced
  {
    if b > 0 {
      AvoidsEach(cs[1..], displaced, b - 1);
    }
  }

  lemma {:induction false} HealthyAvoids(cs: seq<Candidate>, e: Env)
    ensures Avoids(KeepHealthy(cs, e), e.displaced)
  {
    if cs != [] {
      HealthyAvoids(cs[1..], e);
      var kept := KeepHealthy(cs[1..], e);
      assert ([cs[0]] + kept)[1..] == kept && [] + kept == kept;
    }
  }

  lemma ReplacementForDisplaced(healthy: seq<Candidate>, displaced: set<NodeName>, node: NodeName, pick: Selector)
    requires node in displaced && Avoids(healthy, displaced)
    ensures SelectReplacement(healthy, node, pick) == ChosenName(healthy, pick)
  {
    forall b | 0 <= b < |healthy|
      ensures healthy[b].name != node
    {
      AvoidsEach(healthy, displaced, b);
    }
    WithoutAbsent(healthy, node);
  }

  /** The members among the first k keys. */
  ghost function Seen(all: set<nat>, keys: seq<nat>, k: nat): set<nat>
    requires k <= |keys|
  {
    set i | i in all && i in keys[..k]
  }

  lemma SeenNext(all: set<nat>, S: set<nat>, keys: seq<nat>, k: nat)
    requires all <= S && StrictlyAscending(keys) && (forall i :: i in keys <==> i in S) && k < |keys|
    ensures Seen(all, keys, k) == Below(all, keys[k])
    ensures Seen(all, keys, k + 1) == Seen(all, keys, k) + if keys[k] in all then {keys[k]} else {}
  {
    AscendingPrefix(S, keys, k);
  }

  lemma SeenAll(all: set<nat>, S: set<nat>, keys: seq<nat>)
    requires all <= S && forall i :: i in keys <==> i in S
    ensures Seen(all, keys, |keys|) == all
  {
    assert keys[..|keys|] == keys;
  }

  /** The pass so far: with a replacement, the first slots seen have moved, all
      of them while there is budget left. */
  ghost predicate InPass(seen: set<nat>, allowed: nat, target: Option<NodeName>, budget: nat,
                         moved: map<nat, NodeName>) {
    && (target.None? ==> budget == allowed && moved.Keys == {})
    && (target.Some? ==>
          && |moved.Keys| + budget == allowed && moved.Keys <= seen && (budget != 0 ==> moved.Keys == seen)
          && (forall i, j :: i in seen && j in moved && i < j ==> i in moved))
    && forall i :: i in moved ==> Some(moved[i]) == target
  }

  lemma PassNext(seen: set<nat>, i: nat, allowed: nat, target: Option<NodeName>, budget: nat, moved: map<nat, NodeName>)
    requires InPass(seen, allowed, target, budget, moved) && forall j :: j in seen ==> j < i
    ensures budget == 0 || target.None? ==> InPass(seen + {i}, allowed, target, budget, moved)
    ensures budget != 0 && target.Some? ==> InPass(seen + {i}, allowed, target, budget - 1, moved[i := target.value])
  {
    if budget != 0 && target.Some? {
      assert moved[i := target.value].Keys == moved.Keys + {i};
    }
  }

  lemma PassEnds(all: set<nat>, allowed: nat, target: Option<NodeName>, budget: nat, moved: map<nat, NodeName>)
    requires InPass(all, allowed, target, budget, moved)
    ensures moved.Keys == if target.None? then {} else Lowest(all, allowed)
  {
    if target.Some? {
      SubsetSize(moved.Keys, all);
      LowestIs(all, moved.Keys, allowed);
    }
  }

  /** Slots pinned to a displaced node, and the replacement of those the budget lets move. */
  method PreemptionPass(current: map<nat, NodeName>, displaced: set<NodeName>, allowed: nat, healthy: seq<Candidate>,
                        pick: Selector)
    returns (preempted: set<nat>, moved: map<nat, NodeName>)
    requires Avoids(healthy, displaced)
    ensures preempted == DisplacedSlots(current, displaced)
    ensures moved.Keys == if ChosenName(healthy, pick).None? then {} else Lowest(preempted, allowed)
    ensures forall i :: i in moved ==> Some(moved[i]) == ChosenName(healthy, pick)
  {
    preempted, moved := {}, map[];
    var budget := allowed;
    var keys := SortedKeys(current.Keys);
    ghost var all, target := DisplacedSlots(current, displaced), ChosenName(healthy, pick);
    for k := 0 to |keys|
      invariant preempted == Seen(all, keys, k)
      invariant InPass(preempted, allowed, target, budget, moved)
    {
      var i := keys[k];
      SeenNext(all, current.Keys, keys, k);
      assert i in current.Keys;
      var node := current[i];
      if node in displaced {
        PassNext(preempted, i, allowed, target, budget, moved);
        preempted := preempted + {i};
        if budget != 0 {
          var choice := SelectReplacement(healthy, node, pick);
          assert choice == target by {
            ReplacementForDisplaced(healthy, displaced, node, pick);
          }
          if choice.Some? {
            moved := moved[i := choice.value];
            budget := budget - 1;
          }
        }
      }
    }
    SeenAll(all, current.Keys, keys);
    PassEnds(all, allowed, target, budget, moved);
  }

  function Assigned(desired: nat, current: map<nat, NodeName>, moved: map<nat, NodeName>, planned: seq<NodeName>,
                    i: nat)
    : Option<NodeName>
  {
    if i in moved then Some(moved[i])
    else if i in current then Some(current[i])
    else
      var k := Rank(Missing(current, desired), i);
      if k < |planned| then Some(planned[k]) else None
  }

  /** The assigned slots below n, ascending. */
  ghost function AssignedBelow(n: nat, desired: nat, current: map<nat, NodeName>, moved: map<nat, NodeName>,
                               planned: seq<NodeName>): seq<(nat, NodeName)>
  {
    if n == 0 then []
    else
      AssignedBelow(n - 1, desired, current, moved, planned)
      + match Assigned(desired, current, moved, planned, n - 1)
        case Some(node) => [(n - 1, node)]
        case None => []
  }

  /** One node per in-range slot: the replacement, the pin it has, or the next planned node. */
  method AssignSlots(desired: nat, current: map<nat, NodeName>, moved: map<nat, NodeName>, planned: seq<NodeName>)
    returns (slotNodes: seq<(nat, NodeName)>)
    requires moved.Keys <= current.Keys
    ensures slotNodes == AssignedBelow(desired, desired, current, moved, planned)
  {
    slotNodes := [];
    var next := 0;
    ghost var missing := Missing(current, desired);
    assert Below(missing, 0) == {};
    for i := 0 to desired
      invariant next == Min(Rank(missing, i), |planned|)
      invariant slotNodes == AssignedBelow(i, desired, current, moved, planned)
    {
      RankNext(missing, i);
      if i in moved {
        slotNodes := slotNodes + [(i, moved[i])];
      } else if i in current {
        slotNodes := slotNodes + [(i, current[i])];
      } else if next < |planned| {
        slotNodes := slotNodes + [(i, planned[next])];
        next := next + 1;
      }
    }
  }

  lemma {:induction false} AssignedBelowAt(n: nat, desired: nat, current: map<nat, NodeName>,
                                           moved: map<nat, NodeName>, planned: seq<NodeName>, a: nat)
    requires a < |AssignedBelow(n, desired, current, moved, planned)|
    ensures var l := AssignedBelow(n, desired, current, moved, planned);
            l[a].0 < n && Assigned(desired, current, moved, planned, l[a].0) == Some(l[a].1)
  {
    if a < |AssignedBelow(n - 1, desired, current, moved, planned)| {
      AssignedBelowAt(n - 1, desired, current, moved, planned, a);
    }
  }

  lemma {:induction false} AssignedBelowAscends(n: nat, desired: nat, current: map<nat, NodeName>,
                                                moved: map<nat, NodeName>, planned: seq<NodeName>, a: nat, b: nat)
    requires a < b < |AssignedBelow(n, desired, current, moved, planned)|
    ensures AssignedBelow(n, desired, current, moved, planned)[a].0
          < AssignedBelow(n, desired, current, moved, planned)[b].0
  {
    if b < |AssignedBelow(n - 1, desired, current, moved, planned)| {
      AssignedBelowAscends(n - 1, desired, current, moved, planned, a, b);
    } else {
      AssignedBelowAt(n - 1, desired, current, moved, planned, a);
    }
  }

  lemma {:induction false} AssignedBelowHas(n: nat, desired: nat, current: map<nat, NodeName>,
                                            moved: map<nat, NodeName>, planned: seq<NodeName>, i: nat) returns (a: nat)
    requires i < n && Assigned(desired, current, moved, planned, i).Some?
    ensures a < |AssignedBelow(n, desired, current, moved, planned)|
    ensures AssignedBelow(n, desired, current, moved, planned)[a].0 == i
  {
    if i < n - 1 {
      a := AssignedBelowHas(n - 1, desired, current, moved, planned, i);
    } else {
      a := |AssignedBelow(n - 1, desired, current, moved, planned)|;
    }
  }

  lemma AssignedIsPin(s: State, e: Env, d: Decision, moved: map<nat, NodeName>, i: nat)
    requires moved.Keys == Moved(s, e, d) && forall j :: j in moved ==> Some(moved[j]) == d.target
    ensures Assigned(Desired(e), s.children, moved, d.freshNodes, i) == PinOf(s, e, d, i)
  {
  }

  // ----- The reconcile

  function PlacementFor(s: State, e: Env, i: nat, node: NodeName): PlacementStatus {
    var entry := NewEntry(s, e, node, i);
    PlacementStatus(i, node, entry.phase, entry.surplus)
  }

  /** The list records exactly the pins: one placement per slot, ascending. */
  ghost predicate Records(ps: seq<PlacementStatus>, s: State, e: Env, pins: map<nat, NodeName>) {
    && AscendingSlots(ps)
    && (forall a :: 0 <= a < |ps| ==>
          ps[a].slot in pins && ps[a] == PlacementFor(s, e, ps[a].slot, pins[ps[a].slot]))
    && (forall i :: i in pins ==> exists a :: 0 <= a < |ps| && ps[a].slot == i)
  }

  lemma ConcatCovers(ps: seq<PlacementStatus>, qs: seq<PlacementStatus>, i: nat)
    requires (exists a :: 0 <= a < |ps| && ps[a].slot == i) || (exists a :: 0 <= a < |qs| && qs[a].slot == i)
    ensures exists a :: 0 <= a < |ps + qs| && (ps + qs)[a].slot == i
  {
    if a :| 0 <= a < |ps| && ps[a].slot == i {
      assert (ps + qs)[a].slot == i;
    } else {
      var a :| 0 <= a < |qs| && qs[a].slot == i;
      assert (ps + qs)[|ps| + a].slot == i;
    }
  }

  lemma RecordsConcat(ps: seq<PlacementStatus>, qs: seq<PlacementStatus>, s: State, e: Env,
                      pins: map<nat, NodeName>, held: map<nat, NodeName>)
    requires Records(ps, s, e, pins) && Records(qs, s, e, held)
    requires forall i, j :: i in pins && j in held ==> i < j
    ensures Records(ps + qs, s, e, pins + held)
  {
    forall i | i in pins + held
      ensures exists a :: 0 <= a < |ps + qs| && (ps + qs)[a].slot == i
    {
      ConcatCovers(ps, qs, i);
    }
  }

  lemma RecordAt(ps: seq<PlacementStatus>, s: State, e: Env, pins: map<nat, NodeName>, i: nat)
    requires Records(ps, s, e, pins) && i in pins
    ensures i in StatusOf(ps) && StatusOf(ps)[i] == NewEntry(s, e, pins[i], i)
  {
    StatusOfAscending(ps);
    var a :| 0 <= a < |ps| && ps[a].slot == i;
    assert ps[a] == PlacementFor(s, e, i, pins[i]);
  }

  lemma RecordsStatus(ps: seq<PlacementStatus>, s: State, e: Env, pins: map<nat, NodeName>)
    requires Records(ps, s, e, pins)
    ensures StatusOf(ps) == NewStatus(s, e, pins)
  {
    forall i | i in StatusOf(ps)
      ensures i in pins
    {
      StatusOfAscending(ps);
    }
    forall i | i in pins
      ensures i in StatusOf(ps) && StatusOf(ps)[i] == NewEntry(s, e, pins[i], i)
    {
      RecordAt(ps, s, e, pins, i);
    }
  }

  class Fleet {
    var children: map<nat, NodeName>
    var placements: seq<PlacementStatus>
    var report: Report

    ghost predicate Valid()
      reads this
    {
      AscendingSlots(placements)
    }

    ghost function Snapshot(): State
      reads this
    {
      State(children, StatusOf(placements), report)
    }

    constructor ()
      ensures Valid() && Snapshot() == EMPTY_FLEET
    {
      children, placements, report := map[], [], NO_REPORT;
    }

    /** Patches one child per assigned slot and advances its phase. */
    method ApplyPass(s: State, e: Env, slotNodes: seq<(nat, NodeName)>, preempted: set<nat>)
      returns (ps: seq<PlacementStatus>)
      requires preempted == DisplacedSlots(s.children, e.displaced)
      requires forall a :: 0 <= a < |slotNodes| ==> slotNodes[a].0 < Desired(e)
      modifies this`children
      ensures |ps| == |slotNodes|
      ensures forall a :: 0 <= a < |ps| ==> ps[a] == PlacementFor(s, e, slotNodes[a].0, slotNodes[a].1)
      ensures children == Overlay(old(children), slotNodes)
    {
      ps := [];
      for k := 0 to |slotNodes|
        invariant |ps| == k
        invariant forall a :: 0 <= a < k ==> ps[a] == PlacementFor(s, e, slotNodes[a].0, slotNodes[a].1)
        invariant children == Overlay(old(children), slotNodes[..k])
      {
        var (i, node) := slotNodes[k];
        assert slotNodes[..k + 1][..k] == slotNodes[..k];
        children := children[i := node];
        var phase := PlacementPhaseFor(PrevPhase(s, i), NodeReady(s, e, i), i in preempted);
        ps := ps + [PlacementStatus(i, node, phase, 0)];
      }
      assert slotNodes[..|slotNodes|] == slotNodes;
    }

    /** Keeps the surplus children still inside their hysteresis window, deletes the others. */
    method ScaleDownPass(s: State, e: Env) returns (ps: seq<PlacementStatus>)
      modifies this`children
      ensures Records(ps, s, e, HeldPins(s, e))
      ensures children == old(children) - Due(s, e)
    {
      ps := [];
      var keys := SortedKeys(s.children.Keys);
      ghost var seen: set<nat> := {};
      for k := 0 to |keys|
        invariant forall i :: i in seen <==> i in keys[..k]
        invariant Records(ps, s, e, HeldWithin(s, e, seen))
        invariant children == old(children) - (Due(s, e) * seen)
      {
        var i := keys[k];
        AscendingPrefix(s.children.Keys, keys, k);
        if i >= Desired(e) {
          var (counter, remove) := SurplusHysteresis(PrevSurplus(s, i), true, e.required);
          if !remove {
            var phase := PlacementPhaseFor(PrevPhase(s, i), NodeReady(s, e, i), false);
            HeldNext(s, e, ps, seen, i);
            ps := ps + [PlacementStatus(i, s.children[i], phase, counter)];
          } else {
            children := children - {i};
          }
        }
        OneSeen(s, e, old(children), seen, i);
        seen := seen + {i};
      }
      AllSeen(s, e, keys, seen);
    }

    /** One reconcile: exactly one step, and a status that lists the live children. */
    method Reconcile(e: Env)
      requires Valid()
      modifies this
      ensures Valid() && Snapshot() == Step(old(Snapshot()), e)
    {
      if e.strategy == Unsupported {
        report := EarlyReport(report, e, StrategyNotSupported);
        return;
      }
      if e.candidates == [] {
        report := EarlyReport(report, e, NoCandidate);
        return;
      }
      var s := State(children, StatusOf(placements), report);
      var preempted, moved, planned := PlanReconcile(s, e, CountIf(placements, IsMoving(e.displaced))) by {
        InFlightCount(placements, e.displaced);
      }
      EnactPlan(s, e, Decide(s, e), preempted, moved, planned);
    }

    /** Writes the children and the status a decision calls for. */
    method EnactPlan(s: State, e: Env, ghost d: Decision, preempted: set<nat>, moved: map<nat, NodeName>,
                     planned: seq<NodeName>)
      requires Valid() && Snapshot() == s
      requires Carries(s, e, d, preempted, moved, planned) && moved.Keys <= s.children.Keys
      modifies this
      ensures Valid() && Snapshot() == Enact(s, e, d)
    {
      var slotNodes := AssignPins(s, e, d, moved, planned);
      var inRange := ApplyPass(s, e, slotNodes, preempted);
      var surplus := ScaleDownPass(s, e);
      PassesMakeState(s, e, d, slotNodes, inRange, surplus);
      placements := Sort(inRange + surplus, BySlot);
      report := ReportOf(placements, e);
      Enacted(s, e, d, children, StatusOf(placements), report);
    }
  }

  /** The three outcomes of the read-only passes are those of the decision. */
  ghost predicate Carries(s: State, e: Env, d: Decision, preempted: set<nat>, moved: map<nat, NodeName>,
                          planned: seq<NodeName>)
  {
    && preempted == DisplacedSlots(s.children, e.displaced)
    && moved.Keys == Moved(s, e, d)
    && (forall i :: i in moved ==> Some(moved[i]) == d.target)
    && planned == d.freshNodes
  }

  /** The passes that only read: own counts, moves and fresh nodes. */
  method PlanReconcile(s: State, e: Env, inFlight: nat)
    returns (preempted: set<nat>, moved: map<nat, NodeName>, planned: seq<NodeName>)
    requires inFlight == |InFlight(s.status, e.displaced)|
    ensures Carries(s, e, Decide(s, e), preempted, moved, planned)
    ensures moved.Keys <= s.children.Keys
  {
    var own := OwnPlacementsPerNode(s.children);
    FoldByCounts(e.candidates, own, s.children, e.derivedWarmth);
    var healthy := KeepHealthy(FoldAll(e.candidates, own, e.derivedWarmth), e);
    var allowed := Max(0, Max(0, e.cap) - inFlight);
    HealthyAvoids(FoldAll(e.candidates, own, e.derivedWarmth), e);
    preempted, moved := PreemptionPass(s.children, e.displaced, allowed, healthy, Pick(e));
    planned := PlanInitialPlacements(|Missing(s.children, Desired(e))|, healthy, Pick(e));
  }

  function Overlay(children: map<nat, NodeName>, slotNodes: seq<(nat, NodeName)>): map<nat, NodeName> {
    if slotNodes == [] then children
    else
      var last := |slotNodes| - 1;
      Overlay(children, slotNodes[..last])[slotNodes[last].0 := slotNodes[last].1]
  }

  function Due(s: State, e: Env): set<nat> {
    set i | i in s.children && i >= Desired(e) && !IsHeld(s, e, i)
  }

  ghost function HeldWithin(s: State, e: Env, seen: set<nat>): map<nat, NodeName> {
    map i | i in s.children && IsHeld(s, e, i) && i in seen :: s.children[i]
  }

  lemma OneSeen(s: State, e: Env, before: map<nat, NodeName>, seen: set<nat>, i: nat)
    requires i in s.children
    ensures !IsHeld(s, e, i) ==> HeldWithin(s, e, seen + {i}) == HeldWithin(s, e, seen)
    ensures before - (Due(s, e) * (seen + {i}))
         == if i in Due(s, e) then (before - (Due(s, e) * seen)) - {i} else before - (Due(s, e) * seen)
  {
  }

  lemma AllSeen(s: State, e: Env, keys: seq<nat>, seen: set<nat>)
    requires forall i :: i in keys <==> i in s.children
    requires forall i :: i in seen <==> i in keys[..|keys|]
    ensures HeldWithin(s, e, seen) == HeldPins(s, e) && Due(s, e) * seen == Due(s, e)
  {
    assert keys[..|keys|] == keys;
  }

  lemma HeldNext(s: State, e: Env, ps: seq<PlacementStatus>, seen: set<nat>, i: nat)
    requires Records(ps, s, e, HeldWithin(s, e, seen))
    requires IsHeld(s, e, i) && forall j :: j in seen ==> j < i
    ensures Records(ps + [PlacementFor(s, e, i, s.children[i])], s, e, HeldWithin(s, e, seen + {i}))
  {
    var single := map[i := s.children[i]];
    assert HeldWithin(s, e, seen + {i}) == HeldWithin(s, e, seen) + single;
    var qs := [PlacementFor(s, e, i, s.children[i])];
    assert qs[0].slot == i;
    RecordsConcat(ps, qs, s, e, HeldWithin(s, e, seen), single);
  }

  lemma {:induction false} FoldByCounts(cs: seq<Candidate>, counts: map<NodeName, nat>, children: map<nat, NodeName>,
                                        derived: map<NodeName, Warmth>)
    requires CountsOwn(counts, children)
    ensures FoldAll(cs, counts, derived) == FoldAll(cs, OwnCounts(children), derived)
  {
    if cs != [] {
      FoldByCounts(cs[1..], counts, children, derived);
      OwnCountsAt(children, cs[0].name);
      assert CountAt(counts, cs[0].name) == OwnCount(children, cs[0].name);
    }
  }

  function IsMoving(displaced: set<NodeName>): PlacementStatus -> bool {
    (p: PlacementStatus) => Moving(EntryOf(p), displaced)
  }

  function IsInPhase(phase: Phase): PlacementStatus -> bool {
    (p: PlacementStatus) => p.phase == phase
  }

  function IsComingUp(): PlacementStatus -> bool {
    (p: PlacementStatus) => p.phase == Pending || p.phase == Phase.Warming
  }

  lemma CountIsSizeOf(ps: seq<PlacementStatus>, test: PlacementStatus -> bool, good: set<nat>)
    requires AscendingSlots(ps)
    requires forall i :: i in good ==> i in StatusOf(ps)
    requires forall j :: 0 <= j < |ps| ==> (test(ps[j]) <==> ps[j].slot in good)
    ensures CountIf(ps, test) == |good|
  {
    CountIsSize(ps, test);
    StatusOfAscending(ps);
    forall i
      ensures i in SlotsWhere(ps, test) <==> i in good
    {
      if i in good {
        var j :| 0 <= j < |ps| && ps[j].slot == i;
      }
    }
    assert SlotsWhere(ps, test) == good;
  }

  lemma InFlightCount(ps: seq<PlacementStatus>, displaced: set<NodeName>)
    requires AscendingSlots(ps)
    ensures CountIf(ps, IsMoving(displaced)) == |InFlight(StatusOf(ps), displaced)|
  {
    StatusOfAscending(ps);
    CountIsSizeOf(ps, IsMoving(displaced), InFlight(StatusOf(ps), displaced));
  }

  lemma PhaseCount(ps: seq<PlacementStatus>, phase: Phase)
    requires AscendingSlots(ps)
    ensures CountIf(ps, IsInPhase(phase)) == |InPhase(StatusOf(ps), phase)|
  {
    StatusOfAscending(ps);
    CountIsSizeOf(ps, IsInPhase(phase), InPhase(StatusOf(ps), phase));
  }

  lemma WarmingCount(ps: seq<PlacementStatus>)
    requires AscendingSlots(ps)
    ensures CountIf(ps, IsComingUp())
         == |InPhase(StatusOf(ps), Pending) + InPhase(StatusOf(ps), Phase.Warming)|
  {
    StatusOfAscending(ps);
    CountIsSizeOf(ps, IsComingUp(), InPhase(StatusOf(ps), Pending) + InPhase(StatusOf(ps), Phase.Warming));
  }

  lemma {:induction false} LengthIsSize(ps: seq<PlacementStatus>)
    requires AscendingSlots(ps)
    ensures |StatusOf(ps)| == |ps|
  {
    if ps != [] {
      LengthIsSize(ps[..|ps| - 1]);
      StatusOfAscending(ps[..|ps| - 1]);
    }
  }

  function ReportOf(ps: seq<PlacementStatus>, e: Env): Report {
    var ready := CountIf(ps, IsInPhase(Phase.Ready));
    var warming := CountIf(ps, IsComingUp());
    var active := CountIf(ps, IsMoving(e.displaced));
    var drainAndHold := exists k :: 0 <= k < |ps| && ps[k].phase == Phase.Draining && ps[k].node in e.displaced;
    Report(Some(FleetPhaseFor(e.replicas, ready, drainAndHold)), ready, e.replicas, |ps|, warming, active, NoMessage)
  }

  lemma ReportIsSummary(ps: seq<PlacementStatus>, e: Env)
    requires AscendingSlots(ps)
    ensures ReportOf(ps, e) == Summary(StatusOf(ps), e)
  {
    PhaseCount(ps, Phase.Ready);
    WarmingCount(ps);
    InFlightCount(ps, e.displaced);
    LengthIsSize(ps);
    StatusOfAscending(ps);
  }

  ghost predicate AscendingPairs(l: seq<(nat, NodeName)>) {
    forall a, b :: 0 <= a < b < |l| ==> l[a].0 < l[b].0
  }

  lemma {:induction false} OverlayLast(children: map<nat, NodeName>, l: seq<(nat, NodeName)>, a: nat)
    requires AscendingPairs(l) && a < |l|
    ensures l[a].0 in Overlay(children, l) && Overlay(children, l)[l[a].0] == l[a].1
  {
    var last := |l| - 1;
    if a < last {
      OverlayLast(children, l[..last], a);
    }
  }

  lemma {:induction false} OverlayElsewhere(children: map<nat, NodeName>, l: seq<(nat, NodeName)>, i: nat)
    requires forall a :: 0 <= a < |l| ==> l[a].0 != i
    ensures i in Overlay(children, l) <==> i in children
    ensures i in children ==> Overlay(children, l)[i] == children[i]
  {
    if l != [] {
      OverlayElsewhere(children, l[..|l| - 1], i);
    }
  }

  /** The list of assigned slots lists these pins. */
  ghost predicate Lists(l: seq<(nat, NodeName)>, pins: map<nat, NodeName>) {
    && AscendingPairs(l)
    && (forall a :: 0 <= a < |l| ==> l[a].0 in pins && pins[l[a].0] == l[a].1)
    && (forall i :: i in pins ==> exists a :: 0 <= a < |l| && l[a].0 == i)
  }

  lemma AssignedArePins(s: State, e: Env, d: Decision, moved: map<nat, NodeName>)
    requires moved.Keys == Moved(s, e, d) && forall j :: j in moved ==> Some(moved[j]) == d.target
    ensures Lists(AssignedBelow(Desired(e), Desired(e), s.children, moved, d.freshNodes), NewPins(s, e, d))
  {
    var n, planned := Desired(e), d.freshNodes;
    var l := AssignedBelow(n, n, s.children, moved, planned);
    forall a, b | 0 <= a < b < |l|
      ensures l[a].0 < l[b].0
    {
      AssignedBelowAscends(n, n, s.children, moved, planned, a, b);
    }
    forall a | 0 <= a < |l|
      ensures l[a].0 in NewPins(s, e, d) && NewPins(s, e, d)[l[a].0] == l[a].1
    {
      AssignedBelowAt(n, n, s.children, moved, planned, a);
      AssignedIsPin(s, e, d, moved, l[a].0);
      assert l[a].0 in Interval(0, n);
    }
    forall i | i in NewPins(s, e, d)
      ensures exists a :: 0 <= a < |l| && l[a].0 == i
    {
      AssignedIsPin(s, e, d, moved, i);
      var a := AssignedBelowHas(n, n, s.children, moved, planned, i);
    }
  }

  lemma OverlayAt(children: map<nat, NodeName>, l: seq<(nat, NodeName)>, pins: map<nat, NodeName>, i: nat)
    requires Lists(l, pins)
    ensures i in Overlay(children, l) <==> i in children + pins
    ensures i in Overlay(children, l) ==> Overlay(children, l)[i] == (children + pins)[i]
  {
    if i in pins {
      var a :| 0 <= a < |l| && l[a].0 == i;
      OverlayLast(children, l, a);
    } else {
      OverlayElsewhere(children, l, i);
    }
  }

  lemma OverlayAddsPins(children: map<nat, NodeName>, l: seq<(nat, NodeName)>, pins: map<nat, NodeName>)
    requires Lists(l, pins)
    ensures Overlay(children, l) == children + pins
  {
    forall i: nat
      ensures i in Overlay(children, l) <==> i in children + pins
      ensures i in Overlay(children, l) ==> Overlay(children, l)[i] == (children + pins)[i]
    {
      OverlayAt(children, l, pins, i);
    }
  }

  lemma WithoutDue(children: map<nat, NodeName>, pins: map<nat, NodeName>, held: map<nat, NodeName>, due: set<nat>)
    requires held.Keys <= children.Keys && forall i :: i in held ==> held[i] == children[i]
    requires held.Keys !! pins.Keys && due !! (held.Keys + pins.Keys)
    requires children.Keys <= pins.Keys + held.Keys + due
    ensures (children + pins) - due == pins + held
  {
  }

  lemma PassesMakeChildren(s: State, e: Env, d: Decision, l: seq<(nat, NodeName)>)
    requires Lists(l, NewPins(s, e, d)) && (d.target.None? ==> Moved(s, e, d) == {})
    ensures Overlay(s.children, l) - Due(s, e) == NewChildren(s, e, d)
  {
    OverlayAddsPins(s.children, l, NewPins(s, e, d));
    ChildrenPartition(s, e, d);
    WithoutDue(s.children, NewPins(s, e, d), HeldPins(s, e), Due(s, e));
  }

  /** A child keeps a pin, is held, or is deleted, and only one of the three. */
  lemma ChildrenPartition(s: State, e: Env, d: Decision)
    ensures HeldPins(s, e).Keys !! NewPins(s, e, d).Keys
    ensures Due(s, e) !! (HeldPins(s, e).Keys + NewPins(s, e, d).Keys)
    ensures s.children.Keys <= NewPins(s, e, d).Keys + HeldPins(s, e).Keys + Due(s, e)
  {
    forall i | i in s.children && i < Desired(e)
      ensures i in NewPins(s, e, d)
    {
      assert i in Interval(0, Desired(e));
    }
  }

  lemma InRangeRecords(s: State, e: Env, d: Decision, l: seq<(nat, NodeName)>, ps: seq<PlacementStatus>)
    requires Lists(l, NewPins(s, e, d))
    requires |ps| == |l| && forall a :: 0 <= a < |ps| ==> ps[a] == PlacementFor(s, e, l[a].0, l[a].1)
    ensures Records(ps, s, e, NewPins(s, e, d))
  {
    assert forall a :: 0 <= a < |ps| ==> ps[a].slot == l[a].0;
  }

  /** The assigned slots are the pins of the decision. */
  method AssignPins(s: State, e: Env, ghost d: Decision, moved: map<nat, NodeName>, planned: seq<NodeName>)
    returns (l: seq<(nat, NodeName)>)
    requires moved.Keys == Moved(s, e, d) && forall j :: j in moved ==> Some(moved[j]) == d.target
    requires planned == d.freshNodes && moved.Keys <= s.children.Keys
    ensures Lists(l, NewPins(s, e, d))
    ensures forall a :: 0 <= a < |l| ==> l[a].0 < Desired(e)
  {
    l := AssignSlots(Desired(e), s.children, moved, planned);
    AssignedArePins(s, e, d, moved);
  }

  lemma Enacted(s: State, e: Env, d: Decision, children: map<nat, NodeName>, status: map<nat, Entry>, report: Report)
    requires Same(children, NewChildren(s, e, d)) && Same(status, NewStatus(s, e, NewChildren(s, e, d)))
    requires report == Summary(status, e)
    ensures State(children, status, report) == Enact(s, e, d)
  {
  }

  lemma PassesMakeRecords(s: State, e: Env, d: Decision, l: seq<(nat, NodeName)>, inRange: seq<PlacementStatus>,
                          surplus: seq<PlacementStatus>)
    requires Lists(l, NewPins(s, e, d)) && Records(surplus, s, e, HeldPins(s, e))
    requires |inRange| == |l| && forall a :: 0 <= a < |l| ==> inRange[a] == PlacementFor(s, e, l[a].0, l[a].1)
    ensures Records(inRange + surplus, s, e, NewChildren(s, e, d))
  {
    InRangeRecords(s, e, d, l, inRange);
    RecordsConcat(inRange, surplus, s, e, NewPins(s, e, d), HeldPins(s, e));
  }

  lemma RecordsStaySorted(ps: seq<PlacementStatus>, s: State, e: Env, pins: map<nat, NodeName>)
    requires Records(ps, s, e, pins)
    ensures AscendingSlots(Sort(ps, BySlot)) && StatusOf(Sort(ps, BySlot)) == NewStatus(s, e, pins)
  {
    SortKeepsOrder(ps, BySlot);
    RecordsStatus(ps, s, e, pins);
  }

  lemma PassesMakeState(s: State, e: Env, d: Decision, l: seq<(nat, NodeName)>, inRange: seq<PlacementStatus>,
                        surplus: seq<PlacementStatus>)
    requires Lists(l, NewPins(s, e, d)) && Records(surplus, s, e, HeldPins(s, e))
    requires |inRange| == |l| && forall a :: 0 <= a < |l| ==> inRange[a] == PlacementFor(s, e, l[a].0, l[a].1)
    requires d.target.None? ==> Moved(s, e, d) == {}
    ensures Same(Overlay(s.children, l) - Due(s, e), NewChildren(s, e, d))
    ensures AscendingSlots(Sort(inRange + surplus, BySlot))
    ensures Same(StatusOf(Sort(inRange + surplus, BySlot)), NewStatus(s, e, NewChildren(s, e, d)))
    ensures ReportOf(Sort(inRange + surplus, BySlot), e) == Summary(StatusOf(Sort(inRange + surplus, BySlot)), e)
  {
    PassesMakeChildren(s, e, d, l);
    PassesMakeRecords(s, e, d, l, inRange, surplus);
    RecordsStaySorted(inRange + surplus, s, e, NewChildren(s, e, d));
    ReportIsSummary(Sort(inRange + surplus, BySlot), e);
  }
}
