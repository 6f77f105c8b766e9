/** Scaling up does not depend on the path: the planner's simulated load is
    what the controller folds in at the next reconcile. */
module FleetScaleUp {
  import opened Prelude
  import opened FleetTypes
  import opened Placement
  import opened Planning
  import opened Slots
  import opened FleetStep
  import opened FleetRuns
  import opened FleetStatus
  import opened FleetSpread

  // ----- Folding in the fleet's pins is loading

  /** A pin the planner simulated reads, next time, as a pin folded in. */
  lemma FoldIsLoad(c: Candidate, own: nat, more: nat, derived: map<NodeName, Warmth>)
    ensures Fold(c, own + more, derived) == LoadedBy(Fold(c, own, derived), more)
  {
  }

  /** Filtering on health and folding in the pins commute. */
  lemma {:induction false} HealthyIsFolded(cs: seq<Candidate>, own: map<NodeName, nat>, e: Env)
    ensures KeepHealthy(FoldAll(cs, own, e.derivedWarmth), e) == FoldAll(KeepHealthy(cs, e), own, e.derivedWarmth)
  {
    if cs != [] {
      HealthyIsFolded(cs[1..], own, e);
      var kept := KeepHealthy(cs[1..], e);
      var first := Fold(cs[0], CountAt(own, cs[0].name), e.derivedWarmth);
      assert ([cs[0]] + kept)[1..] == kept;
      assert FoldAll(cs, own, e.derivedWarmth)[1..] == FoldAll(cs[1..], own, e.derivedWarmth);
      assert [] + kept == kept && [] + FoldAll(kept, own, e.derivedWarmth) == FoldAll(kept, own, e.derivedWarmth);
    }
  }

  /** What the planner simulated after a plan is what the controller sees once
      the planned slots are pinned. */
  lemma GrownIsRefolded(cs: seq<Candidate>, own: map<NodeName, nat>, own': map<NodeName, nat>,
                        derived: map<NodeName, Warmth>, slots: nat, pick: Selector)
    requires DistinctNames(cs)
    requires forall n :: CountAt(own', n) == CountAt(own, n) + multiset(Plan(slots, FoldAll(cs, own, derived), pick))[n]
    ensures Grown(slots, FoldAll(cs, own, derived), pick) == FoldAll(cs, own', derived)
  {
    forall i | 0 <= i < |cs|
      ensures Grown(slots, FoldAll(cs, own, derived), pick)[i] == FoldAll(cs, own', derived)[i]
    {
      RefoldAt(cs, own, own', derived, slots, pick, i);
    }
  }

  lemma RefoldAt(cs: seq<Candidate>, own: map<NodeName, nat>, own': map<NodeName, nat>,
                 derived: map<NodeName, Warmth>, slots: nat, pick: Selector, i: nat)
    requires DistinctNames(cs) && i < |cs|
    requires forall n :: CountAt(own', n) == CountAt(own, n) + multiset(Plan(slots, FoldAll(cs, own, derived), pick))[n]
    ensures Grown(slots, FoldAll(cs, own, derived), pick)[i] == FoldAll(cs, own', derived)[i]
  {
    var before := FoldAll(cs, own, derived);
    FoldedIsDistinct(cs, own, derived);
    GrownByPlan(slots, before, pick, i);
    FoldAllAt(cs, own, derived, i);
    FoldAllAt(cs, own', derived, i);
    var n := cs[i].name;
    var more := multiset(Plan(slots, before, pick))[n];
    FoldIsLoad(cs[i], CountAt(own, n), more, derived);
    assert CountAt(own', n) == CountAt(own, n) + more;
  }

  // ----- Scale-up steps

  /** Two reconciles that read the same nodes, reports and freshness. */
  ghost predicate SamePlanning(e: Env, e': Env) {
    && e.candidates == e'.candidates && e.derivedWarmth == e'.derivedWarmth && e.displaced == e'.displaced
    && e.gpus == e'.gpus && e.allocatable == e'.allocatable
    && e.strategy == e'.strategy && e.horizon == e'.horizon
  }

  /** A reconcile that only adds slots. */
  ghost predicate OnlyGrows(c: map<nat, NodeName>, e: Env) {
    Segment(c) && |c| <= Desired(e) && DisplacedSlots(c, e.displaced) == {}
  }

  function Append(c: map<nat, NodeName>, node: NodeName): map<nat, NodeName> {
    c[|c| := node]
  }

  /** The slots as they are, then the planned nodes. */
  function Extended(c: map<nat, NodeName>, planned: seq<NodeName>): map<nat, NodeName> {
    if planned == [] then c
    else Append(Extended(c, planned[..|planned| - 1]), planned[|planned| - 1])
  }

  /** The pins once the plan for the slots missing below n is pinned. */
  function Planned(c: map<nat, NodeName>, n: nat, e: Env, pick: Selector): map<nat, NodeName>
    requires |c| <= n
  {
    Extended(c, Plan(n - |c|, Healthy(c, e), pick))
  }

  lemma NoSurplus(s: State, e: Env)
    requires Segment(s.children) && |s.children| <= Desired(e)
    ensures HeldPins(s, e) == map[]
  {
  }

  lemma GrowingPins(s: State, e: Env, d: Decision)
    requires OnlyGrows(s.children, e) && AllOrNone(s, e, d)
    ensures NewChildren(s, e, d) == Extended(s.children, d.freshNodes)
  {
    MissingIsInterval(s.children, Desired(e));
    PinsAreSegment(s, e, d);
    NoSurplus(s, e);
    StepFollows(s, e, d);
    SameByFollowing(s.children, NewChildren(s, e, d), d.freshNodes);
  }

  lemma SamePlan(n: int, m: int, cs: seq<Candidate>, pick: Selector)
    requires n == m
    ensures Plan(n, cs, pick) == Plan(m, cs, pick)
  {
  }

  lemma FreshIsPlanned(s: State, e: Env)
    requires OnlyGrows(s.children, e)
    ensures Decide(s, e).freshNodes == Plan(Desired(e) - |s.children|, Healthy(s.children, e), Pick(e))
  {
    MissingIsInterval(s.children, Desired(e));
    SamePlan(|Missing(s.children, Desired(e))|, Desired(e) - |s.children|, Healthy(s.children, e), Pick(e));
  }

  lemma GrowingPinsPlanned(s: State, e: Env, d: Decision, pick: Selector)
    requires OnlyGrows(s.children, e) && AllOrNone(s, e, d)
    requires d.freshNodes == Plan(Desired(e) - |s.children|, Healthy(s.children, e), pick)
    ensures Same(NewChildren(s, e, d), Planned(s.children, Desired(e), e, pick))
  {
    GrowingPins(s, e, d);
  }

  /** A growing reconcile appends its plan, whatever the status is. */
  lemma GrowingStep(s: State, e: Env)
    requires IsFull(e) && OnlyGrows(s.children, e)
    ensures Same(Step(s, e).children, Planned(s.children, Desired(e), e, Pick(e)))
  {
    DecisionIsSound(s, e);
    FreshIsPlanned(s, e);
    GrowingPinsPlanned(s, e, Decide(s, e), Pick(e));
  }

  lemma SameByFollowing(c: map<nat, NodeName>, c': map<nat, NodeName>, planned: seq<NodeName>)
    requires Segment(c) && Follows(c, c', planned) && c'.Keys == Interval(0, |c| + |planned|)
    ensures c' == Extended(c, planned)
  {
    ExtendedShape(c, planned);
    var c'' := Extended(c, planned);
    forall i | i in c'
      ensures i in c'' && c'[i] == c''[i]
    {
      assert FollowsAt(c, c'[i], planned, i);
      assert i in c'';
      assert FollowsAt(c, c''[i], planned, i);
    }
    assert c'.Keys == c''.Keys;
  }

  lemma AppendShape(c: map<nat, NodeName>, node: NodeName)
    requires Segment(c)
    ensures Segment(Append(c, node)) && |Append(c, node)| == |c| + 1
  {
    var m := |c|;
    var c' := c[m := node];
    assert m !in c;
    assert |c'| == m + 1;
    forall i: nat
      ensures i in c' <==> i < m + 1
    {
    }
  }

  lemma {:induction false} ExtendedSize(c: map<nat, NodeName>, planned: seq<NodeName>)
    requires Segment(c)
    ensures Segment(Extended(c, planned)) && |Extended(c, planned)| == |c| + |planned|
    decreases |planned|
  {
    if planned != [] {
      var last := |planned| - 1;
      ExtendedSize(c, planned[..last]);
      AppendShape(Extended(c, planned[..last]), planned[last]);
    }
  }

  lemma FollowsOneMore(c: map<nat, NodeName>, init: map<nat, NodeName>, planned: seq<NodeName>)
    requires planned != [] && Segment(c) && Segment(init) && |init| == |c| + |planned| - 1
    requires Follows(c, init, planned[..|planned| - 1])
    ensures Follows(c, Append(init, planned[|planned| - 1]), planned)
  {
    var c' := Append(init, planned[|planned| - 1]);
    forall i | i in c'
      ensures FollowsAt(c, c'[i], planned, i)
    {
      if i != |init| {
        assert FollowsAt(c, init[i], planned[..|planned| - 1], i);
      }
    }
  }

  lemma {:induction false} ExtendedShape(c: map<nat, NodeName>, planned: seq<NodeName>)
    requires Segment(c)
    ensures Segment(Extended(c, planned)) && |Extended(c, planned)| == |c| + |planned|
    ensures Follows(c, Extended(c, planned), planned)
    decreases |planned|
  {
    ExtendedSize(c, planned);
    if planned == [] {
      FollowsItself(c);
    } else {
      var last := |planned| - 1;
      ExtendedShape(c, planned[..last]);
      FollowsOneMore(c, Extended(c, planned[..last]), planned);
    }
  }

  lemma FollowsItself(c: map<nat, NodeName>)
    ensures Follows(c, c, [])
  {
  }

  // ----- One scale-up or several

  /** Pins after appending a plan: those there were plus what the plan gives. */
  lemma {:induction false} OwnAfterPlan(c: map<nat, NodeName>, planned: seq<NodeName>, node: NodeName)
    requires Segment(c)
    ensures OwnCount(Extended(c, planned), node) == OwnCount(c, node) + multiset(planned)[node]
    decreases |planned|
  {
    if planned != [] {
      var last := |planned| - 1;
      var init := Extended(c, planned[..last]);
      OwnAfterPlan(c, planned[..last], node);
      ExtendedSize(c, planned[..last]);
      OneMoreOwn(init, |init|, planned[last], node);
      assert planned == planned[..last] + [planned[last]];
    }
  }

  /** After a plan is pinned, the controller's candidates are the planner's simulated ones. */
  lemma HealthyAfterPlan(c: map<nat, NodeName>, e: Env, slots: nat, pick: Selector)
    requires Segment(c) && DistinctNames(e.candidates)
    ensures Healthy(Extended(c, Plan(slots, Healthy(c, e), pick)), e) == Grown(slots, Healthy(c, e), pick)
  {
    var planned := Plan(slots, Healthy(c, e), pick);
    var c' := Extended(c, planned);
    var kept, own, own' := KeepHealthy(e.candidates, e), OwnCounts(c), OwnCounts(c');
    HealthyIsFolded(e.candidates, own, e);
    HealthyIsFolded(e.candidates, own', e);
    HealthyIsDistinct(e.candidates, e);
    forall n
      ensures CountAt(own', n) == CountAt(own, n) + multiset(planned)[n]
    {
      OwnAfterPlan(c, planned, n);
      OwnCountsAt(c, n);
      OwnCountsAt(c', n);
    }
    GrownIsRefolded(kept, own, own', e.derivedWarmth, slots, pick);
  }

  lemma SameHealthy(c: map<nat, NodeName>, e: Env, e': Env)
    requires SamePlanning(e, e')
    ensures Healthy(c, e) == Healthy(c, e')
  {
    SameKept(FoldAll(e.candidates, OwnCounts(c), e.derivedWarmth), e, e');
  }

  lemma {:induction false} SameKept(cs: seq<Candidate>, e: Env, e': Env)
    requires SamePlanning(e, e')
    ensures KeepHealthy(cs, e) == KeepHealthy(cs, e')
  {
    if cs != [] {
      SameKept(cs[1..], e, e');
    }
  }

  /** What a reconcile makes of the candidates, given the pins. */
  type View = map<nat, NodeName> -> seq<Candidate>

  function ViewOf(e: Env): View {
    c => Healthy(c, e)
  }

  /** One more slot, on the node chosen once the others are pinned. */
  function Grower(view: View, pick: Selector): map<nat, NodeName> -> map<nat, NodeName> {
    c => match ChosenName(view(c), pick)
      case Some(node) => Append(c, node)
      case None => c
  }

  function Iterate<T>(x: T, times: nat, f: T -> T): T {
    if times == 0 then x else f(Iterate(x, times - 1, f))
  }

  lemma {:induction false} IterateTwice<T>(x: T, a: nat, b: nat, f: T -> T)
    ensures Iterate(Iterate(x, a, f), b, f) == Iterate(x, a + b, f)
  {
    if b > 0 {
      IterateTwice(x, a, b - 1, f);
    }
  }

  lemma {:induction false} IterateFixed<T>(x: T, a: nat, f: T -> T)
    requires f(x) == x
    ensures Iterate(x, a, f) == x
  {
    if a > 0 {
      IterateFixed(x, a - 1, f);
    }
  }

  /** The planner simulates what the view will show once its plan is pinned. */
  ghost predicate Foresees(c: map<nat, NodeName>, view: View, pick: Selector) {
    forall k: nat {:trigger Plan(k, view(c), pick)} ::
      view(Extended(c, Plan(k, view(c), pick))) == Grown(k, view(c), pick)
  }

  lemma PlanEnds(slots: nat, cs: seq<Candidate>, pick: Selector)
    requires cs != [] && Decisive(pick)
    ensures ChosenName(Grown(slots, cs, pick), pick).Some?
    ensures Plan(slots + 1, cs, pick) == Plan(slots, cs, pick) + [ChosenName(Grown(slots, cs, pick), pick).value]
  {
    PlanSplits(slots, 1, cs, pick);
    OneSlot(Grown(slots, cs, pick), pick);
  }

  lemma OneSlot(cs: seq<Candidate>, pick: Selector)
    requires cs != [] && Decisive(pick)
    ensures ChosenName(cs, pick).Some? && Plan(1, cs, pick) == [ChosenName(cs, pick).value]
  {
    assert Plan(0, LoadFirst(cs, ChosenName(cs, pick).value), pick) == [];
  }

  lemma ExtendedOneMore(c: map<nat, NodeName>, planned: seq<NodeName>, node: NodeName)
    ensures Same(Extended(c, planned + [node]), Append(Extended(c, planned), node))
  {
    assert (planned + [node])[..|planned|] == planned;
  }

  lemma GrowsOnto(c: map<nat, NodeName>, view: View, pick: Selector, cs: seq<Candidate>)
    requires view(c) == cs && ChosenName(cs, pick).Some?
    ensures Same(Grower(view, pick)(c), Append(c, ChosenName(cs, pick).value))
  {
  }

  lemma SeenAfterPlan(c: map<nat, NodeName>, k: nat, view: View, pick: Selector)
    requires Foresees(c, view, pick)
    ensures view(Extended(c, Plan(k, view(c), pick))) == Grown(k, view(c), pick)
  {
  }

  lemma PlanGrowsNext(c: map<nat, NodeName>, k: nat, view: View, pick: Selector, c': map<nat, NodeName>)
    requires Foresees(c, view, pick) && Decisive(pick) && view(c) != [] && Same(c', Extended(c, Plan(k, view(c), pick)))
    ensures Same(Extended(c, Plan(k + 1, view(c), pick)), Grower(view, pick)(c'))
  {
    var cs := view(c);
    SeenAfterPlan(c, k, view, pick);
    PlanEnds(k, cs, pick);
    ExtendedOneMore(c, Plan(k, cs, pick), ChosenName(Grown(k, cs, pick), pick).value);
    GrowsOnto(c', view, pick, Grown(k, cs, pick));
  }

  /** Pinning one plan is growing slot by slot. */
  lemma {:induction false} PlanGrows(c: map<nat, NodeName>, slots: nat, view: View, pick: Selector)
    requires Foresees(c, view, pick) && Decisive(pick) && view(c) != []
    ensures Same(Extended(c, Plan(slots, view(c), pick)), Iterate(c, slots, Grower(view, pick)))
    decreases slots
  {
    if slots > 0 {
      PlanGrows(c, slots - 1, view, pick);
      PlanGrowsNext(c, slots - 1, view, pick, Iterate(c, slots - 1, Grower(view, pick)));
    }
  }

  lemma ExtendedByPlan(c: map<nat, NodeName>, slots: nat, view: View, pick: Selector)
    requires Foresees(c, view, pick) && Decisive(pick)
    ensures Same(Extended(c, Plan(slots, view(c), pick)), Iterate(c, slots, Grower(view, pick)))
  {
    if view(c) == [] {
      IterateFixed(c, slots, Grower(view, pick));
      PlanIsComplete(slots, [], pick);
    } else {
      PlanGrows(c, slots, view, pick);
    }
  }

  lemma GrownSize(c: map<nat, NodeName>, slots: nat, view: View, pick: Selector)
    requires Segment(c) && Decisive(pick)
    ensures Segment(Extended(c, Plan(slots, view(c), pick)))
    ensures |Extended(c, Plan(slots, view(c), pick))| <= |c| + slots
    ensures |Extended(c, Plan(slots, view(c), pick))| == |c| + slots || Grower(view, pick)(c) == c
  {
    PlanIsComplete(slots, view(c), pick);
    ExtendedSize(c, Plan(slots, view(c), pick));
  }

  /** Growing to one size and then to a larger one is growing to the larger one at once. */
  lemma GrowTwice(c: map<nat, NodeName>, c1: map<nat, NodeName>, n: nat, n': nat,
                  f: map<nat, NodeName> -> map<nat, NodeName>)
    requires |c| <= n <= n' && c1 == Iterate(c, n - |c|, f)
    requires |c1| == n || f(c) == c
    ensures |c1| <= n' && Iterate(c1, n' - |c1|, f) == Iterate(c, n' - |c|, f)
  {
    if f(c) == c {
      IterateFixed(c, n - |c|, f);
    } else {
      IterateTwice(c, n - |c|, n' - n, f);
    }
  }

  // ----- Steps that grow

  lemma EveryPlanIsForeseen(c: map<nat, NodeName>, e: Env, pick: Selector)
    requires Segment(c) && DistinctNames(e.candidates)
    ensures Foresees(c, ViewOf(e), pick)
  {
    var view := ViewOf(e);
    forall k: nat
      ensures view(Extended(c, Plan(k, view(c), pick))) == Grown(k, view(c), pick)
    {
      HealthyAfterPlan(c, e, k, pick);
    }
  }

  /** The pins that follow c when the plan for so many slots is pinned. */
  ghost predicate Grows(c: map<nat, NodeName>, c1: map<nat, NodeName>, slots: nat,
                        f: map<nat, NodeName> -> map<nat, NodeName>) {
    Same(c1, Iterate(c, slots, f)) && (|c1| == |c| + slots || Same(f(c), c))
  }

  lemma PinnedPlanGrows(c: map<nat, NodeName>, c1: map<nat, NodeName>, slots: nat, e: Env, pick: Selector)
    requires Segment(c) && DistinctNames(e.candidates) && Decisive(pick)
    requires Same(c1, Extended(c, Plan(slots, Healthy(c, e), pick)))
    ensures Grows(c, c1, slots, Grower(ViewOf(e), pick))
  {
    EveryPlanIsForeseen(c, e, pick);
    ExtendedByPlan(c, slots, ViewOf(e), pick);
    GrownSize(c, slots, ViewOf(e), pick);
  }

  lemma PickIsDecisive(e: Env)
    requires IsFull(e)
    ensures Decisive(Pick(e))
  {
    StrategyPicksFewest(e.strategy, e.horizon);
  }

  lemma GrownStaysPut(c: map<nat, NodeName>, planned: seq<NodeName>, e: Env)
    requires Segment(c) && DisplacedSlots(c, e.displaced) == {}
    requires forall k :: 0 <= k < |planned| ==> planned[k] !in e.displaced
    ensures DisplacedSlots(Extended(c, planned), e.displaced) == {}
  {
    ExtendedShape(c, planned);
    forall i | i in Extended(c, planned)
      ensures Extended(c, planned)[i] !in e.displaced
    {
      assert FollowsAt(c, Extended(c, planned)[i], planned, i);
      assert i in c ==> i !in DisplacedSlots(c, e.displaced);
    }
  }

  /** A run of full reconciles that read the same nodes and only ever grow the fleet. */
  ghost predicate GrowingRun(c: map<nat, NodeName>, es: seq<Env>) {
    && es != [] && OnlyGrows(c, es[0])
    && (forall k :: 0 <= k < |es| ==> IsFull(es[k]) && DistinctNames(es[k].candidates))
    && (forall k :: 0 <= k < |es| ==> SamePlanning(es[0], es[k]))
    && (forall k, l :: 0 <= k < l < |es| ==> Desired(es[k]) <= Desired(es[l]))
  }

  lemma PlannedSize(c: map<nat, NodeName>, n: nat, e: Env, pick: Selector)
    requires Segment(c) && |c| <= n && Decisive(pick)
    ensures Segment(Planned(c, n, e, pick)) && |Planned(c, n, e, pick)| <= n
  {
    GrownSize(c, n - |c|, ViewOf(e), pick);
  }

  lemma PlannedGrows(c: map<nat, NodeName>, c1: map<nat, NodeName>, n: nat, e: Env, pick: Selector)
    requires Segment(c) && |c| <= n && DistinctNames(e.candidates) && Decisive(pick)
    requires Same(c1, Planned(c, n, e, pick))
    ensures Grows(c, c1, n - |c|, Grower(ViewOf(e), pick))
  {
    PinnedPlanGrows(c, c1, n - |c|, e, pick);
  }

  /** Growing to n and then to n' is growing to n', seen as iteration. */
  lemma MeetAbove(c: map<nat, NodeName>, c1: map<nat, NodeName>, n: nat, n': nat,
                  c2: map<nat, NodeName>, c3: map<nat, NodeName>,
                  f: map<nat, NodeName> -> map<nat, NodeName>)
    requires |c| <= n <= n' && Grows(c, c1, n - |c|, f) && |c1| <= n'
    requires Grows(c1, c2, n' - |c1|, f) && Grows(c, c3, n' - |c|, f)
    ensures Same(c2, c3)
  {
    GrowTwice(c, c1, n, n', f);
  }

  lemma PlannedAlike(c: map<nat, NodeName>, n: nat, e: Env, e': Env, pick: Selector)
    requires SamePlanning(e, e') && |c| <= n
    ensures Same(Planned(c, n, e, pick), Planned(c, n, e', pick))
  {
    SameHealthy(c, e, e');
  }

  /** Pinning the plan for one size and then, on top of it, the plan for a
      larger one is pinning the plan for the larger one. */
  lemma PlanTwice(c: map<nat, NodeName>, n: nat, n': nat, e: Env, e': Env, pick: Selector)
    requires SamePlanning(e, e') && DistinctNames(e.candidates) && Decisive(pick)
    requires Segment(c) && |c| <= n <= n'
    ensures Segment(Planned(c, n, e, pick)) && |Planned(c, n, e, pick)| <= n'
    ensures Same(Planned(Planned(c, n, e, pick), n', e', pick), Planned(c, n', e', pick))
  {
    var c1, c3 := Planned(c, n, e, pick), Planned(c, n', e', pick);
    PlannedSize(c, n, e, pick);
    var c2 := Planned(c1, n', e', pick);
    PlannedAlike(c, n, e, e', pick);
    PlannedGrows(c, c1, n, e', pick);
    PlannedGrows(c, c3, n', e', pick);
    PlannedGrows(c1, c2, n', e', pick);
    MeetAbove(c, c1, n, n', c2, c3, Grower(ViewOf(e'), pick));
  }

  lemma PlannedStaysPut(c: map<nat, NodeName>, n: nat, e: Env, pick: Selector)
    requires Segment(c) && |c| <= n && DisplacedSlots(c, e.displaced) == {} && Decisive(pick)
    ensures DisplacedSlots(Planned(c, n, e, pick), e.displaced) == {}
  {
    var healthy := Healthy(c, e);
    var planned := Plan(n - |c|, healthy, pick);
    PlanIsComplete(n - |c|, healthy, pick);
    forall k | 0 <= k < |planned|
      ensures planned[k] !in e.displaced
    {
      PlanChoice(n - |c|, k, healthy, pick);
      HealthyAt(c, e, Choice(Grown(k, healthy, pick), pick).value);
    }
    GrownStaysPut(c, planned, e);
  }

  /** A second growing reconcile ends where it would have ended alone. */
  lemma GrowingTwice(s: State, s1: State, e: Env, e': Env)
    requires IsFull(e') && DistinctNames(e.candidates) && SamePlanning(e, e')
    requires OnlyGrows(s.children, e) && Desired(e) <= Desired(e')
    requires Same(s1.children, Planned(s.children, Desired(e), e, Pick(e')))
    ensures Same(Step(s1, e').children, Step(s, e').children)
  {
    PickIsDecisive(e');
    PlanTwice(s.children, Desired(e), Desired(e'), e, e', Pick(e'));
    PlannedStaysPut(s.children, Desired(e), e, Pick(e'));
    GrowingStep(s, e');
    GrowingStep(s1, e');
  }

  /** The last two reconciles of a growing run read alike and grow. */
  lemma LastTwo(c: map<nat, NodeName>, es: seq<Env>)
    requires GrowingRun(c, es) && |es| >= 2
    ensures var e, e' := es[|es| - 2], es[|es| - 1];
            && IsFull(e) && IsFull(e') && DistinctNames(e.candidates) && SamePlanning(e, e')
            && OnlyGrows(c, e) && Desired(e) <= Desired(e')
  {
    assert SamePlanning(es[0], es[|es| - 2]) && SamePlanning(es[0], es[|es| - 1]);
    assert Desired(es[0]) <= Desired(es[|es| - 2]);
  }

  lemma GrowsOnce(s: State, s1: State, e: Env, e': Env)
    requires IsFull(e) && IsFull(e') && DistinctNames(e.candidates) && SamePlanning(e, e')
    requires OnlyGrows(s.children, e) && Desired(e) <= Desired(e')
    requires Same(s1.children, Step(s, e).children)
    ensures Same(Step(s1, e').children, Step(s, e').children)
  {
    GrowingStep(s, e);
    GrowingTwice(s, s1, e, e');
  }

  lemma ShorterRun(c: map<nat, NodeName>, es: seq<Env>)
    requires GrowingRun(c, es) && |es| >= 2
    ensures GrowingRun(c, es[..|es| - 1])
  {
  }

  lemma {:induction false} GrowingRunMeets(s: State, es: seq<Env>)
    requires GrowingRun(s.children, es)
    ensures Same(Run(s, es).children, Step(s, es[|es| - 1]).children)
    decreases |es|
  {
    RunLast(s, es);
    if |es| == 1 {
      assert Run(s, es[..0]) == s;
    } else {
      ShorterRun(s.children, es);
      GrowingRunMeets(s, es[..|es| - 1]);
      LastTwo(s.children, es);
      GrowsOnce(s, Run(s, es[..|es| - 1]), es[|es| - 2], es[|es| - 1]);
    }
  }

  /** However a scale-up is cut into reconciles, the pins are those of one
      reconcile straight to the last size. */
  lemma ScaleUpIsPathIndependent(s: State, es: seq<Env>)
    requires GrowingRun(s.children, es)
    ensures Run(s, es).children == Step(s, es[|es| - 1]).children
  {
    GrowingRunMeets(s, es);
  }
}
