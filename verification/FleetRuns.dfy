/** What every run of reconciles from an empty fleet keeps. */
module FleetRuns {
  import opened Prelude
  import opened FleetTypes
  import opened Slots
  import opened FleetStep

  lemma RunLast(s: State, es: seq<Env>)
    requires es != []
    ensures Same(Run(s, es), Step(Run(s, es[..|es| - 1]), es[|es| - 1]))
  {
  }

  // ----- Live slots are an initial segment

  /** Children are the slots 0 .. m-1. */
  ghost predicate Segment(children: map<nat, NodeName>) {
    forall i: nat :: i in children <==> i < |children|
  }

  /** The status records exactly the children, with their pins. */
  ghost predicate Faithful(s: State) {
    && s.status.Keys == s.children.Keys
    && forall i :: i in s.status ==> s.status[i].node == s.children[i] && s.status[i].phase != Preempted
  }

  /** Surplus counters never decrease with the slot. */
  ghost predicate SurplusAscending(status: map<nat, Entry>) {
    && (forall i :: i in status ==> 0 <= status[i].surplus <= I32_MAX)
    && (forall i, j :: i in status && j in status && i < j ==> status[i].surplus <= status[j].surplus)
  }

  ghost predicate Orderly(s: State) {
    Segment(s.children) && Faithful(s) && SurplusAscending(s.status)
  }

  /** Every missing slot gets a node, or none does for want of a healthy candidate. */
  ghost predicate AllOrNone(s: State, e: Env, d: Decision) {
    |d.freshNodes| == if d.target.Some? then |Missing(s.children, Desired(e))| else 0
  }

  /** How many slots are pinned in range after the step. */
  function PinnedCount(m: nat, desired: nat, placed: bool): nat {
    if m >= desired || placed then desired else m
  }

  lemma MissingIsInterval(children: map<nat, NodeName>, desired: nat)
    requires Segment(children)
    ensures Missing(children, desired) == Interval(|children|, desired)
    ensures |Missing(children, desired)| == Max(0, desired - |children|)
  {
    IntervalSize(|children|, desired);
  }

  /** The pin of one slot: the pin there was, replaced if moved, or the planned node in order. */
  lemma PinAt(s: State, e: Env, d: Decision, i: nat)
    requires Segment(s.children) && AllOrNone(s, e, d) && i < Desired(e)
    ensures i in NewPins(s, e, d) <==> i < PinnedCount(|s.children|, Desired(e), d.target.Some?)
    ensures i in NewPins(s, e, d) && |s.children| <= i ==>
      i - |s.children| < |d.freshNodes| && NewPins(s, e, d)[i] == d.freshNodes[i - |s.children|]
    ensures i < |s.children| && i !in Moved(s, e, d) ==> NewPins(s, e, d)[i] == s.children[i]
  {
    var m := |s.children|;
    MissingIsInterval(s.children, Desired(e));
    assert i in Interval(0, Desired(e));
    if m <= i {
      assert i !in s.children;
      RankInInterval(m, Desired(e), i);
    } else {
      assert i in s.children;
    }
  }

  lemma PinsAreSegment(s: State, e: Env, d: Decision)
    requires Segment(s.children) && AllOrNone(s, e, d)
    ensures NewPins(s, e, d).Keys == Interval(0, PinnedCount(|s.children|, Desired(e), d.target.Some?))
  {
    forall i: nat
      ensures i in NewPins(s, e, d) <==> i < PinnedCount(|s.children|, Desired(e), d.target.Some?)
    {
      if i < Desired(e) {
        PinAt(s, e, d, i);
      }
    }
  }

  lemma HeldHasNoGap(s: State, e: Env, i: nat, j: nat)
    requires s.status.Keys == s.children.Keys && Segment(s.children) && SurplusAscending(s.status)
    requires IsHeld(s, e, i) && Desired(e) <= j < i
    ensures IsHeld(s, e, j)
  {
    assert s.status[j].surplus <= s.status[i].surplus;
  }

  lemma HeldIsInterval(s: State, e: Env)
    requires s.status.Keys == s.children.Keys && Segment(s.children) && SurplusAscending(s.status)
    ensures HeldPins(s, e).Keys == Interval(Desired(e), Desired(e) + |HeldPins(s, e)|)
    ensures |s.children| <= Desired(e) ==> |HeldPins(s, e)| == 0
  {
    forall i, j | i in HeldPins(s, e).Keys && Desired(e) <= j < i
      ensures j in HeldPins(s, e).Keys
    {
      HeldHasNoGap(s, e, i, j);
    }
    NoGapIsInterval(HeldPins(s, e).Keys, Desired(e));
    if |s.children| <= Desired(e) {
      assert HeldPins(s, e).Keys == {};
    }
  }

  lemma EnactKeepsSegment(s: State, e: Env, d: Decision)
    requires s.status.Keys == s.children.Keys && Segment(s.children) && SurplusAscending(s.status)
    requires AllOrNone(s, e, d)
    ensures Segment(NewChildren(s, e, d))
    ensures |NewChildren(s, e, d)|
         == PinnedCount(|s.children|, Desired(e), d.target.Some?) + |HeldPins(s, e)|
  {
    var n := PinnedCount(|s.children|, Desired(e), d.target.Some?);
    PinsAreSegment(s, e, d);
    HeldIsInterval(s, e);
    JoinSegments(NewPins(s, e, d), HeldPins(s, e), n, Desired(e));
  }

  lemma JoinSegments(pins: map<nat, NodeName>, held: map<nat, NodeName>, n: nat, desired: nat)
    requires pins.Keys == Interval(0, n) && held.Keys == Interval(desired, desired + |held|)
    requires |held| == 0 || n == desired
    ensures Segment(pins + held) && |pins + held| == n + |held|
  {
    JoinIntervals(pins.Keys, held.Keys, n, desired, |held|);
    assert (pins + held).Keys == pins.Keys + held.Keys;
    assert |(pins + held).Keys| == |pins + held|;
  }

  lemma SurplusOfEntries(s: State, e: Env, children: map<nat, NodeName>, i: nat, j: nat)
    requires s.status.Keys == s.children.Keys && SurplusAscending(s.status)
    requires i in children && j in children && i < j
    requires j >= Desired(e) ==> IsHeld(s, e, j)
    requires i >= Desired(e) ==> IsHeld(s, e, i)
    ensures NewEntry(s, e, children[i], i).surplus <= NewEntry(s, e, children[j], j).surplus
  {
    if i >= Desired(e) {
      assert s.status[i].surplus <= s.status[j].surplus;
    }
  }

  lemma EnactKeepsSurplus(s: State, e: Env, d: Decision)
    requires s.status.Keys == s.children.Keys && SurplusAscending(s.status)
    ensures SurplusAscending(NewStatus(s, e, NewChildren(s, e, d)))
  {
    var c := NewChildren(s, e, d);
    var st := NewStatus(s, e, c);
    forall i, j | i in st && j in st && i < j
      ensures st[i].surplus <= st[j].surplus
    {
      SurplusOfEntries(s, e, c, i, j);
    }
  }

  lemma StatusIsFaithful(s: State, e: Env, children: map<nat, NodeName>)
    ensures NewStatus(s, e, children).Keys == children.Keys
    ensures forall i :: i in children ==>
      NewStatus(s, e, children)[i].node == children[i] && NewStatus(s, e, children)[i].phase != Preempted
  {
  }

  lemma EnactIsFaithful(s: State, e: Env, d: Decision)
    ensures Faithful(Enact(s, e, d))
  {
    StatusIsFaithful(s, e, NewChildren(s, e, d));
  }

  lemma EnactKeepsOrder(s: State, e: Env, d: Decision)
    requires Orderly(s) && AllOrNone(s, e, d)
    ensures Orderly(Enact(s, e, d))
  {
    EnactKeepsSegment(s, e, d);
    EnactKeepsSurplus(s, e, d);
    EnactIsFaithful(s, e, d);
  }

  lemma StepKeepsOrder(s: State, e: Env)
    requires Orderly(s)
    ensures Orderly(Step(s, e))
  {
    if IsFull(e) {
      DecisionIsSound(s, e);
      EnactKeepsOrder(s, e, Decide(s, e));
    }
  }

  /** In every run from an empty fleet the live slots are 0 .. m-1, whatever
      the desired counts, hysteresis, displaced nodes and candidates were. */
  lemma {:induction false} RunKeepsOrder(es: seq<Env>)
    ensures Orderly(Run(EMPTY_FLEET, es))
    decreases |es|
  {
    if es != [] {
      RunKeepsOrder(es[..|es| - 1]);
      StepKeepsOrder(Run(EMPTY_FLEET, es[..|es| - 1]), es[|es| - 1]);
    }
  }

  /** So no reconcile both creates a slot and holds or deletes a surplus one. */
  lemma NeverCreatesBesideSurplus(es: seq<Env>, e: Env, i: nat, j: nat)
    requires i !in Run(EMPTY_FLEET, es).children && i in Step(Run(EMPTY_FLEET, es), e).children
    requires j in Run(EMPTY_FLEET, es).children
    ensures j < i && j < Desired(e) && j in Step(Run(EMPTY_FLEET, es), e).children
  {
    RunKeepsOrder(es);
    StepCreatesAbove(Run(EMPTY_FLEET, es), e, i, j);
  }

  lemma StepCreatesAbove(s: State, e: Env, i: nat, j: nat)
    requires Segment(s.children) && i !in s.children && i in Step(s, e).children && j in s.children
    ensures j < i && j < Desired(e) && j in Step(s, e).children
  {
    assert IsFull(e);
    DecisionIsSound(s, e);
    CreatesOnlyWhenShort(s, e, Decide(s, e), i);
    PinAt(s, e, Decide(s, e), j);
  }

  lemma CreatesOnlyWhenShort(s: State, e: Env, d: Decision, i: nat)
    requires Segment(s.children) && AllOrNone(s, e, d)
    requires i !in s.children && i in NewChildren(s, e, d)
    ensures |s.children| <= i < Desired(e)
  {
  }

  // ----- Deletion happens exactly when due

  /** An early return changes neither children nor placements. */
  lemma EarlyReturnStutters(s: State, e: Env)
    requires !IsFull(e)
    ensures Step(s, e).children == s.children && Step(s, e).status == s.status
    ensures Step(s, e).report == s.report.(phase := Step(s, e).report.phase, desired := Step(s, e).report.desired,
                                           message := Step(s, e).report.message)
    ensures s.report.phase.Some? ==>
      Step(s, e).report.phase == s.report.phase && Step(s, e).report.desired == s.report.desired
  {
  }

  /** Length of the unbroken run of full reconciles, up to the last one of the
      history, in which slot i was live and beyond the desired count. Early
      returns neither extend nor end it. */
  ghost function Streak(es: seq<Env>, i: nat): nat {
    if es == [] then 0
    else
      var before, e := es[..|es| - 1], es[|es| - 1];
      if !IsFull(e) then Streak(before, i)
      else if i in Run(EMPTY_FLEET, before).children && i >= Desired(e) then Streak(before, i) + 1
      else 0
  }

  /** One step of the counter. */
  lemma CounterStep(s: State, e: Env, i: nat, streak: nat)
    requires s.status.Keys == s.children.Keys && i in Step(s, e).children
    requires i in s.children ==> s.status[i].surplus == Min(streak, I32_MAX)
    ensures i in Step(s, e).status
    ensures Step(s, e).status[i].surplus
         == Min(if !IsFull(e) then streak else if i in s.children && i >= Desired(e) then streak + 1 else 0, I32_MAX)
  {
    if IsFull(e) {
      EntryAfter(s, e, Decide(s, e), i);
    }
  }

  /** The persisted counter is the streak, saturating at the 32-bit maximum. */
  lemma {:induction false} CounterIsStreak(es: seq<Env>, i: nat)
    requires i in Run(EMPTY_FLEET, es).children
    ensures i in Run(EMPTY_FLEET, es).status
    ensures Run(EMPTY_FLEET, es).status[i].surplus == Min(Streak(es, i), I32_MAX)
    decreases |es|
  {
    if es != [] {
      var before, e := es[..|es| - 1], es[|es| - 1];
      var s := Run(EMPTY_FLEET, before);
      RunStatusKeys(before);
      if i in s.children {
        CounterIsStreak(before, i);
        CounterStep(s, e, i, Streak(before, i));
      } else {
        CounterStep(s, e, i, 0);
      }
    }
  }

  lemma RunStatusKeys(es: seq<Env>)
    ensures Run(EMPTY_FLEET, es).status.Keys == Run(EMPTY_FLEET, es).children.Keys
  {
    RunKeepsOrder(es);
  }

  lemma EntryAfter(s: State, e: Env, d: Decision, i: nat)
    requires i in Enact(s, e, d).children
    ensures i in Enact(s, e, d).status
    ensures i < Desired(e) ==> Enact(s, e, d).status[i].surplus == 0
    ensures i >= Desired(e) ==>
      IsHeld(s, e, i) && Enact(s, e, d).status[i].surplus == Min(Max(PrevSurplus(s, i), 0) + 1, I32_MAX)
  {
  }

  /** Holding, from the streak the counter stands for. */
  lemma HeldByStreak(s: State, e: Env, i: nat, streak: nat)
    requires i in s.children && i in s.status && s.status[i].surplus == Min(streak, I32_MAX) && i >= Desired(e)
    ensures IsHeld(s, e, i) <==> e.required > 0 && streak + 1 < e.required
  {
  }

  lemma StreakGrows(es: seq<Env>, e: Env, i: nat)
    requires IsFull(e) && i in Run(EMPTY_FLEET, es).children && i >= Desired(e)
    ensures Streak(es + [e], i) == Streak(es, i) + 1
  {
    assert (es + [e])[..|es|] == es;
  }

  lemma LiveSurvivesIff(s: State, e: Env, i: nat)
    requires IsFull(e) && Segment(s.children) && i in s.children
    ensures i in Step(s, e).children <==> i < Desired(e) || IsHeld(s, e, i)
  {
    DecisionIsSound(s, e);
    SurvivesIff(s, e, Decide(s, e), i);
  }

  /** A live slot is deleted by a full reconcile if and only if it is beyond the
      desired count and its streak, this reconcile included, has reached the
      required length; at once when that length is not positive. */
  lemma DeletedExactlyWhenDue(es: seq<Env>, e: Env, i: nat)
    requires IsFull(e) && i in Run(EMPTY_FLEET, es).children
    ensures i !in Step(Run(EMPTY_FLEET, es), e).children
       <==> i >= Desired(e) && (e.required <= 0 || Streak(es + [e], i) >= e.required)
  {
    CounterIsStreak(es, i);
    RunKeepsOrder(es);
    LiveSurvivesIff(Run(EMPTY_FLEET, es), e, i);
    if i >= Desired(e) {
      HeldByStreak(Run(EMPTY_FLEET, es), e, i, Streak(es, i));
      StreakGrows(es, e, i);
    }
  }

  lemma SurvivesIff(s: State, e: Env, d: Decision, i: nat)
    requires i in s.children && Segment(s.children) && AllOrNone(s, e, d)
    ensures i in NewChildren(s, e, d) <==> i < Desired(e) || IsHeld(s, e, i)
  {
    if i < Desired(e) {
      assert i in Interval(0, |s.children|);
      PinAt(s, e, d, i);
    }
  }
}
