/** Replicas stay spread over the healthy nodes, through scaling up and down. */
module FleetSpread {
  import opened FleetTypes
  import opened Placement
  import opened Planning
  import opened Slots
  import opened FleetStep
  import opened FleetRuns
  import opened FleetStatus

  /** Slots below k pinned to the node. */
  function PrefixCount(children: map<nat, NodeName>, k: nat, node: NodeName): nat {
    if k == 0 then 0
    else PrefixCount(children, k - 1, node) + if k - 1 in children && children[k - 1] == node then 1 else 0
  }

  /** Every slot sits on one of these nodes, and on one that, among the slots
      before it, had the fewest. */
  ghost predicate Levelled(children: map<nat, NodeName>, nodes: set<NodeName>) {
    && Segment(children)
    && forall i {:trigger LevelAt(children, nodes, i)} :: i in children ==> LevelAt(children, nodes, i)
  }

  ghost predicate LevelAt(children: map<nat, NodeName>, nodes: set<NodeName>, i: nat) {
    && i in children && children[i] in nodes
    && forall n :: n in nodes ==> PrefixCount(children, i, children[i]) <= PrefixCount(children, i, n)
  }

  // ----- Levelled pins are spread

  lemma OneMoreLevel(children: map<nat, NodeName>, nodes: set<NodeName>, k: nat, a: NodeName, b: NodeName)
    requires LevelAt(children, nodes, k) && a in nodes && b in nodes
    requires PrefixCount(children, k, a) <= PrefixCount(children, k, b) + 1
    ensures PrefixCount(children, k + 1, a) <= PrefixCount(children, k + 1, b) + 1
  {
    assert PrefixCount(children, k, children[k]) <= PrefixCount(children, k, b);
  }

  /** Every prefix of the slots is spread: any two nodes differ by at most one. */
  lemma {:induction false} LevelledIsSpread(children: map<nat, NodeName>, nodes: set<NodeName>, k: nat, a: NodeName,
                                            b: NodeName)
    requires Levelled(children, nodes) && k <= |children| && a in nodes && b in nodes
    ensures PrefixCount(children, k, a) <= PrefixCount(children, k, b) + 1
  {
    if k > 0 {
      LevelledIsSpread(children, nodes, k - 1, a, b);
      assert LevelAt(children, nodes, k - 1);
      OneMoreLevel(children, nodes, k - 1, a, b);
    }
  }

  lemma {:induction false} PrefixIsOwn(children: map<nat, NodeName>, k: nat, node: NodeName)
    ensures PrefixCount(children, k, node) == |Below(OwnSlots(children, node), k)|
  {
    if k == 0 {
      assert Below(OwnSlots(children, node), 0) == {};
    } else {
      PrefixIsOwn(children, k - 1, node);
      RankNext(OwnSlots(children, node), k - 1);
    }
  }

  lemma WholeIsOwn(children: map<nat, NodeName>, node: NodeName)
    requires Segment(children)
    ensures PrefixCount(children, |children|, node) == OwnCount(children, node)
  {
    PrefixIsOwn(children, |children|, node);
    assert Below(OwnSlots(children, node), |children|) == OwnSlots(children, node);
  }

  // ----- A step keeps pins levelled

  function HealthyNames(e: Env): set<NodeName> {
    set c | c in e.candidates && IsHealthy(c.name, e) :: c.name
  }

  /** Without a displaced pin the new pins are the old ones, then the planned nodes. */
  lemma PinsAfter(s: State, e: Env, d: Decision, i: nat)
    requires Segment(s.children) && AllOrNone(s, e, d) && i in NewChildren(s, e, d)
    requires DisplacedSlots(s.children, e.displaced) == {}
    ensures i in s.children ==> NewChildren(s, e, d)[i] == s.children[i]
    ensures i !in s.children ==>
      && |s.children| <= i < Desired(e) && i - |s.children| < |d.freshNodes|
      && NewChildren(s, e, d)[i] == d.freshNodes[i - |s.children|]
      && Rank(Missing(s.children, Desired(e)), i) == i - |s.children|
  {
    if i < Desired(e) {
      PinAt(s, e, d, i);
      if i !in s.children {
        assert i in Interval(|s.children|, Desired(e));
        MissingIsInterval(s.children, Desired(e));
        RankInInterval(|s.children|, Desired(e), i);
      }
    }
  }

  /** Pins after a step without displaced pins: those there were, then planned nodes in order. */
  ghost predicate Follows(c: map<nat, NodeName>, c': map<nat, NodeName>, planned: seq<NodeName>) {
    forall i {:trigger FollowsAt(c, c'[i], planned, i)} :: i in c' ==> FollowsAt(c, c'[i], planned, i)
  }

  ghost predicate FollowsAt(c: map<nat, NodeName>, node: NodeName, planned: seq<NodeName>, i: nat) {
    if i in c then node == c[i]
    else |c| <= i && i - |c| < |planned| && node == planned[i - |c|]
  }

  lemma StepFollowsAt(s: State, e: Env, d: Decision, i: nat)
    requires Segment(s.children) && AllOrNone(s, e, d) && i in NewChildren(s, e, d)
    requires DisplacedSlots(s.children, e.displaced) == {}
    ensures FollowsAt(s.children, NewChildren(s, e, d)[i], d.freshNodes, i)
  {
    PinsAfter(s, e, d, i);
  }

  lemma StepFollows(s: State, e: Env, d: Decision)
    requires Segment(s.children) && AllOrNone(s, e, d)
    requires DisplacedSlots(s.children, e.displaced) == {}
    ensures Follows(s.children, NewChildren(s, e, d), d.freshNodes)
  {
    forall i | i in NewChildren(s, e, d)
      ensures FollowsAt(s.children, NewChildren(s, e, d)[i], d.freshNodes, i)
    {
      StepFollowsAt(s, e, d, i);
    }
  }

  /** Old slots are counted as before. */
  lemma {:induction false} PrefixKept(c: map<nat, NodeName>, c': map<nat, NodeName>, planned: seq<NodeName>, k: nat,
                                      node: NodeName)
    requires Segment(c) && Segment(c') && Follows(c, c', planned) && k <= |c| && k <= |c'|
    ensures PrefixCount(c', k, node) == PrefixCount(c, k, node)
  {
    if k > 0 {
      PrefixKept(c, c', planned, k - 1, node);
      assert k - 1 in c && k - 1 in c';
      assert FollowsAt(c, c'[k - 1], planned, k - 1);
    }
  }

  /** Counting the slots below i when those from m on are the planned nodes. */
  lemma {:induction false} PlannedOnTop(c': map<nat, NodeName>, m: nat, planned: seq<NodeName>, i: nat, node: NodeName)
    requires m <= i && i - m <= |planned|
    requires forall j: nat :: m <= j < i ==> j in c' && c'[j] == planned[j - m]
    ensures PrefixCount(c', i, node) == LoadBefore(PrefixCount(c', m, node), planned, i - m, node)
    decreases i
  {
    if i > m {
      PlannedOnTop(c', m, planned, i - 1, node);
      assert i - 1 in c';
    }
  }

  lemma PlannedSlotAt(c: map<nat, NodeName>, c': map<nat, NodeName>, planned: seq<NodeName>, j: nat)
    requires Segment(c) && Segment(c') && Follows(c, c', planned) && |c| <= j < |c'|
    ensures j in c' && j - |c| < |planned| && c'[j] == planned[j - |c|]
  {
    assert j in c' && j !in c;
    assert FollowsAt(c, c'[j], planned, j);
  }

  lemma PlannedSlots(c: map<nat, NodeName>, c': map<nat, NodeName>, planned: seq<NodeName>, i: nat)
    requires Segment(c) && Segment(c') && Follows(c, c', planned) && i <= |c'| && i - |c| <= |planned|
    ensures forall j: nat :: |c| <= j < i ==> j in c' && c'[j] == planned[j - |c|]
  {
    forall j: nat | |c| <= j < i
      ensures j in c' && c'[j] == planned[j - |c|]
    {
      PlannedSlotAt(c, c', planned, j);
    }
  }

  lemma OldSlotsCounted(c: map<nat, NodeName>, c': map<nat, NodeName>, planned: seq<NodeName>, node: NodeName)
    requires Segment(c) && Segment(c') && Follows(c, c', planned) && |c| <= |c'|
    ensures PrefixCount(c', |c|, node) == OwnCount(c, node)
  {
    PrefixKept(c, c', planned, |c|, node);
    WholeIsOwn(c, node);
  }

  /** Counting the slots below i after a scale-up: the pins there were and the
      planned nodes before this one. */
  lemma PrefixWithPlanned(c: map<nat, NodeName>, c': map<nat, NodeName>, planned: seq<NodeName>, i: nat,
                          node: NodeName)
    requires Segment(c) && Segment(c') && Follows(c, c', planned) && |c| <= i <= |c'| && i - |c| <= |planned|
    ensures PrefixCount(c', i, node) == LoadBefore(OwnCount(c, node), planned, i - |c|, node)
  {
    OldSlotsCounted(c, c', planned, node);
    PlannedSlots(c, c', planned, i);
    PlannedOnTop(c', |c|, planned, i, node);
  }

  /** On a node with the fewest replicas when it was planned, a fresh pin is level. */
  lemma FreshIsLevel(c: map<nat, NodeName>, c': map<nat, NodeName>, planned: seq<NodeName>, nodes: set<NodeName>,
                     i: nat)
    requires Segment(c) && Segment(c') && Follows(c, c', planned)
    requires |c| <= i && i in c' && c'[i] in nodes && i - |c| < |planned|
    requires forall n :: n in nodes ==> PlannedFewest(c, planned, i - |c|, c'[i], n)
    ensures LevelAt(c', nodes, i)
  {
    forall n | n in nodes
      ensures PrefixCount(c', i, c'[i]) <= PrefixCount(c', i, n)
    {
      assert PlannedFewest(c, planned, i - |c|, c'[i], n);
      PrefixWithPlanned(c, c', planned, i, c'[i]);
      PrefixWithPlanned(c, c', planned, i, n);
    }
  }

  ghost predicate PlannedFewest(c: map<nat, NodeName>, planned: seq<NodeName>, k: nat, node: NodeName,
                                other: NodeName) {
    && k < |planned|
    && LoadBefore(OwnCount(c, node), planned, k, node) <= LoadBefore(OwnCount(c, other), planned, k, other)
  }

  lemma FullStepFollows(s: State, e: Env)
    requires IsFull(e) && Segment(s.children) && DisplacedSlots(s.children, e.displaced) == {}
    ensures Follows(s.children, Step(s, e).children, Decide(s, e).freshNodes)
  {
    DecisionIsSound(s, e);
    StepFollows(s, e, Decide(s, e));
  }

  lemma FreshRank(s: State, e: Env, i: nat)
    requires IsFull(e) && Segment(s.children) && DisplacedSlots(s.children, e.displaced) == {}
    requires i !in s.children && i in Step(s, e).children
    ensures |s.children| <= i && i - |s.children| < |Decide(s, e).freshNodes|
    ensures Rank(Missing(s.children, Desired(e)), i) == i - |s.children|
  {
    DecisionIsSound(s, e);
    PinsAfter(s, e, Decide(s, e), i);
  }

  lemma FreshPinIsLevel(s: State, e: Env, i: nat)
    requires IsFull(e) && Segment(s.children) && DistinctNames(e.candidates)
    requires DisplacedSlots(s.children, e.displaced) == {}
    requires i !in s.children && i in Step(s, e).children && Segment(Step(s, e).children)
    ensures LevelAt(Step(s, e).children, HealthyNames(e), i)
  {
    FullStepFollows(s, e);
    FreshRank(s, e, i);
    FreshPinIsHealthy(s, e, i);
    forall n | n in HealthyNames(e)
      ensures PlannedFewest(s.children, Decide(s, e).freshNodes, i - |s.children|, Step(s, e).children[i], n)
    {
      var c :| c in e.candidates && IsHealthy(c.name, e) && c.name == n;
      FreshPinHasFewest(s, e, i, c);
    }
    FreshIsLevel(s.children, Step(s, e).children, Decide(s, e).freshNodes, HealthyNames(e), i);
  }

  lemma FreshPinIsHealthy(s: State, e: Env, i: nat)
    requires IsFull(e) && i !in s.children && i in Step(s, e).children && DistinctNames(e.candidates)
    ensures Step(s, e).children[i] in HealthyNames(e)
  {
    var d := Decide(s, e);
    DecisionIsSound(s, e);
    FreshPinAt(s, e, d, i);
    var k := Rank(Missing(s.children, Desired(e)), i);
    var healthy := Healthy(s.children, e);
    StrategyPicksFewest(e.strategy, e.horizon);
    PlanChoice(|Missing(s.children, Desired(e))|, k, healthy, Pick(e));
    HealthyMember(s.children, e, Choice(Grown(k, healthy, Pick(e)), Pick(e)).value);
  }

  lemma StepKeepsLevel(s: State, e: Env, nodes: set<NodeName>)
    requires IsFull(e) && Orderly(s) && Levelled(s.children, nodes)
    requires HealthyNames(e) == nodes && DistinctNames(e.candidates)
    ensures Levelled(Step(s, e).children, nodes)
  {
    var c' := Step(s, e).children;
    StepKeepsOrder(s, e);
    assert DisplacedSlots(s.children, e.displaced) == {} by {
      forall i | i in s.children
        ensures s.children[i] !in e.displaced
      {
        assert LevelAt(s.children, nodes, i);
      }
    }
    DecisionIsSound(s, e);
    forall i | i in c'
      ensures LevelAt(c', nodes, i)
    {
      if i in s.children {
        assert LevelAt(s.children, nodes, i);
        OldPinStaysLevel(s, e, nodes, i);
      } else {
        FreshPinIsLevel(s, e, i);
      }
    }
  }

  lemma OldPinStaysLevel(s: State, e: Env, nodes: set<NodeName>, i: nat)
    requires IsFull(e) && Segment(s.children) && LevelAt(s.children, nodes, i)
    requires DisplacedSlots(s.children, e.displaced) == {}
    requires i in Step(s, e).children && Segment(Step(s, e).children)
    ensures LevelAt(Step(s, e).children, nodes, i)
  {
    var c' := Step(s, e).children;
    FullStepFollows(s, e);
    assert FollowsAt(s.children, c'[i], Decide(s, e).freshNodes, i);
    SameLevel(s.children, c', Decide(s, e).freshNodes, nodes, i);
  }

  lemma SameLevel(c: map<nat, NodeName>, c': map<nat, NodeName>, planned: seq<NodeName>, nodes: set<NodeName>, i: nat)
    requires Segment(c) && Segment(c') && Follows(c, c', planned) && LevelAt(c, nodes, i)
    requires i in c' && c'[i] == c[i]
    ensures LevelAt(c', nodes, i)
  {
    forall n | n in nodes
      ensures PrefixCount(c', i, c'[i]) <= PrefixCount(c', i, n)
    {
      PrefixKept(c, c', planned, i, n);
      PrefixKept(c, c', planned, i, c[i]);
    }
  }

  // ----- Along runs

  /** Every full reconcile of the run finds the same healthy node names, each
      listed once; everything else may vary. */
  ghost predicate SameHealthyNodes(es: seq<Env>, nodes: set<NodeName>) {
    forall k :: 0 <= k < |es| && IsFull(es[k]) ==>
      HealthyNames(es[k]) == nodes && DistinctNames(es[k].candidates)
  }

  lemma {:induction false} RunIsLevelled(es: seq<Env>, nodes: set<NodeName>)
    requires SameHealthyNodes(es, nodes)
    ensures Levelled(Run(EMPTY_FLEET, es).children, nodes)
    decreases |es|
  {
    if es != [] {
      var before, e := es[..|es| - 1], es[|es| - 1];
      RunIsLevelled(before, nodes);
      RunKeepsOrder(before);
      if IsFull(e) {
        StepKeepsLevel(Run(EMPTY_FLEET, before), e, nodes);
      } else {
        EarlyReturnStutters(Run(EMPTY_FLEET, before), e);
      }
    }
  }

  /** From an empty fleet, with a fixed set of healthy nodes, every reachable
      fleet is on those nodes only, no two of them differ by more than one
      replica, and the same holds of every prefix of its slots. */
  lemma SpreadSurvivesScaling(es: seq<Env>, nodes: set<NodeName>, k: nat, a: NodeName, b: NodeName)
    requires SameHealthyNodes(es, nodes) && a in nodes && b in nodes
    ensures var c := Run(EMPTY_FLEET, es).children;
            && (forall i :: i in c ==> c[i] in nodes)
            && OwnCount(c, a) <= OwnCount(c, b) + 1
            && (k <= |c| ==> PrefixCount(c, k, a) <= PrefixCount(c, k, b) + 1)
  {
    var c := Run(EMPTY_FLEET, es).children;
    RunIsLevelled(es, nodes);
    forall i | i in c
      ensures c[i] in nodes
    {
      assert LevelAt(c, nodes, i);
    }
    LevelledIsSpread(c, nodes, |c|, a, b);
    WholeIsOwn(c, a);
    WholeIsOwn(c, b);
    if k <= |c| {
      LevelledIsSpread(c, nodes, k, a, b);
    }
  }
}
