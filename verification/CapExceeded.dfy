/** The two ways a run gets above its reschedule cap, each with a run that does. */
module CapExceeded {
  import opened Prelude
  import opened FleetTypes
  import opened Placement
  import opened Slots
  import opened FleetStep
  import opened FleetRuns
  import opened FleetSpread
  import opened RescheduleCap
  import opened Recovery

  // ----- Why

  lemma CarriedIgnoresCap(s: State, e: Env, cap: i32)
    ensures Carried(s, e.(cap := cap)) == Carried(s, e)
  {
    forall i
      ensures IsCarried(s, e.(cap := cap), i) <==> IsCarried(s, e, i)
    {
    }
  }

  /** What the last reconcile moved is still active after the next, whatever the
      cap has become. */
  lemma MovesStayActive(s: State, e: Env, e': Env)
    requires IsFull(e) && IsFull(e') && e'.replicas == e.replicas && e'.displaced == e.displaced
    ensures Step(Step(s, e), e').report.active >= MovesOf(s, e)
  {
    var d, s1 := Decide(s, e), Step(s, e);
    DecisionIsSound(s, e);
    EnactIsFaithful(s, e, d);
    ActiveAfter(s1, e');
    CarriedExactly(s, e, d, s1, e'.(cap := e.cap));
    CarriedIgnoresCap(s1, e', e.cap);
  }

  lemma HeldAt(s: State, e: Env, d: Decision, s1: State, e': Env, i: nat)
    requires s1.children == NewChildren(s, e, d) && s1.status == NewStatus(s, e, s1.children)
    requires i in Stranded(s.children, Desired(e), e.displaced) && e'.replicas == e.replicas && e'.displaced == {}
    ensures IsCarried(s1, e', i)
  {
    assert i in Interval(0, Desired(e));
    assert s1.status[i] == NewEntry(s, e, s1.children[i], i);
  }

  /** Once no node is displaced, every slot that was on a displaced node is
      active, moved or not. */
  lemma HeldBecomeActive(s: State, e: Env, e': Env)
    requires IsFull(e) && IsFull(e') && e'.replicas == e.replicas && e'.displaced == {}
    ensures Step(Step(s, e), e').report.active >= StrandedIn(s, e)
  {
    var d, s1 := Decide(s, e), Step(s, e);
    EnactIsFaithful(s, e, d);
    ActiveAfter(s1, e');
    forall i | i in Stranded(s.children, Desired(e), e.displaced)
      ensures i in Carried(s1, e')
    {
      HeldAt(s, e, d, s1, e', i);
    }
    SubsetSize(Stranded(s.children, Desired(e), e.displaced), Carried(s1, e'));
  }

  // ----- Two runs

  function Unmeasured(name: NodeName): Candidate {
    Candidate(name, 0, Cold, None, None, None, None, None, None)
  }

  /** Two replicas, one node to put them on. */
  function Reading(node: NodeName, displaced: set<NodeName>, cap: i32): Env {
    Env(2, cap, 1, displaced, [Unmeasured(node)], map[], 0, map[], WarmthFirst, None, {})
  }

  lemma OneHealthyNode(node: NodeName, displaced: set<NodeName>, cap: i32)
    requires node !in displaced
    ensures Able(Reading(node, displaced, cap)) && HealthyNames(Reading(node, displaced, cap)) == {node}
  {
    var e := Reading(node, displaced, cap);
    assert e.candidates[0] in e.candidates && IsHealthy(e.candidates[0].name, e);
    assert node in HealthyNames(e);
  }

  /** The first reconcile puts both replicas on the one node. */
  lemma BothPlaced(node: NodeName, cap: i32, i: nat)
    ensures var s := Step(EMPTY_FLEET, Reading(node, {}, cap));
            (i in s.children <==> i < 2) && (i < 2 ==> s.children[i] == node)
  {
    var e := Reading(node, {}, cap);
    OneHealthyNode(node, {}, cap);
    AbleHasTarget(EMPTY_FLEET, e);
    if i < 2 {
      InRangeLive(EMPTY_FLEET, e, Decide(EMPTY_FLEET, e), i);
      FreshPinIsHealthy(EMPTY_FLEET, e, i);
    }
  }

  lemma BothPlacedThere(node: NodeName, cap: i32)
    ensures var c := Step(EMPTY_FLEET, Reading(node, {}, cap)).children;
            forall i: nat :: (i in c <==> i < 2) && (i < 2 ==> c[i] == node)
  {
    forall i: nat
      ensures var c := Step(EMPTY_FLEET, Reading(node, {}, cap)).children;
              (i in c <==> i < 2) && (i < 2 ==> c[i] == node)
    {
      BothPlaced(node, cap, i);
    }
  }

  lemma FirstIsFaithful(e: Env)
    requires IsFull(e)
    ensures Faithful(Step(EMPTY_FLEET, e))
  {
    EnactIsFaithful(EMPTY_FLEET, e, Decide(EMPTY_FLEET, e));
  }

  /** When that node is displaced, both are stranded and nothing holds the cap. */
  lemma BothStranded(node: NodeName, cap: i32, e: Env)
    requires Desired(e) == 2 && e.displaced == {node}
    ensures var s := Step(EMPTY_FLEET, Reading(node, {}, cap));
            StrandedIn(s, e) == 2 && ActiveIn(s, e) == 0
  {
    var s := Step(EMPTY_FLEET, Reading(node, {}, cap));
    FirstIsFaithful(Reading(node, {}, cap));
    BothPlacedThere(node, cap);
    BothCounted(s, e, node);
  }

  lemma BothCounted(s: State, e: Env, node: NodeName)
    requires Faithful(s) && Desired(e) == 2 && e.displaced == {node}
    requires forall i: nat :: (i in s.children <==> i < 2) && (i < 2 ==> s.children[i] == node)
    ensures StrandedIn(s, e) == 2 && ActiveIn(s, e) == 0
  {
    assert Stranded(s.children, 2, e.displaced) == {0, 1};
    assert InFlight(s.status, e.displaced) == {};
  }

  lemma ThreeSteps(s: State, e0: Env, e1: Env, e2: Env)
    ensures Run(s, [e0, e1, e2]) == Step(Step(Step(s, e0), e1), e2)
  {
    var es := [e0, e1, e2];
    assert es[..2][..1] == es[..1] && es[..1][..0] == [];
    assert Run(s, []) == s;
    assert Run(s, es[..1]) == Step(s, e0);
    assert Run(s, es[..2]) == Step(Step(s, e0), e1);
  }

  /** A lowered cap: two slots move under a cap of two, then the cap is one. No
      node is displaced or not that was not before. */
  lemma LoweredCapIsExceeded(a: NodeName, b: NodeName) returns (es: seq<Env>)
    requires a != b
    ensures |es| == 3 && es[2] == es[1].(cap := 1)
    ensures Run(EMPTY_FLEET, es).report.active > Cap(es[2])
  {
    var e0, e1 := Reading(a, {}, 2), Reading(b, {a}, 2);
    es := [e0, e1, e1.(cap := 1)];
    OneHealthyNode(b, {a}, 2);
    BothStranded(a, 2, e1);
    OneMove(Step(EMPTY_FLEET, e0), e1);
    MovesStayActive(Step(EMPTY_FLEET, e0), e1, e1.(cap := 1));
    ThreeSteps(EMPTY_FLEET, e0, e1, e1.(cap := 1));
  }

  /** A node displaced no longer: under a cap of one throughout, one slot moves
      and one is held, and both are active once the node is back. */
  lemma UndisplacedNodeExceedsCap(a: NodeName, b: NodeName) returns (es: seq<Env>)
    requires a != b
    ensures |es| == 3 && es[0].cap == es[1].cap == es[2].cap == 1
    ensures es[1].displaced == {a} && es[2].displaced == {}
    ensures Run(EMPTY_FLEET, es).report.active > Cap(es[2])
  {
    var e0, e1 := Reading(a, {}, 1), Reading(b, {a}, 1);
    es := [e0, e1, e0];
    BothStranded(a, 1, e1);
    HeldBecomeActive(Step(EMPTY_FLEET, e0), e1, e0);
    ThreeSteps(EMPTY_FLEET, e0, e1, e0);
  }
}
