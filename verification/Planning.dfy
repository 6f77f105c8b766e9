/** Greedy planning of several new replicas in one go, simulating the load
    each of them adds before choosing the next. */
module Planning {
  import opened Prelude
  import opened FleetTypes
  import opened Placement

  /** A candidate with one more of the fleet's replicas on it. An unmeasured
      service count becomes the replica just added. */
  function Loaded(c: Candidate): Candidate {
    c.(activeServiceCount := Some(c.activeServiceCount.UnwrapOr(0) + 1), ownReplicas := c.ownReplicas + 1)
  }

  /** The list with its first candidate of that name loaded. */
  function LoadFirst(cs: seq<Candidate>, name: NodeName): (r: seq<Candidate>)
    ensures |r| == |cs|
  {
    if cs == [] then []
    else if cs[0].name == name then [Loaded(cs[0])] + cs[1..]
    else [cs[0]] + LoadFirst(cs[1..], name)
  }

  /** Never picks a node with more of the fleet's replicas than another. */
  ghost predicate PicksFewest(pick: Selector) {
    forall cs: seq<Candidate>, j {:trigger Choice(cs, pick), cs[j]} :: Choice(cs, pick).Some? && 0 <= j < |cs| ==>
      cs[Choice(cs, pick).value].ownReplicas <= cs[j].ownReplicas
  }

  /** Never refuses a non-empty list. */
  ghost predicate Decisive(pick: Selector) {
    forall cs :: cs != [] ==> Choice(cs, pick).Some?
  }

  lemma StrategyPicksFewest(strategy: Strategy, horizon: Option<int>)
    ensures PicksFewest(StrategySelector(strategy, horizon))
    ensures strategy != Unsupported ==> Decisive(StrategySelector(strategy, horizon))
  {
    forall cs: seq<Candidate>, j {:trigger SelectNode(cs, strategy, horizon), cs[j]}
      | SelectNode(cs, strategy, horizon).Some? && 0 <= j < |cs|
      ensures cs[SelectNode(cs, strategy, horizon).value].ownReplicas <= cs[j].ownReplicas
    {
      SelectedHasFewestThenWarmest(cs, strategy, horizon, j);
    }
  }

  function Plan(slots: int, cs: seq<Candidate>, pick: Selector): seq<NodeName>
    decreases Max(slots, 0)
  {
    if slots <= 0 then []
    else match Choice(cs, pick)
      case None => []
      case Some(b) => [cs[b].name] + Plan(slots - 1, LoadFirst(cs, cs[b].name), pick)
  }

  /** The candidates as the planner sees them after that plan. */
  function Grown(slots: int, cs: seq<Candidate>, pick: Selector): (r: seq<Candidate>)
    ensures |r| == |cs|
    decreases Max(slots, 0)
  {
    if slots <= 0 then cs
    else match Choice(cs, pick)
      case None => cs
      case Some(b) => Grown(slots - 1, LoadFirst(cs, cs[b].name), pick)
  }

  /** The planning loop; `pick` is the selection of the fleet's strategy and horizon. */
  method PlanInitialPlacements(slots: int, candidates: seq<Candidate>, pick: Selector) returns (chosen: seq<NodeName>)
    ensures chosen == Plan(slots, candidates, pick)
  {
    var working := candidates;
    chosen := [];
    var n := 0;
    while n < slots
      invariant 0 <= n <= Max(slots, 0)
      invariant Plan(slots, candidates, pick) == chosen + Plan(slots - n, working, pick)
    {
      var best := Choice(working, pick);
      if best.None? {
        break;
      }
      var name := working[best.value].name;
      AppendAssoc(chosen, [name], Plan(slots - n - 1, LoadFirst(working, name), pick));
      chosen := chosen + [name];
      working := LoadFirst(working, name);
      n := n + 1;
    }
  }

  lemma AppendAssoc<T>(x: seq<T>, y: seq<T>, z: seq<T>)
    ensures x + (y + z) == (x + y) + z
  {
  }

  // ----- Shape of a plan

  ghost predicate DistinctNames(cs: seq<Candidate>) {
    forall i, j :: 0 <= i < j < |cs| ==> cs[i].name != cs[j].name
  }

  lemma {:induction false} LoadFirstAt(cs: seq<Candidate>, b: nat)
    requires b < |cs| && DistinctNames(cs)
    ensures LoadFirst(cs, cs[b].name) == cs[b := Loaded(cs[b])]
    ensures DistinctNames(LoadFirst(cs, cs[b].name))
  {
    if b > 0 {
      assert cs[0].name != cs[b].name;
      LoadFirstAt(cs[1..], b - 1);
      assert cs[b := Loaded(cs[b])] == [cs[0]] + cs[1..][b - 1 := Loaded(cs[b])];
    } else {
      assert cs[0 := Loaded(cs[0])] == [Loaded(cs[0])] + cs[1..];
    }
  }

  lemma {:induction false} LoadFirstKeepsNames(cs: seq<Candidate>, name: NodeName)
    ensures forall i :: 0 <= i < |cs| ==> LoadFirst(cs, name)[i].name == cs[i].name
  {
    if cs != [] && cs[0].name != name {
      LoadFirstKeepsNames(cs[1..], name);
    }
  }

  lemma {:induction false} GrownKeepsNames(slots: int, cs: seq<Candidate>, pick: Selector)
    ensures forall i :: 0 <= i < |cs| ==> Grown(slots, cs, pick)[i].name == cs[i].name
    decreases Max(slots, 0)
  {
    if slots > 0 && Choice(cs, pick).Some? {
      var name := cs[Choice(cs, pick).value].name;
      LoadFirstKeepsNames(cs, name);
      GrownKeepsNames(slots - 1, LoadFirst(cs, name), pick);
    }
  }

  /** No slot is refused while there is a candidate and the rule is decisive. */
  lemma {:induction false} PlanIsComplete(slots: int, cs: seq<Candidate>, pick: Selector)
    requires Decisive(pick)
    ensures |Plan(slots, cs, pick)| == if cs == [] then 0 else Max(slots, 0)
    decreases Max(slots, 0)
  {
    if slots > 0 && cs != [] {
      PlanIsComplete(slots - 1, LoadFirst(cs, cs[Choice(cs, pick).value].name), pick);
    }
  }

  /** Planning a and then b more is planning a + b. */
  lemma {:induction false} PlanSplits(a: nat, b: nat, cs: seq<Candidate>, pick: Selector)
    ensures Plan(a + b, cs, pick) == Plan(a, cs, pick) + Plan(b, Grown(a, cs, pick), pick)
  {
    if a > 0 && Choice(cs, pick).Some? {
      var name := cs[Choice(cs, pick).value].name;
      var cs' := LoadFirst(cs, name);
      PlanSplits(a - 1, b, cs', pick);
      AppendAssoc([name], Plan(a - 1, cs', pick), Plan(b, Grown(a, cs, pick), pick));
    } else if a > 0 {
      assert Grown(a, cs, pick) == cs;
    }
  }

  lemma PlanHead(slots: int, cs: seq<Candidate>, pick: Selector)
    requires slots > 0 && Choice(cs, pick).Some?
    ensures Plan(slots, cs, pick) != [] && Plan(slots, cs, pick)[0] == cs[Choice(cs, pick).value].name
  {
  }

  lemma AppendHead<T>(xs: seq<T>, ys: seq<T>)
    requires ys != []
    ensures (xs + ys)[|xs|] == ys[0]
  {
  }

  /** The k-th choice is what the rule picks once the first k are counted. */
  lemma PlanChoice(slots: int, k: nat, cs: seq<Candidate>, pick: Selector)
    requires k < slots && cs != [] && Decisive(pick)
    ensures var g := Grown(k, cs, pick);
            && k < |Plan(slots, cs, pick)| && Choice(g, pick).Some?
            && Plan(slots, cs, pick)[k] == cs[Choice(g, pick).value].name
  {
    var g := Grown(k, cs, pick);
    PlanSplits(k, slots - k, cs, pick);
    PlanIsComplete(k, cs, pick);
    PlanHead(slots - k, g, pick);
    AppendHead(Plan(k, cs, pick), Plan(slots - k, g, pick));
    GrownKeepsNames(k, cs, pick);
  }

  // ----- What a plan adds to each candidate

  lemma OneMore(x: NodeName, rest: seq<NodeName>, n: NodeName)
    ensures multiset([x] + rest)[n] == (if x == n then 1 else 0) + multiset(rest)[n]
  {
    assert multiset([x] + rest) == multiset{x} + multiset(rest);
  }

  /** A candidate with n more of the fleet's replicas on it. */
  function LoadedBy(c: Candidate, n: nat): Candidate {
    if n == 0 then c
    else c.(activeServiceCount := Some(c.activeServiceCount.UnwrapOr(0) + n), ownReplicas := c.ownReplicas + n)
  }

  lemma LoadedTwice(c: Candidate, n: nat)
    ensures LoadedBy(Loaded(c), n) == LoadedBy(c, n + 1)
  {
  }

  lemma OneMoreLoaded(c: Candidate, n: nat, chosen: bool)
    ensures LoadedBy(if chosen then Loaded(c) else c, n) == LoadedBy(c, n + if chosen then 1 else 0)
  {
    LoadedTwice(c, n);
  }

  lemma LoadedAt(cs: seq<Candidate>, b: nat, i: nat)
    requires DistinctNames(cs) && b < |cs| && i < |cs|
    ensures DistinctNames(LoadFirst(cs, cs[b].name))
    ensures LoadFirst(cs, cs[b].name)[i] == if cs[b].name == cs[i].name then Loaded(cs[i]) else cs[i]
  {
    LoadFirstAt(cs, b);
    assert i != b ==> cs[i].name != cs[b].name;
  }

  /** The simulated load is the load the plan adds: each candidate grows by the
      number of slots the plan gives to its node, and in nothing else. */
  lemma {:induction false} GrownByPlan(slots: int, cs: seq<Candidate>, pick: Selector, i: nat)
    requires DistinctNames(cs) && i < |cs|
    ensures Grown(slots, cs, pick)[i] == LoadedBy(cs[i], multiset(Plan(slots, cs, pick))[cs[i].name])
    decreases Max(slots, 0)
  {
    if slots > 0 && Choice(cs, pick).Some? {
      var first := cs[Choice(cs, pick).value].name;
      var cs' := LoadFirst(cs, first);
      LoadedAt(cs, Choice(cs, pick).value, i);
      GrownByPlan(slots - 1, cs', pick, i);
      var rest := Plan(slots - 1, cs', pick);
      OneMore(first, rest, cs[i].name);
      OneMoreLoaded(cs[i], multiset(rest)[cs[i].name], first == cs[i].name);
    }
  }

  /** A node that receives a slot ends at most one replica above every other. */
  lemma {:induction false} ReceiverAtMostOneAbove(slots: int, cs: seq<Candidate>, pick: Selector, i: nat, j: nat)
    requires DistinctNames(cs) && PicksFewest(pick) && i < |cs| && j < |cs|
    requires cs[i].name in Plan(slots, cs, pick)
    ensures Grown(slots, cs, pick)[i].ownReplicas <= Grown(slots, cs, pick)[j].ownReplicas + 1
    decreases Max(slots, 0)
  {
    var b := Choice(cs, pick).value;
    var name := cs[b].name;
    var cs' := LoadFirst(cs, name);
    var rest := Plan(slots - 1, cs', pick);
    LoadFirstAt(cs, b);
    if cs[i].name in rest {
      ReceiverAtMostOneAbove(slots - 1, cs', pick, i, j);
    } else {
      ChosenOnce(slots - 1, cs, pick, b, j);
    }
  }

  /** A node chosen now and not again ends one above what it had, and it had the fewest. */
  lemma ChosenOnce(slots: int, cs: seq<Candidate>, pick: Selector, b: nat, j: nat)
    requires DistinctNames(cs) && PicksFewest(pick) && j < |cs| && Choice(cs, pick) == Some(b)
    requires cs[b].name !in Plan(slots, LoadFirst(cs, cs[b].name), pick)
    ensures var g := Grown(slots, LoadFirst(cs, cs[b].name), pick);
            g[b].ownReplicas <= g[j].ownReplicas + 1
  {
    var cs' := LoadFirst(cs, cs[b].name);
    LoadFirstAt(cs, b);
    GrownByPlan(slots, cs', pick, b);
    GrownByPlan(slots, cs', pick, j);
    assert cs[b].ownReplicas <= cs[j].ownReplicas;
  }

  // ----- Optimality

  function Owns(cs: seq<Candidate>): (r: seq<int>)
    ensures |r| == |cs| && forall i :: 0 <= i < |cs| ==> r[i] == cs[i].ownReplicas
  {
    seq(|cs|, i requires 0 <= i < |cs| => cs[i].ownReplicas)
  }

  function Sum(xs: seq<int>): int {
    if xs == [] then 0 else xs[0] + Sum(xs[1..])
  }

  function Largest(xs: seq<int>): (m: int)
    requires xs != []
    ensures m in xs && forall x :: x in xs ==> x <= m
  {
    if |xs| == 1 then xs[0]
    else
      var m := Largest(xs[1..]);
      assert xs == [xs[0]] + xs[1..];
      Max(xs[0], m)
  }

  lemma {:induction false} SumAtUpdate(xs: seq<int>, b: nat, v: int)
    requires b < |xs|
    ensures Sum(xs[b := v]) == Sum(xs) - xs[b] + v
  {
    if b > 0 {
      SumAtUpdate(xs[1..], b - 1, v);
      assert xs[b := v][1..] == xs[1..][b - 1 := v];
    }
  }

  lemma {:induction false} SumsWithin(xs: seq<int>, ys: seq<int>)
    requires |xs| == |ys| && forall i :: 0 <= i < |xs| ==> xs[i] <= ys[i]
    ensures Sum(xs) <= Sum(ys)
    ensures Sum(xs) == Sum(ys) ==> xs == ys
  {
    if xs != [] {
      SumsWithin(xs[1..], ys[1..]);
      assert xs == [xs[0]] + xs[1..] && ys == [ys[0]] + ys[1..];
    }
  }

  lemma {:induction false} GrownTotal(slots: int, cs: seq<Candidate>, pick: Selector)
    requires DistinctNames(cs)
    ensures Sum(Owns(Grown(slots, cs, pick))) == Sum(Owns(cs)) + |Plan(slots, cs, pick)|
    decreases Max(slots, 0)
  {
    if slots > 0 && Choice(cs, pick).Some? {
      var b := Choice(cs, pick).value;
      LoadFirstAt(cs, b);
      var cs' := LoadFirst(cs, cs[b].name);
      GrownTotal(slots - 1, cs', pick);
      SumAtUpdate(Owns(cs), b, cs[b].ownReplicas + 1);
      assert Owns(cs') == Owns(cs)[b := cs[b].ownReplicas + 1];
    }
  }

  /** Own replicas after handing out the slots some other way. */
  function Assigned(cs: seq<Candidate>, extra: seq<nat>): (r: seq<int>)
    requires |extra| == |cs|
    ensures |r| == |cs| && forall i :: 0 <= i < |cs| ==> r[i] == cs[i].ownReplicas + extra[i]
  {
    seq(|cs|, i requires 0 <= i < |cs| => cs[i].ownReplicas + extra[i])
  }

  lemma {:induction false} AssignedTotal(cs: seq<Candidate>, extra: seq<nat>)
    requires |extra| == |cs|
    ensures Sum(Assigned(cs, extra)) == Sum(Owns(cs)) + Sum(extra)
  {
    if cs != [] {
      AssignedTotal(cs[1..], extra[1..]);
      assert Assigned(cs, extra)[1..] == Assigned(cs[1..], extra[1..]);
      assert Owns(cs)[1..] == Owns(cs[1..]);
    }
  }

  /** Greedy is min-max optimal: no other way of handing out as many slots
      leaves a smaller maximum. */
  lemma GreedyIsMinMaxOptimal(slots: int, cs: seq<Candidate>, pick: Selector, extra: seq<nat>)
    requires cs != [] && DistinctNames(cs) && PicksFewest(pick) && Decisive(pick)
    requires |extra| == |cs| && Sum(extra) == Max(slots, 0)
    ensures Largest(Owns(Grown(slots, cs, pick))) <= Largest(Assigned(cs, extra))
  {
    var after := Owns(Grown(slots, cs, pick));
    var other := Assigned(cs, extra);
    if Largest(other) < Largest(after) {
      var i: nat :| i < |after| && after[i] == Largest(after);
      GrownByPlan(slots, cs, pick, i);
      assert other[i] in other;
      assert cs[i].name in Plan(slots, cs, pick);
      forall j: nat | j < |cs|
        ensures other[j] <= after[j]
      {
        ReceiverAtMostOneAbove(slots, cs, pick, i, j);
        assert other[j] in other;
      }
      SumsWithin(other, after);
      AssignedTotal(cs, extra);
      GrownTotal(slots, cs, pick);
      PlanIsComplete(slots, cs, pick);
      assert false;
    }
  }
}
