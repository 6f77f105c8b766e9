/** Which candidate a reconcile prefers, read off what is listed, what is
    derived and where the fleet already is. */
module FleetPreference {
  import opened Prelude
  import opened FleetTypes
  import opened Placement
  import opened Planning
  import opened FleetStep
  import opened FleetStatus

  // ----- What the planner sees of a listed candidate

  /** The warmer of two: one of them, and neither is warmer. */
  ghost predicate IsWarmer(w: Warmth, a: Warmth, b: Warmth) {
    (w == a || w == b) && !Colder(w, a) && !Colder(w, b)
  }

  /** h is what the planner sees of candidate c when the fleet has `own` slots on
      its node: every signal as reported, the warmer of reported and derived
      warmth, and a service count that is absent only if nobody knows of any. */
  ghost predicate SeenAs(c: Candidate, h: Candidate, own: int, e: Env) {
    && h.name == c.name && h.ownReplicas == own && h.gpuUtilization == c.gpuUtilization
    && h.kvCacheHitRate == c.kvCacheHitRate && h.kvCacheHitRateAge == c.kvCacheHitRateAge
    && h.tokensPerJoule == c.tokensPerJoule && h.tokensPerJouleAge == c.tokensPerJouleAge
    && IsWarmer(h.warmth, c.warmth, if c.name in e.derivedWarmth then e.derivedWarmth[c.name] else c.warmth)
    && (h.activeServiceCount.None? <==> c.activeServiceCount.None? && own == 0)
    && (h.activeServiceCount.Some? ==>
          h.activeServiceCount.value == own + if c.activeServiceCount.Some? then c.activeServiceCount.value else 0)
  }

  lemma FoldIsSeen(c: Candidate, own: nat, e: Env)
    ensures SeenAs(c, Fold(c, own, e.derivedWarmth), own, e)
  {
  }

  lemma LoadedIsSeen(c: Candidate, h: Candidate, own: nat, n: nat, e: Env)
    requires SeenAs(c, h, own, e)
    ensures SeenAs(c, LoadedBy(h, n), own + n, e)
  {
  }

  /** There is only one way to see a candidate. */
  lemma SeenOnce(c: Candidate, h: Candidate, h': Candidate, own: int, e: Env)
    requires SeenAs(c, h, own, e) && SeenAs(c, h', own, e)
    ensures h == h'
  {
  }

  // ----- The healthy candidates, in the order they are listed

  /** How many of the first j are healthy: where the j-th stands among the healthy. */
  function Place(cs: seq<Candidate>, e: Env, j: nat): nat
    requires j <= |cs|
  {
    if j == 0 then 0 else (if IsHealthy(cs[0].name, e) then 1 else 0) + Place(cs[1..], e, j - 1)
  }

  lemma {:induction false} PlacesAscend(cs: seq<Candidate>, e: Env, i: nat, j: nat)
    requires i < j <= |cs| && IsHealthy(cs[i].name, e)
    ensures Place(cs, e, i) < Place(cs, e, j)
  {
    if i > 0 {
      PlacesAscend(cs[1..], e, i - 1, j - 1);
    }
  }

  lemma {:induction false} KeptAt(cs: seq<Candidate>, own: map<NodeName, nat>, derived: map<NodeName, Warmth>, e: Env,
                                  j: nat)
    requires j < |cs| && IsHealthy(cs[j].name, e)
    ensures var kept := KeepHealthy(FoldAll(cs, own, derived), e);
            Place(cs, e, j) < |kept| && kept[Place(cs, e, j)] == Fold(cs[j], CountAt(own, cs[j].name), derived)
  {
    if j > 0 {
      KeptAt(cs[1..], own, derived, e, j - 1);
    }
  }

  lemma {:induction false} KeptFrom(cs: seq<Candidate>, own: map<NodeName, nat>, derived: map<NodeName, Warmth>,
                                    e: Env, b: nat) returns (j: nat)
    requires b < |KeepHealthy(FoldAll(cs, own, derived), e)|
    ensures j < |cs| && IsHealthy(cs[j].name, e) && Place(cs, e, j) == b
  {
    if IsHealthy(cs[0].name, e) && b == 0 {
      j := 0;
    } else {
      j := KeptFrom(cs[1..], own, derived, e, if IsHealthy(cs[0].name, e) then b - 1 else b);
      j := j + 1;
    }
  }

  lemma SeenHealthy(children: map<nat, NodeName>, e: Env, j: nat)
    requires j < |e.candidates| && IsHealthy(e.candidates[j].name, e)
    ensures Place(e.candidates, e, j) < |Healthy(children, e)|
    ensures var c := e.candidates[j];
            SeenAs(c, Healthy(children, e)[Place(e.candidates, e, j)], OwnCount(children, c.name), e)
  {
    var c := e.candidates[j];
    KeptAt(e.candidates, OwnCounts(children), e.derivedWarmth, e, j);
    OwnCountsAt(children, c.name);
    FoldIsSeen(c, OwnCount(children, c.name), e);
  }

  lemma ListedHealthy(children: map<nat, NodeName>, e: Env, b: nat) returns (j: nat)
    requires b < |Healthy(children, e)|
    ensures j < |e.candidates| && IsHealthy(e.candidates[j].name, e) && Place(e.candidates, e, j) == b
  {
    j := KeptFrom(e.candidates, OwnCounts(children), e.derivedWarmth, e, b);
  }

  /** The candidates offered are exactly the listed ones that are healthy, as the
      planner sees them. */
  lemma HealthyAre(children: map<nat, NodeName>, e: Env, h: Candidate)
    ensures h in Healthy(children, e)
       <==> exists c :: c in e.candidates && IsHealthy(c.name, e) && SeenAs(c, h, OwnCount(children, c.name), e)
  {
    if h in Healthy(children, e) {
      var b :| 0 <= b < |Healthy(children, e)| && Healthy(children, e)[b] == h;
      var j := ListedHealthy(children, e, b);
      SeenHealthy(children, e, j);
    }
    if c :| c in e.candidates && IsHealthy(c.name, e) && SeenAs(c, h, OwnCount(children, c.name), e) {
      var j :| 0 <= j < |e.candidates| && e.candidates[j] == c;
      SeenHealthy(children, e, j);
      SeenOnce(c, h, Healthy(children, e)[Place(e.candidates, e, j)], OwnCount(children, c.name), e);
    }
  }

  // ----- The preferred candidate

  /** What the fleet has on a node when the m-th planned slot is placed. */
  ghost function LoadAt(children: map<nat, NodeName>, planned: seq<NodeName>, m: nat, node: NodeName): int
    requires m <= |planned|
  {
    LoadBefore(OwnCount(children, node), planned, m, node)
  }

  /** Seen so, the first candidate is not ranked below the second; the second is
      ranked below the first if it is listed later. */
  ghost predicate Outdoes(v: Candidate, h: Candidate, later: bool, e: Env) {
    && !RankedBelow(FullKey(v, e.strategy, e.horizon), FullKey(h, e.strategy, e.horizon), e.strategy)
    && (later ==> RankedBelow(FullKey(h, e.strategy, e.horizon), FullKey(v, e.strategy, e.horizon), e.strategy))
  }

  /** The j-th listed candidate is healthy, and seen as h. */
  ghost predicate Seen(children: map<nat, NodeName>, e: Env, planned: seq<NodeName>, m: nat, j: int, h: Candidate)
    requires m <= |planned|
  {
    && 0 <= j < |e.candidates| && IsHealthy(e.candidates[j].name, e)
    && SeenAs(e.candidates[j], h, LoadAt(children, planned, m, e.candidates[j].name), e)
  }

  /** The k-th listed candidate is healthy, and by the strategy's order, with the
      first m planned slots counted, preferred to every healthy one. */
  ghost predicate PreferredAt(children: map<nat, NodeName>, e: Env, planned: seq<NodeName>, m: nat, k: nat)
    requires m <= |planned|
  {
    && k < |e.candidates| && IsHealthy(e.candidates[k].name, e)
    && forall j, v, h :: Seen(children, e, planned, m, k, v) && Seen(children, e, planned, m, j, h) ==>
      Outdoes(v, h, k < j, e)
  }

  lemma SeenSomehow(children: map<nat, NodeName>, e: Env, planned: seq<NodeName>, m: nat, j: nat)
    returns (h: Candidate)
    requires m <= |planned| && j < |e.candidates| && IsHealthy(e.candidates[j].name, e)
    ensures Seen(children, e, planned, m, j, h)
  {
    var c := e.candidates[j];
    LoadBeforeIsCount(OwnCount(children, c.name), planned, m, c.name);
    h := Fold(c, LoadAt(children, planned, m, c.name), e.derivedWarmth);
    FoldIsSeen(c, LoadAt(children, planned, m, c.name), e);
  }

  lemma LaterIsNotPreferred(children: map<nat, NodeName>, e: Env, planned: seq<NodeName>, m: nat, k: nat, k': nat)
    requires m <= |planned| && k < k' && PreferredAt(children, e, planned, m, k)
    ensures !PreferredAt(children, e, planned, m, k')
  {
    if k' < |e.candidates| && IsHealthy(e.candidates[k'].name, e) {
      var v := SeenSomehow(children, e, planned, m, k);
      var v' := SeenSomehow(children, e, planned, m, k');
      assert Outdoes(v, v', true, e);
      assert !Outdoes(v', v, false, e);
    }
  }

  /** At most one listed candidate is preferred. */
  lemma PreferredIsOne(children: map<nat, NodeName>, e: Env, planned: seq<NodeName>, m: nat, k: nat, k': nat)
    requires m <= |planned|
    requires PreferredAt(children, e, planned, m, k) && PreferredAt(children, e, planned, m, k')
    ensures k == k'
  {
    if k < k' {
      LaterIsNotPreferred(children, e, planned, m, k, k');
    } else if k' < k {
      LaterIsNotPreferred(children, e, planned, m, k', k);
    }
  }

  /** The list has the j-th listed candidate, if healthy, in its place as it is seen. */
  ghost predicate Views(children: map<nat, NodeName>, e: Env, planned: seq<NodeName>, m: nat, hs: seq<Candidate>,
                        j: nat)
    requires m <= |planned| && j < |e.candidates|
  {
    IsHealthy(e.candidates[j].name, e) ==>
      && Place(e.candidates, e, j) < |hs|
      && Seen(children, e, planned, m, j, hs[Place(e.candidates, e, j)])
  }

  lemma ListedIsPreferred(children: map<nat, NodeName>, e: Env, planned: seq<NodeName>, m: nat, hs: seq<Candidate>,
                          b: nat, k: nat)
    requires m <= |planned| && IsPreferred(hs, b, e.strategy, e.horizon)
    requires forall j {:trigger Views(children, e, planned, m, hs, j)} :: 0 <= j < |e.candidates| ==>
      Views(children, e, planned, m, hs, j)
    requires k < |e.candidates| && IsHealthy(e.candidates[k].name, e) && Place(e.candidates, e, k) == b
    ensures PreferredAt(children, e, planned, m, k) && e.candidates[k].name == hs[b].name
  {
    assert Views(children, e, planned, m, hs, k);
    forall j, v, h | Seen(children, e, planned, m, k, v) && Seen(children, e, planned, m, j, h)
      ensures Outdoes(v, h, k < j, e)
    {
      assert Views(children, e, planned, m, hs, j);
      var a := Place(e.candidates, e, j);
      SeenOnce(e.candidates[k], v, hs[b], LoadAt(children, planned, m, e.candidates[k].name), e);
      SeenOnce(e.candidates[j], h, hs[a], LoadAt(children, planned, m, e.candidates[j].name), e);
      if k < j {
        PlacesAscend(e.candidates, e, k, j);
      }
    }
  }

  lemma HealthyViews(children: map<nat, NodeName>, e: Env, j: nat)
    requires j < |e.candidates|
    ensures Views(children, e, [], 0, Healthy(children, e), j)
  {
    if IsHealthy(e.candidates[j].name, e) {
      SeenHealthy(children, e, j);
    }
  }

  lemma PickSelects(cs: seq<Candidate>, e: Env)
    requires Choice(cs, Pick(e)).Some?
    ensures IsPreferred(cs, Choice(cs, Pick(e)).value, e.strategy, e.horizon)
  {
    SelectedIsPreferred(cs, e.strategy, e.horizon);
  }

  lemma ChoiceIsPreferred(children: map<nat, NodeName>, e: Env) returns (k: nat)
    requires Choice(Healthy(children, e), Pick(e)).Some?
    ensures PreferredAt(children, e, [], 0, k)
    ensures e.candidates[k].name == Healthy(children, e)[Choice(Healthy(children, e), Pick(e)).value].name
  {
    var hs := Healthy(children, e);
    var b := Choice(hs, Pick(e)).value;
    PickSelects(hs, e);
    k := ListedHealthy(children, e, b);
    forall j: nat | j < |e.candidates|
      ensures Views(children, e, [], 0, hs, j)
    {
      HealthyViews(children, e, j);
    }
    ListedIsPreferred(children, e, [], 0, hs, b, k);
  }

  /** The replacement target is the node of the preferred candidate, and there is
      none only if no candidate is preferred. */
  lemma TargetIsPreferred(s: State, e: Env, k: nat)
    requires IsFull(e)
    ensures PreferredAt(s.children, e, [], 0, k) ==> Decide(s, e).target == Some(e.candidates[k].name)
    ensures Decide(s, e).target.Some? ==>
      exists i: nat :: PreferredAt(s.children, e, [], 0, i) && e.candidates[i].name == Decide(s, e).target.value
  {
    if PreferredAt(s.children, e, [], 0, k) {
      SeenHealthy(s.children, e, k);
      DecisionIsSound(s, e);
    }
    if Decide(s, e).target.Some? {
      var i := ChoiceIsPreferred(s.children, e);
      if PreferredAt(s.children, e, [], 0, k) {
        PreferredIsOne(s.children, e, [], 0, i, k);
      }
    }
  }

  // ----- The planned nodes

  lemma GrownViews(children: map<nat, NodeName>, e: Env, n: nat, m: nat, j: nat)
    requires DistinctNames(e.candidates) && j < |e.candidates| && m <= n && Healthy(children, e) != []
    requires Decisive(Pick(e)) && DistinctNames(Healthy(children, e))
    ensures |Plan(n, Healthy(children, e), Pick(e))| == n
    ensures Views(children, e, Plan(n, Healthy(children, e), Pick(e)), m, Grown(m, Healthy(children, e), Pick(e)), j)
  {
    var hs, pick := Healthy(children, e), Pick(e);
    PlanPrefix(n, m, hs, pick);
    if IsHealthy(e.candidates[j].name, e) {
      var c, a := e.candidates[j], Place(e.candidates, e, j);
      SeenHealthy(children, e, j);
      GrownByPlan(m, hs, pick, a);
      LoadBeforeIsCount(OwnCount(children, c.name), Plan(n, hs, pick), m, c.name);
      LoadedIsSeen(c, hs[a], OwnCount(children, c.name), multiset(Plan(m, hs, pick))[c.name], e);
    }
  }

  lemma GrownIsPreferred(children: map<nat, NodeName>, e: Env, n: nat, m: nat) returns (k: nat)
    requires DistinctNames(e.candidates) && m < n && Healthy(children, e) != []
    requires Decisive(Pick(e)) && DistinctNames(Healthy(children, e))
    ensures |Plan(n, Healthy(children, e), Pick(e))| == n
    ensures PreferredAt(children, e, Plan(n, Healthy(children, e), Pick(e)), m, k)
    ensures e.candidates[k].name == Plan(n, Healthy(children, e), Pick(e))[m]
  {
    var hs, pick := Healthy(children, e), Pick(e);
    var g, planned := Grown(m, hs, pick), Plan(n, hs, pick);
    PlanPrefix(n, m, hs, pick);
    PlanChoice(n, m, hs, pick);
    PickSelects(g, e);
    k := ListedHealthy(children, e, Choice(g, pick).value);
    forall j: nat | j < |e.candidates|
      ensures Views(children, e, planned, m, g, j)
    {
      GrownViews(children, e, n, m, j);
    }
    ListedIsPreferred(children, e, planned, m, g, Choice(g, pick).value, k);
    GrownKeepsNames(m, hs, pick);
  }

  /** The m-th fresh slot goes to the node of the candidate preferred once the
      slots planned before it are counted, in own replicas and service count alike. */
  lemma PlannedIsPreferred(s: State, e: Env, m: nat)
    requires IsFull(e) && DistinctNames(e.candidates) && m < |Decide(s, e).freshNodes|
    ensures exists k: nat :: PreferredAt(s.children, e, Decide(s, e).freshNodes, m, k)
                          && e.candidates[k].name == Decide(s, e).freshNodes[m]
  {
    DecisionIsSound(s, e);
    StrategyPicksFewest(e.strategy, e.horizon);
    FoldedIsDistinct(e.candidates, OwnCounts(s.children), e.derivedWarmth);
    HealthyIsDistinct(FoldAll(e.candidates, OwnCounts(s.children), e.derivedWarmth), e);
    var k := GrownIsPreferred(s.children, e, |Missing(s.children, Desired(e))|, m);
  }

  // ----- Capacity

  /** A node asked for GPUs has at least as many allocatable, or an unknown number,
      and is not displaced. */
  lemma ChosenHasRoom(s: State, e: Env, node: NodeName)
    requires IsFull(e) && (Decide(s, e).target == Some(node) || node in Decide(s, e).freshNodes)
    ensures node !in e.displaced
    ensures e.gpus > 0 && node in e.allocatable && e.allocatable[node].Some? ==> e.gpus <= e.allocatable[node].value
  {
    DecisionIsSound(s, e);
  }

  /** A slot is refused only if every candidate is displaced or known to have too few GPUs. */
  lemma NoTargetIff(s: State, e: Env)
    requires IsFull(e)
    ensures Decide(s, e).target.None?
       <==> forall c :: c in e.candidates ==>
              || c.name in e.displaced
              || (0 < e.gpus && c.name in e.allocatable && e.allocatable[c.name].Some?
                  && e.allocatable[c.name].value < e.gpus)
  {
    DecisionIsSound(s, e);
    if Healthy(s.children, e) == [] {
      forall c | c in e.candidates
        ensures !IsHealthy(c.name, e)
      {
        if IsHealthy(c.name, e) {
          var b := HealthyPosition(s.children, e, c);
          assert false;
        }
      }
    } else {
      var j := ListedHealthy(s.children, e, 0);
      assert e.candidates[j] in e.candidates;
    }
  }
}
