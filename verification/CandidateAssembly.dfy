/** The candidates of a fleet, assembled from what the API server lists: warmth
    derived from the services that run the model, one candidate per node, and
    the nodes a selector admits. */
module CandidateAssembly {
  import opened Prelude
  import opened FleetTypes
  import opened Placement
  import opened Planning
  import opened Sorting

  // ----- Warmth derived from the services of the model

  /** A service of the fleet's model: the node it is pinned to, its phase if it
      has one, and whether it is one of the fleet's own children. */
  datatype Instance = Instance(node: NodeName, phase: Option<string>, own: bool)

  function WarmthOf(phase: Option<string>): Warmth {
    match phase
    case Some(p) => if p == "Ready" then Warm else if p == "Warming" then Warmth.Warming else Cold
    case None => Cold
  }

  /** The warmer of two is the join of the warmth scale. */
  lemma WarmerIsJoin(a: Warmth, b: Warmth, c: Warmth)
    ensures Warmer(a, a) == a && Warmer(a, b) == Warmer(b, a) && Warmer(a, Warmer(b, c)) == Warmer(Warmer(a, b), c)
    ensures WarmthRank(Warmer(a, b)) <= WarmthRank(c)
       <==> WarmthRank(a) <= WarmthRank(c) && WarmthRank(b) <= WarmthRank(c)
  {
  }

  /** The instance counts towards the node's warmth. */
  predicate Counts(x: Instance, node: NodeName) {
    !x.own && x.node == node
  }

  /** The node has an entry exactly when some service of another owner runs
      there, and the entry is the warmest of them. */
  ghost predicate IsWarmest(r: map<NodeName, Warmth>, xs: seq<Instance>, node: NodeName) {
    && (node in r <==> exists k :: 0 <= k < |xs| && Counts(xs[k], node))
    && (node in r ==>
          && (exists k :: 0 <= k < |xs| && Counts(xs[k], node) && WarmthOf(xs[k].phase) == r[node])
          && forall k :: 0 <= k < |xs| && Counts(xs[k], node) ==>
            WarmthRank(WarmthOf(xs[k].phase)) <= WarmthRank(r[node]))
  }

  /** The map after one more instance. */
  function WithInstance(r: map<NodeName, Warmth>, x: Instance): map<NodeName, Warmth> {
    if x.own then r else r[x.node := Warmer(if x.node in r then r[x.node] else Cold, WarmthOf(x.phase))]
  }

  lemma WarmestNext(r: map<NodeName, Warmth>, xs: seq<Instance>, i: nat, node: NodeName)
    requires i < |xs| && IsWarmest(r, xs[..i], node)
    ensures IsWarmest(WithInstance(r, xs[i]), xs[..i + 1], node)
  {
    var before, after := xs[..i], xs[..i + 1];
    assert forall k :: 0 <= k < i ==> after[k] == before[k];
    assert after[i] == xs[i];
    if Counts(xs[i], node) {
      if node !in r || WarmthRank(WarmthOf(xs[i].phase)) > WarmthRank(r[node]) {
        assert Counts(after[i], node);
      } else {
        var k :| 0 <= k < i && Counts(before[k], node) && WarmthOf(before[k].phase) == r[node];
        assert Counts(after[k], node) && WarmthOf(after[k].phase) == r[node];
      }
    } else if node in r {
      var k :| 0 <= k < i && Counts(before[k], node) && WarmthOf(before[k].phase) == r[node];
      assert Counts(after[k], node);
    }
  }

  /** Each node's warmth for the model. */
  method DeriveWarmth(instances: seq<Instance>) returns (byNode: map<NodeName, Warmth>)
    ensures forall node :: IsWarmest(byNode, instances, node)
  {
    byNode := map[];
    for i := 0 to |instances|
      invariant forall node :: IsWarmest(byNode, instances[..i], node)
    {
      var x := instances[i];
      ghost var next, seen := WithInstance(byNode, x), instances[..i + 1];
      forall node
        ensures IsWarmest(next, seen, node)
      {
        WarmestNext(byNode, instances, i, node);
      }
      if x.own {
        continue;
      }
      var entry := if x.node in byNode then byNode[x.node] else Cold;
      byNode := byNode[x.node := Warmer(entry, WarmthOf(x.phase))];
    }
    assert instances[..|instances|] == instances;
  }

  /** A service of another owner runs on the node, in that phase. */
  ghost predicate OtherIn(xs: seq<Instance>, node: NodeName, phase: Option<string>) {
    exists k :: 0 <= k < |xs| && xs[k].node == node && !xs[k].own && xs[k].phase == phase
  }

  /** A node is Warm if one of another owner is Ready there, Warming if none is
      but one is Warming, and Cold if there are only others. */
  lemma WarmestIs(r: map<NodeName, Warmth>, xs: seq<Instance>, node: NodeName)
    requires IsWarmest(r, xs, node)
    ensures node in r <==> exists k :: 0 <= k < |xs| && xs[k].node == node && !xs[k].own
    ensures node in r ==>
      r[node] == if OtherIn(xs, node, Some("Ready")) then Warm
                 else if OtherIn(xs, node, Some("Warming")) then Warmth.Warming
                 else Cold
  {
    if k :| 0 <= k < |xs| && xs[k].node == node && !xs[k].own {
      assert Counts(xs[k], node);
    }
    if node in r {
      var k :| 0 <= k < |xs| && Counts(xs[k], node) && WarmthOf(xs[k].phase) == r[node];
      assert OtherIn(xs, node, xs[k].phase);
      forall j | 0 <= j < |xs| && xs[j].node == node && !xs[j].own
        ensures WarmthRank(WarmthOf(xs[j].phase)) <= WarmthRank(r[node])
      {
        assert Counts(xs[j], node);
      }
    }
  }

  lemma RankIsWarmth(a: Warmth, b: Warmth)
    requires WarmthRank(a) == WarmthRank(b)
    ensures a == b
  {
  }

  lemma SameWarmestAt(r: map<NodeName, Warmth>, r': map<NodeName, Warmth>, xs: seq<Instance>, ys: seq<Instance>,
                      node: NodeName)
    requires multiset(xs) == multiset(ys) && IsWarmest(r, xs, node) && IsWarmest(r', ys, node)
    ensures node in r ==> node in r' && WarmthRank(r[node]) <= WarmthRank(r'[node])
  {
    if node in r {
      var k :| 0 <= k < |xs| && Counts(xs[k], node) && WarmthOf(xs[k].phase) == r[node];
      SameElements(xs, ys, xs[k]);
      var j :| 0 <= j < |ys| && ys[j] == xs[k];
      assert Counts(ys[j], node);
    }
  }

  /** The derived warmth does not depend on the order services are listed in. */
  lemma WarmthIgnoresOrder(r: map<NodeName, Warmth>, r': map<NodeName, Warmth>, xs: seq<Instance>, ys: seq<Instance>)
    requires multiset(xs) == multiset(ys)
    requires forall node :: IsWarmest(r, xs, node)
    requires forall node :: IsWarmest(r', ys, node)
    ensures r == r'
  {
    forall node
      ensures node in r <==> node in r'
      ensures node in r ==> r[node] == r'[node]
    {
      SameWarmestAt(r, r', xs, ys, node);
      SameWarmestAt(r', r, ys, xs, node);
      if node in r {
        RankIsWarmth(r[node], r'[node]);
      }
    }
  }

  // ----- Lexicographic order of names

  function CompareText(a: string, b: string): Ordering {
    if a == [] then (if b == [] then Equal else Less)
    else if b == [] then Greater
    else CompareInts(a[0] as int, b[0] as int).Then(CompareText(a[1..], b[1..]))
  }

  lemma {:induction false} TextReverses(a: string, b: string)
    ensures CompareText(a, b) == CompareText(b, a).Reverse()
    ensures CompareText(a, b) == Equal <==> a == b
  {
    if a != [] && b != [] {
      TextReverses(a[1..], b[1..]);
      assert a == [a[0]] + a[1..] && b == [b[0]] + b[1..];
    }
  }

  lemma {:induction false} TextCoherent(a: string, b: string, c: string)
    ensures Coherent(CompareText(a, b), CompareText(b, c), CompareText(a, c))
  {
    if a != [] && b != [] && c != [] {
      TextCoherent(a[1..], b[1..], c[1..]);
    }
  }

  /** They agree up to k, where a ends or has the smaller character. */
  ghost predicate BeforeAt(a: string, b: string, k: nat) {
    && k <= |a| && k < |b| && (forall i :: 0 <= i < k ==> a[i] == b[i])
    && (k == |a| || a[k] < b[k])
  }

  ghost predicate TextBefore(a: string, b: string) {
    exists k: nat :: BeforeAt(a, b, k)
  }

  lemma BeforeTails(a: string, b: string, k: nat)
    requires a != [] && b != [] && a[0] == b[0]
    ensures BeforeAt(a, b, k + 1) <==> BeforeAt(a[1..], b[1..], k)
    ensures !BeforeAt(a, b, 0)
  {
    if BeforeAt(a[1..], b[1..], k) {
      assert forall i :: 0 < i < k + 1 ==> a[i] == a[1..][i - 1] && b[i] == b[1..][i - 1];
    }
  }

  /** The first character that differs decides, and a proper prefix comes first. */
  lemma {:induction false} TextIsLexicographic(a: string, b: string)
    ensures CompareText(a, b) == Less <==> TextBefore(a, b)
  {
    if a != [] && b != [] && a[0] == b[0] {
      TextIsLexicographic(a[1..], b[1..]);
      if k: nat :| BeforeAt(a[1..], b[1..], k) {
        BeforeTails(a, b, k);
      }
      if k: nat :| BeforeAt(a, b, k) {
        BeforeTails(a, b, if k > 0 then k - 1 else 0);
      }
    } else if b != [] {
      assert BeforeAt(a, b, 0) <==> a == [] || a[0] < b[0];
    }
  }

  function CompareNamespace(a: Option<string>, b: Option<string>): Ordering {
    match (a, b)
    case (None, None) => Equal
    case (None, Some(_)) => Less
    case (Some(_), None) => Greater
    case (Some(x), Some(y)) => CompareText(x, y)
  }

  // ----- One candidate per node

  /** A node state: where it lives, and the candidate its status makes, if it has one. */
  datatype NodeState = NodeState(name: NodeName, namespace: Option<string>, candidate: Option<Candidate>)

  /** The candidate is named after its node state. */
  ghost predicate Named(states: seq<NodeState>) {
    forall k :: 0 <= k < |states| && states[k].candidate.Some? ==> states[k].candidate.value.name == states[k].name
  }

  function CompareStates(a: NodeState, b: NodeState): Ordering {
    CompareText(a.name, b.name).Then(CompareNamespace(a.namespace, b.namespace))
  }

  predicate ByNameThenNamespace(a: NodeState, b: NodeState) {
    CompareStates(a, b) != Greater
  }

  lemma StatesAreOrdered(a: NodeState, b: NodeState, c: NodeState)
    ensures CompareStates(a, b) == CompareStates(b, a).Reverse()
    ensures Coherent(CompareStates(a, b), CompareStates(b, c), CompareStates(a, c))
    ensures CompareStates(a, b) == Equal <==> a.name == b.name && a.namespace == b.namespace
  {
    TextReverses(a.name, b.name);
    TextCoherent(a.name, b.name, c.name);
    TextReverses(b.name, c.name);
    if a.namespace.Some? && b.namespace.Some? {
      TextReverses(a.namespace.value, b.namespace.value);
      if c.namespace.Some? {
        TextCoherent(a.namespace.value, b.namespace.value, c.namespace.value);
      }
    }
  }

  lemma ByNameThenNamespaceIsTotal()
    ensures TotalOrder(ByNameThenNamespace)
  {
    forall a, b, c
      ensures ByNameThenNamespace(a, b) || ByNameThenNamespace(b, a)
      ensures ByNameThenNamespace(a, b) && ByNameThenNamespace(b, c) ==> ByNameThenNamespace(a, c)
    {
      StatesAreOrdered(a, b, c);
    }
  }

  /** The state lends its signals to the node: no state of that name with a
      status is in an earlier namespace. */
  ghost predicate Lends(st: NodeState, states: seq<NodeState>, node: NodeName) {
    && st in states && st.name == node && st.candidate.Some?
    && forall k :: 0 <= k < |states| && states[k].name == node && states[k].candidate.Some? ==>
         CompareNamespace(st.namespace, states[k].namespace) != Greater
  }

  /** No namespace comes before any, then the lexicographic order. */
  ghost predicate Earlier(a: Option<string>, b: Option<string>) {
    b.Some? && (a.None? || TextBefore(a.value, b.value))
  }

  /** Which is to say that no other is lexicographically before it. */
  lemma LendsFromFirst(st: NodeState, states: seq<NodeState>, node: NodeName)
    ensures Lends(st, states, node)
       <==> && st in states && st.name == node && st.candidate.Some?
            && forall k :: 0 <= k < |states| && states[k].name == node && states[k].candidate.Some? ==>
                 !Earlier(states[k].namespace, st.namespace)
  {
    forall k | 0 <= k < |states|
      ensures CompareNamespace(st.namespace, states[k].namespace) != Greater
         <==> !Earlier(states[k].namespace, st.namespace)
    {
      if st.namespace.Some? && states[k].namespace.Some? {
        TextReverses(st.namespace.value, states[k].namespace.value);
        TextIsLexicographic(states[k].namespace.value, st.namespace.value);
      }
    }
  }

  ghost predicate HasStatus(states: seq<NodeState>, node: NodeName) {
    exists k :: 0 <= k < |states| && states[k].name == node && states[k].candidate.Some?
  }

  /** The node has a candidate exactly when some state of its name has a status,
      and then it is the one of the first namespace. */
  ghost predicate IsFirst(out: map<NodeName, Candidate>, states: seq<NodeState>, node: NodeName) {
    && (node in out <==> HasStatus(states, node))
    && (node in out ==> exists st :: Lends(st, states, node) && st.candidate == Some(out[node]))
  }

  /** The map after one more state: the first of a name stays. */
  function WithState(out: map<NodeName, Candidate>, st: NodeState): map<NodeName, Candidate> {
    if st.candidate.None? || st.name in out then out else out[st.name := st.candidate.value]
  }

  lemma StillLends(first: NodeState, states: seq<NodeState>, i: nat, node: NodeName)
    requires i < |states| && InOrder(states, ByNameThenNamespace) && Lends(first, states[..i], node)
    ensures Lends(first, states[..i + 1], node)
  {
    var before, after := states[..i], states[..i + 1];
    var j :| 0 <= j < i && before[j] == first;
    assert after[j] == first;
    assert ByNameThenNamespace(states[j], states[i]);
    TextReverses(states[i].name, states[i].name);
    forall k | 0 <= k < |after| && after[k].name == node && after[k].candidate.Some?
      ensures CompareNamespace(first.namespace, after[k].namespace) != Greater
    {
      assert k < i ==> after[k] == before[k];
    }
  }

  lemma FirstLends(states: seq<NodeState>, i: nat, node: NodeName)
    requires i < |states| && !HasStatus(states[..i], node) && states[i].name == node && states[i].candidate.Some?
    ensures Lends(states[i], states[..i + 1], node)
  {
    var before, after := states[..i], states[..i + 1];
    NamespaceReflexive(states[i].namespace);
    assert after[i] == states[i];
    assert forall k :: 0 <= k < i ==> after[k] == before[k];
  }

  lemma HasStatusNext(states: seq<NodeState>, i: nat, node: NodeName)
    requires i < |states|
    ensures HasStatus(states[..i + 1], node)
       <==> HasStatus(states[..i], node) || (states[i].name == node && states[i].candidate.Some?)
  {
    var before, after := states[..i], states[..i + 1];
    assert forall k :: 0 <= k < i ==> after[k] == before[k];
    assert after[i] == states[i];
  }

  lemma FirstNext(out: map<NodeName, Candidate>, states: seq<NodeState>, i: nat, node: NodeName)
    requires i < |states| && InOrder(states, ByNameThenNamespace) && IsFirst(out, states[..i], node)
    ensures IsFirst(WithState(out, states[i]), states[..i + 1], node)
  {
    HasStatusNext(states, i, node);
    if node in out {
      var first :| Lends(first, states[..i], node) && first.candidate == Some(out[node]);
      StillLends(first, states, i, node);
    } else if states[i].name == node && states[i].candidate.Some? {
      FirstLends(states, i, node);
    }
  }

  lemma NamespaceReflexive(n: Option<string>)
    ensures CompareNamespace(n, n) == Equal
  {
    if n.Some? {
      TextReverses(n.value, n.value);
    }
  }

  ghost predicate KeyedByName(byNode: map<NodeName, Candidate>) {
    forall n :: n in byNode ==> byNode[n].name == n
  }

  /** One candidate per node with a status. */
  method CandidatesByNode(states: seq<NodeState>) returns (out: map<NodeName, Candidate>)
    requires Named(states)
    ensures forall node :: IsFirst(out, states, node)
    ensures KeyedByName(out)
  {
    var sorted := Sort(states, ByNameThenNamespace);
    ByNameThenNamespaceIsTotal();
    SortSorts(states, ByNameThenNamespace);
    out := map[];
    for i := 0 to |sorted|
      invariant forall node :: IsFirst(out, sorted[..i], node)
    {
      var st := sorted[i];
      ghost var next, seen := WithState(out, st), sorted[..i + 1];
      forall node
        ensures IsFirst(next, seen, node)
      {
        FirstNext(out, sorted, i, node);
      }
      if st.candidate.Some? && st.name !in out {
        out := out[st.name := st.candidate.value];
      }
    }
    assert sorted[..|sorted|] == sorted;
    forall node
      ensures IsFirst(out, states, node)
      ensures node in out ==> out[node].name == node
    {
      FirstOfSame(out, sorted, states, node);
    }
  }

  lemma LendsOfSame(st: NodeState, xs: seq<NodeState>, ys: seq<NodeState>, node: NodeName)
    requires multiset(xs) == multiset(ys) && Lends(st, xs, node)
    ensures Lends(st, ys, node)
  {
    SameElements(xs, ys, st);
    forall k | 0 <= k < |ys| && ys[k].name == node && ys[k].candidate.Some?
      ensures CompareNamespace(st.namespace, ys[k].namespace) != Greater
    {
      SameElements(xs, ys, ys[k]);
      var j :| 0 <= j < |xs| && xs[j] == ys[k];
    }
  }

  lemma HasStatusOfSame(xs: seq<NodeState>, ys: seq<NodeState>, node: NodeName)
    requires multiset(xs) == multiset(ys) && HasStatus(xs, node)
    ensures HasStatus(ys, node)
  {
    var k :| 0 <= k < |xs| && xs[k].name == node && xs[k].candidate.Some?;
    SameElements(xs, ys, xs[k]);
    var j :| 0 <= j < |ys| && ys[j] == xs[k];
  }

  lemma FirstOfSame(out: map<NodeName, Candidate>, xs: seq<NodeState>, ys: seq<NodeState>, node: NodeName)
    requires multiset(xs) == multiset(ys) && IsFirst(out, xs, node) && Named(ys)
    ensures IsFirst(out, ys, node)
    ensures node in out ==> out[node].name == node
  {
    if HasStatus(xs, node) {
      HasStatusOfSame(xs, ys, node);
      var st :| Lends(st, xs, node) && st.candidate == Some(out[node]);
      LendsOfSame(st, xs, ys, node);
      var k :| 0 <= k < |ys| && ys[k] == st;
    } else if HasStatus(ys, node) {
      HasStatusOfSame(ys, xs, node);
    }
  }

  /** No two states share a name and a namespace, as the API server guarantees. */
  ghost predicate DistinctStates(states: seq<NodeState>) {
    forall i, j :: 0 <= i < j < |states| ==>
      states[i].name != states[j].name || states[i].namespace != states[j].namespace
  }

  lemma LenderIsUnique(a: NodeState, b: NodeState, states: seq<NodeState>, node: NodeName)
    requires DistinctStates(states) && Lends(a, states, node) && Lends(b, states, node)
    ensures a == b
  {
    var i :| 0 <= i < |states| && states[i] == a;
    var j :| 0 <= j < |states| && states[j] == b;
    StatesAreOrdered(a, b, a);
    TextReverses(node, node);
    assert CompareStates(a, b) != Greater && CompareStates(b, a) != Greater;
  }

  /** The candidates do not depend on the order node states are listed in. */
  lemma CandidatesIgnoreOrder(r: map<NodeName, Candidate>, r': map<NodeName, Candidate>, xs: seq<NodeState>,
                              ys: seq<NodeState>)
    requires multiset(xs) == multiset(ys) && DistinctStates(ys) && Named(ys)
    requires forall node :: IsFirst(r, xs, node)
    requires forall node :: IsFirst(r', ys, node)
    ensures r == r'
  {
    forall node
      ensures node in r <==> node in r'
      ensures node in r ==> r[node] == r'[node]
    {
      FirstOfSame(r, xs, ys, node);
      assert IsFirst(r', ys, node);
      if node in r {
        var a :| Lends(a, ys, node) && a.candidate == Some(r[node]);
        var b :| Lends(b, ys, node) && b.candidate == Some(r'[node]);
        LenderIsUnique(a, b, ys, node);
      }
    }
  }

  // ----- The candidate list of a fleet

  /** A node as the selector sees it. */
  datatype Node = Node(name: NodeName, admitted: bool, unschedulable: bool)

  function BareCandidate(name: NodeName): Candidate {
    Candidate(name, 0, Cold, None, None, None, None, None, None)
  }

  function Cordoned(nodes: seq<Node>): set<NodeName> {
    set n | n in nodes && n.unschedulable :: n.name
  }

  predicate IsFirstName(n: NodeName, names: set<NodeName>) {
    n in names && forall m :: m in names ==> CompareText(n, m) != Greater
  }

  lemma {:induction false} FirstNameExists(names: set<NodeName>)
    requires names != {}
    ensures exists n :: IsFirstName(n, names)
  {
    var n :| n in names;
    TextReverses(n, n);
    if names == {n} {
      assert IsFirstName(n, names);
    } else {
      FirstNameExists(names - {n});
      var m :| IsFirstName(m, names - {n});
      TextReverses(n, m);
      forall x | x in names
        ensures CompareText(n, m) != Greater ==> CompareText(n, x) != Greater
      {
        TextCoherent(n, m, x);
      }
      assert IsFirstName(if CompareText(n, m) == Greater then m else n, names);
    }
  }

  lemma FirstNameIsUnique(names: set<NodeName>)
    ensures forall a, b :: IsFirstName(a, names) && IsFirstName(b, names) ==> a == b
  {
    forall a, b | IsFirstName(a, names) && IsFirstName(b, names)
      ensures a == b
    {
      TextReverses(a, b);
    }
  }

  /** The key an ordered map yields first. */
  function FirstName(names: set<NodeName>): (n: NodeName)
    requires names != {}
    ensures IsFirstName(n, names)
  {
    FirstNameExists(names);
    FirstNameIsUnique(names);
    var n :| IsFirstName(n, names);
    n
  }

  /** The values of an ordered map, in ascending order of key. */
  function ValuesInOrder(byNode: map<NodeName, Candidate>): seq<Candidate> {
    if byNode.Keys == {} then []
    else
      var n := FirstName(byNode.Keys);
      [byNode[n]] + ValuesInOrder(byNode - {n})
  }

  function Schedulable(cs: seq<Candidate>, cordoned: set<NodeName>): seq<Candidate> {
    if cs == [] then []
    else (if cs[0].name in cordoned then [] else [cs[0]]) + Schedulable(cs[1..], cordoned)
  }

  /** The candidates without a selector: the nodes that have a status, the
      cordoned ones left out. */
  function StatusCandidates(nodes: seq<Node>, byNode: map<NodeName, Candidate>): seq<Candidate> {
    Schedulable(ValuesInOrder(byNode), Cordoned(nodes))
  }

  /** The candidates when a selector is set: the admitted schedulable nodes,
      each with the signals of its node state if there is one left. */
  function SelectorCandidates(nodes: seq<Node>, byNode: map<NodeName, Candidate>): seq<Candidate> {
    if nodes == [] then []
    else
      var n := nodes[0];
      if !n.admitted || n.unschedulable then SelectorCandidates(nodes[1..], byNode)
      else
        var c := if n.name in byNode then byNode[n.name] else BareCandidate(n.name);
        [c] + SelectorCandidates(nodes[1..], byNode - {n.name})
  }

  ghost predicate DistinctNodes(nodes: seq<Node>) {
    forall i, j :: 0 <= i < j < |nodes| ==> nodes[i].name != nodes[j].name
  }

  lemma {:induction false} SelectedAre(nodes: seq<Node>, byNode: map<NodeName, Candidate>, j: nat) returns (k: nat)
    requires j < |SelectorCandidates(nodes, byNode)| && KeyedByName(byNode)
    ensures k < |nodes| && nodes[k].name == SelectorCandidates(nodes, byNode)[j].name
    ensures nodes[k].admitted && !nodes[k].unschedulable
  {
    var n := nodes[0];
    if !n.admitted || n.unschedulable {
      k := SelectedAre(nodes[1..], byNode, j);
      k := k + 1;
    } else if j == 0 {
      k := 0;
    } else {
      k := SelectedAre(nodes[1..], byNode - {n.name}, j - 1);
      k := k + 1;
    }
  }

  /** The candidate of an admitted, schedulable node: the one its status makes,
      or one of which nothing is known. */
  ghost predicate Selects(nodes: seq<Node>, byNode: map<NodeName, Candidate>, c: Candidate) {
    && (exists k :: 0 <= k < |nodes| && nodes[k].name == c.name && nodes[k].admitted && !nodes[k].unschedulable)
    && (if c.name in byNode then c == byNode[c.name]
        else c == Candidate(c.name, 0, Cold, None, None, None, None, None, None))
  }

  lemma SelectsNext(nodes: seq<Node>, byNode: map<NodeName, Candidate>, c: Candidate)
    requires nodes != [] && DistinctNodes(nodes) && KeyedByName(byNode)
    ensures var n := nodes[0];
            if !n.admitted || n.unschedulable then Selects(nodes, byNode, c) <==> Selects(nodes[1..], byNode, c)
            else Selects(nodes, byNode, c)
                 <==> || c == (if n.name in byNode then byNode[n.name] else BareCandidate(n.name))
                      || Selects(nodes[1..], byNode - {n.name}, c)
  {
    assert forall k :: 0 < k < |nodes| ==> nodes[k] == nodes[1..][k - 1];
    assert forall k :: 0 <= k < |nodes[1..]| ==> nodes[1..][k] == nodes[k + 1] && nodes[k + 1].name != nodes[0].name;
  }

  /** With a selector the candidates are exactly those of the admitted,
      schedulable nodes, with the signals of their status if they have one. */
  lemma {:induction false} SelectedAreExactly(nodes: seq<Node>, byNode: map<NodeName, Candidate>, c: Candidate)
    requires DistinctNodes(nodes) && KeyedByName(byNode)
    ensures c in SelectorCandidates(nodes, byNode) <==> Selects(nodes, byNode, c)
  {
    if nodes != [] {
      var n := nodes[0];
      SelectsNext(nodes, byNode, c);
      SelectedAreExactly(nodes[1..], if !n.admitted || n.unschedulable then byNode else byNode - {n.name}, c);
    }
  }

  /** They are listed in the order of the nodes. */
  lemma {:induction false} SelectedInOrder(nodes: seq<Node>, byNode: map<NodeName, Candidate>, i: nat, j: nat)
    returns (a: nat, b: nat)
    requires i < j < |SelectorCandidates(nodes, byNode)| && KeyedByName(byNode)
    ensures a < b < |nodes|
    ensures nodes[a].name == SelectorCandidates(nodes, byNode)[i].name
    ensures nodes[b].name == SelectorCandidates(nodes, byNode)[j].name
  {
    var n := nodes[0];
    if !n.admitted || n.unschedulable {
      a, b := SelectedInOrder(nodes[1..], byNode, i, j);
      a, b := a + 1, b + 1;
    } else if i == 0 {
      b := SelectedAre(nodes[1..], byNode - {n.name}, j - 1);
      a, b := 0, b + 1;
    } else {
      a, b := SelectedInOrder(nodes[1..], byNode - {n.name}, i - 1, j - 1);
      a, b := a + 1, b + 1;
    }
  }

  /** With a selector the candidates have distinct names and none is cordoned. */
  lemma {:induction false} SelectedAreDistinct(nodes: seq<Node>, byNode: map<NodeName, Candidate>)
    requires DistinctNodes(nodes) && KeyedByName(byNode)
    ensures DistinctNames(SelectorCandidates(nodes, byNode))
    ensures forall j :: 0 <= j < |SelectorCandidates(nodes, byNode)| ==>
      SelectorCandidates(nodes, byNode)[j].name !in Cordoned(nodes)
  {
    var cs := SelectorCandidates(nodes, byNode);
    if nodes != [] {
      var n := nodes[0];
      var byRest := if !n.admitted || n.unschedulable then byNode else byNode - {n.name};
      var rest := SelectorCandidates(nodes[1..], byRest);
      SelectedAreDistinct(nodes[1..], byRest);
      forall j | 0 <= j < |rest|
        ensures rest[j].name != n.name
      {
        var k := SelectedAre(nodes[1..], byRest, j);
        assert nodes[1..][k] == nodes[k + 1];
      }
    }
    forall j | 0 <= j < |cs|
      ensures cs[j].name !in Cordoned(nodes)
    {
      var k := SelectedAre(nodes, byNode, j);
      forall m | 0 <= m < |nodes| && nodes[m].unschedulable
        ensures nodes[m].name != cs[j].name
      {
        assert m != k;
      }
    }
  }

  ghost predicate AscendingNames(cs: seq<Candidate>) {
    forall i, j :: 0 <= i < j < |cs| ==> CompareText(cs[i].name, cs[j].name) == Less
  }

  lemma {:induction false} ValuesInOrderAre(byNode: map<NodeName, Candidate>, c: Candidate)
    requires KeyedByName(byNode)
    ensures c in ValuesInOrder(byNode) <==> c.name in byNode && byNode[c.name] == c
    decreases |byNode|
  {
    if byNode.Keys != {} {
      ValuesInOrderAre(byNode - {FirstName(byNode.Keys)}, c);
    }
  }

  lemma FirstIsBefore(byNode: map<NodeName, Candidate>, c: Candidate)
    requires KeyedByName(byNode) && byNode.Keys != {}
    requires c in ValuesInOrder(byNode - {FirstName(byNode.Keys)})
    ensures CompareText(FirstName(byNode.Keys), c.name) == Less
  {
    var n := FirstName(byNode.Keys);
    ValuesInOrderAre(byNode - {n}, c);
    TextReverses(n, c.name);
  }

  lemma {:induction false} ValuesAscend(byNode: map<NodeName, Candidate>)
    requires KeyedByName(byNode)
    ensures AscendingNames(ValuesInOrder(byNode))
    decreases |byNode|
  {
    if byNode.Keys != {} {
      var n := FirstName(byNode.Keys);
      var rest := ValuesInOrder(byNode - {n});
      ValuesAscend(byNode - {n});
      forall j | 0 <= j < |rest|
        ensures CompareText(n, rest[j].name) == Less
      {
        FirstIsBefore(byNode, rest[j]);
      }
    }
  }

  lemma {:induction false} SchedulableAre(cs: seq<Candidate>, cordoned: set<NodeName>, c: Candidate)
    ensures c in Schedulable(cs, cordoned) <==> c in cs && c.name !in cordoned
  {
    if cs != [] {
      SchedulableAre(cs[1..], cordoned, c);
    }
  }

  lemma {:induction false} SchedulableAscend(cs: seq<Candidate>, cordoned: set<NodeName>)
    requires AscendingNames(cs)
    ensures AscendingNames(Schedulable(cs, cordoned))
  {
    if cs != [] {
      var rest := Schedulable(cs[1..], cordoned);
      SchedulableAscend(cs[1..], cordoned);
      forall j | 0 <= j < |rest|
        ensures CompareText(cs[0].name, rest[j].name) == Less
      {
        SchedulableAre(cs[1..], cordoned, rest[j]);
        var k :| 0 <= k < |cs[1..]| && cs[1..][k] == rest[j];
        assert cs[k + 1] == rest[j];
      }
    }
  }

  /** Without a selector the candidates are exactly those of the nodes with a
      status that are not cordoned, in ascending order of name. */
  lemma StatusCandidatesAre(nodes: seq<Node>, byNode: map<NodeName, Candidate>)
    requires KeyedByName(byNode)
    ensures AscendingNames(StatusCandidates(nodes, byNode))
    ensures forall c :: c in StatusCandidates(nodes, byNode)
                   <==> c.name in byNode && byNode[c.name] == c && c.name !in Cordoned(nodes)
  {
    ValuesAscend(byNode);
    SchedulableAscend(ValuesInOrder(byNode), Cordoned(nodes));
    forall c
      ensures c in StatusCandidates(nodes, byNode)
         <==> c.name in byNode && byNode[c.name] == c && c.name !in Cordoned(nodes)
    {
      ValuesInOrderAre(byNode, c);
      SchedulableAre(ValuesInOrder(byNode), Cordoned(nodes), c);
    }
  }

  lemma AscendingAreDistinct(cs: seq<Candidate>)
    requires AscendingNames(cs)
    ensures DistinctNames(cs)
  {
    forall i, j | 0 <= i < j < |cs|
      ensures cs[i].name != cs[j].name
    {
      TextReverses(cs[i].name, cs[j].name);
    }
  }

  /** The candidates of a fleet, with or without a selector. */
  function FleetCandidates(nodes: seq<Node>, selects: bool, byNode: map<NodeName, Candidate>): seq<Candidate> {
    if selects then SelectorCandidates(nodes, byNode) else StatusCandidates(nodes, byNode)
  }

  /** With a selector, the admitted schedulable nodes; without, the schedulable
      nodes that have a status. */
  lemma FleetCandidatesAre(nodes: seq<Node>, selects: bool, byNode: map<NodeName, Candidate>, c: Candidate)
    requires DistinctNodes(nodes) && KeyedByName(byNode)
    ensures c in FleetCandidates(nodes, selects, byNode)
       <==> if selects then Selects(nodes, byNode, c)
            else c.name in byNode && byNode[c.name] == c
                 && forall k :: 0 <= k < |nodes| && nodes[k].name == c.name ==> !nodes[k].unschedulable
  {
    if selects {
      SelectedAreExactly(nodes, byNode, c);
    } else {
      StatusCandidatesAre(nodes, byNode);
    }
  }

  /** Either way they have distinct names and none is cordoned. */
  lemma CandidatesAreDistinct(nodes: seq<Node>, selects: bool, byNode: map<NodeName, Candidate>)
    requires DistinctNodes(nodes) && KeyedByName(byNode)
    ensures DistinctNames(FleetCandidates(nodes, selects, byNode))
    ensures forall j :: 0 <= j < |FleetCandidates(nodes, selects, byNode)| ==>
      FleetCandidates(nodes, selects, byNode)[j].name !in Cordoned(nodes)
  {
    if selects {
      SelectedAreDistinct(nodes, byNode);
    } else {
      StatusCandidatesAre(nodes, byNode);
      AscendingAreDistinct(StatusCandidates(nodes, byNode));
    }
  }
}
