/** Node ranking: signal sanitisation and freshness, the two comparators, and
    the selection of a node or of a replacement node. */
module Placement {
  import opened Prelude
  import opened FleetTypes

  /** A reported 32-bit float. Finite values are exact reals; negative zero is
      kept apart because the total order used on signals tells it from zero. */
  datatype Signal = NaN | PosInf | NegInf | NegZero | Finite(value: real) {

    predicate IsFinite() {
      NegZero? || Finite?
    }

    function Value(): real
      requires IsFinite()
    {
      if NegZero? then 0.0 else value
    }
  }

  datatype Candidate = Candidate(
    name: NodeName,
    ownReplicas: int,
    warmth: Warmth,
    gpuUtilization: Option<Signal>,
    activeServiceCount: Option<int>,
    kvCacheHitRate: Option<Signal>,
    kvCacheHitRateAge: Option<int>,
    tokensPerJoule: Option<Signal>,
    tokensPerJouleAge: Option<int>)

  // ----- Filters of the caller

  predicate HasCapacityFor(allocatable: Option<int>, requested: int) {
    requested <= 0 || allocatable.None? || allocatable.value >= requested
  }

  // ----- Sanitisation and freshness

  function ValidHitRate(v: Option<Signal>): Option<Signal> {
    if v.Some? && v.value.IsFinite() && 0.0 <= v.value.Value() <= 1.0 then v else None
  }

  function ValidNonNegative(v: Option<Signal>): Option<Signal> {
    if v.Some? && v.value.IsFinite() && 0.0 <= v.value.Value() then v else None
  }

  predicate WithinHorizon(age: Option<int>, horizon: Option<int>) {
    horizon.None? || (age.Some? && 0 <= age.value <= horizon.value)
  }

  function FreshHitRate(c: Candidate, horizon: Option<int>): Option<Signal> {
    if WithinHorizon(c.kvCacheHitRateAge, horizon) then ValidHitRate(c.kvCacheHitRate) else None
  }

  function FreshTokensPerJoule(c: Candidate, horizon: Option<int>): Option<Signal> {
    if WithinHorizon(c.tokensPerJouleAge, horizon) then ValidNonNegative(c.tokensPerJoule) else None
  }

  /** A hit rate counts if and only if it is a number from 0 to 1, negative zero
      included, and no horizon is set or its age is known and within it. */
  lemma HitRateCountsIff(c: Candidate, horizon: Option<int>, x: Signal)
    ensures FreshHitRate(c, horizon) == Some(x)
       <==> && c.kvCacheHitRate == Some(x) && (x.NegZero? || (x.Finite? && 0.0 <= x.value && x.value <= 1.0))
            && (horizon.None? || (c.kvCacheHitRateAge.Some? && 0 <= c.kvCacheHitRateAge.value
                                  && c.kvCacheHitRateAge.value <= horizon.value))
  {
  }

  /** A number of tokens per joule likewise, with no upper bound. */
  lemma TokensPerJouleCountIff(c: Candidate, horizon: Option<int>, x: Signal)
    ensures FreshTokensPerJoule(c, horizon) == Some(x)
       <==> && c.tokensPerJoule == Some(x) && (x.NegZero? || (x.Finite? && 0.0 <= x.value))
            && (horizon.None? || (c.tokensPerJouleAge.Some? && 0 <= c.tokensPerJouleAge.value
                                  && c.tokensPerJouleAge.value <= horizon.value))
  {
  }

  /** A utilization counts if and only if it is a number not below 0, whether a
      fraction or a percentage. */
  lemma UtilizationCountsIff(v: Option<Signal>, x: Signal)
    ensures ValidNonNegative(v) == Some(x) <==> v == Some(x) && (x.NegZero? || (x.Finite? && 0.0 <= x.value))
  {
  }

  // ----- Tiers

  function WarmthRank(w: Warmth): nat {
    match w
    case Warm => 2
    case Warming => 1
    case Cold => 0
  }

  function Warmer(a: Warmth, b: Warmth): Warmth {
    if WarmthRank(b) > WarmthRank(a) then b else a
  }

  /** The IEEE 754 total order, with one NaN, above everything. */
  function TotalCmp(x: Signal, y: Signal): Ordering {
    CompareInts(TotalClass(x), TotalClass(y)).Then(
      if !x.IsFinite() || !y.IsFinite() || x.Value() == y.Value() then
        CompareInts(if x.NegZero? then 0 else 1, if y.NegZero? then 0 else 1)
      else if x.Value() < y.Value() then Less else Greater)
  }

  function TotalClass(x: Signal): int {
    match x
    case NegInf => 0
    case NegZero => 1
    case Finite(_) => 1
    case PosInf => 2
    case NaN => 3
  }

  function CmpSignal(a: Option<Signal>, b: Option<Signal>): Ordering {
    match (a, b)
    case (None, None) => Equal
    case (None, Some(_)) => Less
    case (Some(_), None) => Greater
    case (Some(x), Some(y)) => TotalCmp(x, y)
  }

  function CmpSignalLower(a: Option<Signal>, b: Option<Signal>): Ordering {
    match (a, b)
    case (None, None) => Equal
    case (None, Some(_)) => Less
    case (Some(_), None) => Greater
    case (Some(x), Some(y)) => TotalCmp(y, x)
  }

  function CmpCountLower(a: Option<int>, b: Option<int>): Ordering {
    match (a, b)
    case (None, None) => Equal
    case (None, Some(_)) => Less
    case (Some(_), None) => Greater
    case (Some(x), Some(y)) => CompareInts(y, x)
  }

  // ----- Comparators: the greater candidate is preferred

  function WarmthFirstTiers(a: Candidate, b: Candidate): seq<Ordering> {
    [ CompareInts(b.ownReplicas, a.ownReplicas),
      CompareInts(WarmthRank(a.warmth), WarmthRank(b.warmth)),
      CmpCountLower(a.activeServiceCount, b.activeServiceCount),
      CmpSignalLower(ValidNonNegative(a.gpuUtilization), ValidNonNegative(b.gpuUtilization)) ]
  }

  function EfficiencyAwareTiers(a: Candidate, b: Candidate, horizon: Option<int>): seq<Ordering> {
    [ CompareInts(b.ownReplicas, a.ownReplicas),
      CompareInts(WarmthRank(a.warmth), WarmthRank(b.warmth)),
      CmpSignal(FreshTokensPerJoule(a, horizon), FreshTokensPerJoule(b, horizon)),
      CmpSignal(FreshHitRate(a, horizon), FreshHitRate(b, horizon)),
      CmpSignalLower(ValidNonNegative(a.gpuUtilization), ValidNonNegative(b.gpuUtilization)),
      CmpCountLower(a.activeServiceCount, b.activeServiceCount) ]
  }

  function Tiers(a: Candidate, b: Candidate, strategy: Strategy, horizon: Option<int>): seq<Ordering>
  {
    if strategy == EfficiencyAware then EfficiencyAwareTiers(a, b, horizon) else WarmthFirstTiers(a, b)
  }

  function Compare(a: Candidate, b: Candidate, strategy: Strategy, horizon: Option<int>): Ordering
  {
    Lex(Tiers(a, b, strategy, horizon))
  }

  /** Everything a strategy looks at, after sanitisation. */
  datatype Key = Key(own: int, warmth: Warmth, tokensPerJoule: Option<Signal>, hitRate: Option<Signal>,
                     utilization: Option<Signal>, count: Option<int>)

  function FullKey(c: Candidate, strategy: Strategy, horizon: Option<int>): Key {
    Key(c.ownReplicas, c.warmth,
        if strategy == EfficiencyAware then FreshTokensPerJoule(c, horizon) else None,
        if strategy == EfficiencyAware then FreshHitRate(c, horizon) else None,
        ValidNonNegative(c.gpuUtilization), c.activeServiceCount)
  }

  // ----- The comparators are total preorders decided by the key

  /** The component of the key each tier reads, compared for equality. */
  function SameComponents(a: Candidate, b: Candidate, strategy: Strategy, horizon: Option<int>): seq<bool> {
    var ka, kb := FullKey(a, strategy, horizon), FullKey(b, strategy, horizon);
    if strategy == EfficiencyAware then
      [ka.own == kb.own, ka.warmth == kb.warmth, ka.tokensPerJoule == kb.tokensPerJoule,
       ka.hitRate == kb.hitRate, ka.utilization == kb.utilization, ka.count == kb.count]
    else
      [ka.own == kb.own, ka.warmth == kb.warmth, ka.count == kb.count, ka.utilization == kb.utilization]
  }

  lemma IntTierLaws(x: int, y: int, z: int)
    ensures TierLaw(CompareInts(x, y), CompareInts(y, x), CompareInts(y, z), CompareInts(x, z), x == y)
    ensures TierLaw(CompareInts(y, x), CompareInts(x, y), CompareInts(z, y), CompareInts(z, x), x == y)
  {
  }

  lemma SignalTierLaws(x: Option<Signal>, y: Option<Signal>, z: Option<Signal>)
    ensures TierLaw(CmpSignal(x, y), CmpSignal(y, x), CmpSignal(y, z), CmpSignal(x, z), x == y)
    ensures TierLaw(CmpSignalLower(x, y), CmpSignalLower(y, x), CmpSignalLower(y, z), CmpSignalLower(x, z), x == y)
  {
  }

  lemma CountTierLaws(x: Option<int>, y: Option<int>, z: Option<int>)
    ensures TierLaw(CmpCountLower(x, y), CmpCountLower(y, x), CmpCountLower(y, z), CmpCountLower(x, z), x == y)
  {
  }

  lemma FourTiers(x: seq<Ordering>, x': seq<Ordering>, y: seq<Ordering>, z: seq<Ordering>, s: seq<bool>)
    requires |x| == |x'| == |y| == |z| == |s| == 4
    requires TierLaw(x[0], x'[0], y[0], z[0], s[0]) && TierLaw(x[1], x'[1], y[1], z[1], s[1])
    requires TierLaw(x[2], x'[2], y[2], z[2], s[2]) && TierLaw(x[3], x'[3], y[3], z[3], s[3])
    ensures TierLaws(x, x', y, z, s)
  {
  }

  lemma SixTiers(x: seq<Ordering>, x': seq<Ordering>, y: seq<Ordering>, z: seq<Ordering>, s: seq<bool>)
    requires |x| == |x'| == |y| == |z| == |s| == 6
    requires TierLaws(x[..4], x'[..4], y[..4], z[..4], s[..4])
    requires TierLaw(x[4], x'[4], y[4], z[4], s[4]) && TierLaw(x[5], x'[5], y[5], z[5], s[5])
    ensures TierLaws(x, x', y, z, s)
  {
    forall i | 0 <= i < 6
      ensures TierLaw(x[i], x'[i], y[i], z[i], s[i])
    {
      if i < 4 {
        assert TierLaw(x[..4][i], x'[..4][i], y[..4][i], z[..4][i], s[..4][i]);
      }
    }
  }

  /** Every tier of either comparator is itself a total preorder on the
      component of the key it reads. */
  lemma EveryTierLaws(a: Candidate, b: Candidate, c: Candidate, strategy: Strategy, h: Option<int>)
    ensures TierLaws(Tiers(a, b, strategy, h), Tiers(b, a, strategy, h),
                     Tiers(b, c, strategy, h), Tiers(a, c, strategy, h),
                     SameComponents(a, b, strategy, h))
  {
    if strategy == EfficiencyAware {
      EfficiencyAwareTierLaws(a, b, c, h);
    } else {
      WarmthFirstTierLaws(a, b, c, h);
    }
  }

  lemma EfficiencyAwareTierLaws(a: Candidate, b: Candidate, c: Candidate, h: Option<int>)
    ensures TierLaws(EfficiencyAwareTiers(a, b, h), EfficiencyAwareTiers(b, a, h), EfficiencyAwareTiers(b, c, h),
                     EfficiencyAwareTiers(a, c, h), SameComponents(a, b, EfficiencyAware, h))
  {
    IntTierLaws(a.ownReplicas, b.ownReplicas, c.ownReplicas);
    IntTierLaws(WarmthRank(a.warmth), WarmthRank(b.warmth), WarmthRank(c.warmth));
    SignalTierLaws(FreshTokensPerJoule(a, h), FreshTokensPerJoule(b, h), FreshTokensPerJoule(c, h));
    SignalTierLaws(FreshHitRate(a, h), FreshHitRate(b, h), FreshHitRate(c, h));
    SignalTierLaws(ValidNonNegative(a.gpuUtilization), ValidNonNegative(b.gpuUtilization),
                   ValidNonNegative(c.gpuUtilization));
    CountTierLaws(a.activeServiceCount, b.activeServiceCount, c.activeServiceCount);
    var ab, ba := EfficiencyAwareTiers(a, b, h), EfficiencyAwareTiers(b, a, h);
    var bc, ac := EfficiencyAwareTiers(b, c, h), EfficiencyAwareTiers(a, c, h);
    var same := SameComponents(a, b, EfficiencyAware, h);
    FourTiers(ab[..4], ba[..4], bc[..4], ac[..4], same[..4]);
    SixTiers(ab, ba, bc, ac, same);
  }

  lemma WarmthFirstTierLaws(a: Candidate, b: Candidate, c: Candidate, h: Option<int>)
    ensures TierLaws(WarmthFirstTiers(a, b), WarmthFirstTiers(b, a), WarmthFirstTiers(b, c),
                     WarmthFirstTiers(a, c), SameComponents(a, b, WarmthFirst, h))
  {
    IntTierLaws(a.ownReplicas, b.ownReplicas, c.ownReplicas);
    IntTierLaws(WarmthRank(a.warmth), WarmthRank(b.warmth), WarmthRank(c.warmth));
    SignalTierLaws(ValidNonNegative(a.gpuUtilization), ValidNonNegative(b.gpuUtilization),
                   ValidNonNegative(c.gpuUtilization));
    CountTierLaws(a.activeServiceCount, b.activeServiceCount, c.activeServiceCount);
    FourTiers(WarmthFirstTiers(a, b), WarmthFirstTiers(b, a), WarmthFirstTiers(b, c),
              WarmthFirstTiers(a, c), SameComponents(a, b, WarmthFirst, h));
  }

  lemma CompareLaws(a: Candidate, b: Candidate, c: Candidate, strategy: Strategy, horizon: Option<int>)
    ensures Compare(a, a, strategy, horizon) == Equal
    ensures Compare(a, b, strategy, horizon) == Compare(b, a, strategy, horizon).Reverse()
    ensures Coherent(Compare(a, b, strategy, horizon), Compare(b, c, strategy, horizon),
                     Compare(a, c, strategy, horizon))
  {
    EveryTierLaws(a, a, a, strategy, horizon);
    LexEqual(Tiers(a, a, strategy, horizon));
    EveryTierLaws(a, b, c, strategy, horizon);
    LexReverses(Tiers(a, b, strategy, horizon), Tiers(b, a, strategy, horizon));
    LexCoherent(Tiers(a, b, strategy, horizon), Tiers(b, c, strategy, horizon), Tiers(a, c, strategy, horizon));
  }

  lemma SameComponentsIffSameKey(a: Candidate, b: Candidate, strategy: Strategy, h: Option<int>)
    ensures (forall i :: 0 <= i < |SameComponents(a, b, strategy, h)| ==> SameComponents(a, b, strategy, h)[i])
      <==> FullKey(a, strategy, h) == FullKey(b, strategy, h)
  {
    var same := SameComponents(a, b, strategy, h);
    if forall i :: 0 <= i < |same| ==> same[i] {
      assert same[0] && same[1] && same[2] && same[3];
      assert strategy == EfficiencyAware ==> same[4] && same[5];
    }
  }

  /** Two candidates are indifferent exactly when their sanitised keys agree. */
  lemma EqualIffSameKey(a: Candidate, b: Candidate, strategy: Strategy, horizon: Option<int>)
    ensures Compare(a, b, strategy, horizon) == Equal
       <==> FullKey(a, strategy, horizon) == FullKey(b, strategy, horizon)
  {
    EveryTierLaws(a, b, b, strategy, horizon);
    SameComponentsIffSameKey(a, b, strategy, horizon);
    LexEqual(Tiers(a, b, strategy, horizon));
  }

  /** Fewer own replicas win; at equal own replicas, the warmer wins. */
  lemma OwnThenWarmth(a: Candidate, b: Candidate, strategy: Strategy, horizon: Option<int>)
    requires Compare(a, b, strategy, horizon) != Greater
    ensures b.ownReplicas <= a.ownReplicas
    ensures a.ownReplicas == b.ownReplicas ==> !Colder(b.warmth, a.warmth)
  {
    var t := Tiers(a, b, strategy, horizon);
    assert Lex(t) == t[0].Then(Lex(t[1..]));
    assert Lex(t[1..]) == t[1].Then(Lex(t[1..][1..]));
  }

  // ----- What the order is, read off the key

  /** Cold, then Warming, then Warm. */
  ghost predicate Colder(x: Warmth, y: Warmth) {
    (x == Cold && y != Cold) || (x == Warmth.Warming && y == Warm)
  }

  /** A sanitised signal below another: absence below any value, then by size,
      negative zero just below zero. */
  ghost predicate SignalBelow(x: Option<Signal>, y: Option<Signal>) {
    match (x, y)
    case (None, _) => y.Some?
    case (Some(Finite(v)), Some(Finite(w))) => v < w
    case (Some(NegZero), Some(Finite(w))) => 0.0 <= w
    case (Some(Finite(v)), Some(NegZero)) => v < 0.0
    case _ => false
  }

  /** The same where a smaller value is preferred: absence is still below any value. */
  ghost predicate SignalBelowLower(x: Option<Signal>, y: Option<Signal>) {
    if x.None? || y.None? then x.None? && y.Some? else SignalBelow(y, x)
  }

  ghost predicate CountBelow(x: Option<int>, y: Option<int>) {
    if x.None? || y.None? then x.None? && y.Some? else x.value > y.value
  }

  ghost predicate LowerLoad(x: Key, y: Key) {
    CountBelow(x.count, y.count) || (x.count == y.count && SignalBelowLower(x.utilization, y.utilization))
  }

  ghost predicate LowerEfficiency(x: Key, y: Key) {
    SignalBelow(x.tokensPerJoule, y.tokensPerJoule) || (x.tokensPerJoule == y.tokensPerJoule &&
      (SignalBelow(x.hitRate, y.hitRate) || (x.hitRate == y.hitRate &&
        (SignalBelowLower(x.utilization, y.utilization)
         || (x.utilization == y.utilization && CountBelow(x.count, y.count))))))
  }

  /** x is ranked below y: more own replicas; or as many and colder; or as warm
      and below by the strategy's signals in their order. */
  ghost predicate RankedBelow(x: Key, y: Key, strategy: Strategy) {
    x.own > y.own || (x.own == y.own &&
      (Colder(x.warmth, y.warmth) || (x.warmth == y.warmth &&
        if strategy == EfficiencyAware then LowerEfficiency(x, y) else LowerLoad(x, y))))
  }

  lemma SignalTier(x: Option<Signal>, y: Option<Signal>)
    requires x.Some? ==> x.value.IsFinite()
    requires y.Some? ==> y.value.IsFinite()
    ensures CmpSignal(x, y) == Less <==> SignalBelow(x, y)
    ensures CmpSignalLower(x, y) == Less <==> SignalBelowLower(x, y)
    ensures CmpSignal(x, y) == Equal <==> x == y
    ensures CmpSignalLower(x, y) == Equal <==> x == y
  {
    SignalTierLaws(x, y, y);
  }

  lemma LexHead(t: seq<Ordering>)
    requires t != []
    ensures Lex(t) == t[0].Then(Lex(t[1..]))
  {
  }

  lemma LexOfFour(t: seq<Ordering>)
    requires |t| == 4
    ensures Lex(t) == t[0].Then(t[1].Then(t[2].Then(t[3])))
  {
    LexHead(t);
    LexHead(t[1..]);
    LexHead(t[2..]);
    LexHead(t[3..]);
    assert t[1..][1..] == t[2..] && t[2..][1..] == t[3..] && t[3..][1..] == [];
  }

  lemma LexOfSix(t: seq<Ordering>)
    requires |t| == 6
    ensures Lex(t) == t[0].Then(t[1].Then(t[2].Then(t[3].Then(t[4].Then(t[5])))))
  {
    LexHead(t);
    LexHead(t[1..]);
    LexOfFour(t[2..]);
    assert t[1..][1..] == t[2..];
  }

  lemma CountTier(x: Option<int>, y: Option<int>)
    ensures CmpCountLower(x, y) == Less <==> CountBelow(x, y)
    ensures CmpCountLower(x, y) == Equal <==> x == y
  {
  }

  lemma WarmthTier(x: Warmth, y: Warmth)
    ensures CompareInts(WarmthRank(x), WarmthRank(y)) == Less <==> Colder(x, y)
    ensures CompareInts(WarmthRank(x), WarmthRank(y)) == Equal <==> x == y
  {
  }

  lemma EfficiencyTiers(a: Candidate, b: Candidate, h: Option<int>)
    ensures var t := EfficiencyAwareTiers(a, b, h);
            t[2].Then(t[3].Then(t[4].Then(t[5]))) == Less
            <==> LowerEfficiency(FullKey(a, EfficiencyAware, h), FullKey(b, EfficiencyAware, h))
  {
    SignalTier(ValidNonNegative(a.gpuUtilization), ValidNonNegative(b.gpuUtilization));
    SignalTier(FreshTokensPerJoule(a, h), FreshTokensPerJoule(b, h));
    SignalTier(FreshHitRate(a, h), FreshHitRate(b, h));
    CountTier(a.activeServiceCount, b.activeServiceCount);
  }

  lemma EfficiencyAwareIsLexicographic(a: Candidate, b: Candidate, h: Option<int>)
    ensures Lex(EfficiencyAwareTiers(a, b, h)) == Less
       <==> RankedBelow(FullKey(a, EfficiencyAware, h), FullKey(b, EfficiencyAware, h), EfficiencyAware)
  {
    WarmthTier(a.warmth, b.warmth);
    EfficiencyTiers(a, b, h);
    LexOfSix(EfficiencyAwareTiers(a, b, h));
  }

  lemma WarmthFirstIsLexicographic(a: Candidate, b: Candidate, strategy: Strategy, h: Option<int>)
    requires strategy != EfficiencyAware
    ensures Lex(WarmthFirstTiers(a, b)) == Less
       <==> RankedBelow(FullKey(a, strategy, h), FullKey(b, strategy, h), strategy)
  {
    WarmthTier(a.warmth, b.warmth);
    SignalTier(ValidNonNegative(a.gpuUtilization), ValidNonNegative(b.gpuUtilization));
    CountTier(a.activeServiceCount, b.activeServiceCount);
    LexOfFour(WarmthFirstTiers(a, b));
  }

  /** Either comparator prefers b to a exactly when a's sanitised key is ranked
      below b's. */
  lemma CompareIsLexicographic(a: Candidate, b: Candidate, strategy: Strategy, horizon: Option<int>)
    ensures Compare(a, b, strategy, horizon) == Less
       <==> RankedBelow(FullKey(a, strategy, horizon), FullKey(b, strategy, horizon), strategy)
  {
    if strategy == EfficiencyAware {
      EfficiencyAwareIsLexicographic(a, b, horizon);
    } else {
      WarmthFirstIsLexicographic(a, b, strategy, horizon);
    }
  }

  // ----- Selection

  function Ranking(strategy: Strategy, horizon: Option<int>): (Candidate, Candidate) -> Ordering {
    (a, b) => Compare(a, b, strategy, horizon)
  }

  /** For every signal, NaN and infinities and absence included, either
      strategy ranks candidates by one total preorder. */
  lemma RankingIsTotalPreorder(strategy: Strategy, horizon: Option<int>)
    ensures TotalPreorder(Ranking(strategy, horizon))
  {
    var cmp := Ranking(strategy, horizon);
    forall a, b, c
      ensures cmp(a, a) == Equal && cmp(a, b) == cmp(b, a).Reverse() && Coherent(cmp(a, b), cmp(b, c), cmp(a, c))
    {
      CompareLaws(a, b, c, strategy, horizon);
    }
  }

  /** The position of the selected candidate. */
  function SelectNode(cs: seq<Candidate>, strategy: Strategy, horizon: Option<int>): (r: Option<nat>)
    ensures r.None? <==> cs == [] || strategy == Unsupported
    ensures r.Some? ==> r.value < |cs|
  {
    if cs == [] || strategy == Unsupported then None
    else Some(MaxBy(cs, Ranking(strategy, horizon)))
  }

  function Without(cs: seq<Candidate>, node: NodeName): seq<Candidate> {
    if cs == [] then []
    else (if cs[0].name == node then [] else [cs[0]]) + Without(cs[1..], node)
  }

  /** A rule that picks one position of a list, or none. */
  type Selector = seq<Candidate> -> Option<nat>

  function StrategySelector(strategy: Strategy, horizon: Option<int>): Selector {
    cs => SelectNode(cs, strategy, horizon)
  }

  /** The choice a rule makes: nothing, or a position inside the list. */
  function Choice(cs: seq<Candidate>, pick: Selector): (r: Option<nat>)
    ensures r.Some? ==> r.value < |cs|
  {
    if pick(cs).Some? && pick(cs).value < |cs| then pick(cs) else None
  }

  /** The node that replaces a displaced one: the rule applied to the others. */
  function SelectReplacement(cs: seq<Candidate>, displacedNode: NodeName, pick: Selector): Option<NodeName> {
    var survivors := Without(cs, displacedNode);
    match Choice(survivors, pick)
    case Some(i) => Some(survivors[i].name)
    case None => None
  }

  /** The selected node holds the fewest of the fleet's own replicas, and no
      candidate with as few is warmer. */
  lemma SelectedHasFewestThenWarmest(cs: seq<Candidate>, strategy: Strategy, horizon: Option<int>, j: nat)
    requires SelectNode(cs, strategy, horizon).Some? && j < |cs|
    ensures var w := cs[SelectNode(cs, strategy, horizon).value];
            && w.ownReplicas <= cs[j].ownReplicas
            && (cs[j].ownReplicas == w.ownReplicas ==> !Colder(w.warmth, cs[j].warmth))
  {
    RankingIsTotalPreorder(strategy, horizon);
    MaxByIsLastMaximal(cs, Ranking(strategy, horizon));
    OwnThenWarmth(cs[j], cs[SelectNode(cs, strategy, horizon).value], strategy, horizon);
  }

  /** The candidate at i is preferred: none is ranked above it, and every later
      one is ranked below it. */
  ghost predicate IsPreferred(cs: seq<Candidate>, i: nat, strategy: Strategy, horizon: Option<int>) {
    i < |cs| && forall j :: 0 <= j < |cs| ==>
      && !RankedBelow(FullKey(cs[i], strategy, horizon), FullKey(cs[j], strategy, horizon), strategy)
      && (i < j ==> RankedBelow(FullKey(cs[j], strategy, horizon), FullKey(cs[i], strategy, horizon), strategy))
  }

  lemma SelectedIsPreferred(cs: seq<Candidate>, strategy: Strategy, horizon: Option<int>)
    requires SelectNode(cs, strategy, horizon).Some?
    ensures IsPreferred(cs, SelectNode(cs, strategy, horizon).value, strategy, horizon)
  {
    var i, cmp := SelectNode(cs, strategy, horizon).value, Ranking(strategy, horizon);
    RankingIsTotalPreorder(strategy, horizon);
    MaxByIsLastMaximal(cs, cmp);
    forall j | 0 <= j < |cs|
      ensures !RankedBelow(FullKey(cs[i], strategy, horizon), FullKey(cs[j], strategy, horizon), strategy)
      ensures i < j ==> RankedBelow(FullKey(cs[j], strategy, horizon), FullKey(cs[i], strategy, horizon), strategy)
    {
      CompareLaws(cs[i], cs[j], cs[j], strategy, horizon);
      CompareIsLexicographic(cs[i], cs[j], strategy, horizon);
      CompareIsLexicographic(cs[j], cs[i], strategy, horizon);
      assert cmp(cs[j], cs[i]) != Greater;
    }
  }

  /** A supported strategy selects a position if and only if the candidate there
      is preferred. */
  lemma SelectsIffPreferred(cs: seq<Candidate>, strategy: Strategy, horizon: Option<int>, i: nat)
    ensures SelectNode(cs, strategy, horizon) == Some(i)
       <==> strategy != Unsupported && IsPreferred(cs, i, strategy, horizon)
  {
    if strategy != Unsupported && cs != [] {
      SelectedIsPreferred(cs, strategy, horizon);
    }
  }

  ghost predicate DistinctKeys(cs: seq<Candidate>, strategy: Strategy, horizon: Option<int>) {
    forall i, j :: 0 <= i < j < |cs| ==> FullKey(cs[i], strategy, horizon) != FullKey(cs[j], strategy, horizon)
  }

  /** With pairwise distinct keys the order of the list does not matter. */
  lemma SelectionIgnoresOrder(cs: seq<Candidate>, ds: seq<Candidate>, strategy: Strategy, horizon: Option<int>)
    requires multiset(cs) == multiset(ds)
    requires DistinctKeys(cs, strategy, horizon)
    ensures match (SelectNode(cs, strategy, horizon), SelectNode(ds, strategy, horizon))
            case (Some(i), Some(j)) => cs[i] == ds[j]
            case (None, None) => true
            case _ => false
  {
    assert |cs| == |multiset(cs)| == |ds|;
    if cs != [] && strategy != Unsupported {
      var v := cs[SelectNode(cs, strategy, horizon).value];
      var w := ds[SelectNode(ds, strategy, horizon).value];
      assert v in multiset(ds) && w in multiset(cs);
      var i: nat :| i < |cs| && cs[i] == w;
      var j: nat :| j < |ds| && ds[j] == v;
      MutualWinnersTie(cs, ds, i, j, strategy, horizon);
      EqualIffSameKey(v, w, strategy, horizon);
    }
  }

  lemma MutualWinnersTie(cs: seq<Candidate>, ds: seq<Candidate>, i: nat, j: nat, strategy: Strategy,
                         horizon: Option<int>)
    requires i < |cs| && j < |ds|
    requires SelectNode(cs, strategy, horizon).Some? && SelectNode(ds, strategy, horizon).Some?
    requires cs[i] == ds[SelectNode(ds, strategy, horizon).value]
    requires ds[j] == cs[SelectNode(cs, strategy, horizon).value]
    ensures Compare(ds[j], cs[i], strategy, horizon) == Equal
  {
    var cmp := Ranking(strategy, horizon);
    RankingIsTotalPreorder(strategy, horizon);
    MaxByIsLastMaximal(cs, cmp);
    MaxByIsLastMaximal(ds, cmp);
    assert cmp(cs[i], ds[j]) != Greater && cmp(ds[j], cs[i]) != Greater;
  }

  /** The candidate with every signal past the horizon removed. */
  function StripStale(c: Candidate, horizon: Option<int>): Candidate {
    c.(kvCacheHitRate := if WithinHorizon(c.kvCacheHitRateAge, horizon) then c.kvCacheHitRate else None,
       tokensPerJoule := if WithinHorizon(c.tokensPerJouleAge, horizon) then c.tokensPerJoule else None)
  }

  function StripAll(cs: seq<Candidate>, horizon: Option<int>): (r: seq<Candidate>)
    ensures |r| == |cs| && forall i :: 0 <= i < |cs| ==> r[i] == StripStale(cs[i], horizon)
  {
    seq(|cs|, i requires 0 <= i < |cs| => StripStale(cs[i], horizon))
  }

  /** A signal past the horizon counts for exactly as much as one never
      observed: removing it picks the same position of the list. */
  lemma StaleSignalsDoNotCount(cs: seq<Candidate>, strategy: Strategy, horizon: Option<int>)
    ensures SelectNode(StripAll(cs, horizon), strategy, horizon) == SelectNode(cs, strategy, horizon)
  {
    var ds, cmp := StripAll(cs, horizon), Ranking(strategy, horizon);
    forall i, j | 0 <= i < |cs| && 0 <= j < |cs|
      ensures cmp(cs[i], cs[j]) == cmp(ds[i], ds[j])
    {
      StripKeepsComparison(cs[i], cs[j], strategy, horizon);
    }
    if cs != [] {
      MaxBySameOutcomes(cs, ds, cmp);
    }
  }

  lemma StripKeepsComparison(a: Candidate, b: Candidate, strategy: Strategy, horizon: Option<int>)
    ensures Compare(StripStale(a, horizon), StripStale(b, horizon), strategy, horizon)
         == Compare(a, b, strategy, horizon)
  {
    assert Tiers(StripStale(a, horizon), StripStale(b, horizon), strategy, horizon) == Tiers(a, b, strategy, horizon);
  }

  lemma {:induction false} OthersStay(cs: seq<Candidate>, node: NodeName, c: Candidate)
    ensures c in Without(cs, node) <==> c in cs && c.name != node
  {
    if cs != [] {
      OthersStay(cs[1..], node, c);
    }
  }

  /** A candidate on another node than that, with none ranked above it. */
  ghost predicate BestBut(cs: seq<Candidate>, node: NodeName, w: Candidate, strategy: Strategy, horizon: Option<int>) {
    && w in cs && w.name != node
    && forall c :: c in cs && c.name != node ==>
         !RankedBelow(FullKey(w, strategy, horizon), FullKey(c, strategy, horizon), strategy)
  }

  /** A replacement is the node of another candidate, none of the others ranked
      above it, and there is none only without another candidate. */
  lemma ReplacementIsPreferred(cs: seq<Candidate>, node: NodeName, strategy: Strategy, horizon: Option<int>)
    ensures var r := SelectReplacement(cs, node, StrategySelector(strategy, horizon));
            && (r.None? <==> strategy == Unsupported || forall c :: c in cs ==> c.name == node)
            && (r.Some? ==> exists w :: BestBut(cs, node, w, strategy, horizon) && w.name == r.value)
  {
    var others := Without(cs, node);
    forall c
      ensures c in others <==> c in cs && c.name != node
    {
      OthersStay(cs, node, c);
    }
    assert others != [] ==> others[0] in others;
    if SelectNode(others, strategy, horizon).Some? {
      var i := SelectNode(others, strategy, horizon).value;
      SelectedIsPreferred(others, strategy, horizon);
      assert others[i] in cs;
    }
  }

  /** Excluding a node that is no candidate changes nothing. */
  lemma {:induction false} WithoutAbsent(cs: seq<Candidate>, node: NodeName)
    requires forall b :: 0 <= b < |cs| ==> cs[b].name != node
    ensures Without(cs, node) == cs
  {
    if cs != [] {
      WithoutAbsent(cs[1..], node);
    }
  }
}
