/** Small shared vocabulary: optional values, three-way orderings, 32-bit integers. */
module Prelude {

  datatype Option<+T> = None | Some(value: T) {
    function UnwrapOr(default: T): T {
      match this
      case Some(v) => v
      case None => default
    }
  }

  /** Equality of two values as they stand. Stated this way, two maps, or two
      values that hold maps, are not compared key by key in a proof. */
  ghost predicate Same<T>(a: T, b: T) {
    Some(a) == Some(b)
  }

  /** The three-way result of a comparison. */
  datatype Ordering = Less | Equal | Greater {

    function Then(next: Ordering): Ordering {
      if this == Equal then next else this
    }

    function Reverse(): Ordering {
      match this
      case Less => Greater
      case Equal => Equal
      case Greater => Less
    }
  }

  function CompareInts(x: int, y: int): Ordering {
    if x < y then Less else if x == y then Equal else Greater
  }

  /** The outcomes of comparing a with b, b with c and a with c are those of
      one total preorder. */
  ghost predicate Coherent(ab: Ordering, bc: Ordering, ac: Ordering) {
    && (ab != Greater && bc != Greater ==> ac == if ab == Equal then bc else Less)
    && (ab != Less && bc != Less ==> ac == if ab == Equal then bc else Greater)
  }

  /** A chain of tiers: the first that is not Equal decides. */
  function Lex(tiers: seq<Ordering>): Ordering {
    if tiers == [] then Equal else tiers[0].Then(Lex(tiers[1..]))
  }

  lemma {:induction false} LexReverses(xs: seq<Ordering>, ys: seq<Ordering>)
    requires |xs| == |ys| && forall i :: 0 <= i < |xs| ==> xs[i] == ys[i].Reverse()
    ensures Lex(xs) == Lex(ys).Reverse()
  {
    if xs != [] {
      LexReverses(xs[1..], ys[1..]);
    }
  }

  lemma {:induction false} LexEqual(xs: seq<Ordering>)
    ensures Lex(xs) == Equal <==> forall i :: 0 <= i < |xs| ==> xs[i] == Equal
  {
    if xs != [] {
      LexEqual(xs[1..]);
      assert (forall i :: 0 <= i < |xs| ==> xs[i] == Equal)
        <==> xs[0] == Equal && forall i :: 0 <= i < |xs[1..]| ==> xs[1..][i] == Equal;
    }
  }

  /** Coherence of every tier is coherence of the chain. */
  lemma {:induction false} LexCoherent(ab: seq<Ordering>, bc: seq<Ordering>, ac: seq<Ordering>)
    requires |ab| == |bc| == |ac|
    requires forall i :: 0 <= i < |ab| ==> Coherent(ab[i], bc[i], ac[i])
    ensures Coherent(Lex(ab), Lex(bc), Lex(ac))
  {
    if ab != [] {
      LexCoherent(ab[1..], bc[1..], ac[1..]);
    }
  }

  /** One tier behaves as a total preorder whose ties are exactly `same`. */
  ghost predicate TierLaw(ab: Ordering, ba: Ordering, bc: Ordering, ac: Ordering, same: bool) {
    ab == ba.Reverse() && Coherent(ab, bc, ac) && (ab == Equal <==> same)
  }

  ghost predicate TierLaws(ab: seq<Ordering>, ba: seq<Ordering>, bc: seq<Ordering>, ac: seq<Ordering>,
                           same: seq<bool>) {
    && |ab| == |ba| == |bc| == |ac| == |same|
    && forall i :: 0 <= i < |ab| ==> TierLaw(ab[i], ba[i], bc[i], ac[i], same[i])
  }

  ghost predicate TotalPreorder<T(!new)>(cmp: (T, T) -> Ordering) {
    && (forall a :: cmp(a, a) == Equal)
    && (forall a, b :: cmp(a, b) == cmp(b, a).Reverse())
    && (forall a, b, c :: Coherent(cmp(a, b), cmp(b, c), cmp(a, c)))
  }

  /** The index a left-to-right maximum keeps: a later element replaces the
      best so far unless it is strictly less. */
  function MaxBy<T>(xs: seq<T>, cmp: (T, T) -> Ordering): (b: nat)
    requires xs != []
    ensures b < |xs|
  {
    var last := |xs| - 1;
    if last == 0 then 0
    else
      var b := MaxBy(xs[..last], cmp);
      if cmp(xs[b], xs[last]) == Greater then b else last
  }

  /** That index is the last of the maximal elements. */
  lemma {:induction false} MaxByIsLastMaximal<T(!new)>(xs: seq<T>, cmp: (T, T) -> Ordering)
    requires xs != [] && TotalPreorder(cmp)
    ensures forall j :: 0 <= j < |xs| ==> cmp(xs[j], xs[MaxBy(xs, cmp)]) != Greater
    ensures forall j :: MaxBy(xs, cmp) < j < |xs| ==> cmp(xs[j], xs[MaxBy(xs, cmp)]) == Less
  {
    var last := |xs| - 1;
    if last != 0 {
      MaxByIsLastMaximal(xs[..last], cmp);
      var b := MaxBy(xs[..last], cmp);
      assert forall j :: 0 <= j < last ==> xs[..last][j] == xs[j];
      if cmp(xs[b], xs[last]) != Greater {
        forall j | 0 <= j < last
          ensures cmp(xs[j], xs[last]) != Greater
        {
          assert cmp(xs[j], xs[b]) != Greater;
          assert Coherent(cmp(xs[j], xs[b]), cmp(xs[b], xs[last]), cmp(xs[j], xs[last]));
        }
      }
    }
  }

  /** The position of the maximum depends only on the outcomes of the comparisons. */
  lemma {:induction false} MaxBySameOutcomes<T>(xs: seq<T>, ys: seq<T>, cmp: (T, T) -> Ordering)
    requires |xs| == |ys| > 0
    requires forall i, j :: 0 <= i < |xs| && 0 <= j < |xs| ==> cmp(xs[i], xs[j]) == cmp(ys[i], ys[j])
    ensures MaxBy(xs, cmp) == MaxBy(ys, cmp)
  {
    var last := |xs| - 1;
    if last != 0 {
      MaxBySameOutcomes(xs[..last], ys[..last], cmp);
    }
  }

  const I32_MAX: int := 0x7FFF_FFFF

  type i32 = x: int | -0x8000_0000 <= x <= 0x7FFF_FFFF

  function Max(a: int, b: int): int {
    if a > b then a else b
  }

  function Min(a: int, b: int): int {
    if a < b then a else b
  }
}
