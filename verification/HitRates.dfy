/** The cache hit rate a round publishes: between the rates of its targets, and
    within one unless a restart goes unnoticed. */
module HitRates {
  import opened Prelude
  import opened Placement
  import opened Reporter
  import opened TrueCounters

  // ----- The aggregated rate

  /** hits/queries of every delta lies between the two rates. */
  ghost predicate RatesWithin(ds: seq<Delta>, lo: real, hi: real) {
    forall k :: 0 <= k < |ds| ==>
      lo * ds[k].queries as real <= ds[k].hits as real <= hi * ds[k].queries as real
  }

  /** The hits there would be if every delta had this rate. */
  function HitsAtRate(ds: seq<Delta>, rate: real): real {
    if ds == [] then 0.0 else HitsAtRate(ds[..|ds| - 1], rate) + rate * ds[|ds| - 1].queries as real
  }

  lemma {:induction false} HitsAtRateIsProduct(ds: seq<Delta>, rate: real)
    ensures HitsAtRate(ds, rate) == rate * SumQueries(ds) as real
  {
    if ds != [] {
      HitsAtRateIsProduct(ds[..|ds| - 1], rate);
      Distribute(rate, SumQueries(ds[..|ds| - 1]), ds[|ds| - 1].queries);
    }
  }

  lemma {:induction false} HitsWithin(ds: seq<Delta>, lo: real, hi: real)
    requires RatesWithin(ds, lo, hi)
    ensures HitsAtRate(ds, lo) <= SumHits(ds) as real <= HitsAtRate(ds, hi)
  {
    if ds != [] {
      HitsWithin(ds[..|ds| - 1], lo, hi);
    }
  }

  lemma SumsAreWithin(ds: seq<Delta>, lo: real, hi: real)
    requires RatesWithin(ds, lo, hi)
    ensures lo * SumQueries(ds) as real <= SumHits(ds) as real <= hi * SumQueries(ds) as real
  {
    HitsWithin(ds, lo, hi);
    HitsAtRateIsProduct(ds, lo);
    HitsAtRateIsProduct(ds, hi);
  }

  lemma Distribute(x: real, a: int, b: int)
    ensures x * (a + b) as real == x * a as real + x * b as real
  {
    assert (a + b) as real == a as real + b as real;
  }

  function RateOf(d: Delta): real
    requires d.queries > 0
  {
    d.hits as real / d.queries as real
  }

  /** Rates of the targets with a query lie between the two. */
  ghost predicate TargetRatesWithin(ds: seq<Delta>, lo: real, hi: real) {
    forall k :: 0 <= k < |ds| && ds[k].queries > 0 ==> lo <= RateOf(ds[k]) <= hi
  }

  ghost predicate HitsAmongQueries(ds: seq<Delta>) {
    forall k :: 0 <= k < |ds| ==> 0 <= ds[k].hits <= ds[k].queries
  }

  lemma Scaled(x: real, y: real, q: real)
    requires x <= y && q >= 0.0
    ensures x * q <= y * q
  {
  }

  lemma Unscaled(x: real, y: real, q: real)
    requires x * q <= y * q && q > 0.0
    ensures x <= y
  {
    assert (y - x) * q >= 0.0;
  }

  lemma BetweenRates(d: Delta, lo: real, hi: real)
    requires 0 <= d.hits <= d.queries
    requires d.queries > 0 ==> lo <= RateOf(d) <= hi
    ensures lo * d.queries as real <= d.hits as real <= hi * d.queries as real
  {
    if d.queries > 0 {
      var q := d.queries as real;
      assert RateOf(d) * q == d.hits as real;
      Scaled(lo, RateOf(d), q);
      Scaled(RateOf(d), hi, q);
    } else {
      assert d.queries == 0 && d.hits == 0;
      assert lo * 0.0 == 0.0 && hi * 0.0 == 0.0;
    }
  }

  lemma Divided(h: int, q: int, lo: real, hi: real)
    requires q > 0 && lo * q as real <= h as real <= hi * q as real
    ensures lo <= h as real / q as real <= hi
  {
    var x := h as real / q as real;
    assert x * q as real == h as real;
    Unscaled(lo, x, q as real);
    Unscaled(x, hi, q as real);
  }

  lemma RateBetween(ds: seq<Delta>, lo: real, hi: real)
    requires RatesWithin(ds, lo, hi) && HitRate(ds).Some?
    ensures lo <= HitRate(ds).value <= hi
  {
    SumsAreWithin(ds, lo, hi);
    Divided(SumHits(ds), SumQueries(ds), lo, hi);
  }

  lemma EachBetween(ds: seq<Delta>, lo: real, hi: real)
    requires HitsAmongQueries(ds) && TargetRatesWithin(ds, lo, hi)
    ensures RatesWithin(ds, lo, hi)
  {
    forall k | 0 <= k < |ds|
      ensures lo * ds[k].queries as real <= ds[k].hits as real <= hi * ds[k].queries as real
    {
      BetweenRates(ds[k], lo, hi);
    }
  }

  lemma UnitRates(ds: seq<Delta>)
    requires HitsAmongQueries(ds)
    ensures RatesWithin(ds, 0.0, 1.0)
  {
  }

  /** With hits among queries in every interval, the aggregated rate is in
      [0, 1] and between any bounds on the rates of the targets that had
      queries, the smallest and the largest of them in particular. */
  lemma RateIsBetween(ds: seq<Delta>, lo: real, hi: real)
    requires HitsAmongQueries(ds) && TargetRatesWithin(ds, lo, hi) && HitRate(ds).Some?
    ensures lo <= HitRate(ds).value <= hi
    ensures 0.0 <= HitRate(ds).value <= 1.0
  {
    EachBetween(ds, lo, hi);
    RateBetween(ds, lo, hi);
    UnitRates(ds);
    RateBetween(ds, 0.0, 1.0);
  }

  // ----- Exactly when a published rate is within one

  /** The misses counter is what remains of the queries. */
  function Misses(r: Reading): int {
    r.queries - r.hits
  }

  /** How far the misses counters moved, over the targets of the round that emit a delta. */
  function MissesGained(prev: map<Url, Reading>, targets: seq<Url>, pages: seq<Page>, n: nat): int
    requires n <= |targets| == |pages|
  {
    if n == 0 then 0
    else
      MissesGained(prev, targets, pages, n - 1)
      + MissesOf(Lookup(RoundAfter(prev, targets, pages, n - 1).prev, targets[n - 1]), pages[n - 1])
  }

  function MissesOf(base: Option<Reading>, page: Page): int {
    if Shows(page) && DeltaFrom(base, page.reading.value).hq.Some? then Misses(page.reading.value) - Misses(base.value)
    else 0
  }

  lemma ScrapedMisses(r: Round, url: Url, page: Page)
    ensures var r' := Scraped(r, url, page);
            SumQueries(r'.deltas) - SumHits(r'.deltas)
            == SumQueries(r.deltas) - SumHits(r.deltas) + MissesOf(Lookup(r.prev, url), page)
  {
    if Shows(page) && DeltaFrom(Lookup(r.prev, url), page.reading.value).hq.Some? {
      ScrapedAddsUp(r, url, page);
    }
  }

  lemma {:induction false} GainIsQueriesLessHits(prev: map<Url, Reading>, targets: seq<Url>, pages: seq<Page>, n: nat)
    requires n <= |targets| == |pages|
    ensures var ds := RoundAfter(prev, targets, pages, n).deltas;
            SumQueries(ds) - SumHits(ds) == MissesGained(prev, targets, pages, n)
  {
    if n > 0 {
      GainIsQueriesLessHits(prev, targets, pages, n - 1);
      ScrapedMisses(RoundAfter(prev, targets, pages, n - 1), targets[n - 1], pages[n - 1]);
    }
  }

  lemma WithinOne(h: int, q: int)
    requires q > 0
    ensures h as real / q as real <= 1.0 <==> h <= q
  {
    var x := h as real / q as real;
    assert x * q as real == h as real;
    if h <= q {
      Unscaled(x, 1.0, q as real);
    }
    if x <= 1.0 {
      Scaled(x, 1.0, q as real);
    }
  }

  /** A published rate is within one if and only if the misses counters of the
      targets that emit a delta did not, together, go backwards. */
  lemma PublishedWithinOneIff(prev: map<Url, Reading>, targets: seq<Url>, pages: seq<Page>)
    requires |targets| == |pages|
    requires Published(RoundAfter(prev, targets, pages, |targets|)).hitRate.Some?
    ensures Published(RoundAfter(prev, targets, pages, |targets|)).hitRate.value <= 1.0
       <==> MissesGained(prev, targets, pages, |targets|) >= 0
  {
    var ds := RoundAfter(prev, targets, pages, |targets|).deltas;
    GainIsQueriesLessHits(prev, targets, pages, |targets|);
    WithinOne(SumHits(ds), SumQueries(ds));
  }

  // ----- Published rates over true counters

  /** No query counts more hits than queries. */
  ghost predicate TrueHits(es: seq<Event>, u: Url) {
    forall k :: 0 <= k < |es| && es[k].Grow? && es[k].url == u ==> es[k].hits <= es[k].queries
  }

  /** The target has not restarted since its last scrape, if it has one. */
  predicate Unbroken(es: seq<Event>, u: Url) {
    es == [] || IsScrapeOf(es[|es| - 1], u)
    || (if es[|es| - 1] == Restart(u) then LastScraped(es, u).None? else Unbroken(es[..|es| - 1], u))
  }

  /** The misses counter has not fallen below the baseline. */
  ghost predicate MissesKept(es: seq<Event>, u: Url) {
    var base := Lookup(Baselines(es), u);
    base.Some? ==> Value(es, u).queries - Value(es, u).hits >= Misses(base.value)
  }

  lemma {:induction false} NoScrapeNoBaseline(es: seq<Event>, u: Url)
    ensures LastScraped(es, u).None? <==> Lookup(Baselines(es), u).None?
    decreases |es|
  {
    if es != [] {
      NoScrapeNoBaseline(es[..|es| - 1], u);
    }
  }

  lemma MissesKeptNext(es: seq<Event>, u: Url)
    requires es != [] && MissesKept(es[..|es| - 1], u)
    requires es[|es| - 1].Grow? && es[|es| - 1].url == u ==> es[|es| - 1].hits <= es[|es| - 1].queries
    requires es[|es| - 1] != Restart(u)
    ensures MissesKept(es, u)
  {
  }

  lemma MissesKeptAtScrape(es: seq<Event>, u: Url)
    requires es != [] && IsScrapeOf(es[|es| - 1], u)
    ensures MissesKept(es, u)
  {
  }

  lemma {:induction false} UnbrokenKeepsMisses(es: seq<Event>, u: Url)
    requires TrueHits(es, u) && Unbroken(es, u)
    ensures MissesKept(es, u)
    decreases |es|
  {
    if es != [] {
      var last := es[|es| - 1];
      if IsScrapeOf(last, u) {
        MissesKeptAtScrape(es, u);
      } else if last == Restart(u) {
        NoScrapeNoBaseline(es, u);
      } else {
        UnbrokenKeepsMisses(es[..|es| - 1], u);
        MissesKeptNext(es, u);
      }
    }
  }

  /** Scraping a target that has not restarted since its last scrape emits no
      more hits than queries. */
  lemma NoRestartNoExcess(es: seq<Event>, u: Url, showsTokens: bool)
    requires TrueHits(es, u) && Unbroken(es, u)
    ensures var hq := AdvanceAt(es, u, showsTokens).hq;
            hq.Some? ==> 0 <= hq.value.hits <= hq.value.queries
  {
    UnbrokenKeepsMisses(es, u);
  }

  /** The counters have overtaken the baseline, and counted fewer misses on the way. */
  ghost predicate Overtakes(v: Counters, base: Reading) {
    v.hits >= base.hits && v.queries >= base.queries && v.queries - v.hits < Misses(base)
  }

  /** Exactly when a scrape emits more hits than queries: the target has restarted
      since its last scrape, and its counters have overtaken the baseline again
      with fewer misses than it shows. */
  lemma ExcessIff(es: seq<Event>, u: Url, showsTokens: bool)
    requires TrueHits(es, u)
    ensures var hq, base := AdvanceAt(es, u, showsTokens).hq, Lookup(Baselines(es), u);
            hq.Some? && hq.value.hits > hq.value.queries
            <==> !Unbroken(es, u) && base.Some? && Overtakes(Value(es, u), base.value)
  {
    if Unbroken(es, u) {
      UnbrokenKeepsMisses(es, u);
    }
  }

  /** Every target that answers is unbroken when the round reaches it. */
  ghost predicate UnbrokenRound(es: seq<Event>, targets: seq<Url>, pages: seq<Page>, gaps: seq<seq<Event>>)
    requires |targets| == |pages| == |gaps|
  {
    forall k :: 0 <= k < |pages| ==> UnbrokenAt(es, targets, pages, gaps, k)
  }

  ghost predicate UnbrokenAt(es: seq<Event>, targets: seq<Url>, pages: seq<Page>, gaps: seq<seq<Event>>, k: nat)
    requires k < |targets| == |pages| == |gaps|
  {
    var reached := Reached(es, targets, pages, gaps, k);
    Shows(pages[k]) ==> TrueHits(reached, targets[k]) && Unbroken(reached, targets[k])
  }

  lemma OneMoreAmong(r: Round, url: Url, page: Page, es: seq<Event>)
    requires HitsAmongQueries(r.deltas) && r.prev == Baselines(es)
    requires Shows(page) ==> page.reading.value == Shown(Value(es, url), ShowsTokens(page)) && MissesKept(es, url)
    ensures HitsAmongQueries(Scraped(r, url, page).deltas)
  {
  }

  lemma {:induction false} RoundAmongQueries(es: seq<Event>, targets: seq<Url>, pages: seq<Page>, gaps: seq<seq<Event>>,
                                             n: nat)
    requires Truthful(es, targets, pages, gaps) && UnbrokenRound(es, targets, pages, gaps) && n <= |targets|
    ensures HitsAmongQueries(RoundAfter(Baselines(es), targets, pages, n).deltas)
  {
    if n > 0 {
      var url, page := targets[n - 1], pages[n - 1];
      var reached := Reached(es, targets, pages, gaps, n - 1);
      RoundAmongQueries(es, targets, pages, gaps, n - 1);
      BaselinesReached(es, targets, pages, gaps, n - 1);
      assert TruthfulAt(es, targets, pages, gaps, n - 1) && UnbrokenAt(es, targets, pages, gaps, n - 1);
      if Shows(page) {
        UnbrokenKeepsMisses(reached, url);
      }
      OneMoreAmong(RoundAfter(Baselines(es), targets, pages, n - 1), url, page, reached);
    }
  }

  lemma BaselinesReached(es: seq<Event>, targets: seq<Url>, pages: seq<Page>, gaps: seq<seq<Event>>, k: nat)
    requires Truthful(es, targets, pages, gaps) && k < |targets|
    ensures RoundAfter(Baselines(es), targets, pages, k).prev == Baselines(Reached(es, targets, pages, gaps, k))
  {
    RoundInStep(es, targets, pages, gaps, k);
    GapInStep(RoundAfter(Baselines(es), targets, pages, k), WithRound(es, targets, pages, gaps, k), EmittedByAll(es),
              gaps[k]);
  }

  /** Over true counters, a rate published by a round whose targets have not
      restarted since their last scrape is in [0, 1], and between the smallest
      and largest rates of the targets that had queries. */
  lemma PublishedRateIsARate(es: seq<Event>, targets: seq<Url>, pages: seq<Page>, gaps: seq<seq<Event>>, lo: real,
                             hi: real)
    requires Truthful(es, targets, pages, gaps) && UnbrokenRound(es, targets, pages, gaps)
    requires Published(RoundAfter(Baselines(es), targets, pages, |targets|)).hitRate.Some?
    ensures var r := RoundAfter(Baselines(es), targets, pages, |targets|);
            var rate := Published(r).hitRate.value;
            0.0 <= rate <= 1.0 && (TargetRatesWithin(r.deltas, lo, hi) ==> lo <= rate <= hi)
  {
    var ds := RoundAfter(Baselines(es), targets, pages, |targets|).deltas;
    RoundAmongQueries(es, targets, pages, gaps, |targets|);
    UnitRates(ds);
    RateBetween(ds, 0.0, 1.0);
    if TargetRatesWithin(ds, lo, hi) {
      RateIsBetween(ds, lo, hi);
    }
  }

  // ----- A restart inside an interval

  lemma Next(es: seq<Event>, e: Event)
    ensures (es + [e])[..|es|] == es && (es + [e])[|es|] == e
  {
  }

  lemma AfterTenMisses(u: Url) returns (es: seq<Event>)
    ensures es == [Grow(u, 0, 10, 0), Scrape(u, true)]
    ensures Value(es, u) == Counters(0, 10, 0) && Lookup(Baselines(es), u) == Some(Reading(0, 10, Some(0)))
  {
    var first := [Grow(u, 0, 10, 0)];
    assert first[..0] == [];
    Next(first, Scrape(u, true));
    assert Value(first, u) == Counters(0, 10, 0);
    es := first + [Scrape(u, true)];
  }

  lemma AfterRestart(es: seq<Event>, u: Url)
    ensures Value(es + [Restart(u)], u) == ZERO
    ensures Same(Baselines(es + [Restart(u)]), Baselines(es))
  {
    Next(es, Restart(u));
  }

  lemma AfterGrowth(es: seq<Event>, u: Url, h: nat, q: nat, t: nat)
    ensures Value(es + [Grow(u, h, q, t)], u) == Plus(Value(es, u), h, q, t)
    ensures Same(Baselines(es + [Grow(u, h, q, t)]), Baselines(es))
  {
    Next(es, Grow(u, h, q, t));
  }

  lemma Overtaken(before: seq<Event>, u: Url)
    ensures Value(before + [Restart(u)] + [Grow(u, 15, 15, 0)], u) == Counters(15, 15, 0)
    ensures Same(Baselines(before + [Restart(u)] + [Grow(u, 15, 15, 0)]), Baselines(before))
  {
    AfterRestart(before, u);
    AfterGrowth(before + [Restart(u)], u, 15, 15, 0);
  }

  lemma TrueHistory(u: Url, es: seq<Event>)
    requires es == [Grow(u, 0, 10, 0), Scrape(u, true)] + [Restart(u)] + [Grow(u, 15, 15, 0)]
    ensures TrueHits(es, u)
  {
  }

  lemma SingleRate(d: Delta)
    requires d.queries > 0
    ensures HitRate([d]) == Some(RateOf(d))
  {
    var ds := [d];
    assert ds[..|ds| - 1] == [] && ds[|ds| - 1] == d;
    assert SumHits([]) == 0 && SumQueries([]) == 0;
    assert SumHits(ds) == d.hits;
    assert SumQueries(ds) == d.queries;
  }

  lemma OneTargetRound(prev: map<Url, Reading>, u: Url, page: Page, d: Delta)
    requires Shows(page) && DeltaFrom(Lookup(prev, u), page.reading.value).hq == Some(d) && d.queries > 0
    ensures Published(RoundAfter(prev, [u], [page], 1)).hitRate == Some(RateOf(d))
  {
    assert RoundAfter(prev, [u], [page], 1) == Scraped(RoundAfter(prev, [u], [page], 0), u, page);
    assert RoundAfter(prev, [u], [page], 1).deltas == [d];
    SingleRate(d);
  }

  lemma OvertakingDelta()
    ensures DeltaFrom(Some(Reading(0, 10, Some(0))), Reading(15, 15, Some(0))).hq == Some(Delta(15, 5))
    ensures RateOf(Delta(15, 5)) == 3.0
  {
  }

  lemma OvertakingRound(prev: map<Url, Reading>, u: Url, page: Page)
    requires Lookup(prev, u) == Some(Reading(0, 10, Some(0)))
    requires page == Page(None, None, Some(Reading(15, 15, Some(0))))
    ensures Published(RoundAfter(prev, [u], [page], 1)).hitRate == Some(3.0)
  {
    OvertakingDelta();
    OneTargetRound(prev, u, page, Delta(15, 5));
  }

  lemma OvertakenHistory(u: Url) returns (es: seq<Event>)
    ensures TrueHits(es, u) && Value(es, u) == Counters(15, 15, 0)
    ensures Lookup(Baselines(es), u) == Some(Reading(0, 10, Some(0)))
  {
    var scraped := AfterTenMisses(u);
    es := scraped + [Restart(u)] + [Grow(u, 15, 15, 0)];
    TrueHistory(u, es);
    Overtaken(scraped, u);
  }

  /** A restart that the counters overtake goes unnoticed: ten misses, a scrape,
      a restart, fifteen hits, and the next round publishes a rate of three. */
  lemma RestartCanExceedOne(u: Url) returns (es: seq<Event>, page: Page)
    ensures TrueHits(es, u) && Truthful(es, [u], [page], [[]])
    ensures Published(RoundAfter(Baselines(es), [u], [page], 1)).hitRate == Some(3.0)
  {
    es := OvertakenHistory(u);
    page := Page(None, None, Some(Reading(15, 15, Some(0))));
    assert Reached(es, [u], [page], [[]], 0) == es + [] == es;
    OvertakingRound(Baselines(es), u, page);
  }

  /** Ranking drops a published rate if and only if it exceeds one. */
  lemma ExcessiveRateIsDropped(ds: seq<Delta>)
    requires HitRate(ds).Some? && SumHits(ds) >= 0
    ensures ValidHitRate(Some(Finite(HitRate(ds).value))).None? <==> SumHits(ds) > SumQueries(ds)
  {
    WithinOne(SumHits(ds), SumQueries(ds));
    NotNegative(SumHits(ds), SumQueries(ds));
  }

  lemma NotNegative(h: int, q: int)
    requires h >= 0 && q > 0
    ensures 0.0 <= h as real / q as real
  {
  }
}
