/** The reporter's deltas against what its targets truly counted: histories with
    growth, restarts and missed scrapes. */
module TrueCounters {
  import opened Prelude
  import opened Reporter

  // ----- Histories

  /** What happens to a target: its counters grow, it restarts from zero, or it is scraped. */
  datatype Event =
    | Grow(url: Url, hits: nat, queries: nat, tokens: nat)
    | Restart(url: Url)
    | Scrape(url: Url, showsTokens: bool)

  datatype Counters = Counters(hits: nat, queries: nat, tokens: nat)

  const ZERO := Counters(0, 0, 0)

  function Plus(c: Counters, h: nat, q: nat, t: nat): Counters {
    Counters(c.hits + h, c.queries + q, c.tokens + t)
  }

  /** The target's counters after the events. */
  function Value(es: seq<Event>, u: Url): Counters {
    if es == [] then ZERO
    else
      var v := Value(es[..|es| - 1], u);
      match es[|es| - 1]
      case Grow(url, h, q, t) => if url == u then Plus(v, h, q, t) else v
      case Restart(url) => if url == u then ZERO else v
      case Scrape(_, _) => v
  }

  /** All the target ever counted, restarts notwithstanding. */
  function Increase(es: seq<Event>, u: Url): Counters {
    if es == [] then ZERO
    else
      var v := Increase(es[..|es| - 1], u);
      match es[|es| - 1]
      case Grow(url, h, q, t) => if url == u then Plus(v, h, q, t) else v
      case _ => v
  }

  function Shown(v: Counters, showsTokens: bool): Reading {
    Reading(v.hits, v.queries, if showsTokens then Some(v.tokens) else None)
  }

  /** The scraper's baselines after the events. */
  function Baselines(es: seq<Event>): map<Url, Reading> {
    if es == [] then map[]
    else
      var before := es[..|es| - 1];
      match es[|es| - 1]
      case Scrape(url, shows) => Baselines(before)[url := Shown(Value(before, url), shows)]
      case _ => Baselines(before)
  }

  datatype Totals = Totals(hits: int, queries: int, tokens: int)

  function HitsIn(a: Advance): int {
    if a.hq.Some? then a.hq.value.hits else 0
  }

  function QueriesIn(a: Advance): int {
    if a.hq.Some? then a.hq.value.queries else 0
  }

  function AddAdvance(t: Totals, a: Advance): Totals {
    Totals(t.hits + HitsIn(a), t.queries + QueriesIn(a), t.tokens + a.tokens.UnwrapOr(0))
  }

  /** What a scrape of the target emits at this point of the history. */
  function AdvanceAt(es: seq<Event>, u: Url, showsTokens: bool): Advance {
    DeltaFrom(Lookup(Baselines(es), u), Shown(Value(es, u), showsTokens))
  }

  /** The sum of the deltas emitted for the target. */
  function Emitted(es: seq<Event>, u: Url): Totals {
    if es == [] then Totals(0, 0, 0)
    else
      var before := es[..|es| - 1];
      match es[|es| - 1]
      case Scrape(url, shows) =>
        if url == u then AddAdvance(Emitted(before, u), AdvanceAt(before, u, shows)) else Emitted(before, u)
      case _ => Emitted(before, u)
  }

  /** What could still be emitted for a counter since its baseline. */
  function Pending(baseline: Option<int>, value: int): int {
    if baseline.None? then 0 else Max(0, value - baseline.value)
  }

  function HitsBase(r: Option<Reading>): Option<int> {
    if r.None? then None else Some(r.value.hits)
  }

  function QueriesBase(r: Option<Reading>): Option<int> {
    if r.None? then None else Some(r.value.queries)
  }

  function TokensBase(r: Option<Reading>): Option<int> {
    if r.None? then None else r.value.tokens
  }

  /** Whatever was emitted and could still be is covered by the true increase. */
  ghost predicate Covered(es: seq<Event>, u: Url) {
    var base, v, sum, truth := Lookup(Baselines(es), u), Value(es, u), Emitted(es, u), Increase(es, u);
    && sum.hits + Pending(HitsBase(base), v.hits) <= truth.hits
    && sum.queries + Pending(QueriesBase(base), v.queries) <= truth.queries
    && sum.tokens + Pending(TokensBase(base), v.tokens) <= truth.tokens
    && (base.Some? ==> base.value.hits >= 0 && base.value.queries >= 0
                       && (base.value.tokens.Some? ==> base.value.tokens.value >= 0))
  }

  lemma {:induction false} AlwaysCovered(es: seq<Event>, u: Url)
    ensures Covered(es, u)
    decreases |es|
  {
    if es != [] {
      AlwaysCovered(es[..|es| - 1], u);
    }
  }

  /** Deltas never over-report: with arbitrary restarts and missed scrapes, of
      this target and of others, the emitted deltas of a target add up to no
      more than it truly counted. */
  lemma NeverOverReports(es: seq<Event>, u: Url)
    ensures Emitted(es, u).hits <= Increase(es, u).hits
    ensures Emitted(es, u).queries <= Increase(es, u).queries
    ensures Emitted(es, u).tokens <= Increase(es, u).tokens
  {
    AlwaysCovered(es, u);
  }

  // ----- Rounds over true counters

  /** Growth and restarts only. */
  ghost predicate NoScrapes(es: seq<Event>) {
    forall k :: 0 <= k < |es| ==> !es[k].Scrape?
  }

  function ShowsTokens(page: Page): bool
    requires Shows(page)
  {
    page.reading.value.tokens.Some?
  }

  /** The history when the k-th target of a round is reached: the targets before
      it were scraped one after another, and things happened in between. */
  function Reached(es: seq<Event>, targets: seq<Url>, pages: seq<Page>, gaps: seq<seq<Event>>, k: nat): seq<Event>
    requires k < |targets| == |pages| == |gaps|
  {
    WithRound(es, targets, pages, gaps, k) + gaps[k]
  }

  /** The history after the first n targets of a round. */
  function WithRound(es: seq<Event>, targets: seq<Url>, pages: seq<Page>, gaps: seq<seq<Event>>, n: nat): seq<Event>
    requires n <= |targets| == |pages| == |gaps|
  {
    if n == 0 then es
    else
      var before := WithRound(es, targets, pages, gaps, n - 1) + gaps[n - 1];
      if Shows(pages[n - 1]) then before + [Scrape(targets[n - 1], ShowsTokens(pages[n - 1]))] else before
  }

  /** Each page shows the true counters of its target at the moment it is scraped. */
  ghost predicate Truthful(es: seq<Event>, targets: seq<Url>, pages: seq<Page>, gaps: seq<seq<Event>>) {
    && |targets| == |pages| == |gaps|
    && (forall k :: 0 <= k < |gaps| ==> NoScrapes(gaps[k]))
    && (forall k :: 0 <= k < |pages| ==> TruthfulAt(es, targets, pages, gaps, k))
  }

  ghost predicate TruthfulAt(es: seq<Event>, targets: seq<Url>, pages: seq<Page>, gaps: seq<seq<Event>>, k: nat)
    requires k < |targets| == |pages| == |gaps|
  {
    Shows(pages[k]) ==>
      pages[k].reading.value
      == Shown(Value(Reached(es, targets, pages, gaps, k), targets[k]), ShowsTokens(pages[k]))
  }

  /** The sum of the deltas emitted for all targets. */
  function EmittedByAll(es: seq<Event>): Totals {
    if es == [] then Totals(0, 0, 0)
    else
      var before := es[..|es| - 1];
      match es[|es| - 1]
      case Scrape(url, shows) => AddAdvance(EmittedByAll(before), AdvanceAt(before, url, shows))
      case _ => EmittedByAll(before)
  }

  lemma AfterScrape(es: seq<Event>, url: Url, shows: bool)
    ensures var es' := es + [Scrape(url, shows)];
            var a := AdvanceAt(es, url, shows);
            && Baselines(es') == Baselines(es)[url := Shown(Value(es, url), shows)]
            && EmittedByAll(es').hits == EmittedByAll(es).hits + HitsIn(a)
            && EmittedByAll(es').queries == EmittedByAll(es).queries + QueriesIn(a)
            && EmittedByAll(es').tokens == EmittedByAll(es).tokens + a.tokens.UnwrapOr(0)
  {
    assert (es + [Scrape(url, shows)])[..|es|] == es;
  }

  lemma {:induction false} AfterGap(es: seq<Event>, gap: seq<Event>)
    requires NoScrapes(gap)
    ensures Same(Baselines(es + gap), Baselines(es)) && EmittedByAll(es + gap) == EmittedByAll(es)
    decreases |gap|
  {
    if gap == [] {
      assert es + gap == es;
    } else {
      var last := |gap| - 1;
      AfterGap(es, gap[..last]);
      assert (es + gap)[..|es + gap| - 1] == es + gap[..last];
      assert (es + gap)[|es + gap| - 1] == gap[last];
    }
  }

  lemma ScrapedAddsUp(r: Round, url: Url, page: Page)
    requires Shows(page)
    ensures var r', a := Scraped(r, url, page), DeltaFrom(Lookup(r.prev, url), page.reading.value);
            && r'.prev == r.prev[url := page.reading.value]
            && SumHits(r'.deltas) == SumHits(r.deltas) + HitsIn(a)
            && SumQueries(r'.deltas) == SumQueries(r.deltas) + QueriesIn(a)
            && r'.tokens.UnwrapOr(0) == r.tokens.UnwrapOr(0) + a.tokens.UnwrapOr(0)
  {
    var step := DeltaFrom(Lookup(r.prev, url), page.reading.value);
    if step.hq.Some? {
      assert (r.deltas + [step.hq.value])[..|r.deltas|] == r.deltas;
    }
  }

  lemma SilentInStep(r: Round, es: seq<Event>, start: Totals, url: Url, page: Page)
    requires InStep(r, es, start) && !Shows(page)
    ensures InStep(Scraped(r, url, page), es, start)
  {
  }

  /** The round has the baselines and the sums of the history. */
  ghost predicate InStep(r: Round, es: seq<Event>, start: Totals) {
    && Same(r.prev, Baselines(es))
    && EmittedByAll(es).hits == start.hits + SumHits(r.deltas)
    && EmittedByAll(es).queries == start.queries + SumQueries(r.deltas)
    && EmittedByAll(es).tokens == start.tokens + r.tokens.UnwrapOr(0)
  }

  lemma GapInStep(r: Round, es: seq<Event>, start: Totals, gap: seq<Event>)
    requires InStep(r, es, start) && NoScrapes(gap)
    ensures InStep(r, es + gap, start)
  {
    AfterGap(es, gap);
  }

  lemma ScrapeInStep(r: Round, es: seq<Event>, start: Totals, url: Url, page: Page, shows: bool)
    requires InStep(r, es, start)
    requires page.Page? && page.reading == Some(Shown(Value(es, url), shows))
    ensures InStep(Scraped(r, url, page), es + [Scrape(url, shows)], start)
  {
    AfterScrape(es, url, shows);
    ScrapedAddsUp(r, url, page);
  }

  lemma {:induction false} RoundInStep(es: seq<Event>, targets: seq<Url>, pages: seq<Page>, gaps: seq<seq<Event>>,
                                       n: nat)
    requires Truthful(es, targets, pages, gaps) && n <= |targets|
    ensures InStep(RoundAfter(Baselines(es), targets, pages, n), WithRound(es, targets, pages, gaps, n),
                   EmittedByAll(es))
  {
    if n > 0 {
      var url, page := targets[n - 1], pages[n - 1];
      var r, before := RoundAfter(Baselines(es), targets, pages, n - 1), WithRound(es, targets, pages, gaps, n - 1);
      RoundInStep(es, targets, pages, gaps, n - 1);
      GapInStep(r, before, EmittedByAll(es), gaps[n - 1]);
      assert TruthfulAt(es, targets, pages, gaps, n - 1);
      if Shows(page) {
        ScrapeInStep(r, before + gaps[n - 1], EmittedByAll(es), url, page, ShowsTokens(page));
      } else {
        SilentInStep(r, before + gaps[n - 1], EmittedByAll(es), url, page);
      }
    }
  }

  /** A round of the scraper is a scrape of each target that answers, one after
      another while the counters go on: its baselines are those of the history,
      and what it sums is what those scrapes emit. */
  lemma RoundIsScrapes(es: seq<Event>, targets: seq<Url>, pages: seq<Page>, gaps: seq<seq<Event>>)
    requires Truthful(es, targets, pages, gaps)
    ensures var r := RoundAfter(Baselines(es), targets, pages, |targets|);
            var es' := WithRound(es, targets, pages, gaps, |targets|);
            && r.prev == Baselines(es')
            && SumHits(r.deltas) == EmittedByAll(es').hits - EmittedByAll(es).hits
            && SumQueries(r.deltas) == EmittedByAll(es').queries - EmittedByAll(es).queries
            && r.tokens.UnwrapOr(0) == EmittedByAll(es').tokens - EmittedByAll(es).tokens
  {
    RoundInStep(es, targets, pages, gaps, |targets|);
  }

  function SumOver(es: seq<Event>, us: seq<Url>): Totals {
    if us == [] then Totals(0, 0, 0) else AddTotals(SumOver(es, us[1..]), Emitted(es, us[0]))
  }

  function AddTotals(a: Totals, b: Totals): Totals {
    Totals(a.hits + b.hits, a.queries + b.queries, a.tokens + b.tokens)
  }

  ghost predicate Distinct(us: seq<Url>) {
    forall i, j :: 0 <= i < j < |us| ==> us[i] != us[j]
  }

  ghost predicate ScrapesOnly(es: seq<Event>, us: seq<Url>) {
    forall k :: 0 <= k < |es| && es[k].Scrape? ==> es[k].url in us
  }

  lemma {:induction false} SumOverNext(es: seq<Event>, us: seq<Url>)
    requires es != [] && Distinct(us)
    ensures var before, last := es[..|es| - 1], es[|es| - 1];
            SumOver(es, us) ==
              if last.Scrape? && last.url in us
              then AddAdvance(SumOver(before, us), AdvanceAt(before, last.url, last.showsTokens))
              else SumOver(before, us)
    decreases |us|
  {
    if us != [] {
      SumOverNext(es, us[1..]);
    }
  }

  /** What is emitted for all targets is the sum over the targets. */
  lemma {:induction false} AllIsSumOver(es: seq<Event>, us: seq<Url>)
    requires Distinct(us) && ScrapesOnly(es, us)
    ensures EmittedByAll(es) == SumOver(es, us)
    decreases |es|
  {
    if es == [] {
      NothingOver(us);
    } else {
      AllIsSumOver(es[..|es| - 1], us);
      SumOverNext(es, us);
      assert es[|es| - 1].Scrape? ==> es[|es| - 1].url in us;
    }
  }

  lemma {:induction false} NothingOver(us: seq<Url>)
    ensures SumOver([], us) == Totals(0, 0, 0)
  {
    if us != [] {
      NothingOver(us[1..]);
    }
  }

  function IncreaseOver(es: seq<Event>, us: seq<Url>): Totals {
    if us == [] then Totals(0, 0, 0)
    else
      var c := Increase(es, us[0]);
      AddTotals(IncreaseOver(es, us[1..]), Totals(c.hits, c.queries, c.tokens))
  }

  /** Nor do the deltas of all targets together over-report. */
  lemma {:induction false} SumsNeverOverReport(es: seq<Event>, us: seq<Url>)
    requires Distinct(us)
    ensures SumOver(es, us).hits <= IncreaseOver(es, us).hits
    ensures SumOver(es, us).queries <= IncreaseOver(es, us).queries
    ensures SumOver(es, us).tokens <= IncreaseOver(es, us).tokens
    decreases |us|
  {
    if us != [] {
      SumsNeverOverReport(es, us[1..]);
      NeverOverReports(es, us[0]);
    }
  }

  /** Nor does the running total of what the scraper publishes. */
  lemma AllNeverOverReport(es: seq<Event>, us: seq<Url>)
    requires Distinct(us) && ScrapesOnly(es, us)
    ensures EmittedByAll(es).hits <= IncreaseOver(es, us).hits
    ensures EmittedByAll(es).queries <= IncreaseOver(es, us).queries
    ensures EmittedByAll(es).tokens <= IncreaseOver(es, us).tokens
  {
    AllIsSumOver(es, us);
    SumsNeverOverReport(es, us);
  }

  // ----- Without restarts

  ghost predicate NeverRestarts(es: seq<Event>, u: Url) {
    forall k :: 0 <= k < |es| ==> es[k] != Restart(u)
  }

  ghost predicate AlwaysShowsTokens(es: seq<Event>, u: Url) {
    forall k :: 0 <= k < |es| ==> es[k] != Scrape(u, false)
  }

  predicate IsScrapeOf(e: Event, u: Url) {
    e.Scrape? && e.url == u
  }

  /** The target's counters at its first scrape. */
  function FirstScraped(es: seq<Event>, u: Url): Option<Counters> {
    if es == [] then None
    else
      var before := es[..|es| - 1];
      if FirstScraped(before, u).Some? then FirstScraped(before, u)
      else if IsScrapeOf(es[|es| - 1], u) then Some(Value(before, u))
      else None
  }

  /** The target's counters at its last scrape. */
  function LastScraped(es: seq<Event>, u: Url): Option<Counters> {
    if es == [] then None
    else
      var before := es[..|es| - 1];
      if IsScrapeOf(es[|es| - 1], u) then Some(Value(before, u)) else LastScraped(before, u)
  }

  /** How far a target has got: its first and last scrape, its baseline, what was
      emitted for it, and its counters now. */
  datatype Progress = Progress(first: Option<Counters>, last: Option<Counters>, base: Option<Reading>, sum: Totals,
                               now: Counters)

  function ProgressOf(es: seq<Event>, u: Url): Progress {
    Progress(FirstScraped(es, u), LastScraped(es, u), Lookup(Baselines(es), u), Emitted(es, u), Value(es, u))
  }

  /** Nothing scraped and nothing emitted yet, or the last scrape is the baseline
      and all that was emitted is the last scrape less the first. */
  ghost predicate Telescoped(p: Progress) {
    && (p.first.Some? <==> p.last.Some?) && (p.last.Some? <==> p.base.Some?)
    && (p.last.None? ==> p.sum.hits == 0 && p.sum.queries == 0)
    && (p.last.Some? ==>
          && p.base.value.hits == p.last.value.hits && p.base.value.queries == p.last.value.queries
          && p.last.value.hits <= p.now.hits && p.last.value.queries <= p.now.queries
          && p.sum.hits == p.last.value.hits - p.first.value.hits
          && p.sum.queries == p.last.value.queries - p.first.value.queries)
  }

  /** The same of tokens. */
  ghost predicate TokensTelescoped(p: Progress) {
    && (p.first.Some? <==> p.last.Some?) && (p.last.Some? <==> p.base.Some?)
    && (p.last.None? ==> p.sum.tokens == 0)
    && (p.last.Some? ==>
          && p.base.value.tokens == Some(p.last.value.tokens) && p.last.value.tokens <= p.now.tokens
          && p.sum.tokens == p.last.value.tokens - p.first.value.tokens)
  }

  /** What a scrape of the target does to its progress. */
  function AtScrape(p: Progress, shows: bool): Progress {
    Progress(if p.first.Some? then p.first else Some(p.now), Some(p.now), Some(Shown(p.now, shows)),
             AddAdvance(p.sum, DeltaFrom(p.base, Shown(p.now, shows))), p.now)
  }

  lemma TelescopesAtScrape(p: Progress, shows: bool)
    requires Telescoped(p)
    ensures Telescoped(AtScrape(p, shows))
  {
  }

  lemma TokensTelescopeAtScrape(p: Progress)
    requires TokensTelescoped(p)
    ensures TokensTelescoped(AtScrape(p, true))
  {
  }

  /** An event that is no scrape of the target moves no baseline of it and emits nothing. */
  lemma OtherEvent(es: seq<Event>, u: Url)
    requires es != [] && !IsScrapeOf(es[|es| - 1], u) && es[|es| - 1] != Restart(u)
    ensures var p, now := ProgressOf(es[..|es| - 1], u), Value(es, u);
            && ProgressOf(es, u) == p.(now := now)
            && p.now.hits <= now.hits && p.now.queries <= now.queries && p.now.tokens <= now.tokens
  {
  }

  lemma OwnScrape(es: seq<Event>, u: Url)
    requires es != [] && IsScrapeOf(es[|es| - 1], u)
    ensures ProgressOf(es, u) == AtScrape(ProgressOf(es[..|es| - 1], u), es[|es| - 1].showsTokens)
  {
  }

  lemma {:induction false} Telescopes(es: seq<Event>, u: Url)
    requires NeverRestarts(es, u)
    ensures Telescoped(ProgressOf(es, u))
    decreases |es|
  {
    if es != [] {
      var before, last := es[..|es| - 1], es[|es| - 1];
      Telescopes(before, u);
      assert last != Restart(u);
      if IsScrapeOf(last, u) {
        OwnScrape(es, u);
        TelescopesAtScrape(ProgressOf(before, u), last.showsTokens);
      } else {
        OtherEvent(es, u);
      }
    }
  }

  lemma {:induction false} TokensTelescope(es: seq<Event>, u: Url)
    requires NeverRestarts(es, u) && AlwaysShowsTokens(es, u)
    ensures TokensTelescoped(ProgressOf(es, u))
    decreases |es|
  {
    if es != [] {
      var before, last := es[..|es| - 1], es[|es| - 1];
      TokensTelescope(before, u);
      assert last != Restart(u) && last != Scrape(u, false);
      if IsScrapeOf(last, u) {
        OwnScrape(es, u);
        TokensTelescopeAtScrape(ProgressOf(before, u));
      } else {
        OtherEvent(es, u);
      }
    }
  }

  /** Without restarts the hits and queries emitted for a target are its last
      scrape less its first, whatever happens to other targets and whether or
      not it shows tokens; so are its tokens, if every scrape shows them. */
  lemma EmitsLastLessFirst(es: seq<Event>, u: Url)
    requires NeverRestarts(es, u) && LastScraped(es, u).Some?
    ensures FirstScraped(es, u).Some?
    ensures Emitted(es, u).hits == LastScraped(es, u).value.hits - FirstScraped(es, u).value.hits
    ensures Emitted(es, u).queries == LastScraped(es, u).value.queries - FirstScraped(es, u).value.queries
    ensures AlwaysShowsTokens(es, u) ==>
      Emitted(es, u).tokens == LastScraped(es, u).value.tokens - FirstScraped(es, u).value.tokens
  {
    Telescopes(es, u);
    if AlwaysShowsTokens(es, u) {
      TokensTelescope(es, u);
    }
  }
}
