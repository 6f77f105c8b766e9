/** The node reporter's counter-delta state machine and the rate it derives. */
module Reporter {
  import opened Prelude

  type Url = string

  /** One scrape of a target: cache hits, cache queries, generated tokens if shown. */
  datatype Reading = Reading(hits: int, queries: int, tokens: Option<int>)

  datatype Delta = Delta(hits: int, queries: int)

  /** What one scrape adds: hits and queries, and tokens. */
  datatype Advance = Advance(hq: Option<Delta>, tokens: Option<int>)

  function Lookup(prev: map<Url, Reading>, url: Url): Option<Reading> {
    if url in prev then Some(prev[url]) else None
  }

  function DeltaFrom(prev: Option<Reading>, r: Reading): Advance {
    match prev
    case None => Advance(None, None)
    case Some(p) =>
      Advance(if r.hits >= p.hits && r.queries >= p.queries
              then Some(Delta(r.hits - p.hits, r.queries - p.queries)) else None,
              if r.tokens.Some? && p.tokens.Some? && r.tokens.value >= p.tokens.value
              then Some(r.tokens.value - p.tokens.value) else None)
  }

  // ----- One round over the targets

  /** What a target answers: nothing, a page without the cache series, or a full reading. */
  datatype Page = NoAnswer | Page(waiting: Option<int>, running: Option<int>, reading: Option<Reading>)

  /** What a round has gathered so far. */
  datatype Round = Round(prev: map<Url, Reading>, deltas: seq<Delta>, tokens: Option<int>,
                         waiting: Option<int>, running: Option<int>, responding: nat)

  function AddTo(total: Option<int>, v: Option<int>): Option<int> {
    if v.None? then total else Some(total.UnwrapOr(0) + v.value)
  }

  function Scraped(r: Round, url: Url, page: Page): Round {
    match page
    case NoAnswer => r
    case Page(waiting, running, reading) =>
      var r' := r.(waiting := AddTo(r.waiting, waiting), running := AddTo(r.running, running));
      if reading.None? then r'
      else
        var step := DeltaFrom(Lookup(r.prev, url), reading.value);
        r'.(prev := r.prev[url := reading.value],
            deltas := if step.hq.Some? then r.deltas + [step.hq.value] else r.deltas,
            tokens := AddTo(r.tokens, step.tokens),
            responding := r.responding + 1)
  }

  /** The round after the first n targets. */
  function RoundAfter(prev: map<Url, Reading>, targets: seq<Url>, pages: seq<Page>, n: nat): Round
    requires n <= |targets| == |pages|
  {
    if n == 0 then Round(prev, [], None, None, None, 0)
    else Scraped(RoundAfter(prev, targets, pages, n - 1), targets[n - 1], pages[n - 1])
  }

  function SumHits(ds: seq<Delta>): int {
    if ds == [] then 0 else SumHits(ds[..|ds| - 1]) + ds[|ds| - 1].hits
  }

  function SumQueries(ds: seq<Delta>): int {
    if ds == [] then 0 else SumQueries(ds[..|ds| - 1]) + ds[|ds| - 1].queries
  }

  /** The aggregated rate: absent without a delta or without a query. */
  function HitRate(ds: seq<Delta>): Option<real> {
    if ds != [] && SumQueries(ds) > 0 then Some(SumHits(ds) as real / SumQueries(ds) as real) else None
  }

  datatype ScrapeRound = ScrapeRound(hitRate: Option<real>, waiting: Option<int>, running: Option<int>,
                                     responding: nat, tokens: Option<int>)

  function Published(r: Round): ScrapeRound {
    ScrapeRound(HitRate(r.deltas), r.waiting, r.running, r.responding, r.tokens)
  }

  // ----- What a round publishes, page by page

  /** The page has the cache series. */
  predicate Shows(page: Page) {
    page.Page? && page.reading.Some?
  }

  ghost function SumShown(vs: seq<Option<int>>): int {
    if vs == [] then 0
    else SumShown(vs[..|vs| - 1]) + if vs[|vs| - 1].Some? then vs[|vs| - 1].value else 0
  }

  /** The sum of what is shown, and nothing if nothing is. */
  ghost predicate IsTotal(total: Option<int>, vs: seq<Option<int>>) {
    && (total.None? <==> forall k :: 0 <= k < |vs| ==> vs[k].None?)
    && (total.Some? ==> total.value == SumShown(vs))
  }

  lemma SumOfMore(vs: seq<Option<int>>, v: Option<int>)
    ensures SumShown(vs + [v]) == SumShown(vs) + if v.Some? then v.value else 0
  {
    assert (vs + [v])[..|vs|] == vs;
  }

  lemma {:induction false} NoneShown(vs: seq<Option<int>>)
    requires forall k :: 0 <= k < |vs| ==> vs[k].None?
    ensures SumShown(vs) == 0
  {
    if vs != [] {
      NoneShown(vs[..|vs| - 1]);
    }
  }

  lemma TotalOfMore(total: Option<int>, vs: seq<Option<int>>, v: Option<int>)
    requires IsTotal(total, vs)
    ensures IsTotal(AddTo(total, v), vs + [v])
  {
    SumOfMore(vs, v);
    assert (vs + [v])[|vs|] == v;
    assert forall k :: 0 <= k < |vs| ==> (vs + [v])[k] == vs[k];
    if total.None? {
      NoneShown(vs);
    }
  }

  ghost function WaitingOf(page: Page): Option<int> {
    if page.Page? then page.waiting else None
  }

  ghost function RunningOf(page: Page): Option<int> {
    if page.Page? then page.running else None
  }

  /** What the first n pages show of the requests waiting, page by page. */
  ghost function WaitingShown(pages: seq<Page>, n: nat): seq<Option<int>>
    requires n <= |pages|
  {
    if n == 0 then [] else WaitingShown(pages, n - 1) + [WaitingOf(pages[n - 1])]
  }

  ghost function RunningShown(pages: seq<Page>, n: nat): seq<Option<int>>
    requires n <= |pages|
  {
    if n == 0 then [] else RunningShown(pages, n - 1) + [RunningOf(pages[n - 1])]
  }

  /** The pages with the cache series among the first n. */
  ghost function Responding(pages: seq<Page>, n: nat): set<int>
    requires n <= |pages|
  {
    set k | 0 <= k < n && Shows(pages[k])
  }

  /** The baseline of a target after n pages: its last reading among them, or
      the one there was. */
  ghost function BaseAfter(prev: map<Url, Reading>, targets: seq<Url>, pages: seq<Page>, n: nat, u: Url)
    : Option<Reading>
    requires n <= |targets| == |pages|
  {
    if n == 0 then (if u in prev then Some(prev[u]) else None)
    else if targets[n - 1] == u && Shows(pages[n - 1]) then pages[n - 1].reading
    else BaseAfter(prev, targets, pages, n - 1, u)
  }

  /** The page shows the cache series of a target with a baseline, and neither
      counter is below it. */
  ghost predicate Gains(page: Page, base: Option<Reading>) {
    && Shows(page) && base.Some?
    && base.value.hits <= page.reading.value.hits && base.value.queries <= page.reading.value.queries
  }

  ghost function HitsGain(page: Page, base: Option<Reading>): Option<int> {
    if Gains(page, base) then Some(page.reading.value.hits - base.value.hits) else None
  }

  ghost function QueriesGain(page: Page, base: Option<Reading>): Option<int> {
    if Gains(page, base) then Some(page.reading.value.queries - base.value.queries) else None
  }

  ghost function TokensGain(page: Page, base: Option<Reading>): Option<int> {
    if Shows(page) && base.Some? && page.reading.value.tokens.Some? && base.value.tokens.Some?
       && base.value.tokens.value <= page.reading.value.tokens.value
    then Some(page.reading.value.tokens.value - base.value.tokens.value)
    else None
  }

  /** What the targets of the first n pages gained in hits, page by page. */
  ghost function HitsGained(prev: map<Url, Reading>, targets: seq<Url>, pages: seq<Page>, n: nat): seq<Option<int>>
    requires n <= |targets| == |pages|
  {
    if n == 0 then []
    else
      HitsGained(prev, targets, pages, n - 1)
      + [HitsGain(pages[n - 1], BaseAfter(prev, targets, pages, n - 1, targets[n - 1]))]
  }

  ghost function QueriesGained(prev: map<Url, Reading>, targets: seq<Url>, pages: seq<Page>, n: nat): seq<Option<int>>
    requires n <= |targets| == |pages|
  {
    if n == 0 then []
    else
      QueriesGained(prev, targets, pages, n - 1)
      + [QueriesGain(pages[n - 1], BaseAfter(prev, targets, pages, n - 1, targets[n - 1]))]
  }

  ghost function TokensGained(prev: map<Url, Reading>, targets: seq<Url>, pages: seq<Page>, n: nat): seq<Option<int>>
    requires n <= |targets| == |pages|
  {
    if n == 0 then []
    else
      TokensGained(prev, targets, pages, n - 1)
      + [TokensGain(pages[n - 1], BaseAfter(prev, targets, pages, n - 1, targets[n - 1]))]
  }

  lemma {:induction false} BaselineAfter(prev: map<Url, Reading>, targets: seq<Url>, pages: seq<Page>, n: nat, u: Url)
    requires n <= |targets| == |pages|
    ensures Lookup(RoundAfter(prev, targets, pages, n).prev, u) == BaseAfter(prev, targets, pages, n, u)
  {
    if n > 0 {
      BaselineAfter(prev, targets, pages, n - 1, u);
    }
  }

  /** What one page adds to what a round has gathered. */
  lemma PageAdds(r: Round, url: Url, page: Page)
    ensures var r', base := Scraped(r, url, page), Lookup(r.prev, url);
            && r'.waiting == AddTo(r.waiting, WaitingOf(page)) && r'.running == AddTo(r.running, RunningOf(page))
            && r'.tokens == AddTo(r.tokens, TokensGain(page, base))
            && r'.responding == r.responding + (if Shows(page) then 1 else 0)
  {
  }

  /** What it adds to the sums of the deltas. */
  lemma PageGains(r: Round, url: Url, page: Page)
    ensures var ds, base := Scraped(r, url, page).deltas, Lookup(r.prev, url);
            && SumHits(ds) == SumHits(r.deltas) + HitsGain(page, base).UnwrapOr(0)
            && SumQueries(ds) == SumQueries(r.deltas) + QueriesGain(page, base).UnwrapOr(0)
  {
    var base := Lookup(r.prev, url);
    if Gains(page, base) {
      assert (r.deltas + [DeltaFrom(base, page.reading.value).hq.value])[..|r.deltas|] == r.deltas;
    }
  }

  lemma {:induction false} QueuesAfter(prev: map<Url, Reading>, targets: seq<Url>, pages: seq<Page>, n: nat)
    requires n <= |targets| == |pages|
    ensures IsTotal(RoundAfter(prev, targets, pages, n).waiting, WaitingShown(pages, n))
    ensures IsTotal(RoundAfter(prev, targets, pages, n).running, RunningShown(pages, n))
  {
    if n > 0 {
      var r := RoundAfter(prev, targets, pages, n - 1);
      QueuesAfter(prev, targets, pages, n - 1);
      PageAdds(r, targets[n - 1], pages[n - 1]);
      TotalOfMore(r.waiting, WaitingShown(pages, n - 1), WaitingOf(pages[n - 1]));
      TotalOfMore(r.running, RunningShown(pages, n - 1), RunningOf(pages[n - 1]));
    }
  }

  lemma RespondingNext(pages: seq<Page>, n: nat)
    requires n < |pages|
    ensures |Responding(pages, n + 1)| == |Responding(pages, n)| + if Shows(pages[n]) then 1 else 0
  {
    assert Responding(pages, n + 1) == Responding(pages, n) + if Shows(pages[n]) then {n as int} else {};
  }

  lemma {:induction false} RespondingAfter(prev: map<Url, Reading>, targets: seq<Url>, pages: seq<Page>, n: nat)
    requires n <= |targets| == |pages|
    ensures RoundAfter(prev, targets, pages, n).responding == |Responding(pages, n)|
  {
    if n > 0 {
      RespondingAfter(prev, targets, pages, n - 1);
      PageAdds(RoundAfter(prev, targets, pages, n - 1), targets[n - 1], pages[n - 1]);
      RespondingNext(pages, n - 1);
    }
  }

  lemma {:induction false} TokensAfter(prev: map<Url, Reading>, targets: seq<Url>, pages: seq<Page>, n: nat)
    requires n <= |targets| == |pages|
    ensures IsTotal(RoundAfter(prev, targets, pages, n).tokens, TokensGained(prev, targets, pages, n))
  {
    if n > 0 {
      var r := RoundAfter(prev, targets, pages, n - 1);
      TokensAfter(prev, targets, pages, n - 1);
      BaselineAfter(prev, targets, pages, n - 1, targets[n - 1]);
      PageAdds(r, targets[n - 1], pages[n - 1]);
      TotalOfMore(r.tokens, TokensGained(prev, targets, pages, n - 1),
                  TokensGain(pages[n - 1], Lookup(r.prev, targets[n - 1])));
    }
  }

  lemma SumsNext(prev: map<Url, Reading>, targets: seq<Url>, pages: seq<Page>, n: nat, base: Option<Reading>)
    requires n < |targets| == |pages| && base == BaseAfter(prev, targets, pages, n, targets[n])
    ensures SumShown(HitsGained(prev, targets, pages, n + 1))
         == SumShown(HitsGained(prev, targets, pages, n)) + HitsGain(pages[n], base).UnwrapOr(0)
    ensures SumShown(QueriesGained(prev, targets, pages, n + 1))
         == SumShown(QueriesGained(prev, targets, pages, n)) + QueriesGain(pages[n], base).UnwrapOr(0)
  {
    SumOfMore(HitsGained(prev, targets, pages, n), HitsGain(pages[n], base));
    SumOfMore(QueriesGained(prev, targets, pages, n), QueriesGain(pages[n], base));
  }

  lemma RoundGains(prev: map<Url, Reading>, targets: seq<Url>, pages: seq<Page>, n: nat, base: Option<Reading>)
    requires n < |targets| == |pages| && base == BaseAfter(prev, targets, pages, n, targets[n])
    ensures var ds, ds' := RoundAfter(prev, targets, pages, n).deltas, RoundAfter(prev, targets, pages, n + 1).deltas;
            && SumHits(ds') == SumHits(ds) + HitsGain(pages[n], base).UnwrapOr(0)
            && SumQueries(ds') == SumQueries(ds) + QueriesGain(pages[n], base).UnwrapOr(0)
  {
    BaselineAfter(prev, targets, pages, n, targets[n]);
    PageGains(RoundAfter(prev, targets, pages, n), targets[n], pages[n]);
  }

  lemma {:induction false} DeltasAfter(prev: map<Url, Reading>, targets: seq<Url>, pages: seq<Page>, n: nat)
    requires n <= |targets| == |pages|
    ensures SumHits(RoundAfter(prev, targets, pages, n).deltas) == SumShown(HitsGained(prev, targets, pages, n))
    ensures SumQueries(RoundAfter(prev, targets, pages, n).deltas) == SumShown(QueriesGained(prev, targets, pages, n))
  {
    if n > 0 {
      var base := BaseAfter(prev, targets, pages, n - 1, targets[n - 1]);
      DeltasAfter(prev, targets, pages, n - 1);
      SumsNext(prev, targets, pages, n - 1, base);
      RoundGains(prev, targets, pages, n - 1, base);
    }
  }

  /** Hits over queries, and nothing without a query. */
  ghost predicate IsRate(rate: Option<real>, hits: int, queries: int) {
    && (rate.Some? <==> queries > 0)
    && (rate.Some? ==> rate.value * queries as real == hits as real)
  }

  lemma RateIsRate(ds: seq<Delta>, hits: int, queries: int)
    requires SumHits(ds) == hits && SumQueries(ds) == queries
    ensures IsRate(HitRate(ds), hits, queries)
  {
  }

  /** A rate is published exactly when the targets gained a query, and it is the
      hits they gained over the queries they gained. */
  lemma RatePublished(prev: map<Url, Reading>, targets: seq<Url>, pages: seq<Page>)
    requires |targets| == |pages|
    ensures IsRate(Published(RoundAfter(prev, targets, pages, |pages|)).hitRate,
                   SumShown(HitsGained(prev, targets, pages, |pages|)),
                   SumShown(QueriesGained(prev, targets, pages, |pages|)))
  {
    DeltasAfter(prev, targets, pages, |pages|);
    RateIsRate(RoundAfter(prev, targets, pages, |pages|).deltas, SumShown(HitsGained(prev, targets, pages, |pages|)),
               SumShown(QueriesGained(prev, targets, pages, |pages|)));
  }

  /** The queues and tokens published are the sums over the pages that show
      them, absent exactly when none does, and the targets that respond are those
      with the cache series. */
  ghost predicate IsRoundOf(p: ScrapeRound, prev: map<Url, Reading>, targets: seq<Url>, pages: seq<Page>)
    requires |targets| == |pages|
  {
    && IsTotal(p.waiting, WaitingShown(pages, |pages|))
    && IsTotal(p.running, RunningShown(pages, |pages|))
    && IsTotal(p.tokens, TokensGained(prev, targets, pages, |pages|))
    && p.responding == |Responding(pages, |pages|)|
  }

  lemma PublishedIsRoundOf(prev: map<Url, Reading>, targets: seq<Url>, pages: seq<Page>)
    requires |targets| == |pages|
    ensures IsRoundOf(Published(RoundAfter(prev, targets, pages, |pages|)), prev, targets, pages)
  {
    QueuesAfter(prev, targets, pages, |pages|);
    RespondingAfter(prev, targets, pages, |pages|);
    TokensAfter(prev, targets, pages, |pages|);
  }

  class VllmScrape {
    const targets: seq<Url>
    var prev: map<Url, Reading>

    constructor (targets: seq<Url>)
      ensures this.targets == targets && prev == map[]
    {
      this.targets := targets;
      prev := map[];
    }

    /** The deltas of one target; its baseline is realigned in any case. */
    method Step(url: Url, r: Reading) returns (a: Advance)
      modifies this
      ensures a == DeltaFrom(Lookup(old(prev), url), r)
      ensures prev == old(prev)[url := r]
    {
      var hq, dg := None, None;
      if url in prev {
        var p := prev[url];
        var dh, dq := r.hits - p.hits, r.queries - p.queries;
        if dh >= 0 && dq >= 0 {
          hq := Some(Delta(dh, dq));
        }
        if r.tokens.Some? && p.tokens.Some? {
          var d := r.tokens.value - p.tokens.value;
          if d >= 0 {
            dg := Some(d);
          }
        }
      }
      prev := prev[url := r];
      a := Advance(hq, dg);
    }

    /** One round. A target that does not answer leaves its baseline as it was. */
    method Sample(pages: seq<Page>) returns (round: ScrapeRound)
      requires |pages| == |targets|
      modifies this
      ensures round == Published(RoundAfter(old(prev), targets, pages, |targets|))
      ensures prev == RoundAfter(old(prev), targets, pages, |targets|).prev
      ensures IsRoundOf(round, old(prev), targets, pages)
    {
      var responding: nat, hits, queries, haveDelta := 0, 0, 0, false;
      var tokens, waiting, running := None, None, None;
      ghost var start := prev;
      for i := 0 to |targets|
        invariant var r := RoundAfter(start, targets, pages, i);
                  && prev == r.prev && responding == r.responding
                  && hits == SumHits(r.deltas) && queries == SumQueries(r.deltas) && (haveDelta <==> r.deltas != [])
                  && tokens == r.tokens && waiting == r.waiting && running == r.running
      {
        var url := targets[i];
        match pages[i]
        case NoAnswer =>
        case Page(w, n, reading) =>
          waiting := AddTo(waiting, w);
          running := AddTo(running, n);
          if reading.Some? {
            responding := responding + 1;
            var a := Step(url, reading.value);
            if a.hq.Some? {
              hits := hits + a.hq.value.hits;
              queries := queries + a.hq.value.queries;
              haveDelta := true;
            }
            tokens := AddTo(tokens, a.tokens);
          }
      }
      round := ScrapeRound(if haveDelta && queries > 0 then Some(hits as real / queries as real) else None,
                           waiting, running, responding, tokens);
      PublishedIsRoundOf(start, targets, pages);
    }
  }
}
