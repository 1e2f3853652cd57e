/** Invariants of the crawl state machine of `SitemapGenerator`
    (src/scraper.js), each proved to be kept by every event, and the
    properties they give every run that starts from the seed. */
module CrawlInvariants {
  import opened Js
  import opened Url
  import opened Records
  import opened Scraper

  /** The seed was the first request, and the completed requests are a
      prefix of the queued ones. */
  predicate Seeded(s: Crawl) {
    && |s.history| >= 1
    && s.history[0] == Entry(s.baseUrl, 0)
    && s.next <= |s.history|
  }

  /** No URL was queued twice. */
  predicate Distinct(s: Crawl) {
    forall i, j :: 0 <= i < j < |s.history| ==> s.history[i].url != s.history[j].url
  }

  /** A URL is visited exactly when some request was queued for it. */
  lemma {:induction false} UrlSetMembers(es: seq<Entry>, u: string)
    ensures u in UrlSet(es) <==> exists i :: 0 <= i < |es| && es[i].url == u
    decreases |es|
  {
    if |es| > 0 {
      var init := es[..|es| - 1];
      UrlSetMembers(init, u);
      assert forall i :: 0 <= i < |init| ==> init[i] == es[i];
      if u == es[|es| - 1].url {
        assert es[|es| - 1].url == u;
      }
    }
  }

  lemma UrlSetAppend(es: seq<Entry>, added: seq<string>, depth: nat)
    ensures UrlSet(es + Children(added, depth)) == UrlSet(es) + (set u | u in added)
  {
    var all := es + Children(added, depth);
    forall u | u in UrlSet(all)
      ensures u in UrlSet(es) || u in added
    {
      UrlSetMembers(all, u);
      var i :| 0 <= i < |all| && all[i].url == u;
      if i < |es| {
        assert es[i].url == u;
        UrlSetMembers(es, u);
      } else {
        assert added[i - |es|] == u;
      }
    }
    forall u | u in UrlSet(es) || u in added
      ensures u in UrlSet(all)
    {
      UrlSetMembers(all, u);
      if u in UrlSet(es) {
        UrlSetMembers(es, u);
        var i :| 0 <= i < |es| && es[i].url == u;
        assert all[i].url == u;
      } else {
        var k :| 0 <= k < |added| && added[k] == u;
        assert all[|es| + k].url == u;
      }
    }
  }

  /** Every request but the seed passed the link filter. */
  predicate OnSite(parse: Parser, s: Crawl) {
    forall i :: 1 <= i < |s.history| ==> Followable(parse, s.baseDomain, s.history[i].url)
  }

  /** A record or request depth respects the limit (the seed is at depth 0
      whatever the limit). */
  predicate DepthOk(cfg: Config, d: nat) {
    d == 0 || d <= cfg.maxDepth
  }

  predicate DepthBounded(s: Crawl) {
    && (forall i :: 0 <= i < |s.history| ==> DepthOk(s.cfg, s.history[i].depth))
    && (forall i :: 0 <= i < |s.pages| ==> DepthOk(s.cfg, s.pages[i].depth))
  }

  /** The result was delivered exactly when the crawl is complete. */
  predicate DeliveredIffComplete(s: Crawl) {
    s.complete <==> s.delivered.Some?
  }

  predicate Valid(parse: Parser, s: Crawl) {
    && Seeded(s)
    && Distinct(s)
    && OnSite(parse, s)
    && DepthBounded(s)
    && DeliveredIffComplete(s)
  }

  lemma StartValid(parse: Parser, baseUrl: string, o: Options)
    requires parse(baseUrl).Some?
    ensures Valid(parse, Start(parse, baseUrl, o).value)
  {
    var s := Start(parse, baseUrl, o).value;
    assert s.history[0].url == baseUrl;
  }

  /** The links a fetched page queues: at most its link budget, each once,
      each admissible against the visited set, and none at all unless the
      page is above the depth limit and the record list below `maxPages`. */
  lemma QueuedFromSpec(parse: Parser, resolve: Resolver, s: Crawl, res: Response, depth: nat, count: nat)
    ensures var added := QueuedFrom(parse, resolve, s, res, depth, count);
      && |added| <= LinkBudget(depth)
      && NoDup(added)
      && (forall u :: u in added ==> Admissible(parse, s.baseDomain, Visited(s), u))
      && (!(depth < s.cfg.maxDepth && count < s.cfg.maxPages) ==> added == [])
  {
    var added := QueuedFrom(parse, resolve, s, res, depth, count);
    if depth < s.cfg.maxDepth && count < s.cfg.maxPages {
      var links := ExtractLinks(parse, resolve, s.baseDomain, Visited(s), res.href, res.hrefs);
      forall u | u in added
        ensures Admissible(parse, s.baseDomain, Visited(s), u)
      {
        ExtractedLinksAdmissible(parse, resolve, s.baseDomain, Visited(s), res.href, res.hrefs, u);
      }
    }
  }

  // What `Enqueue` keeps, for any links it is given.

  lemma EnqueueAppends(s: Crawl, pages: seq<PageRecord>, added: seq<string>, depth: nat)
    requires s.next < |s.history|
    ensures var t := Enqueue(s, pages, added, depth);
      && |t.history| == |s.history| + |added|
      && t.history[..|s.history|] == s.history
      && (forall i :: |s.history| <= i < |t.history| ==> t.history[i] == Entry(added[i - |s.history|], depth))
  {
    var t := Enqueue(s, pages, added, depth);
    assert t.history[..|s.history|] == s.history;
  }

  lemma EnqueueDistinct(s: Crawl, pages: seq<PageRecord>, added: seq<string>, depth: nat)
    requires s.next < |s.history| && Distinct(s)
    requires NoDup(added)
    requires forall u :: u in added ==> u !in Visited(s)
    ensures Distinct(Enqueue(s, pages, added, depth))
  {
    var t := Enqueue(s, pages, added, depth);
    var n := |s.history|;
    EnqueueAppends(s, pages, added, depth);
    forall i, j | 0 <= i < j < |t.history|
      ensures t.history[i].url != t.history[j].url
    {
      if j >= n {
        assert t.history[j].url == added[j - n];
        if i >= n {
          assert t.history[i].url == added[i - n];
        } else {
          assert t.history[i] == s.history[i];
          UrlSetMembers(s.history, s.history[i].url);
          assert added[j - n] in added;
        }
      }
    }
  }

  /** A completed request adds exactly the links it queues to the visited
      set. */
  lemma EnqueueVisits(s: Crawl, pages: seq<PageRecord>, added: seq<string>, depth: nat)
    requires s.next < |s.history|
    ensures Visited(Enqueue(s, pages, added, depth)) == Visited(s) + (set u | u in added)
  {
    UrlSetAppend(s.history, added, depth);
  }

  lemma EnqueueOnSite(parse: Parser, s: Crawl, pages: seq<PageRecord>, added: seq<string>, depth: nat)
    requires s.next < |s.history| && OnSite(parse, s)
    requires forall u :: u in added ==> Followable(parse, s.baseDomain, u)
    ensures OnSite(parse, Enqueue(s, pages, added, depth))
  {
    var t := Enqueue(s, pages, added, depth);
    var n := |s.history|;
    EnqueueAppends(s, pages, added, depth);
    forall i | 1 <= i < |t.history|
      ensures Followable(parse, s.baseDomain, t.history[i].url)
    {
      if i >= n {
        assert t.history[i].url == added[i - n];
      } else {
        assert t.history[i] == s.history[i];
      }
    }
  }

  lemma EnqueueDepthBounded(s: Crawl, pages: seq<PageRecord>, added: seq<string>, depth: nat)
    requires s.next < |s.history| && DepthBounded(s)
    requires added != [] ==> depth <= s.cfg.maxDepth
    requires forall i :: 0 <= i < |pages| ==> DepthOk(s.cfg, pages[i].depth)
    ensures DepthBounded(Enqueue(s, pages, added, depth))
  {
    var t := Enqueue(s, pages, added, depth);
    var n := |s.history|;
    EnqueueAppends(s, pages, added, depth);
    forall i | 0 <= i < |t.history|
      ensures DepthOk(s.cfg, t.history[i].depth)
    {
      if i >= n {
        assert t.history[i].depth == depth;
      } else {
        assert t.history[i] == s.history[i];
      }
    }
  }

  lemma EnqueueSeeded(s: Crawl, pages: seq<PageRecord>, added: seq<string>, depth: nat)
    requires s.next < |s.history| && Seeded(s) && DeliveredIffComplete(s)
    ensures Seeded(Enqueue(s, pages, added, depth))
    ensures DeliveredIffComplete(Enqueue(s, pages, added, depth))
  {
    EnqueueAppends(s, pages, added, depth);
  }

  // Each invariant across a completed fetch: the fetch is an `Enqueue` of
  // the admitted links of a request whose depth is within the limit.

  lemma FetchedDistinct(parse: Parser, resolve: Resolver, s: Crawl, res: Response)
    requires s.next < |s.history| && Distinct(s)
    ensures Distinct(OnFetched(parse, resolve, s, res))
  {
    QueuedFromFresh(parse, resolve, s, res, CurrentDepth(s), |s.pages| + 1);
    EnqueueDistinct(s, FetchedPages(s, res), FetchedLinks(parse, resolve, s, res), CurrentDepth(s) + 1);
  }

  /** The links a fetched page queues are new: each once, none visited. */
  lemma QueuedFromFresh(parse: Parser, resolve: Resolver, s: Crawl, res: Response, depth: nat, count: nat)
    ensures NoDup(QueuedFrom(parse, resolve, s, res, depth, count))
    ensures forall u :: u in QueuedFrom(parse, resolve, s, res, depth, count) ==> u !in Visited(s)
  {
    QueuedFromSpec(parse, resolve, s, res, depth, count);
  }

  lemma FetchedOnSite(parse: Parser, resolve: Resolver, s: Crawl, res: Response)
    requires s.next < |s.history| && OnSite(parse, s)
    ensures OnSite(parse, OnFetched(parse, resolve, s, res))
  {
    QueuedFromSpec(parse, resolve, s, res, CurrentDepth(s), |s.pages| + 1);
    EnqueueOnSite(parse, s, FetchedPages(s, res), FetchedLinks(parse, resolve, s, res), CurrentDepth(s) + 1);
  }

  lemma FetchedDepthBounded(parse: Parser, resolve: Resolver, s: Crawl, res: Response)
    requires s.next < |s.history| && DepthBounded(s)
    ensures DepthBounded(OnFetched(parse, resolve, s, res))
  {
    QueuedFromSpec(parse, resolve, s, res, CurrentDepth(s), |s.pages| + 1);
    FetchedPagesBounded(s, res);
    EnqueueDepthBounded(s, FetchedPages(s, res), FetchedLinks(parse, resolve, s, res), CurrentDepth(s) + 1);
  }

  /** The fetched page's record has the depth of a request. */
  lemma FetchedPagesBounded(s: Crawl, res: Response)
    requires s.next < |s.history| && DepthBounded(s)
    ensures forall i :: 0 <= i < |FetchedPages(s, res)| ==> DepthOk(s.cfg, FetchedPages(s, res)[i].depth)
  {
    var pages := FetchedPages(s, res);
    forall i | 0 <= i < |pages|
      ensures DepthOk(s.cfg, pages[i].depth)
    {
      if i == |s.pages| {
        assert pages[i].depth == s.history[s.next].depth;
      } else {
        assert pages[i] == s.pages[i];
      }
    }
  }

  lemma FetchedSeeded(parse: Parser, resolve: Resolver, s: Crawl, res: Response)
    requires s.next < |s.history| && Seeded(s) && DeliveredIffComplete(s)
    ensures Seeded(OnFetched(parse, resolve, s, res))
    ensures DeliveredIffComplete(OnFetched(parse, resolve, s, res))
  {
    EnqueueSeeded(s, FetchedPages(s, res), FetchedLinks(parse, resolve, s, res), CurrentDepth(s) + 1);
  }

  lemma OnFetchedValid(parse: Parser, resolve: Resolver, s: Crawl, res: Response)
    requires Valid(parse, s) && s.next < |s.history|
    ensures Valid(parse, OnFetched(parse, resolve, s, res))
  {
    FetchedSeeded(parse, resolve, s, res);
    FetchedDistinct(parse, resolve, s, res);
    FetchedOnSite(parse, resolve, s, res);
    FetchedDepthBounded(parse, resolve, s, res);
  }

  /** A failure is an `Enqueue` of no links. */
  lemma OnFailedValid(parse: Parser, s: Crawl, href: Option<string>, message: string)
    requires Valid(parse, s) && s.next < |s.history|
    ensures Valid(parse, OnFailed(s, href, message))
  {
    var depth := s.history[s.next].depth;
    var pages := if href.Some? then s.pages + [ErrorRecord(href.value, depth, message)] else s.pages;
    EnqueueSeeded(s, pages, [], depth);
    EnqueueDistinct(s, pages, [], depth);
    EnqueueOnSite(parse, s, pages, [], depth);
    EnqueueDepthBounded(s, pages, [], depth);
  }

  lemma StepValid(parse: Parser, resolve: Resolver, s: Crawl, e: Event)
    requires Valid(parse, s) && Enabled(s, e)
    ensures Valid(parse, Step(parse, resolve, s, e))
  {
    match e
    case Completed(Fetched(res)) => OnFetchedValid(parse, resolve, s, res);
    case Completed(Failed(href, message)) => OnFailedValid(parse, s, href, message);
    case Settled =>
    case TimedOut =>
  }

  /** What a completed fetch does to the records and to the requests: its
      record is appended; at most the page's link budget of requests is
      added, none from a page at the depth limit and none once the records
      reach `maxPages`; each added request is one level deeper, within the
      limit, and passed the link filter against the URLs visited before. */
  lemma FetchedEffect(parse: Parser, resolve: Resolver, s: Crawl, res: Response)
    requires s.next < |s.history|
    ensures var t := OnFetched(parse, resolve, s, res);
      var d := s.history[s.next].depth;
      && t.pages == s.pages + [SuccessRecord(res, d)]
      && t.next == s.next + 1
      && |t.history| <= |s.history| + LinkBudget(d)
      && (!(d < s.cfg.maxDepth && |s.pages| + 1 < s.cfg.maxPages) ==> t.history == s.history)
      && (forall i :: |s.history| <= i < |t.history| ==>
            && t.history[i].depth == d + 1 <= s.cfg.maxDepth
            && Admissible(parse, s.baseDomain, Visited(s), t.history[i].url))
  {
    FetchedGrowth(parse, resolve, s, res);
    FetchedChildren(parse, resolve, s, res);
  }

  /** How far a completed fetch can grow the request list. */
  lemma FetchedGrowth(parse: Parser, resolve: Resolver, s: Crawl, res: Response)
    requires s.next < |s.history|
    ensures var t := OnFetched(parse, resolve, s, res);
      && |t.history| <= |s.history| + LinkBudget(CurrentDepth(s))
      && (!(CurrentDepth(s) < s.cfg.maxDepth && |s.pages| + 1 < s.cfg.maxPages) ==> t.history == s.history)
  {
    QueuedFromSpec(parse, resolve, s, res, CurrentDepth(s), |s.pages| + 1);
    EnqueueAppends(s, FetchedPages(s, res), FetchedLinks(parse, resolve, s, res), CurrentDepth(s) + 1);
  }

  /** The requests a completed fetch adds. */
  lemma FetchedChildren(parse: Parser, resolve: Resolver, s: Crawl, res: Response)
    requires s.next < |s.history|
    ensures var t := OnFetched(parse, resolve, s, res);
      forall i :: |s.history| <= i < |t.history| ==>
        && t.history[i].depth == CurrentDepth(s) + 1 <= s.cfg.maxDepth
        && Admissible(parse, s.baseDomain, Visited(s), t.history[i].url)
  {
    var added := FetchedLinks(parse, resolve, s, res);
    QueuedFromSpec(parse, resolve, s, res, CurrentDepth(s), |s.pages| + 1);
    var t := Enqueue(s, FetchedPages(s, res), added, CurrentDepth(s) + 1);
    assert t == OnFetched(parse, resolve, s, res);
    forall i | |s.history| <= i < |t.history|
      ensures t.history[i].depth == CurrentDepth(s) + 1 <= s.cfg.maxDepth
      ensures Admissible(parse, s.baseDomain, Visited(s), t.history[i].url)
    {
      EnqueueAdded(s, FetchedPages(s, res), added, CurrentDepth(s) + 1, i);
    }
  }

  /** A request past the old list is one of the added links. */
  lemma EnqueueAdded(s: Crawl, pages: seq<PageRecord>, added: seq<string>, depth: nat, i: int)
    requires s.next < |s.history|
    requires |s.history| <= i < |Enqueue(s, pages, added, depth).history|
    ensures Enqueue(s, pages, added, depth).history[i].depth == depth
    ensures Enqueue(s, pages, added, depth).history[i].url in added
  {
    EnqueueAppends(s, pages, added, depth);
  }

  /** A failed request consumes its request and queues nothing; it leaves
      an error record exactly when its URL is known. */
  lemma FailedEffect(s: Crawl, href: Option<string>, message: string)
    requires s.next < |s.history|
    ensures var t := OnFailed(s, href, message);
      && t.next == s.next + 1
      && t.history == s.history
      && (href.None? ==> t.pages == s.pages)
      && (href.Some? ==> t.pages == s.pages + [ErrorRecord(href.value, s.history[s.next].depth, message)])
  {
  }

  /** The result is delivered once: a completed crawl keeps its delivered
      value through every later event. */
  lemma DeliveredOnce(parse: Parser, resolve: Resolver, s: Crawl, e: Event)
    requires Enabled(s, e)
    requires s.complete
    ensures Step(parse, resolve, s, e).complete
    ensures Step(parse, resolve, s, e).delivered == s.delivered
  {
  }

  /** The drain path completes a crawl only when no request is pending, and
      either path delivers the records collected so far. */
  lemma CompletionRules(parse: Parser, resolve: Resolver, s: Crawl, e: Event)
    requires Enabled(s, e)
    requires !s.complete && Step(parse, resolve, s, e).complete
    ensures e.Settled? ==> Pending(s) == []
    ensures e.Settled? || e.TimedOut?
    ensures Step(parse, resolve, s, e).delivered == Some(s.pages)
  {
  }

  /** Every state reached from a valid one keeps the invariant, and once
      delivered the result never changes. */
  lemma {:induction false} RunValid(parse: Parser, resolve: Resolver, s: Crawl, es: seq<Event>)
    requires Valid(parse, s)
    requires Run(parse, resolve, s, es).Some?
    ensures var t := Run(parse, resolve, s, es).value;
      && Valid(parse, t)
      && (s.delivered.Some? ==> t.delivered == s.delivered)
      && t.cfg == s.cfg && t.baseUrl == s.baseUrl && t.baseDomain == s.baseDomain
    decreases |es|
  {
    if |es| > 0 {
      var t := Step(parse, resolve, s, es[0]);
      StepValid(parse, resolve, s, es[0]);
      if s.complete {
        DeliveredOnce(parse, resolve, s, es[0]);
      }
      RunValid(parse, resolve, t, es[1..]);
    }
  }

  /** The crawl properties for every run from the seed: the seed is the
      first request, no URL is queued twice, every request and record respects the depth limit, and
      every request but the seed stays on the seed's host. */
  lemma {:induction false} CrawlProperties(parse: Parser, resolve: Resolver, baseUrl: string,
                                           o: Options, es: seq<Event>)
    requires parse(baseUrl).Some?
    requires Run(parse, resolve, Start(parse, baseUrl, o).value, es).Some?
    ensures var t := Run(parse, resolve, Start(parse, baseUrl, o).value, es).value;
      && |t.history| >= 1
      && t.history[0] == Entry(baseUrl, 0)
      && (forall i, j :: 0 <= i < j < |t.history| ==> t.history[i].url != t.history[j].url)
      && (forall i :: 0 <= i < |t.pages| ==> t.pages[i].depth == 0 || t.pages[i].depth <= t.cfg.maxDepth)
      && (forall i :: 1 <= i < |t.history| ==>
            parse(t.history[i].url).Some? && parse(t.history[i].url).value.hostname == parse(baseUrl).value.hostname)
  {
    StartValid(parse, baseUrl, o);
    RunValid(parse, resolve, Start(parse, baseUrl, o).value, es);
  }
}
