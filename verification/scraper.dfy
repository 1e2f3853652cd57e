/** The crawl frontier and page-record rules of `SitemapGenerator`
    (src/scraper.js), as a state machine over an abstract link graph.

    Fetching is not modelled: each completed request arrives as an event that
    carries either the parsed response or a failure. Parsing and resolving
    URLs are passed in as functions. The crawler library's own queue is
    modelled as first-in-first-out: each completion consumes the oldest
    pending request. */
module Scraper {
  import opened Js
  import opened Text
  import opened Url
  import opened Records

  // ---------------------------------------------------------------------
  // Configuration

  /** The options object as given; `None` is a missing or `NaN` value. */
  datatype Options = Options(
    maxDepth: Option<int>,
    maxPages: Option<int>,
    delay: Option<int>,
    maxConnections: Option<int>,
    timeout: Option<int>,
    retries: Option<int>)

  datatype Config = Config(
    maxDepth: int,
    maxPages: int,
    delay: int,
    maxConnections: int,
    timeout: int,
    retries: int)

  /** The constructor's `options.x || default` for each setting: a truthy
      option is kept, a falsy one (missing, `NaN`, 0) becomes the default, so
      no setting is ever 0. */
  function Configure(o: Options): (c: Config)
    ensures c.maxDepth == (if FalsyNumber(o.maxDepth) then 3 else o.maxDepth.value)
    ensures c.maxPages == (if FalsyNumber(o.maxPages) then 100 else o.maxPages.value)
    ensures c.delay == (if FalsyNumber(o.delay) then 500 else o.delay.value)
    ensures c.maxConnections == (if FalsyNumber(o.maxConnections) then 5 else o.maxConnections.value)
    ensures c.timeout == (if FalsyNumber(o.timeout) then 10000 else o.timeout.value)
    ensures c.retries == (if FalsyNumber(o.retries) then 2 else o.retries.value)
    ensures c.maxDepth != 0 && c.maxPages != 0 && c.delay != 0
    ensures c.maxConnections != 0 && c.timeout != 0 && c.retries != 0
  {
    Config(
      OrNumber(o.maxDepth, 3),
      OrNumber(o.maxPages, 100),
      OrNumber(o.delay, 500),
      OrNumber(o.maxConnections, 5),
      OrNumber(o.timeout, 10000),
      OrNumber(o.retries, 2))
  }

  // ---------------------------------------------------------------------
  // Responses and records

  /** What the handler reads from a successful response. */
  datatype Response = Response(
    /** `res.request.uri.href` */
    href: string,
    /** `$('title').text()` */
    titleText: string,
    /** `$('meta[name="description"]').attr('content')` */
    metaContent: Option<string>,
    /** `$('h1').first().text()`, empty when there is no heading */
    h1Text: string,
    statusCode: Option<int>,
    contentType: Option<string>,
    lastModified: Option<string>,
    contentLength: Option<string>,
    /** the `href` attribute of every `a[href]`, in document order */
    hrefs: seq<string>)

  const NoTitle: string := "No Title"

  /** `$('title').text().trim() || 'No Title'`. */
  function Title(text: string): string {
    OrString(Some(Trim(text)), NoTitle)
  }

  /** A title is never empty and never padded with white space; the
      placeholder stands for a title text that is blank, and any other title
      is the trimmed text. */
  lemma TitleSpec(text: string)
    ensures var r := Title(text);
      && r != "" && !IsSpace(r[0]) && !IsSpace(r[|r| - 1])
      && ((forall i :: 0 <= i < |text| ==> IsSpace(text[i])) ==> r == NoTitle)
      && (r != NoTitle ==> r == Trim(text))
  {
    TrimEnds(text);
    TrimEmpty(text);
    NoTitleUnpadded();
  }

  lemma NoTitleUnpadded()
    ensures NoTitle != "" && !IsSpace(NoTitle[0]) && !IsSpace(NoTitle[|NoTitle| - 1])
  {
  }

  /** The record `processPageResult` pushes for a fetched page. */
  function SuccessRecord(res: Response, depth: nat): (r: PageRecord)
    ensures r.url == res.href && r.depth == depth
  {
    PageRecord(
      url := res.href,
      title := Title(res.titleText),
      metaDescription := OrString(res.metaContent, ""),
      h1 := OrString(Some(Trim(res.h1Text)), ""),
      depth := depth,
      status := Code(OrNumber(res.statusCode, 200)),
      contentType := OrString(res.contentType, ""),
      lastModified := OrString(res.lastModified, ""),
      contentLength := OrString(res.contentLength, ""),
      error := None,
      screenshot := None)
  }

  /** The defaults of a success record: the title rule, an empty description
      or heading when absent, status 200 when the status code is missing or
      0, empty header fields when absent; the status is never 0. */
  lemma SuccessRecordDefaults(res: Response, depth: nat)
    ensures var r := SuccessRecord(res, depth);
      && r.title == Title(res.titleText) && r.title != ""
      && r.metaDescription == res.metaContent.GetOr("")
      && r.h1 == Trim(res.h1Text)
      && r.status.Code? && r.status.code != 0
      && (!FalsyNumber(res.statusCode) ==> r.status == Code(res.statusCode.value))
      && (FalsyNumber(res.statusCode) ==> r.status == Code(200))
      && r.contentType == res.contentType.GetOr("")
      && r.lastModified == res.lastModified.GetOr("")
      && r.contentLength == res.contentLength.GetOr("")
      && r.error.None? && r.screenshot.None?
  {
    SuccessRecordTitleStatus(res, depth);
    SuccessRecordFields(res, depth);
  }

  lemma SuccessRecordTitleStatus(res: Response, depth: nat)
    ensures var r := SuccessRecord(res, depth);
      && r.title == Title(res.titleText) && r.title != ""
      && r.status.Code? && r.status.code != 0
      && (!FalsyNumber(res.statusCode) ==> r.status == Code(res.statusCode.value))
      && (FalsyNumber(res.statusCode) ==> r.status == Code(200))
  {
    TitleSpec(res.titleText);
  }

  lemma SuccessRecordFields(res: Response, depth: nat)
    ensures var r := SuccessRecord(res, depth);
      && r.metaDescription == res.metaContent.GetOr("")
      && r.h1 == Trim(res.h1Text)
      && r.contentType == res.contentType.GetOr("")
      && r.lastModified == res.lastModified.GetOr("")
      && r.contentLength == res.contentLength.GetOr("")
      && r.error.None? && r.screenshot.None?
  {
    OrEmptyString(res.metaContent);
    OrEmptyString(res.contentType);
    OrEmptyString(res.lastModified);
    OrEmptyString(res.contentLength);
  }

  /** The record `handleCrawlerResult` pushes for a failed request. */
  function ErrorRecord(href: string, depth: nat, message: string): (r: PageRecord)
    ensures r.url == href && r.depth == depth
    ensures r.title == "Error" && r.status == Label("Error") && IsErrorStatus(r.status)
    ensures r.metaDescription == "" && r.h1 == "" && r.contentType == ""
    ensures r.lastModified == "" && r.contentLength == ""
    ensures r.error == Some(message)
  {
    PageRecord(href, "Error", "", "", depth, Label("Error"), "", "", "", Some(message), None)
  }

  // ---------------------------------------------------------------------
  // Link extraction

  /** The extensions `/\.(pdf|jpg|jpeg|png|gif|css|js|ico|zip|rar|exe|dmg)$/i`
      rejects. */
  const DeniedExtensions: set<string> :=
    {"pdf", "jpg", "jpeg", "png", "gif", "css", "js", "ico", "zip", "rar", "exe", "dmg"}

  /** The URL's text after its last dot, with ASCII letters folded, is a
      denied extension. */
  predicate HasDeniedExtension(u: string) {
    var e := AfterLastDot(Lower(u));
    e.Some? && e.value in DeniedExtensions
  }

  /** The same test as the regular expression states it: the URL ends, case
      aside, with a dot and a denied extension. */
  lemma HasDeniedExtensionSpec(u: string)
    ensures HasDeniedExtension(u) <==>
      exists ext :: ext in DeniedExtensions && EndsWith(Lower(u), "." + ext)
  {
    if ext :| ext in DeniedExtensions && EndsWith(Lower(u), "." + ext) {
      AfterLastDotSuffix(Lower(u), ext);
    }
  }

  /** The part of the admission test of `extractLinks` that does not depend
      on the visited set: the URL parses, is on the seed's host, has no `#`
      and no denied extension. */
  predicate Followable(parse: Parser, baseDomain: string, abs: string) {
    && parse(abs).Some?
    && parse(abs).value.hostname == baseDomain
    && '#' !in abs
    && !HasDeniedExtension(abs)
  }

  /** The admission test of `extractLinks` for an absolute URL. */
  predicate Admissible(parse: Parser, baseDomain: string, visited: set<string>, abs: string) {
    Followable(parse, baseDomain, abs) && abs !in visited
  }

  /** The absolute URL one `href` contributes, if any: empty attributes and
      those that do not resolve or parse are skipped without error. */
  function Candidate(parse: Parser, resolve: Resolver, baseDomain: string,
                     visited: set<string>, currentUrl: string, href: string): Option<string>
  {
    if href == "" then None
    else match resolve(href, currentUrl)
      case None => None
      case Some(abs) => if Admissible(parse, baseDomain, visited, abs) then Some(abs) else None
  }

  predicate NoDup<T(==)>(s: seq<T>) {
    forall i, j :: 0 <= i < j < |s| ==> s[i] != s[j]
  }

  /** `extractLinks`: the candidates of the anchors in document order, each
      kept once (a `Set` converted back to an array). */
  function ExtractLinks(parse: Parser, resolve: Resolver, baseDomain: string,
                        visited: set<string>, currentUrl: string, hrefs: seq<string>): (links: seq<string>)
    ensures NoDup(links)
    decreases |hrefs|
  {
    if |hrefs| == 0 then []
    else
      var prev := ExtractLinks(parse, resolve, baseDomain, visited, currentUrl, hrefs[..|hrefs| - 1]);
      match Candidate(parse, resolve, baseDomain, visited, currentUrl, hrefs[|hrefs| - 1])
      case Some(l) => if l in prev then prev else prev + [l]
      case None => prev
  }

  /** The extracted links are exactly the candidates of the anchors. */
  lemma {:induction false} ExtractLinksMembers(parse: Parser, resolve: Resolver, baseDomain: string,
                                               visited: set<string>, currentUrl: string, hrefs: seq<string>, l: string)
    ensures l in ExtractLinks(parse, resolve, baseDomain, visited, currentUrl, hrefs) <==>
      exists i :: 0 <= i < |hrefs| && Candidate(parse, resolve, baseDomain, visited, currentUrl, hrefs[i]) == Some(l)
    decreases |hrefs|
  {
    if |hrefs| > 0 {
      var init := hrefs[..|hrefs| - 1];
      ExtractLinksMembers(parse, resolve, baseDomain, visited, currentUrl, init, l);
      assert forall i :: 0 <= i < |init| ==> init[i] == hrefs[i];
      if exists i :: 0 <= i < |hrefs| && Candidate(parse, resolve, baseDomain, visited, currentUrl, hrefs[i]) == Some(l) {
        var i :| 0 <= i < |hrefs| && Candidate(parse, resolve, baseDomain, visited, currentUrl, hrefs[i]) == Some(l);
        if i < |init| {
          assert Candidate(parse, resolve, baseDomain, visited, currentUrl, init[i]) == Some(l);
        }
      }
    }
  }

  /** Every extracted link passes the admission test, in particular it is on
      the seed's host, unvisited, free of `#` and of a denied extension. */
  lemma ExtractedLinksAdmissible(parse: Parser, resolve: Resolver, baseDomain: string,
                                 visited: set<string>, currentUrl: string, hrefs: seq<string>, l: string)
    requires l in ExtractLinks(parse, resolve, baseDomain, visited, currentUrl, hrefs)
    ensures Admissible(parse, baseDomain, visited, l)
  {
    ExtractLinksMembers(parse, resolve, baseDomain, visited, currentUrl, hrefs, l);
    var i :| 0 <= i < |hrefs| && Candidate(parse, resolve, baseDomain, visited, currentUrl, hrefs[i]) == Some(l);
  }

  /** The links found among the first `k` anchors come first, in the order
      they are found: with `ExtractLinksMembers` this fixes the position of
      every link by its first anchor. */
  lemma {:induction false} ExtractLinksPrefix(parse: Parser, resolve: Resolver, baseDomain: string,
                                              visited: set<string>, currentUrl: string, hrefs: seq<string>, k: nat)
    requires k <= |hrefs|
    ensures ExtractLinks(parse, resolve, baseDomain, visited, currentUrl, hrefs[..k]) <=
            ExtractLinks(parse, resolve, baseDomain, visited, currentUrl, hrefs)
    decreases |hrefs| - k
  {
    if k < |hrefs| {
      var init := hrefs[..|hrefs| - 1];
      assert init[..k] == hrefs[..k];
      ExtractLinksPrefix(parse, resolve, baseDomain, visited, currentUrl, init, k);
    } else {
      assert hrefs[..k] == hrefs;
    }
  }

  // ---------------------------------------------------------------------
  // Link admission

  /** `Math.max(10, 50 - currentDepth * 10)`. */
  function LinkBudget(depth: nat): (b: int)
    ensures 10 <= b <= 50
    ensures depth <= 4 ==> b == 50 - 10 * depth
    ensures depth >= 4 ==> b == 10
  {
    if 50 - depth * 10 > 10 then 50 - depth * 10 else 10
  }

  /** The loop of `extractAndQueueLinks`: the links queued, in order. The loop
      stops once `budget` links were queued or when the record list is full;
      a link already visited is passed over. */
  function Admit(visited: set<string>, links: seq<string>, budget: int, full: bool): (added: seq<string>)
    ensures |added| <= (if budget < 0 then 0 else budget)
    ensures NoDup(added)
    ensures forall u :: u in added ==> u in links && u !in visited
    ensures full ==> added == []
    decreases |links|
  {
    if |links| == 0 || budget <= 0 || full then []
    else if links[0] in visited then Admit(visited, links[1..], budget, full)
    else
      var rest := Admit(visited + {links[0]}, links[1..], budget - 1, full);
      assert forall u :: u in links[1..] ==> u in links;
      [links[0]] + rest
  }

  /** The loop passes over a link only when it is visited or the budget is
      spent: under budget, every unvisited link is queued. */
  lemma {:induction false} AdmitGreedy(visited: set<string>, links: seq<string>, budget: int, u: string)
    requires |Admit(visited, links, budget, false)| < budget
    requires u in links && u !in visited
    ensures u in Admit(visited, links, budget, false)
    decreases |links|
  {
    if links[0] in visited {
      AdmitGreedy(visited, links[1..], budget, u);
    } else if u != links[0] {
      AdmitGreedy(visited + {links[0]}, links[1..], budget - 1, u);
    }
  }

  /** The links of `links` that are not in `visited`, in list order. */
  function Unvisited(visited: set<string>, links: seq<string>): (r: seq<string>)
    decreases |links|
  {
    if |links| == 0 then []
    else (if links[0] in visited then [] else [links[0]]) + Unvisited(visited, links[1..])
  }

  function Min(a: int, b: int): int {
    if a <= b then a else b
  }

  /** Marking a link visited that the list does not hold changes nothing. */
  lemma {:induction false} UnvisitedIgnores(visited: set<string>, x: string, links: seq<string>)
    requires x !in links
    ensures Unvisited(visited + {x}, links) == Unvisited(visited, links)
    decreases |links|
  {
    if |links| > 0 {
      assert links[0] != x;
      UnvisitedIgnores(visited, x, links[1..]);
    }
  }

  /** For a list without repeats, as `extractLinks` gives, the loop queues
      exactly the first `budget` unvisited links, in list order. */
  lemma {:induction false} AdmitTakesFirst(visited: set<string>, links: seq<string>, budget: int)
    requires NoDup(links)
    ensures var unseen := Unvisited(visited, links);
      Admit(visited, links, budget, false) == unseen[..Min(if budget < 0 then 0 else budget, |unseen|)]
    decreases |links|
  {
    if |links| > 0 {
      var tail := links[1..];
      assert NoDup(tail) by {
        forall i, j | 0 <= i < j < |tail|
          ensures tail[i] != tail[j]
        {
          assert tail[i] == links[i + 1] && tail[j] == links[j + 1];
        }
      }
      if links[0] in visited {
        AdmitTakesFirst(visited, tail, budget);
      } else if budget > 0 {
        assert links[0] !in tail by {
          forall j | 0 <= j < |tail|
            ensures tail[j] != links[0]
          {
            assert tail[j] == links[j + 1];
          }
        }
        UnvisitedIgnores(visited, links[0], tail);
        AdmitTakesFirst(visited + {links[0]}, tail, budget - 1);
        var unseen := Unvisited(visited, tail);
        assert Unvisited(visited, links) == [links[0]] + unseen;
        assert ([links[0]] + unseen)[..Min(budget, |unseen| + 1)] == [links[0]] + unseen[..Min(budget - 1, |unseen|)];
      }
    }
  }

  // ---------------------------------------------------------------------
  // The crawl state

  datatype Entry = Entry(url: string, depth: nat)

  /** The generator's state. Every request ever queued is kept in `history`,
      oldest first; the first `next` of them have completed, so the crawler's
      queue is the rest. The generator adds a URL to `visitedUrls` exactly
      when it queues it, so that set is the URLs of `history`. */
  datatype Crawl = Crawl(
    cfg: Config,
    baseUrl: string,
    baseDomain: string,
    history: seq<Entry>,
    next: nat,
    /** `sitemapData` */
    pages: seq<PageRecord>,
    /** `isComplete` */
    complete: bool,
    /** the value the returned promise was resolved with, if any */
    delivered: Option<seq<PageRecord>>)

  /** The URLs of a list of requests. */
  function UrlSet(es: seq<Entry>): set<string>
    decreases |es|
  {
    if |es| == 0 then {} else UrlSet(es[..|es| - 1]) + {es[|es| - 1].url}
  }

  /** `visitedUrls` */
  function Visited(s: Crawl): set<string> {
    UrlSet(s.history)
  }

  /** The requests queued and not yet completed, oldest first. */
  function Pending(s: Crawl): seq<Entry> {
    if s.next <= |s.history| then s.history[s.next..] else []
  }

  /** The constructor followed by the seeding in `generate`: the seed is the
      only visited URL and the only request, at depth 0. The constructor
      throws when the seed does not parse. */
  function Start(parse: Parser, baseUrl: string, o: Options): (s: Option<Crawl>)
    ensures s.Some? <==> parse(baseUrl).Some?
    ensures s.Some? ==> Visited(s.value) == {baseUrl}
    ensures s.Some? ==> Pending(s.value) == [Entry(baseUrl, 0)] && s.value.history == Pending(s.value)
    ensures s.Some? ==> s.value.pages == [] && !s.value.complete && s.value.delivered == None
    ensures s.Some? ==> s.value.cfg == Configure(o) && s.value.baseDomain == parse(baseUrl).value.hostname
  {
    match parse(baseUrl)
    case None => None
    case Some(u) =>
      var s := Crawl(Configure(o), baseUrl, u.hostname, [Entry(baseUrl, 0)], 0, [], false, None);
      assert s.history[..0] == [];
      assert UrlSet(s.history) == UrlSet([]) + {baseUrl};
      Some(s)
  }

  /** How a queued request ended: with a response, or with an error after
      the crawler's retries; `href` is the request URL when it is known. */
  datatype Outcome = Fetched(res: Response) | Failed(href: Option<string>, message: string)

  datatype Event =
    | Completed(outcome: Outcome)
      /** the settle timer started by a `drain` event fires */
    | Settled
      /** the 30-minute timer of `generate` fires */
    | TimedOut

  /** The crawler only reports on requests it was given. */
  predicate Enabled(s: Crawl, e: Event) {
    e.Completed? ==> s.next < |s.history|
  }

  /** The requests for `urls`, all at `depth`. */
  function Children(urls: seq<string>, depth: nat): (es: seq<Entry>)
    ensures |es| == |urls|
    ensures forall i :: 0 <= i < |es| ==> es[i] == Entry(urls[i], depth)
    decreases |urls|
  {
    if |urls| == 0 then [] else [Entry(urls[0], depth)] + Children(urls[1..], depth)
  }

  /** The links a fetched page queues: none unless `depth < maxDepth` and the
      record list is still below `maxPages`; never more than the budget. */
  function QueuedFrom(parse: Parser, resolve: Resolver, s: Crawl, res: Response, depth: nat,
                      pageCount: nat): (added: seq<string>)
    ensures |added| <= LinkBudget(depth)
    ensures !(depth < s.cfg.maxDepth && pageCount < s.cfg.maxPages) ==> added == []
  {
    if depth < s.cfg.maxDepth && pageCount < s.cfg.maxPages then
      var links := ExtractLinks(parse, resolve, s.baseDomain, Visited(s), res.href, res.hrefs);
      Admit(Visited(s), links, LinkBudget(depth), pageCount >= s.cfg.maxPages)
    else []
  }

  /** Within the limits, a fetched page queues the first unvisited links it
      yields, in document order, as many as its budget allows. */
  lemma QueuedFromTakesFirst(parse: Parser, resolve: Resolver, s: Crawl, res: Response, depth: nat,
                             pageCount: nat)
    requires depth < s.cfg.maxDepth && pageCount < s.cfg.maxPages
    ensures var unseen := Unvisited(Visited(s), ExtractLinks(parse, resolve, s.baseDomain, Visited(s), res.href, res.hrefs));
      QueuedFrom(parse, resolve, s, res, depth, pageCount) == unseen[..Min(LinkBudget(depth), |unseen|)]
  {
    var links := ExtractLinks(parse, resolve, s.baseDomain, Visited(s), res.href, res.hrefs);
    AdmitTakesFirst(Visited(s), links, LinkBudget(depth));
  }

  /** The state after a completed request: `pages` is the new record list,
      the request is consumed and the `added` links are queued at `depth`. */
  function Enqueue(s: Crawl, pages: seq<PageRecord>, added: seq<string>, depth: nat): Crawl
    requires s.next < |s.history|
  {
    s.(history := s.history + Children(added, depth),
       next := s.next + 1,
       pages := pages)
  }

  /** The depth of the oldest pending request. */
  function CurrentDepth(s: Crawl): nat
    requires s.next < |s.history|
  {
    s.history[s.next].depth
  }

  /** The record list after a fetched page is appended. */
  function FetchedPages(s: Crawl, res: Response): seq<PageRecord>
    requires s.next < |s.history|
  {
    s.pages + [SuccessRecord(res, CurrentDepth(s))]
  }

  /** The links a fetched page queues. */
  function FetchedLinks(parse: Parser, resolve: Resolver, s: Crawl, res: Response): seq<string>
    requires s.next < |s.history|
  {
    QueuedFrom(parse, resolve, s, res, CurrentDepth(s), |s.pages| + 1)
  }

  /** `processPageResult` for the oldest pending request: the page's
      record is appended, the request is consumed, and at most the page's
      link budget of requests is added after the earlier ones. */
  function OnFetched(parse: Parser, resolve: Resolver, s: Crawl, res: Response): (t: Crawl)
    requires s.next < |s.history|
    ensures |t.pages| == |s.pages| + 1 && t.pages[..|s.pages|] == s.pages
    ensures t.pages[|s.pages|] == SuccessRecord(res, s.history[s.next].depth)
    ensures t.next == s.next + 1
    ensures s.history <= t.history && |t.history| <= |s.history| + LinkBudget(s.history[s.next].depth)
    ensures t.cfg == s.cfg && t.baseUrl == s.baseUrl && t.baseDomain == s.baseDomain
    ensures t.complete == s.complete && t.delivered == s.delivered
  {
    Enqueue(s, FetchedPages(s, res), FetchedLinks(parse, resolve, s, res), CurrentDepth(s) + 1)
  }

  /** The error branch of `handleCrawlerResult`: a record is kept only when
      the request URL is known, and nothing is queued. */
  function OnFailed(s: Crawl, href: Option<string>, message: string): (t: Crawl)
    requires s.next < |s.history|
    ensures t.history == s.history && t.next == s.next + 1
    ensures href.None? ==> t.pages == s.pages
    ensures href.Some? ==> (
      && |t.pages| == |s.pages| + 1 && t.pages[..|s.pages|] == s.pages
      && t.pages[|s.pages|].url == href.value && t.pages[|s.pages|].error == Some(message))
    ensures t.cfg == s.cfg && t.baseUrl == s.baseUrl && t.baseDomain == s.baseDomain
    ensures t.complete == s.complete && t.delivered == s.delivered
  {
    var depth := s.history[s.next].depth;
    var pages := if href.Some? then s.pages + [ErrorRecord(href.value, depth, message)] else s.pages;
    Enqueue(s, pages, [], depth)
  }

  /** The settle timer after `drain`: completes only an incomplete crawl with
      an empty queue. */
  function OnSettled(s: Crawl): (t: Crawl)
    ensures t.complete <==> s.complete || Pending(s) == []
    ensures !s.complete && t.complete ==> t.delivered == Some(s.pages)
    ensures s.complete || !t.complete ==> t == s
    ensures t.history == s.history && t.next == s.next && t.pages == s.pages
  {
    if !s.complete && Pending(s) == [] then s.(complete := true, delivered := Some(s.pages)) else s
  }

  /** The timeout of `generate`: completes any incomplete crawl. */
  function OnTimedOut(s: Crawl): (t: Crawl)
    ensures t.complete
    ensures t.delivered == if s.complete then s.delivered else Some(s.pages)
    ensures t.history == s.history && t.next == s.next && t.pages == s.pages
  {
    if !s.complete then s.(complete := true, delivered := Some(s.pages)) else s
  }

  /** One event of the crawl. */
  function Step(parse: Parser, resolve: Resolver, s: Crawl, e: Event): (t: Crawl)
    requires Enabled(s, e)
    ensures t.cfg == s.cfg && t.baseUrl == s.baseUrl && t.baseDomain == s.baseDomain
    ensures s.history <= t.history && s.pages <= t.pages
    ensures t.next == if e.Completed? then s.next + 1 else s.next
    ensures !e.Completed? ==> t.history == s.history && t.pages == s.pages
  {
    match e
    case Completed(Fetched(res)) => OnFetched(parse, resolve, s, res)
    case Completed(Failed(href, message)) => OnFailed(s, href, message)
    case Settled => OnSettled(s)
    case TimedOut => OnTimedOut(s)
  }

  // ---------------------------------------------------------------------
  // Progress

  /** The percentage reported after each page:
      `10 + Math.min(count / maxPages * 80, 80)`. */
  function Progress(count: nat, maxPages: int): real
    requires maxPages != 0
  {
    var p := count as real / maxPages as real * 80.0;
    10.0 + (if p < 80.0 then p else 80.0)
  }

  /** With a positive page limit the percentage stays within [10, 90], grows
      with the page count and reaches 90 exactly when the limit is reached. */
  lemma ProgressBounds(count: nat, maxPages: int)
    requires maxPages > 0
    ensures 10.0 <= Progress(count, maxPages) <= 90.0
    ensures Progress(count, maxPages) == 90.0 <==> count >= maxPages
    ensures count == 0 ==> Progress(count, maxPages) == 10.0
  {
    var m := maxPages as real;
    var p := count as real / m * 80.0;
    if count >= maxPages {
      assert count as real / m >= 1.0;
    } else {
      assert count as real / m < 1.0;
    }
  }

  lemma ProgressMonotone(a: nat, b: nat, maxPages: int)
    requires maxPages > 0 && a <= b
    ensures Progress(a, maxPages) <= Progress(b, maxPages)
  {
    var m := maxPages as real;
    assert a as real / m <= b as real / m;
  }

  /** A run of events, each enabled in the state it meets; `None` when one
      is not. */
  function Run(parse: Parser, resolve: Resolver, s: Crawl, es: seq<Event>): (r: Option<Crawl>)
    ensures r.Some? ==> (
      && r.value.cfg == s.cfg && r.value.baseUrl == s.baseUrl && r.value.baseDomain == s.baseDomain
      && s.history <= r.value.history && s.pages <= r.value.pages && s.next <= r.value.next)
    decreases |es|
  {
    if |es| == 0 then Some(s)
    else if !Enabled(s, es[0]) then None
    else Run(parse, resolve, Step(parse, resolve, s, es[0]), es[1..])
  }
}
