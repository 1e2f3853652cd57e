/** The Sitemap sheet of the Excel report (src/excelGenerator.js): the path
    levels of each page, the order of the rows, their numbers and colours,
    and the page counts of the Summary sheet. The workbook itself is not
    modelled; each row is the values and fills the generator gives it. */
module ExcelReport {
  import opened Js
  import opened Text
  import opened Url
  import opened Records
  import opened Sorting

  // ---------------------------------------------------------------------
  // Path levels

  /** What `parseUrlPath` returns. */
  datatype PathLevels = PathLevels(
    level1: string,
    level2: string,
    level3: string,
    level4: string,
    level5: string,
    fullPath: string)

  function Levels(p: PathLevels): (ls: seq<string>)
    ensures |ls| == 5
  {
    [p.level1, p.level2, p.level3, p.level4, p.level5]
  }

  /** The non-empty `/`-separated segments of a pathname. */
  function Segments(pathname: string): seq<string> {
    NonEmpty(Split(pathname, '/'))
  }

  /** The `k`-th segment, or `''` when there are fewer. */
  function LevelAt(segs: seq<string>, k: nat): string {
    if k < |segs| then segs[k] else ""
  }

  /** `parseUrlPath(url)`: an unparseable URL has no levels and keeps its
      text as the full path; a path without segments is the root `'/'`;
      otherwise the first five segments are the levels and the pathname is
      the full path. */
  function ParseUrlPath(parse: Parser, url: string): (p: PathLevels)
    ensures p.level1 != "" <==> parse(url).Some?
    ensures parse(url).None? ==> p.fullPath == url
    ensures parse(url).Some? ==> p.fullPath == "/" || p.fullPath == parse(url).value.pathname
  {
    match parse(url)
    case None => PathLevels("", "", "", "", "", url)
    case Some(u) =>
      var segs := Segments(u.pathname);
      if |segs| == 0 then PathLevels("/", "", "", "", "", "/")
      else PathLevels(LevelAt(segs, 0), LevelAt(segs, 1), LevelAt(segs, 2),
                      LevelAt(segs, 3), LevelAt(segs, 4), u.pathname)
  }

  /** The levels of a parsed URL: the root has level 1 `'/'` and nothing
      else; otherwise level k is the k-th non-empty segment of the pathname
      when there is one and `''` when there is not, so no level holds a `/`,
      no empty segment becomes a level, the filled levels come first, and
      segments past the fifth are dropped while the full path is kept. */
  lemma ParseUrlPathSpec(parse: Parser, url: string)
    ensures var p := ParseUrlPath(parse, url);
      && (parse(url).None? ==> Levels(p) == ["", "", "", "", ""] && p.fullPath == url)
      && (parse(url).Some? && Segments(parse(url).value.pathname) == [] ==>
            Levels(p) == ["/", "", "", "", ""] && p.fullPath == "/")
      && (parse(url).Some? && Segments(parse(url).value.pathname) != [] ==>
            var segs := Segments(parse(url).value.pathname);
            && p.fullPath == parse(url).value.pathname
            && (forall k :: 0 <= k < 5 ==> (k < |segs| ==> Levels(p)[k] == segs[k]))
            && (forall k :: 0 <= k < 5 ==> (k >= |segs| ==> Levels(p)[k] == ""))
            && (forall k :: 0 <= k < 5 ==> '/' !in Levels(p)[k])
            && (forall k :: 0 <= k < 5 && Levels(p)[k] != "" ==> Levels(p)[k] in Split(parse(url).value.pathname, '/'))
            && (forall k :: 1 <= k < 5 && Levels(p)[k] != "" ==> Levels(p)[k - 1] != ""))
  {
    match parse(url)
    case None =>
    case Some(u) =>
      var segs := Segments(u.pathname);
      if segs != [] {
        SegmentsClean(u.pathname);
        LevelsOfSegments(segs, u.pathname);
      }
  }

  /** Every segment is non-empty, free of `/`, and one of the split parts. */
  lemma SegmentsClean(pathname: string)
    ensures var segs := Segments(pathname);
      forall k :: 0 <= k < |segs| ==>
        segs[k] != "" && '/' !in segs[k] && segs[k] in Split(pathname, '/')
  {
    var parts := Split(pathname, '/');
    var segs := Segments(pathname);
    forall k | 0 <= k < |segs|
      ensures segs[k] != "" && '/' !in segs[k] && segs[k] in parts
    {
      assert segs[k] in parts;
      var j :| 0 <= j < |parts| && parts[j] == segs[k];
    }
  }

  /** Levels taken from clean segments: level k is segment k or `''`, and
      the filled levels come first. */
  lemma LevelsOfSegments(segs: seq<string>, full: string)
    requires forall k :: 0 <= k < |segs| ==> segs[k] != ""
    ensures var p := PathLevels(LevelAt(segs, 0), LevelAt(segs, 1), LevelAt(segs, 2),
                                LevelAt(segs, 3), LevelAt(segs, 4), full);
      && (forall k :: 0 <= k < 5 ==> Levels(p)[k] == LevelAt(segs, k))
      && (forall k :: 1 <= k < 5 && Levels(p)[k] != "" ==> Levels(p)[k - 1] != "")
  {
  }

  /** The parse as a partner: a pathname built from one to five non-empty
      segments without `/` gives back exactly those segments as levels. */
  lemma {:induction false} ParseUrlPathOfSegments(parse: Parser, url: string, ps: seq<string>)
    requires parse(url).Some? && parse(url).value.pathname == "/" + Join(ps, '/')
    requires 1 <= |ps|
    requires forall i :: 0 <= i < |ps| ==> ps[i] != "" && '/' !in ps[i]
    ensures Segments(parse(url).value.pathname) == ps
    ensures forall k :: 0 <= k < 5 ==> Levels(ParseUrlPath(parse, url))[k] == LevelAt(ps, k)
    ensures ParseUrlPath(parse, url).fullPath == "/" + Join(ps, '/')
  {
    SegmentsOfRooted(ps);
    LevelsOfSegments(ps, "/" + Join(ps, '/'));
  }

  /** The segments of `'/' + ps.join('/')` are `ps` when each is non-empty
      and free of `/`. */
  lemma SegmentsOfRooted(ps: seq<string>)
    requires 1 <= |ps|
    requires forall i :: 0 <= i < |ps| ==> ps[i] != "" && '/' !in ps[i]
    ensures Segments("/" + Join(ps, '/')) == ps
  {
    var parts := [""] + ps;
    assert parts[1..] == ps;
    assert Join(parts, '/') == "/" + Join(ps, '/');
    forall i | 0 <= i < |parts|
      ensures '/' !in parts[i]
    {
      if i > 0 {
        assert parts[i] == ps[i - 1];
      }
    }
    SplitJoin(parts, '/');
    NonEmptyKeepsNonEmpty(ps);
  }

  // ---------------------------------------------------------------------
  // Row order

  /** The sort key: `parseUrlPath(page.url).fullPath`. */
  function FullPathKey(parse: Parser): PageRecord -> string {
    (page: PageRecord) => ParseUrlPath(parse, page.url).fullPath
  }

  /** `sitemapData.sort(...)` by full path (`Array.prototype.sort` is
      stable). */
  function SortedPages(parse: Parser, pages: seq<PageRecord>): seq<PageRecord> {
    SortBy(pages, FullPathKey(parse))
  }

  /** The sorted pages are the input pages, each as often as before, in
      full-path order, with the pages that share a full path in their input
      order; sorting them again changes nothing. */
  lemma SortedPagesSpec(parse: Parser, pages: seq<PageRecord>)
    ensures var sorted := SortedPages(parse, pages);
      && |sorted| == |pages|
      && multiset(sorted) == multiset(pages)
      && (forall i, j :: 0 <= i < j < |sorted| ==>
            LexLe(ParseUrlPath(parse, sorted[i].url).fullPath, ParseUrlPath(parse, sorted[j].url).fullPath))
      && SortedPages(parse, sorted) == sorted
      && (forall k :: WithKey(sorted, FullPathKey(parse), k) == WithKey(pages, FullPathKey(parse), k))
  {
    var sorted := SortedPages(parse, pages);
    var key := FullPathKey(parse);
    forall k
      ensures WithKey(sorted, key, k) == WithKey(pages, key, k)
    {
      SortByStable(pages, key, k);
    }
    assert SortedBy(sorted, key);
    forall i, j | 0 <= i < j < |sorted|
      ensures LexLe(ParseUrlPath(parse, sorted[i].url).fullPath, ParseUrlPath(parse, sorted[j].url).fullPath)
    {
      assert LexLe(key(sorted[i]), key(sorted[j]));
    }
    SortByIdempotent(pages, key);
  }

  // ---------------------------------------------------------------------
  // Rows

  const ErrorFill: string := "FFFFCCCC"
  const LevelColours: seq<string> := ["FFE6F3FF", "FFD4F3FF", "FFC2F0FF", "FFB0ECFF", "FF9EE8FF"]
  const DepthColours: seq<string> := ["FFFFFF", "FFF2CC", "FFE699", "FFDB4D", "FFD700"]

  /** One row of the Sitemap sheet: its values and the fills put on it. */
  datatype Row = Row(
    no: nat,
    levels: PathLevels,
    title: string,
    metaDescription: string,
    h1: string,
    depth: nat,
    status: Status,
    contentType: string,
    /** the row fill, set for error pages */
    rowFill: Option<string>,
    /** the fill of each level cell */
    levelFills: seq<Option<string>>,
    /** the fill of the depth cell */
    depthFill: string)

  /** `Math.min(page.depth, depthColors.length - 1)`. */
  function DepthColourIndex(depth: nat): (k: nat)
    ensures k < |DepthColours|
    ensures k <= depth
    ensures depth < |DepthColours| ==> k == depth
    ensures depth >= |DepthColours| ==> k == |DepthColours| - 1
  {
    if depth < |DepthColours| - 1 then depth else |DepthColours| - 1
  }

  /** A level cell is filled with its level's colour when its value is
      truthy, that is, not empty. */
  function LevelFills(p: PathLevels): (fs: seq<Option<string>>)
    ensures |fs| == 5
  {
    seq(5, k requires 0 <= k < 5 => if Levels(p)[k] != "" then Some(LevelColours[k]) else None)
  }

  /** The row for the page at zero-based position `index`. */
  function MakeRow(parse: Parser, index: nat, page: PageRecord): Row {
    var levels := ParseUrlPath(parse, page.url);
    Row(index + 1, levels, page.title, page.metaDescription, page.h1, page.depth, page.status,
        page.contentType,
        if IsErrorStatus(page.status) then Some(ErrorFill) else None,
        LevelFills(levels),
        DepthColours[DepthColourIndex(page.depth)])
  }

  /** The data rows of the Sitemap sheet, which are also the rows of its
      table. */
  function SitemapRows(parse: Parser, pages: seq<PageRecord>): (rows: seq<Row>)
    ensures |rows| == |pages|
    ensures forall i :: 0 <= i < |rows| ==> rows[i].no == i + 1
    ensures forall i, j :: 0 <= i < j < |rows| ==> LexLe(rows[i].levels.fullPath, rows[j].levels.fullPath)
  {
    var sorted := SortedPages(parse, pages);
    MakeRowsOrdered(parse, sorted);
    seq(|sorted|, i requires 0 <= i < |sorted| => MakeRow(parse, i, sorted[i]))
  }

  /** Rows made from pages in full-path order are in full-path order. */
  lemma MakeRowsOrdered(parse: Parser, sorted: seq<PageRecord>)
    requires SortedBy(sorted, FullPathKey(parse))
    ensures forall i, j :: 0 <= i < j < |sorted| ==>
      LexLe(MakeRow(parse, i, sorted[i]).levels.fullPath, MakeRow(parse, j, sorted[j]).levels.fullPath)
  {
    forall i, j | 0 <= i < j < |sorted|
      ensures LexLe(MakeRow(parse, i, sorted[i]).levels.fullPath, MakeRow(parse, j, sorted[j]).levels.fullPath)
    {
      assert FullPathKey(parse)(sorted[i]) == MakeRow(parse, i, sorted[i]).levels.fullPath;
      assert FullPathKey(parse)(sorted[j]) == MakeRow(parse, j, sorted[j]).levels.fullPath;
    }
  }

  /** Row i shows the i-th page in full-path order under number i + 1, so
      the numbers are exactly 1..n; it is filled red exactly when the
      page's status is an error; each level cell is coloured, with its
      level's colour, exactly when it is not empty; the depth cell takes the
      colour of the depth, clamped to the last colour. */
  lemma SitemapRowsSpec(parse: Parser, pages: seq<PageRecord>, i: nat)
    requires i < |pages|
    ensures var rows := SitemapRows(parse, pages);
      var page := SortedPages(parse, pages)[i];
      && rows[i].no == i + 1
      && rows[i].levels == ParseUrlPath(parse, page.url)
      && rows[i].title == page.title && rows[i].depth == page.depth && rows[i].status == page.status
      && (rows[i].rowFill.Some? <==> page.status != Code(200) && page.status != Label("200"))
      && (rows[i].rowFill.Some? ==> rows[i].rowFill.value == "FFFFCCCC")
      && (forall k :: 0 <= k < 5 ==>
            (rows[i].levelFills[k].Some? <==> Levels(rows[i].levels)[k] != "")
            && (rows[i].levelFills[k].Some? ==> rows[i].levelFills[k].value == LevelColours[k]))
      && rows[i].depthFill == DepthColours[if page.depth < 4 then page.depth else 4]
  {
    SortedPagesSpec(parse, pages);
  }

  /** The row numbers, in row order, are exactly 1..n: they increase
      strictly, and the set of them is the set 1..n. */
  lemma RowNumbers(parse: Parser, pages: seq<PageRecord>)
    ensures var rows := SitemapRows(parse, pages);
      && (forall i, j :: 0 <= i < j < |rows| ==> rows[i].no < rows[j].no)
      && (forall i :: 0 <= i < |rows| ==> 1 <= rows[i].no <= |rows|)
      && seq(|rows|, i requires 0 <= i < |rows| => rows[i].no) == Positions(|pages|)
  {
    var rows := SitemapRows(parse, pages);
    var nos := seq(|rows|, i requires 0 <= i < |rows| => rows[i].no);
    assert forall i :: 0 <= i < |rows| ==> nos[i] == Positions(|pages|)[i];
  }

  /** The numbers 1..n in order. */
  function Positions(n: nat): (ps: seq<nat>)
    ensures |ps| == n
    ensures forall i :: 0 <= i < n ==> ps[i] == i + 1
  {
    seq(n, i => i + 1)
  }

  /** Row i is filled red exactly when the i-th sorted page has an error
      status. */
  lemma RowsHighlightErrors(parse: Parser, pages: seq<PageRecord>)
    ensures var rows := SitemapRows(parse, pages);
      var sorted := SortedPages(parse, pages);
      |rows| == |sorted| &&
      forall i :: 0 <= i < |rows| ==> (rows[i].rowFill.Some? <==> IsErrorStatus(sorted[i].status))
  {
    SortedPagesSpec(parse, pages);
  }

  // ---------------------------------------------------------------------
  // Summary counts

  /** `sortedData.filter(page => status is an error).length`. */
  function ErrorPages(pages: seq<PageRecord>): (n: nat)
    ensures n <= |pages|
    decreases |pages|
  {
    if |pages| == 0 then 0
    else (if IsErrorStatus(pages[0].status) then 1 else 0) + ErrorPages(pages[1..])
  }

  /** The number of rows filled red. */
  function HighlightedRows(rows: seq<Row>): nat
    decreases |rows|
  {
    if |rows| == 0 then 0
    else (if rows[0].rowFill.Some? then 1 else 0) + HighlightedRows(rows[1..])
  }

  lemma {:induction false} ErrorPagesAppend(a: seq<PageRecord>, b: seq<PageRecord>)
    ensures ErrorPages(a + b) == ErrorPages(a) + ErrorPages(b)
    decreases |a|
  {
    if |a| > 0 {
      assert (a + b)[1..] == a[1..] + b;
      ErrorPagesAppend(a[1..], b);
    } else {
      assert a + b == b;
    }
  }

  /** Taking out the page at `k` takes out its share of the count. */
  lemma ErrorPagesRemove(t: seq<PageRecord>, k: nat)
    requires k < |t|
    ensures ErrorPages(t) == ErrorPages(t[..k] + t[k + 1..]) + (if IsErrorStatus(t[k].status) then 1 else 0)
  {
    assert t[..k] + t[k..] == t;
    ErrorPagesAppend(t[..k], t[k..]);
    assert t[k..][1..] == t[k + 1..];
    ErrorPagesAppend(t[..k], t[k + 1..]);
  }

  /** Taking out the page at `k` leaves the other pages. */
  lemma MultisetRemove(t: seq<PageRecord>, k: nat)
    requires k < |t|
    ensures multiset(t[..k] + t[k + 1..]) == multiset(t) - multiset{t[k]}
  {
    var front, back := t[..k], t[k + 1..];
    assert t == front + [t[k]] + back;
    assert multiset(t) == multiset(front) + multiset{t[k]} + multiset(back);
  }

  /** The count does not depend on the order of the pages. */
  lemma {:induction false} ErrorPagesPermutation(s: seq<PageRecord>, t: seq<PageRecord>)
    requires multiset(s) == multiset(t)
    ensures ErrorPages(s) == ErrorPages(t)
    decreases |s|
  {
    if |s| == 0 {
      assert |t| == |multiset(t)| == 0;
    } else {
      var x := s[0];
      assert x in multiset(t);
      var k :| 0 <= k < |t| && t[k] == x;
      ErrorPagesRemove(t, k);
      MultisetRemove(t, k);
      assert s == [x] + s[1..];
      assert multiset(s[1..]) == multiset(s) - multiset{x};
      ErrorPagesPermutation(s[1..], t[..k] + t[k + 1..]);
    }
  }

  lemma {:induction false} HighlightedRowsCount(rows: seq<Row>, pages: seq<PageRecord>)
    requires |rows| == |pages|
    requires forall i :: 0 <= i < |rows| ==> (rows[i].rowFill.Some? <==> IsErrorStatus(pages[i].status))
    ensures HighlightedRows(rows) == ErrorPages(pages)
    decreases |rows|
  {
    if |rows| > 0 {
      HighlightedRowsCount(rows[1..], pages[1..]);
    }
  }

  /** The summary values the report computes from the pages. */
  datatype Summary = Summary(totalPages: nat, errorPages: nat, maxDepth: Option<nat>)

  /** `Math.max(...depths)`, `None` for no pages. */
  function MaxDepth(pages: seq<PageRecord>): (m: Option<nat>)
    ensures m.None? <==> |pages| == 0
    ensures m.Some? ==> (forall i :: 0 <= i < |pages| ==> pages[i].depth <= m.value)
    ensures m.Some? ==> exists i :: 0 <= i < |pages| && pages[i].depth == m.value
    decreases |pages|
  {
    if |pages| == 0 then None
    else match MaxDepth(pages[1..])
      case None => Some(pages[0].depth)
      case Some(d) =>
        assert forall i :: 1 <= i < |pages| ==> pages[i] == pages[1..][i - 1];
        if pages[0].depth >= d then Some(pages[0].depth) else Some(d)
  }

  function Summarize(parse: Parser, pages: seq<PageRecord>): (sum: Summary)
    ensures sum.totalPages == |pages|
    ensures sum.errorPages <= sum.totalPages
    ensures sum.maxDepth.None? <==> |pages| == 0
  {
    var sorted := SortedPages(parse, pages);
    Summary(|sorted|, ErrorPages(sorted), MaxDepth(sorted))
  }

  /** The Summary sheet counts every page once, and counts as errors exactly
      the rows the Sitemap sheet fills red, which are the input pages whose
      status is neither 200 nor `'200'`. */
  lemma SummaryCounts(parse: Parser, pages: seq<PageRecord>)
    ensures var sum := Summarize(parse, pages);
      && sum.totalPages == |pages|
      && sum.errorPages == HighlightedRows(SitemapRows(parse, pages))
      && sum.errorPages == ErrorPages(pages)
      && (sum.maxDepth.Some? <==> |pages| > 0)
  {
    var sorted := SortedPages(parse, pages);
    SortedPagesSpec(parse, pages);
    RowsHighlightErrors(parse, pages);
    HighlightedRowsCount(SitemapRows(parse, pages), sorted);
    ErrorPagesPermutation(sorted, pages);
  }
}
