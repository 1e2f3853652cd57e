/** The download archive (src/zipGenerator.js): the Excel entry and its name,
    the screenshot entries renamed after their row in the report, and the
    README that lists and counts them. Archive streams, the file system and
    the clock are not modelled: whether a path exists is a predicate passed
    in, and the date and the time stamp are strings passed in. */
module ZipPackage {
  import opened Js
  import opened Text
  import opened Url
  import opened Records
  import opened Sorting
  import opened ExcelReport

  // ---------------------------------------------------------------------
  // Numbers

  /** `n.toString().padStart(3, '0')`. */
  function Pad3(n: nat): string {
    PadStart(NatToString(n), 3, '0')
  }

  /** The padded number is all digits, at least three of them, and is never
      cut: below 1000 it has exactly three, from 1000 on it is the plain
      decimal form. */
  lemma Pad3Digits(n: nat)
    ensures AllDigits(Pad3(n)) && |Pad3(n)| >= 3
    ensures n < 1000 ==> |Pad3(n)| == 3
    ensures n >= 1000 ==> Pad3(n) == NatToString(n)
  {
    if n < 1000 {
      NatToStringShort(n);
    } else {
      NatToStringLong(n);
    }
  }

  /** `parseInt` of the padded number gives back the number. */
  lemma Pad3Value(n: nat)
    ensures AllDigits(Pad3(n)) && DigitsValue(Pad3(n)) == n
  {
    var d := NatToString(n);
    DigitsValueOfNatToString(n);
    if |d| < 3 {
      assert Pad3(n) == Repeat('0', 3 - |d|) + d;
      DigitsValueLeadingZeros(3 - |d|, d);
    }
  }

  lemma {:induction false} NatToStringShort(n: nat)
    requires n < 1000
    ensures |NatToString(n)| <= 3
  {
    if n >= 10 {
      NatToStringShort(n / 10);
      if n / 10 >= 10 {
        assert n / 10 / 10 < 10;
      }
    }
  }

  lemma NatToStringLong(n: nat)
    requires n >= 1000
    ensures |NatToString(n)| >= 4
  {
    assert n / 10 >= 100 && n / 10 / 10 >= 10;
    assert |NatToString(n / 10 / 10)| >= 2;
    assert |NatToString(n / 10)| >= 3;
  }

  lemma Pad3AllDigits(n: nat)
    ensures AllDigits(Pad3(n))
  {
    Pad3Value(n);
  }

  /** Different numbers are padded to different strings. */
  lemma Pad3Injective(m: nat, n: nat)
    ensures Pad3(m) == Pad3(n) ==> m == n
  {
    Pad3Value(m);
    Pad3Value(n);
  }

  // ---------------------------------------------------------------------
  // Entry names

  /** The name of the entry for the page at zero-based position `i` of the
      sorted list: the row number of the report, padded, then the format. */
  function EntryName(i: nat, format: string): string {
    "screenshots/" + Pad3(i + 1) + "." + format
  }

  /** In a run of digits followed by a dot, the first dot ends the digits. */
  lemma DotPosition(d: string, f: string)
    requires AllDigits(d)
    ensures (d + "." + f)[|d|] == '.'
    ensures forall k :: 0 <= k < |d| ==> (d + "." + f)[k] != '.'
  {
  }

  /** A run of digits followed by a dot can be read back unambiguously. */
  lemma DigitsDotUnique(d1: string, f1: string, d2: string, f2: string)
    requires AllDigits(d1) && AllDigits(d2)
    requires d1 + "." + f1 == d2 + "." + f2
    ensures d1 == d2 && f1 == f2
  {
    var s := d1 + "." + f1;
    DotPosition(d1, f1);
    DotPosition(d2, f2);
    assert |d1| == |d2|;
    assert d1 == s[..|d1|] == d2;
    assert f1 == s[|d1| + 1..] == f2;
  }

  /** An entry name is the screenshots folder, the padded row number and
      the format. */
  lemma EntryNameShape(i: nat, f: string)
    ensures StartsWith(EntryName(i, f), "screenshots/")
    ensures EndsWith(EntryName(i, f), "." + f)
  {
    var n := EntryName(i, f);
    assert n == "screenshots/" + (Pad3(i + 1) + "." + f);
    assert n == ("screenshots/" + Pad3(i + 1)) + ("." + f);
  }

  /** Behind a common prefix, a run of digits followed by a dot can still
      be read back unambiguously. */
  lemma PrefixedDigitsDotUnique(p: string, d1: string, f1: string, d2: string, f2: string)
    requires AllDigits(d1) && AllDigits(d2)
    requires p + d1 + "." + f1 == p + d2 + "." + f2
    ensures d1 == d2 && f1 == f2
  {
    assert (p + d1 + "." + f1)[|p|..] == d1 + "." + f1;
    assert (p + d2 + "." + f2)[|p|..] == d2 + "." + f2;
    DigitsDotUnique(d1, f1, d2, f2);
  }

  /** Two positions never share a name, whatever their formats. */
  lemma EntryNameInjective(i: nat, f: string, j: nat, g: string)
    requires EntryName(i, f) == EntryName(j, g)
    ensures i == j && f == g
  {
    PaddedNameUnique("screenshots/", i + 1, f, j + 1, g);
  }

  /** A name made of a prefix, a padded number, a dot and a format gives
      back the number and the format. */
  lemma PaddedNameUnique(p: string, m: nat, f: string, n: nat, g: string)
    requires p + Pad3(m) + "." + f == p + Pad3(n) + "." + g
    ensures m == n && f == g
  {
    Pad3AllDigits(m);
    Pad3AllDigits(n);
    PrefixedDigitsDotUnique(p, Pad3(m), f, Pad3(n), g);
    Pad3Injective(m, n);
  }

  /** `sitemap_<host without one leading www.>_<date>.xlsx`. */
  function ExcelFileName(hostname: string, date: string): string {
    "sitemap_" + StripWww(hostname) + "_" + date + ".xlsx"
  }

  /** Only one leading `www.` is dropped from the host in the Excel name. */
  lemma ExcelFileNameSpec(host: string, date: string)
    ensures ExcelFileName(WwwPrefix + host, date) == "sitemap_" + host + "_" + date + ".xlsx"
    ensures !StartsWith(host, WwwPrefix) ==> ExcelFileName(host, date) == "sitemap_" + host + "_" + date + ".xlsx"
    ensures StartsWith(ExcelFileName(host, date), "sitemap_") && EndsWith(ExcelFileName(host, date), ".xlsx")
  {
    StripWwwSpec(host);
    var n := ExcelFileName(host, date);
    assert n == "sitemap_" + (StripWww(host) + "_" + date + ".xlsx");
    assert n == ("sitemap_" + StripWww(host) + "_" + date) + ".xlsx";
  }

  /** For one host, two Excel names are equal exactly when their dates are. */
  lemma ExcelFileNameInjective(host: string, d1: string, d2: string)
    ensures ExcelFileName(host, d1) == ExcelFileName(host, d2) <==> d1 == d2
  {
    if ExcelFileName(host, d1) == ExcelFileName(host, d2) {
      MiddleUnique("sitemap_" + StripWww(host) + "_", d1, d2, ".xlsx");
    }
  }

  /** Between a common prefix and a common suffix the middle is determined. */
  lemma MiddleUnique(p: string, a: string, b: string, q: string)
    requires p + a + q == p + b + q
    ensures a == b
  {
    assert |a| == |b|;
    assert a == (p + a + q)[|p|..|p| + |a|];
    assert b == (p + b + q)[|p|..|p| + |b|];
  }

  // ---------------------------------------------------------------------
  // Screenshot files

  /** One element of `screenshotFiles`. */
  datatype ScreenshotFile = ScreenshotFile(
    url: string,
    filePath: string,
    fileName: string,
    format: string,
    viewport: string)

  /** The position of the first file for `url`. */
  function FirstIndex(files: seq<ScreenshotFile>, url: string): (r: Option<nat>)
    ensures r.None? <==> forall k :: 0 <= k < |files| ==> files[k].url != url
    ensures r.Some? ==> r.value < |files| && files[r.value].url == url
    ensures r.Some? ==> forall j :: 0 <= j < r.value ==> files[j].url != url
    decreases |files|
  {
    if |files| == 0 then None
    else if files[0].url == url then Some(0)
    else
      match FirstIndex(files[1..], url)
      case None => None
      case Some(k) => Some(k + 1)
  }

  /** `files.find(file => file.url === url)`: the first file for `url`. */
  function FindFile(files: seq<ScreenshotFile>, url: string): (r: Option<ScreenshotFile>)
    ensures r.None? <==> forall k :: 0 <= k < |files| ==> files[k].url != url
    ensures r.Some? ==> r.value in files && r.value.url == url
  {
    match FirstIndex(files, url)
    case None => None
    case Some(k) => Some(files[k])
  }

  /** The page is marked as captured. */
  predicate Saved(page: PageRecord) {
    page.screenshot == Some("Saved")
  }

  /** The file the archive takes for the page at position `i`: the page is
      marked `'Saved'`, a file for its URL is listed, and the first such
      file exists on disk. */
  function CaptureOf(sorted: seq<PageRecord>, files: seq<ScreenshotFile>, onDisk: string -> bool, i: nat)
    : (r: Option<ScreenshotFile>)
    requires i < |sorted|
    ensures r.Some? <==> Saved(sorted[i]) && FindFile(files, sorted[i].url).Some? &&
                         onDisk(FindFile(files, sorted[i].url).value.filePath)
    ensures r.Some? ==> r.value in files && r.value.url == sorted[i].url && onDisk(r.value.filePath)
  {
    if Saved(sorted[i]) then
      match FindFile(files, sorted[i].url)
      case Some(f) => if onDisk(f.filePath) then Some(f) else None
      case None => None
    else None
  }

  /** The entry that copies the screenshot `file` of the page at zero-based
      position `position`. */
  datatype Shot = Shot(position: nat, file: ScreenshotFile) {
    /** `screenshots/<row number padded>.<format>`. */
    function Name(): string {
      EntryName(position, file.format)
    }
  }

  /** The loop over the first `n` sorted pages. */
  function ScreenshotEntries(sorted: seq<PageRecord>, files: seq<ScreenshotFile>, onDisk: string -> bool, n: nat)
    : (r: seq<Shot>)
    requires n <= |sorted|
    ensures |r| <= n
    ensures forall k :: 0 <= k < |r| ==> r[k].position < n
    decreases n
  {
    if n == 0 then []
    else
      var earlier := ScreenshotEntries(sorted, files, onDisk, n - 1);
      match CaptureOf(sorted, files, onDisk, n - 1)
      case Some(f) => earlier + [Shot(n - 1, f)]
      case None => earlier
  }

  /** Page `i` gets an entry: it is among the first `n` and captured. */
  predicate HasShot(sorted: seq<PageRecord>, files: seq<ScreenshotFile>, onDisk: string -> bool, n: nat, i: nat) {
    i < n <= |sorted| && CaptureOf(sorted, files, onDisk, i).Some?
  }

  /** `shot` is the entry of a captured page among the first `n`, with the
      file taken for that page. */
  predicate ShotOf(sorted: seq<PageRecord>, files: seq<ScreenshotFile>, onDisk: string -> bool, n: nat, shot: Shot) {
    HasShot(sorted, files, onDisk, n, shot.position) &&
    Some(shot.file) == CaptureOf(sorted, files, onDisk, shot.position)
  }

  /** Every shot of `r` is that of a captured page among the first `n`,
      with the file taken for it, and the positions increase. */
  predicate ShotsSound(sorted: seq<PageRecord>, files: seq<ScreenshotFile>, onDisk: string -> bool, n: nat,
                       r: seq<Shot>) {
    && (forall k :: 0 <= k < |r| ==> ShotOf(sorted, files, onDisk, n, r[k]))
    && (forall k, l :: 0 <= k < l < |r| ==> r[k].position < r[l].position)
  }

  /** Every entry is that of a captured page with the file taken for it,
      and the entries follow the order of the pages. */
  lemma {:induction false} ScreenshotEntriesSound(sorted: seq<PageRecord>, files: seq<ScreenshotFile>,
                                                  onDisk: string -> bool, n: nat)
    requires n <= |sorted|
    ensures ShotsSound(sorted, files, onDisk, n, ScreenshotEntries(sorted, files, onDisk, n))
    decreases n
  {
    if n > 0 {
      ScreenshotEntriesSound(sorted, files, onDisk, n - 1);
      var earlier := ScreenshotEntries(sorted, files, onDisk, n - 1);
      var c := CaptureOf(sorted, files, onDisk, n - 1);
      ShotsSoundWiden(sorted, files, onDisk, n, earlier);
      if c.Some? {
        ShotsSoundSnoc(sorted, files, onDisk, n, earlier, Shot(n - 1, c.value));
      }
    }
  }

  /** Sound shots for the first `n - 1` pages stay sound for `n`. */
  lemma ShotsSoundWiden(sorted: seq<PageRecord>, files: seq<ScreenshotFile>, onDisk: string -> bool, n: nat,
                        r: seq<Shot>)
    requires 0 < n <= |sorted|
    requires ShotsSound(sorted, files, onDisk, n - 1, r)
    ensures ShotsSound(sorted, files, onDisk, n, r)
    ensures forall k :: 0 <= k < |r| ==> r[k].position < n - 1
  {
    forall k | 0 <= k < |r|
      ensures ShotOf(sorted, files, onDisk, n, r[k]) && r[k].position < n - 1
    {
      assert ShotOf(sorted, files, onDisk, n - 1, r[k]);
    }
  }

  /** Appending the shot of a captured page `n - 1` to sound shots for the
      first `n - 1` pages gives sound shots for the first `n`. */
  lemma ShotsSoundSnoc(sorted: seq<PageRecord>, files: seq<ScreenshotFile>, onDisk: string -> bool, n: nat,
                       earlier: seq<Shot>, shot: Shot)
    requires 0 < n <= |sorted|
    requires ShotsSound(sorted, files, onDisk, n, earlier)
    requires forall k :: 0 <= k < |earlier| ==> earlier[k].position < n - 1
    requires CaptureOf(sorted, files, onDisk, n - 1) == Some(shot.file) && shot.position == n - 1
    ensures ShotsSound(sorted, files, onDisk, n, earlier + [shot])
  {
    var r := earlier + [shot];
    assert ShotOf(sorted, files, onDisk, n, shot);
    forall k | 0 <= k < |r|
      ensures ShotOf(sorted, files, onDisk, n, r[k])
    {
      if k == |earlier| {
        assert r[k] == shot;
      } else {
        assert r[k] == earlier[k];
      }
    }
    forall k, l | 0 <= k < l < |r|
      ensures r[k].position < r[l].position
    {
      assert r[k] == earlier[k];
      if l < |earlier| {
        assert r[l] == earlier[l];
      } else {
        assert r[l] == shot;
      }
    }
  }

  /** Every captured page among the first `n` has its entry. */
  lemma {:induction false} ScreenshotEntriesComplete(sorted: seq<PageRecord>, files: seq<ScreenshotFile>,
                                                     onDisk: string -> bool, n: nat)
    requires n <= |sorted|
    ensures forall i: nat :: HasShot(sorted, files, onDisk, n, i) ==>
      Shot(i, CaptureOf(sorted, files, onDisk, i).value) in ScreenshotEntries(sorted, files, onDisk, n)
    decreases n
  {
    if n > 0 {
      ScreenshotEntriesComplete(sorted, files, onDisk, n - 1);
      var earlier := ScreenshotEntries(sorted, files, onDisk, n - 1);
      var r := ScreenshotEntries(sorted, files, onDisk, n);
      forall i: nat | HasShot(sorted, files, onDisk, n, i)
        ensures Shot(i, CaptureOf(sorted, files, onDisk, i).value) in r
      {
        var shot := Shot(i, CaptureOf(sorted, files, onDisk, i).value);
        if i < n - 1 {
          assert HasShot(sorted, files, onDisk, n - 1, i);
          assert shot in earlier;
          assert r == earlier || r == earlier + [Shot(n - 1, CaptureOf(sorted, files, onDisk, n - 1).value)];
        } else {
          assert r == earlier + [shot];
        }
      }
    }
  }

  /** Entries at different positions never share a name. */
  lemma ShotNamesDistinct(r: seq<Shot>)
    requires forall k, l :: 0 <= k < l < |r| ==> r[k].position < r[l].position
    ensures forall k, l :: 0 <= k < l < |r| ==> r[k].Name() != r[l].Name()
  {
    forall k, l | 0 <= k < l < |r|
      ensures r[k].Name() != r[l].Name()
    {
      if r[k].Name() == r[l].Name() {
        EntryNameInjective(r[k].position, r[k].file.format, r[l].position, r[l].file.format);
      }
    }
  }

  // ---------------------------------------------------------------------
  // Order

  /** The key the archive sorts by as written: the pathname, or the URL
      text when it does not parse. */
  function PathnameKey(parse: Parser): PageRecord -> string {
    (page: PageRecord) => match parse(page.url)
      case Some(u) => u.pathname
      case None => page.url
  }

  /** The archive's order as written. */
  function ZipOrderAsWritten(parse: Parser, pages: seq<PageRecord>): seq<PageRecord> {
    SortBy(pages, PathnameKey(parse))
  }

  /** The archive's order as intended: the order of the report's rows. */
  function ZipOrder(parse: Parser, pages: seq<PageRecord>): seq<PageRecord> {
    SortedPages(parse, pages)
  }

  /** The two keys differ only for a parsed URL whose pathname has no
      non-empty segment and is not `/` itself (such as `//`); without such a
      page the archive's order as written is the report's order. */
  lemma ZipOrderAsWrittenAgrees(parse: Parser, pages: seq<PageRecord>)
    requires forall p :: p in pages && parse(p.url).Some? && Segments(parse(p.url).value.pathname) == [] ==>
               parse(p.url).value.pathname == "/"
    ensures ZipOrderAsWritten(parse, pages) == ZipOrder(parse, pages)
  {
    forall p | p in pages
      ensures PathnameKey(parse)(p) == FullPathKey(parse)(p)
    {
    }
    SortByKeysAgree(pages, PathnameKey(parse), FullPathKey(parse));
  }

  /** A parser that reads the pathname `//` for one URL and `/` for every
      other. */
  function DoubleSlashParser(u: string): Option<UrlParts> {
    if u == "http://h//" then Some(UrlParts("h", "//")) else Some(UrlParts("h", "/"))
  }

  function PageAt(url: string): PageRecord {
    PageRecord(url, "", "", "", 0, Code(200), "", "", "", None, Some("Saved"))
  }

  lemma SlashesHaveNoSegments()
    ensures Segments("/") == [] && Segments("//") == []
  {
    assert Split("/", '/') == ["", ""] by {
      assert "/"[1..] == "";
    }
    assert Split("//", '/') == ["", "", ""] by {
      assert "//"[1..] == "/";
    }
  }

  lemma SlashOrder()
    ensures LexLe("/", "/") && LexLe("/", "//") && !LexLe("//", "/")
  {
    assert "/"[1..] == "" && "//"[1..] == "/";
  }

  /** Pages at `http://h//` and `http://h/` both have the full path `/`,
      so the report keeps them in the given order, but the archive as
      written puts `/` before `//`: the first screenshot of the archive
      shows the page of the report's second row. */
  lemma ZipOrderAsWrittenDiffers()
    ensures var pages := [PageAt("http://h//"), PageAt("http://h/")];
      && SortedPages(DoubleSlashParser, pages) == pages
      && ZipOrderAsWritten(DoubleSlashParser, pages) == [PageAt("http://h/"), PageAt("http://h//")]
      && ZipOrderAsWritten(DoubleSlashParser, pages)[0] != SortedPages(DoubleSlashParser, pages)[0]
  {
    ReportKeepsSlashOrder(PageAt("http://h//"), PageAt("http://h/"));
    ArchiveSwapsSlashOrder(PageAt("http://h//"), PageAt("http://h/"));
  }

  /** Both pages have the full path `/`, so the report keeps their order. */
  lemma ReportKeepsSlashOrder(a: PageRecord, c: PageRecord)
    requires a == PageAt("http://h//") && c == PageAt("http://h/")
    ensures SortedPages(DoubleSlashParser, [a, c]) == [a, c]
  {
    SlashesHaveNoSegments();
    SlashOrder();
    var full := FullPathKey(DoubleSlashParser);
    assert full(a) == "/" && full(c) == "/";
    assert [a, c][1..] == [c];
    assert SortBy([c], full) == [c];
    assert SortBy([a, c], full) == Insert(a, [c], full);
  }

  /** The pathnames are `//` and `/`, so the archive swaps the pages. */
  lemma ArchiveSwapsSlashOrder(a: PageRecord, c: PageRecord)
    requires a == PageAt("http://h//") && c == PageAt("http://h/")
    ensures ZipOrderAsWritten(DoubleSlashParser, [a, c]) == [c, a]
  {
    SlashOrder();
    var path := PathnameKey(DoubleSlashParser);
    assert path(a) == "//" && path(c) == "/";
    assert [a, c][1..] == [c];
    assert SortBy([c], path) == [c];
    assert SortBy([a, c], path) == Insert(a, [c], path);
    assert Insert(a, [c], path) == [c] + Insert(a, [], path);
  }

  // ---------------------------------------------------------------------
  // README

  /** One line of the README's screenshot list. */
  datatype ListingLine = ListingLine(number: nat, fileName: string, url: string)

  /** The screenshot section of the README. */
  datatype ScreenshotSection =
    | NoneCaptured
    | Captured(count: nat, format: string, viewport: string, listing: seq<ListingLine>)

  datatype Readme = Readme(
    timestamp: string,
    targetUrl: string,
    domain: string,
    excelName: string,
    screens: ScreenshotSection,
    totalPages: nat,
    screenshots: nat)

  /** The format the README names for a page: that of its first file, or
      `'png'` when there is none or it is empty. */
  function ListingFormat(files: seq<ScreenshotFile>, url: string): string {
    match FindFile(files, url)
    case Some(f) => OrString(Some(f.format), "png")
    case None => "png"
  }

  /** The line for the page at position `i`: its row number, the padded
      number with the format, and the page's URL. */
  function LineFor(files: seq<ScreenshotFile>, i: nat, page: PageRecord): ListingLine {
    ListingLine(i + 1, Pad3(i + 1) + "." + ListingFormat(files, page.url), page.url)
  }

  /** The lines for the first `n` sorted pages: one per page marked
      `'Saved'`, whether or not a file was found for it. */
  function Listing(sorted: seq<PageRecord>, files: seq<ScreenshotFile>, n: nat): (r: seq<ListingLine>)
    requires n <= |sorted|
    ensures |r| <= n
    decreases n
  {
    if n == 0 then []
    else if Saved(sorted[n - 1]) then Listing(sorted, files, n - 1) + [LineFor(files, n - 1, sorted[n - 1])]
    else Listing(sorted, files, n - 1)
  }

  /** Every line of `r` is that of a page marked `'Saved'` among the first
      `n`, under the page's row number, and the numbers increase. */
  predicate ListingSoundFor(sorted: seq<PageRecord>, files: seq<ScreenshotFile>, n: nat, r: seq<ListingLine>)
    requires n <= |sorted|
  {
    && (forall k :: 0 <= k < |r| ==>
          && 1 <= r[k].number <= n
          && Saved(sorted[r[k].number - 1])
          && r[k] == LineFor(files, r[k].number - 1, sorted[r[k].number - 1]))
    && (forall k, l :: 0 <= k < l < |r| ==> r[k].number < r[l].number)
  }

  /** Every line is that of a page marked `'Saved'`, under the page's row
      number, and the numbers increase. */
  lemma {:induction false} ListingSound(sorted: seq<PageRecord>, files: seq<ScreenshotFile>, n: nat)
    requires n <= |sorted|
    ensures ListingSoundFor(sorted, files, n, Listing(sorted, files, n))
    decreases n
  {
    if n > 0 {
      ListingSound(sorted, files, n - 1);
      var earlier := Listing(sorted, files, n - 1);
      if Saved(sorted[n - 1]) {
        ListingSoundSnoc(sorted, files, n, earlier, LineFor(files, n - 1, sorted[n - 1]));
      } else {
        ListingSoundWiden(sorted, files, n, earlier);
      }
    }
  }

  /** A sound listing of the first `n - 1` pages stays sound for `n`. */
  lemma ListingSoundWiden(sorted: seq<PageRecord>, files: seq<ScreenshotFile>, n: nat, r: seq<ListingLine>)
    requires 0 < n <= |sorted|
    requires ListingSoundFor(sorted, files, n - 1, r)
    ensures ListingSoundFor(sorted, files, n, r)
  {
  }

  /** Appending the line of a saved page `n - 1` to a sound listing of the
      first `n - 1` pages gives a sound listing of the first `n`. */
  lemma ListingSoundSnoc(sorted: seq<PageRecord>, files: seq<ScreenshotFile>, n: nat,
                         earlier: seq<ListingLine>, line: ListingLine)
    requires 0 < n <= |sorted|
    requires ListingSoundFor(sorted, files, n - 1, earlier)
    requires Saved(sorted[n - 1]) && line == LineFor(files, n - 1, sorted[n - 1])
    ensures ListingSoundFor(sorted, files, n, earlier + [line])
  {
    var r := earlier + [line];
    assert line.number - 1 == n - 1;
    forall k | 0 <= k < |r|
      ensures && 1 <= r[k].number <= n
              && Saved(sorted[r[k].number - 1])
              && r[k] == LineFor(files, r[k].number - 1, sorted[r[k].number - 1])
    {
      if k == |earlier| {
        assert r[k] == line;
      } else {
        assert r[k] == earlier[k];
      }
    }
    forall k, l | 0 <= k < l < |r|
      ensures r[k].number < r[l].number
    {
      assert r[k] == earlier[k];
      if l < |earlier| {
        assert r[l] == earlier[l];
      } else {
        assert r[l] == line;
      }
    }
  }

  /** Every page marked `'Saved'` among the first `n` has its line. */
  lemma {:induction false} ListingComplete(sorted: seq<PageRecord>, files: seq<ScreenshotFile>, n: nat)
    requires n <= |sorted|
    ensures forall i :: 0 <= i < n && Saved(sorted[i]) ==> LineFor(files, i, sorted[i]) in Listing(sorted, files, n)
    decreases n
  {
    if n > 0 {
      ListingComplete(sorted, files, n - 1);
      var earlier := Listing(sorted, files, n - 1);
      var r := Listing(sorted, files, n);
      forall i | 0 <= i < n && Saved(sorted[i])
        ensures LineFor(files, i, sorted[i]) in r
      {
        if i < n - 1 {
          assert LineFor(files, i, sorted[i]) in earlier;
        } else {
          assert r[|earlier|] == LineFor(files, i, sorted[i]);
        }
      }
    }
  }

  /** `generateReadmeContent(pages, files, baseUrl)` for the host `domain`
      of `baseUrl`, with the listing sorted by `key`; `files` is `None` when
      no list was given. */
  function ReadmeBy(key: PageRecord -> string, pages: seq<PageRecord>, files: Option<seq<ScreenshotFile>>,
                    baseUrl: string, domain: string, timestamp: string, date: string): (r: Readme)
    ensures r.screens.Captured? ==> files.Some? && |files.value| > 0
  {
    var screens :=
      if files.Some? && |files.value| > 0 then
        var sorted := SortBy(pages, key);
        Captured(|files.value|, OrString(Some(files.value[0].format), "png"),
                 OrString(Some(files.value[0].viewport), "desktop"),
                 Listing(sorted, files.value, |sorted|))
      else NoneCaptured;
    Readme(timestamp, baseUrl, domain, ExcelFileName(domain, date), screens,
           |pages|, if files.Some? then |files.value| else 0)
  }

  /** `generateReadmeContent` as written: the listing sorts the pages again
      by pathname, so it lists every page marked `'Saved'` in pathname order
      under its position there, and nothing else. */
  function GenerateReadme(parse: Parser, pages: seq<PageRecord>, files: Option<seq<ScreenshotFile>>,
                          baseUrl: string, domain: string, timestamp: string, date: string): (r: Readme)
    ensures r.screens.Captured? ==>
      && files.Some?
      && ListingSoundFor(ZipOrderAsWritten(parse, pages), files.value, |pages|, r.screens.listing)
      && (forall i :: 0 <= i < |pages| && Saved(ZipOrderAsWritten(parse, pages)[i]) ==>
            LineFor(files.value, i, ZipOrderAsWritten(parse, pages)[i]) in r.screens.listing)
  {
    var sorted := ZipOrderAsWritten(parse, pages);
    ListingSound(sorted, files.GetOr([]), |sorted|);
    ListingComplete(sorted, files.GetOr([]), |sorted|);
    ReadmeBy(PathnameKey(parse), pages, files, baseUrl, domain, timestamp, date)
  }

  /** The README counts every page and every listed file (0 without a
      list), and says "None captured" exactly when the list is missing or
      empty. */
  lemma ReadmeCounts(parse: Parser, pages: seq<PageRecord>, files: Option<seq<ScreenshotFile>>,
                     baseUrl: string, domain: string, timestamp: string, date: string)
    ensures var r := GenerateReadme(parse, pages, files, baseUrl, domain, timestamp, date);
      && r.totalPages == |pages|
      && r.screenshots == (if files.Some? then |files.value| else 0)
      && (r.screens.NoneCaptured? <==> files.None? || files.value == [])
      && (r.screens.Captured? ==> r.screens.count == r.screenshots > 0 && r.screens.format != "")
      && r.excelName == ExcelFileName(domain, date)
  {
  }

  const Banner: string := "Sitemap Generator - Export Package\n=================================\n\n"

  function LineText(l: ListingLine): string {
    "   " + NatToString(l.number) + ". " + l.fileName + " - " + l.url + "\n"
  }

  function LinesText(ls: seq<ListingLine>): string
    decreases |ls|
  {
    if |ls| == 0 then "" else LinesText(ls[..|ls| - 1]) + LineText(ls[|ls| - 1])
  }

  function SectionText(s: ScreenshotSection): string {
    match s
    case NoneCaptured =>
      NoneCapturedText + "   - Screenshot capture was disabled or failed\n"
    case Captured(count, format, viewport, listing) =>
      CapturedHeading(count) + ("   - Located in 'screenshots/' folder\n" +
      "   - Format: " + format + "\n   - Viewport: " + viewport + "\n   \nScreenshot Files:\n" +
      LinesText(listing))
  }

  const NoneCapturedText: string := "2. Screenshots: None captured\n"

  function CapturedHeading(count: nat): string {
    "2. Screenshots (" + NatToString(count) + " files):\n"
  }

  function StatisticsText(totalPages: nat, screenshots: nat): string {
    "\nStatistics:\n==========\nTotal Pages: " + NatToString(totalPages) +
    "\nScreenshots: " + NatToString(screenshots) +
    "\n\nGenerated with Sitemap Generator\n"
  }

  function HeaderText(r: Readme): string {
    Banner + HeaderBody(r)
  }

  function HeaderBody(r: Readme): string {
    "Generated: " + r.timestamp + "\nTarget URL: " + r.targetUrl + "\nDomain: " + r.domain +
    "\n\nFiles Included:\n==============\n\n1. Excel File:\n   - " + r.excelName +
    "\n   - Contains complete sitemap data with page information\n\n"
  }

  lemma ConcatEnds(a: string, b: string, c: string)
    ensures StartsWith(a + b + c, a) && EndsWith(a + b + c, c)
    ensures (a + b + c)[|a|..] == b + c
  {
    assert (a + b + c)[..|a|] == a;
    assert (a + b + c)[|a| + |b|..] == c;
  }

  lemma PrefixOfConcat(a: string, b: string)
    ensures StartsWith(a + b, a)
  {
    assert (a + b)[..|a|] == a;
  }

  lemma PrefixOfPrefix(a: string, x: string, y: string)
    requires StartsWith(x, a)
    ensures StartsWith(x + y, a)
  {
    assert (x + y)[..|a|] == x[..|a|];
  }

  /** The text of README.txt: it starts with the banner and ends with the
      two counts. */
  function RenderReadme(r: Readme): (text: string)
    ensures StartsWith(text, Banner)
    ensures EndsWith(text, StatisticsText(r.totalPages, r.screenshots))
  {
    var h, sec, st := HeaderText(r), SectionText(r.screens), StatisticsText(r.totalPages, r.screenshots);
    PrefixOfConcat(Banner, HeaderBody(r));
    PrefixOfPrefix(Banner, h, sec);
    PrefixOfPrefix(Banner, h + sec, st);
    ConcatEnds(h, sec, st);
    h + sec + st
  }

  /** Right after the file section the text reads "None captured" when
      there are no screenshots, and otherwise gives their number. */
  lemma RenderReadmeSection(r: Readme)
    ensures |HeaderText(r)| <= |RenderReadme(r)|
    ensures r.screens.NoneCaptured? ==> StartsWith(RenderReadme(r)[|HeaderText(r)|..], NoneCapturedText)
    ensures r.screens.Captured? ==>
              StartsWith(RenderReadme(r)[|HeaderText(r)|..], CapturedHeading(r.screens.count))
  {
    var h, sec, st := HeaderText(r), SectionText(r.screens), StatisticsText(r.totalPages, r.screenshots);
    ConcatEnds(h, sec, st);
    SectionHead(r.screens);
    if r.screens.NoneCaptured? {
      PrefixOfPrefix(NoneCapturedText, sec, st);
    } else {
      PrefixOfPrefix(CapturedHeading(r.screens.count), sec, st);
    }
  }

  lemma SectionHead(s: ScreenshotSection)
    ensures s.NoneCaptured? ==> StartsWith(SectionText(s), NoneCapturedText)
    ensures s.Captured? ==> StartsWith(SectionText(s), CapturedHeading(s.count))
  {
    match s
    case NoneCaptured =>
      PrefixOfConcat(NoneCapturedText, "   - Screenshot capture was disabled or failed\n");
    case Captured(count, format, viewport, listing) =>
      PrefixOfConcat(CapturedHeading(count), SectionText(s)[|CapturedHeading(count)|..]);
  }

  /** A line of the screenshot list names the number, the file and the URL. */
  lemma LineTextSpec(l: ListingLine)
    ensures StartsWith(LineText(l), "   " + NatToString(l.number) + ". " + l.fileName)
    ensures EndsWith(LineText(l), " - " + l.url + "\n")
  {
    var p := "   " + NatToString(l.number) + ". " + l.fileName;
    var q := " - " + l.url + "\n";
    assert LineText(l) == p + q;
    PrefixOfConcat(p, q);
    assert (p + q)[|p|..] == q;
  }

  // ---------------------------------------------------------------------
  // The archive

  /** The archive: the Excel entry first, then the screenshots, then
      README.txt. */
  datatype Archive = Archive(excelName: string, shots: seq<Shot>, readme: Readme)

  /** `screenshotFiles && screenshotFiles.length > 0 && screenshotDir &&
      fs.existsSync(screenshotDir)`. */
  predicate ScreenshotBranch(files: Option<seq<ScreenshotFile>>, dir: Option<string>, onDisk: string -> bool) {
    files.Some? && |files.value| > 0 && !FalsyString(dir) && onDisk(dir.value)
  }

  /** `createZipFile(excelBuffer, pages, files, dir, baseUrl)` with the
      pages sorted by `key`: `None` when `baseUrl` does not parse and the
      promise is rejected. The Excel entry is named with `date` and the
      README, which reads the clock again, with `readmeDate`. */
  function ArchiveBy(parse: Parser, key: PageRecord -> string, pages: seq<PageRecord>,
                     files: Option<seq<ScreenshotFile>>, dir: Option<string>, onDisk: string -> bool,
                     baseUrl: string, timestamp: string, date: string, readmeDate: string): (a: Option<Archive>)
    ensures a.Some? <==> parse(baseUrl).Some?
  {
    match parse(baseUrl)
    case None => None
    case Some(u) =>
      var excelName := ExcelFileName(u.hostname, date);
      if ScreenshotBranch(files, dir, onDisk) then
        var sorted := SortBy(pages, key);
        Some(Archive(excelName, ScreenshotEntries(sorted, files.value, onDisk, |sorted|),
                     ReadmeBy(key, sorted, files, baseUrl, u.hostname, timestamp, readmeDate)))
      else
        Some(Archive(excelName, [], ReadmeBy(key, pages, Some([]), baseUrl, u.hostname, timestamp, readmeDate)))
  }

  /** `createZipFile` as written: the pages are sorted by pathname. An
      archive is made exactly when the base URL parses, and its Excel entry
      is named after the host without one leading `www.` and the date. */
  function CreateZip(parse: Parser, pages: seq<PageRecord>, files: Option<seq<ScreenshotFile>>,
                     dir: Option<string>, onDisk: string -> bool, baseUrl: string,
                     timestamp: string, date: string, readmeDate: string): (a: Option<Archive>)
    ensures a.Some? <==> parse(baseUrl).Some?
    ensures a.Some? ==> a.value.excelName == ExcelFileName(parse(baseUrl).value.hostname, date)
  {
    ArchiveBy(parse, PathnameKey(parse), pages, files, dir, onDisk, baseUrl, timestamp, date, readmeDate)
  }

  /** `createZipFile` with the pages in the report's row order. */
  function CreateZipCorrected(parse: Parser, pages: seq<PageRecord>, files: Option<seq<ScreenshotFile>>,
                              dir: Option<string>, onDisk: string -> bool, baseUrl: string,
                              timestamp: string, date: string, readmeDate: string): (a: Option<Archive>)
    ensures a.Some? <==> parse(baseUrl).Some?
    ensures a.Some? ==> a.value.excelName == ExcelFileName(parse(baseUrl).value.hostname, date)
  {
    ArchiveBy(parse, FullPathKey(parse), pages, files, dir, onDisk, baseUrl, timestamp, date, readmeDate)
  }

  /** The README names the Excel entry exactly when both clock reads give
      the same date; it counts every page. Without the screenshot branch the
      archive holds only the Excel file and a README reading "None
      captured" with no screenshots counted. */
  lemma CreateZipShape(parse: Parser, pages: seq<PageRecord>, files: Option<seq<ScreenshotFile>>,
                       dir: Option<string>, onDisk: string -> bool, baseUrl: string,
                       timestamp: string, date: string, readmeDate: string)
    requires parse(baseUrl).Some?
    ensures var a := CreateZip(parse, pages, files, dir, onDisk, baseUrl, timestamp, date, readmeDate).value;
      && a.readme.excelName == ExcelFileName(parse(baseUrl).value.hostname, readmeDate)
      && (a.readme.excelName == a.excelName <==> date == readmeDate)
      && a.readme.totalPages == |pages|
      && (a.shots != [] ==> ScreenshotBranch(files, dir, onDisk))
      && (!ScreenshotBranch(files, dir, onDisk) ==>
            a.shots == [] && a.readme.screens == NoneCaptured && a.readme.screenshots == 0)
  {
    ExcelFileNameInjective(parse(baseUrl).value.hostname, date, readmeDate);
  }

  /** In the screenshot branch the archive takes the entries of the loop
      over all pages in pathname order, and its README is that of the sorted
      pages, counting every listed file. */
  lemma CreateZipBranch(parse: Parser, pages: seq<PageRecord>, files: Option<seq<ScreenshotFile>>,
                        dir: Option<string>, onDisk: string -> bool, baseUrl: string,
                        timestamp: string, date: string, readmeDate: string)
    requires parse(baseUrl).Some? && ScreenshotBranch(files, dir, onDisk)
    ensures var a := CreateZip(parse, pages, files, dir, onDisk, baseUrl, timestamp, date, readmeDate).value;
      var sorted := ZipOrderAsWritten(parse, pages);
      && |sorted| == |pages|
      && a.shots == ScreenshotEntries(sorted, files.value, onDisk, |pages|)
      && a.readme == GenerateReadme(parse, sorted, files, baseUrl, parse(baseUrl).value.hostname, timestamp, readmeDate)
      && a.readme.screenshots == |files.value|
      && a.readme.screens.Captured?
  {
  }

  /** The entries of the screenshot branch for any sort key: one per page
      in that order that is marked `'Saved'` and whose first listed file
      exists, named after the page's position, and no name used twice. */
  lemma ArchiveShots(parse: Parser, key: PageRecord -> string, pages: seq<PageRecord>,
                     files: Option<seq<ScreenshotFile>>, dir: Option<string>, onDisk: string -> bool,
                     baseUrl: string, timestamp: string, date: string, readmeDate: string)
    requires parse(baseUrl).Some? && ScreenshotBranch(files, dir, onDisk)
    ensures var a := ArchiveBy(parse, key, pages, files, dir, onDisk, baseUrl, timestamp, date, readmeDate).value;
      var sorted := SortBy(pages, key);
      && |sorted| == |pages|
      && a.shots == ScreenshotEntries(sorted, files.value, onDisk, |pages|)
      && (forall k :: 0 <= k < |a.shots| ==> ShotOf(sorted, files.value, onDisk, |pages|, a.shots[k]))
      && (forall i :: HasShot(sorted, files.value, onDisk, |pages|, i) ==>
            Shot(i, CaptureOf(sorted, files.value, onDisk, i).value) in a.shots)
      && (forall k, l :: 0 <= k < l < |a.shots| ==> a.shots[k].Name() != a.shots[l].Name())
  {
    var sorted := SortBy(pages, key);
    var shots := ScreenshotEntries(sorted, files.value, onDisk, |pages|);
    ArchiveShotList(parse, key, pages, files, dir, onDisk, baseUrl, timestamp, date, readmeDate);
    ScreenshotEntriesSound(sorted, files.value, onDisk, |pages|);
    ScreenshotEntriesComplete(sorted, files.value, onDisk, |pages|);
    ShotNamesDistinct(shots);
  }

  /** The entries of the screenshot branch are those of the loop over all
      the sorted pages. */
  lemma ArchiveShotList(parse: Parser, key: PageRecord -> string, pages: seq<PageRecord>,
                        files: Option<seq<ScreenshotFile>>, dir: Option<string>, onDisk: string -> bool,
                        baseUrl: string, timestamp: string, date: string, readmeDate: string)
    requires parse(baseUrl).Some? && ScreenshotBranch(files, dir, onDisk)
    ensures |SortBy(pages, key)| == |pages|
    ensures ArchiveBy(parse, key, pages, files, dir, onDisk, baseUrl, timestamp, date, readmeDate).value.shots ==
      ScreenshotEntries(SortBy(pages, key), files.value, onDisk, |pages|)
  {
  }

  /** In the screenshot branch there is one entry per page, in pathname
      order, that is marked `'Saved'` and whose first listed file exists,
      named after the page's position in that order, and no name is used
      twice; the README counts every listed file. */
  lemma CreateZipShots(parse: Parser, pages: seq<PageRecord>, files: Option<seq<ScreenshotFile>>,
                       dir: Option<string>, onDisk: string -> bool, baseUrl: string,
                       timestamp: string, date: string, readmeDate: string)
    requires parse(baseUrl).Some? && ScreenshotBranch(files, dir, onDisk)
    ensures var a := CreateZip(parse, pages, files, dir, onDisk, baseUrl, timestamp, date, readmeDate).value;
      var sorted := ZipOrderAsWritten(parse, pages);
      && |sorted| == |pages|
      && a.readme.screenshots == |files.value|
      && (forall k :: 0 <= k < |a.shots| ==> ShotOf(sorted, files.value, onDisk, |pages|, a.shots[k]))
      && (forall i :: HasShot(sorted, files.value, onDisk, |pages|, i) ==>
            Shot(i, CaptureOf(sorted, files.value, onDisk, i).value) in a.shots)
      && (forall k, l :: 0 <= k < l < |a.shots| ==> a.shots[k].Name() != a.shots[l].Name())
  {
    ArchiveShots(parse, PathnameKey(parse), pages, files, dir, onDisk, baseUrl, timestamp, date, readmeDate);
  }

  /** The README of the screenshot branch sorts the sorted pages again by
      the same key, which changes nothing: the entry of every captured page
      with a non-empty format appears in the listing under the number and
      the file name of its entry. */
  lemma ArchiveListsEntries(parse: Parser, key: PageRecord -> string, pages: seq<PageRecord>,
                            files: Option<seq<ScreenshotFile>>, dir: Option<string>, onDisk: string -> bool,
                            baseUrl: string, timestamp: string, date: string, readmeDate: string, i: nat)
    requires parse(baseUrl).Some? && ScreenshotBranch(files, dir, onDisk)
    requires i < |pages|
    requires var c := CaptureOf(SortBy(pages, key), files.value, onDisk, i); c.Some? && c.value.format != ""
    ensures var a := ArchiveBy(parse, key, pages, files, dir, onDisk, baseUrl, timestamp, date, readmeDate).value;
      var c := CaptureOf(SortBy(pages, key), files.value, onDisk, i).value;
      && a.readme.screens.Captured?
      && Shot(i, c) in a.shots
      && ListingLine(i + 1, Pad3(i + 1) + "." + c.format, c.url) in a.readme.screens.listing
      && Shot(i, c).Name() == "screenshots/" + Pad3(i + 1) + "." + c.format
  {
    var sorted := SortBy(pages, key);
    ArchiveShotList(parse, key, pages, files, dir, onDisk, baseUrl, timestamp, date, readmeDate);
    ArchiveReadmeListing(parse, key, pages, files, dir, onDisk, baseUrl, timestamp, date, readmeDate);
    CapturedIsListed(sorted, files.value, onDisk, i);
  }

  /** A captured page with a non-empty format has its entry, and its
      listing line names the entry's number and file. */
  lemma CapturedIsListed(sorted: seq<PageRecord>, files: seq<ScreenshotFile>, onDisk: string -> bool, i: nat)
    requires i < |sorted|
    requires var c := CaptureOf(sorted, files, onDisk, i); c.Some? && c.value.format != ""
    ensures var c := CaptureOf(sorted, files, onDisk, i).value;
      && Shot(i, c) in ScreenshotEntries(sorted, files, onDisk, |sorted|)
      && ListingLine(i + 1, Pad3(i + 1) + "." + c.format, c.url) in Listing(sorted, files, |sorted|)
  {
    var c := CaptureOf(sorted, files, onDisk, i).value;
    assert HasShot(sorted, files, onDisk, |sorted|, i);
    ScreenshotEntriesComplete(sorted, files, onDisk, |sorted|);
    ListingComplete(sorted, files, |sorted|);
    assert ListingFormat(files, sorted[i].url) == c.format;
    assert LineFor(files, i, sorted[i]) == ListingLine(i + 1, Pad3(i + 1) + "." + c.format, c.url);
  }

  /** The README of the screenshot branch lists the pages in the order of
      the entries. */
  lemma ArchiveReadmeListing(parse: Parser, key: PageRecord -> string, pages: seq<PageRecord>,
                             files: Option<seq<ScreenshotFile>>, dir: Option<string>, onDisk: string -> bool,
                             baseUrl: string, timestamp: string, date: string, readmeDate: string)
    requires parse(baseUrl).Some? && ScreenshotBranch(files, dir, onDisk)
    ensures var a := ArchiveBy(parse, key, pages, files, dir, onDisk, baseUrl, timestamp, date, readmeDate).value;
      && a.readme.screens.Captured?
      && a.readme.screens.listing == Listing(SortBy(pages, key), files.value, |pages|)
  {
    SortByIdempotent(pages, key);
  }

  /** The README lists each captured page under the same number and file
      name as its entry in the archive. */
  lemma ReadmeListsEntries(parse: Parser, pages: seq<PageRecord>, files: Option<seq<ScreenshotFile>>,
                           dir: Option<string>, onDisk: string -> bool, baseUrl: string,
                           timestamp: string, date: string, readmeDate: string, i: nat)
    requires parse(baseUrl).Some? && ScreenshotBranch(files, dir, onDisk)
    requires i < |pages|
    requires var c := CaptureOf(ZipOrderAsWritten(parse, pages), files.value, onDisk, i); c.Some? && c.value.format != ""
    ensures var a := CreateZip(parse, pages, files, dir, onDisk, baseUrl, timestamp, date, readmeDate).value;
      var c := CaptureOf(ZipOrderAsWritten(parse, pages), files.value, onDisk, i).value;
      && a.readme.screens.Captured?
      && Shot(i, c) in a.shots
      && ListingLine(i + 1, Pad3(i + 1) + "." + c.format, c.url) in a.readme.screens.listing
      && Shot(i, c).Name() == "screenshots/" + Pad3(i + 1) + "." + c.format
  {
    ArchiveListsEntries(parse, PathnameKey(parse), pages, files, dir, onDisk, baseUrl, timestamp, date, readmeDate, i);
  }

  /** With the pages in the report's row order, every screenshot entry is
      named after the number of the report row that shows its page: the
      entry's page is marked `'Saved'`, has the entry's URL, and is the page
      of that row. */
  lemma ZipNumberingMatchesExcel(parse: Parser, pages: seq<PageRecord>, files: Option<seq<ScreenshotFile>>,
                                 dir: Option<string>, onDisk: string -> bool, baseUrl: string,
                                 timestamp: string, date: string, readmeDate: string, k: nat)
    requires parse(baseUrl).Some? && ScreenshotBranch(files, dir, onDisk)
    requires k < |CreateZipCorrected(parse, pages, files, dir, onDisk, baseUrl, timestamp, date, readmeDate).value.shots|
    ensures var shot := CreateZipCorrected(parse, pages, files, dir, onDisk, baseUrl, timestamp, date, readmeDate).value.shots[k];
      && shot.position < |pages| == |SitemapRows(parse, pages)| == |SortedPages(parse, pages)|
      && var page := SortedPages(parse, pages)[shot.position];
         var row := SitemapRows(parse, pages)[shot.position];
         && Saved(page) && shot.file.url == page.url
         && row.levels == ParseUrlPath(parse, shot.file.url) && row.title == page.title
         && shot.Name() == "screenshots/" + Pad3(row.no) + "." + shot.file.format
  {
    var shot := CreateZipCorrected(parse, pages, files, dir, onDisk, baseUrl, timestamp, date, readmeDate).value.shots[k];
    ArchiveShots(parse, FullPathKey(parse), pages, files, dir, onDisk, baseUrl, timestamp, date, readmeDate);
    assert ShotOf(SortedPages(parse, pages), files.value, onDisk, |pages|, shot);
    SitemapRowsSpec(parse, pages, shot.position);
  }
}
