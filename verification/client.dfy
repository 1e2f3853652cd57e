/** The pure helpers of the browser page: the form's option defaults, the
    URL check run before a generation starts, the name given to the
    downloaded archive, the phase label of the progress view and the
    shortening of the URL it shows.

    The DOM, `fetch`, the event stream and the clock are not modelled: the
    current time is passed in, and `parseInt` is replaced by its result
    (`None` for `NaN`). */
module ClientScript {
  import opened Js
  import opened Text
  import opened Url
  import ZipPackage

  // ---------------------------------------------------------------------
  // Shortened URL

  /** The longest URL shown whole. */
  const ShownLength: nat := 50

  /** `shortenUrl(url)`. */
  function ShortenUrl(url: string): (r: string)
    ensures |url| <= ShownLength ==> r == url
    ensures |url| > ShownLength ==> |r| == ShownLength && r[..47] == url[..47] && EndsWith(r, "...")
  {
    if |url| > ShownLength then url[..47] + "..." else url
  }

  /** A shortened URL is never longer than 50, is shortened no further,
      and is the URL itself exactly when the URL fits. */
  lemma ShortenUrlSettles(url: string)
    ensures |ShortenUrl(url)| <= ShownLength
    ensures ShortenUrl(ShortenUrl(url)) == ShortenUrl(url)
    ensures ShortenUrl(url) == url <==> |url| <= ShownLength
  {
  }

  /** Two URLs that agree on their first 47 characters and are both too
      long are shown alike. */
  lemma ShortenUrlForgetsTail(u: string, v: string)
    requires |u| > ShownLength && |v| > ShownLength && u[..47] == v[..47]
    ensures ShortenUrl(u) == ShortenUrl(v)
  {
  }

  // ---------------------------------------------------------------------
  // URL check

  /** `validateUrl(url)`: the URL parses and names the `http` or `https`
      scheme; a missing field fails to parse. */
  function ValidateUrl(parse: Parser, url: Option<string>): (r: bool)
    ensures r ==> url.Some? && parse(url.value).Some?
    ensures r ==> StartsWith(url.value, "http://") || StartsWith(url.value, "https://")
  {
    match url
    case None => false
    case Some(u) => parse(u).Some? && (StartsWith(u, "http://") || StartsWith(u, "https://"))
  }

  /** The scheme test decides among URLs the parser accepts: any parsed
      `http://` or `https://` URL passes, and no other URL does, whatever
      the parser. */
  lemma ValidateUrlSchemes(parse: Parser, rest: string, u: string)
    ensures parse("http://" + rest).Some? ==> ValidateUrl(parse, Some("http://" + rest))
    ensures parse("https://" + rest).Some? ==> ValidateUrl(parse, Some("https://" + rest))
    ensures |u| >= 4 && u[..4] != "http" ==> !ValidateUrl(parse, Some(u))
  {
    assert ("http://" + rest)[..7] == "http://";
    assert ("https://" + rest)[..8] == "https://";
    WebSchemesStartWithHttp(u);
  }

  /** Both accepted scheme prefixes begin with `http`. */
  lemma WebSchemesStartWithHttp(u: string)
    ensures StartsWith(u, "http://") || StartsWith(u, "https://") ==> |u| >= 7 && u[..4] == "http"
  {
    if StartsWith(u, "http://") {
      assert u[..4] == u[..7][..4];
    } else if StartsWith(u, "https://") {
      assert u[..4] == u[..8][..4];
    }
  }

  // ---------------------------------------------------------------------
  // Download name

  /** `toISOString().slice(0, 10)`: the first ten characters, or all of a
      shorter string. */
  function DayOf(iso: string): (r: string)
    ensures |r| == if |iso| < 10 then |iso| else 10
    ensures r <= iso
  {
    if |iso| < 10 then iso else iso[..10]
  }

  /** `generateFileName(url)` at the instant whose ISO form is `isoNow` and
      whose millisecond count is `nowMillis`. */
  function GenerateFileName(parse: Parser, url: string, isoNow: string, nowMillis: nat): (r: string)
    ensures StartsWith(r, "sitemap_") && EndsWith(r, ".zip")
  {
    match parse(url)
    case Some(p) => "sitemap_" + StripWww(p.hostname) + "_" + DayOf(isoNow) + ".zip"
    case None => "sitemap_" + NatToString(nowMillis) + ".zip"
  }

  /** The download name and the name the workbook would get for the same
      host and day share their stem `sitemap_<host>_<day>`; an unparsable
      URL gives the time in milliseconds instead. */
  lemma DownloadNameMatchesWorkbook(parse: Parser, url: string, isoNow: string, nowMillis: nat)
    ensures parse(url).Some? ==>
      var stem := ZipPackage.ExcelFileName(parse(url).value.hostname, DayOf(isoNow));
      GenerateFileName(parse, url, isoNow, nowMillis) == stem[..|stem| - 5] + ".zip"
    ensures parse(url).None? ==>
      GenerateFileName(parse, url, isoNow, nowMillis) == "sitemap_" + NatToString(nowMillis) + ".zip"
  {
    if parse(url).Some? {
      var host := parse(url).value.hostname;
      var base := "sitemap_" + StripWww(host) + "_" + DayOf(isoNow);
      assert ZipPackage.ExcelFileName(host, DayOf(isoNow)) == base + ".xlsx";
      assert (base + ".xlsx")[..|base|] == base;
    }
  }

  /** Only one leading `www.` leaves the host in the download name. */
  lemma DownloadNameDropsWww(parse: Parser, url: string, host: string, isoNow: string, nowMillis: nat)
    requires parse(url).Some? && parse(url).value.hostname == WwwPrefix + host
    ensures GenerateFileName(parse, url, isoNow, nowMillis) == "sitemap_" + host + "_" + DayOf(isoNow) + ".zip"
  {
    StripWwwSpec(host);
  }

  // ---------------------------------------------------------------------
  // Phase label

  /** The label shown for a phase: its text and colour. */
  datatype PhaseInfo = PhaseInfo(text: string, color: string)

  /** The phases the page knows. */
  const Phases: map<string, PhaseInfo> := map[
    "connecting" := PhaseInfo("🔗 接続中", "#667eea"),
    "initializing" := PhaseInfo("⚙️ 初期化中", "#667eea"),
    "ssl-check" := PhaseInfo("🔒 SSL確認中", "#f39c12"),
    "starting-crawler" := PhaseInfo("🚀 クローラー開始", "#e67e22"),
    "crawling" := PhaseInfo("🕷️ クローリング中", "#27ae60"),
    "generating-excel" := PhaseInfo("📊 Excel生成中", "#9b59b6"),
    "creating-zip" := PhaseInfo("📦 ZIP作成中", "#8e44ad"),
    "completed" := PhaseInfo("✅ 完了", "#2ecc71")
  ]

  /** The label of any other phase. */
  const Processing := PhaseInfo("🔄 処理中", "#95a5a6")

  /** `phases[phase] || { text: '🔄 処理中', color: '#95a5a6' }`. */
  function PhaseLabel(phase: string): (r: PhaseInfo)
    ensures phase in Phases ==> r == Phases[phase]
    ensures phase !in Phases ==> r == Processing
  {
    if phase in Phases then Phases[phase] else Processing
  }

  /** The fallback is shown exactly for the phases the table lacks: no known
      phase has its colour. */
  lemma PhaseLabelFallback(phase: string)
    ensures PhaseLabel(phase) == Processing <==> phase !in Phases
    ensures PhaseLabel(phase).color == Processing.color <==> phase !in Phases
  {
  }

  // ---------------------------------------------------------------------
  // Form

  /** The submitted form: the URL field as read, the numeric fields as
      `parseInt` left them (`None` for `NaN`), the select fields as read
      (`None` when absent), and the check boxes' values. */
  datatype SubmittedForm = SubmittedForm(
    url: Option<string>,
    maxDepth: Option<int>,
    maxPages: Option<int>,
    maxConnections: Option<int>,
    timeoutSeconds: Option<int>,
    retries: Option<int>,
    delay: Option<int>,
    captureScreenshots: Option<string>,
    screenshotViewport: Option<string>,
    screenshotFormat: Option<string>,
    screenshotQuality: Option<int>,
    fullPageScreenshot: Option<string>)

  /** The options sent with a generation request; the timeout is in
      milliseconds. */
  datatype Options = Options(
    maxDepth: Option<int>,
    maxPages: Option<int>,
    maxConnections: int,
    timeout: int,
    retries: int,
    delay: int,
    captureScreenshots: bool,
    screenshotViewport: string,
    screenshotFormat: string,
    screenshotQuality: int,
    fullPageScreenshot: bool)

  /** `parseInt(seconds) * 1000 || 10000`: `NaN` stays `NaN`. */
  function TimeoutMillis(seconds: Option<int>): (r: int)
    ensures FalsyNumber(seconds) ==> r == 10000
    ensures !FalsyNumber(seconds) ==> r == seconds.value * 1000
  {
    match seconds
    case None => OrNumber(None, 10000)
    case Some(s) => OrNumber(Some(s * 1000), 10000)
  }

  /** A check box counts as ticked only when its value is `'on'`. */
  predicate Ticked(v: Option<string>) {
    v == Some("on")
  }

  /** The defaulting of `handleSubmit`. */
  function FormOptions(f: SubmittedForm): (r: Options)
    ensures r.maxDepth == f.maxDepth && r.maxPages == f.maxPages
    ensures r.maxConnections == (if FalsyNumber(f.maxConnections) then 5 else f.maxConnections.value)
    ensures r.timeout == (if FalsyNumber(f.timeoutSeconds) then 10000 else f.timeoutSeconds.value * 1000)
    ensures r.retries == (if FalsyNumber(f.retries) then 2 else f.retries.value)
    ensures r.delay == (if FalsyNumber(f.delay) then 500 else f.delay.value)
    ensures r.screenshotViewport == (if FalsyString(f.screenshotViewport) then "desktop" else f.screenshotViewport.value)
    ensures r.screenshotFormat == (if FalsyString(f.screenshotFormat) then "png" else f.screenshotFormat.value)
    ensures r.screenshotQuality == (if FalsyNumber(f.screenshotQuality) then 80 else f.screenshotQuality.value)
    ensures r.captureScreenshots <==> f.captureScreenshots == Some("on")
    ensures r.fullPageScreenshot <==> f.fullPageScreenshot == Some("on")
  {
    Options(
      f.maxDepth,
      f.maxPages,
      OrNumber(f.maxConnections, 5),
      TimeoutMillis(f.timeoutSeconds),
      OrNumber(f.retries, 2),
      OrNumber(f.delay, 500),
      Ticked(f.captureScreenshots),
      OrString(f.screenshotViewport, "desktop"),
      OrString(f.screenshotFormat, "png"),
      OrNumber(f.screenshotQuality, 80),
      Ticked(f.fullPageScreenshot))
  }

  /** The options of a form with every optional field left empty. */
  const DefaultOptions := Options(None, None, 5, 10000, 2, 500, false, "desktop", "png", 80, false)

  /** An empty form and a form of zeros both get the defaults; no option
      with a default is ever zero or empty, and the timeout is a whole
      number of seconds. */
  lemma FormOptionsDefaults(f: SubmittedForm)
    ensures (f.maxConnections == f.timeoutSeconds == f.retries == f.delay == f.screenshotQuality == Some(0)
             && f.maxDepth.None? && f.maxPages.None? && f.captureScreenshots.None? && f.fullPageScreenshot.None?
             && f.screenshotViewport == f.screenshotFormat == Some("")) ==> FormOptions(f) == DefaultOptions
    ensures var r := FormOptions(f);
      && r.maxConnections != 0 && r.timeout != 0 && r.retries != 0 && r.delay != 0 && r.screenshotQuality != 0
      && r.screenshotViewport != "" && r.screenshotFormat != ""
      && r.timeout % 1000 == 0
  {
  }

  /** Outcome of submitting the form. */
  datatype Submission =
    | Rejected(message: string)
    | Started(url: string, options: Options)

  /** `handleSubmit`: an invalid URL stops with an error; otherwise the
      generation starts with the defaulted options. */
  function HandleSubmit(parse: Parser, f: SubmittedForm): (r: Submission)
    ensures r.Started? <==> ValidateUrl(parse, f.url)
    ensures r.Started? ==> Some(r.url) == f.url && r.options == FormOptions(f)
    ensures r.Rejected? ==> r.message == "有効なURLを入力してください"
  {
    if !ValidateUrl(parse, f.url) then Rejected("有効なURLを入力してください")
    else Started(f.url.value, FormOptions(f))
  }

  /** Only an `http` or `https` URL the parser accepts starts a generation. */
  lemma SubmitNeedsWebUrl(parse: Parser, f: SubmittedForm)
    ensures HandleSubmit(parse, f).Started? ==>
      var u := HandleSubmit(parse, f).url;
      parse(u).Some? && |u| >= 7 && u[..4] == "http"
  {
    if HandleSubmit(parse, f).Started? {
      WebSchemesStartWithHttp(f.url.value);
    }
  }
}
