# Sitemap generator — a Dafny model of its core

The sitemap generator crawls one web site from a seed URL, records one
page record per fetched (or failed) page, and packages the result. The
result is an Excel report (a Sitemap sheet and a Summary sheet) inside a
ZIP archive, next to the screenshots taken during the crawl and a
README.txt. A browser page collects the options, checks the URL and shows
progress. This project models that core as pure Dafny functions over
immutable datatypes and proves what each part promises.

- `js.dfy` (module `Js`): `Option` for `undefined`/`null`/`NaN`, JavaScript
  falsiness and the `v || default` idiom.
- `text.dfy` (module `Text`): prefixes and suffixes, ASCII case folding,
  `trim`, `split`/`join`, decimal formatting, reading digits back, and
  `padStart`.
- `url.dfy` (module `Url`): the parts of a parsed URL the program reads
  (host name, pathname). It also holds the removal of one leading `www.`.
- `records.dfy` (module `Records`): the page record and the error-status test.
- `sorting.dfy` (module `Sorting`): the stable sort used for
  `Array.prototype.sort`, with lexicographic order standing for
  `localeCompare`.
- `scraper.dfy` (module `Scraper`): `SitemapGenerator` as a state machine.
  - It covers option defaults, the success and error records, link
    extraction and admission, the seeding, the drain and timeout
    completion, and the progress percentage.
  - Each completed request is an event.
- `crawl.dfy` (module `CrawlInvariants`): the crawl invariants, each kept by
  every event, and the properties they give every run from the seed.
- `excel.dfy` (module `ExcelReport`): `parseUrlPath`, the full-path sort, the
  rows of the Sitemap sheet with their numbers and fills, and the Summary
  counts.
- `zip.dfy` (module `ZipPackage`): `createZipFile` and
  `generateReadmeContent`. It models the Excel entry name, the screenshot
  entries renamed after their position in the archive's order, the
  README's content and its rendering as text. `CreateZip` sorts the pages by
  pathname as the program does; `CreateZipCorrected` uses the report's row
  order (see Findings).
- `client.dfy` (module `ClientScript`): the browser page's pure helpers.
  These are `shortenUrl`, `validateUrl`, `generateFileName`, the phase
  label and the option defaults of the form submission.

URL parsing (`new URL`), relative URL resolution, `parseInt`, the clock and
`fs.existsSync` are passed in as parameters: a `Parser`, a `Resolver`, parsed
numbers, date strings and an `onDisk` predicate.

## Model

| member | source | states |
|---|---|---|
| Js.OrNumber | src/scraper.js:12-17 | `v \|\| d` keeps a truthy number and gives the default for a missing, `NaN` or zero one; with a non-zero default the result is never zero |
| Js.OrString | src/excelGenerator.js:23-27 | `v \|\| d` keeps a non-empty string and gives the default for a missing or empty one |
| Text.AfterLastDotSuffix | src/scraper.js:153 | the text after the last dot is `ext` exactly when the string ends with `.` + `ext` (for a dot-free `ext`) |
| Text.TrimEmpty | src/scraper.js:85 | trimming gives the empty string exactly when every character is white space |
| Text.Split | src/excelGenerator.js:9 | splitting never loses text: the pieces are free of the separator and joined back they give the input |
| Text.SplitJoin | src/excelGenerator.js:9 | splitting the join of separator-free pieces gives the pieces back |
| Text.NonEmpty | src/excelGenerator.js:9 | the filter keeps every non-empty segment and only those |
| Text.NonEmptyAppend | src/excelGenerator.js:9 | filtering a concatenation filters each part and keeps their order, so the kept segments stay in order and as often as they occur |
| Text.DigitsValueOfNatToString | src/zipGenerator.js:68 | reading the decimal form of `n` gives `n` |
| Text.PadStart | src/zipGenerator.js:68 | `padStart` never shortens, keeps the string as its suffix and fills only with the pad character |
| Url.StripWwwSpec | src/zipGenerator.js:34 | exactly one leading `www.` is removed; a host without it is unchanged |
| Sorting.SortBy | src/excelGenerator.js:45-49 | the sort returns a permutation of its input (same multiset) that is ordered by the key |
| Sorting.SortBySorted | src/excelGenerator.js:45-49 | a list already in key order is left unchanged |
| Sorting.SortByStable | src/excelGenerator.js:45-49 | the elements that share a key keep their input order, as `Array.prototype.sort` does |
| Sorting.SortByKeysAgree | src/zipGenerator.js:46-58 | two keys that agree on every element give the same sorted list |
| Sorting.LexLeTotal | src/excelGenerator.js:48 | the comparison standing for `localeCompare` relates any two strings |
| Sorting.LexLeTransitive | src/excelGenerator.js:48 | the comparison is transitive |
| Sorting.LexLeAntisymmetric | src/excelGenerator.js:48 | two strings that compare both ways are equal |
| Scraper.Configure | src/scraper.js:12-17 | each setting is the option when truthy and otherwise its default (3, 100, 500, 5, 10000, 2), so no setting is ever 0 |
| Scraper.TitleSpec | src/scraper.js:85 | a title is never empty or padded; a blank title text gives `No Title`, any other title is the trimmed text |
| Scraper.SuccessRecordDefaults | src/scraper.js:85-99 | the record of a fetched page: trimmed title and heading, empty fields for missing headers, status 200 when the status code is missing or 0, never status 0, no error |
| Scraper.ErrorRecord | src/scraper.js:56-69 | the record of a failed request: its URL and depth, title and status `Error`, empty fields and the error message |
| Scraper.HasDeniedExtensionSpec | src/scraper.js:153 | the extension test holds exactly when the URL, case folded, ends with a dot and one of the twelve denied extensions |
| Scraper.ExtractLinks | src/scraper.js:139-162 | the extracted links hold no duplicates |
| Scraper.ExtractLinksMembers | src/scraper.js:142-161 | a URL is extracted exactly when some anchor's non-empty `href` resolves to it and it passes the admission test |
| Scraper.ExtractLinksPrefix | src/scraper.js:139-162 | the links found among the first k anchors come first, in the order they are found |
| Scraper.ExtractedLinksAdmissible | src/scraper.js:150-155 | every extracted link parses, is on the seed's host, is unvisited, has no `#` and no denied extension |
| Scraper.LinkBudget | src/scraper.js:118 | a page at depth d may queue 50 − 10·d links, never fewer than 10 |
| Scraper.Admit | src/scraper.js:120-136 | the loop queues at most the budget, each link once, only unvisited links from the list, and nothing once the record list is full |
| Scraper.AdmitGreedy | src/scraper.js:121-135 | under budget, every unvisited link of the list is queued |
| Scraper.AdmitTakesFirst | src/scraper.js:120-136 | the loop queues exactly the first unvisited links of the list, in list order, as many as the budget allows |
| Scraper.QueuedFrom | src/scraper.js:111-118 | a page queues at most its budget, and nothing at the depth limit or once the records reach `maxPages` |
| Scraper.QueuedFromTakesFirst | src/scraper.js:111-136 | within the limits a page queues the first unvisited links it yields, in document order, up to its budget |
| Scraper.OnFetched | src/scraper.js:77-114 | a fetched page appends its record after the earlier ones, consumes its request, adds at most its budget of requests after the earlier ones, and changes nothing else |
| Scraper.OnFailed | src/scraper.js:52-75 | a failed request consumes its request, queues nothing, and appends an error record with its URL and message exactly when the URL is known |
| Scraper.OnSettled | src/scraper.js:37-49 | the settle timer completes the crawl exactly when it was complete or no request is pending, delivers the records on completing, and changes nothing else |
| Scraper.OnTimedOut | src/scraper.js:262-268 | the timeout always leaves the crawl complete and delivers the records unless they were delivered already |
| Scraper.Step | src/scraper.js:37-137 | no event changes the configuration, the seed or the host; the request and record lists only grow; only a completed request advances the queue, and the timers change neither list |
| Scraper.Run | src/scraper.js:37-137 | a run keeps the configuration, the seed and the host, and only extends the request and record lists |
| Scraper.Start | src/scraper.js:255-259 | a start state exists exactly when the seed parses; the seed is then the only visited URL and the only request, at depth 0 |
| Scraper.ProgressBounds | src/scraper.js:102-103 | the percentage stays in [10, 90] and reaches 90 exactly when the page count reaches `maxPages` |
| Scraper.ProgressMonotone | src/scraper.js:102-103 | the percentage never decreases as pages are added |
| CrawlInvariants.UrlSetMembers | src/scraper.js:125-126 | a URL is visited exactly when a request was queued for it |
| CrawlInvariants.UrlSetAppend | src/scraper.js:125-132 | queueing links adds exactly those links to the visited set |
| CrawlInvariants.StartValid | src/scraper.js:255-259 | the seeded state satisfies the crawl invariant |
| CrawlInvariants.QueuedFromSpec | src/scraper.js:111-136 | a page queues at most its budget, each link once and admissible; it queues none at the depth limit or once the records reach `maxPages` |
| CrawlInvariants.StepValid | src/scraper.js:52-137 | every event keeps the invariant: the seed first, no URL queued twice, every request on the seed's host, depths within the limit, and delivered exactly when complete |
| CrawlInvariants.FetchedEffect | src/scraper.js:77-114 | a fetched page appends its record, consumes its request and queues at most its budget of admissible links one level deeper within the depth limit |
| CrawlInvariants.FailedEffect | src/scraper.js:52-75 | a failed request queues nothing and appends an error record exactly when its URL is known |
| CrawlInvariants.DeliveredOnce | src/scraper.js:262-268 | after completion every event keeps the crawl complete and the delivered records unchanged |
| CrawlInvariants.CompletionRules | src/scraper.js:37-49 | only the settle timer (with an empty queue) or the timeout completes a crawl, and it delivers the records collected so far |
| CrawlInvariants.RunValid | src/scraper.js:52-137 | every run of events from a valid state ends in a valid state with the same configuration and the same delivered result once delivered |
| CrawlInvariants.CrawlProperties | src/scraper.js:116-162 | for every run from the seed: the seed is the first request, no URL is queued twice, every record respects the depth limit and every other request is on the seed's host |
| ExcelReport.ParseUrlPathSpec | src/excelGenerator.js:3-33 | an unparsable URL has no levels and keeps the URL as full path; the root has level 1 `/`; otherwise level k is the k-th non-empty path segment or empty, with the pathname as full path |
| ExcelReport.ParseUrlPathOfSegments | src/excelGenerator.js:9-29 | a pathname built from one to five non-empty segments gives those segments back as its levels |
| ExcelReport.ParseUrlPath | src/excelGenerator.js:3-33 | level 1 is filled exactly when the URL parses; an unparsable URL keeps its text as full path, a parsed one has its pathname or `/` |
| ExcelReport.SortedPagesSpec | src/excelGenerator.js:45-49 | the sorted pages are the input pages, each as often as before, in full-path order, with pages of equal full path in input order; sorting again changes nothing |
| ExcelReport.DepthColourIndex | src/excelGenerator.js:117-118 | the depth colour is that of the depth, clamped to the last of the five colours |
| ExcelReport.SitemapRowsSpec | src/excelGenerator.js:75-124 | row i shows the i-th sorted page under number i + 1. It is filled red exactly for a status other than 200 and `'200'`. Each non-empty level cell gets its level's colour, and the depth cell gets the clamped depth colour |
| ExcelReport.SitemapRows | src/excelGenerator.js:151-168 | one row per page, numbered 1..n in row order, in full-path order |
| ExcelReport.RowNumbers | src/excelGenerator.js:151-168 | the row numbers in row order are exactly 1..n |
| ExcelReport.RowsHighlightErrors | src/excelGenerator.js:94-100 | a row is filled red exactly when its page has an error status |
| ExcelReport.ErrorPagesPermutation | src/excelGenerator.js:173 | the error count does not depend on the order of the pages |
| ExcelReport.HighlightedRowsCount | src/excelGenerator.js:94-100 | the number of red rows is the number of error pages |
| ExcelReport.MaxDepth | src/excelGenerator.js:174 | the maximum depth is a depth of some page and at least every page's depth; there is none for no pages |
| ExcelReport.SummaryCounts | src/excelGenerator.js:172-174 | the Summary counts every page once and counts as errors exactly the rows filled red, which are the input pages with an error status |
| ExcelReport.Summarize | src/excelGenerator.js:172-174 | the total is the number of pages, the error count is at most the total, and there is a maximum depth exactly when there are pages |
| ZipPackage.Pad3Digits | src/zipGenerator.js:68 | the padded number is all digits, exactly three below 1000 and the plain decimal form from 1000 on |
| ZipPackage.Pad3Value | src/zipGenerator.js:68 | reading the padded number back gives the number |
| ZipPackage.Pad3Injective | src/zipGenerator.js:68 | different numbers are padded differently |
| ZipPackage.EntryNameShape | src/zipGenerator.js:68-70 | an entry name is in the `screenshots/` folder and ends with `.` and the format |
| ZipPackage.EntryNameInjective | src/zipGenerator.js:68-70 | two entry names are equal only for the same row and the same format |
| ZipPackage.ExcelFileNameSpec | src/zipGenerator.js:34-36 | the Excel name is `sitemap_<host without one leading www.>_<date>.xlsx` |
| ZipPackage.ExcelFileNameInjective | src/zipGenerator.js:36 | for one host, two Excel names are equal exactly when their dates are |
| ZipPackage.FirstIndex | src/zipGenerator.js:65 | `find` gives the first file with the page's URL, and none exactly when no file has it |
| ZipPackage.CaptureOf | src/zipGenerator.js:63-66 | a page's screenshot is taken exactly when it is marked `Saved`, a file for its URL is listed and that first file exists |
| ZipPackage.ScreenshotEntries | src/zipGenerator.js:61-75 | the loop over the first n pages makes at most n entries, each at a position among those pages |
| ZipPackage.ScreenshotEntriesSound | src/zipGenerator.js:61-75 | every screenshot entry is that of a captured page with the file taken for it, and the entries follow the page order |
| ZipPackage.ScreenshotEntriesComplete | src/zipGenerator.js:61-75 | every captured page has its entry |
| ZipPackage.ShotNamesDistinct | src/zipGenerator.js:68-71 | entries of different pages never share a name |
| ZipPackage.ZipOrderAsWrittenAgrees | src/zipGenerator.js:46-58 | the archive's sort as written equals the report's when no parsed page has a segment-free pathname other than `/` |
| ZipPackage.ZipOrderAsWrittenDiffers | src/zipGenerator.js:46-58 | for pages at `http://h//` and `http://h/` the archive's order as written differs from the report's rows |
| ZipPackage.ZipNumberingMatchesExcel | src/zipGenerator.js:60-70 | in the archive built in the report's row order, every screenshot entry carries the number of the report row that shows its page, which is marked `Saved` and has the entry's URL |
| ZipPackage.ListingSound | src/zipGenerator.js:141-147 | every README line is that of a `Saved` page, under its row number and padded file name, and the numbers increase |
| ZipPackage.ListingComplete | src/zipGenerator.js:141-147 | every `Saved` page has its README line |
| ZipPackage.ReadmeCounts | src/zipGenerator.js:117-158 | the README counts every page and every listed file (0 without a list), and says "None captured" exactly when the list is missing or empty |
| ZipPackage.GenerateReadme | src/zipGenerator.js:117-147 | the listing sorts the pages again by pathname and lists every `Saved` page in that order under its position there, and nothing else |
| ZipPackage.RenderReadme | src/zipGenerator.js:101-162 | the text starts with the banner and ends with the statistics block holding both counts |
| ZipPackage.RenderReadmeSection | src/zipGenerator.js:115-152 | after the file section the text reads "None captured" without screenshots and gives their number otherwise |
| ZipPackage.LineTextSpec | src/zipGenerator.js:145 | a listing line gives the number, the file name and the URL |
| ZipPackage.CreateZip | src/zipGenerator.js:5-95 | an archive is made exactly when the base URL parses, and its Excel entry is named after the host without one leading `www.` and the date |
| ZipPackage.CreateZipCorrected | src/zipGenerator.js:42-85 | the archive with the pages in the report's row order is made exactly when the base URL parses, with the same Excel entry name |
| ZipPackage.CreateZipShape | src/zipGenerator.js:34-112 | the README names the Excel entry exactly when its own clock read (line 112) gives the same date as the entry's (line 35); it counts every page; outside the screenshot branch (lines 80-84) there are no screenshots and the README says "None captured" |
| ZipPackage.CreateZipBranch | src/zipGenerator.js:42-79 | in the screenshot branch the entries come from the loop over all pages in pathname order, and the README is that of those sorted pages, counting every listed file |
| ZipPackage.CreateZipShots | src/zipGenerator.js:42-75 | in the screenshot branch there is one entry per captured page, in pathname order, named after its position in that order, and no name is used twice |
| ZipPackage.ReadmeListsEntries | src/zipGenerator.js:60-79 | the README, sorting the pathname-sorted pages again, lists each captured page under the same number and file name as its entry in the archive |
| ClientScript.ShortenUrl | public/js/script.js:254-259 | a URL of at most 50 characters is shown whole; a longer one becomes its first 47 characters and `...`, 50 in all |
| ClientScript.ShortenUrlSettles | public/js/script.js:254-259 | a shortened URL is at most 50 long, is not shortened further, and equals the URL exactly when the URL fits |
| ClientScript.ValidateUrl | public/js/script.js:96-103 | a URL passes only when present, parsable and starting with `http://` or `https://` |
| ClientScript.ValidateUrlSchemes | public/js/script.js:96-103 | every parsable `http://` or `https://` URL passes; no URL not starting with `http` passes, whatever the parser |
| ClientScript.GenerateFileName | public/js/script.js:167-175 | the download name starts with `sitemap_` and ends with `.zip` |
| ClientScript.DownloadNameMatchesWorkbook | public/js/script.js:167-175 | the download shares the workbook's stem `sitemap_<host>_<day>`; an unparsable URL gives the time in milliseconds instead |
| ClientScript.DownloadNameDropsWww | public/js/script.js:169 | exactly one leading `www.` leaves the host in the download name |
| ClientScript.PhaseLabel | public/js/script.js:220-231 | a known phase gets its table entry and any other phase gets `🔄 処理中` in `#95a5a6` |
| ClientScript.PhaseLabelFallback | public/js/script.js:220-231 | the fallback label and its colour appear exactly for the phases the table lacks |
| ClientScript.TimeoutMillis | public/js/script.js:59 | the timeout is the seconds times 1000, or 10000 for missing, `NaN` or zero seconds |
| ClientScript.FormOptions | public/js/script.js:54-68 | every defaulted field is the submitted value when truthy and its default otherwise; the check boxes count only as `on` |
| ClientScript.FormOptionsDefaults | public/js/script.js:58-67 | an empty or all-zero form gets the defaults; no defaulted option is ever 0 or empty, and the timeout is a whole number of seconds |
| ClientScript.HandleSubmit | public/js/script.js:70-93 | the generation starts exactly when the URL is valid, with the defaulted options; otherwise the form shows the error message |
| ClientScript.SubmitNeedsWebUrl | public/js/script.js:70-93 | only a parsable URL beginning with `http` starts a generation |

## Left out

- src/app.js is not part of this model. It holds the HTTP routes, the event stream and the session map. It never calls `createZipFile`, so the archive is modelled as that function defines it.
- `getSSLInfo` and the SSL block of the Summary sheet: they are a TLS socket lookup with timers.
- The crawler library: concurrency, rate limiting, retries, request timeouts and duplicate skipping. Each request's outcome arrives as an event. The library's queue is taken as first in, first out.
- The 2-second settle timer and the 30-minute timeout are events (`Settled`, `TimedOut`), not time.
- `stop()` is not modelled: nothing in the analysed flow calls it.
- The visited set is derived from the list of queued requests. The generator adds a URL to it exactly when it queues that URL.
- The delivered result is a copy of the record list. In the program the resolved object shares the array that later events may still extend.
- ExcelJS styling (fonts, widths, borders, the header fill), the Summary sheet's domain, protocol, unique-domain and generation-time rows, and workbook serialisation are formatting or foreign-library work.
- `Math.max` over no depths gives `-Infinity` in the program; `MaxDepth` gives `None`.
- Sorting.LexLe: `localeCompare` is replaced by lexicographic order on characters. Locale collation is not modelled.
- Scraper.ProgressBounds: the percentage is computed in exact reals, so floating-point rounding is not modelled.
- Text.Lower: only ASCII letters are folded, as a regular expression with the `i` flag and no `u` flag does.
- ClientScript.ShortenUrl: lengths count characters, while JavaScript counts UTF-16 code units, so a URL with characters outside the Basic Multilingual Plane is measured differently.
- ClientScript.PhaseLabel: a phase named after an `Object.prototype` property (such as `constructor`) gets a truthy non-label value in the program. The model gives it the fallback.
- ClientScript.FormOptions: `parseInt` is not modelled; each numeric field is given as `parseInt` returns it.
- The form's network request, the progress stream, the download and all DOM updates are I/O.
- ZipPackage.RenderReadme: the README's closing credit line (`© 2025 …`) is not rendered; the statistics block ends with the "Generated with Sitemap Generator" line.
- ZipPackage.ReadmeListsEntries: requires the captured file's format to be non-empty. For an empty format the README writes `png` while the entry name keeps the empty format.
- The archive reads the clock twice: `date` names the Excel entry (src/zipGenerator.js:35) and `readmeDate` the file the README mentions (line 112). The README's `timestamp` (line 99) is a third string parameter.
- ZipPackage.CreateZip: the archive streams, compression and `archive.finalize()` are not modelled; the archive is its list of entries.
- The sort in the archive and in the report reorders the caller's array in place. The model returns a sorted copy, and the report's and the archive's sorts are each applied to the pages as given.
- The screenshot file's `format` and `viewport` are taken as strings. Missing values are modelled as empty strings.

## Findings

| source | as written | input that shows it | evidently intended | confidence | as-written member | corrected member |
|---|---|---|---|---|---|---|
| src/zipGenerator.js:46-58 | The archive numbers screenshots in the order of the URL's pathname (or the URL text when it does not parse). The report numbers its rows in the order of `parseUrlPath(url).fullPath` (src/excelGenerator.js:45-49), which maps every pathname without a non-empty segment to `/` | Pages `http://h//` and `http://h/`, both marked `Saved`: the report keeps them in the given order (both full paths are `/`), while the archive puts `/` before `//`, so screenshot `001` shows the page of report row 2 | The screenshot numbers follow the report's row numbers, as the source's own comments at lines 45 and 60 say | medium; not executed | ZipPackage.ZipOrderAsWrittenDiffers | ZipPackage.ZipNumberingMatchesExcel |

`ZipPackage.CreateZip` follows the code as written. `ZipPackage.CreateZipCorrected` builds the archive in the report's row order, and `ZipPackage.ZipNumberingMatchesExcel` proves its numbering matches the report's.
