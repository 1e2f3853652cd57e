/** The page record the crawler produces and the report and archive consume. */
module Records {
  import opened Js

  /** An HTTP status as stored in a record: a number, or a text such as
      `'Error'` (or a numeric string such as `'200'`). */
  datatype Status = Code(code: int) | Label(text: string)

  datatype PageRecord = PageRecord(
    url: string,
    title: string,
    metaDescription: string,
    h1: string,
    depth: nat,
    status: Status,
    contentType: string,
    lastModified: string,
    contentLength: string,
    error: Option<string>,
    /** the screenshot tag; `'Saved'` marks a page whose capture succeeded */
    screenshot: Option<string>)

  /** The status is neither the number 200 nor the string `'200'`. */
  predicate IsErrorStatus(s: Status) {
    s != Code(200) && s != Label("200")
  }
}
