/**
 * What the crawler gets from outside: URI parsing (`Uri.TryCreate` and the
 * properties it reads), HTTP GET responses, and the node stream an
 * `XmlTextReader` yields for a URL. Each is an oracle supplied as a function,
 * together with the response classifications the crawler applies.
 */
module Web {
  import opened Wrappers
  import opened WebPages

  /** The parts of a parsed absolute `System.Uri` that the crawler reads. */
  datatype Uri = Uri(
    scheme: string,         // Scheme
    host: string,           // Host
    isFile: bool,           // IsFile
    originalString: string, // OriginalString
    leftPartPath: string,   // GetLeftPart(UriPartial.Path): scheme, authority and path
    absolutePath: string)   // AbsolutePath

  /** `Uri.TryCreate(s, UriKind.RelativeOrAbsolute, out uri)` and `uri.IsAbsoluteUri`. */
  datatype UriReference = AbsoluteReference(uri: Uri) | RelativeReference | NotAReference

  /** The body as `ReadAsStringAsync` returns it, with the href values the anchor pattern matches in it. */
  datatype Body = Readable(text: string, hrefs: seq<string>) | Unreadable

  /**
   * An HTTP GET response. `NoResponse`: `GetAsync(url).Result` throws.
   * `Rejected`: `GetAsync(url)` itself throws before any request is sent.
   * `mediaType` is the Content-Type media type, `None` when the header is missing.
   */
  datatype Response =
    | NoResponse
    | Rejected
    | Answer(status: int, mediaType: Option<string>, body: Body)

  /** A node read by `XmlTextReader.Read()`; `ReadFailure` is a read that throws. */
  datatype XmlNode =
    | Element(name: string)
    | Text(value: string)
    | EndElement(name: string)
    | OtherNode
    | ReadFailure

  /** The outside world, as seen by one crawler instance. */
  datatype Environment = Environment(
    parseAbsolute: string -> Option<Uri>,      // Uri.TryCreate(s, UriKind.Absolute, ...)
    parseReference: string -> UriReference,    // Uri.TryCreate(s, UriKind.RelativeOrAbsolute, ...)
    get: string -> Response,                   // httpClient.GetAsync(url)
    issueTime: string -> nat,                  // milliseconds the stopwatch runs while GetAsync(url) is issued
    readXml: string -> seq<XmlNode>)           // new XmlTextReader(url), read to the end

  /** The exceptions the modelled code can raise. */
  datatype Failure =
    | InvalidLink           // ArgumentException "Error! Invalid link given"
    | UnsupportedScheme     // ArgumentException "... must support http or https scheme and must not be a file."
    | Aggregate             // AggregateException from a blocking .Result
    | CustomEncodings       // ArgumentException "Custom encodings are not supported", wrapping Aggregate
    | OutOfRange            // ArgumentOutOfRangeException from Substring
    | NullReference         // NullReferenceException
    | XmlReadError          // exception thrown by XmlTextReader.Read()
    | NotCrawled            // InvalidOperationException from a report before CrawlSiteLinks finished
    | InvalidRequestUri     // UriFormatException or InvalidOperationException from GetAsync on a rejected request URI
    | EmptyUrl              // ArgumentException from new XmlTextReader("")

  /**
   * `httpClient.GetAsync(url)`: the string becomes the request URI first, so
   * one that is not an absolute URI is rejected before anything is sent; the
   * oracle answers for the others (and may reject them too).
   */
  function Get(env: Environment, url: string): (r: Response)
    ensures !env.parseReference(url).AbsoluteReference? ==> r == Rejected
    ensures env.parseReference(url).AbsoluteReference? ==> r == env.get(url)
  {
    if env.parseReference(url).AbsoluteReference? then env.get(url) else Rejected
  }

  /** `IsSuccessStatusCode` */
  predicate IsSuccess(status: int) {
    200 <= status <= 299
  }

  /** `HttpStatusCode.InternalServerError` */
  const InternalServerError := 500

  /** `MediaTypeNames.Text.Html` */
  const HtmlMediaType := "text/html"

  /** `long.MaxValue` */
  const Int64Max: int64 := 0x7FFF_FFFF_FFFF_FFFF

  /**
   * `Stopwatch.ElapsedMilliseconds` after `total` milliseconds of running; the
   * reading saturates where a `long` would end.
   */
  function Millis(total: nat): (t: int64)
    ensures 0 <= t
    ensures total <= Int64Max as nat ==> t as int == total
  {
    if total <= Int64Max as nat then total as int64 else Int64Max
  }

  /** The reading never goes back while the stopwatch runs on. */
  lemma MillisMonotone(a: nat, b: nat)
    requires a <= b
    ensures Millis(a) <= Millis(b)
  {
  }

  /** What `GetHtmlSource` makes of a response. */
  datatype Visit =
    | Html(text: string, hrefs: seq<string>)                  // 2xx text/html: recorded, body returned
    | NotHtml                                                 // 2xx other type: nothing recorded
    | ServerError                                             // 500: recorded with -500
    | OtherError                                              // any other status: nothing recorded
    | Abort(failure: Failure)                                 // an exception escapes

  function Classify(r: Response): (v: Visit)
    ensures r.NoResponse? ==> v == Abort(Aggregate)
    ensures r.Rejected? ==> v == Abort(InvalidRequestUri)
    ensures v.Html? <==> r.Answer? && IsSuccess(r.status) && r.mediaType == Some(HtmlMediaType) && r.body.Readable?
    ensures v.Html? ==> v.text == r.body.text && v.hrefs == r.body.hrefs
    ensures v == NotHtml <==> r.Answer? && IsSuccess(r.status) && r.mediaType.Some? && r.mediaType.value != HtmlMediaType
    ensures v == ServerError <==> r.Answer? && r.status == InternalServerError
    ensures v == OtherError <==> r.Answer? && !IsSuccess(r.status) && r.status != InternalServerError
    ensures r.Answer? && IsSuccess(r.status) && r.mediaType.None? ==> v == Abort(NullReference)
    ensures r.Answer? && IsSuccess(r.status) && r.mediaType == Some(HtmlMediaType) && r.body.Unreadable? ==> v == Abort(Aggregate)
  {
    match r
    case NoResponse => Abort(Aggregate)
    case Rejected => Abort(InvalidRequestUri)
    case Answer(status, mediaType, body) =>
      if IsSuccess(status) then
        match mediaType
        case None => Abort(NullReference)
        case Some(t) =>
          if t != HtmlMediaType then NotHtml
          else match body
            case Unreadable => Abort(Aggregate)
            case Readable(text, hrefs) => Html(text, hrefs)
      else if status == InternalServerError then ServerError
      else OtherError
  }

  /** `GetTextSource`: the body of a 2xx response, null for any other status. */
  function TextSource(r: Response): (t: Result<Option<string>, Failure>)
    ensures t.Ok? && t.value.Some? <==> r.Answer? && IsSuccess(r.status) && r.body.Readable?
    ensures t.Ok? && t.value.Some? ==> t.value.value == r.body.text
    ensures t == Ok(None) <==> r.Answer? && !IsSuccess(r.status)
    ensures r.NoResponse? ==> t == Err(Aggregate)
    ensures r.Rejected? ==> t == Err(InvalidRequestUri)
  {
    match r
    case NoResponse => Err(Aggregate)
    case Rejected => Err(InvalidRequestUri)
    case Answer(status, _, body) =>
      if !IsSuccess(status) then Ok(None)
      else match body
        case Unreadable => Err(Aggregate)
        case Readable(text, _) => Ok(Some(text))
  }

  /** The visits that put a page into the crawled set. */
  predicate Records(v: Visit) {
    v.Html? || v.ServerError?
  }

  /** The measurement recorded for such a visit: the stopwatch reading, or the negated status 500. */
  function RecordedTime(v: Visit, reading: int64): int64
    requires Records(v)
  {
    if v.Html? then reading else -InternalServerError as int64
  }

  /**
   * What `MeasureLinksUptime` writes into a page measured `current`, given
   * the stopwatch `reading`: the reading for HTML, nothing new for other 2xx,
   * -500 for status 500, -1 otherwise. The body is not read here.
   */
  function Uptime(r: Response, current: int64, reading: int64): (t: Result<int64, Failure>)
    ensures r.NoResponse? ==> t == Err(Aggregate)
    ensures r.Rejected? ==> t == Err(InvalidRequestUri)
    ensures r.Answer? && IsSuccess(r.status) && r.mediaType == Some(HtmlMediaType) ==> t == Ok(reading)
    ensures r.Answer? && IsSuccess(r.status) && r.mediaType.Some? && r.mediaType.value != HtmlMediaType ==> t == Ok(current)
    ensures r.Answer? && IsSuccess(r.status) && r.mediaType.None? ==> t == Err(NullReference)
    ensures r.Answer? && r.status == InternalServerError ==> t == Ok(-500)
    ensures r.Answer? && !IsSuccess(r.status) && r.status != InternalServerError ==> t == Ok(-1)
  {
    match r
    case NoResponse => Err(Aggregate)
    case Rejected => Err(InvalidRequestUri)
    case Answer(status, mediaType, _) =>
      if IsSuccess(status) then
        match mediaType
        case None => Err(NullReference)
        case Some(t) => if t == HtmlMediaType then Ok(reading) else Ok(current)
      else if status == InternalServerError then Ok(-InternalServerError as int64)
      else Ok(-1)
  }

  /** The responses for which re-measuring throws. */
  predicate UptimeFails(r: Response) {
    !r.Answer? || (IsSuccess(r.status) && r.mediaType.None?)
  }

  /**
   * A page measured `before` holds `after` once re-measured at some stopwatch
   * reading between `lo` and `hi`.
   */
  ghost predicate Measured(r: Response, before: int64, after: int64, lo: int64, hi: int64) {
    exists reading: int64 :: lo <= reading <= hi && Uptime(r, before, reading) == Ok(after)
  }

  /** Re-measuring throws exactly for the responses `UptimeFails` names, whatever the reading. */
  lemma UptimeFailsExactly(r: Response, current: int64, reading: int64)
    ensures Uptime(r, current, reading).Err? <==> UptimeFails(r)
  {
  }

  /**
   * Re-measuring agrees with the crawl's classification on HTML pages and on
   * status 500, keeps the measurement of other 2xx pages, and gives -1 where
   * the crawl records nothing for a failure status.
   */
  lemma UptimeAgreesWithCrawl(r: Response, current: int64, reading: int64)
    ensures Classify(r).Html? ==> Uptime(r, current, reading) == Ok(RecordedTime(Classify(r), reading))
    ensures Classify(r).ServerError? ==> Uptime(r, current, reading) == Ok(RecordedTime(Classify(r), reading))
    ensures Classify(r).NotHtml? ==> Uptime(r, current, reading) == Ok(current)
    ensures Classify(r).OtherError? ==> Uptime(r, current, reading) == Ok(-1)
  {
  }
}
