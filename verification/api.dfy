/**
 * The browser-side API layer: the error a transport rejects with, upload
 * progress percentages, and how each of the three transports turns one
 * network exchange into a settled promise.
 *
 * A network exchange is abstract: the server either answered (status, status
 * text, body), or the request failed at the network level, or it timed out.
 */
module Api {
  import opened Base

  /**
   * A rejection reason: its `message` ("" when it has none or an empty one)
   * and its numeric `status`, which only `ApiError`s carry (`None` for a
   * `TypeError` from `fetch`, a `SyntaxError` from `response.json()`, or a
   * `FileReader` error event).
   */
  datatype ApiError = ApiError(message: string, status: Option<int>)

  /** How a promise settles: fulfilled with a value, or rejected with an error. */
  datatype Outcome<+T> = Ok(value: T) | Fail(error: ApiError)

  /** The default `shouldRetry`: a status of at least 500, or exactly 408 (Request Timeout). */
  predicate DefaultShouldRetry(e: ApiError)
  {
    match e.status
    case None => false
    case Some(st) => st >= 500 || st == 408
  }

  /**
   * Which rejections the default predicate retries: exactly the server errors
   * and 408; never a network error (status 0), another client error, or an
   * error without a status.
   */
  lemma DefaultShouldRetryClasses(e: ApiError)
    ensures e.status.None? ==> !DefaultShouldRetry(e)
    ensures e.status == Some(0) ==> !DefaultShouldRetry(e)
    ensures e.status.Some? && 400 <= e.status.value < 500 ==>
              (DefaultShouldRetry(e) <==> e.status.value == 408)
    ensures e.status.Some? && e.status.value >= 500 ==> DefaultShouldRetry(e)
  {
  }

  /**
   * An upload `progress` event. Per the XMLHttpRequest Standard,
   * `lengthComputable` holds exactly when the total length is known, that is,
   * non-zero.
   */
  datatype ProgressEvent = ProgressEvent(loaded: nat, total: nat)
  {
    predicate LengthComputable()
    {
      total != 0
    }
  }

  /**
   * The value handed to `onProgress` for one event, if any:
   * `Math.round(loaded / total * 100)`, reported only when the length is computable.
   */
  function ProgressReport(e: ProgressEvent): (r: Option<int>)
    ensures r.Some? <==> e.LengthComputable()
    // r is 100·loaded/total rounded half up
    ensures r.Some? ==> 2 * e.total * r.value <= 200 * e.loaded + e.total < 2 * e.total * (r.value + 1)
    ensures r.Some? ==> r.value >= 0
    ensures r.Some? && e.loaded <= e.total ==> r.value <= 100
  {
    if e.total == 0 then None
    else
      var n, d := 200 * e.loaded + e.total, 2 * e.total;
      DivBounds(n, d);
      assert e.loaded <= e.total ==> n / d <= 100 by {
        if e.loaded <= e.total {
          QuotientAtMost(n, d, 100);
        }
      }
      Some(n / d)
  }

  /** Euclidean division brackets the dividend. */
  lemma DivBounds(n: nat, d: nat)
    requires d > 0
    ensures d * (n / d) <= n < d * (n / d) + d
  {
  }

  /** A dividend below `d · (m + 1)` has a quotient of at most `m`. */
  lemma QuotientAtMost(n: nat, d: nat, m: nat)
    requires d > 0 && n < d * (m + 1)
    ensures n / d <= m
  {
    var q := n / d;
    DivBounds(n, d);
    assert d * (q - (m + 1)) == d * q - d * (m + 1);
    assert d * (q - (m + 1)) < 0;
    NegativeFactor(d, q - (m + 1));
  }

  /** A negative product with a positive factor has a negative other factor. */
  lemma NegativeFactor(d: int, x: int)
    requires d > 0 && d * x < 0
    ensures x < 0
  {
  }

  /**
   * The JSON a server sent back, as far as the client reads it: the
   * `error.message` it carries ("" when absent or empty) and the
   * `result.processedUrl` of a successful processing.
   */
  datatype Document = Document(errorMessage: string, processedUrl: string)

  /** A response body: valid JSON, or text the JSON parser rejects with `syntaxMessage`. */
  datatype Body = Parsed(doc: Document) | Unparsable(syntaxMessage: string)

  /** One request, as the network answered it. */
  datatype Exchange =
    | Responded(status: int, statusText: string, body: Body)
    | NetworkFailure(reason: string)   // connection refused, DNS failure, ...; `reason` is the TypeError's text
    | TimedOut                         // the transport's own timeout fired first

  /** `xhr.status` in 200..299, which is also `response.ok` for `fetch`. */
  predicate IsOkStatus(status: int)
  {
    200 <= status < 300
  }

  const UploadFailed := "Upload failed"

  /**
   * The message every transport puts on the `ApiError` for a non-2xx
   * response: `error.message` from a body that parses and has a non-empty
   * one; `'Upload failed'` from a body that parses without one; the status
   * text, or `'Upload failed'` if that is empty, from a body that does not parse.
   */
  function FailureMessage(body: Body, statusText: string): (m: string)
    ensures m != ""
    ensures body.Parsed? && body.doc.errorMessage != "" ==> m == body.doc.errorMessage
    ensures body.Parsed? && body.doc.errorMessage == "" ==> m == UploadFailed
    ensures body.Unparsable? ==> m == (if statusText != "" then statusText else UploadFailed)
  {
    match body
    case Parsed(doc) => if doc.errorMessage != "" then doc.errorMessage else UploadFailed
    case Unparsable(_) => if statusText != "" then statusText else UploadFailed
  }

  /**
   * How the XHR transport's promise settles, as the code is written. On a
   * network error or a timeout the XMLHttpRequest Standard fires
   * `readystatechange` (with status 0, empty status text and empty response
   * text) before `error` or `timeout`, so the `onreadystatechange` handler
   * rejects first, with `'Upload failed'` and status 0; the later
   * `onerror`/`ontimeout` rejections have no effect on a settled promise.
   */
  function XhrSettleAsWritten(x: Exchange): (o: Outcome<Document>)
    ensures o.Ok? <==> x.Responded? && IsOkStatus(x.status) && x.body.Parsed?
    ensures o.Ok? ==> o.value == x.body.doc
    ensures x.Responded? && IsOkStatus(x.status) && x.body.Unparsable? ==>
              o == Fail(ApiError("Failed to parse response", Some(x.status)))
    ensures !x.Responded? ==> o == Fail(ApiError(UploadFailed, Some(0)))
  {
    match x
    case Responded(st, text, body) =>
      if IsOkStatus(st) then
        match body
        case Parsed(doc) => Ok(doc)
        case Unparsable(_) => Fail(ApiError("Failed to parse response", Some(st)))
      else Fail(ApiError(FailureMessage(body, text), Some(st)))
    case NetworkFailure(_) => XhrStatusZero()
    case TimedOut => XhrStatusZero()
  }

  /** The rejection `onreadystatechange` produces for a request that got no response. */
  function XhrStatusZero(): (o: Outcome<Document>)
    ensures o.Fail? && o.error.status == Some(0)
  {
    Fail(ApiError(FailureMessage(Unparsable(""), ""), Some(0)))
  }

  /**
   * As written, the default retry predicate never retries an XHR request
   * that timed out, although the timeout handler means to reject with 408.
   */
  lemma XhrTimeoutNotRetriedAsWritten()
    ensures XhrSettleAsWritten(TimedOut) == Fail(ApiError(UploadFailed, Some(0)))
    ensures !DefaultShouldRetry(XhrSettleAsWritten(TimedOut).error)
  {
  }

  /**
   * How the XHR transport's promise settles when each handler's rejection
   * takes effect as intended: `'Network error'` with status 0 on a network
   * failure and `'Request timed out'` with 408 on a timeout.
   */
  function XhrSettle(x: Exchange): (o: Outcome<Document>)
    ensures x.TimedOut? ==> o == Fail(ApiError("Request timed out", Some(408)))
    ensures x.NetworkFailure? ==> o == Fail(ApiError("Network error", Some(0)))
    ensures x.Responded? ==> o == XhrSettleAsWritten(x)
  {
    match x
    case Responded(_, _, _) => XhrSettleAsWritten(x)
    case NetworkFailure(_) => Fail(ApiError("Network error", Some(0)))
    case TimedOut => Fail(ApiError("Request timed out", Some(408)))
  }

  /**
   * Which XHR handler settles a request that got no response: `AsWritten`,
   * the ready-state handler, which is what the program does because the
   * XMLHttpRequest Standard fires `readystatechange` first; or `AsIntended`,
   * the `onerror`/`ontimeout` handlers the code evidently means to take effect.
   */
  datatype XhrHandlers = AsWritten | AsIntended

  /** How the XHR transport's promise settles under the given handler semantics. */
  function XhrSettleWith(h: XhrHandlers, x: Exchange): (o: Outcome<Document>)
    ensures x.Responded? ==> o == XhrSettleAsWritten(x)
    ensures h == AsWritten && !x.Responded? ==> o == Fail(ApiError(UploadFailed, Some(0)))
    ensures h == AsIntended ==> o == XhrSettle(x)
  {
    match h
    case AsWritten => XhrSettleAsWritten(x)
    case AsIntended => XhrSettle(x)
  }

  /** With the intended handlers an XHR timeout is retryable, and a network error is not. */
  lemma XhrTimeoutRetried()
    ensures DefaultShouldRetry(XhrSettle(TimedOut).error)
    ensures forall reason :: !DefaultShouldRetry(XhrSettle(NetworkFailure(reason)).error)
  {
  }

  /**
   * How the plain `fetch` transport's promise settles: a 2xx body that does
   * not parse rejects with the parser's `SyntaxError` (no status); a network
   * failure rejects with `fetch`'s `TypeError` (no status); the `withTimeout`
   * race rejects with 408.
   */
  function FetchSettle(x: Exchange): (o: Outcome<Document>)
    ensures o.Ok? <==> x.Responded? && IsOkStatus(x.status) && x.body.Parsed?
    ensures o.Fail? && o.error.status.None? <==> x.NetworkFailure? || (x.Responded? && IsOkStatus(x.status) && x.body.Unparsable?)
    ensures x.TimedOut? ==> o == Fail(ApiError("Request timed out", Some(408)))
  {
    match x
    case Responded(st, text, body) =>
      if IsOkStatus(st) then
        match body
        case Parsed(doc) => Ok(doc)
        case Unparsable(syntax) => Fail(ApiError(syntax, None))
      else Fail(ApiError(FailureMessage(body, text), Some(st)))
    case NetworkFailure(reason) => Fail(ApiError(reason, None))
    case TimedOut => Fail(ApiError("Request timed out", Some(408)))
  }

  /** One attempt of the JSON transport: reading the file as a data URL failed, or the request was sent. */
  datatype JsonAttempt = ReadFailed | Sent(exchange: Exchange)

  /**
   * How the JSON (base64) transport's promise settles. A failed `FileReader`
   * rejects with its error event, which has neither message nor status;
   * otherwise it settles exactly like the `fetch` transport.
   */
  function JsonSettle(a: JsonAttempt): (o: Outcome<Document>)
    ensures a.ReadFailed? ==> o.Fail? && o.error.status.None? && o.error.message == ""
    ensures a.Sent? ==> o == FetchSettle(a.exchange)
  {
    match a
    case ReadFailed => Fail(ApiError("", None))
    case Sent(x) => FetchSettle(x)
  }

  /**
   * On a non-2xx response all three transports reject alike: with the
   * response's status and the shared failure message.
   */
  lemma NonOkResponseRejection(status: int, statusText: string, body: Body)
    requires !IsOkStatus(status)
    ensures var expected := Fail(ApiError(FailureMessage(body, statusText), Some(status)));
            && XhrSettle(Responded(status, statusText, body)) == expected
            && FetchSettle(Responded(status, statusText, body)) == expected
            && JsonSettle(Sent(Responded(status, statusText, body))) == expected
  {
  }

  /** Every transport fulfils exactly on a 2xx response whose body parses, and then with that body. */
  lemma TransportsFulfilOnParsedSuccess(x: Exchange)
    ensures XhrSettle(x).Ok? <==> x.Responded? && IsOkStatus(x.status) && x.body.Parsed?
    ensures FetchSettle(x).Ok? <==> x.Responded? && IsOkStatus(x.status) && x.body.Parsed?
    ensures JsonSettle(Sent(x)) == FetchSettle(x)
    ensures XhrSettle(x).Ok? ==> XhrSettle(x).value == x.body.doc
    ensures FetchSettle(x).Ok? ==> FetchSettle(x).value == x.body.doc
  {
  }
}
