/** The records the request client passes between its interceptors:
    per-call options, responses, the normalized error and the observable
    effects (notifications, log lines, loading-indicator changes). */
module Types {
  import opened Wrappers

  /** Request or response headers. Request headers are keyed by name as the
      caller wrote it; response headers arrive from the browser transport
      with lower-case names, so `content-disposition` is found whatever case
      the server used. */
  type Headers = map<string, string>

  /** A JSON payload as the backend sends it, plus `undefined` for a
      property that is not there. Numbers are integers here. */
  datatype Json =
    | JUndefined
    | JNull
    | JBool(b: bool)
    | JNum(n: int)
    | JStr(s: string)
    | JArr(items: seq<Json>)
    | JObj(fields: seq<(string, Json)>)

  /** A response body: the backend's `{code, data, message}` envelope, the
      raw bytes of a binary (`responseType: 'blob'`) response, or a JSON
      `null`. A blob has no `code` or `message` property; reading any
      property of `null` throws. */
  datatype Body =
    | Envelope(code: int, data: Json, message: string)
    | Blob(bytes: seq<bv8>)
    | NullBody

  /** An HTTP response as the transport reports it. */
  datatype HttpResponse = HttpResponse(
    status: nat,
    statusText: string,
    headers: Headers,
    body: Body)

  /** Per-call options. A missing boolean is `false` (falsy), except
      `showError`, whose absence means "use the default", hence the `Option`.
      A missing `successMessage` is the empty string: both are falsy. */
  datatype Config = Config(
    headers: Option<Headers>,
    showError: Option<bool>,
    showSuccess: bool,
    successMessage: string,
    showLoading: bool,
    responseType: Option<string>)

  /** The options of a call that passes no configuration object at all. */
  const NoOptions: Config := Config(None, None, false, "", false, None)

  /** The error a rejected call carries: its message and, when one was
      received, the HTTP response. A runtime `TypeError` thrown inside a
      handler has the same shape, with no response. */
  datatype NormalizedError = NormalizedError(message: string, response: Option<HttpResponse>)

  /** A side effect the client performs, recorded instead of performed. */
  datatype Effect =
    | ShowIndicator                  // full-screen loading indicator created
    | CloseIndicator                 // loading indicator closed
    | SuccessToast(text: string)     // transient success notification
    | ErrorToast(text: string)       // transient error notification
    | Log(error: NormalizedError)    // diagnostic log line

  /** What the transport did with a request that left the request interceptor. */
  datatype Transport =
    | Delivered(response: HttpResponse)   // some HTTP response arrived
    | NoResponse                          // network failure or timeout

  /** The transport's default rule: only statuses 200..299 reach the
      response interceptor's success handler. */
  predicate IsSuccessStatus(status: nat) {
    200 <= status < 300
  }
}
