/** The public operations of the client: the four verb methods, `upload`
    and `download`, each as one full exchange from the request interceptor,
    through the transport's answer, to the matching response handler. */
module Client {
  import opened Wrappers
  import opened Types
  import opened Loading
  import opened Interceptors
  import Messages
  import Notify
  import HeaderMerge
  import FileName

  datatype Verb = Get | Post | Put | Delete

  /** A request body: JSON, or the fields of an encoded form for `upload`. */
  datatype Payload = JsonBody(json: Json) | FormBody(fields: seq<(string, string)>)

  /** What the transport is asked to send, after the request interceptor. */
  datatype Request = Request(verb: Verb, url: string, body: Option<Payload>, config: Config)

  /** One settled call: the loading state after it, the effects in order,
      the request the transport saw, and the settled value. */
  datatype Settled<V, E> = Settled(loading: LoadingState, effects: seq<Effect>, sent: Request, outcome: Result<V, E>)

  /** The options the transport sends with: instance defaults under the
      call's options, then the bearer token. */
  function SentConfig(token: Option<string>, options: Option<Config>): (c: Config)
    ensures c == OnRequest(Idle, token, HeaderMerge.WithInstanceDefaults(options)).outcome.value
    ensures c.showLoading <==> (options.Some? && options.value.showLoading)
    ensures c.showError == (if options.Some? then options.value.showError else None)
  {
    var merged := HeaderMerge.WithInstanceDefaults(options);
    merged.(headers := HeaderMerge.WithBearer(token, merged.headers))
  }

  /** The response phase: a 2xx answer goes to the success handler (or, when
      `binaryAware`, to the corrected blob handler for blob requests); a
      non-2xx answer or no answer goes to the failure handler. */
  function Respond(s: LoadingState, config: Config, transport: Transport, binaryAware: bool): (h: Handled<HttpResponse>)
    ensures h.outcome.Ok? ==>
      transport.Delivered? && IsSuccessStatus(transport.response.status) && h.outcome.value == transport.response
    ensures !(transport.Delivered? && IsSuccessStatus(transport.response.status)) ==>
      && h.outcome.Err? && h.loading == s
      && h.outcome.error.response == (if transport.Delivered? then Some(transport.response) else None)
    ensures transport.Delivered? && IsSuccessStatus(transport.response.status) && !binaryAware ==>
      (h.outcome.Ok? <==> EnvelopeOk(transport.response.body))
    ensures (transport.Delivered? && IsSuccessStatus(transport.response.status) && binaryAware
             && config.responseType == Some(HeaderMerge.BlobResponseType)) ==> h.outcome.Ok?
  {
    match transport
    case NoResponse => OnResponseError(s, None, Some(config))
    case Delivered(r) =>
      if !IsSuccessStatus(r.status) then OnResponseError(s, Some(r), Some(config))
      else if binaryAware && config.responseType == Some(HeaderMerge.BlobResponseType) then OnBinaryResponse(s, r, config)
      else OnResponse(s, r, config)
  }

  /** Whether a call's options ask for the loading indicator. */
  predicate Tracked(options: Option<Config>) {
    options.Some? && options.value.showLoading
  }

  /** One exchange: request interceptor, transport answer, response handler.
      A loading-tracked exchange that resolves leaves the loading state as it
      found it; one that rejects leaves the count one higher. */
  function Exchange(s: LoadingState, token: Option<string>, verb: Verb, url: string, body: Option<Payload>,
                    options: Option<Config>, transport: Transport, binaryAware: bool): (x: Settled<HttpResponse, NormalizedError>)
    ensures x.sent == Request(verb, url, body, SentConfig(token, options))
    ensures x.loading.count == s.count + (if Tracked(options) && x.outcome.Err? then 1 else 0)
    ensures Consistent(s) ==> Consistent(x.loading)
    ensures Consistent(s) && x.outcome.Ok? ==> x.loading == s
    ensures !binaryAware && x.outcome.Ok? ==> Succeeds(transport) && x.outcome.value == transport.response
  {
    var out := OnRequest(s, token, HeaderMerge.WithInstanceDefaults(options));
    var config := out.outcome.value;
    var back := Respond(out.loading, config, transport, binaryAware);
    Settled(back.loading, out.effects + back.effects, Request(verb, url, body, config), back.outcome)
  }

  /** Whether the transport's answer is a 2xx response with a `null` body,
      on which the response handler throws before reporting anything. */
  predicate Unreported(transport: Transport) {
    transport.Delivered? && IsSuccessStatus(transport.response.status) && transport.response.body.NullBody?
  }

  /** Whether the transport's answer is a 2xx response with a passing envelope. */
  predicate Succeeds(transport: Transport) {
    transport.Delivered? && IsSuccessStatus(transport.response.status) && EnvelopeOk(transport.response.body)
  }

  /** A verb method: one exchange, then the envelope's `data` on success.
      It resolves exactly on a 2xx answer whose envelope code is 0, with that
      envelope's data; every other answer rejects with the normalized error
      for its case. */
  function Call(s: LoadingState, token: Option<string>, verb: Verb, url: string, body: Option<Payload>,
                options: Option<Config>, transport: Transport): (x: Settled<Json, NormalizedError>)
    ensures x.sent == Request(verb, url, body, SentConfig(token, options))
    ensures x.loading.count == s.count + (if Tracked(options) && x.outcome.Err? then 1 else 0)
    ensures Consistent(s) ==> Consistent(x.loading)
    ensures Consistent(s) && x.outcome.Ok? ==> x.loading == s
    ensures x.outcome.Ok? <==> Succeeds(transport)
    ensures x.outcome.Ok? ==> x.outcome.value == transport.response.body.data
    ensures transport.NoResponse? ==> x.outcome == Err(NormalizedError(Messages.NetworkError, None))
    ensures transport.Delivered? && !IsSuccessStatus(transport.response.status) ==>
      x.outcome == Err(NormalizedError(
        Messages.StatusMessage(transport.response.status, transport.response.statusText), Some(transport.response)))
    ensures (transport.Delivered? && IsSuccessStatus(transport.response.status) && !EnvelopeOk(transport.response.body)
             && !transport.response.body.NullBody?) ==>
      x.outcome == Err(NormalizedError(Messages.EnvelopeFailureMessage(transport.response.body), Some(transport.response)))
    ensures Unreported(transport) ==> x.outcome == Err(NormalizedError(Messages.NullCodeTypeError, None))
  {
    Unwrap(Exchange(s, token, verb, url, body, options, transport, false))
  }

  /** The verb methods' `.then(response => response.data.data)`: a resolved
      exchange resolves with the body's `data` property (absent on a blob);
      a rejection passes through; nothing else about the call changes. */
  function Unwrap(x: Settled<HttpResponse, NormalizedError>): (y: Settled<Json, NormalizedError>)
    requires x.outcome.Ok? ==> !x.outcome.value.body.NullBody?
    ensures y.loading == x.loading && y.effects == x.effects && y.sent == x.sent
    ensures y.outcome.Ok? <==> x.outcome.Ok?
    ensures y.outcome.Ok? && x.outcome.value.body.Envelope? ==> y.outcome.value == x.outcome.value.body.data
    ensures y.outcome.Ok? && x.outcome.value.body.Blob? ==> y.outcome.value == JUndefined
    ensures y.outcome.Err? ==> y.outcome.error == x.outcome.error
  {
    match x.outcome
    case Err(e) => Settled(x.loading, x.effects, x.sent, Err(e))
    case Ok(r) =>
      match r.body
      case Envelope(_, data, _) => Settled(x.loading, x.effects, x.sent, Ok(data))
      case Blob(_) => Settled(x.loading, x.effects, x.sent, Ok(JUndefined))
  }

  function GetCall(s: LoadingState, token: Option<string>, url: string, options: Option<Config>, transport: Transport): Settled<Json, NormalizedError> {
    Call(s, token, Get, url, None, options, transport)
  }

  function PostCall(s: LoadingState, token: Option<string>, url: string, data: Option<Payload>, options: Option<Config>, transport: Transport): Settled<Json, NormalizedError> {
    Call(s, token, Post, url, data, options, transport)
  }

  function PutCall(s: LoadingState, token: Option<string>, url: string, data: Option<Payload>, options: Option<Config>, transport: Transport): Settled<Json, NormalizedError> {
    Call(s, token, Put, url, data, options, transport)
  }

  function DeleteCall(s: LoadingState, token: Option<string>, url: string, options: Option<Config>, transport: Transport): Settled<Json, NormalizedError> {
    Call(s, token, Delete, url, None, options, transport)
  }

  /** `upload`: a POST of the form with the multipart content type forced.
      The transport sees that content type whatever the caller passed, and
      every other header and option of the caller unchanged. */
  function Upload(s: LoadingState, token: Option<string>, url: string, form: seq<(string, string)>,
                  options: Option<Config>, transport: Transport): (x: Settled<Json, NormalizedError>)
    ensures x.sent.verb == Post && x.sent.body == Some(FormBody(form))
    ensures x.sent.config.headers.Some? && HeaderMerge.ContentTypeKey in x.sent.config.headers.value
    ensures x.sent.config.headers.value[HeaderMerge.ContentTypeKey] == HeaderMerge.MultipartContentType
    ensures forall k :: (k != HeaderMerge.ContentTypeKey && k != HeaderMerge.AuthorizationKey
      && options.Some? && options.value.headers.Some? && k in options.value.headers.value) ==>
      k in x.sent.config.headers.value && x.sent.config.headers.value[k] == options.value.headers.value[k]
    ensures x.sent.config == options.GetOr(NoOptions).(headers := x.sent.config.headers)
    ensures x.outcome == Call(s, token, Post, url, Some(FormBody(form)), options, transport).outcome
  {
    var up := Some(HeaderMerge.UploadOptions(options));
    CallOutcomeIgnoresOptions(s, token, Post, url, Some(FormBody(form)), up, options, transport);
    UploadSentConfig(token, options);
    Call(s, token, Post, url, Some(FormBody(form)), up, transport)
  }

  /** The options an upload leaves with: the multipart type, every other
      header of the caller except `Authorization`, and the caller's other
      options unchanged. */
  lemma UploadSentConfig(token: Option<string>, options: Option<Config>)
    ensures var c := SentConfig(token, Some(HeaderMerge.UploadOptions(options)));
      && c.headers.Some? && HeaderMerge.ContentTypeKey in c.headers.value
      && c.headers.value[HeaderMerge.ContentTypeKey] == HeaderMerge.MultipartContentType
      && (forall k :: (k != HeaderMerge.ContentTypeKey && k != HeaderMerge.AuthorizationKey
            && options.Some? && options.value.headers.Some? && k in options.value.headers.value) ==>
            k in c.headers.value && c.headers.value[k] == options.value.headers.value[k])
      && c == options.GetOr(NoOptions).(headers := c.headers)
  {
    HeaderMerge.UploadContentTypeReachesTransport(token, options);
  }

  /** How a verb call settles depends on the transport's answer alone, not
      on the options or the loading state it started from. */
  lemma CallOutcomeIgnoresOptions(s: LoadingState, token: Option<string>, verb: Verb, url: string, body: Option<Payload>,
                                  options: Option<Config>, other: Option<Config>, transport: Transport)
    ensures Call(s, token, verb, url, body, options, transport).outcome
         == Call(Idle, None, verb, url, body, other, transport).outcome
  {
  }

  /** A file `download` saves: the response body and the name derived from
      its headers. */
  datatype SavedFile = SavedFile(blob: Body, fileName: string)

  /** How a download fails: the normalized error of the exchange, or the
      exception the name decoding raises. */
  datatype DownloadError = Rejected(error: NormalizedError) | UndecodableName

  /** After a resolved exchange: derive the name and save the body under it. */
  function SaveResponse(r: HttpResponse, decode: string -> Option<string>): (saved: Result<SavedFile, DownloadError>)
    ensures saved.Ok? ==> saved.value.blob == r.body
    ensures saved.Ok? <==> FileName.FileNameFromHeaders(r.headers, decode).Some?
    ensures saved.Ok? ==> saved.value.fileName == FileName.FileNameFromHeaders(r.headers, decode).value
    ensures saved.Err? ==> saved.error == UndecodableName
  {
    match FileName.FileNameFromHeaders(r.headers, decode)
    case Some(name) => Ok(SavedFile(r.body, name))
    case None => Err(UndecodableName)
  }

  /** `download` as written: a GET with `responseType: 'blob'` that goes
      through the same response handler as every other call. */
  function DownloadAsWritten(s: LoadingState, token: Option<string>, url: string, options: Option<Config>,
                             transport: Transport, decode: string -> Option<string>): (x: Settled<SavedFile, DownloadError>)
    ensures x.sent.verb == Get && x.sent.config.responseType == Some(HeaderMerge.BlobResponseType)
    ensures x.outcome.Ok? ==> Succeeds(transport)
    ensures Succeeds(transport) ==> x.outcome == SaveResponse(transport.response, decode)
  {
    var x := Exchange(s, token, Get, url, None, Some(HeaderMerge.DownloadOptions(options)), transport, false);
    match x.outcome
    case Err(e) => Settled(x.loading, x.effects, x.sent, Err(Rejected(e)))
    case Ok(r) => Settled(x.loading, x.effects, x.sent, SaveResponse(r, decode))
  }

  /** `download` with binary responses passed through without the envelope
      check: a 2xx blob answer is saved under the name from its headers. */
  function Download(s: LoadingState, token: Option<string>, url: string, options: Option<Config>,
                    transport: Transport, decode: string -> Option<string>): (x: Settled<SavedFile, DownloadError>)
    ensures x.sent.verb == Get && x.sent.config.responseType == Some(HeaderMerge.BlobResponseType)
    ensures transport.Delivered? && IsSuccessStatus(transport.response.status) ==>
      x.outcome == SaveResponse(transport.response, decode)
    ensures !(transport.Delivered? && IsSuccessStatus(transport.response.status)) ==> x.outcome.Err?
    ensures transport.Delivered? && IsSuccessStatus(transport.response.status) && Consistent(s) ==> x.loading == s
  {
    var x := Exchange(s, token, Get, url, None, Some(HeaderMerge.DownloadOptions(options)), transport, true);
    match x.outcome
    case Err(e) => Settled(x.loading, x.effects, x.sent, Err(Rejected(e)))
    case Ok(r) => Settled(x.loading, x.effects, x.sent, SaveResponse(r, decode))
  }

  /** The loading leak: a loading-tracked call whose 2xx envelope reports
      failure, or that ends in the failure handler (non-2xx or no response),
      leaves the count one higher; from a consistent state the indicator is
      then open, even when no other call is in flight. */
  lemma LoadingLeak(s: LoadingState, token: Option<string>, verb: Verb, url: string, body: Option<Payload>,
                    options: Option<Config>, transport: Transport)
    requires Tracked(options) && !Succeeds(transport)
    ensures Call(s, token, verb, url, body, options, transport).loading.count == s.count + 1
    ensures Consistent(s) && s.count >= 0 ==> Call(s, token, verb, url, body, options, transport).loading.indicator
    ensures s == Idle ==> Call(s, token, verb, url, body, options, transport).loading == LoadingState(1, true)
  {
  }

  /** The inputs of one verb call. */
  datatype CallInput = CallInput(token: Option<string>, verb: Verb, url: string, body: Option<Payload>,
                                 options: Option<Config>, transport: Transport)

  /** The loading state after a series of verb calls, one after the other. */
  function CallSeries(s: LoadingState, calls: seq<CallInput>): LoadingState
    decreases |calls|
  {
    if |calls| == 0 then s
    else
      var c := calls[0];
      CallSeries(Call(s, c.token, c.verb, c.url, c.body, c.options, c.transport).loading, calls[1..])
  }

  /** Once leaked, the indicator never closes through verb calls: from a
      consistent state with a positive count (for instance after one failing
      loading-tracked call from an idle client), any later series of calls,
      with any tokens, options and answers, keeps the count at least as high
      and the indicator open. */
  lemma {:induction false} LeakPersists(s: LoadingState, calls: seq<CallInput>)
    requires Consistent(s) && s.count >= 1
    ensures Consistent(CallSeries(s, calls))
    ensures CallSeries(s, calls).count >= s.count
    ensures CallSeries(s, calls).indicator
    decreases |calls|
  {
    if |calls| > 0 {
      var c := calls[0];
      var next := Call(s, c.token, c.verb, c.url, c.body, c.options, c.transport).loading;
      LeakPersists(next, calls[1..]);
    }
  }

  /** The response phase reports every rejection: logged always, notified
      unless `showError` is `false`; a resolved response reports nothing. */
  lemma RespondReporting(s: LoadingState, config: Config, transport: Transport)
    ensures var h := Respond(s, config, transport, false);
      && (h.outcome.Err? && !Unreported(transport) ==> Log(h.outcome.error) in h.effects)
      && (h.outcome.Err? && !Unreported(transport) ==>
            (ErrorToast(h.outcome.error.message) in h.effects <==> Notify.ShowsError(config.showError)))
      && (h.outcome.Ok? || Unreported(transport) ==> forall e :: e in h.effects ==> !e.ErrorToast? && !e.Log?)
  {
    var h := Respond(s, config, transport, false);
    if transport.Delivered? && IsSuccessStatus(transport.response.status) {
      if Unreported(transport) {
        assert h.effects == SuccessEffects(config);
      } else if h.outcome.Err? {
        assert h.effects == SuccessEffects(config) + Notify.ReportError(h.outcome.error, config.showError);
      } else {
        assert h.effects == SuccessEffects(config) || h.effects == SuccessEffects(config) + Release(s).effects;
      }
    }
  }

  /** Every rejected call is logged with its error, and the error
      notification appears exactly when the caller did not pass
      `showError: false`, except the `null`-body rejection, which reports
      nothing; a resolved call reports no error at all. */
  lemma ErrorReporting(s: LoadingState, token: Option<string>, verb: Verb, url: string, body: Option<Payload>,
                       options: Option<Config>, transport: Transport)
    ensures var x := Call(s, token, verb, url, body, options, transport);
      && (x.outcome.Err? && !Unreported(transport) ==> Log(x.outcome.error) in x.effects)
      && (x.outcome.Err? && !Unreported(transport) ==>
            (ErrorToast(x.outcome.error.message) in x.effects <==>
             Notify.ShowsError(if options.Some? then options.value.showError else None)))
      && (x.outcome.Ok? || Unreported(transport) ==> forall e :: e in x.effects ==> !e.ErrorToast? && !e.Log?)
  {
    ExchangeReporting(s, token, verb, url, body, options, transport);
  }

  /** The reporting rules, for the exchange before the envelope is unwrapped. */
  lemma ExchangeReporting(s: LoadingState, token: Option<string>, verb: Verb, url: string, body: Option<Payload>,
                          options: Option<Config>, transport: Transport)
    ensures var x := Exchange(s, token, verb, url, body, options, transport, false);
      && (x.outcome.Err? && !Unreported(transport) ==> Log(x.outcome.error) in x.effects)
      && (x.outcome.Err? && !Unreported(transport) ==>
            (ErrorToast(x.outcome.error.message) in x.effects <==>
             Notify.ShowsError(if options.Some? then options.value.showError else None)))
      && (x.outcome.Ok? || Unreported(transport) ==> forall e :: e in x.effects ==> !e.ErrorToast? && !e.Log?)
  {
    var config := SentConfig(token, options);
    var out := OnRequest(s, token, HeaderMerge.WithInstanceDefaults(options));
    RespondReporting(out.loading, config, transport);
    assert out.effects == [] || out.effects == [ShowIndicator];
  }

  /** On a 2xx answer the success notification comes first, before the
      envelope is looked at. */
  lemma RespondSuccessToast(s: LoadingState, config: Config, response: HttpResponse)
    requires IsSuccessStatus(response.status)
    ensures var h := Respond(s, config, Delivered(response), false);
      var toast := SuccessToast(Messages.SuccessText(config.successMessage));
      toast in h.effects <==> config.showSuccess
  {
    var h := OnResponse(s, response, config);
    assert Respond(s, config, Delivered(response), false) == h;
    var toast := SuccessToast(Messages.SuccessText(config.successMessage));
    var rest: seq<Effect>;
    if response.body.NullBody? {
      rest := [];
    } else if !EnvelopeOk(response.body) {
      rest := Notify.ReportError(h.outcome.error, config.showError);
    } else {
      rest := if config.showLoading then Release(s).effects else [];
    }
    assert h.effects == SuccessEffects(config) + rest;
    assert toast !in rest;
  }

  /** The success notification is decided before the envelope check: on a
      2xx answer it appears exactly when `showSuccess` is set, even when the
      call then rejects, with the caller's text or the default. */
  lemma SuccessToastBeforeEnvelopeCheck(s: LoadingState, token: Option<string>, verb: Verb, url: string, body: Option<Payload>,
                                        options: Option<Config>, response: HttpResponse)
    requires IsSuccessStatus(response.status)
    ensures var x := Call(s, token, verb, url, body, options, Delivered(response));
      var toast := SuccessToast(Messages.SuccessText(options.GetOr(NoOptions).successMessage));
      && (toast in x.effects <==> options.Some? && options.value.showSuccess)
      && (options.Some? && options.value.showSuccess && !EnvelopeOk(response.body) ==> x.outcome.Err?)
  {
    var x := Call(s, token, verb, url, body, options, Delivered(response));
    var config := SentConfig(token, options);
    var out := OnRequest(s, token, HeaderMerge.WithInstanceDefaults(options));
    var h := Respond(out.loading, config, Delivered(response), false);
    assert x.effects == out.effects + h.effects;
    RespondSuccessToast(out.loading, config, response);
    assert forall e :: e in out.effects ==> e == ShowIndicator;
  }

  /** `download` as written never saves a file: the response handler looks
      for an envelope `code` on the blob, finds none, and rejects a 2xx
      answer with the fallback message; other answers reject as usual. */
  lemma DownloadAsWrittenNeverSaves(s: LoadingState, token: Option<string>, url: string, options: Option<Config>,
                                    transport: Transport, decode: string -> Option<string>)
    requires transport.Delivered? ==> transport.response.body.Blob?
    ensures DownloadAsWritten(s, token, url, options, transport, decode).outcome.Err?
    ensures transport.Delivered? && IsSuccessStatus(transport.response.status) ==>
      DownloadAsWritten(s, token, url, options, transport, decode).outcome
        == Err(Rejected(NormalizedError(Messages.EnvelopeFailure, Some(transport.response))))
  {
  }

  /** With blob answers passed through, a 2xx download is saved under the
      name from its `content-disposition` header, the blob untouched. */
  lemma DownloadSavesBlob(s: LoadingState, token: Option<string>, url: string, options: Option<Config>,
                          response: HttpResponse, decode: string -> Option<string>)
    requires IsSuccessStatus(response.status) && response.body.Blob?
    requires FileName.FileNameFromHeaders(response.headers, decode).Some?
    ensures Download(s, token, url, options, Delivered(response), decode).outcome
      == Ok(SavedFile(response.body, FileName.FileNameFromHeaders(response.headers, decode).value))
  {
  }

  /** The backend returns `{code: 1, data: null, message: "not found"}` with
      HTTP 200: the call rejects with "not found" and carries the response. */
  lemma NotFoundEnvelopeRejects(s: LoadingState, token: Option<string>, options: Option<Config>)
    ensures var r := HttpResponse(200, "OK", map[], Envelope(1, JNull, "not found"));
      GetCall(s, token, "/users/1", options, Delivered(r)).outcome == Err(NormalizedError("not found", Some(r)))
  {
  }
}
