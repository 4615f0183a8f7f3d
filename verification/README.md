# ApiService policy layer, modelled in Dafny

This project models the request client `ApiService` of a small single-page application (`src/service/http.ts`). The client wraps an HTTP transport. On the way out, a request interceptor adds the stored bearer token and counts loading-tracked calls. On the way back, a response interceptor decides between the backend envelope's `code` and the transport's failures. The model turns this into pure functions over explicit inputs:

- **Loading indicator** (`Loading`, `Interceptors`): a reference counter plus an "indicator open" flag. The four interceptor handlers change them, and `Run` folds the handlers over any sequence of events. The state always satisfies "indicator open iff count > 0". The indicator is created only on the 0 → 1 edge and closed only on the 1 → 0 edge. The count is never clamped.
- **Outcomes** (`Interceptors`, `Messages`, `Client`): every call settles as `Ok(value)` or `Err(NormalizedError(message, response))`. Two rejections are not normalized. First, a 2xx answer whose JSON body is `null` makes the response handler throw a `TypeError` when it reads `code`; that rejection carries the runtime's message and no response, is neither notified nor logged, and does not release the loading count. Second, a `download` whose file name cannot be percent-decoded rejects with the decoder's `URIError` (`Client.UndecodableName`). A verb method resolves exactly on a 2xx answer whose envelope `code` is 0, and it resolves with the envelope's `data`. Every other answer rejects with the message for its case:
  - the envelope message, or `请求失败`;
  - the network-error text;
  - the status table;
  - the generic `请求错误: <status> - <statusText>`;
  - the request-configuration prefix.
- **Notifications** (`Notify`): toasts, log lines and indicator changes are recorded as `Effect` values, in order. Every normalized error is logged, and it is shown unless the caller passed `showError: false`; the request-configuration error is always shown, whatever the options say. Two rejections never reach the error handler and are neither logged nor shown: the `TypeError` of a `null` 2xx body, and the decoding failure of a `download` file name. The success toast is decided before the envelope check.
- **Header merges** (`HeaderMerge`): the `Authorization: Bearer` injection, the instance's default `Content-Type` under the call's headers, the multipart `Content-Type` that `upload` forces, and the `responseType: 'blob'` of `download`.
- **File name** (`FileName`): the `/filename=(.*)/` extraction from `content-disposition`, proved equal to a reference reading of the pattern.

The loading leak is stated, not fixed. A loading-tracked call that rejects leaves the count one higher (`Client.Exchange`, `Client.LoadingLeak`). That covers both an envelope with `code ≠ 0` and the response-error handler. After one such call from an idle client, any later series of verb calls, with any tokens, options and answers, leaves the indicator open (`Client.LeakPersists`).

The count is not clamped: a loading-tracked request failure on an idle client drives it to -1 (`Interceptors.RequestFailureCanGoNegative`).

## Model

| member | source | states |
|---|---|---|
| Decimal.ValueOfDecimal | src/service/http.ts:150 | the status interpolated into the generic message reads back as the same number |
| Messages.ConfigErrorMessage | src/service/http.ts:84 | a request-configuration error message starts with the fixed prefix and is longer than it |
| Messages.ConfigReasonRoundTrip | src/service/http.ts:84 | stripping the prefix gives back the underlying message, or `未知错误` when that was empty |
| Messages.EnvelopeFailureMessage | src/service/http.ts:111 | the envelope rejection message is the envelope's non-empty message, otherwise `请求失败` (also for a blob, which has no message); it is never read from a `null` body |
| Messages.SuccessText | src/service/http.ts:106 | the success toast text is `successMessage` when non-empty, otherwise `操作成功` |
| Decimal.CanonicalIsDecimal | src/service/http.ts:150 | a digit string without a leading zero is the spelling of the number it denotes, so the reading of an interpolated status is injective |
| Messages.GenericRoundTrip | src/service/http.ts:150 | the generic template `请求错误: <status> - <statusText>` parses back into exactly that status and status text |
| Messages.StatusMessage | src/service/http.ts:135-151 | a listed status (401, 403, 404, 500) gets its own table text; any other status gets the generic template, which reads back into exactly that status and status text |
| Messages.ResponseFailureMessage | src/service/http.ts:131-151 | the failure message determines its case: no response, one of 401/403/404/500, or any other status together with its status text |
| Messages.ReadGenericSound | src/service/http.ts:150 | whatever the generic reading accepts is exactly the template of the status and status text it reads |
| Messages.ReadingDeterminesMessage | src/service/http.ts:131-151 | two failure messages with the same readable cause are the same message, so the read-back pins each message exactly |
| HeaderMerge.WithBearer | src/service/http.ts:70-73 | `Authorization` is `Bearer <token>` exactly when the token is non-empty and headers exist; all other headers are kept; otherwise the headers are unchanged |
| HeaderMerge.BearerCarriesToken | src/service/http.ts:72 | the header value is the scheme prefix followed by the stored token |
| HeaderMerge.BearerIdempotent | src/service/http.ts:70-73 | injecting the same token twice equals injecting it once |
| HeaderMerge.WithInstanceDefaults | src/service/http.ts:51-59 | every call's headers contain the call's own headers, plus the JSON `Content-Type` unless the call set one; other options pass unchanged |
| HeaderMerge.UploadOptions | src/service/http.ts:203-209 | upload options hold `Content-Type: multipart/form-data`; every other caller header and every other option is preserved, and nothing else is added |
| HeaderMerge.UploadOptionsIdempotent | src/service/http.ts:203-209 | applying the upload merge to its own result changes nothing |
| HeaderMerge.UploadContentTypeReachesTransport | src/service/http.ts:202-210 | after the instance defaults and the token injection, the request still carries the multipart type |
| HeaderMerge.DownloadOptions | src/service/http.ts:218-221 | download options carry `responseType: 'blob'` and otherwise equal the caller's options |
| Loading.Acquire | src/service/http.ts:74-78 | the count rises by one; the indicator is shown iff the count becomes 1; consistency is kept |
| Loading.Release | src/service/http.ts:117-123 | the count falls by one; the indicator is closed iff the count reaches 0 while open; consistency is kept |
| Loading.AcquireThenRelease | src/service/http.ts:74-123 | an acquire then a release restores a consistent state; the indicator flashes only when starting from 0 |
| Notify.ReportError | src/service/http.ts:163-169 | the log line is always emitted, last; the error toast is emitted iff `showError` is not `false`; nothing else is emitted |
| Notify.MutingKeepsLog | src/service/http.ts:163-169 | `showError: false` yields only the log; an absent `showError` behaves as `true` |
| Interceptors.OnRequest | src/service/http.ts:67-81 | the request passes with the bearer merge applied; a loading-tracked one counts up and shows the indicator only from 0 |
| Interceptors.OnRequestError | src/service/http.ts:82-95 | rejects with the prefixed message; the toast comes first regardless of options, then the log; a loading-tracked request is released: the count goes down and the release's close, if any, follows the log |
| Interceptors.SuccessEffects | src/service/http.ts:105-107 | the success toast is emitted iff `showSuccess` is set |
| Interceptors.OnResponse | src/service/http.ts:100-125 | resolves iff the envelope code is 0, with the response itself, emitting the success toast and then exactly the release's effects for a loading-tracked request; otherwise rejects with the envelope message and the response, reported with `showError`, loading untouched; a `null` body rejects with the runtime's `TypeError`, no response, nothing reported and loading untouched; the success toast comes first in every case |
| Interceptors.OnResponseError | src/service/http.ts:126-156 | always rejects, carrying the response if any; the message reads back as network / listed status / generic status; reported with `showError` (default when no config); loading untouched |
| Interceptors.StepKeepsConsistent | src/service/http.ts:74-123 | every interceptor event keeps "indicator iff count > 0", moves the count by its delta, and shows/closes only on the 0→1 and 1→0 edges |
| Interceptors.RunKeepsConsistent | src/service/http.ts:74-123 | over any event sequence the invariant holds, and the count is the start plus the sum of deltas (no clamping) |
| Interceptors.IndicatorIffPositive | src/service/http.ts:38-39 | from a fresh client, after any events, the indicator is open iff the count is positive |
| Interceptors.SendsWhileOpen | src/service/http.ts:74-78 | while the indicator is open, any sequence of loading-tracked requests, each with its own token and options, only counts up and emits nothing |
| Interceptors.PassingResponseStep | src/service/http.ts:117-123 | one passing loading-tracked response lowers the count by one and closes the indicator only when the count reaches 0 |
| Interceptors.ReceivesUntilClosed | src/service/http.ts:104-123 | any n passing loading-tracked responses, each with its own response and options, against a count of n return to idle and emit each response's success toast in order followed by a single close, so the indicator closes exactly once and never opens |
| Interceptors.ReceivesEffects | src/service/http.ts:104-123 | the effects of such a run are exactly the responses' success toasts, in order, followed by one close |
| Interceptors.ToastsCarryNoIndicator | src/service/http.ts:104-107 | success toasts never include showing or closing the loading indicator |
| Interceptors.FirstReceive | src/service/http.ts:104-123 | the first passing tracked response of such a run drops the count by one and emits exactly its success toast, followed by the close when it is the last |
| Interceptors.OverlappingCallsShowOnce | src/service/http.ts:74-123 | any N loading-tracked calls all in flight at once (every request sent before the first answer) that all pass, whatever their tokens, options and responses, show the indicator once, close it once, and end idle |
| Interceptors.RequestFailureCanGoNegative | src/service/http.ts:87-93 | a loading-tracked request failure on an idle client leaves count -1 with the indicator closed |
| Interceptors.OnBinaryResponse | src/service/http.ts:100-125 | corrected handler for blob requests: resolves with the response; emits the success toast, then exactly the release's effects for a loading-tracked request |
| Interceptors.BinaryHandlerAgreesOnPassingEnvelope | src/service/http.ts:110-124 | on a passing envelope the corrected handler equals the original one |
| Client.SentConfig | src/service/http.ts:67-80 | the options the transport sees carry the caller's `showLoading` and `showError` |
| Client.Respond | src/service/http.ts:99-157 | only a 2xx answer resolves, with that response; no answer or a non-2xx one rejects with the response (if any) attached and the loading untouched; a 2xx answer resolves iff its envelope passes, except that the corrected path resolves every 2xx blob request |
| Client.Exchange | src/service/http.ts:66-157 | the transport sees the merged, token-bearing options; a loading-tracked exchange that rejects leaves the count one higher, one that resolves leaves a consistent state unchanged; without the corrected blob path it resolves only on a passing 2xx envelope, with that response |
| Client.Unwrap | src/service/http.ts:175 | the verb methods resolve with the body's `data` property and pass rejections and effects through |
| Client.Call | src/service/http.ts:174-197 | `get`/`post`/`put`/`delete` resolve iff the answer is 2xx with code 0, with exactly the envelope's data; they reject with the envelope message, status message or network message otherwise, each carrying the response when one arrived; a `null` 2xx body rejects with the runtime's `TypeError` and no response |
| Client.Upload | src/service/http.ts:202-211 | upload posts the form with the multipart type, every other caller header and option preserved, and settles like the plain post |
| Client.UploadSentConfig | src/service/http.ts:202-210 | the options an upload leaves with carry the multipart type, every other caller header except `Authorization`, and the caller's other options |
| Client.CallOutcomeIgnoresOptions | src/service/http.ts:99-157 | how a verb call settles depends on the transport's answer alone, not on the options or the prior loading state |
| Client.LoadingLeak | src/service/http.ts:110-124 | a loading-tracked call that does not get a passing envelope leaves the count one higher; from idle the indicator stays open |
| Client.LeakPersists | src/service/http.ts:110-156 | from a consistent state with a positive count, any later series of verb calls (any tokens, options, verbs and answers) keeps the state consistent, the count no lower and the indicator open |
| Client.RespondReporting | src/service/http.ts:113 | in the response phase every rejection is logged and toasted iff `showError` is not `false`, except the `null`-body rejection, which reports nothing; resolutions report nothing |
| Client.ExchangeReporting | src/service/http.ts:154 | the same for a whole exchange, in terms of the caller's `showError` |
| Client.ErrorReporting | src/service/http.ts:154 | the same for a whole verb call |
| Client.RespondSuccessToast | src/service/http.ts:105-107 | on a 2xx answer the success toast is present iff `showSuccess` is set, whatever the envelope says |
| Client.SuccessToastBeforeEnvelopeCheck | src/service/http.ts:105-115 | a call with `showSuccess` toasts success on a 2xx answer even when the envelope then rejects it |
| Client.NotFoundEnvelopeRejects | src/service/http.ts:110-115 | HTTP 200 with `{code: 1, message: "not found"}` rejects with "not found" and the response |
| Client.SaveResponse | src/service/http.ts:224-227 | a file is saved iff a name can be derived from the headers; it holds the response body untouched and that name; otherwise the call fails with the decoding error |
| Client.DownloadAsWritten | src/service/http.ts:216-229 | download as written sends a GET with `responseType: 'blob'` and saves only when the answer is a 2xx envelope with code 0, then exactly what the headers name |
| Client.DownloadAsWrittenNeverSaves | src/service/http.ts:216-228 | download as written rejects every blob answer; a 2xx one rejects with `请求失败` |
| Client.Download | src/service/http.ts:216-229 | corrected download: a 2xx answer is saved under the header's name; other answers reject; loading balanced on a 2xx answer, while other answers leak as every call does |
| Client.DownloadSavesBlob | src/service/http.ts:222-228 | corrected download resolves a 2xx blob with the untouched blob and the derived file name |
| FileName.FindToken | src/service/http.ts:237 | returns the leftmost index of `filename=` at or after the start point, or none when there is no occurrence |
| FileName.LineEnd | src/service/http.ts:237 | returns the first line terminator (`\n`, `\r`, U+2028, U+2029) at or after the start point, or the end |
| FileName.Capture | src/service/http.ts:237-238 | a match is the reference capture: the text after the first `filename=` up to the first line terminator; there is no match exactly when `filename=` occurs nowhere |
| FileName.CaptureComplete | src/service/http.ts:237 | that reference capture is unique and is what is computed |
| FileName.FileNameFromHeaders | src/service/http.ts:234-242 | gives `download` for a missing or empty header, a value where `filename=` occurs nowhere, or an empty reference capture |
| FileName.NameOfCapture | src/service/http.ts:237-240 | a header whose reference capture is non-empty names the file by the decoding of that capture |
| FileName.PlainAttachmentName | src/service/http.ts:234-242 | `attachment; filename=report.csv` yields the decoding of `report.csv` |
| FileName.QuotesAndParametersAreKept | src/service/http.ts:237 | quotes and later parameters on the line stay in the capture |

## Findings

| source | as written | input that shows it | evidently intended | confidence | as-written member | corrected member |
|---|---|---|---|---|---|---|
| src/service/http.ts:216-228 | `download` requests `responseType: 'blob'`, but the shared response interceptor still requires `data.code === 0`. A Blob has no `code`, so `undefined !== 0` holds and the call rejects with `请求失败` before the file is saved. | any 2xx answer to `download`, e.g. status 200 with a blob body and `content-disposition: attachment; filename=report.csv` | binary answers skip the envelope check; the blob is saved under the header's file name and the call resolves with it | high, not executed | Client.DownloadAsWrittenNeverSaves | Client.DownloadSavesBlob |

`Client.DownloadAsWritten` is the download as written. `Client.Download` uses the corrected handler `Interceptors.OnBinaryResponse` for blob requests. The envelope check is left in place for every other request.

## Left out

- Transport: interceptor registration, the transport itself and promise asynchrony are not modelled. Each handler is a synchronous function. The transport's answer is an input (`Transport`: a response or none). The axios option merge is approximated by `HeaderMerge.WithInstanceDefaults`, with header names compared exactly (axios compares them case-insensitively).
- When the request-error handler fires is decided by the transport and is not modelled. It is an event with a reason and optional options, and its error carries no response.
- `ElMessage` and `ElLoading` are UI calls. They are recorded as `Effect` values and a boolean indicator flag.
- `localStorage` is replaced by the token, a plain `Option<string>` input.
- `saveBlobAsFile` and the `Blob` construction are browser I/O. The model returns the `SavedFile(blob, fileName)` that would be saved.
- `decodeURIComponent` is a foreign call. It is a function parameter returning `None` for the exception it throws on malformed escapes.
- The constructor defaults from the environment (`baseURL`, `timeout`: src/service/http.ts:41-46, 260-263) are environment lookup with no decision beyond `||`.
- The `code` property of `RequestError` is transport-supplied and not modelled.
- `Client.GetCall`, `Client.PostCall`, `Client.PutCall` and `Client.DeleteCall` carry no contract of their own. They differ only in the verb, URL and body handed to the transport, and `Client.Call` states their contract.
- Other 2xx JSON bodies (a string, a number, an object whose `code` is missing or not a number) are not modelled separately. Each fails the `code !== 0` check, as a blob or a non-zero envelope does.
- The text of the `TypeError` a `null` body throws belongs to the JavaScript engine. `Messages.NullCodeTypeError` uses the V8 wording.
- Response header names are taken as the browser transport delivers them, in lower case. `FileName.FileNameFromHeaders` looks up exactly `content-disposition`; a map keyed with another spelling is not a response the transport produces.
- Numbers in JSON payloads are integers, and HTTP statuses are natural numbers. Floating point is not modelled.
- vite.config.ts, src/router/index.ts and src/main.ts are build, routing and bootstrap configuration with no decisions, and are not part of this model.
