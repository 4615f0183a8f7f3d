/** The user-facing texts of the client: the fixed strings, the HTTP status
    table, the request-configuration prefix and the envelope fallback. */
module Messages {
  import opened Wrappers
  import opened Types
  import Decimal

  const ConfigErrorPrefix: string := "请求配置错误: "
  const UnknownError: string := "未知错误"
  const NetworkError: string := "网络错误，请检查网络连接"
  const Unauthorized: string := "未授权，请重新登录"
  const Forbidden: string := "拒绝访问"
  const NotFound: string := "请求资源不存在"
  const ServerError: string := "服务器内部错误"
  const StatusErrorPrefix: string := "请求错误: "
  const StatusSeparator: string := " - "
  const EnvelopeFailure: string := "请求失败"
  const DefaultSuccess: string := "操作成功"

  /** `a || b` for strings: the empty string is falsy. */
  function OrElse(a: string, b: string): string {
    if a == "" then b else a
  }

  /** Statuses with a fixed message of their own. */
  predicate InStatusTable(status: nat) {
    status == 401 || status == 403 || status == 404 || status == 500
  }

  /** The message of a request whose configuration could not be built:
      the prefix, then the underlying message or the unknown-error text. */
  function ConfigErrorMessage(reason: string): (m: string)
    ensures |m| > |ConfigErrorPrefix|
    ensures m[..|ConfigErrorPrefix|] == ConfigErrorPrefix
  {
    ConfigErrorPrefix + OrElse(reason, UnknownError)
  }

  /** The message of a received non-2xx response, by status: a table entry
      for a listed status, otherwise the generic template, which reads back
      into the status and its text. */
  function StatusMessage(status: nat, statusText: string): (m: string)
    ensures ReadFailure(m) == if InStatusTable(status) then Listed(status) else Generic(status, statusText)
  {
    match status
    case 401 => Unauthorized
    case 403 => Forbidden
    case 404 => NotFound
    case 500 => ServerError
    case _ =>
      var m := StatusErrorPrefix + Decimal.ToDecimal(status) + StatusSeparator + statusText;
      GenericRoundTrip(status, statusText);
      FixedTextsAreNotGeneric();
      m
  }

  /** The message of a transport failure: no response at all, or a non-2xx
      one. The message determines its cause: no response, the listed status,
      or the status and status text of any other one. */
  function ResponseFailureMessage(response: Option<HttpResponse>): (m: string)
    ensures ReadFailure(m) ==
      match response
      case None => Offline
      case Some(r) =>
        if InStatusTable(r.status) then Listed(r.status) else Generic(r.status, r.statusText)
  {
    match response
    case None => NetworkError
    case Some(r) => StatusMessage(r.status, r.statusText)
  }

  /** The message of a 2xx response whose envelope reports failure: the
      envelope's message, or the fallback when it is empty or absent (a blob
      body has no `message` property). */
  function EnvelopeFailureMessage(body: Body): (m: string)
    requires !body.NullBody?
    ensures m != ""
    ensures body.Envelope? && body.message != "" ==> m == body.message
    ensures !(body.Envelope? && body.message != "") ==> m == EnvelopeFailure
  {
    match body
    case Envelope(_, _, message) => OrElse(message, EnvelopeFailure)
    case Blob(_) => EnvelopeFailure
  }

  /** Not a text of the client: the runtime's `TypeError` message for
      reading `code` of `null`, as a V8-based engine words it. */
  const NullCodeTypeError: string := "Cannot read properties of null (reading 'code')"

  /** The text of the success notification. */
  function SuccessText(successMessage: string): (t: string)
    ensures t != ""
    ensures successMessage != "" ==> t == successMessage
    ensures successMessage == "" ==> t == DefaultSuccess
  {
    OrElse(successMessage, DefaultSuccess)
  }

  /** What a response-failure message says about its cause. */
  datatype Reading =
    | Offline                                 // the network-error text
    | Listed(status: nat)                     // one of the four table entries
    | Generic(status: nat, statusText: string) // the generic template
    | Unreadable                              // none of the above

  /** Reads a response-failure message back into its cause. */
  function ReadFailure(m: string): Reading {
    if m == NetworkError then Offline
    else if m == Unauthorized then Listed(401)
    else if m == Forbidden then Listed(403)
    else if m == NotFound then Listed(404)
    else if m == ServerError then Listed(500)
    else match ReadGeneric(m)
      case Some(p) => Generic(p.0, p.1)
      case None => Unreadable
  }

  /** Parses `StatusErrorPrefix + digits + StatusSeparator + text`, where the
      digits are a status as it is interpolated: no leading zero. */
  function ReadGeneric(m: string): Option<(nat, string)> {
    if |m| < |StatusErrorPrefix| || m[..|StatusErrorPrefix|] != StatusErrorPrefix then None
    else
      var split := Decimal.SplitDigits(m[|StatusErrorPrefix|..]);
      var digits := split.0;
      var rest := split.1;
      if !Decimal.Canonical(digits) || |rest| < |StatusSeparator| || rest[..|StatusSeparator|] != StatusSeparator then None
      else Some((Decimal.Value(digits), rest[|StatusSeparator|..]))
  }

  /** The cause of a stripped configuration message: everything after the prefix. */
  function ReadConfigReason(m: string): Option<string> {
    if |m| < |ConfigErrorPrefix| || m[..|ConfigErrorPrefix|] != ConfigErrorPrefix then None
    else Some(m[|ConfigErrorPrefix|..])
  }

  /** A configuration-error message gives back its reason, or the
      unknown-error text when the reason was empty. */
  lemma ConfigReasonRoundTrip(reason: string)
    ensures ReadConfigReason(ConfigErrorMessage(reason)) == Some(if reason == "" then UnknownError else reason)
  {
    var m := ConfigErrorMessage(reason);
    assert m[|ConfigErrorPrefix|..] == OrElse(reason, UnknownError);
  }

  /** The generic template is read back into its status and status text. */
  lemma {:induction false} GenericRoundTrip(status: nat, statusText: string)
    ensures ReadGeneric(StatusErrorPrefix + Decimal.ToDecimal(status) + StatusSeparator + statusText)
            == Some((status, statusText))
  {
    var d := Decimal.ToDecimal(status);
    var tail := StatusSeparator + statusText;
    var m := StatusErrorPrefix + d + tail;
    assert m == StatusErrorPrefix + (d + tail);
    assert m[..|StatusErrorPrefix|] == StatusErrorPrefix;
    assert m[|StatusErrorPrefix|..] == d + tail;
    assert tail[0] == ' ';
    Decimal.SplitDigitsOfPrefix(d, tail);
    var split := Decimal.SplitDigits(m[|StatusErrorPrefix|..]);
    assert split == (d, tail);
    assert |d| > 0;
    assert tail[..|StatusSeparator|] == StatusSeparator;
    assert tail[|StatusSeparator|..] == statusText;
    Decimal.ValueOfDecimal(status);
    assert Decimal.Value(d) == status;
    assert StatusErrorPrefix + d + StatusSeparator + statusText == m;
  }

  /** None of the fixed texts parses as the generic template. */
  lemma FixedTextsAreNotGeneric()
    ensures ReadGeneric(NetworkError) == None
    ensures ReadGeneric(Unauthorized) == None
    ensures ReadGeneric(Forbidden) == None
    ensures ReadGeneric(NotFound) == None
    ensures ReadGeneric(ServerError) == None
  {
    assert NetworkError[..|StatusErrorPrefix|] != StatusErrorPrefix by {
      assert NetworkError[0] != StatusErrorPrefix[0];
    }
    assert Unauthorized[..|StatusErrorPrefix|] != StatusErrorPrefix by {
      assert Unauthorized[0] != StatusErrorPrefix[0];
    }
    assert NotFound[..|StatusErrorPrefix|] != StatusErrorPrefix by {
      assert NotFound[2] != StatusErrorPrefix[2];
    }
    assert ServerError[..|StatusErrorPrefix|] != StatusErrorPrefix by {
      assert ServerError[0] != StatusErrorPrefix[0];
    }
  }

  /** Whatever the generic reading accepts is exactly the template of what
      it reads: the template and its reading are inverse both ways. */
  lemma ReadGenericSound(m: string, status: nat, statusText: string)
    requires ReadGeneric(m) == Some((status, statusText))
    ensures m == StatusErrorPrefix + Decimal.ToDecimal(status) + StatusSeparator + statusText
  {
    var split := Decimal.SplitDigits(m[|StatusErrorPrefix|..]);
    Decimal.CanonicalIsDecimal(split.0);
    assert split.1 == StatusSeparator + statusText;
    assert m == m[..|StatusErrorPrefix|] + m[|StatusErrorPrefix|..];
  }

  /** A response-failure message is determined by its reading: two messages
      that read as the same cause are the same message. */
  lemma ReadingDeterminesMessage(m: string, n: string)
    requires ReadFailure(m) == ReadFailure(n) && !ReadFailure(m).Unreadable?
    ensures m == n
  {
    if ReadFailure(m).Generic? {
      var g := ReadFailure(m);
      ReadGenericSound(m, g.status, g.statusText);
      ReadGenericSound(n, g.status, g.statusText);
    }
  }
}
