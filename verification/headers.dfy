/** Header and option merges: the instance defaults under every call, the
    bearer token the request interceptor adds, and the options `upload` and
    `download` force. */
module HeaderMerge {
  import opened Wrappers
  import opened Types

  const AuthorizationKey: string := "Authorization"
  const BearerPrefix: string := "Bearer "
  const ContentTypeKey: string := "Content-Type"
  const JsonContentType: string := "application/json;charset=utf-8"
  const MultipartContentType: string := "multipart/form-data"
  const BlobResponseType: string := "blob"

  /** The headers the client instance is created with. */
  const InstanceHeaders: Headers := map[ContentTypeKey := JsonContentType]

  /** The stored token is used only when present and non-empty (truthy). */
  predicate UsableToken(token: Option<string>) {
    token.Some? && token.value != ""
  }

  /** The request interceptor's header step: with a usable token and a
      headers object, `Authorization` becomes `Bearer <token>`; otherwise the
      headers are left exactly as they were. */
  function WithBearer(token: Option<string>, headers: Option<Headers>): (r: Option<Headers>)
    ensures r.Some? <==> headers.Some?
    ensures !(UsableToken(token) && headers.Some?) ==> r == headers
    ensures UsableToken(token) && headers.Some? ==>
      && r.value.Keys == headers.value.Keys + {AuthorizationKey}
      && r.value[AuthorizationKey] == BearerPrefix + token.value
      && forall k :: k in headers.value && k != AuthorizationKey ==> r.value[k] == headers.value[k]
  {
    if UsableToken(token) && headers.Some? then
      Some(headers.value[AuthorizationKey := BearerPrefix + token.value])
    else
      headers
  }

  /** The options the request interceptor sees for a call: the call's own
      options, with the instance headers underneath the call's headers. */
  function WithInstanceDefaults(options: Option<Config>): (c: Config)
    ensures c.headers.Some?
    ensures c == options.GetOr(NoOptions).(headers := c.headers)
    ensures c.headers.value.Keys == InstanceHeaders.Keys + options.GetOr(NoOptions).headers.GetOr(map[]).Keys
    ensures forall k :: options.Some? && options.value.headers.Some? && k in options.value.headers.value ==>
      c.headers.value[k] == options.value.headers.value[k]
    ensures !(options.Some? && options.value.headers.Some? && ContentTypeKey in options.value.headers.value) ==>
      c.headers.value[ContentTypeKey] == JsonContentType
  {
    match options
    case None => NoOptions.(headers := Some(InstanceHeaders))
    case Some(o) => o.(headers := Some(InstanceHeaders + o.headers.GetOr(map[])))
  }

  /** The options `upload` passes on: the caller's options, with their
      headers copied and `Content-Type` forced to the multipart value. */
  function UploadOptions(options: Option<Config>): (c: Config)
    ensures c.headers.Some?
    ensures ContentTypeKey in c.headers.value && c.headers.value[ContentTypeKey] == MultipartContentType
    ensures options.None? ==> c == NoOptions.(headers := c.headers)
    ensures options.Some? ==> c == options.value.(headers := c.headers)
    ensures forall k :: k != ContentTypeKey ==>
      (k in c.headers.value <==> options.Some? && options.value.headers.Some? && k in options.value.headers.value)
    ensures forall k :: k != ContentTypeKey && options.Some? && options.value.headers.Some? && k in options.value.headers.value ==>
      c.headers.value[k] == options.value.headers.value[k]
  {
    var base := options.GetOr(NoOptions);
    base.(headers := Some(base.headers.GetOr(map[])[ContentTypeKey := MultipartContentType]))
  }

  /** The options `download` passes on: the caller's, with a binary response type. */
  function DownloadOptions(options: Option<Config>): (c: Config)
    ensures c.responseType == Some(BlobResponseType)
    ensures options.None? ==> c == NoOptions.(responseType := c.responseType)
    ensures options.Some? ==> c == options.value.(responseType := c.responseType)
  {
    options.GetOr(NoOptions).(responseType := Some(BlobResponseType))
  }

  /** Stripping the scheme from the header gives back the stored token. */
  lemma BearerCarriesToken(token: Option<string>, headers: Option<Headers>)
    requires UsableToken(token) && headers.Some?
    ensures var v := WithBearer(token, headers).value[AuthorizationKey];
      |v| > |BearerPrefix| && v[..|BearerPrefix|] == BearerPrefix && v[|BearerPrefix|..] == token.value
  {
    var v := WithBearer(token, headers).value[AuthorizationKey];
    assert v == BearerPrefix + token.value;
  }

  /** Injecting the same token twice is the same as once. */
  lemma BearerIdempotent(token: Option<string>, headers: Option<Headers>)
    ensures WithBearer(token, WithBearer(token, headers)) == WithBearer(token, headers)
  {
    if UsableToken(token) && headers.Some? {
      var h := headers.value[AuthorizationKey := BearerPrefix + token.value];
      assert h[AuthorizationKey := BearerPrefix + token.value] == h;
    }
  }

  /** Uploading options that were already upload options changes nothing. */
  lemma UploadOptionsIdempotent(options: Option<Config>)
    ensures UploadOptions(Some(UploadOptions(options))) == UploadOptions(options)
  {
    var c := UploadOptions(options);
    var h := c.headers.value;
    assert h[ContentTypeKey := MultipartContentType] == h;
  }

  /** The multipart type survives both the instance defaults and the token
      injection: the request leaves with it whatever the caller passed. */
  lemma UploadContentTypeReachesTransport(token: Option<string>, options: Option<Config>)
    ensures var sent := WithBearer(token, WithInstanceDefaults(Some(UploadOptions(options))).headers);
      sent.Some? && sent.value[ContentTypeKey] == MultipartContentType
  {
  }
}
