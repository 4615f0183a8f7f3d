/** The four interceptor handlers of the client, each a synchronous function
    from the loading state and its input to the new loading state, the
    effects performed in order, and how the step settles. */
module Interceptors {
  import opened Wrappers
  import opened Types
  import opened Loading
  import Messages
  import Notify
  import HeaderMerge

  /** What one handler did. */
  datatype Handled<V> = Handled(loading: LoadingState, effects: seq<Effect>, outcome: Result<V, NormalizedError>)

  /** Request handler, success path: inject the bearer token, then count a
      loading-tracked request. The options pass on, headers aside, unchanged. */
  function OnRequest(s: LoadingState, token: Option<string>, config: Config): (h: Handled<Config>)
    ensures h.outcome.Ok?
    ensures h.outcome.value == config.(headers := HeaderMerge.WithBearer(token, config.headers))
    ensures config.showLoading ==> h.loading.count == s.count + 1
    ensures !config.showLoading ==> h.loading == s && h.effects == []
    ensures h.effects == (if config.showLoading && s.count == 0 then [ShowIndicator] else [])
  {
    var sent := config.(headers := HeaderMerge.WithBearer(token, config.headers));
    if config.showLoading then
      var t := Acquire(s);
      Handled(t.state, t.effects, Ok(sent))
    else
      Handled(s, [], Ok(sent))
  }

  /** Request handler, failure path: prefix the message, always notify (no
      `showError` is passed), log, and uncount a loading-tracked request. */
  function OnRequestError(s: LoadingState, reason: string, config: Option<Config>): (h: Handled<Config>)
    ensures h.outcome.Err?
    ensures h.outcome.error.message == Messages.ConfigErrorMessage(reason)
    ensures h.outcome.error.response.None?
    ensures |h.effects| >= 2
    ensures h.effects[0] == ErrorToast(h.outcome.error.message)
    ensures h.effects[1] == Log(h.outcome.error)
    ensures config.Some? && config.value.showLoading ==> h.loading.count == s.count - 1
    ensures config.Some? && config.value.showLoading ==>
      h.loading == Release(s).state && h.effects == Notify.ReportError(h.outcome.error, None) + Release(s).effects
    ensures !(config.Some? && config.value.showLoading) ==> h.loading == s && |h.effects| == 2
  {
    var error := NormalizedError(Messages.ConfigErrorMessage(reason), None);
    var reported := Notify.ReportError(error, None);
    if config.Some? && config.value.showLoading then
      var t := Release(s);
      Handled(t.state, reported + t.effects, Err(error))
    else
      Handled(s, reported, Err(error))
  }

  /** The success notification a 2xx response triggers, before anything else. */
  function SuccessEffects(config: Config): (effects: seq<Effect>)
    ensures config.showSuccess <==> effects == [SuccessToast(Messages.SuccessText(config.successMessage))]
    ensures !config.showSuccess <==> effects == []
  {
    if config.showSuccess then [SuccessToast(Messages.SuccessText(config.successMessage))] else []
  }

  /** The backend's success signal: an envelope whose `code` is exactly 0. */
  predicate EnvelopeOk(body: Body) {
    body.Envelope? && body.code == 0
  }

  /** Response handler, success path (HTTP 2xx): success toast if asked; then
      a failing envelope rejects with its message and the response, reported
      with the caller's `showError`, and does NOT uncount the loading; a
      passing envelope uncounts and resolves with the whole response. A
      `null` body makes the `code` lookup throw: the call rejects with the
      runtime's error, unreported and still counted. */
  function OnResponse(s: LoadingState, response: HttpResponse, config: Config): (h: Handled<HttpResponse>)
    ensures h.outcome.Ok? <==> EnvelopeOk(response.body)
    ensures h.outcome.Ok? ==> h.outcome.value == response
    ensures |SuccessEffects(config)| <= |h.effects| && h.effects[..|SuccessEffects(config)|] == SuccessEffects(config)
    ensures h.outcome.Err? && !response.body.NullBody? ==>
      && h.outcome.error == NormalizedError(Messages.EnvelopeFailureMessage(response.body), Some(response))
      && h.loading == s
      && h.effects == SuccessEffects(config) + Notify.ReportError(h.outcome.error, config.showError)
    ensures response.body.NullBody? ==>
      && h.outcome == Err(NormalizedError(Messages.NullCodeTypeError, None))
      && h.loading == s
      && h.effects == SuccessEffects(config)
    ensures h.outcome.Ok? && config.showLoading ==> h.loading.count == s.count - 1
    ensures h.outcome.Ok? && config.showLoading ==>
      h.loading == Release(s).state && h.effects == SuccessEffects(config) + Release(s).effects
    ensures h.outcome.Ok? && !config.showLoading ==> h.loading == s && h.effects == SuccessEffects(config)
  {
    var toast := SuccessEffects(config);
    if response.body.NullBody? then
      Handled(s, toast, Err(NormalizedError(Messages.NullCodeTypeError, None)))
    else if !EnvelopeOk(response.body) then
      var error := NormalizedError(Messages.EnvelopeFailureMessage(response.body), Some(response));
      Handled(s, toast + Notify.ReportError(error, config.showError), Err(error))
    else if config.showLoading then
      var t := Release(s);
      Handled(t.state, toast + t.effects, Ok(response))
    else
      Handled(s, toast, Ok(response))
  }

  /** Corrected response handler for a binary (`responseType: 'blob'`)
      request: a blob carries no envelope, so there is no `code` to check;
      the success toast and the loading release happen as on a passing
      envelope, and the call resolves with the whole response. */
  function OnBinaryResponse(s: LoadingState, response: HttpResponse, config: Config): (h: Handled<HttpResponse>)
    ensures h.outcome == Ok(response)
    ensures config.showLoading ==> h.loading.count == s.count - 1
    ensures config.showLoading ==>
      h.loading == Release(s).state && h.effects == SuccessEffects(config) + Release(s).effects
    ensures !config.showLoading ==> h.loading == s && h.effects == SuccessEffects(config)
    ensures Consistent(s) ==> Consistent(h.loading)
    ensures |SuccessEffects(config)| <= |h.effects| && h.effects[..|SuccessEffects(config)|] == SuccessEffects(config)
  {
    var toast := SuccessEffects(config);
    if config.showLoading then
      var t := Release(s);
      Handled(t.state, toast + t.effects, Ok(response))
    else
      Handled(s, toast, Ok(response))
  }

  /** On a passing envelope the corrected handler does exactly what the
      original one does. */
  lemma BinaryHandlerAgreesOnPassingEnvelope(s: LoadingState, response: HttpResponse, config: Config)
    requires EnvelopeOk(response.body)
    ensures OnBinaryResponse(s, response, config) == OnResponse(s, response, config)
  {
  }

  /** Response handler, failure path (no response, or a non-2xx one): the
      message comes from the network-error text or the status table; it is
      reported with the caller's `showError` (absent options: default). The
      loading state is never touched. */
  function OnResponseError(s: LoadingState, response: Option<HttpResponse>, config: Option<Config>): (h: Handled<HttpResponse>)
    ensures h.loading == s
    ensures h.outcome.Err?
    ensures h.outcome.error.response == response
    ensures Messages.ReadFailure(h.outcome.error.message) ==
      match response
      case None => Messages.Offline
      case Some(r) =>
        if Messages.InStatusTable(r.status) then Messages.Listed(r.status) else Messages.Generic(r.status, r.statusText)
    ensures h.effects == Notify.ReportError(h.outcome.error, if config.Some? then config.value.showError else None)
  {
    var error := NormalizedError(Messages.ResponseFailureMessage(response), response);
    Handled(s, Notify.ReportError(error, if config.Some? then config.value.showError else None), Err(error))
  }

  /** One interceptor invocation. */
  datatype Event =
    | RequestSent(token: Option<string>, config: Config)
    | RequestFailed(reason: string, failedConfig: Option<Config>)
    | ResponseReceived(response: HttpResponse, received: Config)
    | ResponseFailed(failure: Option<HttpResponse>, failedWith: Option<Config>)

  /** Applies one event to the loading state, keeping the effects. */
  function Step(s: LoadingState, e: Event): Transition {
    match e
    case RequestSent(token, c) =>
      var h := OnRequest(s, token, c); Transition(h.loading, h.effects)
    case RequestFailed(reason, c) =>
      var h := OnRequestError(s, reason, c); Transition(h.loading, h.effects)
    case ResponseReceived(r, c) =>
      var h := OnResponse(s, r, c); Transition(h.loading, h.effects)
    case ResponseFailed(r, c) =>
      var h := OnResponseError(s, r, c); Transition(h.loading, h.effects)
  }

  /** Applies a sequence of events in order, collecting all effects. */
  function Run(s: LoadingState, events: seq<Event>): Transition
    decreases |events|
  {
    if |events| == 0 then Transition(s, [])
    else
      var first := Step(s, events[0]);
      var rest := Run(first.state, events[1..]);
      Transition(rest.state, first.effects + rest.effects)
  }

  /** Whether an event counts a loading-tracked request up (+1), down (-1) or not at all. */
  function Delta(e: Event): int {
    match e
    case RequestSent(_, c) => if c.showLoading then 1 else 0
    case RequestFailed(_, c) => if c.Some? && c.value.showLoading then -1 else 0
    case ResponseReceived(r, c) => if EnvelopeOk(r.body) && c.showLoading then -1 else 0
    case ResponseFailed(_, _) => 0
  }

  /** Each event keeps the indicator consistent with the count, moves the
      count by its delta, and creates or closes the indicator only on the
      0 -> 1 and 1 -> 0 edges. */
  lemma StepKeepsConsistent(s: LoadingState, e: Event)
    requires Consistent(s)
    ensures var t := Step(s, e);
      && Consistent(t.state)
      && t.state.count == s.count + Delta(e)
      && (ShowIndicator in t.effects <==> s.count == 0 && t.state.count == 1)
      && (CloseIndicator in t.effects <==> s.count == 1 && t.state.count == 0)
      && (t.state.indicator != s.indicator <==> (s.count == 0 && t.state.count == 1) || (s.count == 1 && t.state.count == 0))
  {
    match e
    case RequestSent(token, c) =>
    case RequestFailed(reason, c) =>
      var h := OnRequestError(s, reason, c);
      assert ShowIndicator !in h.effects[..2];
      if c.Some? && c.value.showLoading {
        assert h.effects == h.effects[..2] + Release(s).effects;
      }
    case ResponseReceived(r, c) =>
      var h := OnResponse(s, r, c);
      if r.body.NullBody? {
        assert h.effects == SuccessEffects(c);
      } else if !EnvelopeOk(r.body) {
        assert h.effects == SuccessEffects(c) + Notify.ReportError(h.outcome.error, c.showError);
      } else if c.showLoading {
        assert h.effects == SuccessEffects(c) + Release(s).effects;
      }
    case ResponseFailed(r, c) =>
  }

  /** The indicator/count invariant holds after any sequence of interceptor
      invocations from a consistent state, and the count is the start plus
      the sum of the deltas. */
  lemma {:induction false} RunKeepsConsistent(s: LoadingState, events: seq<Event>)
    requires Consistent(s)
    ensures Consistent(Run(s, events).state)
    ensures Run(s, events).state.count == s.count + SumDelta(events)
    decreases |events|
  {
    if |events| > 0 {
      StepKeepsConsistent(s, events[0]);
      RunKeepsConsistent(Step(s, events[0]).state, events[1..]);
    }
  }

  /** The net change of the count over a sequence of events. */
  function SumDelta(events: seq<Event>): int
    decreases |events|
  {
    if |events| == 0 then 0 else Delta(events[0]) + SumDelta(events[1..])
  }

  /** From a freshly created client, any sequence of events leaves the
      indicator open exactly when the count is positive. */
  lemma IndicatorIffPositive(events: seq<Event>)
    ensures Run(Idle, events).state.indicator <==> Run(Idle, events).state.count > 0
  {
    RunKeepsConsistent(Idle, events);
  }

  /** Running two sequences one after the other is running their concatenation. */
  lemma {:induction false} RunAppend(s: LoadingState, a: seq<Event>, b: seq<Event>)
    ensures Run(s, a + b).state == Run(Run(s, a).state, b).state
    ensures Run(s, a + b).effects == Run(s, a).effects + Run(Run(s, a).state, b).effects
    decreases |a|
  {
    if |a| > 0 {
      assert (a + b)[0] == a[0];
      assert (a + b)[1..] == a[1..] + b;
      RunAppend(Step(s, a[0]).state, a[1..], b);
    } else {
      assert a + b == b;
    }
  }

  /** Every event is a loading-tracked request, each with its own token
      and options. */
  predicate TrackedSends(sends: seq<Event>) {
    forall i :: 0 <= i < |sends| ==> sends[i].RequestSent? && sends[i].config.showLoading
  }

  /** Every event is a passing 2xx response to a loading-tracked request,
      each with its own response and options. */
  predicate PassingReceives(receives: seq<Event>) {
    forall i :: 0 <= i < |receives| ==>
      receives[i].ResponseReceived? && receives[i].received.showLoading && EnvelopeOk(receives[i].response.body)
  }

  /** While the indicator is already open, any further loading-tracked
      requests only count up, and emit nothing. */
  lemma {:induction false} SendsWhileOpen(k: int, sends: seq<Event>)
    requires k >= 1 && TrackedSends(sends)
    ensures Run(LoadingState(k, true), sends) == Transition(LoadingState(k + |sends|, true), [])
    decreases |sends|
  {
    if |sends| > 0 {
      assert Step(LoadingState(k, true), sends[0]) == Transition(LoadingState(k + 1, true), []);
      assert TrackedSends(sends[1..]) by {
        forall i | 0 <= i < |sends[1..]| ensures sends[1..][i] == sends[i + 1] { }
      }
      SendsWhileOpen(k + 1, sends[1..]);
    }
  }

  /** Any `n` passing loading-tracked responses against a count of `n`: the
      client is idle again, and the effects are each response's success toast
      in order, then the indicator's one close; nothing opens it. */
  lemma ReceivesUntilClosed(receives: seq<Event>)
    requires |receives| >= 1 && PassingReceives(receives)
    ensures var t := Run(LoadingState(|receives|, true), receives);
      && t.state == Idle
      && t.effects == Toasts(receives) + [CloseIndicator]
      && multiset(t.effects)[CloseIndicator] == 1
      && multiset(t.effects)[ShowIndicator] == 0
  {
    ReceivesEndIdle(receives);
    ReceivesEffects(receives);
    ToastsCarryNoIndicator(receives);
    var t := Toasts(receives);
    assert multiset(t + [CloseIndicator]) == multiset(t) + multiset([CloseIndicator]);
  }

  /** The success toasts of a run of answered responses, in order. */
  function Toasts(receives: seq<Event>): seq<Effect> {
    if |receives| == 0 then []
    else
      var head := if receives[0].ResponseReceived? then SuccessEffects(receives[0].received) else [];
      head + Toasts(receives[1..])
  }

  /** Success toasts never touch the loading indicator. */
  lemma {:induction false} ToastsCarryNoIndicator(receives: seq<Event>)
    ensures multiset(Toasts(receives))[CloseIndicator] == 0
    ensures multiset(Toasts(receives))[ShowIndicator] == 0
    decreases |receives|
  {
    if |receives| > 0 {
      ToastsCarryNoIndicator(receives[1..]);
      var head := if receives[0].ResponseReceived? then SuccessEffects(receives[0].received) else [];
      assert multiset(head + Toasts(receives[1..])) == multiset(head) + multiset(Toasts(receives[1..]));
    }
  }

  /** The state half of `ReceivesUntilClosed`: the count runs down to idle. */
  lemma {:induction false} ReceivesEndIdle(receives: seq<Event>)
    requires |receives| >= 1 && PassingReceives(receives)
    ensures Run(LoadingState(|receives|, true), receives).state == Idle
    decreases |receives|
  {
    var toast := FirstReceive(receives);
    if |receives| > 1 {
      ReceivesEndIdle(receives[1..]);
    }
  }

  /** The effects half of `ReceivesUntilClosed`: the toasts, then one close. */
  lemma {:induction false} ReceivesEffects(receives: seq<Event>)
    requires |receives| >= 1 && PassingReceives(receives)
    ensures Run(LoadingState(|receives|, true), receives).effects == Toasts(receives) + [CloseIndicator]
    decreases |receives|
  {
    var n := |receives|;
    var toast := FirstReceive(receives);
    var rest := Run(LoadingState(n - 1, n > 1), receives[1..]);
    assert Toasts(receives) == toast + Toasts(receives[1..]);
    if n == 1 {
      assert rest.effects == [] && Toasts(receives[1..]) == [];
    } else {
      ReceivesEffects(receives[1..]);
    }
    CloseComesLast(toast, if n == 1 then [CloseIndicator] else [], rest.effects, Toasts(receives[1..]));
  }

  /** The first response's effects joined to the rest's: the close is at the
      end either way, whether the first response or a later one emits it. */
  lemma CloseComesLast(toast: seq<Effect>, close: seq<Effect>, rest: seq<Effect>, later: seq<Effect>)
    requires (close == [CloseIndicator] && rest == [] && later == [])
          || (close == [] && rest == later + [CloseIndicator])
    ensures toast + close + rest == (toast + later) + [CloseIndicator]
  {
  }

  /** The first of a run of passing responses against a count of `n`: the
      count drops to `n - 1`, its success toast is emitted, followed by the
      close when `n` is 1, and the rest of the run still passes. Returns
      that success toast. */
  lemma FirstReceive(receives: seq<Event>) returns (toast: seq<Effect>)
    requires |receives| >= 1 && PassingReceives(receives)
    ensures PassingReceives(receives[1..])
    ensures toast == SuccessEffects(receives[0].received)
    ensures multiset(toast)[CloseIndicator] == 0 && multiset(toast)[ShowIndicator] == 0
    ensures var n := |receives|;
      Step(LoadingState(n, true), receives[0])
        == Transition(LoadingState(n - 1, n > 1), toast + (if n == 1 then [CloseIndicator] else []))
    ensures var n := |receives|;
      var rest := Run(LoadingState(n - 1, n > 1), receives[1..]);
      Run(LoadingState(n, true), receives)
        == Transition(rest.state, toast + (if n == 1 then [CloseIndicator] else []) + rest.effects)
  {
    var e := receives[0];
    assert e.ResponseReceived? && e.received.showLoading && EnvelopeOk(e.response.body);
    forall i | 0 <= i < |receives[1..]| ensures receives[1..][i] == receives[i + 1] { }
    toast := SuccessEffects(e.received);
    PassingResponseStep(|receives|, e.response, e.received);
  }

  /** One passing loading-tracked response while `k` requests are counted:
      the count drops by one and the indicator closes only at the last. */
  lemma PassingResponseStep(k: int, response: HttpResponse, config: Config)
    requires k >= 1 && config.showLoading && EnvelopeOk(response.body)
    ensures Step(LoadingState(k, true), ResponseReceived(response, config))
         == Transition(LoadingState(k - 1, k > 1), SuccessEffects(config) + (if k == 1 then [CloseIndicator] else []))
  {
    var h := OnResponse(LoadingState(k, true), response, config);
    assert h.effects == SuccessEffects(config) + Release(LoadingState(k, true)).effects;
  }

  /** Any N loading-tracked calls in flight at once (all sent before the
      first answer) that all pass, whatever their tokens, options and
      responses, show the indicator once, close it once, and leave the
      client idle. */
  lemma OverlappingCallsShowOnce(sends: seq<Event>, receives: seq<Event>)
    requires |sends| == |receives| >= 1 && TrackedSends(sends) && PassingReceives(receives)
    ensures var t := Run(Idle, sends + receives);
      && t.state == Idle
      && multiset(t.effects)[ShowIndicator] == 1
      && multiset(t.effects)[CloseIndicator] == 1
  {
    var n := |sends|;
    RunAppend(Idle, sends, receives);
    var first := Step(Idle, sends[0]);
    assert first == Transition(LoadingState(1, true), [ShowIndicator]);
    assert TrackedSends(sends[1..]) by {
      forall i | 0 <= i < |sends[1..]| ensures sends[1..][i] == sends[i + 1] { }
    }
    SendsWhileOpen(1, sends[1..]);
    var up := Run(Idle, sends);
    assert up == Transition(LoadingState(n, true), [ShowIndicator] + []);
    ReceivesUntilClosed(receives);
    var closed := Run(LoadingState(n, true), receives);
    assert multiset(up.effects + closed.effects) == multiset(up.effects) + multiset(closed.effects);
  }

  /** The count is not clamped: a loading-tracked request failure on an idle
      client drives it to -1, with the indicator still closed. */
  lemma RequestFailureCanGoNegative(reason: string, config: Config)
    requires config.showLoading
    ensures Step(Idle, RequestFailed(reason, Some(config))).state == LoadingState(-1, false)
  {
  }
}
