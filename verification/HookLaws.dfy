/** The two request hooks seen from nginx, with the whole edge-proxy behind
    them: which failures and Lambda results leave a request alone. */
module HookLaws {
  import opened Text
  import opened EdgeBridge
  import opened EdgeEvents

  /** The JSON reply as njs reads it; Go always prints the querystring key. */
  function AsExchange(reply: Reply): Exchange {
    match reply
    case ReplyError => ActionError
    case ReplyShortCircuit(response) => ShortCircuit(response.status)
    case ReplyResponse(_) => Continue(None)
    case ReplyContinue(None) => Continue(None)
    case ReplyContinue(Some(r)) => Continue(Some(Override(r.uri, Some(r.querystring))))
  }

  /** The Lambda's result asks for no change of URI or query: it failed, it
      returned nothing usable, or each of the two fields is absent or echoed. */
  ghost predicate AsksNothing(raw: RawRequest, ret: Option<LambdaReturn>) {
    ret.Some? && ret.value.Value? ==>
      && ret.value.response.status == ""
      && (ret.value.request.uri == "" || ret.value.request.uri == raw.uri)
      && (ret.value.request.querystring == "" || ret.value.request.querystring == raw.querystring)
  }

  /** A result without a status. */
  function NoResponse(): CFResponse {
    CFResponse("", "", map[], "", "")
  }

  /** A Lambda that echoes the event's request asks for nothing. */
  lemma EchoAsksNothing(raw: RawRequest, event: CFRequest)
    requires IsEventRequest(raw, event)
    ensures AsksNothing(raw, Some(Value(NoResponse(), event)))
  {
  }

  /** So does a Lambda that returns `{}`. */
  lemma EmptyObjectAsksNothing(raw: RawRequest)
    ensures AsksNothing(raw, Some(Value(NoResponse(), CFRequest("", "", "", map[], ""))))
  {
  }

  /** A short-circuit response with an unreadable status is an error, not a response. */
  ghost predicate Responds(ret: Option<LambdaReturn>, atoi: string -> Option<int>) {
    ret.Some? && ret.value.Value? && ret.value.response.status != "" && atoi(Trim(ret.value.response.status)).Some?
  }

  /** Every way in which the exchange can fail or say nothing. */
  ghost predicate LeavesAlone(ex: Exchange, raw: RawRequest) {
    || ex in {NoDistribution, TransportFailed, Malformed, ActionError, Continue(None)}
    || (ex.Continue? && ex.request.Some? && ex.request.value == Override(raw.uri, Some(raw.querystring)))
  }

  lemma AsksNothingLeavesAlone(binding: Option<EdgeFunction>, raw: RawRequest, ret: Option<LambdaReturn>,
                               atoi: string -> Option<int>, reply: Reply)
    requires IsReply(binding, raw, ret, atoi, reply) && AsksNothing(raw, ret)
    ensures LeavesAlone(AsExchange(reply), raw)
  {
  }

  /** Viewer-request transparency: a missing distribution, a transport failure,
      a malformed or error reply, no binding, `{}` and an echo all redirect to
      the forward location. */
  lemma ViewerRequestTransparent(forward: string, raw: RawRequest, ex: Exchange)
    requires LeavesAlone(ex, raw)
    ensures ViewerRequest(forward, raw.uri, raw.querystring, ex) == Redirect(forward)
  {
  }

  /** Origin-request transparency: the same results all lead to the fail-open
      target. The snapshot carries the path behind the hop's prefix. */
  lemma OriginRequestTransparent(innerPrefix: string, orPrefix: string, uri: string, raw: RawRequest, ex: Exchange)
    requires raw.uri == Tail(uri, orPrefix) && LeavesAlone(ex, raw)
    ensures OriginRequest(innerPrefix, orPrefix, uri, raw.querystring, ex)
         == Redirect(RedirectTarget(innerPrefix, raw.uri, raw.querystring))
  {
  }

  /** The Lambda failed, returned no value, returned `{}`, or returned the event's own request. */
  ghost predicate SaysNothing(event: CFRequest, ret: Option<LambdaReturn>) {
    || ret.None? || !ret.value.Value?
    || ret.value == Value(NoResponse(), CFRequest("", "", "", map[], ""))
    || (ret.value.response.status == "" && ret.value.request == event)
  }

  lemma SaysNothingAsksNothing(raw: RawRequest, event: CFRequest, ret: Option<LambdaReturn>)
    requires IsEventRequest(raw, event) && SaysNothing(event, ret)
    ensures AsksNothing(raw, ret)
  {
    EchoAsksNothing(raw, event);
    EmptyObjectAsksNothing(raw);
  }

  /** Hook transparency from `invoke` to the redirect: for either request hook,
      when the call never reaches the edge-proxy or is answered badly, when no
      binding or endpoint exists, and when the Lambda says nothing, the
      handlers redirect where they do on a transport failure. */
  lemma HooksAreTransparent(eventType: string, binding: Option<EdgeFunction>, raw: RawRequest, response: Option<RawResponse>,
                            lambda: Event -> Option<LambdaReturn>, atoi: string -> Option<int>, itoa: int -> string,
                            event: Option<Event>, reply: Reply, ex: Exchange,
                            forward: string, innerPrefix: string, orPrefix: string, uri: string)
    requires IsRequestHook(eventType) && IsOutcome(eventType, binding, raw, response, lambda, atoi, itoa, event, reply)
    requires event.Some? ==> SaysNothing(event.value.request, lambda(event.value))
    requires ex == AsExchange(reply) || ex in {NoDistribution, TransportFailed, Malformed, ActionError}
    ensures ViewerRequest(forward, raw.uri, raw.querystring, ex)
         == ViewerRequest(forward, raw.uri, raw.querystring, TransportFailed) == Redirect(forward)
    ensures raw.uri == Tail(uri, orPrefix) ==>
              OriginRequest(innerPrefix, orPrefix, uri, raw.querystring, ex)
              == OriginRequest(innerPrefix, orPrefix, uri, raw.querystring, TransportFailed)
  {
    var ret := if event.Some? then lambda(event.value) else None;
    if event.Some? { SaysNothingAsksNothing(raw, event.value.request, ret); }
    AsksNothingLeavesAlone(binding, raw, ret, atoi, reply);
    ViewerRequestTransparent(forward, raw, ex);
    if raw.uri == Tail(uri, orPrefix) {
      OriginRequestTransparent(innerPrefix, orPrefix, uri, raw, ex);
    }
  }

  /** End to end for viewer-request: with a working binding, njs computes an
      override exactly when the Lambda asks for a change and does not respond itself. */
  lemma OverrideExactly(fn: EdgeFunction, raw: RawRequest, ret: LambdaReturn, atoi: string -> Option<int>, reply: Reply)
    requires fn.endpoint != "" && raw.verb != "" && raw.uri != ""
    requires IsReply(Some(fn), raw, Some(ret), atoi, reply) && ret.Value? && ret.response.status == ""
    ensures reply.ReplyContinue?
    ensures OverrideTarget(raw.uri, raw.querystring, AsExchange(reply).request) == "" <==> AsksNothing(raw, Some(ret))
  {
    var o := AsExchange(reply).request.value;
    assert o.uri != "";
  }

  /** What an asked-for change becomes: the Lambda's URI and query, each
      falling back to the original where the Lambda left it empty. */
  lemma OverrideContents(fn: EdgeFunction, raw: RawRequest, ret: LambdaReturn, atoi: string -> Option<int>, reply: Reply)
    requires fn.endpoint != "" && raw.verb != "" && raw.uri != ""
    requires IsReply(Some(fn), raw, Some(ret), atoi, reply) && ret.Value? && ret.response.status == ""
    requires !AsksNothing(raw, Some(ret))
    ensures OverrideTarget(raw.uri, raw.querystring, AsExchange(reply).request)
         == WithQuery(OrElse(ret.request.uri, raw.uri), OrElse(ret.request.querystring, raw.querystring))
  {
  }

  /** What the viewer-request handler does with an override: a changed path or
      query is where it redirects, an unchanged pair goes on to the forward location. */
  lemma ViewerRequestExactly(forward: string, uri: string, args: string, o: Override)
    requires uri != ""
    ensures var newUri := if o.uri != "" then o.uri else uri;
            var newArgs := if o.querystring.Some? then o.querystring.value else args;
            ViewerRequest(forward, uri, args, Continue(Some(o)))
            == Redirect(if newUri == uri && newArgs == args then forward
                        else if newArgs == "" then newUri else newUri + "?" + newArgs)
  {
    assert o.uri != "" ==> o.uri + "?" != "";
    assert uri + "?" != "";
  }

  /** A viewer-request Lambda that asks for a change gets it: the redirect goes
      to its path and query, each falling back to the original where left empty. */
  lemma ViewerRewriteRedirects(fn: EdgeFunction, raw: RawRequest, ret: LambdaReturn, atoi: string -> Option<int>, reply: Reply,
                               forward: string)
    requires fn.endpoint != "" && raw.verb != "" && raw.uri != ""
    requires IsReply(Some(fn), raw, Some(ret), atoi, reply) && ret.Value? && ret.response.status == ""
    ensures var newUri := if ret.request.uri != "" then ret.request.uri else raw.uri;
            var newArgs := if ret.request.querystring != "" then ret.request.querystring else raw.querystring;
            ViewerRequest(forward, raw.uri, raw.querystring, AsExchange(reply))
            == Redirect(if newUri == raw.uri && newArgs == raw.querystring then forward
                        else if newArgs == "" then newUri else newUri + "?" + newArgs)
  {
    ViewerRequestExactly(forward, raw.uri, raw.querystring, AsExchange(reply).request.value);
  }

  /** A request is answered without the origin exactly when the Lambda returned
      a readable status, and then with that status, by either request hook. */
  lemma RespondsExactly(fn: EdgeFunction, raw: RawRequest, ret: Option<LambdaReturn>, atoi: string -> Option<int>, reply: Reply,
                        forward: string, innerPrefix: string, orPrefix: string, uri: string, args: string)
    requires fn.endpoint != "" && raw.verb != "" && raw.uri != ""
    requires IsReply(Some(fn), raw, ret, atoi, reply)
    ensures var viewer := ViewerRequest(forward, raw.uri, raw.querystring, AsExchange(reply));
            var origin := OriginRequest(innerPrefix, orPrefix, uri, args, AsExchange(reply));
            if Responds(ret, atoi) then
              viewer == origin == Respond(atoi(Trim(ret.value.response.status)).value)
            else viewer.Redirect? && origin.Redirect?
  {
  }

  /** The short-circuit reply carries the Lambda's response. */
  lemma ResponseCarried(fn: EdgeFunction, raw: RawRequest, ret: LambdaReturn, atoi: string -> Option<int>, reply: Reply)
    requires fn.endpoint != "" && raw.verb != "" && raw.uri != ""
    requires IsReply(Some(fn), raw, Some(ret), atoi, reply) && Responds(Some(ret), atoi)
    ensures reply.ReplyShortCircuit?
    ensures reply.shortCircuit.description == ret.response.description
    ensures reply.shortCircuit.body == ret.response.body && reply.shortCircuit.bodyEncoding == ret.response.bodyEncoding
  {
  }
}
