/** A cache miss from the compiled configuration through the njs handlers, the
    edge-proxy and the Lambda to the origin. */
module EndToEnd {
  import opened Text
  import opened EdgeBridge
  import opened EdgeEvents
  import opened HookLaws
  import opened Routing
  import opened RoutingLaws

  lemma LeavesAloneIsTransparent(ex: Exchange, raw: RawRequest)
    requires LeavesAlone(ex, raw)
    ensures Transparent(ex, raw.uri, raw.querystring)
  {
  }

  /** Whatever hooks a behavior has: if the origin-request Lambda, shown the
      path and query that reach its hop, fails or asks for nothing, every chain
      that serves the miss ends at the behavior's own origin, and with the
      client's path and query exactly when no hop re-joins them or the path
      holds no `?`. */
  lemma MissReachesOriginUnchanged(bs: seq<Behavior>, i: nat, path: string, args: string,
                                   binding: Option<EdgeFunction>, raw: RawRequest, ret: Option<LambdaReturn>,
                                   atoi: string -> Option<int>, reply: Reply,
                                   hops: seq<Location>, end: Arrival)
    requires Build(bs).Success? && i < |bs| && path != "" && path[0] == '/'
    requires var v := Build(bs).value.outer[i];
             && (raw.uri, raw.querystring) == SeenInside(v, path, args)
             && Chain(Build(bs).value.inners, Enter(v, path, args).0, Enter(v, path, args).1, AsExchange(reply), hops, end)
    requires IsReply(binding, raw, ret, atoi, reply) && AsksNothing(raw, ret)
    ensures end.path == path && end.args == args <==> !Rejoins(Build(bs).value.outer[i]) || '?' !in path
    ensures end.upstream == Upstream(bs[i].originId)
  {
    var v, ex := Build(bs).value.outer[i], AsExchange(reply);
    AsksNothingLeavesAlone(binding, raw, ret, atoi, reply);
    LeavesAloneIsTransparent(ex, raw);
    ChainExact(bs, i, path, args, ex, hops, end);
    PolicyCarriedExactly(bs, i);
    UriConservedExactly(v, Build(bs).value.inners[v.san], path, args, ex);
  }

  lemma OwnHookIsPassed(bs: seq<Behavior>, i: nat)
    requires Build(bs).Success? && i < |bs| && bs[i].originRequest
    ensures var v := Build(bs).value;
            v.outer[i].san in v.inners && PassesA(v.outer[i], v.inners[v.outer[i].san])
  {
    BehaviorBuilt(bs, i);
  }

  /** The override that njs receives: fields the Lambda left empty are the original's. */
  function Merged(raw: RawRequest, modified: CFRequest): Override {
    Override(OrElse(modified.uri, raw.uri), Some(OrElse(modified.querystring, raw.querystring)))
  }

  lemma RewriteExchange(fn: EdgeFunction, raw: RawRequest, ret: LambdaReturn, atoi: string -> Option<int>, reply: Reply)
    requires fn.endpoint != "" && raw.verb != "" && raw.uri != ""
    requires IsReply(Some(fn), raw, Some(ret), atoi, reply) && ret.Value? && ret.response.status == ""
    ensures AsExchange(reply) == Continue(Some(Merged(raw, ret.request)))
  {
  }

  /** Whatever the Lambda rewrites, be it the path, the query, both or neither:
      the merged path and query are what the behavior's own origin gets,
      exactly when the merged path holds no `?`. */
  lemma RewriteReachesOrigin(bs: seq<Behavior>, i: nat, path: string, args: string,
                             fn: EdgeFunction, raw: RawRequest, ret: LambdaReturn,
                             atoi: string -> Option<int>, reply: Reply,
                             hops: seq<Location>, end: Arrival)
    requires Build(bs).Success? && i < |bs| && bs[i].originRequest && path != "" && path[0] == '/'
    requires fn.endpoint != "" && raw.verb != "" && raw.uri != ""
    requires IsReply(Some(fn), raw, Some(ret), atoi, reply) && ret.Value? && ret.response.status == ""
    requires var v := Build(bs).value.outer[i];
             Chain(Build(bs).value.inners, Enter(v, path, args).0, Enter(v, path, args).1, AsExchange(reply), hops, end)
    ensures var o := Merged(raw, ret.request);
            end.path == (if HasPrefix(o.uri, "/") then o.uri else "/" + o.uri) && end.args == o.querystring.value
            <==> '?' !in o.uri
    ensures end.upstream == Upstream(bs[i].originId)
  {
    var v, ex := Build(bs).value.outer[i], AsExchange(reply);
    RewriteExchange(fn, raw, ret, atoi, reply);
    OwnHookIsPassed(bs, i);
    ChainExact(bs, i, path, args, ex, hops, end);
    PolicyCarriedExactly(bs, i);
    UriRewritten(v, Build(bs).value.inners[v.san], path, args, Merged(raw, ret.request));
  }
}
