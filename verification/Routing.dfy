/** internal/nginx/conf.go: a distribution compiled to nginx locations. The
    output is modelled as structured locations under longest-prefix matching. */
module Routing {
  import opened Text

  /** A cache behavior; the default behavior has no path pattern. */
  datatype Behavior = Behavior(
    pattern: Option<string>, policyId: string, originId: string,
    viewerRequest: bool, originRequest: bool, originResponse: bool)

  datatype Distribution = Distribution(originIds: seq<string>, behaviors: seq<Behavior>, default_: Behavior)

  datatype RenderError =
    | NoOrigins
    | EmptyOriginId
    | EmptyPattern
    | UnsupportedPattern(pattern: string)
    | EmptyPolicyId
    | EmptyTargetOriginId
    | ConflictingOrigins(policyId: string)

  datatype BehaviorView = BehaviorView(
    location: string, policyId: string, san: string,
    viewerRequest: bool, originRequest: bool, originResponse: bool)

  /** One per sanitized policy ID. */
  datatype InnerView = InnerView(
    san: string, policyId: string, upstream: string, originRequest: bool, originResponse: bool)

  datatype Views = Views(outer: seq<BehaviorView>, inners: map<string, InnerView>)

  // ---- names -----------------------------------------------------------------------------

  predicate IsWordChar(c: char) {
    'a' <= c <= 'z' || 'A' <= c <= 'Z' || '0' <= c <= '9' || c == '_'
  }

  function SanitizeID(s: string): (r: string)
    ensures |r| == |s|
    ensures forall i :: 0 <= i < |s| ==> r[i] == if IsWordChar(s[i]) then s[i] else '_'
  {
    seq(|s|, i requires 0 <= i < |s| => if IsWordChar(s[i]) then s[i] else '_')
  }

  function Upstream(originId: string): string {
    "origin_" + SanitizeID(originId)
  }

  function PathPatternToLocation(p: string): Result<string, RenderError> {
    if p == "" then Failure(EmptyPattern)
    else if p == "*" then Success("/")
    else if HasSuffix(p, "/*") then Success(p[..|p| - 1])
    else Failure(UnsupportedPattern(p))
  }

  // ---- views --------------------------------------------------------------------------------

  function ViewOf(b: Behavior): Result<BehaviorView, RenderError> {
    var loc := if b.pattern.None? then Success("/") else PathPatternToLocation(b.pattern.value);
    if loc.Failure? then Failure(loc.error)
    else if b.policyId == "" then Failure(EmptyPolicyId)
    else Success(BehaviorView(loc.value, b.policyId, SanitizeID(b.policyId), b.viewerRequest, b.originRequest, b.originResponse))
  }

  /** Same policy, other origin is an error; hook flags accumulate. */
  function AddInner(inners: map<string, InnerView>, b: Behavior): Result<map<string, InnerView>, RenderError> {
    var san := SanitizeID(b.policyId);
    if b.originId == "" then Failure(EmptyTargetOriginId)
    else if san in inners then
      var e := inners[san];
      if e.upstream != Upstream(b.originId) then Failure(ConflictingOrigins(b.policyId))
      else Success(inners[san := e.(originRequest := e.originRequest || b.originRequest,
                                    originResponse := e.originResponse || b.originResponse)])
    else Success(inners[san := InnerView(san, b.policyId, Upstream(b.originId), b.originRequest, b.originResponse)])
  }

  function Build(bs: seq<Behavior>): (r: Result<Views, RenderError>)
    ensures r.Success? ==> |r.value.outer| == |bs|
  {
    if bs == [] then Success(Views([], map[]))
    else
      var before := Build(bs[..|bs| - 1]);
      if before.Failure? then before
      else
        var view := ViewOf(bs[|bs| - 1]);
        if view.Failure? then Failure(view.error)
        else
          var inners := AddInner(before.value.inners, bs[|bs| - 1]);
          if inners.Failure? then Failure(inners.error)
          else Success(Views(before.value.outer + [view.value], inners.value))
  }

  lemma {:induction false} BuildStopsAtError(bs: seq<Behavior>, k: nat)
    requires k <= |bs| && Build(bs[..k]).Failure?
    ensures Build(bs) == Build(bs[..k])
  {
    if k == |bs| {
      assert bs[..k] == bs;
    } else {
      assert bs[..|bs| - 1][..k] == bs[..k];
      BuildStopsAtError(bs[..|bs| - 1], k);
    }
  }

  /** The behaviors in declaration order, the default one last. */
  function AllBehaviors(d: Distribution): seq<Behavior> {
    d.behaviors + [d.default_.(pattern := None)]
  }

  /** Checks the origins, then fills the outer list and the inner map in one pass. */
  method BuildBehaviorViews(d: Distribution) returns (r: Result<Views, RenderError>)
    ensures d.originIds == [] ==> r == Failure(NoOrigins)
    ensures d.originIds != [] && "" in d.originIds ==> r == Failure(EmptyOriginId)
    ensures d.originIds != [] && "" !in d.originIds ==> r == Build(d.behaviors + [d.default_.(pattern := None)])
  {
    if d.originIds == [] { return Failure(NoOrigins); }
    for i := 0 to |d.originIds|
      invariant "" !in d.originIds[..i]
    {
      if SanitizeID(d.originIds[i]) == "" {
        assert d.originIds[i] == "";
        return Failure(EmptyOriginId);
      }
    }
    var bs := AllBehaviors(d);
    var outer: seq<BehaviorView> := [];
    var inners: map<string, InnerView> := map[];
    for i := 0 to |bs|
      invariant Build(bs[..i]) == Success(Views(outer, inners))
    {
      assert bs[..i + 1][..i] == bs[..i];
      var view := ViewOf(bs[i]);
      if view.Failure? {
        BuildStopsAtError(bs, i + 1);
        return Failure(view.error);
      }
      outer := outer + [view.value];
      var added := AddInner(inners, bs[i]);
      if added.Failure? {
        BuildStopsAtError(bs, i + 1);
        return Failure(added.error);
      }
      inners := added.value;
    }
    assert bs[..|bs|] == bs;
    return Success(Views(outer, inners));
  }

  // ---- the inner server ------------------------------------------------------------------------

  datatype Hop =
    | ToOriginRequest(innerPrefix: string)   // js_content edge.runOriginRequest
    | ToOrigin(policyId: string, upstream: string)
    | ToOriginResponse(fetchPrefix: string)  // js_content edge.runOriginResponse

  /** `location <prefix>/ { ... }` */
  datatype Location = Location(prefix: string, hop: Hop)

  function InnerPrefix(san: string): string { "/_cf_inner_" + san }

  function OriginRequestPrefix(san: string): string { "/_cf_or_" + san }

  function OriginResponsePrefix(san: string): string { "/_cf_oresp_" + san }

  function OriginRequestLocation(v: InnerView): Location {
    Location(OriginRequestPrefix(v.san), ToOriginRequest(InnerPrefix(v.san)))
  }

  function InnerLocation(v: InnerView): Location {
    Location(InnerPrefix(v.san), ToOrigin(v.policyId, v.upstream))
  }

  /** Fetches through the policy's origin-request hop when any behavior of the policy has one. */
  function OriginResponseLocation(v: InnerView): Location {
    Location(OriginResponsePrefix(v.san),
             ToOriginResponse(if v.originRequest then OriginRequestPrefix(v.san) else InnerPrefix(v.san)))
  }

  function LocationsOf(v: InnerView): seq<Location> {
    (if v.originRequest then [OriginRequestLocation(v)] else [])
    + [InnerLocation(v)]
    + (if v.originResponse then [OriginResponseLocation(v)] else [])
  }

  /** The locations of the inner server, whatever the order they are written in. */
  ghost predicate InServer(inners: map<string, InnerView>, l: Location) {
    exists san :: san in inners && l in LocationsOf(inners[san])
  }

  /** nginx picks the longest location prefix that the URI starts with. */
  ghost predicate Matches(l: Location, uri: string) {
    HasPrefix(uri, l.prefix + "/")
  }

  ghost predicate Selects(inners: map<string, InnerView>, uri: string, l: Location) {
    && InServer(inners, l) && Matches(l, uri)
    && forall m :: InServer(inners, m) && Matches(m, uri) ==> |m.prefix| <= |l.prefix|
  }

  /** Where the cache location of a behavior sends a miss. */
  function TargetPrefix(v: BehaviorView): string {
    if v.originResponse then OriginResponsePrefix(v.san)
    else if v.originRequest then OriginRequestPrefix(v.san)
    else InnerPrefix(v.san)
  }
}
