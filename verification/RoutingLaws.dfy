/** Every behavior's hop chain through the inner server: where it goes, where
    it ends, and what happens to the path and the query on the way. */
module RoutingLaws {
  import opened Text
  import opened EdgeBridge
  import opened Routing
  import PathPattern

  // ---- what the compiler built -------------------------------------------------------------

  ghost predicate SamePolicy(b: Behavior, san: string) {
    SanitizeID(b.policyId) == san
  }

  /** `k` is the first behavior with this sanitized policy ID. */
  ghost predicate First(bs: seq<Behavior>, san: string, k: int) {
    0 <= k < |bs| && SamePolicy(bs[k], san) && forall i :: 0 <= i < k ==> !SamePolicy(bs[i], san)
  }

  /** The inner view of a policy, described by the behaviors that share it. */
  ghost predicate Summarises(bs: seq<Behavior>, san: string, v: InnerView) {
    && v.san == san
    && (exists k :: First(bs, san, k) && v.policyId == bs[k].policyId)
    && (forall i :: 0 <= i < |bs| && SamePolicy(bs[i], san) ==> v.upstream == Upstream(bs[i].originId))
    && (v.originRequest <==> exists i :: 0 <= i < |bs| && SamePolicy(bs[i], san) && bs[i].originRequest)
    && (v.originResponse <==> exists i :: 0 <= i < |bs| && SamePolicy(bs[i], san) && bs[i].originResponse)
  }

  ghost predicate OuterBuilt(bs: seq<Behavior>, v: Views) {
    && |v.outer| == |bs|
    && (forall i :: 0 <= i < |bs| ==> ViewOf(bs[i]) == Success(v.outer[i]) && v.outer[i].san in v.inners)
  }

  ghost predicate InnersBuilt(bs: seq<Behavior>, inners: map<string, InnerView>) {
    forall san :: san in inners ==> Summarises(bs, san, inners[san])
  }

  ghost predicate Built(bs: seq<Behavior>, v: Views) {
    OuterBuilt(bs, v) && InnersBuilt(bs, v.inners)
  }

  lemma SummaryUnaffected(bs: seq<Behavior>, b: Behavior, san: string, v: InnerView)
    requires Summarises(bs, san, v) && !SamePolicy(b, san)
    ensures Summarises(bs + [b], san, v)
  {
    var k :| First(bs, san, k) && v.policyId == bs[k].policyId;
    assert First(bs + [b], san, k);
    if v.originRequest {
      var i :| 0 <= i < |bs| && SamePolicy(bs[i], san) && bs[i].originRequest;
      assert (bs + [b])[i] == bs[i];
    }
    if v.originResponse {
      var i :| 0 <= i < |bs| && SamePolicy(bs[i], san) && bs[i].originResponse;
      assert (bs + [b])[i] == bs[i];
    }
  }

  lemma SummaryExtended(bs: seq<Behavior>, b: Behavior, v: InnerView)
    requires Summarises(bs, SanitizeID(b.policyId), v) && v.upstream == Upstream(b.originId)
    ensures Summarises(bs + [b], SanitizeID(b.policyId),
                       v.(originRequest := v.originRequest || b.originRequest,
                          originResponse := v.originResponse || b.originResponse))
  {
    var san, all, n := SanitizeID(b.policyId), bs + [b], |bs|;
    var k :| First(bs, san, k) && v.policyId == bs[k].policyId;
    assert First(all, san, k);
    assert all[n] == b;
    if v.originRequest {
      var i :| 0 <= i < n && SamePolicy(bs[i], san) && bs[i].originRequest;
      assert all[i] == bs[i];
    }
    if v.originResponse {
      var i :| 0 <= i < n && SamePolicy(bs[i], san) && bs[i].originResponse;
      assert all[i] == bs[i];
    }
  }

  lemma SummaryStarted(bs: seq<Behavior>, b: Behavior)
    requires forall i :: 0 <= i < |bs| ==> !SamePolicy(bs[i], SanitizeID(b.policyId))
    ensures Summarises(bs + [b], SanitizeID(b.policyId),
                       InnerView(SanitizeID(b.policyId), b.policyId, Upstream(b.originId), b.originRequest, b.originResponse))
  {
    assert (bs + [b])[|bs|] == b;
    assert First(bs + [b], SanitizeID(b.policyId), |bs|);
  }

  lemma NoneYet(bs: seq<Behavior>, v: Views, san: string)
    requires OuterBuilt(bs, v) && san !in v.inners
    ensures forall i :: 0 <= i < |bs| ==> !SamePolicy(bs[i], san)
  {
    forall i | 0 <= i < |bs|
      ensures !SamePolicy(bs[i], san)
    {
      assert ViewOf(bs[i]) == Success(v.outer[i]) && v.outer[i].san in v.inners;
    }
  }

  lemma AddedInner(bs: seq<Behavior>, b: Behavior, v: Views, san: string)
    requires OuterBuilt(bs, v) && AddInner(v.inners, b).Success?
    requires san in AddInner(v.inners, b).value
    requires san in v.inners ==> Summarises(bs, san, v.inners[san])
    ensures Summarises(bs + [b], san, AddInner(v.inners, b).value[san])
  {
    if san != SanitizeID(b.policyId) {
      SummaryUnaffected(bs, b, san, v.inners[san]);
    } else if san in v.inners {
      SummaryExtended(bs, b, v.inners[san]);
    } else {
      NoneYet(bs, v, san);
      SummaryStarted(bs, b);
    }
  }

  lemma InnersStep(bs: seq<Behavior>, b: Behavior, v: Views)
    requires Built(bs, v) && AddInner(v.inners, b).Success?
    ensures InnersBuilt(bs + [b], AddInner(v.inners, b).value)
  {
    var m := AddInner(v.inners, b).value;
    forall san | san in m
      ensures Summarises(bs + [b], san, m[san])
    {
      AddedInner(bs, b, v, san);
    }
  }

  lemma OuterStep(bs: seq<Behavior>, b: Behavior, v: Views, view: BehaviorView)
    requires OuterBuilt(bs, v) && ViewOf(b) == Success(view) && AddInner(v.inners, b).Success?
    ensures OuterBuilt(bs + [b], Views(v.outer + [view], AddInner(v.inners, b).value))
  {
    AddInnerKeys(v.inners, b);
  }

  lemma AddInnerKeys(inners: map<string, InnerView>, b: Behavior)
    requires AddInner(inners, b).Success?
    ensures AddInner(inners, b).value.Keys == inners.Keys + {SanitizeID(b.policyId)}
  {
  }

  /** A successful rendering describes every behavior and summarises every policy. */
  ghost predicate Meaning(bs: seq<Behavior>) {
    Build(bs).Success? ==> Built(bs, Build(bs).value)
  }

  lemma MeaningStep(bs: seq<Behavior>, b: Behavior)
    requires Meaning(bs)
    ensures Meaning(bs + [b])
  {
    var all := bs + [b];
    assert all[..|all| - 1] == bs && all[|all| - 1] == b;
    if Build(all).Success? {
      InnersStep(bs, b, Build(bs).value);
      OuterStep(bs, b, Build(bs).value, ViewOf(b).value);
    }
  }

  lemma {:induction false} BuildMeaning(bs: seq<Behavior>)
    ensures Meaning(bs)
  {
    if bs != [] {
      var before, last := bs[..|bs| - 1], bs[|bs| - 1];
      assert bs == before + [last];
      BuildMeaning(before);
      MeaningStep(before, last);
    }
  }

  /** The inner location carries a behavior's own policy ID exactly when the
      first behavior with the same sanitized ID has the same raw ID. */
  lemma PolicyCarriedExactly(bs: seq<Behavior>, i: nat)
    requires Build(bs).Success? && i < |bs|
    ensures var v := Build(bs).value;
            && v.outer[i].san in v.inners
            && (v.inners[v.outer[i].san].policyId == bs[i].policyId
                <==> exists k :: First(bs, SanitizeID(bs[i].policyId), k) && bs[k].policyId == bs[i].policyId)
            && v.inners[v.outer[i].san].upstream == Upstream(bs[i].originId)
  {
    SummaryOf(bs, i);
    var v, san := Build(bs).value, SanitizeID(bs[i].policyId);
    assert SamePolicy(bs[i], san);
    var k :| First(bs, san, k) && v.inners[san].policyId == bs[k].policyId;
    forall j | First(bs, san, j)
      ensures j == k
    {
    }
  }

  function Catching(pattern: Option<string>, policyId: string, originRequest: bool, originResponse: bool): Behavior {
    Behavior(pattern, policyId, "origin", false, originRequest, originResponse)
  }

  lemma BuildOne(b: Behavior)
    requires ViewOf(b).Success? && b.originId != ""
    ensures Build([b]).Success? && Build([b]).value.outer == [ViewOf(b).value]
    ensures Build([b]).value.inners == AddInner(map[], b).value
  {
    assert [b][..0] == [] && Build([b][..0]) == Success(Views([], map[]));
  }

  lemma BuildTwo(a: Behavior, b: Behavior)
    requires ViewOf(a).Success? && ViewOf(b).Success? && a.originId == b.originId != ""
    requires SanitizeID(a.policyId) == SanitizeID(b.policyId)
    ensures Build([a, b]).Success? && Build([a, b]).value.outer == [ViewOf(a).value, ViewOf(b).value]
    ensures Build([a, b]).value.inners.Keys == {SanitizeID(a.policyId)}
    ensures Build([a, b]).value.inners[SanitizeID(a.policyId)]
         == InnerView(SanitizeID(a.policyId), a.policyId, Upstream(a.originId),
                      a.originRequest || b.originRequest, a.originResponse || b.originResponse)
  {
    BuildOne(a);
    assert [a, b][..1] == [a] && [a, b][1] == b;
  }

  /** Policies `a-b` and `a_b` sanitize alike: the second behavior is served
      through the location that carries the first one's policy. */
  lemma SanitizedClash()
    ensures var bs := [Catching(Some("*"), "a-b", false, false), Catching(None, "a_b", false, false)];
            && Build(bs).Success?
            && var v := Build(bs).value;
               v.outer[1].san in v.inners && v.inners[v.outer[1].san].policyId == "a-b" != bs[1].policyId
  {
    assert "a-b"[1] == '-' && "a_b"[1] == '_';
    assert SanitizeID("a-b") == SanitizeID("a_b");
    BuildTwo(Catching(Some("*"), "a-b", false, false), Catching(None, "a_b", false, false));
  }

  /** The default behavior has only origin-response, a sibling with the same
      policy has origin-request: the default one passes the sibling's hook. */
  lemma SiblingHookPassed()
    ensures var bs := [Catching(Some("*"), "p", true, false), Catching(None, "p", false, true)];
            && Build(bs).Success?
            && var v := Build(bs).value;
               && v.outer[1].san in v.inners && !bs[1].originRequest
               && OriginRequestLocation(v.inners[v.outer[1].san]) in ExpectedHops(v.outer[1], v.inners[v.outer[1].san])
  {
    var a, b := Catching(Some("*"), "p", true, false), Catching(None, "p", false, true);
    BuildTwo(a, b);
    HopsShape(ViewOf(b).value, Build([a, b]).value.inners[SanitizeID("p")]);
  }

  /** A supported path pattern becomes a location that matches exactly the
      absolute paths the pattern denotes. */
  lemma LocationMeaning(pattern: string, path: string)
    requires PathPatternToLocation(pattern).Success? && path != "" && path[0] == '/'
    ensures HasPrefix(path, PathPatternToLocation(pattern).value) <==> PathPattern.Denotes(pattern, path)
  {
    PathPattern.MatchMeaning(pattern, path);
    if pattern != "*" {
      assert pattern[|pattern| - 1..] == pattern[|pattern| - 2..][1..] == "*";
    } else {
      assert HasSuffix(pattern, "*") && pattern[..|pattern| - 1] == "";
    }
  }

  /** What the built view of a behavior says about it: its location matches
      exactly the absolute paths that its pattern denotes (all, for the
      default behavior), and it carries the behavior's own policy and hooks. */
  lemma ViewMeaning(bs: seq<Behavior>, i: nat, path: string)
    requires Build(bs).Success? && i < |bs| && path != "" && path[0] == '/'
    ensures var v := Build(bs).value.outer[i];
            && (HasPrefix(path, v.location) <==> bs[i].pattern.None? || PathPattern.Denotes(bs[i].pattern.value, path))
            && v.policyId == bs[i].policyId && v.san == SanitizeID(bs[i].policyId)
            && v.viewerRequest == bs[i].viewerRequest
            && v.originRequest == bs[i].originRequest && v.originResponse == bs[i].originResponse
  {
    SummaryOf(bs, i);
    ViewOfMeaning(bs[i], Build(bs).value.outer[i], path);
  }

  lemma ViewOfMeaning(b: Behavior, v: BehaviorView, path: string)
    requires ViewOf(b) == Success(v) && path != "" && path[0] == '/'
    ensures HasPrefix(path, v.location) <==> b.pattern.None? || PathPattern.Denotes(b.pattern.value, path)
    ensures v.policyId == b.policyId && v.san == SanitizeID(b.policyId) && v.viewerRequest == b.viewerRequest
    ensures v.originRequest == b.originRequest && v.originResponse == b.originResponse
  {
    if b.pattern.Some? { LocationMeaning(b.pattern.value, path); }
  }

  // ---- when rendering succeeds, and what it reports otherwise -------------------------------

  ghost predicate SupportedPattern(p: Option<string>) {
    p == None || p == Some("*") || HasSuffix(p.value, "/*")
  }

  ghost predicate Renderable(b: Behavior) {
    SupportedPattern(b.pattern) && b.policyId != "" && b.originId != ""
  }

  /** Behaviors that share a sanitized policy ID share a sanitized origin ID. */
  ghost predicate OneOriginPerPolicy(bs: seq<Behavior>) {
    forall i, j :: 0 <= i < |bs| && 0 <= j < |bs| && SanitizeID(bs[i].policyId) == SanitizeID(bs[j].policyId) ==>
      SanitizeID(bs[i].originId) == SanitizeID(bs[j].originId)
  }

  lemma UpstreamIdentifies(a: string, b: string)
    ensures Upstream(a) == Upstream(b) <==> SanitizeID(a) == SanitizeID(b)
  {
    assert Upstream(a)[|"origin_"|..] == SanitizeID(a) && Upstream(b)[|"origin_"|..] == SanitizeID(b);
  }

  lemma SupportedExactly(p: string)
    ensures PathPatternToLocation(p).Success? <==> SupportedPattern(Some(p))
  {
    if p == "" { assert !HasSuffix(p, "/*"); }
  }

  ghost predicate SameOriginAsBefore(bs: seq<Behavior>, b: Behavior) {
    forall i :: 0 <= i < |bs| && SamePolicy(bs[i], SanitizeID(b.policyId)) ==> SanitizeID(bs[i].originId) == SanitizeID(b.originId)
  }

  lemma SummaryOrigin(bs: seq<Behavior>, b: Behavior, v: InnerView)
    requires Summarises(bs, SanitizeID(b.policyId), v)
    ensures v.upstream == Upstream(b.originId) <==> SameOriginAsBefore(bs, b)
  {
    var san := SanitizeID(b.policyId);
    var k :| First(bs, san, k) && v.policyId == bs[k].policyId;
    assert v.upstream == Upstream(bs[k].originId);
    UpstreamIdentifies(bs[k].originId, b.originId);
    forall i | 0 <= i < |bs| && SamePolicy(bs[i], san)
      ensures SanitizeID(bs[i].originId) == SanitizeID(bs[k].originId)
    {
      UpstreamIdentifies(bs[i].originId, bs[k].originId);
    }
  }

  lemma AddSucceedsExactly(bs: seq<Behavior>, b: Behavior)
    requires Build(bs).Success? && b.originId != ""
    ensures AddInner(Build(bs).value.inners, b).Success? <==> SameOriginAsBefore(bs, b)
    ensures AddInner(Build(bs).value.inners, b).Failure? ==>
              AddInner(Build(bs).value.inners, b).error == ConflictingOrigins(b.policyId)
  {
    BuildMeaning(bs);
    var v, san := Build(bs).value, SanitizeID(b.policyId);
    if san in v.inners {
      SummaryOrigin(bs, b, v.inners[san]);
    } else {
      NoneYet(bs, v, san);
    }
  }

  lemma BuildAppend(bs: seq<Behavior>, b: Behavior)
    ensures Build(bs + [b]).Success? <==> Build(bs).Success? && Renderable(b) && SameOriginAsBefore(bs, b)
  {
    var all := bs + [b];
    assert all[..|all| - 1] == bs && all[|all| - 1] == b;
    if b.pattern.Some? { SupportedExactly(b.pattern.value); }
    if Build(bs).Success? && b.originId != "" { AddSucceedsExactly(bs, b); }
  }

  lemma OneOriginAppend(bs: seq<Behavior>, b: Behavior)
    ensures OneOriginPerPolicy(bs + [b]) <==> OneOriginPerPolicy(bs) && SameOriginAsBefore(bs, b)
  {
    var all := bs + [b];
    assert forall i :: 0 <= i < |bs| ==> all[i] == bs[i];
    assert all[|bs|] == b;
    if OneOriginPerPolicy(all) {
      forall i | 0 <= i < |bs| && SamePolicy(bs[i], SanitizeID(b.policyId))
        ensures SanitizeID(bs[i].originId) == SanitizeID(b.originId)
      {
        assert SanitizeID(all[i].policyId) == SanitizeID(all[|bs|].policyId);
      }
    }
  }

  /** Rendering succeeds exactly when every behavior has a supported pattern, a
      policy and an origin, and no policy is used with two origins. */
  lemma {:induction false} BuildSucceedsExactly(bs: seq<Behavior>)
    ensures Build(bs).Success? <==> (forall i :: 0 <= i < |bs| ==> Renderable(bs[i])) && OneOriginPerPolicy(bs)
  {
    if bs != [] {
      var before, last := bs[..|bs| - 1], bs[|bs| - 1];
      assert bs == before + [last];
      BuildSucceedsExactly(before);
      BuildAppend(before, last);
      OneOriginAppend(before, last);
      assert (forall i :: 0 <= i < |bs| ==> Renderable(bs[i]))
        <==> (forall i :: 0 <= i < |before| ==> Renderable(before[i])) && Renderable(last);
    }
  }

  /** The error that the first bad behavior gives, after good ones. */
  ghost predicate Faults(before: seq<Behavior>, b: Behavior, e: RenderError) {
    match e
    case EmptyPattern => b.pattern == Some("")
    case UnsupportedPattern(p) => b.pattern == Some(p) && p != "" && !SupportedPattern(Some(p))
    case EmptyPolicyId => SupportedPattern(b.pattern) && b.policyId == ""
    case EmptyTargetOriginId => SupportedPattern(b.pattern) && b.policyId != "" && b.originId == ""
    case ConflictingOrigins(policyId) => Renderable(b) && policyId == b.policyId && !SameOriginAsBefore(before, b)
    case _ => false
  }

  lemma {:induction false} FirstFaultReported(bs: seq<Behavior>)
    requires Build(bs).Failure?
    ensures exists k :: 0 <= k < |bs| && Build(bs[..k]).Success? && Faults(bs[..k], bs[k], Build(bs).error)
  {
    var n := |bs| - 1;
    if Build(bs[..n]).Failure? {
      FirstFaultReported(bs[..n]);
      var k :| 0 <= k < n && Build(bs[..n][..k]).Success? && Faults(bs[..n][..k], bs[..n][k], Build(bs[..n]).error);
      assert bs[..n][..k] == bs[..k];
    } else {
      var b := bs[n];
      if b.pattern.Some? { SupportedExactly(b.pattern.value); }
      if b.originId != "" { AddSucceedsExactly(bs[..n], b); }
      assert Faults(bs[..n], b, Build(bs).error);
    }
  }

  /** Among declared origins whose IDs sanitize apart, the upstream that a
      chain ends at belongs to the behavior's own target and to no other. */
  lemma OwnOriginOnly(originIds: seq<string>, b: Behavior, other: string)
    requires forall x, y :: x in originIds && y in originIds && SanitizeID(x) == SanitizeID(y) ==> x == y
    requires b.originId in originIds && other in originIds
    ensures Upstream(other) == Upstream(b.originId) <==> other == b.originId
  {
    UpstreamIdentifies(other, b.originId);
  }

  // ---- longest-prefix matching is unambiguous -----------------------------------------------

  ghost predicate WordOnly(s: string) {
    forall c :: c in s ==> IsWordChar(c)
  }

  lemma SanitizedIsWord(s: string)
    ensures WordOnly(SanitizeID(s))
  {
  }

  /** Prefixes of the form `/segment`: only one can match a URI. */
  lemma OneSegmentMatches(a: string, b: string, uri: string)
    requires a != "" && b != "" && a[0] == '/' && b[0] == '/'
    requires '/' !in a[1..] && '/' !in b[1..]
    requires HasPrefix(uri, a + "/") && HasPrefix(uri, b + "/")
    ensures a == b
  {
    assert forall i :: 0 < i < |a| ==> a[i] == a[1..][i - 1] && a[i] != '/';
    assert forall i :: 0 < i < |b| ==> b[i] == b[1..][i - 1] && b[i] != '/';
    assert forall i :: 0 <= i < |a| ==> uri[i] == (a + "/")[i] == a[i];
    assert forall i :: 0 <= i < |b| ==> uri[i] == (b + "/")[i] == b[i];
    assert uri[|a|] == (a + "/")[|a|] == '/' && uri[|b|] == (b + "/")[|b|] == '/';
    assert |a| == |b|;
  }

  datatype HopKind = A | B | C  // origin-request, inner, origin-response

  function PrefixOf(kind: HopKind, san: string): string {
    match kind
    case A => OriginRequestPrefix(san)
    case B => InnerPrefix(san)
    case C => OriginResponsePrefix(san)
  }

  lemma PrefixShape(kind: HopKind, san: string)
    requires WordOnly(san)
    ensures PrefixOf(kind, san) != "" && PrefixOf(kind, san)[0] == '/' && '/' !in PrefixOf(kind, san)[1..]
    ensures '?' !in PrefixOf(kind, san)
  {
    var p := PrefixOf(kind, san);
    var head := match kind case A => "_cf_or_" case B => "_cf_inner_" case C => "_cf_oresp_";
    assert p[1..] == head + san && p == "/" + (head + san);
  }

  lemma PrefixesDiffer(kind: HopKind, san: string, kind': HopKind, san': string)
    requires PrefixOf(kind, san) == PrefixOf(kind', san')
    ensures kind == kind' && san == san'
  {
    var p, p' := PrefixOf(kind, san), PrefixOf(kind', san');
    assert p[5] == (if kind == B then 'i' else 'o') && p'[5] == (if kind' == B then 'i' else 'o');
    assert kind == A ==> p[7] == '_';
    assert kind' == A ==> p'[7] == '_';
    assert kind == C ==> p[7] == 'e';
    assert kind' == C ==> p'[7] == 'e';
    var n := match kind case A => 8 case B => 11 case C => 11;
    assert p[n..] == san && p'[n..] == san';
  }

  function LocationFor(kind: HopKind, v: InnerView): Location {
    match kind
    case A => OriginRequestLocation(v)
    case B => InnerLocation(v)
    case C => OriginResponseLocation(v)
  }

  ghost predicate Present(kind: HopKind, v: InnerView) {
    match kind
    case A => v.originRequest
    case B => true
    case C => v.originResponse
  }

  /** Inner views keyed by their own word-only sanitized IDs. */
  ghost predicate Proper(inners: map<string, InnerView>) {
    forall san :: san in inners ==> inners[san].san == san && WordOnly(san)
  }

  lemma BuiltProper(bs: seq<Behavior>)
    requires Build(bs).Success?
    ensures Proper(Build(bs).value.inners)
  {
    BuildMeaning(bs);
    var m := Build(bs).value.inners;
    forall san | san in m
      ensures m[san].san == san && WordOnly(san)
    {
      var k :| First(bs, san, k) && m[san].policyId == bs[k].policyId;
      SanitizedIsWord(bs[k].policyId);
    }
  }

  lemma ServerLocation(inners: map<string, InnerView>, l: Location) returns (kind: HopKind, san: string)
    requires Proper(inners) && InServer(inners, l)
    ensures san in inners && Present(kind, inners[san]) && l == LocationFor(kind, inners[san]) && l.prefix == PrefixOf(kind, san)
  {
    san :| san in inners && l in LocationsOf(inners[san]);
    kind := if l == InnerLocation(inners[san]) then B
            else if inners[san].originRequest && l == OriginRequestLocation(inners[san]) then A else C;
  }

  lemma LocationInServer(inners: map<string, InnerView>, kind: HopKind, san: string)
    requires san in inners && Present(kind, inners[san])
    ensures InServer(inners, LocationFor(kind, inners[san]))
  {
    var l := LocationFor(kind, inners[san]);
    assert l in LocationsOf(inners[san]);
  }

  /** A URI under a hop prefix selects that hop of that policy, and nothing else. */
  lemma SelectionUnique(inners: map<string, InnerView>, kind: HopKind, san: string, path: string, l: Location)
    requires Proper(inners) && san in inners && Present(kind, inners[san])
    requires path != "" && path[0] == '/'
    ensures Selects(inners, PrefixOf(kind, san) + path, l) <==> l == LocationFor(kind, inners[san])
  {
    var uri, mine := PrefixOf(kind, san) + path, LocationFor(kind, inners[san]);
    assert uri[..|PrefixOf(kind, san)| + 1] == PrefixOf(kind, san) + "/";
    LocationInServer(inners, kind, san);
    forall m | InServer(inners, m) && Matches(m, uri)
      ensures m == mine
    {
      var kind', san' := ServerLocation(inners, m);
      PrefixShape(kind, san);
      PrefixShape(kind', san');
      OneSegmentMatches(PrefixOf(kind, san), PrefixOf(kind', san'), uri);
      PrefixesDiffer(kind, san, kind', san');
    }
  }

  // ---- hop chains ---------------------------------------------------------------------------------

  /** What arrives at an origin. */
  datatype Arrival = Arrival(policyId: string, upstream: string, path: string, args: string)

  /** Serving one URI on the inner server: the locations visited in order, and
      the arrival. `ex` is the edge-proxy exchange of an origin-request hop. */
  ghost predicate Chain(inners: map<string, InnerView>, uri: string, args: string, ex: Exchange,
                        hops: seq<Location>, end: Arrival)
    decreases |hops|
  {
    hops != [] && Selects(inners, uri, hops[0]) &&
    match hops[0].hop
    case ToOrigin(policyId, upstream) =>
      |hops| == 1 && end == Arrival(policyId, upstream, "/" + uri[|hops[0].prefix| + 1..], args)
    case ToOriginRequest(innerPrefix) =>
      var out := OriginRequest(innerPrefix, hops[0].prefix, uri, args, ex);
      out.Redirect? && Chain(inners, SplitArgs(out.target).0, SplitArgs(out.target).1, ex, hops[1..], end)
    case ToOriginResponse(fetchPrefix) =>
      var target := OriginResponseFetch(fetchPrefix, hops[0].prefix, uri, args);
      Chain(inners, SplitArgs(target).0, SplitArgs(target).1, ex, hops[1..], end)
  }

  /** The part of a path in front of a `?`, and what a re-split makes of the query. */
  function Resplit(path: string, args: string): (string, string) {
    SplitArgs(WithQuery(path, args))
  }

  lemma SplitArgsPrefixed(prefix: string, t: string)
    requires '?' !in prefix
    ensures SplitArgs(prefix + t) == (prefix + SplitArgs(t).0, SplitArgs(t).1)
  {
    var i := IndexOf(t, '?');
    if i >= 0 {
      var a, b := t[..i], t[i + 1..];
      assert prefix + t == (prefix + a) + ['?'] + b;
      IndexOfSeparator(prefix + a, '?', b);
      assert (prefix + t)[..|prefix + a|] == prefix + a && (prefix + t)[|prefix + a| + 1..] == b;
    }
  }

  lemma ResplitPrefixed(prefix: string, path: string, args: string)
    requires '?' !in prefix
    ensures SplitArgs(WithQuery(prefix + path, args)) == (prefix + Resplit(path, args).0, Resplit(path, args).1)
  {
    if args != "" { assert (prefix + path) + "?" + args == prefix + (path + "?" + args); }
    SplitArgsPrefixed(prefix, WithQuery(path, args));
  }

  lemma ResplitKeepsSlash(path: string, args: string)
    requires path != "" && path[0] == '/'
    ensures Resplit(path, args).0 != "" && Resplit(path, args).0[0] == '/'
  {
    assert WithQuery(path, args)[0] == '/';
  }

  /** Path and query that the origin-request hook sends on. */
  function Forwarded(path: string, args: string, ex: Exchange): (string, string) {
    match ex
    case Continue(Some(o)) =>
      Resplit(EnsureLeadingSlash(if o.uri != "" then o.uri else path), if o.querystring.Some? then o.querystring.value else args)
    case _ => Resplit(path, args)
  }

  ghost predicate Passes(ex: Exchange) {
    !ex.ShortCircuit?
  }

  lemma ArriveThroughB(inners: map<string, InnerView>, san: string, path: string, args: string, ex: Exchange,
                       hops: seq<Location>, end: Arrival)
    requires Proper(inners) && san in inners && path != "" && path[0] == '/'
    ensures Chain(inners, InnerPrefix(san) + path, args, ex, hops, end)
       <==> && hops == [InnerLocation(inners[san])]
            && end == Arrival(inners[san].policyId, inners[san].upstream, path, args)
  {
    var v := inners[san];
    assert PrefixOf(B, san) == InnerPrefix(san);
    if hops != [] { SelectionUnique(inners, B, san, path, hops[0]); }
    assert "/" + (InnerPrefix(san) + path)[|InnerPrefix(san)| + 1..] == path;
  }

  /** One hop through A: the location, and where its redirect leads. */
  lemma StepThroughA(inners: map<string, InnerView>, san: string, path: string, args: string, ex: Exchange,
                     hops: seq<Location>, end: Arrival)
    requires Proper(inners) && san in inners && inners[san].originRequest
    requires path != "" && path[0] == '/' && Passes(ex)
    ensures Chain(inners, OriginRequestPrefix(san) + path, args, ex, hops, end)
       <==> && hops != [] && hops[0] == OriginRequestLocation(inners[san])
            && Chain(inners, InnerPrefix(san) + Forwarded(path, args, ex).0, Forwarded(path, args, ex).1, ex, hops[1..], end)
  {
    assert PrefixOf(A, san) == OriginRequestPrefix(san) && PrefixOf(B, san) == InnerPrefix(san);
    PrefixShape(A, san);
    PrefixShape(B, san);
    if hops != [] {
      SelectionUnique(inners, A, san, path, hops[0]);
      OriginRequestSends(InnerPrefix(san), OriginRequestPrefix(san), path, args, ex);
      ResplitPrefixed(InnerPrefix(san), Sent(path, args, ex).0, Sent(path, args, ex).1);
    }
  }

  lemma ArriveThroughA(inners: map<string, InnerView>, san: string, path: string, args: string, ex: Exchange,
                       hops: seq<Location>, end: Arrival)
    requires Proper(inners) && san in inners && inners[san].originRequest
    requires path != "" && path[0] == '/' && Passes(ex)
    ensures Chain(inners, OriginRequestPrefix(san) + path, args, ex, hops, end)
       <==> && hops == [OriginRequestLocation(inners[san])] + [InnerLocation(inners[san])]
            && end == Arrival(inners[san].policyId, inners[san].upstream,
                              Forwarded(path, args, ex).0, Forwarded(path, args, ex).1)
  {
    StepThroughA(inners, san, path, args, ex, hops, end);
    Concatenated(OriginRequestLocation(inners[san]), [InnerLocation(inners[san])], hops);
    var sent := Sent(path, args, ex);
    ResplitKeepsSlash(sent.0, sent.1);
    if hops != [] {
      ArriveThroughB(inners, san, Forwarded(path, args, ex).0, Forwarded(path, args, ex).1, ex, hops[1..], end);
    }
  }

  /** The path and query that the origin-request handler joins into its target. */
  function Sent(path: string, args: string, ex: Exchange): (r: (string, string))
    requires path != "" && path[0] == '/'
    ensures r.0 != "" && r.0[0] == '/'
    ensures Forwarded(path, args, ex) == Resplit(r.0, r.1)
  {
    match ex
    case Continue(Some(o)) =>
      (EnsureLeadingSlash(if o.uri != "" then o.uri else path), if o.querystring.Some? then o.querystring.value else args)
    case _ => (path, args)
  }

  lemma OriginRequestSends(innerPrefix: string, orPrefix: string, path: string, args: string, ex: Exchange)
    requires orPrefix != "" && path != "" && path[0] == '/' && Passes(ex)
    ensures OriginRequest(innerPrefix, orPrefix, orPrefix + path, args, ex)
         == Redirect(WithQuery(innerPrefix + Sent(path, args, ex).0, Sent(path, args, ex).1))
  {
    TailOfPrefixed(orPrefix, path);
  }

  lemma ArriveThroughC(inners: map<string, InnerView>, san: string, path: string, args: string, ex: Exchange,
                       hops: seq<Location>, end: Arrival)
    requires Proper(inners) && san in inners && inners[san].originResponse
    requires path != "" && path[0] == '/'
    ensures Chain(inners, OriginResponsePrefix(san) + path, args, ex, hops, end)
       <==> && hops != [] && hops[0] == OriginResponseLocation(inners[san])
            && Chain(inners,
                     (if inners[san].originRequest then OriginRequestPrefix(san) else InnerPrefix(san)) + Resplit(path, args).0,
                     Resplit(path, args).1, ex, hops[1..], end)
  {
    var v, uri := inners[san], OriginResponsePrefix(san) + path;
    var fetch := if v.originRequest then OriginRequestPrefix(san) else InnerPrefix(san);
    assert PrefixOf(C, san) == OriginResponsePrefix(san);
    PrefixShape(C, san);
    PrefixShape(A, san);
    PrefixShape(B, san);
    assert fetch == PrefixOf(if v.originRequest then A else B, san);
    if hops != [] { SelectionUnique(inners, C, san, path, hops[0]); }
    if hops != [] && hops[0] == OriginResponseLocation(v) {
      TailOfPrefixed(OriginResponsePrefix(san), path);
      assert OriginResponseFetch(fetch, OriginResponsePrefix(san), uri, args) == WithQuery(fetch + path, args);
      ResplitPrefixed(fetch, path, args);
    }
  }

  // ---- a behavior's chain ----------------------------------------------------------------------------

  /** The request that a cache miss of this behavior puts on the inner server.
      A viewer-request behavior re-joins the decoded path with its arguments;
      the others pass the client's own request line on. */
  function Enter(v: BehaviorView, path: string, args: string): (string, string) {
    if v.viewerRequest then SplitArgs(WithQuery(TargetPrefix(v) + path, args)) else (TargetPrefix(v) + path, args)
  }

  predicate PassesA(v: BehaviorView, inner: InnerView) {
    if v.originResponse then inner.originRequest else v.originRequest
  }

  function ExpectedHops(v: BehaviorView, inner: InnerView): seq<Location> {
    var rest := (if PassesA(v, inner) then [OriginRequestLocation(inner)] else []) + [InnerLocation(inner)];
    if v.originResponse then [OriginResponseLocation(inner)] + rest else rest
  }

  function MaybeResplit(again: bool, pq: (string, string)): (string, string) {
    if again then Resplit(pq.0, pq.1) else pq
  }

  /** Path and query as the origin-request hook, or else the inner location, sees them. */
  function SeenInside(v: BehaviorView, path: string, args: string): (string, string) {
    MaybeResplit(v.originResponse, MaybeResplit(v.viewerRequest, (path, args)))
  }

  function ExpectedArrival(v: BehaviorView, inner: InnerView, path: string, args: string, ex: Exchange): Arrival {
    var seen := SeenInside(v, path, args);
    var sent := if PassesA(v, inner) then Forwarded(seen.0, seen.1, ex) else seen;
    Arrival(inner.policyId, inner.upstream, sent.0, sent.1)
  }

  lemma Concatenated(a: Location, rest: seq<Location>, hops: seq<Location>)
    ensures hops == [a] + rest <==> hops != [] && hops[0] == a && hops[1..] == rest
  {
    if hops != [] { assert hops == [hops[0]] + hops[1..]; }
  }

  /** Behind C: through A if the policy has it, else straight to B. */
  lemma ChainBehindC(inners: map<string, InnerView>, san: string, path: string, args: string, ex: Exchange,
                     hops: seq<Location>, end: Arrival)
    requires Proper(inners) && san in inners && inners[san].originResponse
    requires path != "" && path[0] == '/' && Passes(ex)
    ensures var inner, seen := inners[san], Resplit(path, args);
            var rest := (if inner.originRequest then [OriginRequestLocation(inner)] else []) + [InnerLocation(inner)];
            var sent := if inner.originRequest then Forwarded(seen.0, seen.1, ex) else seen;
            Chain(inners, OriginResponsePrefix(san) + path, args, ex, hops, end)
            <==> hops == [OriginResponseLocation(inner)] + rest
                 && end == Arrival(inner.policyId, inner.upstream, sent.0, sent.1)
  {
    var inner, seen := inners[san], Resplit(path, args);
    var rest := (if inner.originRequest then [OriginRequestLocation(inner)] else []) + [InnerLocation(inner)];
    ResplitKeepsSlash(path, args);
    ArriveThroughC(inners, san, path, args, ex, hops, end);
    Concatenated(OriginResponseLocation(inner), rest, hops);
    if hops != [] {
      if inner.originRequest {
        ArriveThroughA(inners, san, seen.0, seen.1, ex, hops[1..], end);
      } else {
        ArriveThroughB(inners, san, seen.0, seen.1, ex, hops[1..], end);
      }
    }
  }

  /** From the target prefix on: exactly the expected hops and arrival. */
  lemma ChainFromTarget(inners: map<string, InnerView>, v: BehaviorView, path: string, args: string, ex: Exchange,
                        hops: seq<Location>, end: Arrival)
    requires Proper(inners) && v.san in inners && path != "" && path[0] == '/' && Passes(ex)
    requires v.originResponse ==> inners[v.san].originResponse
    requires v.originRequest ==> inners[v.san].originRequest
    ensures Chain(inners, TargetPrefix(v) + path, args, ex, hops, end)
       <==> hops == ExpectedHops(v, inners[v.san])
            && end == ExpectedArrival(v.(viewerRequest := false), inners[v.san], path, args, ex)
  {
    if v.originResponse {
      ChainBehindC(inners, v.san, path, args, ex, hops, end);
    } else if v.originRequest {
      ArriveThroughA(inners, v.san, path, args, ex, hops, end);
    } else {
      ArriveThroughB(inners, v.san, path, args, ex, hops, end);
    }
  }

  lemma TargetPrefixShape(v: BehaviorView)
    requires WordOnly(v.san)
    ensures '?' !in TargetPrefix(v)
  {
    PrefixShape(if v.originResponse then C else if v.originRequest then A else B, v.san);
    assert TargetPrefix(v) == PrefixOf(if v.originResponse then C else if v.originRequest then A else B, v.san);
  }

  lemma SummaryOf(bs: seq<Behavior>, i: nat)
    requires Build(bs).Success? && i < |bs|
    ensures var v := Build(bs).value;
            && ViewOf(bs[i]) == Success(v.outer[i]) && v.outer[i].san in v.inners
            && Summarises(bs, v.outer[i].san, v.inners[v.outer[i].san])
  {
    BuildMeaning(bs);
    var v := Build(bs).value;
    assert OuterBuilt(bs, v) && v.outer[i].san in v.inners;
  }

  lemma SummaryFlags(bs: seq<Behavior>, i: nat, inner: InnerView)
    requires i < |bs| && Summarises(bs, SanitizeID(bs[i].policyId), inner)
    ensures bs[i].originRequest ==> inner.originRequest
    ensures bs[i].originResponse ==> inner.originResponse
  {
    assert SamePolicy(bs[i], SanitizeID(bs[i].policyId));
  }

  /** What a successful rendering says about behavior `i` and its policy. */
  lemma BehaviorBuilt(bs: seq<Behavior>, i: nat)
    requires Build(bs).Success? && i < |bs|
    ensures var v := Build(bs).value;
            && Proper(v.inners) && v.outer[i].san in v.inners && v.outer[i].san == SanitizeID(bs[i].policyId)
            && v.outer[i].originRequest == bs[i].originRequest && v.outer[i].originResponse == bs[i].originResponse
            && v.outer[i].viewerRequest == bs[i].viewerRequest
            && (bs[i].originRequest ==> v.inners[v.outer[i].san].originRequest)
            && (bs[i].originResponse ==> v.inners[v.outer[i].san].originResponse)
  {
    BuiltProper(bs);
    SummaryOf(bs, i);
    SummaryFlags(bs, i, Build(bs).value.inners[SanitizeID(bs[i].policyId)]);
  }

  /** Main routing theorem: for every behavior, path, query and passing hook
      exchange there is exactly one chain, and it is this one. */
  lemma ChainExact(bs: seq<Behavior>, i: nat, path: string, args: string, ex: Exchange,
                   hops: seq<Location>, end: Arrival)
    requires Build(bs).Success? && i < |bs| && path != "" && path[0] == '/' && Passes(ex)
    ensures var views := Build(bs).value;
            var v := views.outer[i];
            && v.san in views.inners
            && (Chain(views.inners, Enter(v, path, args).0, Enter(v, path, args).1, ex, hops, end)
                <==> hops == ExpectedHops(v, views.inners[v.san])
                     && end == ExpectedArrival(v, views.inners[v.san], path, args, ex))
  {
    BehaviorBuilt(bs, i);
    var views := Build(bs).value;
    var v := views.outer[i];
    if v.viewerRequest {
      TargetPrefixShape(v);
      ResplitPrefixed(TargetPrefix(v), path, args);
      ResplitKeepsSlash(path, args);
      ChainFromTarget(views.inners, v, Resplit(path, args).0, Resplit(path, args).1, ex, hops, end);
    } else {
      ChainFromTarget(views.inners, v, path, args, ex, hops, end);
    }
  }

  /** The chain visits at most three different locations, passes C exactly if
      the behavior has origin-response, and passes A exactly if it has
      origin-request, or has origin-response and shares its policy with a
      behavior that has origin-request. */
  lemma ChainShape(bs: seq<Behavior>, i: nat)
    requires Build(bs).Success? && i < |bs|
    ensures var views := Build(bs).value;
            var v := views.outer[i];
            && v.san in views.inners
            && var inner, hops := views.inners[v.san], ExpectedHops(v, views.inners[v.san]);
               && 1 <= |hops| <= 3 && NoDuplicates(hops)
               && hops[|hops| - 1] == InnerLocation(inner)
               && (OriginResponseLocation(inner) in hops <==> bs[i].originResponse)
               && (OriginRequestLocation(inner) in hops <==>
                     bs[i].originRequest
                     || (bs[i].originResponse
                         && exists k :: 0 <= k < |bs| && SamePolicy(bs[k], v.san) && bs[k].originRequest))
  {
    BehaviorBuilt(bs, i);
    SummaryOf(bs, i);
    var views := Build(bs).value;
    HopsShape(views.outer[i], views.inners[views.outer[i].san]);
  }

  lemma HopsShape(v: BehaviorView, inner: InnerView)
    ensures var hops := ExpectedHops(v, inner);
            && 1 <= |hops| <= 3 && NoDuplicates(hops)
            && hops[|hops| - 1] == InnerLocation(inner)
            && (OriginResponseLocation(inner) in hops <==> v.originResponse)
            && (OriginRequestLocation(inner) in hops <==> PassesA(v, inner))
  {
    LocationsDiffer(inner);
  }

  lemma LocationsDiffer(inner: InnerView)
    ensures OriginRequestLocation(inner) != InnerLocation(inner)
    ensures OriginRequestLocation(inner) != OriginResponseLocation(inner)
    ensures InnerLocation(inner) != OriginResponseLocation(inner)
  {
  }

  // ---- URI conservation --------------------------------------------------------------------------------

  /** The hook, if passed, changes nothing it was shown. */
  ghost predicate Transparent(ex: Exchange, path: string, args: string) {
    && Passes(ex)
    && (ex.Continue? && ex.request.Some? ==>
          && (ex.request.value.uri == "" || ex.request.value.uri == path)
          && (ex.request.value.querystring.None? || ex.request.value.querystring.value == args))
  }

  lemma ResplitIdentity(path: string, args: string)
    ensures Resplit(path, args) == (path, args) <==> '?' !in path
    ensures '?' !in Resplit(path, args).0 && |Resplit(path, args).0| <= |path|
    ensures '?' in path ==> |Resplit(path, args).0| < |path|
  {
    SplitWithQuery(path, args);
    var t := WithQuery(path, args);
    if '?' in path {
      var i := IndexOf(path, '?');
      assert t[i] == '?';
    }
  }

  lemma TransparentForward(path: string, args: string, ex: Exchange)
    requires path != "" && path[0] == '/' && Transparent(ex, path, args)
    ensures Forwarded(path, args, ex) == Resplit(path, args)
  {
  }

  predicate Rejoins(v: BehaviorView) {
    v.viewerRequest || v.originRequest || v.originResponse
  }

  /** Path and query reach the origin unchanged exactly when no hop re-joins
      them or the (decoded) path holds no `?`. */
  lemma UriConservedExactly(v: BehaviorView, inner: InnerView, path: string, args: string, ex: Exchange)
    requires path != "" && path[0] == '/'
    requires Transparent(ex, SeenInside(v, path, args).0, SeenInside(v, path, args).1)
    ensures var end := ExpectedArrival(v, inner, path, args, ex);
            end.path == path && end.args == args <==> !Rejoins(v) || '?' !in path
  {
    var a := MaybeResplit(v.viewerRequest, (path, args));
    var b := MaybeResplit(v.originResponse, a);
    ResplitIdentity(path, args);
    ResplitIdentity(a.0, a.1);
    ResplitIdentity(b.0, b.1);
    ResplitKeepsSlash(path, args);
    ResplitKeepsSlash(a.0, a.1);
    if PassesA(v, inner) { TransparentForward(b.0, b.1, ex); }
  }

  lemma QuestionMarkArrival(v: BehaviorView, inner: InnerView, a: string, b: string)
    requires a != "" && a[0] == '/' && '?' !in a
    requires v.originRequest && !v.originResponse && !v.viewerRequest
    ensures ExpectedArrival(v, inner, a + "?" + b, "", TransportFailed) == Arrival(inner.policyId, inner.upstream, a, b)
  {
    IndexOfSeparator(a, '?', b);
    assert (a + "?" + b)[..|a|] == a && (a + "?" + b)[|a| + 1..] == b;
  }

  /** One default behavior with origin-request, whose hook fails: the path
      `a?b` without a query reaches the origin as path `a` with query `b`. */
  lemma QuestionMarkMoves(policyId: string, a: string, b: string)
    requires policyId != "" && a != "" && a[0] == '/' && '?' !in a
    ensures Build([Catching(None, policyId, true, false)]).Success?
    ensures var views := Build([Catching(None, policyId, true, false)]).value;
            var enter := Enter(views.outer[0], a + "?" + b, "");
            exists hops, end :: Chain(views.inners, enter.0, enter.1, TransportFailed, hops, end)
                                && end.path == a && end.args == b
  {
    var d := Catching(None, policyId, true, false);
    BuildOne(d);
    var v := Build([d]).value.outer[0];
    BehaviorBuilt([d], 0);
    var inner := Build([d]).value.inners[v.san];
    var end := ExpectedArrival(v, inner, a + "?" + b, "", TransportFailed);
    ChainExact([d], 0, a + "?" + b, "", TransportFailed, ExpectedHops(v, inner), end);
    QuestionMarkArrival(v, inner, a, b);
  }

  /** An origin-request rewrite of the path, the query or both reaches the
      origin as written, whatever other hooks the behavior has, exactly when
      the path it leaves in force holds no `?`. */
  lemma UriRewritten(v: BehaviorView, inner: InnerView, path: string, args: string, o: Override)
    requires path != "" && path[0] == '/' && PassesA(v, inner)
    ensures var seen := SeenInside(v, path, args);
            var end := ExpectedArrival(v, inner, path, args, Continue(Some(o)));
            var newPath := if o.uri != "" then o.uri else seen.0;
            var newArgs := if o.querystring.Some? then o.querystring.value else seen.1;
            end.path == (if HasPrefix(newPath, "/") then newPath else "/" + newPath) && end.args == newArgs <==> '?' !in newPath
  {
    var seen := SeenInside(v, path, args);
    SeenKeepsSlash(v, path, args);
    var newPath := if o.uri != "" then o.uri else seen.0;
    var newArgs := if o.querystring.Some? then o.querystring.value else seen.1;
    SlashEnsured(newPath);
    ResplitIdentity(EnsureLeadingSlash(newPath), newArgs);
  }

  lemma SlashEnsured(p: string)
    requires p != ""
    ensures EnsureLeadingSlash(p) == if HasPrefix(p, "/") then p else "/" + p
    ensures '?' in EnsureLeadingSlash(p) <==> '?' in p
  {
    assert HasPrefix(p, "/") <==> p[0] == '/';
  }

  lemma SeenKeepsSlash(v: BehaviorView, path: string, args: string)
    requires path != "" && path[0] == '/'
    ensures SeenInside(v, path, args).0 != "" && SeenInside(v, path, args).0[0] == '/'
  {
    var a := MaybeResplit(v.viewerRequest, (path, args));
    ResplitKeepsSlash(path, args);
    ResplitKeepsSlash(a.0, a.1);
  }
}
