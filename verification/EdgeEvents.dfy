/** internal/edgefunc/event.go and the `invoke` pipeline of server.go: request
    snapshots become CloudFront events and Lambda results become replies. */
module EdgeEvents {
  import opened Text

  type Headers = map<string, seq<string>>

  datatype CFHeader = CFHeader(key: string, value: string)

  type CFHeaders = map<string, seq<CFHeader>>

  datatype RawRequest = RawRequest(verb: string, uri: string, querystring: string, headers: Headers, clientIp: string)

  datatype CFRequest = CFRequest(verb: string, uri: string, querystring: string, headers: CFHeaders, clientIp: string)

  // ---- header names ------------------------------------------------------------------------

  predicate IsTokenChar(c: char) {
    || 'a' <= c <= 'z' || 'A' <= c <= 'Z' || '0' <= c <= '9'
    || c in {'!', '#', '$', '%', '&', '\'', '*', '+', '-', '.', '^', '_', '`', '|', '~'}
  }

  function UpperChar(c: char): char {
    if 'a' <= c <= 'z' then (c as int - 32) as char else c
  }

  /** The 26 small letters change, nothing else does. */
  lemma UpperCharExactly(c: char, i: nat)
    ensures i < 26 ==> UpperChar(LOWER_LETTERS[i]) == UPPER_LETTERS[i]
    ensures c !in LOWER_LETTERS ==> UpperChar(c) == c
  {
    if 'a' <= c <= 'z' { assert LOWER_LETTERS[c as int - 'a' as int] == c; }
  }

  /** Upper case at the start and after each hyphen, lower case elsewhere. */
  function TitleCase(s: string, upper: bool): (r: string)
    ensures |r| == |s|
    ensures forall i :: 0 <= i < |s| ==>
              r[i] == if (i == 0 && upper) || (i > 0 && s[i - 1] == '-') then UpperChar(s[i]) else LowerChar(s[i])
  {
    if s == [] then []
    else [if upper then UpperChar(s[0]) else LowerChar(s[0])] + TitleCase(s[1..], s[0] == '-')
  }

  lemma TitleCaseFolds(s: string, upper: bool)
    ensures ToLower(TitleCase(s, upper)) == ToLower(s)
  {
    forall i | 0 <= i < |s|
      ensures ToLower(TitleCase(s, upper))[i] == ToLower(s)[i]
    {
      assert TitleCase(s, upper)[i] == UpperChar(s[i]) || TitleCase(s, upper)[i] == LowerChar(s[i]);
    }
  }

  /** http.CanonicalHeaderKey; names that are no tokens stay as they are. */
  function CanonicalHeaderKey(name: string): (r: string)
    ensures ToLower(r) == ToLower(name)
    ensures (exists c :: c in name && !IsTokenChar(c)) ==> r == name
    ensures (forall c :: c in name ==> IsTokenChar(c)) ==>
              && |r| == |name|
              && forall i :: 0 <= i < |r| ==>
                   r[i] == if i == 0 || name[i - 1] == '-' then UpperChar(name[i]) else LowerChar(name[i])
  {
    TitleCaseFolds(name, true);
    if forall c :: c in name ==> IsTokenChar(c) then TitleCase(name, true) else name
  }

  ghost predicate DistinctIgnoringCase(h: Headers) {
    forall a, b :: a in h && b in h && ToLower(a) == ToLower(b) ==> a == b
  }

  // ---- building the event ------------------------------------------------------------------------

  function Tagged(key: string, values: seq<string>): (r: seq<CFHeader>)
    ensures |r| == |values|
    ensures forall i :: 0 <= i < |r| ==> r[i] == CFHeader(key, values[i])
  {
    seq(|values|, i requires 0 <= i < |values| => CFHeader(key, values[i]))
  }

  /** The values of these names one after the other, each under its canonical name. */
  function Grouped(h: Headers, names: seq<string>): seq<CFHeader> {
    if names == [] then []
    else
      var name := names[|names| - 1];
      Grouped(h, names[..|names| - 1]) + Tagged(CanonicalHeaderKey(name), if name in h then h[name] else [])
  }

  /** `names` enumerates the header names that fold to this lower-case one. */
  ghost predicate Spellings(h: Headers, lower: string, names: seq<string>) {
    NoDuplicates(names) && forall n :: n in names <==> n in h && ToLower(n) == lower
  }

  ghost predicate IsGroup(h: Headers, lower: string, entries: seq<CFHeader>) {
    exists names :: names != [] && Spellings(h, lower, names) && entries == Grouped(h, names)
  }

  /** Keys are the lower-case names; each holds the value lists of all its
      spellings, one list after the other, in some order of the spellings. */
  ghost predicate IsNormalised(h: Headers, out: CFHeaders) {
    && (forall name :: name in h ==> ToLower(name) in out)
    && (forall l :: l in out ==> IsGroup(h, l, out[l]))
  }

  lemma GroupedAppend(h: Headers, names: seq<string>, name: string)
    requires name in h
    ensures Grouped(h, names + [name]) == Grouped(h, names) + Tagged(CanonicalHeaderKey(name), h[name])
  {
    var all := names + [name];
    assert all[..|all| - 1] == names && all[|all| - 1] == name;
  }

  /** `order` enumerates the spellings of `lower` met so far. */
  ghost predicate SpellingsMet(h: Headers, todo: set<string>, lower: string, order: seq<string>) {
    order != [] && NoDuplicates(order) && forall n :: n in order <==> n in h && n !in todo && ToLower(n) == lower
  }

  ghost predicate GroupMet(h: Headers, todo: set<string>, lower: string, order: seq<string>, entries: seq<CFHeader>) {
    SpellingsMet(h, todo, lower, order) && entries == Grouped(h, order)
  }

  ghost predicate GroupsMet(h: Headers, todo: set<string>, out: CFHeaders, orders: map<string, seq<string>>) {
    orders.Keys == out.Keys && forall l :: l in out ==> GroupMet(h, todo, l, orders[l], out[l])
  }

  ghost predicate NamesMet(h: Headers, todo: set<string>, out: CFHeaders) {
    forall name :: name in h && name !in todo ==> ToLower(name) in out
  }

  ghost predicate Collecting(h: Headers, todo: set<string>, out: CFHeaders, orders: map<string, seq<string>>) {
    GroupsMet(h, todo, out, orders) && NamesMet(h, todo, out)
  }

  lemma MeetSpelling(h: Headers, todo: set<string>, name: string, order: seq<string>)
    requires name in todo && name in h
    requires order == [] || SpellingsMet(h, todo, ToLower(name), order)
    requires order == [] ==> forall n :: n in h && n !in todo ==> ToLower(n) != ToLower(name)
    ensures SpellingsMet(h, todo - {name}, ToLower(name), order + [name])
  {
    assert forall n :: n in order + [name] <==> n in order || n == name;
  }

  lemma MeetOther(h: Headers, todo: set<string>, name: string, lower: string, order: seq<string>, entries: seq<CFHeader>)
    requires GroupMet(h, todo, lower, order, entries) && ToLower(name) != lower
    ensures GroupMet(h, todo - {name}, lower, order, entries)
  {
  }

  lemma MeetGroup(h: Headers, todo: set<string>, name: string, order: seq<string>, entries: seq<CFHeader>)
    requires name in todo && name in h
    requires if order == [] then entries == [] && forall n :: n in h && n !in todo ==> ToLower(n) != ToLower(name)
             else GroupMet(h, todo, ToLower(name), order, entries)
    ensures GroupMet(h, todo - {name}, ToLower(name), order + [name], entries + Tagged(CanonicalHeaderKey(name), h[name]))
  {
    GroupedAppend(h, order, name);
    MeetSpelling(h, todo, name, order);
  }

  lemma MeetGroups(h: Headers, todo: set<string>, out: CFHeaders, orders: map<string, seq<string>>, name: string,
                   order: seq<string>, entries: seq<CFHeader>)
    requires GroupsMet(h, todo, out, orders) && GroupMet(h, todo - {name}, ToLower(name), order, entries)
    ensures GroupsMet(h, todo - {name}, out[ToLower(name) := entries], orders[ToLower(name) := order])
  {
    var l := ToLower(name);
    var out', orders' := out[l := entries], orders[l := order];
    assert orders'.Keys == out'.Keys;
    forall k | k in out'
      ensures GroupMet(h, todo - {name}, k, orders'[k], out'[k])
    {
      if k != l { MeetOther(h, todo, name, k, orders[k], out[k]); }
    }
  }

  lemma CollectOne(h: Headers, todo: set<string>, out: CFHeaders, orders: map<string, seq<string>>, name: string)
    requires Collecting(h, todo, out, orders) && name in todo && name in h
    ensures var l := ToLower(name);
            var order := if l in orders then orders[l] else [];
            var bucket := if l in out then out[l] else [];
            Collecting(h, todo - {name}, out[l := bucket + Tagged(CanonicalHeaderKey(name), h[name])], orders[l := order + [name]])
  {
    var l := ToLower(name);
    var order := if l in orders then orders[l] else [];
    var bucket := if l in out then out[l] else [];
    MeetGroup(h, todo, name, order, bucket);
    MeetGroups(h, todo, out, orders, name, order + [name], bucket + Tagged(CanonicalHeaderKey(name), h[name]));
  }

  lemma Collected(h: Headers, out: CFHeaders, orders: map<string, seq<string>>)
    requires Collecting(h, {}, out, orders)
    ensures IsNormalised(h, out)
  {
    forall l | l in out
      ensures IsGroup(h, l, out[l])
    {
      assert Spellings(h, l, orders[l]);
    }
  }

  /** Go map iteration: any order. */
  method NormaliseHeadersForEvent(h: Headers) returns (out: CFHeaders)
    ensures IsNormalised(h, out)
  {
    out := map[];
    ghost var orders: map<string, seq<string>> := map[];
    var todo := h.Keys;
    while todo != {}
      invariant todo <= h.Keys && Collecting(h, todo, out, orders)
      decreases |todo|
    {
      var name :| name in todo;
      var lower := ToLower(name);
      CollectOne(h, todo, out, orders, name);
      var bucket := if lower in out then out[lower] else [];
      var tagged := AppendTagged(bucket, CanonicalHeaderKey(name), h[name]);
      out := out[lower := tagged];
      orders := orders[lower := (if lower in orders then orders[lower] else []) + [name]];
      todo := todo - {name};
    }
    Collected(h, out, orders);
  }

  lemma OneSpelling(h: Headers, name: string, names: seq<string>)
    requires DistinctIgnoringCase(h) && name in h && Spellings(h, ToLower(name), names)
    ensures names == [] + [name]
  {
    assert name in names;
    OnlyOne(names, name);
  }

  /** With names distinct ignoring case each value list is kept in order under its name. */
  lemma NormalisedAt(h: Headers, out: CFHeaders, name: string)
    requires DistinctIgnoringCase(h) && IsNormalised(h, out) && name in h
    ensures ToLower(name) in out && out[ToLower(name)] == Tagged(CanonicalHeaderKey(name), h[name])
  {
    var l := ToLower(name);
    var names :| names != [] && Spellings(h, l, names) && out[l] == Grouped(h, names);
    OneSpelling(h, name, names);
    GroupedAppend(h, [], name);
  }

  lemma NormalisedNames(h: Headers, out: CFHeaders, l: string) returns (name: string)
    requires IsNormalised(h, out) && l in out
    ensures name in h && ToLower(name) == l
  {
    var names :| names != [] && Spellings(h, l, names) && out[l] == Grouped(h, names);
    name := names[0];
    assert name in names;
  }

  method AppendTagged(bucket: seq<CFHeader>, key: string, values: seq<string>) returns (out: seq<CFHeader>)
    ensures out == bucket + Tagged(key, values)
  {
    out := bucket;
    for i := 0 to |values|
      invariant out == bucket + Tagged(key, values)[..i]
    {
      out := out + [CFHeader(key, values[i])];
    }
  }

  /** The request block of the event for this snapshot. */
  ghost predicate IsEventRequest(raw: RawRequest, e: CFRequest) {
    && e.verb == raw.verb && e.uri == raw.uri && e.querystring == raw.querystring && e.clientIp == raw.clientIp
    && IsNormalised(raw.headers, e.headers)
  }

  /** BuildViewerRequestEvent and BuildOriginRequestEvent. */
  method BuildRequestEvent(raw: RawRequest) returns (r: Result<CFRequest, string>)
    ensures r.Success? <==> raw.verb != "" && raw.uri != ""
    ensures r.Success? ==> IsEventRequest(raw, r.value)
    ensures r.Success? ==>
              && r.value.verb == raw.verb && r.value.uri == raw.uri && r.value.querystring == raw.querystring
              && r.value.clientIp == raw.clientIp && IsNormalised(raw.headers, r.value.headers)
  {
    if raw.verb == "" { return Failure("request.method is required"); }
    if raw.uri == "" { return Failure("request.uri is required"); }
    var headers := NormaliseHeadersForEvent(raw.headers);
    return Success(CFRequest(raw.verb, raw.uri, raw.querystring, headers, raw.clientIp));
  }

  // ---- reading the Lambda's request back -----------------------------------------------------------

  function FlatName(lower: string, entries: seq<CFHeader>): string {
    if entries != [] && entries[0].key != "" then entries[0].key else lower
  }

  function Values(entries: seq<CFHeader>): (r: seq<string>)
    ensures |r| == |entries|
    ensures forall i :: 0 <= i < |r| ==> r[i] == entries[i].value
  {
    seq(|entries|, i requires 0 <= i < |entries| => entries[i].value)
  }

  ghost predicate DistinctFlatNames(h: CFHeaders) {
    forall a, b :: a in h && b in h && FlatName(a, h[a]) == FlatName(b, h[b]) ==> a == b
  }

  ghost predicate IsFlattened(h: CFHeaders, out: Headers) {
    && (forall l :: l in h ==> FlatName(l, h[l]) in out)
    && (forall k :: k in out ==> exists l :: l in h && FlatName(l, h[l]) == k && out[k] == Values(h[l]))
    && (DistinctFlatNames(h) ==> forall l :: l in h ==> out[FlatName(l, h[l])] == Values(h[l]))
  }

  method FlattenHeaders(h: CFHeaders) returns (out: Headers)
    ensures IsFlattened(h, out)
  {
    out := map[];
    var todo := h.Keys;
    while todo != {}
      invariant todo <= h.Keys
      invariant forall l :: l in h && l !in todo ==> FlatName(l, h[l]) in out
      invariant forall k :: k in out ==> exists l :: l in h && l !in todo && FlatName(l, h[l]) == k && out[k] == Values(h[l])
      invariant DistinctFlatNames(h) ==> forall l :: l in h && l !in todo ==> out[FlatName(l, h[l])] == Values(h[l])
      decreases |todo|
    {
      var lower :| lower in todo;
      var values := CollectValues(h[lower]);
      out := out[FlatName(lower, h[lower]) := values];
      todo := todo - {lower};
    }
  }

  method CollectValues(entries: seq<CFHeader>) returns (values: seq<string>)
    ensures values == Values(entries)
  {
    values := [];
    for i := 0 to |entries|
      invariant values == Values(entries)[..i]
    {
      values := values + [entries[i].value];
    }
  }

  function OrElse(s: string, fallback: string): string {
    if s == "" then fallback else s
  }

  /** Empty fields inherit from the original. */
  ghost predicate IsMerged(original: RawRequest, modified: CFRequest, out: RawRequest) {
    && out.verb == OrElse(modified.verb, original.verb)
    && out.uri == OrElse(modified.uri, original.uri)
    && out.querystring == OrElse(modified.querystring, original.querystring)
    && out.clientIp == OrElse(modified.clientIp, original.clientIp)
    && (if modified.headers == map[] then out.headers == original.headers else IsFlattened(modified.headers, out.headers))
  }

  method MergeRequest(original: RawRequest, modified: CFRequest) returns (out: RawRequest)
    ensures IsMerged(original, modified, out)
  {
    var headers := original.headers;
    if modified.headers != map[] { headers := FlattenHeaders(modified.headers); }
    out := RawRequest(OrElse(modified.verb, original.verb), OrElse(modified.uri, original.uri),
                      OrElse(modified.querystring, original.querystring), headers,
                      OrElse(modified.clientIp, original.clientIp));
  }

  // ---- echo round trip ----------------------------------------------------------------------------------

  /** A header with this lower-case name and exactly this value list. */
  ghost predicate HasHeader(h: Headers, lower: string, values: seq<string>) {
    exists k :: k in h && ToLower(k) == lower && h[k] == values
  }

  ghost predicate Carries(a: Headers, b: Headers) {
    forall n :: n in a ==> HasHeader(b, ToLower(n), a[n])
  }

  /** Equal up to the case of names, with every value list in order. */
  ghost predicate SameHeaders(a: Headers, b: Headers) {
    Carries(a, b) && Carries(b, a)
  }

  lemma TaggedValues(key: string, values: seq<string>)
    ensures Values(Tagged(key, values)) == values
  {
  }

  /** The name a flattened header gets back differs from the original only in case. */
  lemma FlatNameOfTagged(name: string, values: seq<string>)
    ensures ToLower(FlatName(ToLower(name), Tagged(CanonicalHeaderKey(name), values))) == ToLower(name)
  {
    ToLowerIdempotent(name);
  }

  lemma NormalisedFlatNames(h: Headers, n: CFHeaders)
    requires DistinctIgnoringCase(h) && IsNormalised(h, n)
    ensures DistinctFlatNames(n)
    ensures forall l :: l in n ==> ToLower(FlatName(l, n[l])) == l
  {
    forall l | l in n
      ensures ToLower(FlatName(l, n[l])) == l
    {
      var name := NormalisedNames(h, n, l);
      NormalisedAt(h, n, name);
      FlatNameOfTagged(name, h[name]);
    }
  }

  lemma HeaderComesBack(h: Headers, n: CFHeaders, f: Headers, name: string)
    requires DistinctIgnoringCase(h) && IsNormalised(h, n) && IsFlattened(n, f)
    requires name in h
    ensures HasHeader(f, ToLower(name), h[name])
  {
    NormalisedFlatNames(h, n);
    var l := ToLower(name);
    TaggedValues(CanonicalHeaderKey(name), h[name]);
    NormalisedAt(h, n, name);
    var k := FlatName(l, n[l]);
    assert k in f && ToLower(k) == l && f[k] == h[name];
  }

  lemma HeaderCameFrom(h: Headers, n: CFHeaders, f: Headers, k: string)
    requires DistinctIgnoringCase(h) && IsNormalised(h, n) && IsFlattened(n, f)
    requires k in f
    ensures HasHeader(h, ToLower(k), f[k])
  {
    NormalisedFlatNames(h, n);
    var l :| l in n && FlatName(l, n[l]) == k && f[k] == Values(n[l]);
    var name := NormalisedNames(h, n, l);
    NormalisedAt(h, n, name);
    TaggedValues(CanonicalHeaderKey(name), h[name]);
    assert h[name] == f[k] && ToLower(name) == ToLower(k);
  }

  lemma HeadersRoundTrip(h: Headers, n: CFHeaders, f: Headers)
    requires DistinctIgnoringCase(h) && IsNormalised(h, n) && IsFlattened(n, f)
    ensures SameHeaders(h, f)
  {
    forall name | name in h
      ensures HasHeader(f, ToLower(name), h[name])
    {
      HeaderComesBack(h, n, f, name);
    }
    forall k | k in f
      ensures HasHeader(h, ToLower(k), f[k])
    {
      HeaderCameFrom(h, n, f, k);
    }
  }

  /** A Lambda that returns the request it was given changes nothing. */
  lemma EchoRoundTrip(raw: RawRequest, event: CFRequest, out: RawRequest)
    requires raw.verb != "" && raw.uri != "" && DistinctIgnoringCase(raw.headers)
    requires IsEventRequest(raw, event) && IsMerged(raw, event, out)
    ensures out.verb == raw.verb && out.uri == raw.uri && out.querystring == raw.querystring && out.clientIp == raw.clientIp
    ensures SameHeaders(raw.headers, out.headers)
  {
    if event.headers != map[] { HeadersRoundTrip(raw.headers, event.headers, out.headers); }
  }

  /** Header names come back in canonical case with their value lists. */
  lemma CanonicalNamesComeBack(h: Headers, n: CFHeaders, f: Headers, name: string)
    requires DistinctIgnoringCase(h) && IsNormalised(h, n) && IsFlattened(n, f)
    requires name in h && h[name] != []
    ensures CanonicalHeaderKey(name) in f && f[CanonicalHeaderKey(name)] == h[name]
  {
    NormalisedFlatNames(h, n);
    NormalisedAt(h, n, name);
    TaggedValues(CanonicalHeaderKey(name), h[name]);
    if name == "" { assert ToLower(name) == "" && CanonicalHeaderKey(name) == ""; }
    var l := ToLower(name);
    assert FlatName(l, n[l]) == CanonicalHeaderKey(name) by {
      if CanonicalHeaderKey(name) == "" { assert |ToLower(CanonicalHeaderKey(name))| == 0; }
    }
  }

  /** Each field the Lambda set is taken, each it left empty is kept. */
  lemma MergeFieldByField(original: RawRequest, modified: CFRequest, out: RawRequest)
    requires IsMerged(original, modified, out)
    ensures out.verb == (if modified.verb == "" then original.verb else modified.verb)
    ensures out.uri == (if modified.uri == "" then original.uri else modified.uri)
    ensures out.querystring == (if modified.querystring == "" then original.querystring else modified.querystring)
    ensures out.clientIp == (if modified.clientIp == "" then original.clientIp else modified.clientIp)
    ensures modified.headers == map[] ==> out.headers == original.headers
    ensures forall l :: l in modified.headers && DistinctFlatNames(modified.headers) && modified.headers[l] != [] ==>
              var e := modified.headers[l];
              var name := if e[0].key != "" then e[0].key else l;
              name in out.headers && |out.headers[name]| == |e| && forall i :: 0 <= i < |e| ==> out.headers[name][i] == e[i].value
  {
  }

  /** A Lambda can replace the query string but not clear it. */
  lemma QueryCannotBeCleared(original: RawRequest, modified: CFRequest, out: RawRequest)
    requires IsMerged(original, modified, out)
    ensures out.querystring == "" <==> modified.querystring == "" && original.querystring == ""
  {
  }

  // ---- invoke -------------------------------------------------------------------------------------------------

  datatype EdgeFunction = EdgeFunction(eventType: string, arn: string, endpoint: string)

  /** A response as njs knows it, and as CloudFront events and Lambda results spell it. */
  datatype RawResponse = RawResponse(status: int, description: string, headers: Headers, body: string, bodyEncoding: string)

  datatype CFResponse = CFResponse(status: string, description: string, headers: CFHeaders, body: string, bodyEncoding: string)

  /** The event for a hook: a request and, for response hooks, a response. */
  datatype Event = Event(request: CFRequest, response: Option<CFResponse>)

  /** What the RIE hands back, decoded both as a response and as a request.
      `response.status` is "" unless the status is a non-empty string. */
  datatype LambdaReturn =
    | EmptyBody
    | ErrorEnvelope
    | Undecodable
    | Value(response: CFResponse, request: CFRequest)

  datatype Reply =
    | ReplyError
    | ReplyShortCircuit(shortCircuit: RawResponse)
    | ReplyContinue(request: Option<RawRequest>)
    | ReplyResponse(mutated: RawResponse)

  const VIEWER_REQUEST := "viewer-request"
  const ORIGIN_REQUEST := "origin-request"
  const ORIGIN_RESPONSE := "origin-response"
  const VIEWER_RESPONSE := "viewer-response"

  predicate IsRequestHook(eventType: string) {
    eventType == VIEWER_REQUEST || eventType == ORIGIN_REQUEST
  }

  predicate IsResponseHook(eventType: string) {
    eventType == ORIGIN_RESPONSE || eventType == VIEWER_RESPONSE
  }

  /** flattenResponse of a readable status. */
  ghost predicate IsFlatResponse(resp: CFResponse, status: int, flat: RawResponse) {
    && flat.status == status && flat.description == resp.description
    && flat.body == resp.body && flat.bodyEncoding == resp.bodyEncoding
    && (if resp.headers == map[] then flat.headers == map[] else IsFlattened(resp.headers, flat.headers))
  }

  method FlattenResponse(resp: CFResponse, atoi: string -> Option<int>) returns (r: Option<RawResponse>)
    ensures r.Some? <==> atoi(Trim(resp.status)).Some?
    ensures r.Some? ==> IsFlatResponse(resp, atoi(Trim(resp.status)).value, r.value)
  {
    var status := atoi(Trim(resp.status));
    if status.None? { return None; }
    var headers: Headers := map[];
    if resp.headers != map[] { headers := FlattenHeaders(resp.headers); }
    return Some(RawResponse(status.value, resp.description, headers, resp.body, resp.bodyEncoding));
  }

  /** translateRequestHook, with the error return of `invoke` folded in. */
  ghost predicate IsTranslation(original: RawRequest, ret: LambdaReturn, atoi: string -> Option<int>, reply: Reply) {
    match ret
    case Value(response, request) =>
      if response.status != "" then
        match atoi(Trim(response.status))
        case Some(n) => reply.ReplyShortCircuit? && IsFlatResponse(response, n, reply.shortCircuit)
        case None => reply == ReplyError
      else
        reply.ReplyContinue? && reply.request.Some? && IsMerged(original, request, reply.request.value)
    case _ => reply == ReplyError
  }

  method TranslateRequestHook(original: RawRequest, ret: LambdaReturn, atoi: string -> Option<int>) returns (reply: Reply)
    ensures IsTranslation(original, ret, atoi, reply)
  {
    if !ret.Value? { return ReplyError; }
    if ret.response.status != "" {
      var flat := FlattenResponse(ret.response, atoi);
      return if flat.Some? then ReplyShortCircuit(flat.value) else ReplyError;
    }
    var merged := MergeRequest(original, ret.request);
    return ReplyContinue(Some(merged));
  }

  /** The two response translators: origin-response may replace the status,
      viewer-response keeps the original one and drops any body. */
  ghost predicate IsResponseTranslation(eventType: string, original: RawResponse, ret: LambdaReturn,
                                        atoi: string -> Option<int>, reply: Reply) {
    match ret
    case Value(response, _) =>
      if eventType == VIEWER_RESPONSE then
        && reply.ReplyResponse?
        && IsFlatResponse(CFResponse("", original.description, response.headers, "", ""), original.status, reply.mutated)
      else
        (match atoi(Trim(response.status))
         case Some(n) => reply.ReplyResponse? && IsFlatResponse(response, n, reply.mutated)
         case None => reply == ReplyError)
    case _ => reply == ReplyError
  }

  method TranslateResponseHook(eventType: string, original: RawResponse, ret: LambdaReturn, atoi: string -> Option<int>)
    returns (reply: Reply)
    ensures IsResponseTranslation(eventType, original, ret, atoi, reply)
  {
    if !ret.Value? { return ReplyError; }
    if eventType == VIEWER_RESPONSE {
      var headers: Headers := map[];
      if ret.response.headers != map[] { headers := FlattenHeaders(ret.response.headers); }
      return ReplyResponse(RawResponse(original.status, original.description, headers, "", ""));
    }
    var flat := FlattenResponse(ret.response, atoi);
    return if flat.Some? then ReplyResponse(flat.value) else ReplyError;
  }

  /** The event of a snapshot; response events carry no body. */
  ghost predicate IsEvent(eventType: string, raw: RawRequest, response: Option<RawResponse>, itoa: int -> string, e: Event) {
    && IsEventRequest(raw, e.request)
    && (if IsResponseHook(eventType) then
          && response.Some? && e.response.Some?
          && e.response.value.status == itoa(response.value.status)
          && e.response.value.description == response.value.description
          && e.response.value.body == "" && e.response.value.bodyEncoding == ""
          && IsNormalised(response.value.headers, e.response.value.headers)
        else e.response == None)
  }

  method BuildEvent(eventType: string, raw: RawRequest, response: Option<RawResponse>, itoa: int -> string)
    returns (r: Result<Event, string>)
    ensures r.Success? <==> raw.verb != "" && raw.uri != "" && (IsResponseHook(eventType) ==> response.Some?)
    ensures r.Success? ==> IsEvent(eventType, raw, response, itoa, r.value)
  {
    if IsResponseHook(eventType) && response.None? { return Failure("response snapshot is required"); }
    var request := BuildRequestEvent(raw);
    if request.Failure? { return Failure(request.error); }
    if !IsResponseHook(eventType) { return Success(Event(request.value, None)); }
    var headers := NormaliseHeadersForEvent(response.value.headers);
    return Success(Event(request.value,
                         Some(CFResponse(itoa(response.value.status), response.value.description, headers, "", ""))));
  }

  /** The edge-proxy's answer to a request hook; `ret` is what the Lambda call
      gave, None if the call failed. */
  ghost predicate IsReply(binding: Option<EdgeFunction>, raw: RawRequest, ret: Option<LambdaReturn>,
                          atoi: string -> Option<int>, reply: Reply) {
    if binding.None? then reply == ReplyContinue(None)
    else if binding.value.endpoint == "" || raw.verb == "" || raw.uri == "" || ret.None? then reply == ReplyError
    else IsTranslation(raw, ret.value, atoi, reply)
  }

  /** The same for a response hook. */
  ghost predicate IsResponseReply(eventType: string, binding: Option<EdgeFunction>, raw: RawRequest, response: Option<RawResponse>,
                                  ret: Option<LambdaReturn>, atoi: string -> Option<int>, reply: Reply) {
    if binding.None? then reply == ReplyContinue(None)
    else if binding.value.endpoint == "" || raw.verb == "" || raw.uri == "" || response.None? || ret.None? then reply == ReplyError
    else IsResponseTranslation(eventType, response.value, ret.value, atoi, reply)
  }

  /** `event` is what the Lambda was called with; None if it was not called. */
  ghost predicate IsOutcome(eventType: string, binding: Option<EdgeFunction>, raw: RawRequest, response: Option<RawResponse>,
                            lambda: Event -> Option<LambdaReturn>, atoi: string -> Option<int>, itoa: int -> string,
                            event: Option<Event>, reply: Reply) {
    var ret := if event.Some? then lambda(event.value) else None;
    if IsRequestHook(eventType) then
      && IsReply(binding, raw, ret, atoi, reply)
      && (event.Some? <==> binding.Some? && binding.value.endpoint != "" && raw.verb != "" && raw.uri != "")
      && (event.Some? ==> IsEvent(eventType, raw, response, itoa, event.value))
    else if IsResponseHook(eventType) then
      && IsResponseReply(eventType, binding, raw, response, ret, atoi, reply)
      && (event.Some? <==> binding.Some? && binding.value.endpoint != "" && raw.verb != "" && raw.uri != "" && response.Some?)
      && (event.Some? ==> IsEvent(eventType, raw, response, itoa, event.value))
    else reply == ReplyError && event == None
  }

  /** `invoke`: event type, binding, endpoint, event, RIE call, translation.
      `lambda` is the function behind the endpoint. */
  method Invoke(eventType: string, binding: Option<EdgeFunction>, raw: RawRequest, response: Option<RawResponse>,
                lambda: Event -> Option<LambdaReturn>, atoi: string -> Option<int>, itoa: int -> string)
    returns (reply: Reply, event: Option<Event>)
    ensures IsOutcome(eventType, binding, raw, response, lambda, atoi, itoa, event, reply)
  {
    HooksDiffer();
    event := None;
    if !IsRequestHook(eventType) && !IsResponseHook(eventType) { return ReplyError, None; }
    if binding.None? { return ReplyContinue(None), None; }
    if binding.value.endpoint == "" { return ReplyError, None; }
    var built := BuildEvent(eventType, raw, response, itoa);
    if built.Failure? { return ReplyError, None; }
    event := Some(built.value);
    var result := lambda(built.value);
    if result.None? { return ReplyError, event; }
    if IsRequestHook(eventType) {
      reply := TranslateRequestHook(raw, result.value, atoi);
    } else {
      reply := TranslateResponseHook(eventType, response.value, result.value, atoi);
    }
  }

  lemma HooksDiffer()
    ensures forall e :: !(IsRequestHook(e) && IsResponseHook(e))
  {
    assert |VIEWER_REQUEST| == 14 && |ORIGIN_REQUEST| == 14 && |ORIGIN_RESPONSE| == 15 && |VIEWER_RESPONSE| == 15;
  }

  /** When `invoke` answers without calling the Lambda, and what. */
  lemma InvokeWithoutLambda(eventType: string, binding: Option<EdgeFunction>, raw: RawRequest, response: Option<RawResponse>,
                            lambda: Event -> Option<LambdaReturn>, atoi: string -> Option<int>, itoa: int -> string,
                            event: Option<Event>, reply: Reply)
    requires IsOutcome(eventType, binding, raw, response, lambda, atoi, itoa, event, reply)
    ensures eventType !in {"viewer-request", "origin-request", "origin-response", "viewer-response"} ==>
              reply == ReplyError && event == None
    ensures eventType in {"viewer-request", "origin-request", "origin-response", "viewer-response"} && binding == None ==>
              reply == ReplyContinue(None) && event == None
    ensures binding.Some? && (binding.value.endpoint == "" || raw.verb == "" || raw.uri == "") ==> reply == ReplyError && event == None
    ensures binding.Some? && response == None && eventType in {"origin-response", "viewer-response"} ==>
              reply == ReplyError && event == None
    ensures event.Some? && (lambda(event.value) == None || !lambda(event.value).value.Value?) ==> reply == ReplyError
  {
    HooksDiffer();
  }

  /** An origin-response Lambda sets the status, description and body it names;
      a status that cannot be read is an error. */
  lemma OriginResponseReplaces(binding: Option<EdgeFunction>, raw: RawRequest, response: Option<RawResponse>,
                               lambda: Event -> Option<LambdaReturn>, atoi: string -> Option<int>, itoa: int -> string,
                               event: Event, reply: Reply, ret: LambdaReturn)
    requires IsOutcome(ORIGIN_RESPONSE, binding, raw, response, lambda, atoi, itoa, Some(event), reply)
    requires lambda(event) == Some(ret) && ret.Value?
    ensures match atoi(Trim(ret.response.status))
            case None => reply == ReplyError
            case Some(n) =>
              && reply.ReplyResponse? && reply.mutated.status == n && reply.mutated.description == ret.response.description
              && reply.mutated.body == ret.response.body && reply.mutated.bodyEncoding == ret.response.bodyEncoding
  {
    HooksDiffer();
    assert |VIEWER_RESPONSE| == |ORIGIN_RESPONSE| && VIEWER_RESPONSE[0] == 'v' && ORIGIN_RESPONSE[0] == 'o';
  }

  /** Echo round trip for the response hooks: a Lambda that returns the
      response of its event keeps status, description and, up to the case of
      names, every header with its values in order. */
  lemma ResponseEchoRoundTrip(eventType: string, binding: Option<EdgeFunction>, raw: RawRequest, response: RawResponse,
                              lambda: Event -> Option<LambdaReturn>, atoi: string -> Option<int>, itoa: int -> string,
                              event: Event, reply: Reply, request: CFRequest)
    requires IsResponseHook(eventType) && DistinctIgnoringCase(response.headers)
    requires atoi(Trim(itoa(response.status))) == Some(response.status)
    requires IsOutcome(eventType, binding, raw, Some(response), lambda, atoi, itoa, Some(event), reply)
    requires lambda(event) == Some(Value(event.response.value, request))
    ensures reply.ReplyResponse? && reply.mutated.status == response.status
    ensures reply.mutated.description == response.description && SameHeaders(response.headers, reply.mutated.headers)
  {
    HooksDiffer();
    var headers := event.response.value.headers;
    if headers == map[] {
      assert response.headers == map[];
    } else {
      HeadersRoundTrip(response.headers, headers, reply.mutated.headers);
    }
  }

  /** Whatever the Lambda does, a viewer-response hook changes neither the
      status nor its description, and answers nothing by itself. */
  lemma ViewerResponseKeepsStatus(binding: Option<EdgeFunction>, raw: RawRequest, response: Option<RawResponse>,
                                  lambda: Event -> Option<LambdaReturn>, atoi: string -> Option<int>, itoa: int -> string,
                                  event: Option<Event>, reply: Reply)
    requires IsOutcome(VIEWER_RESPONSE, binding, raw, response, lambda, atoi, itoa, event, reply)
    ensures !reply.ReplyShortCircuit?
    ensures reply.ReplyResponse? ==>
              && response.Some? && reply.mutated.body == ""
              && reply.mutated.status == response.value.status && reply.mutated.description == response.value.description
  {
    HooksDiffer();
  }
}
