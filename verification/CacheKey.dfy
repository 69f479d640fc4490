/** nginx/njs/cache_key.js: the request part selected by a cache policy is
    serialised line by line, hashed, and emitted as `<sha256>:<uri>`. */
module CacheKey {
  import opened Text

  type Entry = (string, string)

  /** How a policy selects cookies and query strings. `Nothing` stands for
      'none', an absent behavior and every unrecognised string. */
  datatype Behavior = Nothing | Whitelist | AllExcept | All

  datatype Policy = Policy(
    headersWhitelisted: bool, headers: seq<string>,
    cookieBehavior: Behavior, cookies: seq<string>,
    queryBehavior: Behavior, queries: seq<string>,
    gzip: bool, brotli: bool)

  /** A query parameter that occurs several times arrives as an array. */
  datatype QueryValue = One(text: string) | Many(texts: seq<string>)

  /** The inputs of `compute`. The lists give the enumeration order of the
      JavaScript objects they stand for. */
  datatype Request = Request(
    verb: string, uri: string,
    headers: seq<Entry>, cookies: seq<Entry>, queries: seq<(string, QueryValue)>,
    acceptEncoding: string)

  // ---- selecting entries ------------------------------------------------------

  predicate Includes(behavior: Behavior, names: seq<string>, name: string) {
    match behavior
    case Nothing => false
    case Whitelist => name in names
    case AllExcept => name !in names
    case All => true
  }

  function QueryText(v: QueryValue): string {
    match v
    case One(text) => text
    case Many(texts) => Join(Sort(texts, StringLe), ',')
  }

  function QueryTexts(queries: seq<(string, QueryValue)>): (r: seq<Entry>)
    ensures |r| == |queries|
    ensures forall i :: 0 <= i < |r| ==> r[i] == (queries[i].0, QueryText(queries[i].1))
  {
    seq(|queries|, i requires 0 <= i < |queries| => (queries[i].0, QueryText(queries[i].1)))
  }

  function LowerNames(headers: seq<Entry>): (r: seq<Entry>)
    ensures |r| == |headers|
    ensures forall i :: 0 <= i < |r| ==> r[i] == (ToLower(headers[i].0), headers[i].1)
  {
    seq(|headers|, i requires 0 <= i < |headers| => (ToLower(headers[i].0), headers[i].1))
  }

  function LowerAll(names: seq<string>): (r: seq<string>)
    ensures |r| == |names|
    ensures forall i :: 0 <= i < |r| ==> r[i] == ToLower(names[i])
  {
    seq(|names|, i requires 0 <= i < |names| => ToLower(names[i]))
  }

  /** The entries whose name the behavior includes, in input order. */
  function Collect(entries: seq<Entry>, behavior: Behavior, names: seq<string>): seq<Entry> {
    if entries == [] then []
    else
      var last := entries[|entries| - 1];
      Collect(entries[..|entries| - 1], behavior, names)
      + if Includes(behavior, names, last.0) then [last] else []
  }

  function HeaderBehavior(p: Policy): Behavior {
    if p.headersWhitelisted then Whitelist else Nothing
  }

  function HeaderEntries(r: Request, p: Policy): seq<Entry> {
    Collect(LowerNames(r.headers), HeaderBehavior(p), LowerAll(p.headers))
  }

  function CookieEntries(r: Request, p: Policy): seq<Entry> {
    Collect(r.cookies, p.cookieBehavior, p.cookies)
  }

  function QueryEntries(r: Request, p: Policy): seq<Entry> {
    Collect(QueryTexts(r.queries), p.queryBehavior, p.queries)
  }

  // ---- the key material ---------------------------------------------------------

  predicate ByFirst(a: Entry, b: Entry) {
    StringLe(a.0, b.0)
  }

  function Line(e: Entry): string {
    e.0 + "=" + e.1
  }

  function Lines(entries: seq<Entry>): (r: seq<string>)
    ensures |r| == |entries|
    ensures forall i :: 0 <= i < |r| ==> r[i] == Line(entries[i])
  {
    seq(|entries|, i requires 0 <= i < |entries| => Line(entries[i]))
  }

  function SortedLines(entries: seq<Entry>): seq<string> {
    Lines(Sort(entries, ByFirst))
  }

  function Uri(r: Request): string {
    if r.uri == "" then "/" else r.uri
  }

  function Verb(r: Request): string {
    if r.verb == "" then "GET" else r.verb
  }

  const FORMAT_VERSION := "v3"

  /** The lines that are joined and hashed; `parseFloat` is JavaScript's. */
  function Parts(r: Request, p: Policy, parseFloat: string -> Option<real>): seq<string> {
    [FORMAT_VERSION, Verb(r), Uri(r)]
    + ["h"] + SortedLines(HeaderEntries(r, p))
    + ["c"] + SortedLines(CookieEntries(r, p))
    + ["q"] + SortedLines(QueryEntries(r, p))
    + ["a", Encoding(r.acceptEncoding, p.gzip, p.brotli, parseFloat)]
  }

  function Material(r: Request, p: Policy, parseFloat: string -> Option<real>): string {
    Join(Parts(r, p, parseFloat), '\n')
  }

  function Key(sha: string -> string, r: Request, p: Policy, parseFloat: string -> Option<real>): string {
    sha(Material(r, p, parseFloat)) + ":" + Uri(r)
  }

  // ---- Accept-Encoding ------------------------------------------------------------

  /** The weight of one token: the last readable `q=` parameter, or 1. */
  function Weight(params: seq<string>, parseFloat: string -> Option<real>): real {
    if params == [] then 1.0
    else
      var p := Trim(params[|params| - 1]);
      var before := Weight(params[..|params| - 1], parseFloat);
      if HasPrefix(p, "q=") then
        match parseFloat(p[2..])
        case Some(q) => q
        case None => before
      else before
  }

  /** The content coding a token names, unless it refuses it with `q=0`. */
  function Coding(token: string, parseFloat: string -> Option<real>): Option<string> {
    var parts := Split(token, ';');
    var name := ToLower(Trim(parts[0]));
    if name == "" || Weight(parts[1..], parseFloat) <= 0.0 then None else Some(name)
  }

  predicate Accepts(token: string, name: string, parseFloat: string -> Option<real>) {
    Coding(token, parseFloat) == Some(name)
  }

  predicate AnyAccepts(tokens: seq<string>, name: string, parseFloat: string -> Option<real>) {
    exists t :: t in tokens && Accepts(t, name, parseFloat)
  }

  function Encoding(raw: string, gzip: bool, brotli: bool, parseFloat: string -> Option<real>): string {
    var tokens := Split(raw, ',');
    if !gzip && !brotli then ""
    else if brotli && AnyAccepts(tokens, "br", parseFloat) then "br"
    else if gzip && AnyAccepts(tokens, "gzip", parseFloat) then "gzip"
    else "identity"
  }

  lemma AnyAcceptsAppend(tokens: seq<string>, t: string, name: string, parseFloat: string -> Option<real>)
    ensures AnyAccepts(tokens + [t], name, parseFloat)
       <==> AnyAccepts(tokens, name, parseFloat) || Accepts(t, name, parseFloat)
  {
    assert forall u :: u in tokens + [t] <==> u in tokens || u == t;
    if AnyAccepts(tokens, name, parseFloat) {
      var u :| u in tokens && Accepts(u, name, parseFloat);
      assert u in tokens + [t];
    }
  }

  /** The parameter loop: the last readable `q=` wins. */
  method TokenWeight(params: seq<string>, parseFloat: string -> Option<real>) returns (q: real)
    ensures q == Weight(params, parseFloat)
  {
    q := 1.0;
    for j := 0 to |params|
      invariant q == Weight(params[..j], parseFloat)
    {
      assert params[..j + 1][..j] == params[..j];
      var p := Trim(params[j]);
      if HasPrefix(p, "q=") {
        match parseFloat(p[2..])
        case Some(parsed) => q := parsed;
        case None =>
      }
    }
    assert params[..|params|] == params;
  }

  method ReadToken(token: string, parseFloat: string -> Option<real>) returns (c: Option<string>)
    ensures c == Coding(token, parseFloat)
  {
    var parts := Split(token, ';');
    var name := ToLower(Trim(parts[0]));
    if name == "" { return None; }
    var q := TokenWeight(parts[1..], parseFloat);
    if q <= 0.0 { return None; }
    return Some(name);
  }

  /** The token loop: which of two codings occur. */
  method ScanTokens(tokens: seq<string>, a: string, b: string, parseFloat: string -> Option<real>)
    returns (hasA: bool, hasB: bool)
    requires a != b
    ensures hasA == AnyAccepts(tokens, a, parseFloat) && hasB == AnyAccepts(tokens, b, parseFloat)
  {
    hasA, hasB := false, false;
    for i := 0 to |tokens|
      invariant hasA == AnyAccepts(tokens[..i], a, parseFloat)
      invariant hasB == AnyAccepts(tokens[..i], b, parseFloat)
    {
      assert tokens[..i + 1] == tokens[..i] + [tokens[i]];
      AnyAcceptsAppend(tokens[..i], tokens[i], a, parseFloat);
      AnyAcceptsAppend(tokens[..i], tokens[i], b, parseFloat);
      var c := ReadToken(tokens[i], parseFloat);
      if c == Some(a) {
        hasA := true;
      } else if c == Some(b) {
        hasB := true;
      }
    }
    assert tokens[..|tokens|] == tokens;
  }

  method NormalizeAcceptEncoding(raw: string, gzip: bool, brotli: bool, parseFloat: string -> Option<real>)
    returns (r: string)
    ensures r == Encoding(raw, gzip, brotli, parseFloat)
  {
    if !gzip && !brotli { return ""; }
    if raw == "" {
      EmptyHeaderAcceptsNothing(parseFloat);
      return "identity";
    }
    var hasBr, hasGzip := ScanTokens(Split(raw, ','), "br", "gzip", parseFloat);
    if hasBr && brotli { return "br"; }
    if hasGzip && gzip { return "gzip"; }
    return "identity";
  }

  lemma EmptyHeaderAcceptsNothing(parseFloat: string -> Option<real>)
    ensures !AnyAccepts(Split("", ','), "br", parseFloat)
    ensures !AnyAccepts(Split("", ','), "gzip", parseFloat)
  {
    SplitSingle("", ',');
    SplitSingle("", ';');
    assert Trim("") == "" && ToLower("") == "";
    assert Coding("", parseFloat) == None;
  }

  // ---- compute ------------------------------------------------------------------------

  method CollectByBehavior(entries: seq<Entry>, behavior: Behavior, names: seq<string>)
    returns (out: seq<Entry>)
    ensures out == Collect(entries, behavior, names)
  {
    out := [];
    if behavior == Nothing {
      NothingCollected(entries, names);
      return;
    }
    for i := 0 to |entries|
      invariant out == Collect(entries[..i], behavior, names)
    {
      assert entries[..i + 1][..i] == entries[..i];
      if Includes(behavior, names, entries[i].0) {
        out := out + [entries[i]];
      }
    }
    assert entries[..|entries|] == entries;
  }

  lemma {:induction false} NothingCollected(entries: seq<Entry>, names: seq<string>)
    ensures Collect(entries, Nothing, names) == []
  {
    if entries != [] { NothingCollected(entries[..|entries| - 1], names); }
  }

  method AppendLines(parts: seq<string>, entries: seq<Entry>) returns (out: seq<string>)
    ensures out == parts + Lines(entries)
  {
    out := parts;
    for i := 0 to |entries|
      invariant out == parts + Lines(entries)[..i]
    {
      out := out + [entries[i].0 + "=" + entries[i].1];
    }
  }

  /** `compute`; a missing policy is the thrown error. */
  method Compute(sha: string -> string, r: Request, policy: Option<Policy>, parseFloat: string -> Option<real>)
    returns (key: Result<string, string>)
    ensures policy.None? ==> key.Failure?
    ensures policy.Some? ==> key == Success(Key(sha, r, policy.value, parseFloat))
  {
    if policy.None? { return Failure("compute: policy is required"); }
    var p := policy.value;
    var uri := if r.uri == "" then "/" else r.uri;
    var verb := if r.verb == "" then "GET" else r.verb;
    var parts := [FORMAT_VERSION, verb, uri];
    var headers := CollectByBehavior(LowerNames(r.headers), HeaderBehavior(p), LowerAll(p.headers));
    parts := AppendLines(parts + ["h"], Sort(headers, ByFirst));
    var cookies := CollectByBehavior(r.cookies, p.cookieBehavior, p.cookies);
    parts := AppendLines(parts + ["c"], Sort(cookies, ByFirst));
    var queries := CollectByBehavior(QueryTexts(r.queries), p.queryBehavior, p.queries);
    parts := AppendLines(parts + ["q"], Sort(queries, ByFirst));
    var encoding := NormalizeAcceptEncoding(r.acceptEncoding, p.gzip, p.brotli, parseFloat);
    parts := parts + ["a", encoding];
    return Success(sha(Join(parts, '\n')) + ":" + uri);
  }

  // ---- the Cookie header -----------------------------------------------------------------

  /** One `name=value` pair; pairs without a name or without `=` are dropped. */
  function CookiePair(token: string): Option<Entry> {
    var t := Trim(token);
    var i := IndexOf(t, '=');
    if i <= 0 then None else Some((t[..i], t[i + 1..]))
  }

  function CookieMap(tokens: seq<string>): map<string, string> {
    if tokens == [] then map[]
    else
      var before := CookieMap(tokens[..|tokens| - 1]);
      match CookiePair(tokens[|tokens| - 1])
      case None => before
      case Some(e) => before[e.0 := e.1]
  }

  method CollectCookies(pairs: seq<string>) returns (out: map<string, string>)
    ensures out == CookieMap(pairs)
  {
    out := map[];
    for i := 0 to |pairs|
      invariant out == CookieMap(pairs[..i])
    {
      assert pairs[..i + 1][..i] == pairs[..i];
      var pair := CookiePair(pairs[i]);
      if pair.Some? { out := out[pair.value.0 := pair.value.1]; }
    }
    assert pairs[..|pairs|] == pairs;
  }

  method ParseCookieHeader(raw: string) returns (out: map<string, string>)
    ensures out == CookieMap(Split(raw, ';'))
  {
    if raw == "" {
      NoCookies();
      return map[];
    }
    out := CollectCookies(Split(raw, ';'));
  }

  /** Cookie names are never empty and never hold an `=`. */
  lemma {:induction false} CookieNames(tokens: seq<string>, k: string)
    requires k in CookieMap(tokens)
    ensures k != "" && '=' !in k
  {
    var front, last := tokens[..|tokens| - 1], CookiePair(tokens[|tokens| - 1]);
    if last.None? || last.value.0 != k { CookieNames(front, k); }
  }

  lemma NoCookies()
    ensures CookieMap(Split("", ';')) == map[]
  {
    SplitSingle("", ';');
    assert Trim("") == "" && IndexOf("", '=') == -1;
    assert [""][..0] == [];
  }

  lemma {:induction false} CookieMapConcat(a: seq<string>, b: seq<string>)
    ensures CookieMap(a + b) == CookieMap(a) + CookieMap(b)
  {
    if b == [] {
      assert a + b == a;
    } else {
      var n := |b| - 1;
      assert (a + b)[..|a + b| - 1] == a + b[..n];
      CookieMapConcat(a, b[..n]);
    }
  }

  /** Two Cookie headers joined by `;` mean both, the later one winning. */
  lemma CookieHeadersMerge(a: string, b: string)
    ensures CookieMap(Split(a + ";" + b, ';')) == CookieMap(Split(a, ';')) + CookieMap(Split(b, ';'))
  {
    SplitConcat(a, ';', b);
    CookieMapConcat(Split(a, ';'), Split(b, ';'));
  }
}
