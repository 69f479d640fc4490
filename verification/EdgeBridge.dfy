/** nginx/njs/edge.js: what the njs handlers do with a path, a query string and
    the edge-proxy's answer. */
module EdgeBridge {
  import opened Text

  /** The request fields of a continue reply that njs looks at; an absent
      querystring key is None. */
  datatype Override = Override(uri: string, querystring: Option<string>)

  /** How the POST to the edge-proxy went. */
  datatype Exchange =
    | NoDistribution          // $cf_distribution_id is empty: nothing is sent
    | TransportFailed         // ngx.fetch or JSON.parse threw
    | Malformed               // no action in the reply
    | ActionError
    | ShortCircuit(status: int)
    | Continue(request: Option<Override>)

  datatype Outcome = Redirect(target: string) | Respond(status: int)

  // ---- paths ---------------------------------------------------------------------------

  function EnsureLeadingSlash(path: string): string {
    if path == "" then "/" else if path[0] == '/' then path else "/" + path
  }

  /** The URI behind a location prefix, as a path. */
  function Tail(uri: string, prefix: string): string {
    var u := if uri == "" then "/" else uri;
    EnsureLeadingSlash(if prefix != "" && HasPrefix(u, prefix) then u[|prefix|..] else u)
  }

  function WithQuery(path: string, qs: string): string {
    if qs == "" then path else path + "?" + qs
  }

  function RedirectTarget(innerPrefix: string, tail: string, qs: string): string {
    WithQuery(innerPrefix + EnsureLeadingSlash(tail), qs)
  }

  /** nginx takes everything behind the first `?` of a target as arguments. */
  function SplitArgs(target: string): (string, string) {
    var i := IndexOf(target, '?');
    if i < 0 then (target, "") else (target[..i], target[i + 1..])
  }

  // ---- handlers --------------------------------------------------------------------------

  /** `computeOverrideTarget`: empty when neither URI nor query changed. */
  function OverrideTarget(uri: string, args: string, request: Option<Override>): string {
    if request.None? then ""
    else
      var o := request.value;
      var uriChanged := o.uri != "" && o.uri != uri;
      var qs := if o.querystring.Some? then o.querystring.value else args;
      if !uriChanged && qs == args then ""
      else WithQuery(if uriChanged then o.uri else uri, qs)
  }

  function ViewerRequest(forward: string, uri: string, args: string, ex: Exchange): Outcome {
    match ex
    case ShortCircuit(status) => Respond(status)
    case Continue(request) =>
      var target := OverrideTarget(uri, args, request);
      Redirect(if target != "" then target else forward)
    case _ => Redirect(forward)
  }

  function OriginRequest(innerPrefix: string, orPrefix: string, uri: string, args: string, ex: Exchange): Outcome {
    var tail := Tail(uri, orPrefix);
    match ex
    case ShortCircuit(status) => Respond(status)
    case Continue(request) =>
      var o := if request.Some? then request.value else Override("", None);
      var finalTail := if o.uri != "" && o.uri != tail then o.uri else tail;
      var qs := if o.querystring.Some? then o.querystring.value else args;
      Redirect(RedirectTarget(innerPrefix, finalTail, qs))
    case _ => Redirect(RedirectTarget(innerPrefix, tail, args))
  }

  /** The subrequest that `runOriginResponse` fetches. */
  function OriginResponseFetch(fetchPrefix: string, orespPrefix: string, uri: string, args: string): string {
    WithQuery(fetchPrefix + EnsureLeadingSlash(Tail(uri, orespPrefix)), args)
  }

  // ---- stripping undoes prefixing ---------------------------------------------------------

  lemma TailOfPrefixed(prefix: string, path: string)
    requires prefix != "" && path != "" && path[0] == '/'
    ensures Tail(prefix + path, prefix) == path
  {
    assert (prefix + path)[..|prefix|] == prefix && (prefix + path)[|prefix|..] == path;
  }

  /** A URI that does not start with the prefix is its own tail. */
  lemma TailOfOther(prefix: string, uri: string)
    requires uri != "" && uri[0] == '/' && !HasPrefix(uri, prefix)
    ensures Tail(uri, prefix) == uri
  {
  }

  /** Splitting undoes joining exactly when the path holds no `?`. */
  lemma SplitWithQuery(path: string, qs: string)
    ensures SplitArgs(WithQuery(path, qs)) == (path, qs) <==> '?' !in path
  {
    if '?' !in path {
      if qs != "" {
        IndexOfSeparator(path, '?', qs);
        assert (path + "?" + qs)[..|path|] == path && (path + "?" + qs)[|path| + 1..] == qs;
      }
    } else {
      var i := IndexOf(path, '?');
      assert path == path[..i] + ['?'] + path[i + 1..];
      assert WithQuery(path, qs) == path[..i] + ['?'] + (path[i + 1..] + if qs == "" then "" else "?" + qs);
      IndexOfSeparator(path[..i], '?', path[i + 1..] + if qs == "" then "" else "?" + qs);
      assert |SplitArgs(WithQuery(path, qs)).0| < |path|;
    }
  }
}
