/** What the parts of the cache key mean, said without the functions that
    compute them: which entries a policy selects, which content coding a header
    asks for, which cookies a header carries. */
module SelectionLaws {
  import opened Text
  import opened CacheKey
  import opened CacheKeyLaws

  // ---- behaviors ---------------------------------------------------------------------------

  lemma {:induction false} CollectMeaning(entries: seq<Entry>, names: seq<string>, e: Entry)
    ensures e in Collect(entries, Whitelist, names) <==> e in entries && e.0 in names
    ensures e in Collect(entries, AllExcept, names) <==> e in entries && e.0 !in names
    ensures e in Collect(entries, All, names) <==> e in entries
    ensures e !in Collect(entries, Nothing, names)
  {
    if entries != [] {
      var n := |entries| - 1;
      CollectMeaning(entries[..n], names, e);
      assert e in entries <==> e in entries[..n] || e == entries[n];
    }
  }

  /** The reference reading of a behavior. */
  ghost predicate Wanted(behavior: Behavior, names: seq<string>, name: string) {
    behavior == All || (behavior == Whitelist && name in names) || (behavior == AllExcept && name !in names)
  }

  lemma CollectWanted(entries: seq<Entry>, behavior: Behavior, names: seq<string>, e: Entry)
    ensures e in Collect(entries, behavior, names) <==> e in entries && Wanted(behavior, names, e.0)
  {
    CollectMeaning(entries, names, e);
  }

  /** Both lists hold the same entries among the wanted ones. */
  ghost predicate AgreeOnWanted(a: seq<Entry>, b: seq<Entry>, behavior: Behavior, names: seq<string>) {
    forall e: Entry :: Wanted(behavior, names, e.0) ==> (e in a <==> e in b)
  }

  lemma AgreeOnWantedExactly(a: seq<Entry>, b: seq<Entry>, behavior: Behavior, names: seq<string>)
    requires DistinctNames(a) && DistinctNames(b)
    ensures AsMap(Collect(a, behavior, names)) == AsMap(Collect(b, behavior, names)) <==> AgreeOnWanted(a, b, behavior, names)
  {
    var x, y := Collect(a, behavior, names), Collect(b, behavior, names);
    CollectFrom(a, behavior, names);
    CollectFrom(b, behavior, names);
    forall e: Entry
      ensures e in x <==> e in a && Wanted(behavior, names, e.0)
      ensures e in y <==> e in b && Wanted(behavior, names, e.0)
    {
      CollectWanted(a, behavior, names, e);
      CollectWanted(b, behavior, names, e);
    }
    if AsMap(x) == AsMap(y) {
      forall e: Entry
        ensures e in x <==> e in y
      {
        AsMapMembers(x, e);
        AsMapMembers(y, e);
      }
    }
    if AgreeOnWanted(a, b, behavior, names) {
      MapFromMembers(x, y);
      MapFromMembers(y, x);
      assert AsMap(x).Keys == AsMap(y).Keys;
    }
  }

  /** Two requests agree on everything this policy takes into the key. */
  ghost predicate AgreeUnder(p: Policy, r: Request, r': Request, parseFloat: string -> Option<real>) {
    && Verb(r) == Verb(r') && Uri(r) == Uri(r')
    && (p.headersWhitelisted ==> AgreeOnWanted(LowerNames(r.headers), LowerNames(r'.headers), Whitelist, LowerAll(p.headers)))
    && AgreeOnWanted(r.cookies, r'.cookies, p.cookieBehavior, p.cookies)
    && AgreeOnWanted(QueryTexts(r.queries), QueryTexts(r'.queries), p.queryBehavior, p.queries)
    && Encoding(r.acceptEncoding, p.gzip, p.brotli, parseFloat) == Encoding(r'.acceptEncoding, p.gzip, p.brotli, parseFloat)
  }

  lemma HeadersAgree(p: Policy, r: Request, r': Request)
    requires Distinct(r) && Distinct(r')
    ensures AsMap(HeaderEntries(r, p)) == AsMap(HeaderEntries(r', p))
       <==> (p.headersWhitelisted ==> AgreeOnWanted(LowerNames(r.headers), LowerNames(r'.headers), Whitelist, LowerAll(p.headers)))
  {
    var behavior := if p.headersWhitelisted then Whitelist else Nothing;
    AgreeOnWantedExactly(LowerNames(r.headers), LowerNames(r'.headers), behavior, LowerAll(p.headers));
  }

  /** Under one policy, two requests share a key if and only if they agree on
      what the policy wants: listed headers, and the cookies and queries that a
      whitelist lists, an all-except does not, or all. Nothing else shows. */
  lemma KeyShowsExactlyTheWanted(sha: string -> string, r: Request, r': Request, p: Policy, parseFloat: string -> Option<real>)
    requires Distinct(r) && Distinct(r') && Clean(r, p) && Clean(r', p)
    requires HexDigests(sha, Material(r, p, parseFloat), Material(r', p, parseFloat))
    ensures Key(sha, r, p, parseFloat) == Key(sha, r', p, parseFloat) <==> AgreeUnder(p, r, r', parseFloat)
  {
    KeyExact(sha, r, p, r', p, parseFloat);
    EntriesAgreeWithSelection(r, p, parseFloat);
    EntriesAgreeWithSelection(r', p, parseFloat);
    HeadersAgree(p, r, r');
    AgreeOnWantedExactly(r.cookies, r'.cookies, p.cookieBehavior, p.cookies);
    AgreeOnWantedExactly(QueryTexts(r.queries), QueryTexts(r'.queries), p.queryBehavior, p.queries);
  }

  /** Under a query whitelist, requests that differ only in unlisted query
      parameters share a key, whatever their fields contain. */
  lemma UnlistedQueriesIgnored(sha: string -> string, r: Request, queries: seq<(string, QueryValue)>, p: Policy,
                               parseFloat: string -> Option<real>)
    requires Distinct(r) && Distinct(r.(queries := queries)) && p.queryBehavior == Whitelist
    requires forall e: Entry :: e.0 in p.queries ==> (e in QueryTexts(r.queries) <==> e in QueryTexts(queries))
    ensures Key(sha, r, p, parseFloat) == Key(sha, r.(queries := queries), p, parseFloat)
  {
    var r' := r.(queries := queries);
    EntriesAgreeWithSelection(r, p, parseFloat);
    EntriesAgreeWithSelection(r', p, parseFloat);
    AgreeOnWantedExactly(QueryTexts(r.queries), QueryTexts(queries), Whitelist, p.queries);
    SameSelectionSameKey(sha, r, p, r', p, parseFloat);
  }

  /** A request without a method is keyed as a GET, one without a URI as `/`. */
  lemma MissingFieldsDefault(sha: string -> string, r: Request, p: Policy, parseFloat: string -> Option<real>)
    ensures Key(sha, r.(verb := ""), p, parseFloat) == Key(sha, r.(verb := "GET"), p, parseFloat)
    ensures Key(sha, r.(uri := ""), p, parseFloat) == Key(sha, r.(uri := "/"), p, parseFloat)
  {
    assert Parts(r.(verb := ""), p, parseFloat) == Parts(r.(verb := "GET"), p, parseFloat);
    assert Parts(r.(uri := ""), p, parseFloat) == Parts(r.(uri := "/"), p, parseFloat);
  }

  // ---- Accept-Encoding -----------------------------------------------------------------------

  /** A token without parameters offers its coding, whatever its case and spacing. */
  lemma PlainTokenOffers(token: string, parseFloat: string -> Option<real>)
    requires ';' !in token && Trim(token) != ""
    ensures Coding(token, parseFloat) == Some(ToLower(Trim(token)))
  {
    SplitSingle(token, ';');
    assert ToLower(Trim(token)) != "";
  }

  lemma QParameterTight(num: string)
    requires num != "" && !IsSpace(num[|num| - 1])
    ensures Trim("q=" + num) == "q=" + num && HasPrefix("q=" + num, "q=") && ("q=" + num)[2..] == num
  {
    var t := "q=" + num;
    assert t[0] == 'q' && t[|t| - 1] == num[|num| - 1];
  }

  /** A token with a weight offers its coding exactly when the weight is positive. */
  lemma WeightDecides(name: string, num: string, q: real, parseFloat: string -> Option<real>)
    requires ';' !in name && Trim(name) != "" && ';' !in num && num != "" && !IsSpace(num[|num| - 1])
    requires parseFloat(num) == Some(q)
    ensures Coding(name + ";" + ("q=" + num), parseFloat) == if q > 0.0 then Some(ToLower(Trim(name))) else None
  {
    var param := "q=" + num;
    SplitFirst(name, ';', param);
    SplitSingle(param, ';');
    QParameterTight(num);
    var parts := Split(name + ";" + param, ';');
    assert parts == [name, param] && parts[1..] == [param] && [param][..0] == [];
    assert Weight([param], parseFloat) == q;
    assert ToLower(Trim(name)) != "";
  }

  /** Of several weights the last readable one counts; other parameters do not. */
  lemma LastWeightWins(params: seq<string>, p: string, parseFloat: string -> Option<real>)
    ensures var t := Trim(p);
            Weight(params + [p], parseFloat)
            == if HasPrefix(t, "q=") && parseFloat(t[2..]).Some? then parseFloat(t[2..]).value else Weight(params, parseFloat)
  {
    assert (params + [p])[..|params|] == params;
  }

  lemma OffersAppended(raw: string, token: string, name: string, parseFloat: string -> Option<real>)
    requires ',' !in token
    ensures AnyAccepts(Split(raw + "," + token, ','), name, parseFloat)
       <==> AnyAccepts(Split(raw, ','), name, parseFloat) || Coding(token, parseFloat) == Some(name)
  {
    SplitConcat(raw, ',', token);
    SplitSingle(token, ',');
    AnyAcceptsAppend(Split(raw, ','), token, name, parseFloat);
  }

  lemma CodingNames(parseFloat: string -> Option<real>)
    ensures Coding("br", parseFloat) == Some("br") && Coding("gzip", parseFloat) == Some("gzip") && "br" != "gzip"
  {
    assert Trim("br") == "br" && Trim("gzip") == "gzip";
    assert ToLower("br") == "br" && ToLower("gzip") == "gzip" && |"br"| != |"gzip"|;
    PlainTokenOffers("br", parseFloat);
    PlainTokenOffers("gzip", parseFloat);
  }

  /** Brotli wins wherever the policy enables it, gzip is next, and a coding
      that the policy does not enable never shows. */
  lemma EncodingPreference(raw: string, gzip: bool, brotli: bool, parseFloat: string -> Option<real>)
    ensures brotli ==> Encoding(raw + "," + "br", gzip, brotli, parseFloat) == "br"
    ensures gzip && !brotli ==> Encoding(raw + "," + "gzip", gzip, brotli, parseFloat) == "gzip"
    ensures !gzip && brotli ==> Encoding(raw + "," + "gzip", gzip, brotli, parseFloat) == Encoding(raw, gzip, brotli, parseFloat)
    ensures gzip && brotli ==>
              Encoding(raw + "," + "gzip", gzip, brotli, parseFloat)
              == if Encoding(raw, false, true, parseFloat) == "br" then "br" else "gzip"
    ensures !gzip && !brotli ==> Encoding(raw, gzip, brotli, parseFloat) == ""
    ensures gzip || brotli ==> Encoding("", gzip, brotli, parseFloat) == "identity"
  {
    CodingNames(parseFloat);
    OffersAppended(raw, "br", "br", parseFloat);
    OffersAppended(raw, "gzip", "br", parseFloat);
    OffersAppended(raw, "gzip", "gzip", parseFloat);
    EmptyHeaderAcceptsNothing(parseFloat);
  }

  /** A token that refuses its coding changes nothing. */
  lemma RefusedTokenIgnored(raw: string, token: string, gzip: bool, brotli: bool, parseFloat: string -> Option<real>)
    requires ',' !in token && Coding(token, parseFloat) == None
    ensures Encoding(raw + "," + token, gzip, brotli, parseFloat) == Encoding(raw, gzip, brotli, parseFloat)
  {
    OffersAppended(raw, token, "br", parseFloat);
    OffersAppended(raw, token, "gzip", parseFloat);
  }

  // ---- cookies ----------------------------------------------------------------------------------

  /** A cookie that a Cookie header can carry as it stands. */
  ghost predicate Printable(e: Entry) {
    && e.0 != "" && '=' !in e.0 && ';' !in e.0 && !IsSpace(e.0[0])
    && ';' !in e.1 && (e.1 == "" || !IsSpace(e.1[|e.1| - 1]))
  }

  lemma CookieLine(e: Entry)
    requires Printable(e)
    ensures CookiePair(Line(e)) == Some(e) && ';' !in Line(e)
  {
    var t := Line(e);
    IndexOfSeparator(e.0, '=', e.1);
    assert t[..|e.0|] == e.0 && t[|e.0| + 1..] == e.1;
    assert t[0] == e.0[0] && t[|t| - 1] == if e.1 == "" then '=' else e.1[|e.1| - 1];
    assert Trim(t) == t;
  }

  lemma {:induction false} CookieLines(entries: seq<Entry>)
    requires forall e :: e in entries ==> Printable(e)
    ensures CookieMap(Lines(entries)) == AsMap(entries)
  {
    if entries != [] {
      var n := |entries| - 1;
      assert Lines(entries)[..n] == Lines(entries[..n]);
      CookieLines(entries[..n]);
      CookieLine(entries[n]);
    }
  }

  /** Printing cookies into a header and parsing it gives every name its value. */
  lemma CookieRoundTrip(entries: seq<Entry>)
    requires entries != [] && forall e :: e in entries ==> Printable(e)
    ensures CookieMap(Split(Join(Lines(entries), ';'), ';')) == AsMap(entries)
  {
    forall l | l in Lines(entries)
      ensures ';' !in l
    {
      var i :| 0 <= i < |entries| && Lines(entries)[i] == l;
      CookieLine(entries[i]);
    }
    SplitJoin(Lines(entries), ';');
    CookieLines(entries);
  }
}
