/** The cache key identifies exactly the part of the request that the policy
    selects: the serialised material is uniquely decodable. */
module CacheKeyLaws {
  import opened Text
  import opened CacheKey

  // ---- reference definition of the selection ------------------------------------

  /** A name-to-value view that knows nothing of order or serialisation. */
  function AsMap(entries: seq<Entry>): map<string, string> {
    if entries == [] then map[]
    else
      var last := entries[|entries| - 1];
      AsMap(entries[..|entries| - 1])[last.0 := last.1]
  }

  function Restrict(m: map<string, string>, behavior: Behavior, names: seq<string>): map<string, string> {
    map k | k in m && Includes(behavior, names, k) :: m[k]
  }

  datatype Selection = Selection(
    verb: string, uri: string,
    headers: map<string, string>, cookies: map<string, string>, queries: map<string, string>,
    encoding: string)

  function Select(r: Request, p: Policy, parseFloat: string -> Option<real>): Selection {
    Selection(
      Verb(r), Uri(r),
      Restrict(AsMap(LowerNames(r.headers)), HeaderBehavior(p), LowerAll(p.headers)),
      Restrict(AsMap(r.cookies), p.cookieBehavior, p.cookies),
      Restrict(AsMap(QueryTexts(r.queries)), p.queryBehavior, p.queries),
      Encoding(r.acceptEncoding, p.gzip, p.brotli, parseFloat))
  }

  // ---- side conditions -------------------------------------------------------------

  ghost predicate DistinctNames(entries: seq<Entry>) {
    forall i, j :: 0 <= i < j < |entries| ==> entries[i].0 != entries[j].0
  }

  /** Object keys are distinct; header names are distinct ignoring case. */
  ghost predicate Distinct(r: Request) {
    && DistinctNames(LowerNames(r.headers))
    && DistinctNames(r.cookies)
    && DistinctNames(QueryTexts(r.queries))
  }

  ghost predicate OneLineEntries(entries: seq<Entry>) {
    forall e :: e in entries ==> '\n' !in e.0 && '\n' !in e.1
  }

  /** No serialised field contains a newline. */
  ghost predicate OneLineEach(r: Request, p: Policy) {
    && '\n' !in Verb(r) && '\n' !in Uri(r)
    && OneLineEntries(HeaderEntries(r, p))
    && OneLineEntries(CookieEntries(r, p))
    && OneLineEntries(QueryEntries(r, p))
  }

  ghost predicate CleanEntries(entries: seq<Entry>) {
    OneLineEntries(entries) && forall e :: e in entries ==> '=' !in e.0
  }

  /** No serialised field contains a newline and no serialised name an `=`. */
  ghost predicate Clean(r: Request, p: Policy) {
    && OneLineEach(r, p)
    && CleanEntries(HeaderEntries(r, p))
    && CleanEntries(CookieEntries(r, p))
    && CleanEntries(QueryEntries(r, p))
  }

  // ---- selecting entries agrees with restricting the map ------------------------------

  lemma {:induction false} CollectIsRestrict(entries: seq<Entry>, behavior: Behavior, names: seq<string>)
    ensures AsMap(Collect(entries, behavior, names)) == Restrict(AsMap(entries), behavior, names)
  {
    if entries != [] {
      var n := |entries| - 1;
      var before, last := Collect(entries[..n], behavior, names), entries[n];
      CollectIsRestrict(entries[..n], behavior, names);
      RestrictUpdate(AsMap(entries[..n]), last, behavior, names);
      if Includes(behavior, names, last.0) {
        assert (before + [last])[..|before|] == before;
      } else {
        assert before + [] == before;
      }
    }
  }

  lemma RestrictUpdate(m: map<string, string>, e: Entry, behavior: Behavior, names: seq<string>)
    ensures Restrict(m[e.0 := e.1], behavior, names)
         == if Includes(behavior, names, e.0) then Restrict(m, behavior, names)[e.0 := e.1] else Restrict(m, behavior, names)
  {
  }

  lemma {:induction false} CollectFrom(entries: seq<Entry>, behavior: Behavior, names: seq<string>)
    requires DistinctNames(entries)
    ensures DistinctNames(Collect(entries, behavior, names))
    ensures forall e :: e in Collect(entries, behavior, names) ==> e in entries
  {
    if entries != [] {
      var n := |entries| - 1;
      CollectFrom(entries[..n], behavior, names);
      assert forall e :: e in entries[..n] ==> e.0 != entries[n].0;
    }
  }

  lemma {:induction false} AsMapMembers(entries: seq<Entry>, e: Entry)
    requires DistinctNames(entries)
    ensures e in entries <==> e.0 in AsMap(entries) && AsMap(entries)[e.0] == e.1
  {
    if entries != [] {
      var n := |entries| - 1;
      AsMapMembers(entries[..n], e);
      assert entries == entries[..n] + [entries[n]];
      if e.0 == entries[n].0 {
        assert e !in entries[..n];
      }
    }
  }

  lemma ByFirstIsTotalPreorder()
    ensures TotalPreorder(ByFirst)
  {
    StringLeIsTotalPreorder();
    forall x: Entry, y: Entry
      ensures ByFirst(x, y) || ByFirst(y, x)
    {
      StringLeTotal(x.0, y.0);
    }
    forall x: Entry, y: Entry, z: Entry | ByFirst(x, y) && ByFirst(y, z)
      ensures ByFirst(x, z)
    {
      StringLeTransitive(x.0, y.0, z.0);
    }
  }

  lemma DistinctNamesDiscriminate(a: seq<Entry>)
    requires DistinctNames(a)
    ensures NoDuplicates(a) && Discriminates(a, ByFirst)
  {
    forall x, y | x in a && y in a && ByFirst(x, y) && ByFirst(y, x)
      ensures x == y
    {
      StringLeAntisymmetric(x.0, y.0);
    }
  }

  /** Sorting makes the lines a function of the name-to-value view. */
  lemma SameMapSameLines(a: seq<Entry>, b: seq<Entry>)
    requires DistinctNames(a) && DistinctNames(b)
    requires AsMap(a) == AsMap(b)
    ensures SortedLines(a) == SortedLines(b)
  {
    forall e
      ensures e in a <==> e in b
    {
      AsMapMembers(a, e);
      AsMapMembers(b, e);
    }
    DistinctNamesDiscriminate(a);
    DistinctNamesDiscriminate(b);
    SameSetSameMultiset(a, b);
    ByFirstIsTotalPreorder();
    SortPermutation(a, b, ByFirst);
  }

  // ---- decoding ------------------------------------------------------------------------

  lemma LineInjective(a: Entry, b: Entry)
    requires '=' !in a.0 && '=' !in b.0
    requires Line(a) == Line(b)
    ensures a == b
  {
    IndexOfSeparator(a.0, '=', a.1);
    IndexOfSeparator(b.0, '=', b.1);
    assert Line(a)[..|a.0|] == a.0 && Line(b)[..|b.0|] == b.0;
    assert Line(a)[|a.0| + 1..] == a.1 && Line(b)[|b.0| + 1..] == b.1;
  }

  lemma LinesInjective(a: seq<Entry>, b: seq<Entry>)
    requires CleanEntries(a) && CleanEntries(b)
    requires Lines(a) == Lines(b)
    ensures a == b
  {
    assert |a| == |Lines(a)| == |b|;
    forall i | 0 <= i < |a|
      ensures a[i] == b[i]
    {
      assert Line(a[i]) == Lines(a)[i] == Lines(b)[i] == Line(b[i]);
      LineInjective(a[i], b[i]);
    }
  }

  lemma SortedLinesInjective(a: seq<Entry>, b: seq<Entry>)
    requires CleanEntries(a) && CleanEntries(b)
    requires DistinctNames(a) && DistinctNames(b)
    requires SortedLines(a) == SortedLines(b)
    ensures AsMap(a) == AsMap(b)
  {
    SortContents(a, ByFirst);
    SortContents(b, ByFirst);
    LinesInjective(Sort(a, ByFirst), Sort(b, ByFirst));
    MapFromMembers(a, b);
    MapFromMembers(b, a);
    assert AsMap(a).Keys == AsMap(b).Keys;
  }

  lemma MapFromMembers(a: seq<Entry>, b: seq<Entry>)
    requires DistinctNames(a) && DistinctNames(b)
    requires forall e :: e in a ==> e in b
    ensures forall k :: k in AsMap(a) ==> k in AsMap(b) && AsMap(b)[k] == AsMap(a)[k]
  {
    forall k | k in AsMap(a)
      ensures k in AsMap(b) && AsMap(b)[k] == AsMap(a)[k]
    {
      AsMapMembers(a, (k, AsMap(a)[k]));
      AsMapMembers(b, (k, AsMap(a)[k]));
    }
  }

  ghost predicate AllEntryLines(lines: seq<string>) {
    forall i :: 0 <= i < |lines| ==> '=' in lines[i]
  }

  /** A section ends at its first line without an `=`. */
  lemma SectionUnique(xs: seq<string>, ys: seq<string>, xs': seq<string>, ys': seq<string>, mark: string)
    requires AllEntryLines(xs) && AllEntryLines(xs') && '=' !in mark
    requires xs + ([mark] + ys) == xs' + ([mark] + ys')
    ensures xs == xs' && ys == ys'
  {
    var whole, whole' := xs + ([mark] + ys), xs' + ([mark] + ys');
    assert whole[|xs|] == mark && whole'[|xs'|] == mark;
    assert |xs| == |xs'|;
    assert whole[..|xs|] == xs && whole'[..|xs'|] == xs';
    assert whole[|xs| + 1..] == ys && whole'[|xs'| + 1..] == ys';
  }

  /** Three sections and the encoding class, in the shape `compute` emits. */
  ghost function Sections(hs: seq<string>, cs: seq<string>, qs: seq<string>, enc: string): seq<string> {
    hs + (["c"] + (cs + (["q"] + (qs + (["a"] + [enc])))))
  }

  lemma SectionsUnique(hs: seq<string>, cs: seq<string>, qs: seq<string>, enc: string,
                       hs': seq<string>, cs': seq<string>, qs': seq<string>, enc': string)
    requires AllEntryLines(hs) && AllEntryLines(cs) && AllEntryLines(qs)
    requires AllEntryLines(hs') && AllEntryLines(cs') && AllEntryLines(qs')
    requires Sections(hs, cs, qs, enc) == Sections(hs', cs', qs', enc')
    ensures hs == hs' && cs == cs' && qs == qs' && enc == enc'
  {
    var q, q' := qs + (["a"] + [enc]), qs' + (["a"] + [enc']);
    var c, c' := cs + (["q"] + q), cs' + (["q"] + q');
    SectionUnique(hs, c, hs', c', "c");
    SectionUnique(cs, q, cs', q', "q");
    SectionUnique(qs, [enc], qs', [enc'], "a");
    assert [enc][0] == enc && [enc'][0] == enc';
  }

  lemma Reassociate(top: seq<string>, hs: seq<string>, cs: seq<string>, qs: seq<string>, enc: string)
    ensures top + hs + ["c"] + cs + ["q"] + qs + ["a", enc] == top + Sections(hs, cs, qs, enc)
  {
    var e := ["a"] + [enc];
    assert ["a", enc] == e;
    ConcatAssociative(top + hs + ["c"] + cs + ["q"], qs, e);
    ConcatAssociative(top + hs + ["c"] + cs, ["q"], qs + e);
    ConcatAssociative(top + hs + ["c"], cs, ["q"] + (qs + e));
    ConcatAssociative(top + hs, ["c"], cs + (["q"] + (qs + e)));
    ConcatAssociative(top, hs, ["c"] + (cs + (["q"] + (qs + e))));
  }

  lemma PartsAsSections(r: Request, p: Policy, parseFloat: string -> Option<real>)
    ensures Parts(r, p, parseFloat)
         == [FORMAT_VERSION, Verb(r), Uri(r), "h"]
            + Sections(SortedLines(HeaderEntries(r, p)), SortedLines(CookieEntries(r, p)),
                       SortedLines(QueryEntries(r, p)),
                       Encoding(r.acceptEncoding, p.gzip, p.brotli, parseFloat))
  {
    assert [FORMAT_VERSION, Verb(r), Uri(r)] + ["h"] == [FORMAT_VERSION, Verb(r), Uri(r), "h"];
    Reassociate([FORMAT_VERSION, Verb(r), Uri(r), "h"], SortedLines(HeaderEntries(r, p)), SortedLines(CookieEntries(r, p)),
                SortedLines(QueryEntries(r, p)), Encoding(r.acceptEncoding, p.gzip, p.brotli, parseFloat));
  }

  lemma SortedLinesShape(entries: seq<Entry>)
    ensures AllEntryLines(SortedLines(entries))
    ensures OneLineEntries(entries) ==> forall l :: l in SortedLines(entries) ==> '\n' !in l
  {
    SortContents(entries, ByFirst);
    var sorted := Sort(entries, ByFirst);
    forall i | 0 <= i < |sorted|
      ensures '=' in Lines(sorted)[i]
    {
      assert Line(sorted[i])[|sorted[i].0|] == '=';
    }
  }

  lemma PartsHaveNoNewline(r: Request, p: Policy, parseFloat: string -> Option<real>)
    requires OneLineEach(r, p)
    ensures Parts(r, p, parseFloat) != []
    ensures forall l :: l in Parts(r, p, parseFloat) ==> '\n' !in l
  {
    SortedLinesShape(HeaderEntries(r, p));
    SortedLinesShape(CookieEntries(r, p));
    SortedLinesShape(QueryEntries(r, p));
  }

  lemma MaterialDecodes(r: Request, p: Policy, r': Request, p': Policy, parseFloat: string -> Option<real>)
    requires OneLineEach(r, p) && OneLineEach(r', p')
    requires Material(r, p, parseFloat) == Material(r', p', parseFloat)
    ensures Parts(r, p, parseFloat) == Parts(r', p', parseFloat)
  {
    PartsHaveNoNewline(r, p, parseFloat);
    PartsHaveNoNewline(r', p', parseFloat);
    SplitJoin(Parts(r, p, parseFloat), '\n');
    SplitJoin(Parts(r', p', parseFloat), '\n');
  }

  lemma PartsDetermineLines(r: Request, p: Policy, r': Request, p': Policy, parseFloat: string -> Option<real>)
    requires Parts(r, p, parseFloat) == Parts(r', p', parseFloat)
    ensures Verb(r) == Verb(r') && Uri(r) == Uri(r')
    ensures SortedLines(HeaderEntries(r, p)) == SortedLines(HeaderEntries(r', p'))
    ensures SortedLines(CookieEntries(r, p)) == SortedLines(CookieEntries(r', p'))
    ensures SortedLines(QueryEntries(r, p)) == SortedLines(QueryEntries(r', p'))
    ensures Encoding(r.acceptEncoding, p.gzip, p.brotli, parseFloat)
         == Encoding(r'.acceptEncoding, p'.gzip, p'.brotli, parseFloat)
  {
    var hs, cs, qs := SortedLines(HeaderEntries(r, p)), SortedLines(CookieEntries(r, p)), SortedLines(QueryEntries(r, p));
    var hs', cs', qs' := SortedLines(HeaderEntries(r', p')), SortedLines(CookieEntries(r', p')), SortedLines(QueryEntries(r', p'));
    var enc := Encoding(r.acceptEncoding, p.gzip, p.brotli, parseFloat);
    var enc' := Encoding(r'.acceptEncoding, p'.gzip, p'.brotli, parseFloat);
    PartsAsSections(r, p, parseFloat);
    PartsAsSections(r', p', parseFloat);
    var parts, parts' := Parts(r, p, parseFloat), Parts(r', p', parseFloat);
    assert parts[1] == Verb(r) && parts'[1] == Verb(r');
    assert parts[2] == Uri(r) && parts'[2] == Uri(r');
    assert parts[4..] == Sections(hs, cs, qs, enc) && parts'[4..] == Sections(hs', cs', qs', enc');
    SortedLinesShape(HeaderEntries(r, p));
    SortedLinesShape(CookieEntries(r, p));
    SortedLinesShape(QueryEntries(r, p));
    SortedLinesShape(HeaderEntries(r', p'));
    SortedLinesShape(CookieEntries(r', p'));
    SortedLinesShape(QueryEntries(r', p'));
    SectionsUnique(hs, cs, qs, enc, hs', cs', qs', enc');
  }

  // ---- main results ----------------------------------------------------------------------

  lemma EntriesAgreeWithSelection(r: Request, p: Policy, parseFloat: string -> Option<real>)
    requires Distinct(r)
    ensures AsMap(HeaderEntries(r, p)) == Select(r, p, parseFloat).headers && DistinctNames(HeaderEntries(r, p))
    ensures AsMap(CookieEntries(r, p)) == Select(r, p, parseFloat).cookies && DistinctNames(CookieEntries(r, p))
    ensures AsMap(QueryEntries(r, p)) == Select(r, p, parseFloat).queries && DistinctNames(QueryEntries(r, p))
  {
    CollectIsRestrict(LowerNames(r.headers), HeaderBehavior(p), LowerAll(p.headers));
    CollectFrom(LowerNames(r.headers), HeaderBehavior(p), LowerAll(p.headers));
    CollectIsRestrict(r.cookies, p.cookieBehavior, p.cookies);
    CollectFrom(r.cookies, p.cookieBehavior, p.cookies);
    CollectIsRestrict(QueryTexts(r.queries), p.queryBehavior, p.queries);
    CollectFrom(QueryTexts(r.queries), p.queryBehavior, p.queries);
  }

  /** Requests that agree on what their policies select share a key, whatever
      their fields contain and in whatever order they were enumerated. */
  lemma SameSelectionSameKey(sha: string -> string, r: Request, p: Policy, r': Request, p': Policy,
                             parseFloat: string -> Option<real>)
    requires Distinct(r) && Distinct(r')
    requires Select(r, p, parseFloat) == Select(r', p', parseFloat)
    ensures Key(sha, r, p, parseFloat) == Key(sha, r', p', parseFloat)
  {
    EntriesAgreeWithSelection(r, p, parseFloat);
    EntriesAgreeWithSelection(r', p', parseFloat);
    SameMapSameLines(HeaderEntries(r, p), HeaderEntries(r', p'));
    SameMapSameLines(CookieEntries(r, p), CookieEntries(r', p'));
    SameMapSameLines(QueryEntries(r, p), QueryEntries(r', p'));
    assert Verb(r) == Select(r, p, parseFloat).verb == Verb(r');
    assert Uri(r) == Select(r, p, parseFloat).uri == Uri(r');
    assert Parts(r, p, parseFloat) == Parts(r', p', parseFloat);
  }

  lemma SameMaterialSameSelection(r: Request, p: Policy, r': Request, p': Policy, parseFloat: string -> Option<real>)
    requires Distinct(r) && Distinct(r') && Clean(r, p) && Clean(r', p')
    requires Material(r, p, parseFloat) == Material(r', p', parseFloat)
    ensures Select(r, p, parseFloat) == Select(r', p', parseFloat)
  {
    EntriesAgreeWithSelection(r, p, parseFloat);
    EntriesAgreeWithSelection(r', p', parseFloat);
    MaterialDecodes(r, p, r', p', parseFloat);
    PartsDetermineLines(r, p, r', p', parseFloat);
    SortedLinesInjective(HeaderEntries(r, p), HeaderEntries(r', p'));
    SortedLinesInjective(CookieEntries(r, p), CookieEntries(r', p'));
    SortedLinesInjective(QueryEntries(r, p), QueryEntries(r', p'));
  }

  /** `sha` behaves like SHA-256 in hex on these two inputs: no collision, no colon. */
  ghost predicate HexDigests(sha: string -> string, m: string, m': string) {
    && (sha(m) == sha(m') ==> m == m')
    && ':' !in sha(m) && ':' !in sha(m')
  }

  lemma KeySplits(d: string, uri: string, d': string, uri': string)
    requires ':' !in d && ':' !in d'
    requires d + ":" + uri == d' + ":" + uri'
    ensures d == d' && uri == uri'
  {
    IndexOfSeparator(d, ':', uri);
    IndexOfSeparator(d', ':', uri');
    assert (d + ":" + uri)[..|d|] == d && (d' + ":" + uri')[..|d'|] == d';
    assert (d + ":" + uri)[|d| + 1..] == uri && (d' + ":" + uri')[|d'| + 1..] == uri';
  }

  /** Everything that shows in the key, line by line. */
  ghost predicate SameSerialised(r: Request, p: Policy, r': Request, p': Policy, parseFloat: string -> Option<real>) {
    && Verb(r) == Verb(r') && Uri(r) == Uri(r')
    && SortedLines(HeaderEntries(r, p)) == SortedLines(HeaderEntries(r', p'))
    && SortedLines(CookieEntries(r, p)) == SortedLines(CookieEntries(r', p'))
    && SortedLines(QueryEntries(r, p)) == SortedLines(QueryEntries(r', p'))
    && Encoding(r.acceptEncoding, p.gzip, p.brotli, parseFloat) == Encoding(r'.acceptEncoding, p'.gzip, p'.brotli, parseFloat)
  }

  /** What a key identifies when no serialised field holds a newline: equal
      keys if and only if verb, URI, the sorted lines of each section and the
      encoding class agree, whatever the names contain or repeat. */
  lemma KeyIdentifiesLines(sha: string -> string, r: Request, p: Policy, r': Request, p': Policy,
                           parseFloat: string -> Option<real>)
    requires OneLineEach(r, p) && OneLineEach(r', p')
    requires HexDigests(sha, Material(r, p, parseFloat), Material(r', p', parseFloat))
    ensures Key(sha, r, p, parseFloat) == Key(sha, r', p', parseFloat) <==> SameSerialised(r, p, r', p', parseFloat)
  {
    var m, m' := Material(r, p, parseFloat), Material(r', p', parseFloat);
    if Key(sha, r, p, parseFloat) == Key(sha, r', p', parseFloat) {
      KeySplits(sha(m), Uri(r), sha(m'), Uri(r'));
      MaterialDecodes(r, p, r', p', parseFloat);
      PartsDetermineLines(r, p, r', p', parseFloat);
    }
  }

  /** Cache-key exactness: equal keys if and only if equal selections, even
      across different policies. */
  lemma KeyExact(sha: string -> string, r: Request, p: Policy, r': Request, p': Policy,
                 parseFloat: string -> Option<real>)
    requires Distinct(r) && Distinct(r') && Clean(r, p) && Clean(r', p')
    requires HexDigests(sha, Material(r, p, parseFloat), Material(r', p', parseFloat))
    ensures Key(sha, r, p, parseFloat) == Key(sha, r', p', parseFloat)
       <==> Select(r, p, parseFloat) == Select(r', p', parseFloat)
  {
    var m, m' := Material(r, p, parseFloat), Material(r', p', parseFloat);
    if Key(sha, r, p, parseFloat) == Key(sha, r', p', parseFloat) {
      KeySplits(sha(m), Uri(r), sha(m'), Uri(r'));
      SameMaterialSameSelection(r, p, r', p', parseFloat);
    }
    if Select(r, p, parseFloat) == Select(r', p', parseFloat) {
      SameSelectionSameKey(sha, r, p, r', p', parseFloat);
    }
  }

  // ---- order and repetition -------------------------------------------------------------------

  lemma PermutationSameMap(a: seq<Entry>, b: seq<Entry>)
    requires DistinctNames(a) && DistinctNames(b)
    requires multiset(a) == multiset(b)
    ensures AsMap(a) == AsMap(b)
  {
    SameContents(a, b);
    MapFromMembers(a, b);
    MapFromMembers(b, a);
    assert AsMap(a).Keys == AsMap(b).Keys;
  }

  /** Repeated query values count as a bag: repetitions with the same values
      serialise alike, and with comma-free values only those do. */
  lemma RepeatedValuesAreABag(v: seq<string>, w: seq<string>)
    ensures multiset(v) == multiset(w) ==> QueryText(Many(v)) == QueryText(Many(w))
    ensures v != [] && w != [] && (forall s :: s in v || s in w ==> ',' !in s) && QueryText(Many(v)) == QueryText(Many(w)) ==>
              multiset(v) == multiset(w)
  {
    SortContents(v, StringLe);
    SortContents(w, StringLe);
    if multiset(v) == multiset(w) {
      StringLeIsTotalPreorder();
      forall x, y | x in v && y in v && StringLe(x, y) && StringLe(y, x)
        ensures x == y
      {
        StringLeAntisymmetric(x, y);
      }
      SortPermutation(v, w, StringLe);
    }
    if v != [] && w != [] && (forall s :: s in v || s in w ==> ',' !in s) && QueryText(Many(v)) == QueryText(Many(w)) {
      SplitJoin(Sort(v, StringLe), ',');
      SplitJoin(Sort(w, StringLe), ',');
    }
  }

  /** A comma inside a value is where the other direction ends: `x=a,b` reads like `x=a&x=b`. */
  lemma CommaInValueCollides(a: string, b: string)
    requires StringLe(a, b)
    ensures QueryText(Many([a, b])) == QueryText(One(a + "," + b))
  {
    assert [a, b][..1] == [a] && [a][..0] == [] && [a][1..] == [];
    assert Sort([a], StringLe) == Insert(a, Sort([a][..0], StringLe), StringLe) == [a];
    assert Insert(b, [a], StringLe) == [a] + Insert(b, [a][1..], StringLe) == [a, b];
    assert Sort([a, b], StringLe) == [a, b];
    assert [a, b][1..] == [b] && Join([b], ',') == b;
  }

  /** What a query parameter holds, whatever the order of its occurrences. */
  function Bag(v: QueryValue): multiset<string> {
    match v
    case One(text) => multiset{text}
    case Many(texts) => multiset(texts)
  }

  lemma SameBagSameText(v: QueryValue, w: QueryValue)
    requires Bag(v) == Bag(w)
    ensures QueryText(v) == QueryText(w)
  {
    var vs := if v.One? then [v.text] else v.texts;
    var ws := if w.One? then [w.text] else w.texts;
    RepeatedValuesAreABag(vs, ws);
    SingleText(v);
    SingleText(w);
  }

  /** One occurrence serialises like an array of one. */
  lemma SingleText(v: QueryValue)
    ensures v.One? ==> QueryText(Many([v.text])) == v.text
  {
    if v.One? { assert [v.text][..0] == [] && Sort([v.text][..0], StringLe) == []; }
  }

  // ---- Accept-Encoding token order ---------------------------------------------------------------

  lemma {:induction false} WeightTrimmed(a: seq<string>, b: seq<string>, parseFloat: string -> Option<real>)
    requires SameTrimmed(a, b)
    ensures Weight(a, parseFloat) == Weight(b, parseFloat)
  {
    if a != [] { WeightTrimmed(a[..|a| - 1], b[..|b| - 1], parseFloat); }
  }

  /** White space around a token does not matter. */
  lemma CodingTrimmed(token: string, parseFloat: string -> Option<real>)
    ensures Coding(Trim(token), parseFloat) == Coding(token, parseFloat)
  {
    SplitTrim(token, ';');
    WeightTrimmed(Split(Trim(token), ';')[1..], Split(token, ';')[1..], parseFloat);
  }

  /** The tokens of a header, without their order and surrounding white space. */
  ghost function Tokens(raw: string): set<string> {
    set t | t in Split(raw, ',') :: Trim(t)
  }

  lemma AnyAcceptsTokens(raw: string, name: string, parseFloat: string -> Option<real>)
    ensures AnyAccepts(Split(raw, ','), name, parseFloat) <==> exists t :: t in Tokens(raw) && Accepts(t, name, parseFloat)
  {
    forall t | t in Split(raw, ',')
      ensures Trim(t) in Tokens(raw) && (Accepts(t, name, parseFloat) <==> Accepts(Trim(t), name, parseFloat))
    {
      CodingTrimmed(t, parseFloat);
    }
  }

  /** The Accept-Encoding class depends on which tokens stand in the header,
      not on their order, repetition or spacing. */
  lemma EncodingIgnoresOrder(a: string, b: string, gzip: bool, brotli: bool, parseFloat: string -> Option<real>)
    requires Tokens(a) == Tokens(b)
    ensures Encoding(a, gzip, brotli, parseFloat) == Encoding(b, gzip, brotli, parseFloat)
  {
    AnyAcceptsTokens(a, "br", parseFloat);
    AnyAcceptsTokens(b, "br", parseFloat);
    AnyAcceptsTokens(a, "gzip", parseFloat);
    AnyAcceptsTokens(b, "gzip", parseFloat);
  }

  // ---- all reorderings at once ---------------------------------------------------------------------

  function Bags(queries: seq<(string, QueryValue)>): (r: seq<(string, multiset<string>)>)
    ensures |r| == |queries|
    ensures forall i :: 0 <= i < |r| ==> r[i] == (queries[i].0, Bag(queries[i].1))
  {
    seq(|queries|, i requires 0 <= i < |queries| => (queries[i].0, Bag(queries[i].1)))
  }

  /** The same request, with headers, cookies and query parameters in any
      order, header names in any case, the occurrences of each query parameter
      in any order, and the Accept-Encoding tokens in any order. */
  ghost predicate Reordered(r: Request, r': Request) {
    && r.verb == r'.verb && r.uri == r'.uri
    && multiset(LowerNames(r.headers)) == multiset(LowerNames(r'.headers))
    && multiset(r.cookies) == multiset(r'.cookies)
    && multiset(Bags(r.queries)) == multiset(Bags(r'.queries))
    && Tokens(r.acceptEncoding) == Tokens(r'.acceptEncoding)
  }

  lemma QueryTextsWithin(q: seq<(string, QueryValue)>, q': seq<(string, QueryValue)>, e: Entry)
    requires multiset(Bags(q)) == multiset(Bags(q')) && e in QueryTexts(q)
    ensures e in QueryTexts(q')
  {
    var i :| 0 <= i < |q| && QueryTexts(q)[i] == e;
    SameContents(Bags(q), Bags(q'));
    assert Bags(q)[i] in Bags(q');
    var j :| 0 <= j < |q'| && Bags(q')[j] == Bags(q)[i];
    SameBagSameText(q[i].1, q'[j].1);
    assert QueryTexts(q')[j] == e;
  }

  lemma SameBagsSameMap(q: seq<(string, QueryValue)>, q': seq<(string, QueryValue)>)
    requires DistinctNames(QueryTexts(q)) && DistinctNames(QueryTexts(q'))
    requires multiset(Bags(q)) == multiset(Bags(q'))
    ensures AsMap(QueryTexts(q)) == AsMap(QueryTexts(q'))
  {
    forall e | e in QueryTexts(q)
      ensures e in QueryTexts(q')
    {
      QueryTextsWithin(q, q', e);
    }
    forall e | e in QueryTexts(q')
      ensures e in QueryTexts(q)
    {
      QueryTextsWithin(q', q, e);
    }
    MapFromMembers(QueryTexts(q), QueryTexts(q'));
    MapFromMembers(QueryTexts(q'), QueryTexts(q));
    assert AsMap(QueryTexts(q)).Keys == AsMap(QueryTexts(q')).Keys;
  }

  /** No reordering of a request, and no reordering of repeated query values, changes its key. */
  lemma ReorderingKeepsKey(sha: string -> string, r: Request, r': Request, p: Policy, parseFloat: string -> Option<real>)
    requires Distinct(r) && Distinct(r') && Reordered(r, r')
    ensures Key(sha, r, p, parseFloat) == Key(sha, r', p, parseFloat)
  {
    PermutationSameMap(LowerNames(r.headers), LowerNames(r'.headers));
    PermutationSameMap(r.cookies, r'.cookies);
    SameBagsSameMap(r.queries, r'.queries);
    EncodingIgnoresOrder(r.acceptEncoding, r'.acceptEncoding, p.gzip, p.brotli, parseFloat);
    SameSelectionSameKey(sha, r, p, r', p, parseFloat);
  }

  // ---- why the side conditions are there ------------------------------------------------------

  const ALL_QUERIES := Policy(false, [], Nothing, [], All, [], false, false)

  function OneQuery(name: string, value: string): Request {
    Request("GET", "/", [], [], [(name, One(value))], "")
  }

  lemma SingleEntry(e: Entry)
    ensures Collect([e], All, []) == [e] && Sort([e], ByFirst) == [e]
  {
    assert [e][..0] == [];
    assert Collect([e][..0], All, []) == [] && Sort([e][..0], ByFirst) == [];
  }

  lemma OneQueryEntries(name: string, value: string)
    ensures HeaderEntries(OneQuery(name, value), ALL_QUERIES) == []
    ensures CookieEntries(OneQuery(name, value), ALL_QUERIES) == []
    ensures QueryEntries(OneQuery(name, value), ALL_QUERIES) == [(name, value)]
    ensures SortedLines([(name, value)]) == [Line((name, value))]
  {
    SingleEntry((name, value));
    assert QueryTexts(OneQuery(name, value).queries) == [(name, value)];
  }

  lemma OneQuerySelection(name: string, value: string, parseFloat: string -> Option<real>)
    ensures Select(OneQuery(name, value), ALL_QUERIES, parseFloat).queries == map[name := value]
  {
    OneQueryEntries(name, value);
    CollectIsRestrict(QueryTexts(OneQuery(name, value).queries), All, []);
    assert [(name, value)][..0] == [];
  }

  /** A decoded query name may hold an `=`; then two different selections share a key. */
  lemma EqualsInNameCollides(sha: string -> string, parseFloat: string -> Option<real>, a: string, b: string, c: string)
    ensures Key(sha, OneQuery(a + "=" + b, c), ALL_QUERIES, parseFloat)
         == Key(sha, OneQuery(a, b + "=" + c), ALL_QUERIES, parseFloat)
    ensures Select(OneQuery(a + "=" + b, c), ALL_QUERIES, parseFloat)
         != Select(OneQuery(a, b + "=" + c), ALL_QUERIES, parseFloat)
  {
    EqualsSameLine(sha, parseFloat, a, b, c);
    OneQuerySelection(a + "=" + b, c, parseFloat);
    OneQuerySelection(a, b + "=" + c, parseFloat);
    assert |a + "=" + b| > |a|;
    assert a in map[a := b + "=" + c] && a !in map[a + "=" + b := c];
  }

  lemma EqualsSameLine(sha: string -> string, parseFloat: string -> Option<real>, a: string, b: string, c: string)
    ensures Key(sha, OneQuery(a + "=" + b, c), ALL_QUERIES, parseFloat)
         == Key(sha, OneQuery(a, b + "=" + c), ALL_QUERIES, parseFloat)
  {
    OneQueryEntries(a + "=" + b, c);
    OneQueryEntries(a, b + "=" + c);
    assert Line((a + "=" + b, c)) == Line((a, b + "=" + c));
  }

  function TwoQueries(a: string, v: string, b: string, w: string): Request {
    Request("GET", "/", [], [], [(a, One(v)), (b, One(w))], "")
  }

  lemma SortedPair(x: Entry, y: Entry)
    requires ByFirst(x, y)
    ensures Collect([x, y], All, []) == [x, y] && Sort([x, y], ByFirst) == [x, y]
  {
    SingleEntry(x);
    assert [x, y][..1] == [x] && [x][1..] == [];
    assert Insert(y, [x], ByFirst) == [x] + Insert(y, [x][1..], ByFirst) == [x, y];
  }

  lemma TwoQueriesEntries(a: string, v: string, b: string, w: string)
    requires StringLe(a, b)
    ensures HeaderEntries(TwoQueries(a, v, b, w), ALL_QUERIES) == []
    ensures CookieEntries(TwoQueries(a, v, b, w), ALL_QUERIES) == []
    ensures QueryEntries(TwoQueries(a, v, b, w), ALL_QUERIES) == [(a, v), (b, w)]
    ensures SortedLines([(a, v), (b, w)]) == [Line((a, v)), Line((b, w))]
  {
    SortedPair((a, v), (b, w));
    assert QueryTexts(TwoQueries(a, v, b, w).queries) == [(a, v), (b, w)];
  }

  lemma {:induction false} JoinAround(front: seq<string>, x: string, y: string, back: seq<string>)
    ensures Join(front + [x, y] + back, '\n') == Join(front + [x + "\n" + y] + back, '\n')
  {
    if front == [] {
      JoinPair(x, y, back);
    } else {
      var rest := front[1..];
      assert (front + [x, y] + back)[1..] == rest + [x, y] + back;
      assert (front + [x + "\n" + y] + back)[1..] == rest + [x + "\n" + y] + back;
      JoinAround(rest, x, y, back);
    }
  }

  lemma JoinPair(x: string, y: string, back: seq<string>)
    ensures Join([x, y] + back, '\n') == Join([x + "\n" + y] + back, '\n')
  {
    assert ([x, y] + back)[1..] == [y] + back;
    assert ([y] + back)[1..] == back && ([x + "\n" + y] + back)[1..] == back;
    if back != [] {
      assert x + ['\n'] + (y + ['\n'] + Join(back, '\n')) == (x + "\n" + y) + ['\n'] + Join(back, '\n');
    }
  }

  /** A decoded query value may hold a newline; `a=v%0Ab=w` then has the key of `a=v&b=w`. */
  lemma NewlineInValueCollides(sha: string -> string, parseFloat: string -> Option<real>,
                               a: string, v: string, b: string, w: string)
    requires StringLe(a, b) && a != b
    ensures Key(sha, OneQuery(a, v + "\n" + b + "=" + w), ALL_QUERIES, parseFloat)
         == Key(sha, TwoQueries(a, v, b, w), ALL_QUERIES, parseFloat)
    ensures Select(OneQuery(a, v + "\n" + b + "=" + w), ALL_QUERIES, parseFloat)
         != Select(TwoQueries(a, v, b, w), ALL_QUERIES, parseFloat)
  {
    NewlineSameMaterial(parseFloat, a, v, b, w);
    OneQuerySelection(a, v + "\n" + b + "=" + w, parseFloat);
    TwoQueriesSelection(a, v, b, w, parseFloat);
  }

  lemma TwoQueriesSelection(a: string, v: string, b: string, w: string, parseFloat: string -> Option<real>)
    requires StringLe(a, b)
    ensures b in Select(TwoQueries(a, v, b, w), ALL_QUERIES, parseFloat).queries
  {
    var e := [(a, v), (b, w)];
    assert QueryTexts(TwoQueries(a, v, b, w).queries) == e;
    assert e[|e| - 1] == (b, w);
  }

  const QUERY_FRONT := [FORMAT_VERSION, "GET", "/", "h", "c", "q"]
  const NO_ENCODING := ["a", ""]

  lemma PartsOfQueries(r: Request, parseFloat: string -> Option<real>)
    requires r.verb == "GET" && r.uri == "/"
    requires HeaderEntries(r, ALL_QUERIES) == [] && CookieEntries(r, ALL_QUERIES) == []
    ensures Parts(r, ALL_QUERIES, parseFloat) == QUERY_FRONT + SortedLines(QueryEntries(r, ALL_QUERIES)) + NO_ENCODING
  {
    var lines := SortedLines(QueryEntries(r, ALL_QUERIES));
    assert SortedLines(HeaderEntries(r, ALL_QUERIES)) == [] && SortedLines(CookieEntries(r, ALL_QUERIES)) == [];
    assert [FORMAT_VERSION, "GET", "/"] + ["h"] + [] + ["c"] + [] + ["q"] == QUERY_FRONT;
  }

  lemma NewlineSameMaterial(parseFloat: string -> Option<real>, a: string, v: string, b: string, w: string)
    requires StringLe(a, b)
    ensures Material(OneQuery(a, v + "\n" + b + "=" + w), ALL_QUERIES, parseFloat)
         == Material(TwoQueries(a, v, b, w), ALL_QUERIES, parseFloat)
  {
    var x, y := Line((a, v)), Line((b, w));
    OneQueryEntries(a, v + "\n" + b + "=" + w);
    TwoQueriesEntries(a, v, b, w);
    PartsOfQueries(OneQuery(a, v + "\n" + b + "=" + w), parseFloat);
    PartsOfQueries(TwoQueries(a, v, b, w), parseFloat);
    LineAround(a, v, b, w);
    JoinAround(QUERY_FRONT, x, y, NO_ENCODING);
  }

  lemma LineAround(a: string, v: string, b: string, w: string)
    ensures Line((a, v + "\n" + b + "=" + w)) == Line((a, v)) + "\n" + Line((b, w))
  {
  }
}
