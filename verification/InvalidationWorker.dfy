/** internal/invalidation/worker.go: one job against the cache directory, and
    the end-to-end statement that joins the njs key printer, the cache file
    layout, the Go key parser and the path matcher. */
module InvalidationWorker {
  import opened Text
  import opened PathPattern
  import opened CacheFiles
  import opened InvalidationStore
  import K = CacheKey
  import L = InvalidationLifecycle

  /** The `shouldPurge` closure: split off the URI at the first colon, then match. */
  predicate ShouldPurge(patterns: seq<Pattern>, storedKey: string) {
    var idx := IndexOf(storedKey, ':');
    idx >= 0 && exists p :: p in patterns && Match(p, storedKey[idx + 1..])
  }

  function Selector(patterns: seq<Pattern>): string -> bool {
    key => ShouldPurge(patterns, key)
  }

  /** The patterns of the paths that parse, in order. */
  function Patterns(paths: seq<string>): seq<Pattern> {
    if paths == [] then []
    else
      var last := paths[|paths| - 1];
      Patterns(paths[..|paths| - 1]) + if Acceptable(last) then [PatternOf(last)] else []
  }

  method ParseBatch(paths: seq<string>) returns (patterns: seq<Pattern>)
    ensures patterns == Patterns(paths)
  {
    patterns := [];
    for i := 0 to |paths|
      invariant patterns == Patterns(paths[..i])
    {
      assert paths[..i + 1][..i] == paths[..i];
      var r := ParsePattern(paths[i]);
      if r.Failure? { continue; }
      patterns := patterns + [r.value];
    }
    assert paths[..|paths|] == paths;
  }

  lemma {:induction false} PatternsFrom(paths: seq<string>, p: Pattern)
    ensures p in Patterns(paths) <==> exists s :: s in paths && Acceptable(s) && p == PatternOf(s)
  {
    if paths != [] {
      var n := |paths| - 1;
      PatternsFrom(paths[..n], p);
      assert forall s :: s in paths <==> s in paths[..n] || s == paths[n];
    }
  }

  /** The worker never skips a path that the handler accepted. */
  lemma {:induction false} NoPathSkipped(paths: seq<string>)
    requires forall s :: s in paths ==> Acceptable(s)
    ensures |Patterns(paths)| == |paths|
    ensures forall i :: 0 <= i < |paths| ==> Patterns(paths)[i] == PatternOf(paths[i])
  {
    if paths != [] { NoPathSkipped(paths[..|paths| - 1]); }
  }

  /** `process`: parse, purge once, then mark Completed even if the purge failed. */
  method Process(cache: FileSystemCache, store: BoltStore, id: string, paths: seq<string>,
                 visits: seq<Visit>, remove: string -> Removal, cancelled: nat -> bool, persisted: bool)
    returns (purged: nat, failed: bool, walked: nat)
    requires store.Valid()
    modifies cache, store
    ensures store.Valid()
    ensures store.State() == SetStatus(old(store.State()), id, Completed, persisted)
    ensures walked <= |visits| && (failed <==> walked < |visits|)
    ensures cache.files == old(cache.files)
                           - Removed(old(cache.files), visits[..walked], Selector(Patterns(paths)), remove)
  {
    var patterns := ParseBatch(paths);
    purged, failed, walked := cache.Purge(visits, Selector(patterns), remove, cancelled);
    var r := store.UpdateStatus(id, "Completed", persisted);
  }

  // ---- end to end ---------------------------------------------------------------------------

  /** A response that nginx stored for a request under a policy. */
  datatype Stored = Stored(header: string, request: K.Request, policy: K.Policy, rest: string)

  function KeyOf(sha: string -> string, parseFloat: string -> Option<real>, c: Stored): string {
    K.Key(sha, c.request, c.policy, parseFloat)
  }

  function FileOf(sha: string -> string, parseFloat: string -> Option<real>, c: Stored): string {
    CacheFile(c.header, KeyOf(sha, parseFloat, c), c.rest)
  }

  /** The binary header holds no marker, the URI no newline, the digest is hex. */
  ghost predicate WellFormed(sha: string -> string, parseFloat: string -> Option<real>, c: Stored) {
    var digest := sha(K.Material(c.request, c.policy, parseFloat));
    && MarkerFree(c.header)
    && '\n' !in K.Uri(c.request)
    && ':' !in digest && '\n' !in digest
  }

  /** Some path of the batch denotes the URI. */
  ghost predicate BatchDenotes(paths: seq<string>, uri: string) {
    exists p :: p in paths && Denotes(p, uri)
  }

  lemma ShouldPurgeMeaning(paths: seq<string>, digest: string, uri: string)
    requires forall p :: p in paths ==> Acceptable(p)
    requires ':' !in digest
    ensures ShouldPurge(Patterns(paths), digest + ":" + uri) <==> BatchDenotes(paths, uri)
  {
    var key := digest + ":" + uri;
    IndexOfSeparator(digest, ':', uri);
    assert key[|digest| + 1..] == uri;
    forall p | p in paths
      ensures PatternOf(p) in Patterns(paths) && (Match(PatternOf(p), uri) <==> Denotes(p, uri))
    {
      PatternsFrom(paths, PatternOf(p));
      MatchMeaning(p, uri);
    }
    forall q | q in Patterns(paths)
      ensures exists p :: p in paths && q == PatternOf(p)
    {
      PatternsFrom(paths, q);
    }
  }

  /** One file: an accepted batch selects it exactly when its request URI is
      denoted by the batch and its key line ends within the 4096 bytes read. */
  lemma FileSelectedExactly(sha: string -> string, parseFloat: string -> Option<real>, c: Stored, paths: seq<string>)
    requires WellFormed(sha, parseFloat, c)
    requires forall p :: p in paths ==> Acceptable(p)
    ensures Selected(Regular(FileOf(sha, parseFloat, c)), Selector(Patterns(paths)))
       <==> FitsHead(c.header, KeyOf(sha, parseFloat, c)) && BatchDenotes(paths, K.Uri(c.request))
  {
    var key := KeyOf(sha, parseFloat, c);
    StoredKeyRoundTrip(c.header, key, c.rest);
    ShouldPurgeMeaning(paths, sha(K.Material(c.request, c.policy, parseFloat)), K.Uri(c.request));
  }

  /** A response to a URI of more than 4096 bytes. */
  function LongStored(): Stored {
    Stored("", K.Request("GET", "/" + seq(HEAD_BYTES, _ => 'a'), [], [], [], ""),
           K.Policy(false, [], K.Nothing, [], K.Nothing, [], false, false), "")
  }

  lemma SlashStarAcceptable()
    ensures Acceptable("/*")
  {
    var p := "/*";
    assert p[1..] == "*" && p[1..][1..] == "";
  }

  /** It is well formed and the catch-all batch denotes it, yet does not select it. */
  lemma LongUriSurvives(sha: string -> string, parseFloat: string -> Option<real>)
    requires var digest := sha(K.Material(LongStored().request, LongStored().policy, parseFloat));
             ':' !in digest && '\n' !in digest
    ensures WellFormed(sha, parseFloat, LongStored()) && BatchDenotes(["/*"], K.Uri(LongStored().request))
    ensures !Selected(Regular(FileOf(sha, parseFloat, LongStored())), Selector(Patterns(["/*"])))
  {
    var uri := K.Uri(LongStored().request);
    assert "/*" == "/" + "*" && uri == "/" + uri[1..];
    assert Denotes("/*", uri);
    SlashStarAcceptable();
    FileSelectedExactly(sha, parseFloat, LongStored(), ["/*"]);
  }

  /** The directory holds exactly these stored responses. */
  ghost predicate Holds(files: map<string, Entry>, contents: map<string, Stored>,
                        sha: string -> string, parseFloat: string -> Option<real>) {
    && files.Keys == contents.Keys
    && forall path :: path in files ==>
         && WellFormed(sha, parseFloat, contents[path])
         && files[path] == Regular(FileOf(sha, parseFloat, contents[path]))
  }

  ghost predicate WalksAll(visits: seq<Visit>, files: map<string, Entry>) {
    forall path :: path in files ==> Seen(path) in visits
  }

  /** Whole directory: a complete walk without errors deletes exactly the files
      whose originating request the batch denotes (and whose key can be read),
      for every header, cookie and encoding variant. */
  lemma InvalidationExact(files: map<string, Entry>, contents: map<string, Stored>, visits: seq<Visit>, paths: seq<string>,
                          sha: string -> string, parseFloat: string -> Option<real>, remove: string -> Removal)
    requires Holds(files, contents, sha, parseFloat)
    requires WalksAll(visits, files) && (forall path :: path in files ==> !remove(path).Refused?)
    requires forall p :: p in paths ==> Acceptable(p)
    ensures Removed(files, visits, Selector(Patterns(paths)), remove)
         == set path | path in contents
                       && FitsHead(contents[path].header, KeyOf(sha, parseFloat, contents[path]))
                       && BatchDenotes(paths, K.Uri(contents[path].request))
  {
    var f := Selector(Patterns(paths));
    forall path
      ensures path in Removed(files, visits, f, remove)
         <==> && path in contents
              && FitsHead(contents[path].header, KeyOf(sha, parseFloat, contents[path]))
              && BatchDenotes(paths, K.Uri(contents[path].request))
    {
      RemovedMember(files, visits, path, f, remove);
      if path in contents {
        FileSelectedExactly(sha, parseFloat, contents[path], paths);
      }
    }
  }

  /** The pass that precedes a worker's Completed deletes exactly what the
      record's own batch denotes, whatever happened before in the run. */
  lemma RecordsBatchIsDeleted(s: L.System, files: map<string, Entry>, contents: map<string, Stored>, visits: seq<Visit>,
                              sha: string -> string, parseFloat: string -> Option<real>, remove: string -> Removal)
    requires L.Inv(s) && !s.worker.Idle?
    requires Holds(files, contents, sha, parseFloat)
    requires WalksAll(visits, files) && (forall path :: path in files ==> !remove(path).Refused?)
    ensures s.worker.job.id in s.store.mem
    ensures Removed(files, visits, Selector(Patterns(s.worker.job.paths)), remove)
         == set path | path in contents
                       && FitsHead(contents[path].header, KeyOf(sha, parseFloat, contents[path]))
                       && BatchDenotes(s.store.mem[s.worker.job.id].batch.paths, K.Uri(contents[path].request))
  {
    L.WorkerServesItsRecord(s);
    InvalidationExact(files, contents, visits, s.worker.job.paths, sha, parseFloat, remove);
  }

  lemma RemovedMember(files: map<string, Entry>, visits: seq<Visit>, path: string, f: string -> bool,
                      remove: string -> Removal)
    ensures path in Removed(files, visits, f, remove)
       <==> path in files && Seen(path) in visits && Selected(files[path], f) && !remove(path).Refused?
  {
    if path in files && Seen(path) in visits && Selected(files[path], f) && !remove(path).Refused? {
      assert path in Gone(files, Seen(path), f, remove);
    }
  }
}
