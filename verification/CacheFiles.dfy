/** internal/invalidation/cache.go: reading the stored key back from an nginx
    cache file, and the purge walk. Files hold one character per byte. */
module CacheFiles {
  import opened Text

  const MARKER := "\nKEY: "
  const HEAD_BYTES := 4096

  datatype HeadError = MarkerMissing | LineUnterminated

  // ---- searching bytes -----------------------------------------------------------------

  predicate OccursAt(s: string, p: string, i: int) {
    0 <= i && i + |p| <= |s| && s[i..i + |p|] == p
  }

  /** Offset of the first occurrence of `p`, or -1. */
  function Find(s: string, p: string): (i: int)
    ensures -1 <= i
    ensures i < 0 ==> forall j :: !OccursAt(s, p, j)
    ensures i >= 0 ==> OccursAt(s, p, i) && forall j :: OccursAt(s, p, j) ==> i <= j
    decreases |s|
  {
    if |s| < |p| then -1
    else if s[..|p|] == p then 0
    else if s == [] then -1
    else
      var r := Find(s[1..], p);
      OccursInTail(s, p);
      if r < 0 then -1 else r + 1
  }

  lemma OccursInTail(s: string, p: string)
    requires s != []
    ensures forall j {:trigger OccursAt(s, p, j)} :: 0 < j ==> (OccursAt(s, p, j) <==> OccursAt(s[1..], p, j - 1))
    ensures forall j {:trigger OccursAt(s[1..], p, j)} :: OccursAt(s[1..], p, j) ==> OccursAt(s, p, j + 1)
  {
    forall j {:trigger OccursAt(s, p, j)} | 0 < j
      ensures OccursAt(s, p, j) <==> OccursAt(s[1..], p, j - 1)
    {
      if j + |p| <= |s| { assert s[j..j + |p|] == s[1..][j - 1..j - 1 + |p|]; }
    }
    forall j {:trigger OccursAt(s[1..], p, j)} | OccursAt(s[1..], p, j)
      ensures OccursAt(s, p, j + 1)
    {
      assert s[j + 1..j + 1 + |p|] == s[1..][j..j + |p|];
    }
  }

  // ---- the stored key ---------------------------------------------------------------------

  function ParseHead(buf: string): Result<string, HeadError> {
    var idx := Find(buf, MARKER);
    if idx < 0 then Failure(MarkerMissing)
    else
      var tail := buf[idx + |MARKER|..];
      var end := IndexOf(tail, '\n');
      if end < 0 then Failure(LineUnterminated) else Success(tail[..end])
  }

  function Head(file: string): string {
    if |file| <= HEAD_BYTES then file else file[..HEAD_BYTES]
  }

  function ReadCacheKey(file: string): Result<string, HeadError> {
    ParseHead(Head(file))
  }

  lemma FindInPrefix(s: string, p: string, n: nat)
    requires n <= |s|
    requires Find(s[..n], p) >= 0
    ensures Find(s, p) == Find(s[..n], p)
  {
    var i := Find(s[..n], p);
    assert s[..n][i..i + |p|] == s[i..i + |p|];
    var j := Find(s, p);
    assert OccursAt(s, p, i);
    assert s[..n][j..j + |p|] == s[j..j + |p|];
    assert OccursAt(s[..n], p, j);
  }

  lemma IndexOfInPrefix(s: string, c: char, n: nat)
    requires n <= |s|
    requires IndexOf(s[..n], c) >= 0
    ensures IndexOf(s, c) == IndexOf(s[..n], c)
  {
    var i := IndexOf(s[..n], c);
    assert s == s[..i] + [c] + s[i + 1..];
    assert s[..n][..i] == s[..i];
    IndexOfSeparator(s[..i], c, s[i + 1..]);
  }

  /** A buffer in which the first marker follows `pre` and a newline ends the key. */
  lemma ParseShape(pre: string, key: string, post: string)
    requires '\n' !in key
    requires Find(pre + MARKER + (key + "\n" + post), MARKER) == |pre|
    ensures ParseHead(pre + MARKER + (key + "\n" + post)) == Success(key)
  {
    var tail := key + "\n" + post;
    assert (pre + MARKER + tail)[|pre| + |MARKER|..] == tail;
    IndexOfSeparator(key, '\n', post);
    assert tail == key + ['\n'] + post && tail[..|key|] == key;
  }

  lemma TailStable(short: string, long: string, start: nat)
    requires start <= |short| <= |long| && long[..|short|] == short
    requires IndexOf(short[start..], '\n') >= 0
    ensures IndexOf(long[start..], '\n') == IndexOf(short[start..], '\n')
    ensures long[start..][..IndexOf(long[start..], '\n')] == short[start..][..IndexOf(short[start..], '\n')]
  {
    var a, b := short[start..], long[start..];
    assert b[..|a|] == a;
    IndexOfInPrefix(b, '\n', |a|);
    var i := IndexOf(a, '\n');
    assert b[..i] == b[..|a|][..i];
  }

  /** Once the key parses from a prefix of a file, every longer prefix gives the same key. */
  lemma HeadPrefixStable(file: string, n: nat, m: nat)
    requires n <= m <= |file|
    requires ParseHead(file[..n]).Success?
    ensures ParseHead(file[..m]) == ParseHead(file[..n])
  {
    var short, long := file[..n], file[..m];
    assert long[..n] == short;
    FindInPrefix(long, MARKER, n);
    var start := Find(short, MARKER) + |MARKER|;
    TailStable(short, long, start);
  }

  // ---- files as nginx writes them --------------------------------------------------------------

  /** Binary header, `KEY:` line, then the stored response. */
  function CacheFile(header: string, key: string, rest: string): string {
    header + "\nKEY: " + key + "\n" + rest
  }

  ghost predicate MarkerFree(header: string) {
    forall i :: !OccursAt(header, MARKER, i)
  }

  /** No false marker straddles the boundary: the marker cannot overlap itself. */
  lemma FirstMarker(header: string, tail: string)
    requires MarkerFree(header)
    ensures Find(header + MARKER + tail, MARKER) == |header|
  {
    var s := header + MARKER + tail;
    assert s[|header|..|header| + |MARKER|] == MARKER;
    assert OccursAt(s, MARKER, |header|);
    forall i | 0 <= i < |header|
      ensures !OccursAt(s, MARKER, i)
    {
      NoStraddle(header, tail, i);
    }
  }

  /** An occurrence that starts in the header would lie inside it, or would
      put the marker's only newline at two places. */
  lemma NoStraddle(header: string, tail: string, i: nat)
    requires MarkerFree(header) && i < |header|
    ensures !OccursAt(header + MARKER + tail, MARKER, i)
  {
    var s, n := header + MARKER + tail, |MARKER|;
    if i + n <= |header| {
      assert s[i..i + n] == header[i..i + n];
      assert !OccursAt(header, MARKER, i);
    } else {
      var j := |header| - i;
      assert s[i..i + n][j] == s[|header|] == '\n';
      assert MARKER[j] != '\n';
    }
  }

  /** Short enough for the key line to end within the bytes that are read. */
  predicate FitsHead(header: string, key: string) {
    |header| + |MARKER| + |key| + 1 <= 4096
  }

  /** The stored key is read back exactly when its line ends within the head;
      a longer line reads as no key at all, never as a wrong one. */
  lemma StoredKeyRoundTrip(header: string, key: string, rest: string)
    requires MarkerFree(header) && '\n' !in key
    ensures FitsHead(header, key) ==> ReadCacheKey(CacheFile(header, key, rest)) == Success(key)
    ensures !FitsHead(header, key) ==> ReadCacheKey(CacheFile(header, key, rest)).Failure?
  {
    var file := CacheFile(header, key, rest);
    if FitsHead(header, key) {
      var n := |header| + |MARKER| + |key| + 1;
      var post := Head(file)[n..];
      assert Head(file) == header + MARKER + (key + "\n" + post);
      FirstMarker(header, key + "\n" + post);
      ParseShape(header, key, post);
    } else {
      assert Head(file) == (header + MARKER + key)[..HEAD_BYTES];
      UnterminatedHead(header, key, HEAD_BYTES);
    }
  }

  /** No prefix of the key line without its newline parses. */
  lemma UnterminatedHead(header: string, key: string, n: nat)
    requires MarkerFree(header) && '\n' !in key
    requires n <= |header + MARKER + key|
    ensures ParseHead((header + MARKER + key)[..n]).Failure?
  {
    var line := header + MARKER + key;
    assert line[|header| + |MARKER|..] == key;
    if ParseHead(line[..n]).Success? {
      HeadPrefixStable(line, n, |line|);
      assert line[..|line|] == line;
      FirstMarker(header, key);
    }
  }

  // ---- the purge walk ------------------------------------------------------------------------------

  datatype Entry = Directory | Regular(bytes: string) | Unreadable

  /** What WalkDir reports for one path. */
  datatype Visit = Seen(path: string) | Vanished(path: string) | Broken(path: string)

  /** How os.Remove ended. A file that was already gone counts as purged. */
  datatype Removal = Unlinked | AlreadyGone | Refused

  /** This entry holds a readable key that the predicate selects. */
  predicate Selected(e: Entry, shouldPurge: string -> bool) {
    e.Regular? && ReadCacheKey(e.bytes).Success? && shouldPurge(ReadCacheKey(e.bytes).value)
  }

  /** What is no longer there after one visit. */
  ghost function Gone(files: map<string, Entry>, v: Visit, shouldPurge: string -> bool, remove: string -> Removal): set<string> {
    if v.Seen? && v.path in files && Selected(files[v.path], shouldPurge) && !remove(v.path).Refused? then {v.path} else {}
  }

  /** The paths that a walk over `visits` removes. */
  ghost function Removed(files: map<string, Entry>, visits: seq<Visit>, shouldPurge: string -> bool,
                         remove: string -> Removal): set<string> {
    set v, p | v in visits && p in Gone(files, v, shouldPurge, remove) :: p
  }

  lemma RemovedAppend(before: map<string, Entry>, visits: seq<Visit>, v: Visit, shouldPurge: string -> bool,
                      remove: string -> Removal)
    ensures Removed(before, visits + [v], shouldPurge, remove)
         == Removed(before, visits, shouldPurge, remove) + Gone(before, v, shouldPurge, remove)
  {
    assert forall w :: w in visits + [v] <==> w in visits || w == v;
  }

  lemma GoneLater(before: map<string, Entry>, r: set<string>, v: Visit, shouldPurge: string -> bool,
                  remove: string -> Removal)
    ensures Gone(before - r, v, shouldPurge, remove) == Gone(before, v, shouldPurge, remove) - r
  {
  }

  lemma RemoveInTurn(before: map<string, Entry>, r: set<string>, g: set<string>)
    ensures before - r - (g - r) == before - (r + g)
    ensures |r + g| == |r| + |g - r|
  {
    assert r + g == r + (g - r);
  }

  lemma WalkStep(before: map<string, Entry>, visits: seq<Visit>, v: Visit, shouldPurge: string -> bool,
                 remove: string -> Removal)
    ensures
      var r := Removed(before, visits, shouldPurge, remove);
      var r' := Removed(before, visits + [v], shouldPurge, remove);
      var g := Gone(before - r, v, shouldPurge, remove);
      before - r - g == before - r' && |r'| == |r| + |g|
  {
    var r := Removed(before, visits, shouldPurge, remove);
    RemovedAppend(before, visits, v, shouldPurge, remove);
    GoneLater(before, r, v, shouldPurge, remove);
    RemoveInTurn(before, r, Gone(before, v, shouldPurge, remove));
  }

  class FileSystemCache {
    const dir: string
    var files: map<string, Entry>

    constructor (dir: string, files: map<string, Entry>)
      ensures this.dir == dir && this.files == files
    {
      this.dir := dir;
      this.files := files;
    }

    /** A cancelled context or a missing root ends the walk with an error. */
    predicate Stops(v: Visit, i: nat, cancelled: nat -> bool) {
      (v.Vanished? && v.path == dir) || (v.Seen? && cancelled(i))
    }

    /** The walk function on one path. */
    method VisitOne(v: Visit, shouldPurge: string -> bool, remove: string -> Removal) returns (count: nat)
      modifies this
      ensures files == old(files) - Gone(old(files), v, shouldPurge, remove)
      ensures count == |Gone(old(files), v, shouldPurge, remove)|
    {
      count := 0;
      if !v.Seen? || v.path !in files || !files[v.path].Regular? { return; }
      var key := ReadCacheKey(files[v.path].bytes);
      if key.Failure? || !shouldPurge(key.value) || remove(v.path).Refused? { return; }
      files := files - {v.path};
      count := 1;
    }

    /** Walks the directory and removes what `shouldPurge` selects. `cancelled(i)`
        is the context at the i-th visit; `remove` gives the outcome of os.Remove.
        `walked` counts the visits that completed. */
    method Purge(visits: seq<Visit>, shouldPurge: string -> bool, remove: string -> Removal, cancelled: nat -> bool)
      returns (purged: nat, failed: bool, walked: nat)
      modifies this
      ensures walked <= |visits| && (failed <==> walked < |visits|)
      ensures files == old(files) - Removed(old(files), visits[..walked], shouldPurge, remove)
      ensures purged == |Removed(old(files), visits[..walked], shouldPurge, remove)|
      ensures failed <==> exists i :: 0 <= i < |visits| && (visits[i] == Vanished(dir) || (visits[i].Seen? && cancelled(i)))
    {
      purged, walked := 0, 0;
      ghost var before := files;
      while walked < |visits| && !Stops(visits[walked], walked, cancelled)
        invariant walked <= |visits|
        invariant files == before - Removed(before, visits[..walked], shouldPurge, remove)
        invariant purged == |Removed(before, visits[..walked], shouldPurge, remove)|
        invariant forall i :: 0 <= i < walked ==> !Stops(visits[i], i, cancelled)
      {
        assert visits[..walked + 1] == visits[..walked] + [visits[walked]];
        WalkStep(before, visits[..walked], visits[walked], shouldPurge, remove);
        var count := VisitOne(visits[walked], shouldPurge, remove);
        purged := purged + count;
        walked := walked + 1;
      }
      failed := walked < |visits|;
    }
  }
}
