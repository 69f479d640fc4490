/** internal/edgefunc/server.go: the per-distribution lookup cache. Requests
    interleave between its two critical sections and the Resolve call. */
module LookupCache {
  import opened Text
  import opened EdgeEvents

  type Functions = seq<EdgeFunction>

  /** `installedAt` is history; the code keeps only `expiresAt`. */
  datatype Entry = Entry(functions: Functions, expiresAt: int, installedAt: int)

  /** What an answer rests on. */
  datatype Basis =
    | FromCache(list: Functions, installedAt: int, readAt: int)
    | FromResolve(list: Functions)
    | FromStale(list: Functions)   // Resolve failed, an expired entry was read on entry
    | FromNothing                  // Resolve failed and nothing was cached

  datatype Progress =
    | Asked
    | Resolving(seen: Option<Functions>)
    | Resolved(functions: Functions)
    | Answered(answer: Option<EdgeFunction>, basis: Basis)

  datatype Request = Request(dist: string, event: string, progress: Progress)

  /** The whole cache and the clock at one critical section. */
  datatype Moment = Moment(cache: map<string, Entry>, now: int)

  /** History that no step reads: `resolves` logs every successful Resolve,
      `entered` what each request found when it read the cache. */
  datatype Server = Server(now: int, ttl: int, cache: map<string, Entry>, requests: map<nat, Request>,
                           resolves: set<(string, Functions)>, entered: map<nat, Moment>)

  datatype Step =
    | Tick(seconds: nat)
    | Arrive(id: nat, dist: string, event: string)
    | ReadCache(id: nat)
    | ResolveOk(id: nat, functions: Functions)
    | ResolveFails(id: nat)
    | Install(id: nat)

  // ---- findByEvent ----------------------------------------------------------------------------

  /** The first binding for the event type. */
  ghost predicate IsFirstFor(functions: Functions, event: string, r: Option<EdgeFunction>) {
    match r
    case None => forall f :: f in functions ==> f.eventType != event
    case Some(f) => exists i :: 0 <= i < |functions| && functions[i] == f && f.eventType == event
                                && forall j :: 0 <= j < i ==> functions[j].eventType != event
  }

  function Find(functions: Functions, event: string): (r: Option<EdgeFunction>)
    ensures IsFirstFor(functions, event, r)
  {
    if functions == [] then None
    else if functions[0].eventType == event then Some(functions[0])
    else
      var r := Find(functions[1..], event);
      FirstInTail(functions, event, r);
      r
  }

  lemma FirstInTail(functions: Functions, event: string, r: Option<EdgeFunction>)
    requires functions != [] && functions[0].eventType != event && IsFirstFor(functions[1..], event, r)
    ensures IsFirstFor(functions, event, r)
  {
    assert functions == [functions[0]] + functions[1..];
    if r.Some? {
      var i :| 0 <= i < |functions[1..]| && functions[1..][i] == r.value && r.value.eventType == event
               && forall j :: 0 <= j < i ==> functions[1..][j].eventType != event;
      assert functions[i + 1] == r.value;
      assert forall j :: 0 < j < i + 1 ==> functions[j] == functions[1..][j - 1];
    }
  }

  method FindByEvent(functions: Functions, event: string) returns (r: Option<EdgeFunction>)
    ensures r == Find(functions, event)
  {
    var i := 0;
    while i < |functions|
      invariant 0 <= i <= |functions|
      invariant Find(functions, event) == Find(functions[i..], event)
    {
      if functions[i].eventType == event { return Some(functions[i]); }
      assert functions[i..][1..] == functions[i + 1..];
      i := i + 1;
    }
    return None;
  }

  // ---- steps --------------------------------------------------------------------------------------

  function With(s: Server, id: nat, p: Progress): Server
    requires id in s.requests
  {
    s.(requests := s.requests[id := s.requests[id].(progress := p)])
  }

  predicate At(s: Server, id: nat) {
    id in s.requests
  }

  /** First critical section: snapshot the entry and decide on expiry. */
  function ReadStep(s: Server, id: nat): Server {
    if !At(s, id) || !s.requests[id].progress.Asked? then s
    else
      var r, logged := s.requests[id], s.(entered := s.entered[id := Moment(s.cache, s.now)]);
      if r.dist !in s.cache then With(logged, id, Resolving(None))
      else
        var e := s.cache[r.dist];
        if s.now > e.expiresAt then With(logged, id, Resolving(Some(e.functions)))
        else With(logged, id, Answered(Find(e.functions, r.event), FromCache(e.functions, e.installedAt, s.now)))
  }

  function ResolveOkStep(s: Server, id: nat, functions: Functions): Server {
    if !At(s, id) || !s.requests[id].progress.Resolving? then s
    else With(s, id, Resolved(functions)).(resolves := s.resolves + {(s.requests[id].dist, functions)})
  }

  /** Fail-open: the list read on entry, or no binding. */
  function ResolveFailsStep(s: Server, id: nat): Server {
    if !At(s, id) || !s.requests[id].progress.Resolving? then s
    else
      var r := s.requests[id];
      match r.progress.seen
      case Some(list) => With(s, id, Answered(Find(list, r.event), FromStale(list)))
      case None => With(s, id, Answered(None, FromNothing))
  }

  /** Second critical section: replace the entry. */
  function InstallStep(s: Server, id: nat): Server {
    if !At(s, id) || !s.requests[id].progress.Resolved? then s
    else
      var r := s.requests[id];
      var list := r.progress.functions;
      With(s, id, Answered(Find(list, r.event), FromResolve(list)))
        .(cache := s.cache[r.dist := Entry(list, s.now + s.ttl, s.now)])
  }

  function Apply(s: Server, step: Step): Server {
    match step
    case Tick(seconds) => s.(now := s.now + seconds)
    case Arrive(id, dist, event) =>
      if At(s, id) then s else s.(requests := s.requests[id := Request(dist, event, Asked)])
    case ReadCache(id) => ReadStep(s, id)
    case ResolveOk(id, functions) => ResolveOkStep(s, id, functions)
    case ResolveFails(id) => ResolveFailsStep(s, id)
    case Install(id) => InstallStep(s, id)
  }

  function Run(s: Server, steps: seq<Step>): Server {
    if steps == [] then s else Apply(Run(s, steps[..|steps| - 1]), steps[|steps| - 1])
  }

  function Start(now: int, ttl: int): Server {
    Server(now, ttl, map[], map[], {}, map[])
  }

  // ---- invariant --------------------------------------------------------------------------------------

  ghost predicate EntryInv(s: Server, dist: string, e: Entry) {
    && (dist, e.functions) in s.resolves
    && e.expiresAt == e.installedAt + s.ttl && e.installedAt <= s.now
  }

  /** On entry there was an entry for the distribution, not yet expired. */
  ghost predicate FreshOn(m: Moment, dist: string) {
    dist in m.cache && m.now <= m.cache[dist].expiresAt
  }

  /** The list that was cached on entry, expired or not. */
  ghost function CachedOn(m: Moment, dist: string): Option<Functions> {
    if dist in m.cache then Some(m.cache[dist].functions) else None
  }

  /** Every answer rests on what the request found on entry and on Resolve: the
      cached list, at most TTL old, exactly if it was fresh; otherwise the list
      of a successful Resolve of its own distribution; after a failed Resolve
      exactly the list read on entry, and no binding exactly if there was none. */
  ghost predicate Rests(s: Server, r: Request, m: Moment) {
    match r.progress
    case Asked => true
    case Resolving(seen) => !FreshOn(m, r.dist) && seen == CachedOn(m, r.dist)
    case Resolved(list) => !FreshOn(m, r.dist) && (r.dist, list) in s.resolves
    case Answered(answer, FromCache(list, at, readAt)) =>
      && FreshOn(m, r.dist) && CachedOn(m, r.dist) == Some(list)
      && readAt == m.now && at <= readAt <= at + s.ttl && answer == Find(list, r.event)
    case Answered(answer, FromResolve(list)) =>
      !FreshOn(m, r.dist) && (r.dist, list) in s.resolves && answer == Find(list, r.event)
    case Answered(answer, FromStale(list)) =>
      !FreshOn(m, r.dist) && CachedOn(m, r.dist) == Some(list) && answer == Find(list, r.event)
    case Answered(answer, FromNothing) => CachedOn(m, r.dist) == None && answer == None
  }

  ghost predicate Justified(s: Server, id: nat)
    requires id in s.requests
  {
    var r := s.requests[id];
    && (id in s.entered <==> !r.progress.Asked?)
    && (id in s.entered ==> Rests(s, r, s.entered[id]))
  }

  /** What a request found on entry was itself resolved for that distribution. */
  ghost predicate MomentInv(s: Server, m: Moment) {
    m.now <= s.now && forall dist :: dist in m.cache ==> EntryInv(s, dist, m.cache[dist])
  }

  ghost predicate Inv(s: Server) {
    && (forall dist :: dist in s.cache ==> EntryInv(s, dist, s.cache[dist]))
    && (forall id :: id in s.requests ==> Justified(s, id))
    && (forall id :: id in s.entered ==> id in s.requests && MomentInv(s, s.entered[id]))
  }

  /** A step logs the current cache and clock, and never rewrites the log. */
  ghost predicate LogsEntry(s: Server, t: Server) {
    && (forall id :: id in s.entered ==> id in t.entered && t.entered[id] == s.entered[id])
    && (forall id :: id in t.entered && id !in s.entered ==> t.entered[id] == Moment(s.cache, s.now))
  }

  /** What one step keeps. */
  ghost predicate Keeps(s: Server, t: Server) {
    && Inv(t) && LogsEntry(s, t)
    && s.cache.Keys <= t.cache.Keys && s.resolves <= t.resolves && s.now <= t.now && t.ttl == s.ttl
    && (forall id :: id in s.requests ==> id in t.requests)
    && (forall id :: id in s.requests && s.requests[id].progress.Answered? ==> t.requests[id] == s.requests[id])
  }

  /** Entering keeps everything if the new progress rests on the current cache. */
  lemma EnterKeeps(s: Server, id: nat, p: Progress)
    requires Inv(s) && id in s.requests && s.requests[id].progress.Asked? && !p.Asked?
    requires Rests(s, s.requests[id].(progress := p), Moment(s.cache, s.now))
    ensures Keeps(s, With(s.(entered := s.entered[id := Moment(s.cache, s.now)]), id, p))
  {
    var t := With(s.(entered := s.entered[id := Moment(s.cache, s.now)]), id, p);
    forall k | k in t.requests
      ensures Justified(t, k)
    {
      assert k != id ==> Justified(s, k);
    }
  }

  lemma ReadKeeps(s: Server, id: nat)
    requires Inv(s)
    ensures Keeps(s, ReadStep(s, id))
  {
    if At(s, id) && s.requests[id].progress.Asked? {
      EnterKeeps(s, id, ReadStep(s, id).requests[id].progress);
    }
  }

  lemma ResolveOkKeeps(s: Server, id: nat, functions: Functions)
    requires Inv(s)
    ensures Keeps(s, ResolveOkStep(s, id, functions))
  {
  }

  /** Moving one request on keeps everything if the new progress rests on what it found on entry. */
  lemma MoveKeeps(s: Server, id: nat, p: Progress)
    requires Inv(s) && id in s.requests && s.requests[id].progress.Resolving? && !p.Asked? && id in s.entered
    requires Rests(s, s.requests[id].(progress := p), s.entered[id])
    ensures Keeps(s, With(s, id, p))
  {
    var t := With(s, id, p);
    forall k | k in t.requests
      ensures Justified(t, k)
    {
      assert Justified(s, k);
    }
  }

  lemma ResolveFailsKeeps(s: Server, id: nat)
    requires Inv(s)
    ensures Keeps(s, ResolveFailsStep(s, id))
  {
    if At(s, id) && s.requests[id].progress.Resolving? {
      assert Justified(s, id);
      MoveKeeps(s, id, ResolveFailsStep(s, id).requests[id].progress);
    }
  }

  lemma InstallKeeps(s: Server, id: nat)
    requires Inv(s)
    ensures Keeps(s, InstallStep(s, id))
  {
    var t := InstallStep(s, id);
    forall k | k in t.requests
      ensures Justified(t, k)
    {
      assert Justified(s, k);
    }
  }

  lemma StepKeepsInv(s: Server, step: Step)
    requires Inv(s)
    ensures Keeps(s, Apply(s, step))
  {
    match step
    case Tick(seconds) =>
    case Arrive(id, dist, event) =>
    case ReadCache(id) => ReadKeeps(s, id);
    case ResolveOk(id, functions) => ResolveOkKeeps(s, id, functions);
    case ResolveFails(id) => ResolveFailsKeeps(s, id);
    case Install(id) => InstallKeeps(s, id);
  }

  /** Every request can always move on; each way ends as it should. */
  lemma RequestsMoveOn(s: Server, id: nat, list: Functions)
    requires Inv(s) && id in s.requests
    ensures var r := s.requests[id];
            match r.progress
            case Asked =>
              var p := ReadStep(s, id).requests[id].progress;
              if r.dist in s.cache && s.now <= s.cache[r.dist].expiresAt then
                p.Answered? && p.answer == Find(s.cache[r.dist].functions, r.event)
              else p.Resolving?
            case Resolving(_) =>
              && ResolveOkStep(s, id, list).requests[id].progress == Resolved(list)
              && ResolveFailsStep(s, id).requests[id].progress.Answered?
            case Resolved(found) =>
              && InstallStep(s, id).requests[id].progress == Answered(Find(found, r.event), FromResolve(found))
              && InstallStep(s, id).cache == s.cache[r.dist := Entry(found, s.now + s.ttl, s.now)]
            case Answered(_, _) => true
  {
  }

  /** A new request asks for just what it came for, and disturbs no other. */
  lemma ArrivesAsAsked(s: Server, id: nat, dist: string, event: string)
    ensures var t := Apply(s, Arrive(id, dist, event));
            && (id !in s.requests ==> t.requests == s.requests[id := Request(dist, event, Asked)])
            && (id in s.requests ==> t == s)
            && t.cache == s.cache && t.now == s.now
  {
  }

  /** In any interleaving: every cached list came from a successful Resolve of
      the same distribution, and every answer rests on what it should. */
  lemma {:induction false} RunKeepsInv(now: int, ttl: int, steps: seq<Step>)
    ensures Inv(Run(Start(now, ttl), steps))
    ensures Run(Start(now, ttl), steps).ttl == ttl
  {
    if steps != [] {
      RunKeepsInv(now, ttl, steps[..|steps| - 1]);
      StepKeepsInv(Run(Start(now, ttl), steps[..|steps| - 1]), steps[|steps| - 1]);
    }
  }

  /** Entries are never removed, and an answer once given stays. */
  lemma {:induction false} RunOnlyGrows(s: Server, steps: seq<Step>)
    requires Inv(s)
    ensures Inv(Run(s, steps))
    ensures s.cache.Keys <= Run(s, steps).cache.Keys && s.now <= Run(s, steps).now
    ensures forall id :: id in s.requests && s.requests[id].progress.Answered? ==>
              id in Run(s, steps).requests && Run(s, steps).requests[id] == s.requests[id]
    ensures forall id :: id in s.entered ==> id in Run(s, steps).entered && Run(s, steps).entered[id] == s.entered[id]
  {
    if steps != [] {
      RunOnlyGrows(s, steps[..|steps| - 1]);
      StepKeepsInv(Run(s, steps[..|steps| - 1]), steps[|steps| - 1]);
    }
  }

  /** Once a distribution was resolved and installed, no later request for it
      is left without a list, however often Resolve fails. */
  lemma CachedNeverForgotten(s: Server, steps: seq<Step>, id: nat)
    requires id !in s.requests
    requires var t := Run(s, steps); id in t.requests && t.requests[id].dist in s.cache
    ensures Run(s, steps).requests[id].progress != Answered(None, FromNothing)
  {
    NeverEmptyHanded(s, steps, id);
  }

  ghost predicate Provided(known: set<string>, t: Server, id: nat) {
    && known <= t.cache.Keys
    && (id in t.requests && t.requests[id].dist in known ==>
          t.requests[id].progress != Resolving(None) && t.requests[id].progress != Answered(None, FromNothing))
  }

  lemma StepKeepsProvided(known: set<string>, t: Server, step: Step, id: nat)
    requires Provided(known, t, id)
    ensures Provided(known, Apply(t, step), id)
  {
  }

  lemma {:induction false} NeverEmptyHanded(s: Server, steps: seq<Step>, id: nat)
    requires id !in s.requests
    ensures Provided(s.cache.Keys, Run(s, steps), id)
  {
    if steps != [] {
      NeverEmptyHanded(s, steps[..|steps| - 1], id);
      StepKeepsProvided(s.cache.Keys, Run(s, steps[..|steps| - 1]), steps[|steps| - 1], id);
    }
  }
}
