/** Agreement of memory, name index and bucket over every run of requests,
    persist failures and restarts, and refinement of the reference store. */
module PolicyStoreLaws {
  import opened Text
  import opened PolicyStore

  // ---- every request keeps the invariant ------------------------------------------------------

  /** The ID generator is random; a minted ID is assumed new. */
  ghost predicate Fresh(ix: Index, op: Op) {
    op.Create? && op.minted.Some? ==> op.minted.value !in ix.byID
  }

  lemma StoredKeepsIndexed(ix: Index, op: Op, etag: Config -> string)
    requires Indexed(ix) && Fresh(ix, op) && Verdict(ix, op, etag).Stored?
    ensures Indexed(Reindexed(ix, op, Verdict(ix, op, etag)))
  {
    var rec := Verdict(ix, op, etag).record;
    var ix' := Reindexed(ix, op, Verdict(ix, op, etag));
    forall id | id in ix'.byID
      ensures NameOf(ix'.byID[id]) in ix'.byName && ix'.byName[NameOf(ix'.byID[id])] == id
    {
      if id != rec.id {
        assert ix.byName[NameOf(ix.byID[id])] == id;
      }
    }
    forall n | n in ix'.byName
      ensures ix'.byName[n] in ix'.byID && NameOf(ix'.byID[ix'.byName[n]]) == n
    {
      if n != NameOf(rec) {
        assert n in ix.byName && NameOf(ix.byID[ix.byName[n]]) == n;
      }
    }
  }

  lemma DeletedKeepsIndexed(ix: Index, id: string)
    requires Indexed(ix) && id in ix.byID
    ensures Indexed(Reindexed(ix, Delete(id), Deleted))
  {
    var ix' := Reindexed(ix, Delete(id), Deleted);
    forall n | n in ix'.byName
      ensures ix'.byName[n] in ix'.byID && NameOf(ix'.byID[ix'.byName[n]]) == n
    {
      assert NameOf(ix.byID[ix.byName[n]]) == n;
    }
    forall k | k in ix'.byID
      ensures NameOf(ix'.byID[k]) in ix'.byName && ix'.byName[NameOf(ix'.byID[k])] == k
    {
      assert ix.byName[NameOf(ix.byID[k])] == k && ix.byName[NameOf(ix.byID[id])] == id;
    }
  }

  lemma PutCustom(m: Records, rec: Record)
    requires rec.kind == Custom && (rec.id in m ==> m[rec.id].kind == Custom)
    ensures OfKind(m[rec.id := rec], Custom) == OfKind(m, Custom)[rec.id := rec]
    ensures OfKind(m[rec.id := rec], Managed) == OfKind(m, Managed)
  {
  }

  lemma DropCustom(m: Records, id: string)
    requires id in m && m[id].kind == Custom
    ensures OfKind(m - {id}, Custom) == OfKind(m, Custom) - {id}
    ensures OfKind(m - {id}, Managed) == OfKind(m, Managed)
  {
  }

  lemma HydratedPut(bucket: Records, rec: Record)
    requires rec.kind == Custom
    ensures Hydrated(bucket[rec.id := rec]) == Hydrated(bucket)[rec.id := rec]
  {
  }

  lemma HydratedDrop(bucket: Records, id: string)
    ensures Hydrated(bucket - {id}) == Hydrated(bucket) - {id}
  {
  }

  lemma StepKeepsInvariant(s: State, op: Op, persisted: bool, etag: Config -> string, managed: seq<Record>)
    requires Invariant(s, managed) && Fresh(s.ix, op)
    ensures Invariant(BoltStep(s, op, persisted, etag), managed)
  {
    var v := BoltOutcome(s, op, persisted, etag);
    match v
    case Rejected(_) =>
    case Stored(rec) =>
      StoredKeepsIndexed(s.ix, op, etag);
      PutCustom(s.ix.byID, rec);
      HydratedPut(s.bucket, rec);
    case Deleted =>
      DeletedKeepsIndexed(s.ix, op.id);
      DropCustom(s.ix.byID, op.id);
      HydratedDrop(s.bucket, op.id);
  }

  // ---- what each request does, record by record --------------------------------------------------

  /** Some policy, custom or managed, bears this name. */
  ghost predicate Taken(m: Records, name: string) {
    exists id :: id in m && m[id].config.name == Some(name)
  }

  lemma TakenIsIndexed(ix: Index, name: string)
    requires Indexed(ix)
    ensures Taken(ix.byID, name) <==> name in ix.byName
    ensures name in ix.byName ==> ix.byName[name] in ix.byID && ix.byID[ix.byName[name]].config.name == Some(name)
    ensures forall id :: id in ix.byID && ix.byID[id].config.name == Some(name) ==> name in ix.byName && ix.byName[name] == id
  {
    if name in ix.byName { assert NameOf(ix.byID[ix.byName[name]]) == name; }
  }

  /** This record, and nothing else, went into memory and bucket. */
  ghost predicate Wrote(s: State, t: State, rec: Record) {
    t.bucket == s.bucket[rec.id := rec] && t.ix.byID == s.ix.byID[rec.id := rec]
  }

  /** Create stores exactly the given configuration under the minted ID,
      stamped with its ETag and the time, or says why not and changes nothing. */
  lemma CreateExactly(s: State, config: Option<Config>, minted: Option<string>, now: int, persisted: bool,
                      etag: Config -> string, managed: seq<Record>)
    requires Invariant(s, managed)
    ensures
      var r := BoltOutcome(s, Create(config, minted, now), persisted, etag);
      var t := BoltStep(s, Create(config, minted, now), persisted, etag);
      if config.None? || config.value.name.None? then r == Rejected(MissingName) && t == s
      else if Taken(s.ix.byID, config.value.name.value) then r == Rejected(AlreadyExists) && t == s
      else if minted.None? then r == Rejected(MintFailed) && t == s
      else if !persisted then r == Rejected(PersistFailed) && t == s
      else
        && r.Stored? && Wrote(s, t, r.record) && r.record.id == minted.value && r.record.config == config.value
        && r.record.etag == etag(config.value) && r.record.modified == now && r.record.kind == Custom
  {
    if config.Some? && config.value.name.Some? { TakenIsIndexed(s.ix, config.value.name.value); }
  }

  /** Another policy than `id` bears this name. */
  ghost predicate TakenByOther(m: Records, name: string, id: string) {
    exists k :: k in m && k != id && m[k].config.name == Some(name)
  }

  /** Update replaces exactly the configuration, its ETag and the time, keeps
      the type, or says why not and changes nothing. */
  lemma UpdateExactly(s: State, id: string, config: Option<Config>, now: int, persisted: bool,
                      etag: Config -> string, managed: seq<Record>)
    requires Invariant(s, managed)
    ensures
      var r := BoltOutcome(s, Update(id, config, now), persisted, etag);
      var t := BoltStep(s, Update(id, config, now), persisted, etag);
      if config.None? || config.value.name.None? then r == Rejected(MissingName) && t == s
      else if id !in s.ix.byID then r == Rejected(NotFound) && t == s
      else if s.ix.byID[id].kind == Managed then r == Rejected(ManagedImmutable) && t == s
      else if TakenByOther(s.ix.byID, config.value.name.value, id) then r == Rejected(AlreadyExists) && t == s
      else if !persisted then r == Rejected(PersistFailed) && t == s
      else
        && r.Stored? && Wrote(s, t, r.record) && r.record.id == id && r.record.config == config.value
        && r.record.etag == etag(config.value) && r.record.modified == now && r.record.kind == s.ix.byID[id].kind
  {
    if config.Some? && config.value.name.Some? { TakenIsIndexed(s.ix, config.value.name.value); }
  }

  /** Delete takes a custom policy out of memory and bucket and touches no other. */
  lemma DeleteExactly(s: State, id: string, persisted: bool, etag: Config -> string, managed: seq<Record>)
    requires Invariant(s, managed)
    ensures
      var r := BoltOutcome(s, Delete(id), persisted, etag);
      var t := BoltStep(s, Delete(id), persisted, etag);
      if id !in s.ix.byID then r == Rejected(NotFound) && t == s
      else if s.ix.byID[id].kind == Managed then r == Rejected(ManagedImmutable) && t == s
      else if !persisted then r == Rejected(PersistFailed) && t == s
      else r == Deleted && t.bucket == s.bucket - {id} && t.ix.byID == s.ix.byID - {id}
  {
  }

  // ---- restart ----------------------------------------------------------------------------------

  lemma CustomOrManaged(m: Records, id: string)
    requires forall k :: k in m ==> m[k].kind != Untyped
    ensures id in m <==> id in OfKind(m, Custom) || id in OfKind(m, Managed)
    ensures id in m ==> m[id] == if id in OfKind(m, Custom) then OfKind(m, Custom)[id] else OfKind(m, Managed)[id]
  {
    assert id in m ==> m[id].kind == Custom || m[id].kind == Managed;
  }

  /** The bucket alone determines the whole state. */
  lemma BucketDeterminesState(s: State, t: State, managed: seq<Record>)
    requires Invariant(s, managed) && Invariant(t, managed) && s.bucket == t.bucket
    ensures s == t
  {
    forall id
      ensures id in s.ix.byID <==> id in t.ix.byID
      ensures id in s.ix.byID ==> s.ix.byID[id] == t.ix.byID[id]
    {
      CustomOrManaged(s.ix.byID, id);
      CustomOrManaged(t.ix.byID, id);
    }
    assert s.ix.byID == t.ix.byID;
    forall n
      ensures n in s.ix.byName <==> n in t.ix.byName
      ensures n in s.ix.byName ==> s.ix.byName[n] == t.ix.byName[n]
    {
    }
    assert s.ix.byName == t.ix.byName;
  }

  lemma AgreesDisciplined(ix: Index, custom: Records, managed: seq<Record>)
    requires Agrees(ix, custom, managed) && ValidManaged(managed)
    ensures Disciplined(custom, managed) && forall id :: id in custom ==> custom[id].kind == Custom
  {
    var m := ix.byID;
    forall id | id in custom
      ensures id in m && m[id] == custom[id] && m[id].kind == Custom
    {
      assert id in OfKind(m, Custom);
    }
    forall i, id | 0 <= i < |managed| && id in custom
      ensures managed[i].id != id && NameOf(managed[i]) != NameOf(custom[id])
    {
      ManagedAt(managed, i);
      assert managed[i].id in OfKind(m, Managed);
      assert m[managed[i].id] == managed[i];
      assert ix.byName[NameOf(m[id])] == id;
      assert ix.byName[NameOf(managed[i])] == managed[i].id;
    }
  }

  lemma InvariantDisciplined(s: State, managed: seq<Record>)
    requires Invariant(s, managed) && ValidManaged(managed)
    ensures Disciplined(s.bucket, managed)
  {
    var h := Hydrated(s.bucket);
    AgreesDisciplined(s.ix, h, managed);
    forall id | id in s.bucket
      ensures id in h && h[id].id == s.bucket[id].id && h[id].config == s.bucket[id].config && s.bucket[id].kind != Managed
    {
      assert h[id] == Hydrate(s.bucket[id]);
    }
  }

  lemma ManagedAt(managed: seq<Record>, i: nat)
    requires ValidManaged(managed) && i < |managed|
    ensures managed[i].id in ById(managed) && ById(managed)[managed[i].id] == managed[i]
  {
    ByIdMembers(managed, managed[i].id);
  }

  /** Opening a bucket gives a consistent store exactly when the bucket's own
      names are unique and clash with no managed ID or name. `ix` is what load
      and SeedManaged build. */
  lemma OpenConsistentExactly(bucket: Records, managed: seq<Record>, ix: Index)
    requires ValidManaged(managed) && (IdsMatch(bucket) ==> ix.byID == Hydrated(bucket) + ById(managed))
    requires Disciplined(bucket, managed) ==> Inverse(ix)
    ensures Invariant(State(ix, bucket), managed) <==> Disciplined(bucket, managed)
  {
    if Disciplined(bucket, managed) { OpenedInvariant(bucket, managed, ix); }
    if Invariant(State(ix, bucket), managed) { InvariantDisciplined(State(ix, bucket), managed); }
  }

  /** Two custom records of one name: whatever load makes of this bucket is inconsistent. */
  lemma SharedNameIsInconsistent(etag: Config -> string, ix: Index)
    requires var config := Config(Some("n"), "");
             ix.byID == map["1" := Record("1", etag(config), config, 0, Custom), "2" := Record("2", etag(config), config, 0, Custom)]
    ensures !Invariant(State(ix, ix.byID), [])
  {
    assert "1"[0] != "2"[0] && "1" in ix.byID && "2" in ix.byID;
  }

  /** The state that `Open` leaves behind, as a function of the bucket. */
  ghost predicate IsReopened(t: State, bucket: Records, managed: seq<Record>) {
    && t.bucket == bucket
    && (IdsMatch(bucket) ==> t.ix.byID == Hydrated(bucket) + ById(managed))
    && (Disciplined(bucket, managed) ==> Inverse(t.ix))
  }

  /** Load-then-SeedManaged rebuilds the very state that was running. */
  lemma RestartRebuilds(s: State, t: State, managed: seq<Record>)
    requires Invariant(s, managed) && ValidManaged(managed) && IsReopened(t, s.bucket, managed)
    ensures t == s
  {
    InvariantDisciplined(s, managed);
    OpenedInvariant(s.bucket, managed, t.ix);
    BucketDeterminesState(s, t, managed);
  }

  // ---- runs -----------------------------------------------------------------------------------------

  /** A request whose write succeeds or fails, or a restart into `reopened`. */
  datatype Event = Do(op: Op, persisted: bool) | Restart(reopened: State)

  ghost predicate Possible(s: State, e: Event, managed: seq<Record>) {
    match e
    case Do(op, _) => Fresh(s.ix, op)
    case Restart(t) => IsReopened(t, s.bucket, managed)
  }

  ghost function After(s: State, e: Event, etag: Config -> string): State {
    match e
    case Do(op, persisted) => BoltStep(s, op, persisted, etag)
    case Restart(t) => t
  }

  ghost function Run(s: State, events: seq<Event>, etag: Config -> string): State {
    if events == [] then s else After(Run(s, events[..|events| - 1], etag), events[|events| - 1], etag)
  }

  ghost predicate PossibleRun(s: State, events: seq<Event>, etag: Config -> string, managed: seq<Record>) {
    events == [] ||
    (PossibleRun(s, events[..|events| - 1], etag, managed)
     && Possible(Run(s, events[..|events| - 1], etag), events[|events| - 1], managed))
  }

  /** The requests that took effect, for the reference store. */
  ghost function Effective(events: seq<Event>): seq<Op> {
    if events == [] then []
    else
      var e := events[|events| - 1];
      Effective(events[..|events| - 1]) + if e.Do? && e.persisted then [e.op] else []
  }

  ghost function Reference(ix: Index, ops: seq<Op>, etag: Config -> string): Index {
    if ops == [] then ix
    else
      var before := Reference(ix, ops[..|ops| - 1], etag);
      Reindexed(before, ops[|ops| - 1], Verdict(before, ops[|ops| - 1], etag))
  }

  /** Memory, name index and bucket agree after any run, managed policies
      never change, and the indexes are those of a MemoryStore that only saw
      the requests whose write succeeded. */
  lemma {:induction false} RunAgrees(s: State, events: seq<Event>, etag: Config -> string, managed: seq<Record>)
    requires Invariant(s, managed) && ValidManaged(managed)
    requires PossibleRun(s, events, etag, managed)
    ensures Invariant(Run(s, events, etag), managed)
    ensures Run(s, events, etag).ix == Reference(s.ix, Effective(events), etag)
  {
    if events != [] {
      var n := |events| - 1;
      RunAgrees(s, events[..n], etag, managed);
      var mid := Run(s, events[..n], etag);
      match events[n]
      case Restart(t) =>
        RestartRebuilds(mid, t, managed);
        assert Effective(events) == Effective(events[..n]);
      case Do(op, persisted) =>
        StepKeepsInvariant(mid, op, persisted, etag, managed);
        if persisted {
          var ops := Effective(events);
          assert ops[..|ops| - 1] == Effective(events[..n]);
        } else {
          assert Effective(events) == Effective(events[..n]);
        }
    }
  }

  /** Names stay unique across custom and managed policies. */
  lemma NamesNeverCollide(s: State, managed: seq<Record>, a: string, b: string)
    requires Invariant(s, managed) && a in s.ix.byID && b in s.ix.byID
    requires NameOf(s.ix.byID[a]) == NameOf(s.ix.byID[b])
    ensures a == b
  {
  }

  /** What the running store answers is what the bucket says, for custom IDs. */
  lemma CustomReadsAreDurable(s: State, managed: seq<Record>, id: string)
    requires Invariant(s, managed) && id in s.ix.byID
    ensures s.ix.byID[id].kind == Custom <==> id in s.bucket
    ensures id in s.bucket ==> Hydrate(s.bucket[id]) == s.ix.byID[id]
  {
    assert id in OfKind(s.ix.byID, Custom) <==> id in s.bucket;
  }

  // ---- the seeded policies ------------------------------------------------------------------------

  function ManagedRecord(id: string, name: string, settings: string, etag: Config -> string): Record {
    var config := Config(Some(name), settings);
    Record(id, etag(config), config, 0, Managed)
  }

  /** The five built-ins; `settings` stands for their TTL and key fields. */
  function ManagedPolicies(settings: nat -> string, etag: Config -> string): seq<Record> {
    [ManagedRecord("658327ea-f89d-4fab-a63d-7e88639e58f6", "Managed-CachingOptimized", settings(0), etag),
     ManagedRecord("4135ea2d-6df8-44a3-9df3-4b5a84be39ad", "Managed-CachingDisabled", settings(1), etag),
     ManagedRecord("b2884449-e4de-46a7-ac36-70bc7f1ddd6d", "Managed-CachingOptimizedForUncompressedObjects", settings(2), etag),
     ManagedRecord("08627262-05a9-4f76-9ded-b50ca2e3a84f", "Managed-Elemental-MediaPackage", settings(3), etag),
     ManagedRecord("2e54312d-136d-493c-8eb9-b001f22f67d2", "Managed-Amplify", settings(4), etag)]
  }

  lemma ManagedPoliciesValid(settings: nat -> string, etag: Config -> string)
    ensures ValidManaged(ManagedPolicies(settings, etag))
  {
    var m := ManagedPolicies(settings, etag);
    assert m[0].id[0] == '6' && m[1].id[0] == '4' && m[2].id[0] == 'b' && m[3].id[0] == '0' && m[4].id[0] == '2';
    assert |NameOf(m[0])| == 24 && |NameOf(m[1])| == 23 && |NameOf(m[2])| == 46 && |NameOf(m[3])| == 30 && |NameOf(m[4])| == 15;
  }

  /** So a first start on an empty bucket is consistent, and every later run stays so. */
  lemma FirstStartAgrees(settings: nat -> string, etag: Config -> string, s: State, events: seq<Event>)
    requires IsReopened(s, map[], ManagedPolicies(settings, etag))
    requires PossibleRun(s, events, etag, ManagedPolicies(settings, etag))
    ensures Invariant(Run(s, events, etag), ManagedPolicies(settings, etag))
  {
    var managed := ManagedPolicies(settings, etag);
    ManagedPoliciesValid(settings, etag);
    OpenedInvariant(map[], managed, s.ix);
    RunAgrees(s, events, etag, managed);
  }
}
