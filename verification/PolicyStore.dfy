/** internal/api/cachepolicy: the in-memory reference store (store.go), the
    write-through bbolt store (bolt.go) and the seeded managed policies. */
module PolicyStore {
  import opened Text

  datatype Config = Config(name: Option<string>, settings: string)

  /** `Untyped` occurs on disk only, in records written before types were tracked. */
  datatype Kind = Custom | Managed | Untyped

  datatype Record = Record(id: string, etag: string, config: Config, modified: int, kind: Kind)

  datatype StoreError = MissingName | AlreadyExists | NotFound | ManagedImmutable | MintFailed | PersistFailed

  datatype Outcome = Stored(record: Record) | Deleted | Rejected(error: StoreError)

  type Records = map<string, Record>
  type Names = map<string, string>

  /** The two indexes, as both stores keep them. */
  datatype Index = Index(byID: Records, byName: Names)

  /** A request; `id` is the minted ID and `now` the clock. */
  datatype Op =
    | Create(config: Option<Config>, minted: Option<string>, now: int)
    | Update(id: string, config: Option<Config>, now: int)
    | Delete(id: string)

  function NameOf(r: Record): string {
    if r.config.name.Some? then r.config.name.value else ""
  }

  // ---- what a request does to the indexes --------------------------------------------------

  /** The record a Create or Update would store, or the reason it is refused. */
  function Verdict(ix: Index, op: Op, etag: Config -> string): Outcome {
    match op
    case Create(config, minted, now) =>
      if config.None? || config.value.name.None? then Rejected(MissingName)
      else if config.value.name.value in ix.byName then Rejected(AlreadyExists)
      else if minted.None? then Rejected(MintFailed)
      else Stored(Record(minted.value, etag(config.value), config.value, now, Custom))
    case Update(id, config, now) =>
      if config.None? || config.value.name.None? then Rejected(MissingName)
      else if id !in ix.byID then Rejected(NotFound)
      else if ix.byID[id].kind == Managed then Rejected(ManagedImmutable)
      else
        var name := config.value.name.value;
        if name in ix.byName && ix.byName[name] != id then Rejected(AlreadyExists)
        else Stored(Record(id, etag(config.value), config.value, now, ix.byID[id].kind))
    case Delete(id) =>
      if id !in ix.byID then Rejected(NotFound)
      else if ix.byID[id].kind == Managed then Rejected(ManagedImmutable)
      else Deleted
  }

  function Reindexed(ix: Index, op: Op, outcome: Outcome): Index {
    match outcome
    case Rejected(_) => ix
    case Stored(rec) =>
      var names :=
        if op.Update? && rec.id in ix.byID then
          var previous := NameOf(ix.byID[rec.id]);
          if previous != NameOf(rec) then (ix.byName - {previous})[NameOf(rec) := rec.id] else ix.byName
        else ix.byName[NameOf(rec) := rec.id];
      Index(ix.byID[rec.id := rec], names)
    case Deleted =>
      if op.Delete? && op.id in ix.byID then
        Index(ix.byID - {op.id}, ix.byName - {NameOf(ix.byID[op.id])})
      else ix
  }

  // ---- the reference store --------------------------------------------------------------------

  class MemoryStore {
    var byID: Records
    var byName: Names
    const etag: Config -> string

    constructor (etag: Config -> string)
      ensures State() == Index(map[], map[]) && this.etag == etag
    {
      this.etag := etag;
      byID, byName := map[], map[];
    }

    ghost function State(): Index
      reads this
    {
      Index(byID, byName)
    }

    method CreatePolicy(config: Option<Config>, minted: Option<string>, now: int) returns (r: Outcome)
      modifies this
      ensures r == Verdict(old(State()), Create(config, minted, now), etag)
      ensures State() == Reindexed(old(State()), Create(config, minted, now), r)
    {
      if config.None? || config.value.name.None? { return Rejected(MissingName); }
      var name := config.value.name.value;
      if name in byName { return Rejected(AlreadyExists); }
      if minted.None? { return Rejected(MintFailed); }
      var rec := Record(minted.value, etag(config.value), config.value, now, Custom);
      byID := byID[rec.id := rec];
      byName := byName[name := rec.id];
      return Stored(rec);
    }

    /** Renames the index entry first, then replaces the record. */
    method UpdatePolicy(id: string, config: Option<Config>, now: int) returns (r: Outcome)
      modifies this
      ensures r == Verdict(old(State()), Update(id, config, now), etag)
      ensures State() == Reindexed(old(State()), Update(id, config, now), r)
    {
      if config.None? || config.value.name.None? { return Rejected(MissingName); }
      var name := config.value.name.value;
      if id !in byID { return Rejected(NotFound); }
      var rec := byID[id];
      if rec.kind == Managed { return Rejected(ManagedImmutable); }
      if name in byName && byName[name] != id { return Rejected(AlreadyExists); }
      if NameOf(rec) != name {
        byName := byName - {NameOf(rec)};
        byName := byName[name := id];
      }
      var updated := Record(id, etag(config.value), config.value, now, rec.kind);
      byID := byID[id := updated];
      return Stored(updated);
    }

    method DeletePolicy(id: string) returns (r: Outcome)
      modifies this
      ensures r == Verdict(old(State()), Delete(id), etag)
      ensures State() == Reindexed(old(State()), Delete(id), r)
    {
      if id !in byID { return Rejected(NotFound); }
      var rec := byID[id];
      if rec.kind == Managed { return Rejected(ManagedImmutable); }
      byID := byID - {id};
      byName := byName - {NameOf(rec)};
      return Deleted;
    }
  }

  // ---- the write-through store ------------------------------------------------------------------

  datatype State = State(ix: Index, bucket: Records)

  /** Persist first; only a successful persist touches the indexes. */
  function BoltOutcome(s: State, op: Op, persisted: bool, etag: Config -> string): Outcome {
    var v := Verdict(s.ix, op, etag);
    if v.Rejected? || persisted then v else Rejected(PersistFailed)
  }

  function BoltStep(s: State, op: Op, persisted: bool, etag: Config -> string): State {
    var v := BoltOutcome(s, op, persisted, etag);
    match v
    case Rejected(_) => s
    case Stored(rec) => State(Reindexed(s.ix, op, v), s.bucket[rec.id := rec])
    case Deleted => State(Reindexed(s.ix, op, v), if op.Delete? then s.bucket - {op.id} else s.bucket)
  }

  function ById(records: seq<Record>): Records {
    if records == [] then map[]
    else ById(records[..|records| - 1])[records[|records| - 1].id := records[|records| - 1]]
  }

  class BoltStore {
    var byID: Records
    var byName: Names
    var bucket: Records
    const etag: Config -> string
    const managed: seq<Record>

    /** Opens the bucket, loads it and seeds the managed policies. */
    constructor Open(bucket: Records, etag: Config -> string, managed: seq<Record>)
      ensures this.etag == etag && this.managed == managed && this.bucket == bucket
      ensures IdsMatch(bucket) ==> byID == Hydrated(bucket) + ById(managed)
      ensures Disciplined(bucket, managed) ==> Invariant(Contents(), managed)
    {
      this.etag, this.managed, this.bucket := etag, managed, bucket;
      byID, byName := map[], map[];
      new;
      Load();
      if Disciplined(bucket, managed) { HydratedDisciplined(bucket, managed); }
      SeedManaged();
      if Disciplined(bucket, managed) { OpenedInvariant(bucket, managed, Index(byID, byName)); }
    }

    ghost function Contents(): State
      reads this
    {
      State(Index(byID, byName), bucket)
    }

    /** `load`: every bucket entry goes into both indexes, in key order, under
        the ID that its value carries. */
    method Load()
      requires byID == map[] && byName == map[]
      modifies this
      ensures bucket == old(bucket)
      ensures exists keys :: InKeyOrder(keys, bucket.Keys) && Index(byID, byName) == Loaded(ValuesAt(Hydrated(bucket), keys))
      ensures IdsMatch(bucket) ==> byID == Hydrated(bucket)
      ensures UniquelyNamed(bucket) ==> Inverse(Index(byID, byName))
    {
      var keys := KeysInOrder(bucket.Keys);
      ghost var values := ValuesAt(Hydrated(bucket), keys);
      for i := 0 to |keys|
        invariant bucket == old(bucket) && Index(byID, byName) == Loaded(values[..i])
      {
        assert keys[i] in keys && values[..i + 1][..i] == values[..i];
        var rec := bucket[keys[i]];
        if rec.kind == Untyped { rec := rec.(kind := Custom); }
        byID := byID[rec.id := rec];
        if rec.config.name.Some? { byName := byName[rec.config.name.value := rec.id]; }
      }
      assert values[..|keys|] == values;
      LoadedMeaning(bucket, keys);
    }

    /** `SeedManaged`: memory only. */
    method SeedManaged()
      modifies this
      ensures bucket == old(bucket) && byID == old(byID) + ById(managed)
      ensures old(Seedable(Index(byID, byName), managed)) ==> Inverse(Index(byID, byName))
    {
      ghost var before, seedable := byID, Seedable(Index(byID, byName), managed);
      for i := 0 to |managed|
        invariant bucket == old(bucket)
        invariant SeedProgress(before, managed, i, seedable, Index(byID, byName))
      {
        SeedStep(before, managed, i, seedable, Index(byID, byName));
        byID := byID[managed[i].id := managed[i]];
        if managed[i].config.name.Some? { byName := byName[managed[i].config.name.value := managed[i].id]; }
      }
      assert managed[..|managed|] == managed;
    }

    method CreatePolicy(config: Option<Config>, minted: Option<string>, now: int, persisted: bool)
      returns (r: Outcome, notified: bool)
      modifies this
      ensures r == BoltOutcome(old(Contents()), Create(config, minted, now), persisted, etag)
      ensures Contents() == BoltStep(old(Contents()), Create(config, minted, now), persisted, etag)
      ensures notified <==> r.Stored?
    {
      notified := false;
      if config.None? || config.value.name.None? { return Rejected(MissingName), false; }
      var name := config.value.name.value;
      if name in byName { return Rejected(AlreadyExists), false; }
      if minted.None? { return Rejected(MintFailed), false; }
      var rec := Record(minted.value, etag(config.value), config.value, now, Custom);
      if !persisted { return Rejected(PersistFailed), false; }
      bucket := bucket[rec.id := rec];
      byID := byID[rec.id := rec];
      byName := byName[name := rec.id];
      return Stored(rec), true;
    }

    method UpdatePolicy(id: string, config: Option<Config>, now: int, persisted: bool)
      returns (r: Outcome, notified: bool)
      modifies this
      ensures r == BoltOutcome(old(Contents()), Update(id, config, now), persisted, etag)
      ensures Contents() == BoltStep(old(Contents()), Update(id, config, now), persisted, etag)
      ensures notified <==> r.Stored?
    {
      notified := false;
      if config.None? || config.value.name.None? { return Rejected(MissingName), false; }
      var name := config.value.name.value;
      if id !in byID { return Rejected(NotFound), false; }
      var rec := byID[id];
      if rec.kind == Managed { return Rejected(ManagedImmutable), false; }
      if name in byName && byName[name] != id { return Rejected(AlreadyExists), false; }
      var updated := Record(id, etag(config.value), config.value, now, rec.kind);
      if !persisted { return Rejected(PersistFailed), false; }
      bucket := bucket[id := updated];
      if NameOf(rec) != name {
        byName := byName - {NameOf(rec)};
        byName := byName[name := id];
      }
      byID := byID[id := updated];
      return Stored(updated), true;
    }

    method DeletePolicy(id: string, persisted: bool) returns (r: Outcome, notified: bool)
      modifies this
      ensures r == BoltOutcome(old(Contents()), Delete(id), persisted, etag)
      ensures Contents() == BoltStep(old(Contents()), Delete(id), persisted, etag)
      ensures notified <==> r.Deleted?
    {
      notified := false;
      if id !in byID { return Rejected(NotFound), false; }
      var rec := byID[id];
      if rec.kind == Managed { return Rejected(ManagedImmutable), false; }
      if !persisted { return Rejected(PersistFailed), false; }
      bucket := bucket - {id};
      byID := byID - {id};
      byName := byName - {NameOf(rec)};
      return Deleted, true;
    }

    /** A snapshot in map order: the record of every key, once. */
    method List() returns (out: seq<Record>)
      ensures exists keys :: Enumerates(keys, byID.Keys) && out == ValuesAt(byID, keys)
      ensures Named(byID) ==> NoDuplicates(out) && forall r :: r in out <==> r.id in byID && byID[r.id] == r
    {
      out := [];
      ghost var keys: seq<string> := [];
      var todo := byID.Keys;
      while todo != {}
        invariant todo <= byID.Keys && Enumerates(keys, byID.Keys - todo)
        invariant out == ValuesAt(byID, keys)
        decreases |todo|
      {
        var id :| id in todo;
        out := out + [byID[id]];
        keys := keys + [id];
        todo := todo - {id};
      }
      assert byID.Keys - {} == byID.Keys;
      if Named(byID) { NamedSnapshot(byID, keys); }
    }
  }

  /** A stored record as memory holds it. */
  function Hydrate(r: Record): Record {
    if r.kind == Untyped then r.(kind := Custom) else r
  }

  function Hydrated(bucket: Records): Records {
    map id | id in bucket :: Hydrate(bucket[id])
  }

  /** Every value is stored under its own ID, as every write does it. */
  ghost predicate IdsMatch(bucket: Records) {
    forall id :: id in bucket ==> bucket[id].id == id
  }

  ghost predicate LoadedExcept(m: Records, goal: Records, todo: set<string>) {
    todo <= goal.Keys && m.Keys == goal.Keys - todo && forall id :: id in m ==> m[id] == goal[id]
  }

  /** With the entries in `todo` still to come. */
  ghost predicate LoadProgress(goal: Records, todo: set<string>, keyed: bool, unique: bool, ix: Index) {
    && IdsMatch(ix.byID)
    && (keyed ==> IdsMatch(goal) && LoadedExcept(ix.byID, goal, todo))
    && (unique ==> keyed && UniquelyNamed(goal) && Inverse(ix))
  }

  /** What `load` builds from these records, one after the other. */
  function Loaded(records: seq<Record>): Index {
    if records == [] then Index(map[], map[])
    else Seeded(Loaded(records[..|records| - 1]), records[|records| - 1])
  }

  lemma {:induction false} LoadedProgress(goal: Records, keys: seq<string>, i: nat, keyed: bool, unique: bool)
    requires Enumerates(keys, goal.Keys) && i <= |keys|
    requires LoadProgress(goal, goal.Keys, keyed, unique, Index(map[], map[]))
    ensures LoadProgress(goal, Members(keys[i..]), keyed, unique, Loaded(ValuesAt(goal, keys)[..i]))
  {
    var todo := Members(keys[i..]);
    if i == 0 {
      assert todo == goal.Keys;
    } else {
      var before := Members(keys[i - 1..]);
      LoadedProgress(goal, keys, i - 1, keyed, unique);
      assert keys[i - 1..] == [keys[i - 1]] + keys[i..];
      assert todo == before - {keys[i - 1]} && keys[i - 1] in keys;
      LoadStep(goal, before, keyed, unique, Loaded(ValuesAt(goal, keys)[..i - 1]), keys[i - 1]);
      assert ValuesAt(goal, keys)[..i][..i - 1] == ValuesAt(goal, keys)[..i - 1];
    }
  }

  lemma LoadedMeaning(bucket: Records, keys: seq<string>)
    requires Enumerates(keys, bucket.Keys)
    ensures var ix := Loaded(ValuesAt(Hydrated(bucket), keys));
            (IdsMatch(bucket) ==> ix.byID == Hydrated(bucket)) && (UniquelyNamed(bucket) ==> Inverse(ix))
  {
    var goal, keyed, unique, n := Hydrated(bucket), IdsMatch(bucket), UniquelyNamed(bucket), |keys|;
    LoadStart(bucket);
    LoadedProgress(goal, keys, n, keyed, unique);
    assert ValuesAt(goal, keys)[..n] == ValuesAt(goal, keys) && Members(keys[n..]) == {};
    LoadDone(goal, keyed, unique, Loaded(ValuesAt(goal, keys)));
  }

  lemma LoadStart(bucket: Records)
    ensures LoadProgress(Hydrated(bucket), bucket.Keys, IdsMatch(bucket), UniquelyNamed(bucket), Index(map[], map[]))
  {
    if UniquelyNamed(bucket) { HydratedNames(bucket); }
  }

  lemma LoadDone(goal: Records, keyed: bool, unique: bool, ix: Index)
    requires LoadProgress(goal, {}, keyed, unique, ix)
    ensures (keyed ==> ix.byID == goal) && (unique ==> Inverse(ix))
  {
  }

  lemma LoadStep(goal: Records, todo: set<string>, keyed: bool, unique: bool, ix: Index, key: string)
    requires LoadProgress(goal, todo, keyed, unique, ix) && key in todo && key in goal
    ensures LoadProgress(goal, todo - {key}, keyed, unique, Seeded(ix, goal[key]))
  {
    if unique { AddNamed(ix, goal[key], goal); }
  }

  lemma HydratedNames(bucket: Records)
    requires UniquelyNamed(bucket)
    ensures UniquelyNamed(Hydrated(bucket)) && IdsMatch(bucket)
  {
    var h := Hydrated(bucket);
    assert forall id :: id in h ==> h[id].id == id && h[id].config == bucket[id].config;
  }

  lemma NamedSnapshot(m: Records, keys: seq<string>)
    requires Named(m) && Enumerates(keys, m.Keys)
    ensures NoDuplicates(ValuesAt(m, keys))
    ensures forall r :: r in ValuesAt(m, keys) <==> r.id in m && m[r.id] == r
  {
    var out := ValuesAt(m, keys);
    forall i | 0 <= i < |keys|
      ensures out[i].id == keys[i] && keys[i] in m
    {
      assert keys[i] in keys;
    }
    forall r: Record | r.id in m && m[r.id] == r
      ensures r in out
    {
      var i :| 0 <= i < |keys| && keys[i] == r.id;
      assert out[i] == r;
    }
  }

  // ---- invariant -----------------------------------------------------------------------------------

  ghost predicate Named(m: Records) {
    forall id :: id in m ==> m[id].id == id && m[id].config.name.Some?
  }

  ghost predicate UniquelyNamed(m: Records) {
    Named(m) && forall a, b :: a in m && b in m && NameOf(m[a]) == NameOf(m[b]) ==> a == b
  }

  /** `byName` is exactly the inverse of ID-to-name. */
  ghost predicate Inverse(ix: Index) {
    && (forall id :: id in ix.byID ==> NameOf(ix.byID[id]) in ix.byName && ix.byName[NameOf(ix.byID[id])] == id)
    && (forall n :: n in ix.byName ==> ix.byName[n] in ix.byID && NameOf(ix.byID[ix.byName[n]]) == n)
  }

  /** Consistent indexes over records of a known type. */
  ghost predicate Indexed(ix: Index) {
    Named(ix.byID) && Inverse(ix) && forall id :: id in ix.byID ==> ix.byID[id].kind != Untyped
  }

  ghost function OfKind(m: Records, kind: Kind): Records {
    map id | id in m && m[id].kind == kind :: m[id]
  }

  /** Consistent indexes over exactly these custom and managed records. */
  ghost predicate Agrees(ix: Index, custom: Records, managed: seq<Record>) {
    && Indexed(ix)
    && OfKind(ix.byID, Custom) == custom
    && OfKind(ix.byID, Managed) == ById(managed)
  }

  /** The custom part is the bucket, the rest is the managed policies, and names are unique. */
  ghost predicate Invariant(s: State, managed: seq<Record>) {
    Agrees(s.ix, Hydrated(s.bucket), managed)
  }

  /** Seeding may add these records beside `m` without a clash of ID or name. */
  ghost predicate Compatible(m: Records, managed: seq<Record>) {
    && ValidManaged(managed)
    && (forall i, id :: 0 <= i < |managed| && id in m ==> managed[i].id != id && NameOf(managed[i]) != NameOf(m[id]))
  }

  ghost predicate Seedable(ix: Index, managed: seq<Record>) {
    Inverse(ix) && Compatible(ix.byID, managed)
  }

  ghost predicate ValidManaged(managed: seq<Record>) {
    && (forall i :: 0 <= i < |managed| ==> managed[i].kind == Managed && managed[i].config.name.Some?)
    && (forall i, j :: 0 <= i < j < |managed| ==>
          managed[i].id != managed[j].id && NameOf(managed[i]) != NameOf(managed[j]))
  }

  /** A bucket that this store, seeded with these policies, could have written. */
  ghost predicate Disciplined(bucket: Records, managed: seq<Record>) {
    && UniquelyNamed(bucket) && Compatible(bucket, managed)
    && forall id :: id in bucket ==> bucket[id].kind != Managed
  }

  lemma AddNamed(ix: Index, rec: Record, bucket: Records)
    requires Inverse(ix) && UniquelyNamed(bucket)
    requires forall id :: id in ix.byID ==> id in bucket && ix.byID[id] == bucket[id]
    requires rec.id in bucket && bucket[rec.id] == rec && rec.id !in ix.byID
    ensures Inverse(Index(ix.byID[rec.id := rec], ix.byName[NameOf(rec) := rec.id]))
  {
  }

  lemma {:induction false} ByIdMembers(records: seq<Record>, id: string)
    ensures id in ById(records) ==> exists i :: 0 <= i < |records| && records[i].id == id && ById(records)[id] == records[i]
    ensures (exists i :: 0 <= i < |records| && records[i].id == id) ==> id in ById(records)
  {
    if records != [] {
      var n := |records| - 1;
      ByIdMembers(records[..n], id);
      if id in ById(records) && id != records[n].id {
        var i :| 0 <= i < n && records[..n][i].id == id && ById(records[..n])[id] == records[..n][i];
        assert records[i].id == id;
      }
    }
  }

  /** One record goes into both indexes. */
  function Seeded(ix: Index, rec: Record): Index {
    Index(ix.byID[rec.id := rec], if rec.config.name.Some? then ix.byName[NameOf(rec) := rec.id] else ix.byName)
  }

  /** After `i` records; `seedable` says whether the start allowed a clean seeding. */
  ghost predicate SeedProgress(before: Records, managed: seq<Record>, i: nat, seedable: bool, ix: Index)
    requires i <= |managed|
  {
    && ix.byID == before + ById(managed[..i])
    && (seedable ==> Compatible(before, managed) && Inverse(ix))
  }

  lemma SeedInverse(before: Records, managed: seq<Record>, i: nat, ix: Index)
    requires Compatible(before, managed) && i < |managed|
    requires ix.byID == before + ById(managed[..i]) && Inverse(ix)
    ensures Inverse(Seeded(ix, managed[i]))
  {
    var rec := managed[i];
    forall id | id in ix.byID
      ensures id != rec.id && NameOf(ix.byID[id]) != NameOf(rec)
    {
      ByIdMembers(managed[..i], id);
    }
  }

  lemma SeedStep(before: Records, managed: seq<Record>, i: nat, seedable: bool, ix: Index)
    requires i < |managed| && SeedProgress(before, managed, i, seedable, ix)
    ensures SeedProgress(before, managed, i + 1, seedable, Seeded(ix, managed[i]))
  {
    assert managed[..i + 1][..i] == managed[..i];
    if seedable { SeedInverse(before, managed, i, ix); }
  }

  lemma OpenedAgrees(custom: Records, managed: seq<Record>, ix: Index)
    requires Disciplined(custom, managed) && (forall id :: id in custom ==> custom[id].kind == Custom)
    requires ix.byID == custom + ById(managed) && Inverse(ix)
    ensures Agrees(ix, custom, managed)
  {
    forall id | id in ById(managed)
      ensures id !in custom && ById(managed)[id].id == id && ById(managed)[id].kind == Managed
      ensures ById(managed)[id].config.name.Some?
    {
      ByIdMembers(managed, id);
    }
  }

  lemma HydratedDisciplined(bucket: Records, managed: seq<Record>)
    requires Disciplined(bucket, managed)
    ensures Disciplined(Hydrated(bucket), managed) && IdsMatch(bucket)
    ensures forall id :: id in bucket ==> Hydrated(bucket)[id].kind == Custom
  {
    HydratedNames(bucket);
  }

  lemma OpenedInvariant(bucket: Records, managed: seq<Record>, ix: Index)
    requires Disciplined(bucket, managed)
    requires ix.byID == Hydrated(bucket) + ById(managed) && Inverse(ix)
    ensures Invariant(State(ix, bucket), managed)
  {
    HydratedDisciplined(bucket, managed);
    OpenedAgrees(Hydrated(bucket), managed, ix);
  }
}
