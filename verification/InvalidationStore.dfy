/** internal/api/invalidation/bolt.go: invalidation records, written through to
    a bbolt bucket (an atomic durable map) and served from memory. */
module InvalidationStore {
  import opened Text

  datatype Status = InProgress | Completed

  datatype Batch = Batch(callerReference: string, paths: seq<string>)

  datatype Record = Record(id: string, distributionId: string, status: Status, createTime: int, batch: Batch)

  datatype StoreError =
    | DistributionRequired
    | BatchRequired
    | MintFailed
    | PersistFailed
    | NotFound
    | InvalidStatus

  type Records = map<string, Record>

  /** Memory and bucket. */
  datatype StoreState = StoreState(mem: Records, disk: Records)

  ghost predicate Keyed(m: Records) {
    "" !in m && forall id :: id in m ==> m[id].id == id
  }

  /** Memory mirrors the bucket. */
  ghost predicate Mirrored(s: StoreState) {
    s.mem == s.disk && Keyed(s.disk)
  }

  /** Persist first, then update memory; a failed persist changes nothing. */
  function Put(s: StoreState, rec: Record, persisted: bool): StoreState {
    if persisted then StoreState(s.mem[rec.id := rec], s.disk[rec.id := rec]) else s
  }

  function SetStatus(s: StoreState, id: string, status: Status, persisted: bool): StoreState {
    if id !in s.mem || s.mem[id].status == status then s
    else Put(s, s.mem[id].(status := status), persisted)
  }

  function ParseStatus(text: string): Option<Status> {
    if text == "InProgress" then Some(InProgress) else if text == "Completed" then Some(Completed) else None
  }

  function Pending(m: Records): set<string> {
    set id | id in m && m[id].status == InProgress
  }

  /** Every record carried over and Completed. */
  function AllCompleted(m: Records): Records {
    map id | id in m :: m[id].(status := Completed)
  }

  // ---- listing order --------------------------------------------------------------------

  /** Newest first, ties by ID. */
  predicate NewestFirst(a: Record, b: Record) {
    a.createTime > b.createTime || (a.createTime == b.createTime && StringLe(a.id, b.id))
  }

  /** The one list `List` may return: the distribution's records, newest first. */
  ghost predicate IsListing(out: seq<Record>, m: Records, distributionId: string) {
    && Sorted(out, NewestFirst)
    && NoDuplicates(out)
    && (forall r :: r in out <==> r.id in m && m[r.id] == r && r.distributionId == distributionId)
  }

  /** In a listing, times never rise, and records of one time stand in rising order of ID. */
  lemma ListingOrder(list: seq<Record>, m: Records, distributionId: string, i: nat, j: nat)
    requires IsListing(list, m, distributionId) && i < j < |list|
    ensures list[i].createTime >= list[j].createTime && list[i].id != list[j].id
    ensures list[i].createTime == list[j].createTime ==> StringLe(list[i].id, list[j].id)
  {
    assert list[i] in list && list[j] in list;
  }

  lemma NewestFirstIsTotalPreorder()
    ensures TotalPreorder(NewestFirst)
  {
    forall x: Record, y: Record
      ensures NewestFirst(x, y) || NewestFirst(y, x)
    {
      StringLeTotal(x.id, y.id);
    }
    forall x: Record, y: Record, z: Record | NewestFirst(x, y) && NewestFirst(y, z)
      ensures NewestFirst(x, z)
    {
      if x.createTime == y.createTime == z.createTime { StringLeTransitive(x.id, y.id, z.id); }
    }
  }

  lemma NewestFirstAntisymmetric(x: Record, y: Record)
    requires NewestFirst(x, y) && NewestFirst(y, x)
    ensures x.id == y.id
  {
    StringLeAntisymmetric(x.id, y.id);
  }

  /** Map iteration order does not show: the listing is unique. */
  lemma ListingUnique(a: seq<Record>, b: seq<Record>, m: Records, distributionId: string)
    requires IsListing(a, m, distributionId) && IsListing(b, m, distributionId)
    ensures a == b
  {
    SameSetSameMultiset(a, b);
    forall x, y | x in a && y in a && NewestFirst(x, y) && NewestFirst(y, x)
      ensures x == y
    {
      NewestFirstAntisymmetric(x, y);
    }
    SortedPermutationUnique(a, b, NewestFirst);
  }

  // ---- loading ----------------------------------------------------------------------------

  /** Later records replace earlier ones of the same ID. */
  function ById(records: seq<Record>): Records {
    if records == [] then map[]
    else ById(records[..|records| - 1])[records[|records| - 1].id := records[|records| - 1]]
  }

  lemma {:induction false} LoadedUnderOwnKeys(bucket: Records, keys: seq<string>)
    requires Keyed(bucket) && forall k :: k in keys ==> k in bucket
    ensures ById(ValuesAt(bucket, keys)) == map k | k in keys :: bucket[k]
  {
    if keys != [] {
      var n := |keys| - 1;
      LoadedUnderOwnKeys(bucket, keys[..n]);
      assert keys[n] in keys && forall k :: k in keys <==> k in keys[..n] || k == keys[n];
      assert ValuesAt(bucket, keys)[..n] == ValuesAt(bucket, keys[..n]);
    }
  }

  lemma KeyedLoads(bucket: Records, keys: seq<string>)
    requires Keyed(bucket) && InKeyOrder(keys, bucket.Keys)
    ensures ById(ValuesAt(bucket, keys)) == bucket
  {
    LoadedUnderOwnKeys(bucket, keys);
  }

  // ---- the store ------------------------------------------------------------------------------

  class BoltStore {
    var byID: Records
    var bucket: Records

    ghost predicate Valid()
      reads this
    {
      Mirrored(State())
    }

    ghost function State(): StoreState
      reads this
    {
      StoreState(byID, bucket)
    }

    /** Hydrates memory from whatever the bucket holds: entries in key order,
        each under the ID that its value carries. */
    constructor Load(bucket: Records)
      ensures this.bucket == bucket
      ensures exists keys :: InKeyOrder(keys, bucket.Keys) && byID == ById(ValuesAt(bucket, keys))
      ensures Keyed(bucket) ==> Valid() && State() == StoreState(bucket, bucket)
    {
      this.bucket := bucket;
      byID := map[];
      new;
      var keys := KeysInOrder(bucket.Keys);
      ghost var values := ValuesAt(bucket, keys);
      for i := 0 to |keys|
        invariant this.bucket == bucket && byID == ById(values[..i])
      {
        assert values[..i + 1][..i] == values[..i];
        byID := byID[bucket[keys[i]].id := bucket[keys[i]]];
      }
      assert values[..|keys|] == values;
      if Keyed(bucket) { KeyedLoads(bucket, keys); }
    }

    /** `minted` is the result of the random ID generator, `now` the clock. */
    method Create(distributionId: string, batch: Option<Batch>, minted: Option<string>, now: int, persisted: bool)
      returns (r: Result<Record, StoreError>)
      requires Valid() && minted != Some("")
      modifies this
      ensures Valid()
      ensures distributionId == "" ==> r == Failure(DistributionRequired)
      ensures distributionId != "" && batch.None? ==> r == Failure(BatchRequired)
      ensures distributionId != "" && batch.Some? && minted.None? ==> r == Failure(MintFailed)
      ensures r.Failure? ==> State() == old(State())
      ensures r.Success? ==>
                && distributionId != "" && batch.Some? && minted.Some? && persisted
                && r.value == Record(minted.value, distributionId, InProgress, now, batch.value)
                && State() == Put(old(State()), r.value, true)
      ensures distributionId != "" && batch.Some? && minted.Some? ==> (r.Success? <==> persisted)
    {
      if distributionId == "" { return Failure(DistributionRequired); }
      if batch.None? { return Failure(BatchRequired); }
      if minted.None? { return Failure(MintFailed); }
      var rec := Record(minted.value, distributionId, InProgress, now, batch.value);
      if !persisted { return Failure(PersistFailed); }
      bucket := bucket[rec.id := rec];
      byID := byID[rec.id := rec];
      return Success(rec);
    }

    /** An ID under another distribution is as absent as an unknown one. */
    method Get(distributionId: string, id: string) returns (r: Result<Record, StoreError>)
      requires Valid()
      ensures r.Success? <==> id in byID && byID[id].distributionId == distributionId
      ensures r.Success? ==> r.value == byID[id]
      ensures r.Failure? ==> r.error == NotFound
    {
      if id !in byID || byID[id].distributionId != distributionId { return Failure(NotFound); }
      return Success(byID[id]);
    }

    method UpdateStatus(id: string, text: string, persisted: bool) returns (r: Result<Record, StoreError>)
      requires Valid()
      modifies this
      ensures Valid()
      ensures ParseStatus(text).None? <==> text != "InProgress" && text != "Completed"
      ensures r.Success? ==> id in byID && byID[id].status == if text == "Completed" then Completed else InProgress
      ensures ParseStatus(text).None? ==> r == Failure(InvalidStatus) && State() == old(State())
      ensures ParseStatus(text).Some? && id !in old(byID) ==> r == Failure(NotFound)
      ensures ParseStatus(text).Some? ==> State() == SetStatus(old(State()), id, ParseStatus(text).value, persisted)
      ensures ParseStatus(text).Some? && id in old(byID) ==>
                (r.Success? <==> persisted || old(byID)[id].status == ParseStatus(text).value)
      ensures r.Success? ==> id in byID && r.value == byID[id]
    {
      var parsed := ParseStatus(text);
      if parsed.None? { return Failure(InvalidStatus); }
      var status := parsed.value;
      if id !in byID { return Failure(NotFound); }
      var rec := byID[id];
      if rec.status == status { return Success(rec); }
      var updated := Record(rec.id, rec.distributionId, status, rec.createTime, rec.batch);
      if !persisted { return Failure(PersistFailed); }
      bucket := bucket[id := updated];
      byID := byID[id := updated];
      return Success(updated);
    }

    /** Forces every InProgress record to Completed; `persists(id)` is the
        outcome of that record's write. Stops at the first failed write. */
    method RecoverInProgress(persists: string -> bool) returns (r: Result<nat, StoreError>)
      requires Valid()
      modifies this
      ensures Valid()
      ensures r.Success? ==> State() == StoreState(AllCompleted(old(byID)), AllCompleted(old(byID)))
      ensures r.Success? ==> r.value == |Pending(old(byID))|
      ensures (forall id :: id in Pending(old(byID)) ==> persists(id)) ==> r.Success?
      ensures r.Failure? ==> OnlyCompletes(old(byID), byID)
    {
      ghost var before := byID;
      var ids := Pending(byID);
      var count := |ids|;
      var todo := ids;
      while todo != {}
        invariant Valid() && todo <= ids == Pending(before)
        invariant Recovering(before, byID, todo)
        decreases |todo|
      {
        var id :| id in todo;
        if !persists(id) { return Failure(PersistFailed); }
        var updated := byID[id].(status := Completed);
        bucket := bucket[id := updated];
        byID := byID[id := updated];
        todo := todo - {id};
      }
      assert byID == AllCompleted(before);
      return Success(count);
    }

    /** Collects in map order, then sorts. */
    method List(distributionId: string) returns (out: seq<Record>)
      requires Valid()
      ensures IsListing(out, byID, distributionId)
    {
      var found: seq<Record> := [];
      var todo := byID.Keys;
      while todo != {}
        invariant todo <= byID.Keys
        invariant NoDuplicates(found)
        invariant forall r :: r in found <==>
                    r.id in byID && r.id !in todo && byID[r.id] == r && r.distributionId == distributionId
        decreases |todo|
      {
        var id :| id in todo;
        if byID[id].distributionId == distributionId {
          found := found + [byID[id]];
        }
        todo := todo - {id};
      }
      out := Sort(found, NewestFirst);
      NewestFirstIsTotalPreorder();
      SortSorted(found, NewestFirst);
      SortContents(found, NewestFirst);
      SortKeepsNoDuplicates(found, NewestFirst);
    }
  }

  /** Records in `todo` are as before, all others are Completed. */
  ghost predicate Recovering(before: Records, now: Records, todo: set<string>) {
    && now.Keys == before.Keys
    && forall id :: id in before ==>
         now[id] == if id in todo then before[id] else before[id].(status := Completed)
  }

  /** Nothing changed except that some records became Completed. */
  ghost predicate OnlyCompletes(before: Records, now: Records) {
    && now.Keys == before.Keys
    && forall id :: id in before ==> now[id] == before[id] || now[id] == before[id].(status := Completed)
  }
}
