/** internal/api/invalidation/aws_handler.go: marker pagination over a record
    set that grows between the requests of one traversal. */
module Pagination {
  import opened Text
  import opened PathPattern
  import opened InvalidationStore
  import opened InvalidationLifecycle

  const MAX_ITEMS_DEFAULT := 100
  const MAX_ITEMS_CAP := 100

  datatype Page = Page(items: seq<Record>, truncated: bool, nextMarker: string)

  /** The MaxItems query parameter; `number` is what Atoi makes of it. */
  function MaxItems(raw: string, number: Option<int>): (n: Option<nat>)
    ensures n.Some? ==> 1 <= n.value <= 100
    ensures raw == "" ==> n == Some(100)
    ensures n.None? <==> raw != "" && (number.None? || number.value <= 0)
    ensures n.Some? && raw != "" ==> n.value <= number.value && (n.value == number.value || n.value == 100)
  {
    if raw == "" then Some(MAX_ITEMS_DEFAULT)
    else if number.None? || number.value <= 0 then None
    else if number.value > MAX_ITEMS_CAP then Some(MAX_ITEMS_CAP)
    else Some(number.value)
  }

  /** Validation in CreateInvalidation: the index of the first bad path. */
  method FirstInvalidPath(paths: seq<string>) returns (bad: Option<nat>)
    ensures bad.None? <==> forall p :: p in paths ==> Acceptable(p)
    ensures bad.Some? ==> bad.value < |paths| && !Acceptable(paths[bad.value])
                          && forall i :: 0 <= i < bad.value ==> Acceptable(paths[i])
  {
    for i := 0 to |paths|
      invariant forall j :: 0 <= j < i ==> Acceptable(paths[j])
    {
      var r := ParsePattern(paths[i]);
      if r.Failure? { return Some(i); }
    }
    return None;
  }

  // ---- one page -------------------------------------------------------------------------

  /** The records after the first one with this ID; nothing if there is none. */
  function AfterId(records: seq<Record>, id: string): seq<Record> {
    if records == [] then []
    else if records[0].id == id then records[1..]
    else AfterId(records[1..], id)
  }

  function After(records: seq<Record>, marker: string): seq<Record> {
    if marker == "" then records else AfterId(records, marker)
  }

  function PageOf(records: seq<Record>, marker: string, maxItems: nat): Page
    requires maxItems >= 1
  {
    var rest := After(records, marker);
    if |rest| > maxItems then Page(rest[..maxItems], true, rest[maxItems - 1].id) else Page(rest, false, "")
  }

  lemma {:induction false} AfterIdAt(records: seq<Record>, k: nat)
    requires k < |records| && forall i :: 0 <= i < k ==> records[i].id != records[k].id
    ensures AfterId(records, records[k].id) == records[k + 1..]
  {
    if k > 0 { AfterIdAt(records[1..], k - 1); }
  }

  lemma {:induction false} AfterIdMissing(records: seq<Record>, id: string)
    requires forall r :: r in records ==> r.id != id
    ensures AfterId(records, id) == []
  {
    if records != [] { AfterIdMissing(records[1..], id); }
  }

  /** The scan with its mutable start and end. */
  method PaginateRecords(records: seq<Record>, marker: string, maxItems: nat) returns (page: Page)
    requires maxItems >= 1
    ensures page == PageOf(records, marker, maxItems)
  {
    var start := 0;
    if marker != "" {
      var found := false;
      var i := 0;
      while i < |records| && !found
        invariant 0 <= i <= |records|
        invariant !found ==> forall j :: 0 <= j < i ==> records[j].id != marker
        invariant found ==> 0 < start <= |records| && AfterId(records, marker) == records[start..]
        decreases |records| - i, !found
      {
        if records[i].id == marker {
          AfterIdAt(records, i);
          start, found := i + 1, true;
        } else {
          i := i + 1;
        }
      }
      if !found {
        AfterIdMissing(records, marker);
        return Page([], false, "");
      }
    }
    assert After(records, marker) == records[start..];
    if start >= |records| { return Page([], false, ""); }
    var end := start + maxItems;
    var truncated := false;
    if end < |records| {
      truncated := true;
    } else {
      end := |records|;
    }
    var items := records[start..end];
    var next := "";
    if truncated && |items| > 0 { next := items[|items| - 1].id; }
    assert items == records[start..][..end - start];
    return Page(items, truncated, next);
  }

  // ---- listing order by key -----------------------------------------------------------------

  /** Strict listing order; it looks only at CreateTime and ID. */
  ghost predicate Precedes(a: Record, b: Record) {
    NewestFirst(a, b) && (a.createTime == b.createTime ==> a.id != b.id)
  }

  lemma PrecedesTransitive(a: Record, b: Record, c: Record)
    requires Precedes(a, b) && Precedes(b, c)
    ensures Precedes(a, c)
  {
    if a.createTime == b.createTime == c.createTime {
      StringLeTransitive(a.id, b.id, c.id);
      if a.id == c.id { StringLeAntisymmetric(a.id, b.id); }
    }
  }

  ghost predicate InOrder(items: seq<Record>) {
    forall i, j :: 0 <= i < j < |items| ==> Precedes(items[i], items[j])
  }

  /** The order of a traversal: newest first, ties by rising ID. */
  lemma OrderMeaning(items: seq<Record>, i: nat, j: nat)
    requires InOrder(items) && i < j < |items|
    ensures items[i].createTime > items[j].createTime
         || (items[i].createTime == items[j].createTime && StringLe(items[i].id, items[j].id) && items[i].id != items[j].id)
  {
    assert Precedes(items[i], items[j]);
  }

  lemma ListingInOrder(list: seq<Record>, m: Records, dist: string)
    requires IsListing(list, m, dist)
    ensures InOrder(list)
  {
    forall i, j | 0 <= i < j < |list|
      ensures Precedes(list[i], list[j])
    {
      assert list[i] in list && list[j] in list;
    }
  }

  lemma PrecedesAsymmetric(a: Record, b: Record)
    requires Precedes(a, b)
    ensures !Precedes(b, a)
  {
    if Precedes(b, a) { StringLeAntisymmetric(a.id, b.id); }
  }

  lemma SuffixIsAfter(list: seq<Record>, k: nat, r: Record)
    requires InOrder(list) && k < |list| && r in list
    ensures r in list[k + 1..] <==> Precedes(list[k], r)
  {
    var i :| 0 <= i < |list| && list[i] == r;
    if i < k {
      PrecedesAsymmetric(list[i], list[k]);
    } else if i > k {
      assert r == list[k + 1..][i - k - 1];
    }
  }

  /** The page rest is exactly what the marker record precedes. */
  lemma AfterMarker(list: seq<Record>, m: Records, dist: string, marker: string)
    requires IsListing(list, m, dist) && Keyed(m)
    requires marker in m && m[marker].distributionId == dist
    ensures InOrder(AfterId(list, marker))
    ensures forall r :: r in AfterId(list, marker) <==> r in list && Precedes(m[marker], r)
  {
    ListingInOrder(list, m, dist);
    assert m[marker] in list;
    var k :| 0 <= k < |list| && list[k] == m[marker];
    forall i | 0 <= i < k
      ensures list[i].id != marker
    {
      assert list[i] in list && Precedes(list[i], list[k]);
    }
    AfterIdAt(list, k);
    forall r | r in list
      ensures r in list[k + 1..] <==> Precedes(list[k], r)
    {
      SuffixIsAfter(list, k, r);
    }
  }

  // ---- a traversal ----------------------------------------------------------------------------

  /** One ListInvalidations call: the records at that moment, the page size and the answer. */
  datatype Call = Call(records: Records, maxItems: nat, page: Page)

  ghost predicate Answers(c: Call, dist: string, marker: string) {
    && Keyed(c.records) && c.maxItems >= 1
    && exists list :: IsListing(list, c.records, dist) && c.page == PageOf(list, marker, c.maxItems)
  }

  /** Each call follows the NextMarker of the one before. In between, records
      may be added and completed, but not lost. */
  ghost predicate Traversal(calls: seq<Call>, dist: string, marker: string) {
    && calls != [] && Answers(calls[0], dist, marker)
    && (|calls| > 1 ==>
          && calls[0].page.truncated
          && Extends(calls[0].records, calls[1].records)
          && Traversal(calls[1..], dist, calls[0].page.nextMarker))
  }

  ghost predicate Complete(calls: seq<Call>) {
    calls != [] && !calls[|calls| - 1].page.truncated
  }

  ghost function Items(calls: seq<Call>): seq<Record> {
    if calls == [] then [] else calls[0].page.items + Items(calls[1..])
  }

  /** Still to come: this distribution's records behind the marker. */
  ghost predicate Ahead(m: Records, dist: string, marker: string, r: Record) {
    r.distributionId == dist && (marker == "" || (marker in m && Precedes(m[marker], r)))
  }

  ghost predicate MarkerKnown(m: Records, dist: string, marker: string) {
    marker == "" || (marker in m && m[marker].distributionId == dist)
  }

  lemma RestContents(list: seq<Record>, m: Records, dist: string, marker: string)
    requires IsListing(list, m, dist) && Keyed(m) && MarkerKnown(m, dist, marker)
    ensures InOrder(After(list, marker))
    ensures forall r :: r in After(list, marker) <==> r in list && Ahead(m, dist, marker, r)
  {
    if marker == "" {
      ListingInOrder(list, m, dist);
    } else {
      AfterMarker(list, m, dist, marker);
    }
  }

  /** Cutting a list in order after n records. */
  lemma CutAt(rest: seq<Record>, n: nat)
    requires InOrder(rest) && 1 <= n < |rest|
    ensures InOrder(rest[..n]) && rest[n - 1] in rest
    ensures forall r :: r in rest[..n] ==> r in rest
    ensures forall r :: r in rest && r !in rest[..n] ==> Precedes(rest[n - 1], r)
  {
    forall r | r in rest && r !in rest[..n]
      ensures Precedes(rest[n - 1], r)
    {
      var i :| 0 <= i < |rest| && rest[i] == r;
      assert i < n ==> rest[..n][i] == r;
    }
  }

  /** The items are current records ahead of the marker, in order. */
  ghost predicate HoldsAhead(m: Records, dist: string, marker: string, items: seq<Record>) {
    && InOrder(items)
    && forall r :: r in items ==> r.id in m && m[r.id] == r && Ahead(m, dist, marker, r)
  }

  /** The last record of a truncated page, where the next page takes over. */
  ghost predicate LeavesOffAt(m: Records, dist: string, p: Page) {
    && p.nextMarker in m && p.nextMarker != "" && m[p.nextMarker].distributionId == dist
    && p.items != [] && p.items[|p.items| - 1] == m[p.nextMarker]
  }

  /** What is ahead of the old marker and not on the page is ahead of the new one. */
  ghost predicate LeavesNothing(m: Records, dist: string, marker: string, p: Page) {
    forall id :: id in m && Ahead(m, dist, marker, m[id]) && m[id] !in p.items ==>
      p.truncated && p.nextMarker in m && Precedes(m[p.nextMarker], m[id])
  }

  /** What one page holds and where it leaves the marker. */
  ghost predicate PageFacts(m: Records, dist: string, marker: string, p: Page) {
    HoldsAhead(m, dist, marker, p.items) && (p.truncated ==> LeavesOffAt(m, dist, p)) && LeavesNothing(m, dist, marker, p)
  }

  lemma RestMembers(list: seq<Record>, m: Records, dist: string, marker: string)
    requires IsListing(list, m, dist) && Keyed(m) && MarkerKnown(m, dist, marker)
    ensures HoldsAhead(m, dist, marker, After(list, marker))
    ensures forall id :: id in m && Ahead(m, dist, marker, m[id]) ==> m[id] in After(list, marker)
  {
    RestContents(list, m, dist, marker);
  }

  lemma CutFacts(rest: seq<Record>, m: Records, dist: string, marker: string, n: nat)
    requires HoldsAhead(m, dist, marker, rest) && Keyed(m) && 1 <= n < |rest|
    requires forall id :: id in m && Ahead(m, dist, marker, m[id]) ==> m[id] in rest
    ensures PageFacts(m, dist, marker, Page(rest[..n], true, rest[n - 1].id))
  {
    CutAt(rest, n);
    assert rest[..n][n - 1] == rest[n - 1];
  }

  lemma PageContents(list: seq<Record>, m: Records, dist: string, marker: string, n: nat)
    requires IsListing(list, m, dist) && Keyed(m) && MarkerKnown(m, dist, marker) && n >= 1
    ensures PageFacts(m, dist, marker, PageOf(list, marker, n))
  {
    RestMembers(list, m, dist, marker);
    var rest := After(list, marker);
    if |rest| > n { CutFacts(rest, m, dist, marker, n); }
  }

  lemma CallContents(c: Call, dist: string, marker: string)
    requires Answers(c, dist, marker) && MarkerKnown(c.records, dist, marker)
    ensures PageFacts(c.records, dist, marker, c.page)
  {
    var list :| IsListing(list, c.records, dist) && c.page == PageOf(list, marker, c.maxItems);
    PageContents(list, c.records, dist, marker, c.maxItems);
  }

  // ---- joining a page to the pages after it ----------------------------------------------------

  ghost predicate IdIn(id: string, items: seq<Record>) {
    exists r :: r in items && r.id == id
  }

  /** Nothing behind the marker is missing. */
  ghost predicate Covers(m: Records, dist: string, marker: string, items: seq<Record>) {
    forall id :: id in m && Ahead(m, dist, marker, m[id]) ==> IdIn(id, items)
  }

  ghost predicate AllAfter(m: Records, marker: string, items: seq<Record>) {
    marker != "" ==> marker in m && forall r :: r in items ==> Precedes(m[marker], r)
  }

  /** An item whose ID `m` knows has the CreateTime that `m` gives it. */
  ghost predicate Agrees(m: Records, items: seq<Record>) {
    forall r :: r in items && r.id in m ==> m[r.id].createTime == r.createTime
  }

  ghost predicate DistinctRecordIds(list: seq<Record>) {
    forall i, j :: 0 <= i < j < |list| ==> list[i].id != list[j].id
  }

  /** Every record keeps its listing key, so the later marker stands where the earlier did. */
  lemma SameKeyLater(a: Records, b: Records, id: string)
    requires Extends(a, b) && id in a
    ensures id in b && b[id].createTime == a[id].createTime && b[id].id == a[id].id
    ensures b[id].distributionId == a[id].distributionId
  {
  }

  lemma JoinOrder(items: seq<Record>, last: Record, more: seq<Record>)
    requires InOrder(items) && InOrder(more) && items != [] && items[|items| - 1] == last
    requires forall r :: r in more ==> Precedes(last, r)
    ensures InOrder(items + more)
    ensures forall r, s :: r in items && s in more ==> Precedes(r, s)
  {
    forall r, s | r in items && s in more
      ensures Precedes(r, s)
    {
      var i :| 0 <= i < |items| && items[i] == r;
      if i < |items| - 1 { PrecedesTransitive(r, last, s); }
    }
    forall i, j | 0 <= i < j < |items + more|
      ensures Precedes((items + more)[i], (items + more)[j])
    {
      if i < |items| <= j { assert items[i] in items && more[j - |items|] in more; }
    }
  }

  lemma JoinDistinct(m: Records, items: seq<Record>, more: seq<Record>)
    requires DistinctRecordIds(items) && DistinctRecordIds(more)
    requires forall r :: r in items ==> r.id in m && m[r.id] == r
    requires Agrees(m, more)
    requires forall r, s :: r in items && s in more ==> Precedes(r, s)
    ensures DistinctRecordIds(items + more)
  {
    forall i, j | 0 <= i < |items| && 0 <= j < |more|
      ensures items[i].id != more[j].id
    {
      assert items[i] in items && more[j] in more && Precedes(items[i], more[j]);
    }
  }

  lemma JoinCovers(m: Records, dist: string, marker: string, p: Page, m': Records, more: seq<Record>)
    requires PageFacts(m, dist, marker, p) && p.truncated && Keyed(m)
    requires Extends(m, m') && Covers(m', dist, p.nextMarker, more)
    ensures Covers(m, dist, marker, p.items + more)
  {
    forall id | id in m && Ahead(m, dist, marker, m[id])
      ensures IdIn(id, p.items + more)
    {
      if m[id] in p.items {
        assert m[id] in p.items + more;
      } else {
        SameKeyLater(m, m', id);
        SameKeyLater(m, m', p.nextMarker);
        assert Ahead(m', dist, p.nextMarker, m'[id]);
        var r :| r in more && r.id == id;
        assert r in p.items + more;
      }
    }
  }

  lemma JoinAfter(m: Records, marker: string, items: seq<Record>, last: Record, more: seq<Record>)
    requires AllAfter(m, marker, items) && last in items
    requires forall r :: r in more ==> Precedes(last, r)
    ensures AllAfter(m, marker, items + more)
  {
    if marker != "" {
      forall r | r in more
        ensures Precedes(m[marker], r)
      {
        PrecedesTransitive(m[marker], last, r);
      }
    }
  }

  lemma InOrderDistinct(m: Records, items: seq<Record>)
    requires InOrder(items) && forall r :: r in items ==> r.id in m && m[r.id] == r
    ensures DistinctRecordIds(items)
  {
    forall i, j | 0 <= i < j < |items|
      ensures items[i].id != items[j].id
    {
      assert items[i] in items && items[j] in items && Precedes(items[i], items[j]);
    }
  }

  lemma AgreesEarlier(m: Records, m': Records, more: seq<Record>)
    requires Extends(m, m') && Agrees(m', more)
    ensures Agrees(m, more)
  {
    forall r | r in more && r.id in m
      ensures m[r.id].createTime == r.createTime
    {
      SameKeyLater(m, m', r.id);
    }
  }

  /** Everything claimed of a traversal, relative to its first call. */
  ghost predicate Sound(m: Records, dist: string, marker: string, items: seq<Record>, complete: bool) {
    && InOrder(items) && DistinctRecordIds(items) && AllAfter(m, marker, items) && Agrees(m, items)
    && (complete ==> Covers(m, dist, marker, items))
  }

  lemma LastCallSound(c: Call, dist: string, marker: string)
    requires Answers(c, dist, marker) && MarkerKnown(c.records, dist, marker)
    ensures Sound(c.records, dist, marker, c.page.items, !c.page.truncated)
  {
    CallContents(c, dist, marker);
    InOrderDistinct(c.records, c.page.items);
  }

  lemma JoinOrdered(m: Records, dist: string, marker: string, p: Page, m': Records, more: seq<Record>)
    requires PageFacts(m, dist, marker, p) && p.truncated && Extends(m, m')
    requires InOrder(more) && DistinctRecordIds(more) && AllAfter(m', p.nextMarker, more) && Agrees(m', more)
    ensures InOrder(p.items + more) && DistinctRecordIds(p.items + more)
    ensures AllAfter(m, marker, p.items + more) && Agrees(m, p.items + more)
  {
    var last := p.items[|p.items| - 1];
    SameKeyLater(m, m', p.nextMarker);
    assert forall r :: r in more ==> Precedes(last, r);
    JoinOrder(p.items, last, more);
    InOrderDistinct(m, p.items);
    AgreesEarlier(m, m', more);
    JoinDistinct(m, p.items, more);
    JoinAfter(m, marker, p.items, last, more);
  }

  lemma JoinSound(c: Call, dist: string, marker: string, m': Records, more: seq<Record>, complete: bool)
    requires Answers(c, dist, marker) && MarkerKnown(c.records, dist, marker) && c.page.truncated
    requires Extends(c.records, m') && Sound(m', dist, c.page.nextMarker, more, complete)
    ensures Sound(c.records, dist, marker, c.page.items + more, complete)
  {
    CallContents(c, dist, marker);
    JoinOrdered(c.records, dist, marker, c.page, m', more);
    if complete { JoinCovers(c.records, dist, marker, c.page, m', more); }
  }

  lemma {:induction false} TraversalSound(calls: seq<Call>, dist: string, marker: string)
    requires Traversal(calls, dist, marker) && MarkerKnown(calls[0].records, dist, marker)
    ensures Sound(calls[0].records, dist, marker, Items(calls), Complete(calls))
  {
    var c, tail := calls[0], calls[1..];
    if |calls| == 1 {
      LastCallSound(c, dist, marker);
      assert Items(tail) == [] && Items(calls) == c.page.items;
    } else {
      CallContents(c, dist, marker);
      SameKeyLater(c.records, calls[1].records, c.page.nextMarker);
      TraversalSound(tail, dist, c.page.nextMarker);
      JoinSound(c, dist, marker, calls[1].records, Items(tail), Complete(tail));
      assert Complete(calls) == Complete(tail);
    }
  }

  /** The page holds records of the distribution as they were when it was served. */
  ghost predicate PageCurrent(c: Call, dist: string) {
    forall r :: r in c.page.items ==> r.id in c.records && c.records[r.id] == r && r.distributionId == dist
  }

  ghost predicate Current(calls: seq<Call>, dist: string) {
    forall i :: 0 <= i < |calls| ==> PageCurrent(calls[i], dist)
  }

  lemma CallCurrent(c: Call, dist: string, marker: string)
    requires Answers(c, dist, marker) && MarkerKnown(c.records, dist, marker)
    ensures PageCurrent(c, dist)
    ensures c.page.truncated ==> MarkerKnown(c.records, dist, c.page.nextMarker)
  {
    CallContents(c, dist, marker);
  }

  lemma {:induction false} TraversalCurrent(calls: seq<Call>, dist: string, marker: string)
    requires Traversal(calls, dist, marker) && MarkerKnown(calls[0].records, dist, marker)
    ensures Current(calls, dist)
  {
    CallCurrent(calls[0], dist, marker);
    if |calls| > 1 {
      assert calls[1..][0] == calls[1];
      TraversalCurrent(calls[1..], dist, calls[0].page.nextMarker);
      assert forall i :: 0 < i < |calls| ==> calls[i] == calls[1..][i - 1];
    }
  }

  // ---- main results ---------------------------------------------------------------------------

  /** Pagination under concurrent growth: a traversal from the empty marker is
      strictly ordered, repeats no ID, returns records as they stood, and, once
      complete, holds every record of the distribution that existed at its first page. */
  lemma TraversalExact(calls: seq<Call>, dist: string)
    requires Traversal(calls, dist, "")
    ensures InOrder(Items(calls)) && DistinctRecordIds(Items(calls)) && Current(calls, dist)
    ensures Complete(calls) ==>
              forall id :: id in calls[0].records && calls[0].records[id].distributionId == dist ==> IdIn(id, Items(calls))
  {
    TraversalSound(calls, dist, "");
    TraversalCurrent(calls, dist, "");
  }

  /** The calls are served by one running system; `runs[i]` is everything that
      happens between call i and call i+1, crashes and recoveries included. */
  ghost predicate Served(calls: seq<Call>, dist: string, marker: string, s: System, runs: seq<seq<Step>>) {
    && calls != [] && calls[0].records == s.store.mem && Answers(calls[0], dist, marker)
    && (|calls| > 1 ==>
          && runs != [] && calls[0].page.truncated
          && Served(calls[1..], dist, calls[0].page.nextMarker, Run(s, runs[0]), runs[1..]))
  }

  lemma {:induction false} ServedIsTraversal(calls: seq<Call>, dist: string, marker: string, s: System, runs: seq<seq<Step>>)
    requires Inv(s) && Served(calls, dist, marker, s, runs)
    ensures Traversal(calls, dist, marker)
    decreases |calls|
  {
    if |calls| > 1 {
      RunExtends(s, runs[0]);
      ServedIsTraversal(calls[1..], dist, calls[0].page.nextMarker, Run(s, runs[0]), runs[1..]);
      assert calls[1..][0] == calls[1];
    }
  }

  /** The traversal guarantee holds against the whole system. */
  lemma TraversalAcrossRuns(calls: seq<Call>, dist: string, s: System, runs: seq<seq<Step>>)
    requires Inv(s) && Served(calls, dist, "", s, runs)
    ensures InOrder(Items(calls)) && DistinctRecordIds(Items(calls)) && Current(calls, dist)
    ensures Complete(calls) ==>
              forall id :: id in s.store.mem && s.store.mem[id].distributionId == dist ==> IdIn(id, Items(calls))
  {
    ServedIsTraversal(calls, dist, "", s, runs);
    TraversalExact(calls, dist);
  }

  // ---- without inserts ---------------------------------------------------------------------------

  /** The IDs of the distribution's records. */
  ghost function Owned(m: Records, dist: string): set<string> {
    set id | id in m && m[id].distributionId == dist
  }

  ghost function IdSeq(items: seq<Record>): (ids: seq<string>)
    ensures |ids| == |items|
    ensures forall i :: 0 <= i < |ids| ==> ids[i] == items[i].id
  {
    seq(|items|, i requires 0 <= i < |items| => items[i].id)
  }

  /** Nothing is created in this distribution between the pages; records of
      others may be, and statuses may change. */
  ghost predicate NoInserts(calls: seq<Call>, dist: string) {
    forall i :: 0 <= i < |calls| ==> Owned(calls[i].records, dist) == Owned(calls[0].records, dist)
  }

  /** The same records, as a later moment knows them. */
  ghost function Renewed(items: seq<Record>, m: Records): (r: seq<Record>)
    requires forall x :: x in items ==> x.id in m
    ensures |r| == |items|
    ensures forall i :: 0 <= i < |r| ==> r[i] == m[items[i].id]
  {
    seq(|items|, i requires 0 <= i < |items| => assert items[i] in items; m[items[i].id])
  }

  lemma RenewedIsListing(list: seq<Record>, a: Records, b: Records, dist: string)
    requires IsListing(list, a, dist) && Keyed(a) && Keyed(b)
    requires Extends(a, b) && Owned(a, dist) == Owned(b, dist)
    requires forall x :: x in list ==> x.id in b
    ensures IsListing(Renewed(list, b), b, dist)
  {
    var r := Renewed(list, b);
    forall i | 0 <= i < |list|
      ensures r[i].id == list[i].id && r[i].createTime == list[i].createTime && r[i].distributionId == dist
    {
      assert list[i] in list;
      SameKeyLater(a, b, list[i].id);
    }
    ListingInOrder(list, a, dist);
    forall x: Record | x.id in b && b[x.id] == x && x.distributionId == dist
      ensures x in r
    {
      assert x.id in Owned(b, dist);
      assert a[x.id] in list;
      var i :| 0 <= i < |list| && list[i] == a[x.id];
      assert r[i] == x;
    }
    forall i, j | 0 <= i < j < |r|
      ensures NewestFirst(r[i], r[j]) && r[i] != r[j]
    {
      assert Precedes(list[i], list[j]);
    }
  }

  /** Status changes do not show in the order of IDs. */
  lemma RenewedIds(list: seq<Record>, a: Records, b: Records, dist: string)
    requires IsListing(list, a, dist) && Keyed(b)
    requires forall x :: x in list ==> x.id in b
    ensures IdSeq(Renewed(list, b)) == IdSeq(list)
  {
    forall i | 0 <= i < |list|
      ensures Renewed(list, b)[i].id == list[i].id
    {
      assert list[i] in list;
    }
  }

  /** The marker stands just before position k. */
  ghost predicate StandsAt(ids: seq<string>, k: nat, marker: string) {
    k <= |ids| && if marker == "" then k == 0 else k > 0 && ids[k - 1] == marker
  }

  lemma RestAt(list: seq<Record>, k: nat, marker: string)
    requires DistinctRecordIds(list) && StandsAt(IdSeq(list), k, marker)
    ensures After(list, marker) == list[k..]
  {
    if marker != "" { AfterIdAt(list, k - 1); }
  }

  /** One page of size n from position k: its IDs, and where the next one starts. */
  ghost predicate Advances(p: Page, n: nat, ids: seq<string>, k: nat)
    requires k <= |ids|
  {
    if p.truncated then
      && n >= 1 && k + n < |ids| && IdSeq(p.items) == ids[k..k + n] && StandsAt(ids, k + n, p.nextMarker)
    else IdSeq(p.items) == ids[k..]
  }

  lemma PageOfAt(list: seq<Record>, k: nat, marker: string, n: nat)
    requires DistinctRecordIds(list) && (forall r :: r in list ==> r.id != "")
    requires StandsAt(IdSeq(list), k, marker) && n >= 1
    ensures Advances(PageOf(list, marker, n), n, IdSeq(list), k)
  {
    RestAt(list, k, marker);
    if |list[k..]| > n {
      assert list[k..][n - 1] == list[k + n - 1] && list[k + n - 1] in list;
    }
  }

  lemma ListingIds(list: seq<Record>, m: Records, dist: string)
    requires IsListing(list, m, dist) && Keyed(m)
    ensures DistinctRecordIds(list) && forall r :: r in list ==> r.id != ""
  {
    ListingInOrder(list, m, dist);
    InOrderDistinct(m, list);
  }

  lemma IdSeqConcat(a: seq<Record>, b: seq<Record>)
    ensures IdSeq(a + b) == IdSeq(a) + IdSeq(b)
  {
  }

  /** The page that a call answers, in terms of the listing. */
  lemma PageOfListing(c: Call, dist: string, marker: string, list: seq<Record>)
    requires Answers(c, dist, marker) && IsListing(list, c.records, dist)
    ensures c.page == PageOf(list, marker, c.maxItems)
  {
    var l :| IsListing(l, c.records, dist) && c.page == PageOf(l, marker, c.maxItems);
    ListingUnique(l, list, c.records, dist);
  }

  /** The distribution's records, listed, have these IDs. */
  ghost predicate Lists(m: Records, dist: string, ids: seq<string>) {
    exists list :: IsListing(list, m, dist) && IdSeq(list) == ids
  }

  /** What `calls` returned and how many they are, with the IDs from position k on to come. */
  ghost predicate Exhausts(calls: seq<Call>, ids: seq<string>, k: nat)
    requires k <= |ids|
  {
    && (Complete(calls) ==> IdSeq(Items(calls)) == ids[k..])
    && (|calls| == 1 || |calls| <= |ids| - k)
    && (Complete(calls) || |calls| < |ids| - k)
  }

  lemma PageAdvances(c: Call, dist: string, marker: string, ids: seq<string>, k: nat)
    requires Answers(c, dist, marker) && Lists(c.records, dist, ids) && StandsAt(ids, k, marker)
    ensures Advances(c.page, c.maxItems, ids, k)
  {
    var list :| IsListing(list, c.records, dist) && IdSeq(list) == ids;
    ListingIds(list, c.records, dist);
    PageOfListing(c, dist, marker, list);
    PageOfAt(list, k, marker, c.maxItems);
  }

  lemma ListsLater(a: Records, b: Records, dist: string, ids: seq<string>)
    requires Lists(a, dist, ids) && Keyed(a) && Keyed(b) && Extends(a, b) && Owned(a, dist) == Owned(b, dist)
    ensures Lists(b, dist, ids)
  {
    var list :| IsListing(list, a, dist) && IdSeq(list) == ids;
    forall x: Record | x in list
      ensures x.id in b
    {
      SameKeyLater(a, b, x.id);
    }
    RenewedIsListing(list, a, b, dist);
    RenewedIds(list, a, b, dist);
  }

  lemma TraversalTail(calls: seq<Call>, dist: string, marker: string)
    requires Traversal(calls, dist, marker) && NoInserts(calls, dist) && |calls| > 1
    ensures calls[0].page.truncated && Extends(calls[0].records, calls[1].records)
    ensures Keyed(calls[0].records) && Keyed(calls[1].records)
    ensures Traversal(calls[1..], dist, calls[0].page.nextMarker) && NoInserts(calls[1..], dist)
  {
    assert calls[1..][0] == calls[1];
  }

  lemma LastExhausts(calls: seq<Call>, ids: seq<string>, k: nat)
    requires |calls| == 1 && k <= |ids| && Advances(calls[0].page, calls[0].maxItems, ids, k)
    ensures Exhausts(calls, ids, k)
  {
    assert Items(calls[1..]) == [] && Items(calls) == calls[0].page.items;
  }

  lemma JoinExhausts(calls: seq<Call>, ids: seq<string>, k: nat)
    requires |calls| > 1 && calls[0].page.truncated && k <= |ids| && Advances(calls[0].page, calls[0].maxItems, ids, k)
    requires Exhausts(calls[1..], ids, k + calls[0].maxItems)
    ensures Exhausts(calls, ids, k)
  {
    var tail, n := calls[1..], calls[0].maxItems;
    assert Complete(calls) == Complete(tail);
    IdSeqConcat(calls[0].page.items, Items(tail));
    assert ids[k..] == ids[k..k + n] + ids[k + n..];
  }

  /** Every call finds the same IDs in the same order. */
  ghost predicate AllList(calls: seq<Call>, dist: string, ids: seq<string>) {
    forall i :: 0 <= i < |calls| ==> Lists(calls[i].records, dist, ids)
  }

  lemma AllListJoin(calls: seq<Call>, dist: string, ids: seq<string>)
    requires calls != [] && Lists(calls[0].records, dist, ids) && AllList(calls[1..], dist, ids)
    ensures AllList(calls, dist, ids)
  {
    assert forall i :: 0 < i < |calls| ==> calls[i] == calls[1..][i - 1];
  }

  /** What the step from the first to the second call leaves the ID order at. */
  lemma NextLists(calls: seq<Call>, dist: string, marker: string, ids: seq<string>)
    requires Traversal(calls, dist, marker) && NoInserts(calls, dist) && |calls| > 1
    requires Lists(calls[0].records, dist, ids)
    ensures Lists(calls[1..][0].records, dist, ids)
  {
    var c, d := calls[0], calls[1];
    TraversalTail(calls, dist, marker);
    assert Owned(c.records, dist) == Owned(d.records, dist) && calls[1..][0] == d;
    ListsLater(c.records, d.records, dist, ids);
  }

  lemma {:induction false} NoInsertsAllList(calls: seq<Call>, dist: string, marker: string, ids: seq<string>)
    requires Traversal(calls, dist, marker) && NoInserts(calls, dist) && Lists(calls[0].records, dist, ids)
    ensures AllList(calls, dist, ids)
    decreases |calls|
  {
    if |calls| > 1 {
      TraversalTail(calls, dist, marker);
      NextLists(calls, dist, marker, ids);
      NoInsertsAllList(calls[1..], dist, calls[0].page.nextMarker, ids);
      AllListJoin(calls, dist, ids);
    }
  }

  /** Wherever this marker stands among the IDs, the page advances from there. */
  ghost predicate PagesBehind(c: Call, ids: seq<string>, marker: string) {
    forall k: nat :: StandsAt(ids, k, marker) ==> Advances(c.page, c.maxItems, ids, k)
  }

  lemma AnswerPagesBehind(c: Call, dist: string, marker: string, ids: seq<string>)
    requires Answers(c, dist, marker) && Lists(c.records, dist, ids)
    ensures PagesBehind(c, ids, marker)
  {
    forall k: nat | StandsAt(ids, k, marker)
      ensures Advances(c.page, c.maxItems, ids, k)
    {
      PageAdvances(c, dist, marker, ids, k);
    }
  }

  /** Page after page through the same IDs. */
  ghost predicate Follows(calls: seq<Call>, ids: seq<string>, marker: string) {
    && calls != [] && PagesBehind(calls[0], ids, marker)
    && (|calls| > 1 ==> calls[0].page.truncated && Follows(calls[1..], ids, calls[0].page.nextMarker))
  }

  lemma {:induction false} TraversalFollows(calls: seq<Call>, dist: string, marker: string, ids: seq<string>)
    requires Traversal(calls, dist, marker) && AllList(calls, dist, ids)
    ensures Follows(calls, ids, marker)
    decreases |calls|
  {
    AnswerPagesBehind(calls[0], dist, marker, ids);
    if |calls| > 1 {
      var tail := calls[1..];
      assert forall i :: 0 <= i < |tail| ==> tail[i] == calls[i + 1];
      TraversalFollows(tail, dist, calls[0].page.nextMarker, ids);
    }
  }

  lemma {:induction false} FollowsExhausts(calls: seq<Call>, ids: seq<string>, marker: string, k: nat)
    requires Follows(calls, ids, marker) && StandsAt(ids, k, marker)
    ensures Exhausts(calls, ids, k)
    decreases |calls|
  {
    assert Advances(calls[0].page, calls[0].maxItems, ids, k);
    if |calls| == 1 {
      LastExhausts(calls, ids, k);
    } else {
      FollowsExhausts(calls[1..], ids, calls[0].page.nextMarker, k + calls[0].maxItems);
      JoinExhausts(calls, ids, k);
    }
  }

  /** Without inserts, whatever statuses change: the traversal ends within as
      many pages as there are records (one page if there is none), and it then
      returned exactly the listed IDs in listing order. */
  lemma NoInsertsExact(calls: seq<Call>, dist: string, list: seq<Record>)
    requires Traversal(calls, dist, "") && NoInserts(calls, dist)
    requires IsListing(list, calls[0].records, dist)
    ensures Complete(calls) ==> IdSeq(Items(calls)) == IdSeq(list)
    ensures |calls| == 1 || |calls| <= |list|
    ensures Complete(calls) || |calls| < |list|
  {
    NoInsertsAllList(calls, dist, "", IdSeq(list));
    TraversalFollows(calls, dist, "", IdSeq(list));
    FollowsExhausts(calls, IdSeq(list), "", 0);
    assert IdSeq(list)[0..] == IdSeq(list);
  }

  // ---- without inserts, against the running system ---------------------------------------------

  /** No handler creates an invalidation of this distribution. */
  ghost predicate Quiet(steps: seq<Step>, dist: string) {
    forall i :: 0 <= i < |steps| ==> !(steps[i].HandlerCreate? && steps[i].distributionId == dist)
  }

  lemma StepKeepsOwned(s: System, step: Step, dist: string)
    requires Inv(s) && !(step.HandlerCreate? && step.distributionId == dist)
    ensures Owned(Apply(s, step).store.mem, dist) == Owned(s.store.mem, dist)
  {
    match step
    case HandlerCreate(d, b, id, now, ok) => CreateKeepsOwned(s, d, b, id, now, ok, dist);
    case WorkerFinish(ok) => if s.worker.Purged? { CompleteKeepsOwned(s.store, s.worker.job.id, ok, dist); }
    case RecoverOne(id, ok) =>
      CompleteKeepsOwned(s.store, id, true, dist);
      assert !ok ==> RecoverStep(s, id, ok).store.mem == s.store.mem;
    case HandlerEnqueue(id) => assert EnqueueStep(s, id).store == s.store;
    case WorkerTake => assert TakeStep(s).store == s.store;
    case WorkerPurge => assert PurgeStep(s).store == s.store;
    case BootDone => assert BootDoneStep(s).store == s.store;
    case Crash => assert Apply(s, step).store.mem == s.store.mem;
  }

  lemma CreateKeepsOwned(s: System, d: string, batch: Batch, id: string, now: int, persisted: bool, dist: string)
    requires d != dist
    ensures Owned(CreateStep(s, d, batch, id, now, persisted).store.mem, dist) == Owned(s.store.mem, dist)
  {
  }

  lemma CompleteKeepsOwned(st: StoreState, id: string, persisted: bool, dist: string)
    requires Mirrored(st)
    ensures Owned(SetStatus(st, id, Completed, persisted).mem, dist) == Owned(st.mem, dist)
  {
  }

  lemma {:induction false} QuietKeepsOwned(s: System, steps: seq<Step>, dist: string)
    requires Inv(s) && Quiet(steps, dist)
    ensures Owned(Run(s, steps).store.mem, dist) == Owned(s.store.mem, dist)
  {
    if steps != [] {
      var n := |steps| - 1;
      RunExtends(s, steps[..n]);
      QuietKeepsOwned(s, steps[..n], dist);
      StepKeepsOwned(Run(s, steps[..n]), steps[n], dist);
    }
  }

  ghost predicate AllQuiet(runs: seq<seq<Step>>, dist: string) {
    forall i :: 0 <= i < |runs| ==> Quiet(runs[i], dist)
  }

  lemma ServedTail(calls: seq<Call>, dist: string, marker: string, s: System, runs: seq<seq<Step>>)
    requires Inv(s) && Served(calls, dist, marker, s, runs) && |calls| > 1
    ensures calls[0].records == s.store.mem && runs != []
    ensures Inv(Run(s, runs[0])) && calls[1].records == Run(s, runs[0]).store.mem
    ensures Served(calls[1..], dist, calls[0].page.nextMarker, Run(s, runs[0]), runs[1..])
  {
    RunExtends(s, runs[0]);
    assert calls[1..][0] == calls[1];
  }

  lemma NoInsertsJoin(calls: seq<Call>, dist: string)
    requires |calls| > 1 && NoInserts(calls[1..], dist)
    requires Owned(calls[1].records, dist) == Owned(calls[0].records, dist)
    ensures NoInserts(calls, dist)
  {
    var tail := calls[1..];
    assert tail[0] == calls[1];
    assert forall i :: 0 < i < |calls| ==> calls[i] == tail[i - 1];
  }

  lemma {:induction false} QuietMeansNoInserts(calls: seq<Call>, dist: string, marker: string, s: System, runs: seq<seq<Step>>)
    requires Inv(s) && Served(calls, dist, marker, s, runs) && AllQuiet(runs, dist)
    ensures NoInserts(calls, dist)
    decreases |calls|
  {
    if |calls| > 1 {
      var tail, later := calls[1..], Run(s, runs[0]);
      ServedTail(calls, dist, marker, s, runs);
      QuietKeepsOwned(s, runs[0], dist);
      QuietMeansNoInserts(tail, dist, calls[0].page.nextMarker, later, runs[1..]);
      NoInsertsJoin(calls, dist);
    }
  }

  /** While the worker, other distributions, crashes and recoveries go on, a
      traversal without creations in its distribution ends with its whole list. */
  lemma QuietTraversalAcrossRuns(calls: seq<Call>, dist: string, s: System, runs: seq<seq<Step>>, list: seq<Record>)
    requires Inv(s) && Served(calls, dist, "", s, runs) && AllQuiet(runs, dist)
    requires IsListing(list, s.store.mem, dist)
    ensures Complete(calls) ==> IdSeq(Items(calls)) == IdSeq(list)
    ensures |calls| == 1 || |calls| <= |list|
    ensures Complete(calls) || |calls| < |list|
  {
    ServedIsTraversal(calls, dist, "", s, runs);
    QuietMeansNoInserts(calls, dist, "", s, runs);
    NoInsertsExact(calls, dist, list);
  }
}
