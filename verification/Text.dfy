/** String and sequence operations that the njs and Go sources take from their
    runtimes: case folding, trimming, splitting, joining, ordering and sorting. */
module Text {

  datatype Option<+T> = None | Some(value: T)

  datatype Result<+T, +E> = Success(value: T) | Failure(error: E)

  // ---- characters ---------------------------------------------------------

  function LowerChar(c: char): char {
    if 'A' <= c <= 'Z' then (c as int + 32) as char else c
  }

  function ToLower(s: string): (r: string)
    ensures |r| == |s|
    ensures forall i :: 0 <= i < |s| ==> r[i] == LowerChar(s[i])
  {
    seq(|s|, i requires 0 <= i < |s| => LowerChar(s[i]))
  }

  const UPPER_LETTERS := "ABCDEFGHIJKLMNOPQRSTUVWXYZ"
  const LOWER_LETTERS := "abcdefghijklmnopqrstuvwxyz"

  /** The 26 capitals change, nothing else does. */
  lemma LowerCharExactly(c: char, i: nat)
    ensures i < 26 ==> LowerChar(UPPER_LETTERS[i]) == LOWER_LETTERS[i]
    ensures c !in UPPER_LETTERS ==> LowerChar(c) == c
  {
    if 'A' <= c <= 'Z' { assert UPPER_LETTERS[c as int - 'A' as int] == c; }
  }

  lemma ToLowerIdempotent(s: string)
    ensures ToLower(ToLower(s)) == ToLower(s)
  {
  }

  /** The characters that JavaScript's `trim` removes. */
  predicate IsSpace(c: char) {
    || '\U{0009}' <= c <= '\U{000D}'
    || c in {' ', '\U{00A0}', '\U{1680}', '\U{2028}', '\U{2029}', '\U{202F}', '\U{205F}', '\U{3000}', '\U{FEFF}'}
    || '\U{2000}' <= c <= '\U{200A}'
  }

  function TrimLeft(s: string): string {
    if s != [] && IsSpace(s[0]) then TrimLeft(s[1..]) else s
  }

  function TrimRight(s: string): string {
    if s != [] && IsSpace(s[|s| - 1]) then TrimRight(s[..|s| - 1]) else s
  }

  function Trim(s: string): string {
    TrimRight(TrimLeft(s))
  }

  predicate HasPrefix(s: string, p: string) {
    |p| <= |s| && s[..|p|] == p
  }

  predicate HasSuffix(s: string, p: string) {
    |p| <= |s| && s[|s| - |p|..] == p
  }

  // ---- searching, splitting, joining ---------------------------------------

  /** Offset of the first `c` in `s`, or -1. */
  function IndexOf(s: string, c: char): (i: int)
    ensures -1 <= i < |s|
    ensures i < 0 <==> c !in s
    ensures i >= 0 ==> s[i] == c && c !in s[..i]
  {
    if s == [] then -1
    else if s[0] == c then 0
    else
      var r := IndexOf(s[1..], c);
      assert s == [s[0]] + s[1..];
      if r < 0 then -1
      else
        assert s[..r + 1] == [s[0]] + s[1..][..r];
        r + 1
  }

  lemma IndexOfSeparator(a: string, c: char, b: string)
    requires c !in a
    ensures IndexOf(a + [c] + b, c) == |a|
  {
    assert (a + [c] + b)[|a|] == c;
  }

  function Split(s: string, c: char): (parts: seq<string>)
    ensures parts != []
    decreases |s|
  {
    var i := IndexOf(s, c);
    if i < 0 then [s] else [s[..i]] + Split(s[i + 1..], c)
  }

  function Join(parts: seq<string>, c: char): string {
    if parts == [] then []
    else if |parts| == 1 then parts[0]
    else parts[0] + [c] + Join(parts[1..], c)
  }

  lemma SplitFirst(a: string, c: char, b: string)
    requires c !in a
    ensures Split(a + [c] + b, c) == [a] + Split(b, c)
  {
    IndexOfSeparator(a, c, b);
    assert (a + [c] + b)[..|a|] == a && (a + [c] + b)[|a| + 1..] == b;
  }

  lemma ConcatAssociative<T>(a: seq<T>, b: seq<T>, c: seq<T>)
    ensures (a + b) + c == a + (b + c)
  {
  }

  lemma SeparatorShift(front: string, c: char, rest: string, b: string)
    ensures (front + [c] + rest) + [c] + b == front + [c] + (rest + [c] + b)
  {
  }

  lemma {:induction false} SplitConcat(a: string, c: char, b: string)
    ensures Split(a + [c] + b, c) == Split(a, c) + Split(b, c)
    decreases |a|
  {
    var i := IndexOf(a, c);
    if i < 0 {
      SplitFirst(a, c, b);
    } else {
      var front, rest := a[..i], a[i + 1..];
      assert a == front + [c] + rest;
      SeparatorShift(front, c, rest, b);
      SplitFirst(front, c, rest + [c] + b);
      SplitFirst(front, c, rest);
      SplitConcat(rest, c, b);
      ConcatAssociative([front], Split(rest, c), Split(b, c));
    }
  }

  lemma SplitSingle(s: string, c: char)
    requires c !in s
    ensures Split(s, c) == [s]
  {
  }

  /** Splitting undoes joining when no part contains the separator. */
  lemma {:induction false} SplitJoin(parts: seq<string>, c: char)
    requires parts != []
    requires forall p :: p in parts ==> c !in p
    ensures Split(Join(parts, c), c) == parts
  {
    var head, tail := parts[0], parts[1..];
    assert head in parts && parts == [head] + tail;
    SplitSingle(head, c);
    if tail != [] {
      SplitConcat(head, c, Join(tail, c));
      SplitJoin(tail, c);
    }
  }

  // ---- trimming and splitting -------------------------------------------------

  lemma {:induction false} TrimSpaceAfter(s: string, sp: char)
    requires IsSpace(sp)
    ensures Trim(s + [sp]) == Trim(s)
  {
    if s == [] {
      assert s + [sp] == [sp] && [sp][1..] == [];
    } else if IsSpace(s[0]) {
      assert (s + [sp])[1..] == s[1..] + [sp];
      TrimSpaceAfter(s[1..], sp);
    } else {
      assert (s + [sp])[..|s|] == s;
    }
  }

  lemma TrimSpaceBefore(sp: char, s: string)
    requires IsSpace(sp)
    ensures Trim([sp] + s) == Trim(s)
  {
    assert ([sp] + s)[1..] == s;
  }

  /** The same parts up to white space around each. */
  ghost predicate SameTrimmed(a: seq<string>, b: seq<string>) {
    |a| == |b| && forall i :: 0 <= i < |a| ==> Trim(a[i]) == Trim(b[i])
  }

  lemma SameTrimmedCons(x: string, xs: seq<string>, y: string, ys: seq<string>)
    requires Trim(x) == Trim(y) && SameTrimmed(xs, ys)
    ensures SameTrimmed([x] + xs, [y] + ys)
  {
  }

  lemma SplitSpaceBefore(sp: char, s: string, c: char)
    requires IsSpace(sp) && sp != c
    ensures SameTrimmed(Split([sp] + s, c), Split(s, c))
  {
    var i := IndexOf(s, c);
    if i < 0 {
      TrimSpaceBefore(sp, s);
      SplitSingle([sp] + s, c);
    } else {
      var front, rest := s[..i], s[i + 1..];
      assert s == front + [c] + rest && [sp] + s == ([sp] + front) + [c] + rest;
      SplitFirst(front, c, rest);
      SplitFirst([sp] + front, c, rest);
      TrimSpaceBefore(sp, front);
      SameTrimmedCons([sp] + front, Split(rest, c), front, Split(rest, c));
    }
  }

  lemma {:induction false} SplitSpaceAfter(s: string, sp: char, c: char)
    requires IsSpace(sp) && sp != c
    ensures SameTrimmed(Split(s + [sp], c), Split(s, c))
    decreases |s|
  {
    var i := IndexOf(s, c);
    if i < 0 {
      TrimSpaceAfter(s, sp);
      SplitSingle(s, c);
      SplitSingle(s + [sp], c);
    } else {
      var front, rest := s[..i], s[i + 1..];
      assert s == front + [c] + rest;
      SplitFirst(front, c, rest);
      ConcatAssociative(front + [c], rest, [sp]);
      SplitFirst(front, c, rest + [sp]);
      SplitSpaceAfter(rest, sp, c);
      SameTrimmedCons(front, Split(rest + [sp], c), front, Split(rest, c));
    }
  }

  lemma {:induction false} SplitTrimLeft(s: string, c: char)
    requires !IsSpace(c)
    ensures SameTrimmed(Split(TrimLeft(s), c), Split(s, c))
  {
    if s != [] && IsSpace(s[0]) {
      assert s == [s[0]] + s[1..];
      SplitSpaceBefore(s[0], s[1..], c);
      SplitTrimLeft(s[1..], c);
    }
  }

  lemma {:induction false} SplitTrimRight(s: string, c: char)
    requires !IsSpace(c)
    ensures SameTrimmed(Split(TrimRight(s), c), Split(s, c))
  {
    if s != [] && IsSpace(s[|s| - 1]) {
      var n := |s| - 1;
      assert s == s[..n] + [s[n]];
      SplitSpaceAfter(s[..n], s[n], c);
      SplitTrimRight(s[..n], c);
    }
  }

  /** Trimming before a split shows only as white space around the parts. */
  lemma SplitTrim(s: string, c: char)
    requires !IsSpace(c)
    ensures SameTrimmed(Split(Trim(s), c), Split(s, c))
  {
    SplitTrimLeft(s, c);
    SplitTrimRight(TrimLeft(s), c);
  }

  // ---- ordering -------------------------------------------------------------

  /** Lexicographic order on strings. */
  predicate StringLe(a: string, b: string) {
    a == [] || (b != [] && (a[0] < b[0] || (a[0] == b[0] && StringLe(a[1..], b[1..]))))
  }

  ghost predicate FirstDifferenceBelow(a: string, b: string, k: nat) {
    k < |a| && k < |b| && a[..k] == b[..k] && a[k] < b[k]
  }

  lemma DifferenceInTails(c: char, a: string, b: string, k: nat)
    ensures FirstDifferenceBelow([c] + a, [c] + b, k + 1) <==> FirstDifferenceBelow(a, b, k)
    ensures !FirstDifferenceBelow([c] + a, [c] + b, 0)
  {
    if k < |a| && k < |b| {
      assert ([c] + a)[..k + 1] == [c] + a[..k] && ([c] + b)[..k + 1] == [c] + b[..k];
      if [c] + a[..k] == [c] + b[..k] { assert ([c] + a[..k])[1..] == a[..k] && ([c] + b[..k])[1..] == b[..k]; }
    }
  }

  lemma PrefixInTails(c: char, a: string, b: string)
    ensures HasPrefix([c] + b, [c] + a) <==> HasPrefix(b, a)
  {
    if |a| <= |b| {
      assert ([c] + b)[..|a| + 1] == [c] + b[..|a|];
      if [c] + b[..|a|] == [c] + a { assert ([c] + b[..|a|])[1..] == b[..|a|] && ([c] + a)[1..] == a; }
    }
  }

  lemma PrefixHead(a: string, b: string, k: nat)
    requires 0 < k <= |a| && k <= |b|
    ensures a[0] != b[0] ==> a[..k] != b[..k]
  {
    assert a[..k][0] == a[0] && b[..k][0] == b[0];
  }

  lemma HeadsDiffer(a: string, b: string)
    requires a != [] && b != [] && a[0] != b[0]
    ensures !HasPrefix(b, a) && forall k: nat :: FirstDifferenceBelow(a, b, k) ==> k == 0
  {
    if |a| <= |b| { PrefixHead(a, b, |a|); }
    forall k: nat | 0 < k < |a| && k < |b|
      ensures a[..k] != b[..k]
    {
      PrefixHead(a, b, k);
    }
  }

  /** The first difference decides, and a prefix comes first. */
  lemma {:induction false} StringLeMeaning(a: string, b: string)
    ensures StringLe(a, b) <==> HasPrefix(b, a) || exists k: nat :: FirstDifferenceBelow(a, b, k)
  {
    if a != [] && b != [] {
      var s, t := a[1..], b[1..];
      assert a == [a[0]] + s && b == [b[0]] + t;
      if a[0] == b[0] {
        StringLeMeaning(s, t);
        PrefixInTails(a[0], s, t);
        if k: nat :| FirstDifferenceBelow(s, t, k) { DifferenceInTails(a[0], s, t, k); }
        if k: nat :| FirstDifferenceBelow(a, b, k) { DifferenceInTails(a[0], s, t, if k == 0 then 0 else k - 1); }
      } else {
        assert a[0] < b[0] ==> FirstDifferenceBelow(a, b, 0);
        HeadsDiffer(a, b);
      }
    }
  }

  lemma {:induction false} StringLeTotal(a: string, b: string)
    ensures StringLe(a, b) || StringLe(b, a)
  {
    if a != [] && b != [] { StringLeTotal(a[1..], b[1..]); }
  }

  lemma {:induction false} StringLeAntisymmetric(a: string, b: string)
    requires StringLe(a, b) && StringLe(b, a)
    ensures a == b
  {
    if a != [] {
      StringLeAntisymmetric(a[1..], b[1..]);
      assert a == [a[0]] + a[1..] && b == [b[0]] + b[1..];
    }
  }

  lemma {:induction false} StringLeTransitive(a: string, b: string, c: string)
    requires StringLe(a, b) && StringLe(b, c)
    ensures StringLe(a, c)
  {
    if a != [] && a[0] == b[0] == c[0] { StringLeTransitive(a[1..], b[1..], c[1..]); }
  }

  // ---- sorting ----------------------------------------------------------------

  ghost predicate TotalPreorder<T(!new)>(le: (T, T) -> bool) {
    && (forall x, y :: le(x, y) || le(y, x))
    && (forall x, y, z :: le(x, y) && le(y, z) ==> le(x, z))
  }

  ghost predicate Sorted<T>(s: seq<T>, le: (T, T) -> bool) {
    forall i, j :: 0 <= i < j < |s| ==> le(s[i], s[j])
  }

  function Insert<T>(x: T, s: seq<T>, le: (T, T) -> bool): seq<T> {
    if s == [] then [x]
    else if !le(s[0], x) then [x] + s
    else [s[0]] + Insert(x, s[1..], le)
  }

  /** A stable sort: equal elements keep their order. */
  function Sort<T>(s: seq<T>, le: (T, T) -> bool): seq<T> {
    if s == [] then [] else Insert(s[|s| - 1], Sort(s[..|s| - 1], le), le)
  }

  lemma {:induction false} InsertContents<T>(x: T, s: seq<T>, le: (T, T) -> bool)
    ensures multiset(Insert(x, s, le)) == multiset(s) + multiset{x}
  {
    if s != [] && le(s[0], x) {
      InsertContents(x, s[1..], le);
      assert s == [s[0]] + s[1..];
    }
  }

  lemma {:induction false} SortContents<T>(s: seq<T>, le: (T, T) -> bool)
    ensures multiset(Sort(s, le)) == multiset(s)
    ensures |Sort(s, le)| == |s|
    ensures forall x :: x in Sort(s, le) <==> x in s
  {
    if s != [] {
      var n := |s| - 1;
      SortContents(s[..n], le);
      InsertContents(s[n], Sort(s[..n], le), le);
      assert s == s[..n] + [s[n]];
    }
    SameContents(Sort(s, le), s);
  }

  lemma SameContents<T>(s: seq<T>, t: seq<T>)
    requires multiset(s) == multiset(t)
    ensures |s| == |t|
    ensures forall x :: x in s <==> x in t
  {
    assert |multiset(s)| == |multiset(t)|;
    forall x
      ensures x in s <==> x in t
    {
      assert x in s <==> x in multiset(s);
      assert x in t <==> x in multiset(t);
    }
  }

  lemma {:induction false} InsertAbove<T>(low: T, x: T, s: seq<T>, le: (T, T) -> bool)
    requires le(low, x) && forall i :: 0 <= i < |s| ==> le(low, s[i])
    ensures forall i :: 0 <= i < |Insert(x, s, le)| ==> le(low, Insert(x, s, le)[i])
  {
    if s != [] { InsertAbove(low, x, s[1..], le); }
  }

  lemma {:induction false} InsertSorted<T(!new)>(x: T, s: seq<T>, le: (T, T) -> bool)
    requires TotalPreorder(le) && Sorted(s, le)
    ensures Sorted(Insert(x, s, le), le)
  {
    if s != [] {
      if le(s[0], x) {
        InsertSorted(x, s[1..], le);
        InsertAbove(s[0], x, s[1..], le);
      } else {
        assert le(x, s[0]);
        forall j | 0 <= j < |s|
          ensures le(x, s[j])
        {
          assert j == 0 || le(s[0], s[j]);
        }
      }
    }
  }

  lemma {:induction false} SortSorted<T(!new)>(s: seq<T>, le: (T, T) -> bool)
    requires TotalPreorder(le)
    ensures Sorted(Sort(s, le), le)
  {
    if s != [] {
      SortSorted(s[..|s| - 1], le);
      InsertSorted(s[|s| - 1], Sort(s[..|s| - 1], le), le);
    }
  }

  /** `le` tells any two different elements of `s` apart. */
  ghost predicate Discriminates<T>(s: seq<T>, le: (T, T) -> bool) {
    forall x, y :: x in s && y in s && le(x, y) && le(y, x) ==> x == y
  }

  lemma SortedHeadLeast<T>(s: seq<T>, le: (T, T) -> bool, x: T)
    requires Sorted(s, le) && x in s
    ensures x == s[0] || le(s[0], x)
  {
    var i :| 0 <= i < |s| && s[i] == x;
  }

  lemma RemoveHead<T>(s: seq<T>)
    requires s != []
    ensures multiset(s[1..]) == multiset(s) - multiset{s[0]}
  {
    assert s == [s[0]] + s[1..];
  }

  lemma SameHead<T>(s: seq<T>, t: seq<T>, le: (T, T) -> bool)
    requires Sorted(s, le) && Sorted(t, le) && Discriminates(s, le)
    requires s != [] && t != [] && forall x :: x in s <==> x in t
    ensures s[0] == t[0]
  {
    assert t[0] in s && s[0] in t;
    SortedHeadLeast(s, le, t[0]);
    SortedHeadLeast(t, le, s[0]);
  }

  lemma {:induction false} SortedPermutationUnique<T>(s: seq<T>, t: seq<T>, le: (T, T) -> bool)
    requires Sorted(s, le) && Sorted(t, le)
    requires multiset(s) == multiset(t)
    requires Discriminates(s, le)
    ensures s == t
  {
    SameContents(s, t);
    if s != [] {
      SameHead(s, t, le);
      RemoveHead(s);
      RemoveHead(t);
      SortedPermutationUnique(s[1..], t[1..], le);
      assert s == [s[0]] + s[1..] && t == [t[0]] + t[1..];
    }
  }

  /** Sorting forgets the order of its input. */
  lemma SortPermutation<T(!new)>(s: seq<T>, t: seq<T>, le: (T, T) -> bool)
    requires TotalPreorder(le)
    requires multiset(s) == multiset(t)
    requires Discriminates(s, le)
    ensures Sort(s, le) == Sort(t, le)
  {
    SortSorted(s, le);
    SortSorted(t, le);
    SortContents(s, le);
    SortContents(t, le);
    SortedPermutationUnique(Sort(s, le), Sort(t, le), le);
  }

  ghost predicate NoDuplicates<T>(s: seq<T>) {
    forall i, j :: 0 <= i < j < |s| ==> s[i] != s[j]
  }

  lemma OnlyOne<T>(s: seq<T>, x: T)
    requires NoDuplicates(s) && x in s && forall y :: y in s ==> y == x
    ensures s == [x]
  {
    assert s[0] in s;
    assert s[|s| - 1] in s;
  }

  lemma {:induction false} NoDuplicatesCount<T>(s: seq<T>, x: T)
    requires NoDuplicates(s)
    ensures multiset(s)[x] == if x in s then 1 else 0
  {
    if s != [] {
      NoDuplicatesCount(s[1..], x);
      assert s == [s[0]] + s[1..];
    }
  }

  lemma SameSetSameMultiset<T>(s: seq<T>, t: seq<T>)
    requires NoDuplicates(s) && NoDuplicates(t)
    requires forall x :: x in s <==> x in t
    ensures multiset(s) == multiset(t)
  {
    forall x
      ensures multiset(s)[x] == multiset(t)[x]
    {
      NoDuplicatesCount(s, x);
      NoDuplicatesCount(t, x);
    }
  }

  lemma SortKeepsNoDuplicates<T>(s: seq<T>, le: (T, T) -> bool)
    requires NoDuplicates(s)
    ensures NoDuplicates(Sort(s, le))
  {
    var t := Sort(s, le);
    SortContents(s, le);
    forall i, j | 0 <= i < j < |t|
      ensures t[i] != t[j]
    {
      NoDuplicatesCount(s, t[i]);
      assert t == t[..j] + t[j..];
      assert t[i] in t[..j];
      assert t[j] == t[j..][0];
      assert multiset(t)[t[i]] == multiset(t[..j])[t[i]] + multiset(t[j..])[t[i]];
      assert multiset(t)[t[i]] == 1;
    }
  }

  // ---- map keys ----------------------------------------------------------------

  ghost function Members(keys: seq<string>): set<string> {
    set k | k in keys
  }

  ghost predicate Enumerates(keys: seq<string>, of: set<string>) {
    NoDuplicates(keys) && forall k :: k in keys <==> k in of
  }

  /** The order in which bbolt visits a bucket. */
  ghost predicate InKeyOrder(keys: seq<string>, of: set<string>) {
    Enumerates(keys, of) && Sorted(keys, StringLe)
  }

  ghost function ValuesAt<T>(m: map<string, T>, keys: seq<string>): (r: seq<T>)
    requires forall k :: k in keys ==> k in m
    ensures |r| == |keys|
    ensures forall i :: 0 <= i < |r| ==> r[i] == m[keys[i]]
  {
    seq(|keys|, i requires 0 <= i < |keys| => assert keys[i] in keys; m[keys[i]])
  }

  method KeysInOrder(of: set<string>) returns (keys: seq<string>)
    ensures InKeyOrder(keys, of)
  {
    var found: seq<string> := [];
    var todo := of;
    while todo != {}
      invariant todo <= of && Enumerates(found, of - todo)
      decreases |todo|
    {
      var k :| k in todo;
      found := found + [k];
      todo := todo - {k};
    }
    keys := Sort(found, StringLe);
    StringLeIsTotalPreorder();
    SortSorted(found, StringLe);
    SortContents(found, StringLe);
    SortKeepsNoDuplicates(found, StringLe);
  }

  lemma StringLeIsTotalPreorder()
    ensures TotalPreorder(StringLe)
  {
    forall x, y
      ensures StringLe(x, y) || StringLe(y, x)
    {
      StringLeTotal(x, y);
    }
    forall x, y, z | StringLe(x, y) && StringLe(y, z)
      ensures StringLe(x, z)
    {
      StringLeTransitive(x, y, z);
    }
  }
}
