/** internal/invalidation/matcher.go: CloudFront invalidation paths. A string
    holds one character per byte, as Go indexes it. */
module PathPattern {
  import opened Text

  const MAX_PATH_LEN := 4000

  datatype PathError =
    | Empty
    | TooLong
    | NoLeadingSlash
    | NonAscii(offset: nat)
    | Tilde
    | Unsafe(offset: nat)
    | IncompleteEscape(offset: nat)
    | InvalidEscape(offset: nat)
    | EncodedTilde

  datatype Pattern = Pattern(raw: string, prefix: string, isWildcard: bool)

  // ---- the validation loop -----------------------------------------------------------

  predicate IsUnsafe(c: char) {
    c in {' ', '<', '>', '"', '{', '}', '|', '\\', '^', '`', '[', ']'}
  }

  predicate IsHex(c: char) {
    '0' <= c <= '9' || 'a' <= c <= 'f' || 'A' <= c <= 'F'
  }

  /** A byte that may stand in a path as itself or as the start of an escape. */
  predicate Allowed(c: char) {
    c as int <= 127 && c != '~' && !IsUnsafe(c)
  }

  predicate SpellsTilde(h1: char, h2: char) {
    h1 == '7' && (h2 == 'E' || h2 == 'e')
  }

  /** Allowed characters and `%` hex hex escapes other than that of `~`. */
  predicate InGrammar(s: string) {
    s == [] ||
    (Allowed(s[0]) &&
     if s[0] == '%' then |s| >= 3 && IsHex(s[1]) && IsHex(s[2]) && !SpellsTilde(s[1], s[2]) && InGrammar(s[3..])
     else InGrammar(s[1..]))
  }

  const UNSAFE := " <>\"{}|\\^`[]"

  /** The characters of section 2.2 of RFC 1738 that must be escaped, but not `#`
      and `%`: exactly these, `~` and the bytes above 127 may not stand for themselves. */
  lemma AllowedExactly(c: char)
    ensures Allowed(c) <==> c as int <= 127 && c != '~' && c !in UNSAFE
  {
    assert UNSAFE == [' ', '<', '>', '"', '{', '}', '|', '\\', '^', '`', '[', ']'];
  }

  lemma {:induction false} GrammarConcat(a: string, b: string)
    requires InGrammar(a) && InGrammar(b)
    ensures InGrammar(a + b)
  {
    if a == [] {
      assert a + b == b;
    } else {
      var k := if a[0] == '%' then 3 else 1;
      GrammarConcat(a[k..], b);
      assert (a + b)[k..] == a[k..] + b;
    }
  }

  /** The byte at `i` breaks the rule that the error names. */
  ghost predicate Breaks(path: string, i: nat, e: PathError)
    requires i < |path|
  {
    match e
    case NonAscii(offset) => offset == i && path[i] as int > 127
    case Tilde => path[i] == '~'
    case Unsafe(offset) => offset == i && IsUnsafe(path[i])
    case IncompleteEscape(offset) => offset == i && path[i] == '%' && |path| < i + 3
    case InvalidEscape(offset) =>
      offset == i && path[i] == '%' && i + 3 <= |path| && !(IsHex(path[i + 1]) && IsHex(path[i + 2]))
    case EncodedTilde => path[i] == '%' && i + 3 <= |path| && SpellsTilde(path[i + 1], path[i + 2])
    case _ => false
  }

  /** The error names the rule that is broken first; everything before is well formed. */
  ghost predicate PointsAtFirstFault(path: string, e: PathError) {
    exists i :: 0 <= i < |path| && InGrammar(path[..i]) && Breaks(path, i, e)
  }

  /** The loop advances its own index past each escape. */
  method ValidateChars(path: string) returns (err: Option<PathError>)
    ensures err.None? <==> InGrammar(path)
    ensures err.Some? ==> PointsAtFirstFault(path, err.value)
  {
    var i := 0;
    while i < |path|
      invariant 0 <= i <= |path|
      invariant InGrammar(path[..i])
      invariant InGrammar(path) <==> InGrammar(path[i..])
    {
      var c := path[i];
      var rest := path[i..];
      assert rest[0] == c;
      if c as int > 127 { return Some(NonAscii(i)); }
      if c == '~' { return Some(Tilde); }
      if IsUnsafe(c) { return Some(Unsafe(i)); }
      if c != '%' {
        assert rest[1..] == path[i + 1..] && path[..i + 1] == path[..i] + [c];
        GrammarConcat(path[..i], [c]);
        i := i + 1;
        continue;
      }
      if i + 2 >= |path| { return Some(IncompleteEscape(i)); }
      var h1, h2 := path[i + 1], path[i + 2];
      assert rest[1] == h1 && rest[2] == h2 && rest[3..] == path[i + 3..];
      if !IsHex(h1) || !IsHex(h2) { return Some(InvalidEscape(i)); }
      if h1 == '7' && (h2 == 'E' || h2 == 'e') { return Some(EncodedTilde); }
      assert path[..i + 3] == path[..i] + [c, h1, h2];
      GrammarConcat(path[..i], [c, h1, h2]);
      i := i + 3;
    }
    return None;
  }

  // ---- what the grammar means ---------------------------------------------------------

  function HexValue(c: char): (v: nat)
    requires IsHex(c)
    ensures v < 16
  {
    if '0' <= c <= '9' then c as nat - '0' as nat
    else if 'a' <= c <= 'f' then c as nat - 'a' as nat + 10
    else c as nat - 'A' as nat + 10
  }

  /** Percent-decoding to bytes (section 2.1 of RFC 3986); None on a bad escape. */
  function Decode(s: string): Option<seq<nat>> {
    if s == [] then Some([])
    else if s[0] == '%' then
      if |s| < 3 || !IsHex(s[1]) || !IsHex(s[2]) then None
      else
        match Decode(s[3..])
        case None => None
        case Some(rest) => Some([16 * HexValue(s[1]) + HexValue(s[2])] + rest)
    else
      match Decode(s[1..])
      case None => None
      case Some(rest) => Some([s[0] as nat] + rest)
  }

  const TILDE := '~' as nat

  /** The digit of value `v`, in either case. */
  function HexDigit(v: nat, upper: bool): char
    requires v < 16
  {
    (if upper then "0123456789ABCDEF" else "0123456789abcdef")[v]
  }

  lemma HexDigitReads(v: nat, upper: bool)
    requires v < 16
    ensures IsHex(HexDigit(v, upper)) && HexValue(HexDigit(v, upper)) == v
  {
  }

  /** Escaping any byte, with digits of either case, and decoding it gives the byte back. */
  lemma EscapeRoundTrip(b: nat, upper1: bool, upper2: bool)
    requires b < 256
    ensures Decode(['%', HexDigit(b / 16, upper1), HexDigit(b % 16, upper2)]) == Some([b])
  {
    HexDigitReads(b / 16, upper1);
    HexDigitReads(b % 16, upper2);
    var s := ['%', HexDigit(b / 16, upper1), HexDigit(b % 16, upper2)];
    assert s[3..] == [] && Decode(s[3..]) == Some([]);
    assert 16 * (b / 16) + b % 16 == b && [b] + [] == [b];
  }

  lemma TildeEscape(h1: char, h2: char)
    requires IsHex(h1) && IsHex(h2)
    ensures 16 * HexValue(h1) + HexValue(h2) == TILDE <==> SpellsTilde(h1, h2)
  {
  }

  /** The loop accepts exactly the strings of literally allowed bytes whose
      percent-decoding succeeds and is free of `~`. */
  lemma {:induction false} GrammarMeaning(s: string)
    ensures InGrammar(s)
       <==> && (forall c :: c in s ==> Allowed(c))
            && Decode(s).Some?
            && TILDE !in Decode(s).value
  {
    if s != [] {
      var k := if s[0] == '%' && |s| >= 3 then 3 else 1;
      assert s == s[..k] + s[k..];
      GrammarMeaning(s[k..]);
      if s[0] == '%' {
        if |s| >= 3 && IsHex(s[1]) && IsHex(s[2]) {
          TildeEscape(s[1], s[2]);
          HexIsAllowed(s[1]);
          HexIsAllowed(s[2]);
          assert s[..3] == [s[0], s[1], s[2]];
        }
      } else {
        assert s[..1] == [s[0]];
      }
    }
  }

  lemma HexIsAllowed(c: char)
    requires IsHex(c)
    ensures Allowed(c)
  {
  }

  // ---- parsing and matching -------------------------------------------------------------

  predicate Acceptable(path: string) {
    0 < |path| <= MAX_PATH_LEN && path[0] == '/' && InGrammar(path)
  }

  function PatternOf(path: string): Pattern {
    if HasSuffix(path, "*") then Pattern(path, path[..|path| - 1], true) else Pattern(path, path, false)
  }

  method ParsePattern(path: string) returns (r: Result<Pattern, PathError>)
    ensures r == Success(PatternOf(path)) || r.Failure?
    ensures r.Success? <==> Acceptable(path)
    ensures r == Failure(Empty) <==> path == ""
    ensures r == Failure(TooLong) <==> |path| > 4000
    ensures r == Failure(NoLeadingSlash) <==> 0 < |path| <= 4000 && path[0] != '/'
  {
    if path == "" { return Failure(Empty); }
    if |path| > MAX_PATH_LEN { return Failure(TooLong); }
    if !HasPrefix(path, "/") { return Failure(NoLeadingSlash); }
    var err := ValidateChars(path);
    if err.Some? { return Failure(err.value); }
    return Success(PatternOf(path));
  }

  predicate Match(p: Pattern, urlpath: string) {
    if p.isWildcard then HasPrefix(urlpath, p.prefix) else urlpath == p.prefix
  }

  /** A pattern prints back to its input. */
  lemma PatternPrintsBack(path: string)
    ensures var p := PatternOf(path); p.raw == path && p.prefix + (if p.isWildcard then "*" else "") == path
  {
    if HasSuffix(path, "*") {
      assert path == path[..|path| - 1] + path[|path| - 1..];
    }
  }

  /** Reference meaning: only a trailing `*` stands for any text. */
  ghost predicate Denotes(path: string, urlpath: string) {
    || (urlpath == path && !HasSuffix(path, "*"))
    || exists stem, tail :: path == stem + "*" && urlpath == stem + tail
  }

  lemma MatchMeaning(path: string, urlpath: string)
    ensures Match(PatternOf(path), urlpath) <==> Denotes(path, urlpath)
  {
    var p := PatternOf(path);
    PatternPrintsBack(path);
    if p.isWildcard && HasPrefix(urlpath, p.prefix) {
      assert path == p.prefix + "*" && urlpath == p.prefix + urlpath[|p.prefix|..];
    }
    forall stem, tail | path == stem + "*" && urlpath == stem + tail
      ensures Match(p, urlpath)
    {
      assert path[|path| - 1..] == "*" && p.prefix == stem;
    }
  }
}
