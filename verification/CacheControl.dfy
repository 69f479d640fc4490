/** nginx/njs/cache_control.js: the five Cache-Control directives cf-local reads
    (section 5.2 of RFC 9111), with ages as in section 1.2.2 of RFC 9111. */
module CacheControl {
  import opened Text

  datatype Directives = Directives(
    noStore: bool, noCache: bool, isPrivate: bool,
    maxAge: Option<nat>, sMaxage: Option<nat>)

  const NO_DIRECTIVES := Directives(false, false, false, None, None)

  // ---- numbers ------------------------------------------------------------------

  predicate IsDigit(c: char) {
    '0' <= c <= '9'
  }

  function DigitValue(c: char): nat
    requires IsDigit(c)
  {
    c as nat - '0' as nat
  }

  predicate AllDigits(s: string) {
    forall i :: 0 <= i < |s| ==> IsDigit(s[i])
  }

  function Decimal(s: string): nat
    requires AllDigits(s)
  {
    if s == [] then 0 else 10 * Decimal(s[..|s| - 1]) + DigitValue(s[|s| - 1])
  }

  /** A digit string is its value; anything else is no number. */
  function DeltaSeconds(s: string): Option<nat> {
    if s != [] && AllDigits(s) then Some(Decimal(s)) else None
  }

  method ParseDeltaSeconds(s: Option<string>) returns (n: Option<nat>)
    ensures n == match s case None => None case Some(text) => DeltaSeconds(text)
  {
    if s.None? || s.value == "" { return None; }
    var text := s.value;
    for i := 0 to |text|
      invariant AllDigits(text[..i])
    {
      if text[i] < '0' || text[i] > '9' { return None; }
      assert text[..i + 1] == text[..i] + [text[i]];
    }
    assert text[..|text|] == text;
    return Some(Decimal(text));
  }

  // ---- one directive ----------------------------------------------------------------

  function Unquote(v: string): string {
    if |v| >= 2 && v[0] == '"' && v[|v| - 1] == '"' then v[1..|v| - 1] else v
  }

  function Name(t: string): string {
    var eq := IndexOf(t, '=');
    ToLower(if eq < 0 then t else Trim(t[..eq]))
  }

  function Value(t: string): Option<string> {
    var eq := IndexOf(t, '=');
    if eq < 0 then None else Some(Unquote(Trim(t[eq + 1..])))
  }

  function Age(v: Option<string>): Option<nat> {
    match v case None => None case Some(text) => DeltaSeconds(text)
  }

  function NamedDirective(name: string, value: Option<string>): Directives {
    Directives(name == "no-store", name == "no-cache", name == "private",
               if name == "max-age" then Age(value) else None,
               if name == "s-maxage" then Age(value) else None)
  }

  /** What one comma-separated token says on its own. */
  function Directive(token: string): Directives {
    NamedDirective(Name(Trim(token)), Value(Trim(token)))
  }

  /** Flags are or-ed and the later valid number wins. */
  function Merge(a: Directives, b: Directives): Directives {
    Directives(a.noStore || b.noStore, a.noCache || b.noCache, a.isPrivate || b.isPrivate,
               if b.maxAge.Some? then b.maxAge else a.maxAge,
               if b.sMaxage.Some? then b.sMaxage else a.sMaxage)
  }

  function MergeAll(tokens: seq<string>): Directives {
    if tokens == [] then NO_DIRECTIVES
    else Merge(MergeAll(tokens[..|tokens| - 1]), Directive(tokens[|tokens| - 1]))
  }

  function Parsed(raw: string): Directives {
    MergeAll(Split(raw, ','))
  }

  // ---- the parser ---------------------------------------------------------------------

  method Parse(raw: string) returns (out: Directives)
    ensures out == Parsed(raw)
  {
    out := NO_DIRECTIVES;
    if raw == "" {
      EmptyParses();
      return;
    }
    var tokens := Split(raw, ',');
    for i := 0 to |tokens|
      invariant out == MergeAll(tokens[..i])
    {
      assert tokens[..i + 1][..i] == tokens[..i];
      var t := Trim(tokens[i]);
      if t == "" {
        EmptyToken();
        continue;
      }
      var name, value := SplitDirective(t);
      out := ApplyDirective(out, name, value);
    }
    assert tokens[..|tokens|] == tokens;
  }

  /** Name and unquoted value of a trimmed token. */
  method SplitDirective(t: string) returns (name: string, value: Option<string>)
    ensures name == Name(t) && value == Value(t)
  {
    var eq := IndexOf(t, '=');
    if eq < 0 { return ToLower(t), None; }
    name := ToLower(Trim(t[..eq]));
    var v := Trim(t[eq + 1..]);
    if |v| >= 2 && v[0] == '"' && v[|v| - 1] == '"' {
      v := v[1..|v| - 1];
    }
    value := Some(v);
  }

  /** One directive updates the fields of `out`. */
  method ApplyDirective(before: Directives, name: string, value: Option<string>) returns (out: Directives)
    ensures out == Merge(before, NamedDirective(name, value))
  {
    out := before;
    var n := ParseDeltaSeconds(value);
    NamesDiffer();
    if name == "no-store" {
      out := out.(noStore := true);
    } else if name == "no-cache" {
      out := out.(noCache := true);
    } else if name == "private" {
      out := out.(isPrivate := true);
    } else if name == "max-age" {
      if n.Some? { out := out.(maxAge := n); }
    } else if name == "s-maxage" {
      if n.Some? { out := out.(sMaxage := n); }
    }
  }

  lemma EmptyToken()
    ensures NamedDirective(Name(""), Value("")) == NO_DIRECTIVES
  {
    assert IndexOf("", '=') == -1 && ToLower("") == "";
  }

  lemma EmptyParses()
    ensures Parsed("") == NO_DIRECTIVES
  {
    assert Split("", ',') == [""] && [""][..0] == [];
    assert Trim("") == "";
    EmptyToken();
  }

  // ---- merge law ------------------------------------------------------------------------

  lemma {:induction false} MergeAllConcat(a: seq<string>, b: seq<string>)
    ensures MergeAll(a + b) == Merge(MergeAll(a), MergeAll(b))
  {
    if b == [] {
      assert a + b == a;
    } else {
      var n := |b| - 1;
      assert (a + b)[..|a + b| - 1] == a + b[..n];
      MergeAllConcat(a, b[..n]);
    }
  }

  /** Parsing a comma-joined header is parsing each half and merging. */
  lemma ParseConcat(a: string, b: string)
    ensures Parsed(a + "," + b) == Merge(Parsed(a), Parsed(b))
  {
    SplitConcat(a, ',', b);
    MergeAllConcat(Split(a, ','), Split(b, ','));
  }

  /** One pair of surrounding quotes goes; anything else stays. */
  lemma UnquoteExactly(v: string)
    ensures Unquote("\"" + v + "\"") == v
    ensures (|v| < 2 || v[0] != '"' || v[|v| - 1] != '"') ==> Unquote(v) == v
  {
    assert ("\"" + v + "\"")[1..|v| + 1] == v;
  }

  lemma MergeNothing(d: Directives)
    ensures Merge(d, NO_DIRECTIVES) == d
  {
  }

  /** A token with another name than the five is ignored wherever it stands. */
  lemma UnknownIgnored(raw: string, token: string)
    requires ',' !in token && !IsDirectiveName(Name(Trim(token)))
    ensures Parsed(raw + "," + token) == Parsed(raw)
  {
    ParsedSingle(token);
    ParseConcat(raw, token);
    MergeNothing(Parsed(raw));
  }

  /** An age that is not a plain digit string counts as absent: it neither sets
      nor clears the age that stood before. */
  lemma BadAgeIgnored(raw: string, name: string, value: string)
    requires name == "max-age" || name == "s-maxage"
    requires ',' !in value
    requires var v := Unquote(Trim(value)); v == "" || exists i :: 0 <= i < |v| && !('0' <= v[i] <= '9')
    ensures Parsed(raw + "," + (name + "=" + value)) == Parsed(raw)
  {
    var token := name + "=" + value;
    NamesDiffer();
    DirectiveName(name);
    TrimTight(name);
    DirectiveMeaning(name, value);
    ParsedSingle(token);
    ParseConcat(raw, token);
    MergeNothing(Parsed(raw));
  }

  // ---- printing round trip ------------------------------------------------------------------

  function PrintNat(n: nat): (s: string)
    ensures s != [] && AllDigits(s)
    ensures Decimal(s) == n
  {
    var d := ('0' as nat + n % 10) as char;
    if n < 10 then
      assert [d][..0] == [];
      [d]
    else
      var front := PrintNat(n / 10);
      assert (front + [d])[..|front|] == front;
      front + [d]
  }

  function PrintAge(name: string, n: nat, quoted: bool): string {
    name + "=" + AgeText(n, quoted)
  }

  function FlagText(name: string, present: bool): string {
    if present then name else ""
  }

  function AgeField(name: string, age: Option<nat>, quoted: bool): string {
    match age case None => "" case Some(n) => PrintAge(name, n, quoted)
  }

  /** One token per directive; absent directives print as an empty token. */
  function Print(d: Directives, quoteMax: bool, quoteS: bool): string {
    FlagText("no-store", d.noStore) + "," +
    (FlagText("no-cache", d.noCache) + "," +
    (FlagText("private", d.isPrivate) + "," +
    (AgeField("max-age", d.maxAge, quoteMax) + "," +
    AgeField("s-maxage", d.sMaxage, quoteS))))
  }

  predicate Tight(s: string) {
    s == [] || (!IsSpace(s[0]) && !IsSpace(s[|s| - 1]))
  }

  lemma TrimTight(s: string)
    requires Tight(s)
    ensures Trim(s) == s
  {
  }

  lemma ParsedSingle(t: string)
    requires ',' !in t
    ensures Parsed(t) == Directive(t)
  {
    assert Split(t, ',') == [t] && [t][..0] == [];
    assert MergeAll([t]) == Merge(MergeAll([t][..0]), Directive(t));
  }

  lemma PlainToken(t: string)
    requires Tight(t) && ToLower(t) == t && ',' !in t && '=' !in t
    ensures Parsed(t) == Directives(t == "no-store", t == "no-cache", t == "private", None, None)
  {
    ParsedSingle(t);
    TrimTight(t);
  }

  lemma Lowercase(s: string)
    requires forall i :: 0 <= i < |s| ==> !('A' <= s[i] <= 'Z')
    ensures ToLower(s) == s
  {
  }

  lemma NamesDiffer()
    ensures "no-store" != "no-cache" && "no-store" != "private" && "no-cache" != "private"
    ensures "max-age" != "s-maxage" && "max-age" != "private"
  {
    assert "no-store"[3] == 's' && "no-cache"[3] == 'c';
    assert "max-age"[0] == 'm' && "private"[0] == 'p';
  }

  predicate IsDirectiveName(t: string) {
    t == "no-store" || t == "no-cache" || t == "private" || t == "max-age" || t == "s-maxage"
  }

  lemma DirectiveName(t: string)
    requires IsDirectiveName(t)
    ensures t != [] && Tight(t) && ToLower(t) == t && ',' !in t && '=' !in t
  {
    Lowercase(t);
  }

  lemma TightToken(n: string, v: string)
    requires '=' !in n && (n == [] || !IsSpace(n[0])) && (v == [] || !IsSpace(v[|v| - 1]))
    ensures Directive(n + "=" + v) == NamedDirective(ToLower(Trim(n)), Some(Unquote(Trim(v))))
  {
    var t := n + "=" + v;
    IndexOfSeparator(n, '=', v);
    assert t[..|n|] == n && t[|n| + 1..] == v;
    assert t[0] == (if n == [] then '=' else n[0]) && t[|t| - 1] == (if v == [] then '=' else v[|v| - 1]);
    TrimTight(t);
  }

  /** Any token splits at its first `=` into the trimmed, case-folded name and
      the trimmed, unquoted value, wherever white space stands. */
  lemma {:induction false} DirectiveMeaning(n: string, v: string)
    requires '=' !in n
    ensures Directive(n + "=" + v) == NamedDirective(ToLower(Trim(n)), Some(Unquote(Trim(v))))
    decreases |n| + |v|
  {
    if n != [] && IsSpace(n[0]) {
      assert n == [n[0]] + n[1..] && n + "=" + v == [n[0]] + (n[1..] + "=" + v);
      TrimSpaceBefore(n[0], n[1..]);
      TrimSpaceBefore(n[0], n[1..] + "=" + v);
      DirectiveMeaning(n[1..], v);
    } else if v != [] && IsSpace(v[|v| - 1]) {
      var k := |v| - 1;
      assert v == v[..k] + [v[k]] && n + "=" + v == (n + "=" + v[..k]) + [v[k]];
      TrimSpaceAfter(v[..k], v[k]);
      TrimSpaceAfter(n + "=" + v[..k], v[k]);
      DirectiveMeaning(n, v[..k]);
    } else {
      TightToken(n, v);
    }
  }

  function AgeText(n: nat, quoted: bool): string {
    if quoted then "\"" + PrintNat(n) + "\"" else PrintNat(n)
  }

  lemma AgeTextReads(n: nat, quoted: bool)
    ensures AgeText(n, quoted) != [] && Tight(AgeText(n, quoted)) && ',' !in AgeText(n, quoted)
    ensures DeltaSeconds(Unquote(AgeText(n, quoted))) == Some(n)
  {
    var digits := PrintNat(n);
    if quoted {
      assert AgeText(n, quoted)[1..|digits| + 1] == digits;
    }
  }

  lemma AgeToken(name: string, n: nat, quoted: bool)
    requires name == "max-age" || name == "s-maxage"
    ensures Parsed(PrintAge(name, n, quoted))
         == if name == "max-age" then NO_DIRECTIVES.(maxAge := Some(n)) else NO_DIRECTIVES.(sMaxage := Some(n))
  {
    NamesDiffer();
    DirectiveName(name);
    AgeTextReads(n, quoted);
    DirectiveMeaning(name, AgeText(n, quoted));
    TrimTight(name);
    TrimTight(AgeText(n, quoted));
    ParsedSingle(PrintAge(name, n, quoted));
  }

  lemma FlagParses(name: string, present: bool)
    requires IsDirectiveName(name) && name != "max-age" && name != "s-maxage"
    ensures Parsed(FlagText(name, present)) == if present then NamedDirective(name, None) else NO_DIRECTIVES
  {
    EmptyParses();
    if present {
      DirectiveName(name);
      PlainToken(name);
    }
  }

  lemma AgeFieldParses(name: string, age: Option<nat>, quoted: bool)
    requires name == "max-age" || name == "s-maxage"
    ensures Parsed(AgeField(name, age, quoted))
         == if name == "max-age" then NO_DIRECTIVES.(maxAge := age) else NO_DIRECTIVES.(sMaxage := age)
  {
    EmptyParses();
    if age.Some? { AgeToken(name, age.value, quoted); }
  }

  lemma FlagsParse(d: Directives)
    ensures Parsed(FlagText("no-store", d.noStore)) == NO_DIRECTIVES.(noStore := d.noStore)
    ensures Parsed(FlagText("no-cache", d.noCache)) == NO_DIRECTIVES.(noCache := d.noCache)
    ensures Parsed(FlagText("private", d.isPrivate)) == NO_DIRECTIVES.(isPrivate := d.isPrivate)
  {
    NamesDiffer();
    FlagParses("no-store", d.noStore);
    FlagParses("no-cache", d.noCache);
    FlagParses("private", d.isPrivate);
  }

  lemma FiveTokens(t1: string, t2: string, t3: string, t4: string, t5: string, d: Directives)
    requires Parsed(t1) == NO_DIRECTIVES.(noStore := d.noStore)
    requires Parsed(t2) == NO_DIRECTIVES.(noCache := d.noCache)
    requires Parsed(t3) == NO_DIRECTIVES.(isPrivate := d.isPrivate)
    requires Parsed(t4) == NO_DIRECTIVES.(maxAge := d.maxAge)
    requires Parsed(t5) == NO_DIRECTIVES.(sMaxage := d.sMaxage)
    ensures Parsed(t1 + "," + (t2 + "," + (t3 + "," + (t4 + "," + t5)))) == d
  {
    ParseConcat(t4, t5);
    ParseConcat(t3, t4 + "," + t5);
    ParseConcat(t2, t3 + "," + (t4 + "," + t5));
    ParseConcat(t1, t2 + "," + (t3 + "," + (t4 + "," + t5)));
  }

  /** Printing any record, with plain or quoted ages, and parsing it back is the identity. */
  lemma PrintParse(d: Directives, quoteMax: bool, quoteS: bool)
    ensures Parsed(Print(d, quoteMax, quoteS)) == d
  {
    FlagsParse(d);
    AgesParse(d, quoteMax, quoteS);
    FiveTokens(FlagText("no-store", d.noStore), FlagText("no-cache", d.noCache), FlagText("private", d.isPrivate),
               AgeField("max-age", d.maxAge, quoteMax), AgeField("s-maxage", d.sMaxage, quoteS), d);
  }

  lemma AgesParse(d: Directives, quoteMax: bool, quoteS: bool)
    ensures Parsed(AgeField("max-age", d.maxAge, quoteMax)) == NO_DIRECTIVES.(maxAge := d.maxAge)
    ensures Parsed(AgeField("s-maxage", d.sMaxage, quoteS)) == NO_DIRECTIVES.(sMaxage := d.sMaxage)
  {
    NamesDiffer();
    AgeFieldParses("max-age", d.maxAge, quoteMax);
    AgeFieldParses("s-maxage", d.sMaxage, quoteS);
  }
}
