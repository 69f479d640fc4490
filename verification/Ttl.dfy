/** nginx/njs/ttl.js and the TTL half of nginx/njs/cache_key.js: from a raw
    Cache-Control string and a possibly malformed policy to seconds. */
module Ttl {
  import opened Text
  import opened CacheControl

  /** A policy field as JSON may deliver it. `Other` is an absent field or a
      value that is not a number. */
  datatype JsValue = Finite(value: real) | NaN | PlusInfinity | MinusInfinity | Other

  datatype TtlFields = TtlFields(minTTL: JsValue, maxTTL: JsValue, defaultTTL: JsValue)

  datatype Bounds = Bounds(min: real, max: real, default_: real)

  const DEFAULT_BOUNDS := Bounds(0.0, 31536000.0, 86400.0)

  function SanitizeTtl(v: JsValue, fallback: real): real {
    if v.Finite? && v.value >= 0.0 then v.value else fallback
  }

  /** Every policy, however malformed, yields an ordered non-negative range. */
  function PolicyTtl(policy: Option<TtlFields>): (b: Bounds)
    ensures 0.0 <= b.min <= b.max && 0.0 <= b.default_
  {
    if policy.None? then DEFAULT_BOUNDS
    else
      var p := policy.value;
      var min := SanitizeTtl(p.minTTL, DEFAULT_BOUNDS.min);
      var max := SanitizeTtl(p.maxTTL, DEFAULT_BOUNDS.max);
      var def := SanitizeTtl(p.defaultTTL, DEFAULT_BOUNDS.default_);
      if min > max then Bounds(DEFAULT_BOUNDS.min, DEFAULT_BOUNDS.max, def) else Bounds(min, max, def)
  }

  predicate Restricted(cc: Directives) {
    cc.noStore || cc.noCache || cc.isPrivate
  }

  function ExplicitAge(cc: Directives): Option<nat> {
    if cc.sMaxage.Some? then cc.sMaxage else cc.maxAge
  }

  /** `compute` of ttl.js. */
  function Seconds(cc: Directives, b: Bounds): real {
    if Restricted(cc) then b.min
    else match ExplicitAge(cc)
      case Some(n) =>
        var v := if n as real < b.min then b.min else n as real;
        if v > b.max then b.max else v
      case None => b.default_
  }

  /** From the header string and the policy fields to the injected expiry. */
  function TtlOf(raw: string, policy: Option<TtlFields>): real {
    Seconds(Parsed(raw), PolicyTtl(policy))
  }

  // ---- laws ---------------------------------------------------------------------------

  function Distance(x: real, y: real): real {
    if x <= y then y - x else x - y
  }

  /** `v` is the point of [min, max] nearest to `n`. */
  ghost predicate NearestInRange(v: real, n: real, b: Bounds) {
    && b.min <= v <= b.max
    && forall x: real :: b.min <= x <= b.max ==> Distance(v, n) <= Distance(x, n)
  }

  /** A usable field: a finite number that is not negative. */
  ghost predicate Usable(v: JsValue) {
    v.Finite? && v.value >= 0.0
  }

  /** Usable fields are taken as they are, unusable ones give 0, a year and a
      day, and a range that is upside down gives the widest one. */
  lemma PolicyTtlExactly(p: TtlFields)
    ensures
      var b := PolicyTtl(Some(p));
      && (Usable(p.minTTL) && Usable(p.maxTTL) && p.minTTL.value <= p.maxTTL.value ==>
            b.min == p.minTTL.value && b.max == p.maxTTL.value)
      && (Usable(p.minTTL) && Usable(p.maxTTL) && p.minTTL.value > p.maxTTL.value ==> b.min == 0.0 && b.max == 31536000.0)
      && (Usable(p.minTTL) && !Usable(p.maxTTL) && p.minTTL.value <= 31536000.0 ==> b.min == p.minTTL.value && b.max == 31536000.0)
      && (!Usable(p.minTTL) ==> b.min == 0.0 && b.max == if Usable(p.maxTTL) then p.maxTTL.value else 31536000.0)
      && b.default_ == (if Usable(p.defaultTTL) then p.defaultTTL.value else 86400.0)
    ensures PolicyTtl(None) == PolicyTtl(Some(TtlFields(Other, Other, Other)))
  {
  }

  lemma TtlDecision(raw: string, policy: Option<TtlFields>)
    ensures
      var cc, b, t := Parsed(raw), PolicyTtl(policy), TtlOf(raw, policy);
      && t >= 0.0
      && (Restricted(cc) ==> t == b.min)
      && (!Restricted(cc) && cc.sMaxage.Some? ==> NearestInRange(t, cc.sMaxage.value as real, b))
      && (!Restricted(cc) && cc.sMaxage.None? && cc.maxAge.Some? ==> NearestInRange(t, cc.maxAge.value as real, b))
      && (!Restricted(cc) && cc.sMaxage.None? && cc.maxAge.None? ==> t == b.default_)
  {
  }

  /** DefaultTTL is not clamped: the result leaves the policy's range exactly
      when no directive applies and DefaultTTL itself lies outside it. */
  lemma OutOfRangeExactly(raw: string, policy: Option<TtlFields>)
    ensures
      var cc, b := Parsed(raw), PolicyTtl(policy);
      !(b.min <= TtlOf(raw, policy) <= b.max)
      <==> !Restricted(cc) && ExplicitAge(cc).None? && !(b.min <= b.default_ <= b.max)
  {
  }

  /** A DefaultTTL of 100 under a range of 10 to 20, and a response without Cache-Control. */
  lemma DefaultLeavesRange()
    ensures var policy := Some(TtlFields(Finite(10.0), Finite(20.0), Finite(100.0)));
            TtlOf("", policy) == 100.0 && PolicyTtl(policy).max == 20.0
  {
    EmptyParses();
  }

  /** `s-maxage=<n>`, plain or quoted. */
  function SMaxageToken(n: nat, quoted: bool): string {
    AgeField("s-maxage", Some(n), quoted)
  }

  function MaxAgeToken(n: nat, quoted: bool): string {
    AgeField("max-age", Some(n), quoted)
  }

  lemma AppendSMaxage(raw: string, n: nat, quoted: bool)
    ensures Parsed(raw + "," + SMaxageToken(n, quoted)) == Parsed(raw).(sMaxage := Some(n))
  {
    AgesParse(Directives(false, false, false, None, Some(n)), quoted, quoted);
    ParseConcat(raw, SMaxageToken(n, quoted));
  }

  lemma AppendMaxAge(raw: string, n: nat, quoted: bool)
    ensures Parsed(raw + "," + MaxAgeToken(n, quoted)) == Parsed(raw).(maxAge := Some(n))
  {
    AgesParse(Directives(false, false, false, Some(n), None), quoted, quoted);
    ParseConcat(raw, MaxAgeToken(n, quoted));
  }

  /** A directive appended to any header decides as if it stood alone,
      unless the header already forbids caching. */
  lemma AppendedSMaxageDecides(raw: string, n: nat, quoted: bool, policy: Option<TtlFields>)
    ensures
      var b := PolicyTtl(policy);
      var t := TtlOf(raw + "," + SMaxageToken(n, quoted), policy);
      if Restricted(Parsed(raw)) then t == b.min else NearestInRange(t, n as real, b)
  {
    AppendSMaxage(raw, n, quoted);
    TtlDecision(raw + "," + SMaxageToken(n, quoted), policy);
  }

  /** An appended max-age counts only while no s-maxage is present. */
  lemma AppendedMaxAgeYields(raw: string, n: nat, quoted: bool, policy: Option<TtlFields>)
    requires Parsed(raw).sMaxage.Some?
    ensures TtlOf(raw + "," + MaxAgeToken(n, quoted), policy) == TtlOf(raw, policy)
  {
    AppendMaxAge(raw, n, quoted);
  }

  lemma RestrictionWins(a: string, b: string, policy: Option<TtlFields>)
    requires Restricted(Parsed(a)) || Restricted(Parsed(b))
    ensures TtlOf(a + "," + b, policy) == PolicyTtl(policy).min
  {
    ParseConcat(a, b);
  }

  lemma SecondsMonotone(cc: Directives, m: nat, n: nat, b: Bounds)
    requires m <= n && b.min <= b.max
    ensures Seconds(cc.(sMaxage := Some(m)), b) <= Seconds(cc.(sMaxage := Some(n)), b)
    ensures Seconds(cc.(maxAge := Some(m)), b) <= Seconds(cc.(maxAge := Some(n)), b)
  {
    assert m as real <= n as real;
  }

  /** A larger age never gives a shorter TTL, be it an s-maxage or a max-age. */
  lemma Monotone(raw: string, m: nat, n: nat, quoted: bool, policy: Option<TtlFields>)
    requires m <= n
    ensures TtlOf(raw + "," + SMaxageToken(m, quoted), policy) <= TtlOf(raw + "," + SMaxageToken(n, quoted), policy)
    ensures TtlOf(raw + "," + MaxAgeToken(m, quoted), policy) <= TtlOf(raw + "," + MaxAgeToken(n, quoted), policy)
  {
    AppendSMaxage(raw, m, quoted);
    AppendSMaxage(raw, n, quoted);
    AppendMaxAge(raw, m, quoted);
    AppendMaxAge(raw, n, quoted);
    SecondsMonotone(Parsed(raw), m, n, PolicyTtl(policy));
  }
}
