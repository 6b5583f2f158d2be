// Tunnel scheme and bracketed-host URL normalization
// (rust/easytier-proto/src/common.rs).
module TunnelUrl {
  import opened Wrappers

  const IP_SCHEMES: seq<string> := ["tcp", "udp", "wg", "quic", "ws", "wss", "faketcp"]

  datatype SplitScheme = SplitScheme(prefix: string, scheme: string, v6: bool)

  function StripSuffix(s: string, suffix: string): (r: Option<string>)
    ensures r.Some? ==> s == r.value + suffix
  {
    if |s| >= |suffix| && s[|s| - |suffix|..] == suffix then Some(s[..|s| - |suffix|]) else None
  }

  lemma StripSuffixOf(p: string, suffix: string)
    ensures StripSuffix(p + suffix, suffix) == Some(p)
  {
    var s := p + suffix;
    assert s[|p|..] == suffix && s[..|p|] == p;
  }

  predicate PrefixOk(prefix: string) {
    prefix == "" || prefix[|prefix| - 1] == '-'
  }

  // The scheme string made of its three parts.
  function Build(prefix: string, scheme: string, v6: bool): string {
    prefix + scheme + (if v6 then "6" else "")
  }

  // One iteration of the table search: with the suffix first, then without.
  function TrySplit(raw: string, scheme: string): Option<SplitScheme> {
    var base := StripSuffix(raw, "6");
    var withSuffix := if base.Some? then StripSuffix(base.value, scheme) else None;
    if withSuffix.Some? && PrefixOk(withSuffix.value) then Some(SplitScheme(withSuffix.value, scheme, true))
    else
      var plain := StripSuffix(raw, scheme);
      if plain.Some? && PrefixOk(plain.value) then Some(SplitScheme(plain.value, scheme, false)) else None
  }

  function SplitFrom(raw: string, schemes: seq<string>): Option<SplitScheme> {
    if schemes == [] then None
    else
      var found := TrySplit(raw, schemes[0]);
      if found.Some? then found else SplitFrom(raw, schemes[1..])
  }

  function SplitTunnelScheme(raw: string): Option<SplitScheme> {
    SplitFrom(raw, IP_SCHEMES)
  }

  function NormalizeTunnelScheme(raw: string, isIpv6: bool): Option<string> {
    match SplitTunnelScheme(raw)
    case None => None
    case Some(split) => Some(Build(split.prefix, split.scheme, isIpv6 || split.v6))
  }

  // What the proofs need of the table: no scheme is empty, has a dash, or ends
  // in the suffix.
  ghost predicate PlainScheme(s: string) {
    s != "" && s[|s| - 1] != '6' && '-' !in s
  }

  lemma SchemesArePlain(s: string)
    requires s in IP_SCHEMES
    ensures PlainScheme(s)
  {
    assert IP_SCHEMES == ["tcp", "udp", "wg", "quic", "ws", "wss", "faketcp"];
    assert s == "tcp" || s == "udp" || s == "wg" || s == "quic" || s == "ws" || s == "wss" || s == "faketcp";
  }

  lemma DashBound(p: string, s: string, q: string, r: string)
    requires p + s == q + r && PrefixOk(p) && '-' !in r
    ensures |p| <= |q|
  {
    if p != "" {
      var i := |p| - 1;
      assert (p + s)[i] == '-';
    }
  }

  // Two decompositions without suffix of one string agree: the longer scheme
  // would contain the dash that ends the longer prefix.
  lemma PartsAgree(p: string, s: string, q: string, r: string)
    requires p + s == q + r && PrefixOk(p) && PrefixOk(q) && PlainScheme(s) && PlainScheme(r)
    ensures p == q && s == r
  {
    var w := p + s;
    DashBound(p, s, q, r);
    DashBound(q, r, p, s);
    assert p == w[..|p|] && q == w[..|p|] && s == w[|p|..] && r == w[|p|..];
  }

  // Building is injective over known schemes and legal prefixes, so a scheme
  // string has at most one split.
  lemma BuildInjective(p: string, s: string, v: bool, q: string, r: string, w: bool)
    requires Build(p, s, v) == Build(q, r, w)
    requires PrefixOk(p) && PrefixOk(q) && s in IP_SCHEMES && r in IP_SCHEMES
    ensures p == q && s == r && v == w
  {
    SchemesArePlain(s);
    SchemesArePlain(r);
    var b := Build(p, s, v);
    var last := b[|b| - 1];
    assert last == if v then '6' else s[|s| - 1];
    assert last == if w then '6' else r[|r| - 1];
    if v {
      assert b[..|b| - 1] == p + s && b[..|b| - 1] == q + r;
    } else {
      assert b == p + s && b == q + r;
    }
    PartsAgree(p, s, q, r);
  }

  lemma TrySplitSound(raw: string, scheme: string)
    requires TrySplit(raw, scheme).Some?
    ensures
      var r := TrySplit(raw, scheme).value;
      raw == Build(r.prefix, r.scheme, r.v6) && PrefixOk(r.prefix) && r.scheme == scheme
  {
    var r := TrySplit(raw, scheme).value;
    if r.v6 {
      assert raw == StripSuffix(raw, "6").value + "6";
      assert r.prefix + scheme + "6" == (r.prefix + scheme) + "6";
    }
  }

  lemma TrySplitComplete(prefix: string, scheme: string, v6: bool)
    requires PrefixOk(prefix)
    ensures TrySplit(Build(prefix, scheme, v6), scheme).Some?
  {
    StripSuffixOf(prefix, scheme);
    if v6 {
      StripSuffixOf(prefix + scheme, "6");
    } else {
      assert Build(prefix, scheme, v6) == prefix + scheme;
    }
  }

  lemma {:induction false} SplitFromFinds(schemes: seq<string>, prefix: string, scheme: string, v6: bool)
    requires forall s :: s in schemes ==> s in IP_SCHEMES
    requires scheme in schemes && PrefixOk(prefix)
    ensures SplitFrom(Build(prefix, scheme, v6), schemes) == Some(SplitScheme(prefix, scheme, v6))
  {
    var raw := Build(prefix, scheme, v6);
    var found := TrySplit(raw, schemes[0]);
    if found.Some? {
      TrySplitSound(raw, schemes[0]);
      assert schemes[0] in schemes;
      BuildInjective(prefix, scheme, v6, found.value.prefix, found.value.scheme, found.value.v6);
    } else {
      if schemes[0] == scheme {
        TrySplitComplete(prefix, scheme, v6);
      }
      SplitFromFinds(schemes[1..], prefix, scheme, v6);
    }
  }

  // Splitting inverts building, for every legal prefix, every known scheme,
  // with or without the suffix.
  lemma SplitInvertsBuild(prefix: string, scheme: string, v6: bool)
    requires PrefixOk(prefix) && scheme in IP_SCHEMES
    ensures SplitTunnelScheme(Build(prefix, scheme, v6)) == Some(SplitScheme(prefix, scheme, v6))
  {
    SplitFromFinds(IP_SCHEMES, prefix, scheme, v6);
  }

  lemma {:induction false} SplitFromSound(raw: string, schemes: seq<string>)
    requires SplitFrom(raw, schemes).Some?
    ensures
      var r := SplitFrom(raw, schemes).value;
      raw == Build(r.prefix, r.scheme, r.v6) && PrefixOk(r.prefix) && r.scheme in schemes
  {
    if TrySplit(raw, schemes[0]).Some? {
      TrySplitSound(raw, schemes[0]);
    } else {
      SplitFromSound(raw, schemes[1..]);
    }
  }

  // And building inverts splitting: a string splits exactly when it is built
  // from legal parts.
  lemma BuildInvertsSplit(raw: string)
    ensures SplitTunnelScheme(raw).Some? ==>
      var r := SplitTunnelScheme(raw).value;
      raw == Build(r.prefix, r.scheme, r.v6) && PrefixOk(r.prefix) && r.scheme in IP_SCHEMES
  {
    if SplitTunnelScheme(raw).Some? {
      SplitFromSound(raw, IP_SCHEMES);
    }
  }

  // A prefix, scheme and suffix that make a tunnel scheme.
  predicate Legal(prefix: string, scheme: string) {
    PrefixOk(prefix) && scheme in IP_SCHEMES
  }

  ghost predicate IsTunnelScheme(raw: string) {
    exists prefix, scheme, v6 :: Legal(prefix, scheme) && raw == Build(prefix, scheme, v6)
  }

  // Normalizing keeps prefix and scheme and adds the suffix for IPv6, never
  // taking it away; exactly the tunnel schemes normalize.
  lemma SchemeNormalizes(prefix: string, scheme: string, v6: bool, isIpv6: bool)
    requires Legal(prefix, scheme)
    ensures NormalizeTunnelScheme(Build(prefix, scheme, v6), isIpv6) == Some(Build(prefix, scheme, isIpv6 || v6))
  {
    SplitInvertsBuild(prefix, scheme, v6);
  }

  lemma SchemeNormalizesIff(raw: string, isIpv6: bool)
    ensures NormalizeTunnelScheme(raw, isIpv6).Some? <==> IsTunnelScheme(raw)
  {
    BuildInvertsSplit(raw);
    if IsTunnelScheme(raw) {
      var prefix, scheme, v6 :| Legal(prefix, scheme) && raw == Build(prefix, scheme, v6);
      SplitInvertsBuild(prefix, scheme, v6);
    }
    if SplitTunnelScheme(raw).Some? {
      var split := SplitTunnelScheme(raw).value;
      assert Legal(split.prefix, split.scheme) && raw == Build(split.prefix, split.scheme, split.v6);
    }
  }

  // ----- ports -----

  predicate IsDigit(c: char) {
    '0' <= c <= '9'
  }

  function DigitValue(c: char): nat
    requires IsDigit(c)
  {
    c as int - '0' as int
  }

  function Digit(d: nat): char
    requires d < 10
  {
    ('0' as int + d) as char
  }

  predicate AllDigits(s: string) {
    forall i :: 0 <= i < |s| ==> IsDigit(s[i])
  }

  function DigitsValue(s: string): nat
    requires AllDigits(s)
  {
    if s == "" then 0 else 10 * DigitsValue(s[..|s| - 1]) + DigitValue(s[|s| - 1])
  }

  // str::parse::<u16>: an optional plus sign, then digits, within range.
  function ParseU16(s: string): Option<nat> {
    var digits := if |s| > 1 && s[0] == '+' then s[1..] else s;
    if digits != "" && AllDigits(digits) && DigitsValue(digits) <= 0xFFFF then Some(DigitsValue(digits)) else None
  }

  // Decimal formatting of a number.
  function Decimal(n: nat): string {
    if n < 10 then [Digit(n)] else Decimal(n / 10) + [Digit(n % 10)]
  }

  lemma {:induction false} DecimalReadsBack(n: nat)
    ensures Decimal(n) != "" && AllDigits(Decimal(n)) && DigitsValue(Decimal(n)) == n
  {
    if n >= 10 {
      DecimalReadsBack(n / 10);
      var s := Decimal(n);
      assert s[..|s| - 1] == Decimal(n / 10);
    } else {
      assert Decimal(n)[..0] == "";
    }
  }

  // A formatted port parses back to itself.
  lemma ParseInvertsDecimal(n: nat)
    requires n <= 0xFFFF
    ensures ParseU16(Decimal(n)) == Some(n)
  {
    DecimalReadsBack(n);
    assert IsDigit(Decimal(n)[0]);
  }

  function NormalizeTunnelPort(raw: string, isIpv6: bool): (r: Option<nat>)
    ensures r.Some? ==> r.value <= 0xFFFF
  {
    match ParseU16(raw)
    case Some(port) => Some(port)
    case None =>
      if isIpv6 && |raw| > 0 && raw[|raw| - 1] == '6' then ParseU16(raw[..|raw| - 1]) else None
  }

  lemma DigitsAppend(s: string, c: char)
    requires AllDigits(s) && IsDigit(c)
    ensures AllDigits(s + [c]) && DigitsValue(s + [c]) == 10 * DigitsValue(s) + DigitValue(c)
  {
    assert (s + [c])[..|s|] == s;
  }

  lemma ParseDigits(s: string)
    requires s != "" && AllDigits(s)
    ensures ParseU16(s) == if DigitsValue(s) <= 0xFFFF then Some(DigitsValue(s)) else None
  {
    assert IsDigit(s[0]);
  }

  // A formatted port normalizes to itself. With the IPv6 suffix behind it, it
  // does so exactly when the two together are no port, and for IPv6 only.
  lemma PortNormalizes(n: nat, isIpv6: bool)
    requires n <= 0xFFFF
    ensures NormalizeTunnelPort(Decimal(n), isIpv6) == Some(n)
    ensures
      NormalizeTunnelPort(Decimal(n) + "6", isIpv6) ==
      if 10 * n + 6 <= 0xFFFF then Some(10 * n + 6) else if isIpv6 then Some(n) else None
  {
    ParseInvertsDecimal(n);
    DecimalReadsBack(n);
    DigitsAppend(Decimal(n), '6');
    ParseDigits(Decimal(n) + "6");
    assert (Decimal(n) + "6")[..|Decimal(n)|] == Decimal(n);
  }

  // ----- bracketed URLs -----

  predicate OccursAt(s: string, pattern: string, i: nat) {
    i + |pattern| <= |s| && s[i..i + |pattern|] == pattern
  }

  // The first occurrence of `pattern` at or after `from`.
  function FindFrom(s: string, pattern: string, from: nat): (r: Option<nat>)
    ensures r.Some? ==> from <= r.value && OccursAt(s, pattern, r.value)
    ensures forall j :: from <= j < (if r.Some? then r.value else |s| + 1) ==> !OccursAt(s, pattern, j)
    decreases |s| + 1 - from
  {
    if from > |s| then None
    else if OccursAt(s, pattern, from) then Some(from)
    else FindFrom(s, pattern, from + 1)
  }

  // str::split_once
  function SplitOnce(s: string, pattern: string): (r: Option<(string, string)>)
    ensures r.Some? ==> s == r.value.0 + pattern + r.value.1
    ensures r.Some? ==> forall j :: 0 <= j < |r.value.0| ==> !OccursAt(s, pattern, j)
  {
    match FindFrom(s, pattern, 0)
    case None => None
    case Some(i) =>
      assert s == s[..i] + s[i..i + |pattern|] + s[i + |pattern|..];
      Some((s[..i], s[i + |pattern|..]))
  }

  lemma SplitOnceAt(a: string, pattern: string, b: string)
    requires forall j :: 0 <= j < |a| ==> !OccursAt(a + pattern + b, pattern, j)
    ensures SplitOnce(a + pattern + b, pattern) == Some((a, b))
  {
    var s := a + pattern + b;
    assert s[|a|..|a| + |pattern|] == pattern;
    assert OccursAt(s, pattern, |a|);
    var i := FindFrom(s, pattern, 0);
    assert i == Some(|a|);
    assert s[..|a|] == a && s[|a| + |pattern|..] == b;
  }

  // The URL has an authority that starts with a bracket.
  predicate IsBracketed(raw: string) {
    var parts := SplitOnce(raw, "://");
    parts.Some? && parts.value.1 != "" && parts.value.1[0] == '['
  }

  // The canonical URL of a scheme, bracketed host and optional port.
  function Render(scheme: string, host: string, port: Option<nat>): string {
    scheme + "://" + ("[" + host + "]" + PortTail(port))
  }

  // What follows the opening bracket: a host, a closing bracket and a port.
  function NormalizeAfterBracket(rawScheme: string, rest: string): Option<string> {
    match SplitOnce(rest, "]")
    case None => None
    case Some((host, remainder)) =>
      match NormalizeTunnelScheme(rawScheme, true)
      case None => None
      case Some(scheme) =>
        if remainder == "" then Some(Render(scheme, host, None))
        else if remainder[0] != ':' then None
        else
          match NormalizeTunnelPort(remainder[1..], true)
          case None => None
          case Some(port) => Some(Render(scheme, host, Some(port)))
  }

  // The bracketed branch of normalize_tunnel_url.
  function NormalizeBracketedUrl(raw: string): Option<string>
    requires IsBracketed(raw)
  {
    var (rawScheme, rest) := SplitOnce(raw, "://").value;
    NormalizeAfterBracket(rawScheme, rest[1..])
  }

  function PortTail(port: Option<nat>): string {
    if port.Some? then ":" + Decimal(port.value) else ""
  }

  // A URL of a scheme, a bracketed host and what follows it.
  function Bracketed(scheme: string, host: string, tail: string): string {
    scheme + "://" + ("[" + host + "]" + tail)
  }

  // A string none of whose inner positions holds the separator.
  ghost predicate NoSeparator(a: string) {
    forall j :: 0 <= j && j + 3 < |a| ==> !OccursAt(a, "://", j)
  }

  // No "://" starts inside a string that ends in neither of its characters,
  // when another follows it.
  lemma NoEarlierSeparator(a: string, b: string)
    requires a != "" && a[|a| - 1] != ':' && a[|a| - 1] != '/' && NoSeparator(a)
    ensures forall j :: 0 <= j < |a| ==> !OccursAt(a + "://" + b, "://", j)
  {
    var s := a + "://" + b;
    forall j | 0 <= j < |a| ensures !OccursAt(s, "://", j) {
      var w := s[j..j + 3];
      if j + 3 < |a| {
        assert w == a[j..j + 3];
        assert !OccursAt(a, "://", j);
      } else {
        var k := |a| - 1 - j;
        assert w[k] == s[|a| - 1] == a[|a| - 1];
        assert k == 0 || k == 1 || k == 2;
        assert w != "://";
      }
    }
  }

  lemma BracketSplit(host: string, tail: string)
    requires ']' !in host
    ensures SplitOnce(host + "]" + tail, "]") == Some((host, tail))
  {
    var s := host + "]" + tail;
    forall j | 0 <= j < |host| ensures !OccursAt(s, "]", j) {
      assert s[j..j + 1][0] == host[j];
    }
    SplitOnceAt(host, "]", tail);
  }

  lemma SchemeEnd(prefix: string, scheme: string, v6: bool)
    requires scheme in IP_SCHEMES
    ensures
      var a := Build(prefix, scheme, v6);
      a != "" && a[|a| - 1] != ':' && a[|a| - 1] != '/'
  {
    assert IP_SCHEMES == ["tcp", "udp", "wg", "quic", "ws", "wss", "faketcp"];
    assert scheme == "tcp" || scheme == "udp" || scheme == "wg" || scheme == "quic" || scheme == "ws"
      || scheme == "wss" || scheme == "faketcp";
    var a := Build(prefix, scheme, v6);
    assert a[|a| - 1] == if v6 then '6' else scheme[|scheme| - 1];
  }

  // A URL of a tunnel scheme splits into its parts.
  lemma BracketedParts(prefix: string, scheme: string, v6: bool, host: string, tail: string)
    requires Legal(prefix, scheme) && NoSeparator(Build(prefix, scheme, v6))
    ensures
      var a := Build(prefix, scheme, v6);
      && IsBracketed(Bracketed(a, host, tail))
      && NormalizeBracketedUrl(Bracketed(a, host, tail)) == NormalizeAfterBracket(a, host + "]" + tail)
  {
    var a, rest := Build(prefix, scheme, v6), "[" + host + "]" + tail;
    SchemeEnd(prefix, scheme, v6);
    NoEarlierSeparator(a, rest);
    SplitOnceAt(a, "://", rest);
    assert rest[0] == '[' && rest[1..] == host + "]" + tail;
  }

  // What a tail behind the bracket means: no port, a port, or nothing.
  function TailMeans(tail: string): Option<Option<nat>> {
    if tail == "" then Some(None)
    else if tail[0] != ':' then None
    else
      match NormalizeTunnelPort(tail[1..], true)
      case None => None
      case Some(port) => Some(Some(port))
  }

  // A bracketed URL of any tunnel scheme, with or without the suffix, becomes
  // the canonical one with the suffix, its host and the port its tail means;
  // it is refused exactly when the tail means nothing.
  lemma BracketedNormalizes(prefix: string, scheme: string, v6: bool, host: string, tail: string)
    requires Legal(prefix, scheme) && NoSeparator(Build(prefix, scheme, v6)) && ']' !in host
    ensures
      var url := Bracketed(Build(prefix, scheme, v6), host, tail);
      && IsBracketed(url)
      && NormalizeBracketedUrl(url) ==
         match TailMeans(tail)
         case None => None
         case Some(port) => Some(Render(Build(prefix, scheme, true), host, port))
  {
    BracketedParts(prefix, scheme, v6, host, tail);
    BracketSplit(host, tail);
    SchemeNormalizes(prefix, scheme, v6, true);
  }

  // The host of a split has no closing bracket.
  lemma HostHasNoBracket(s: string)
    requires SplitOnce(s, "]").Some?
    ensures ']' !in SplitOnce(s, "]").value.0
  {
    var host := SplitOnce(s, "]").value.0;
    forall j | 0 <= j < |host| ensures host[j] != ']' {
      assert !OccursAt(s, "]", j);
      assert s[j..j + 1] == [host[j]];
    }
  }

  // A scheme cut off before the first separator, suffixed or not, has none.
  lemma CutSchemeHasNoSeparator(raw: string, split: SplitScheme, v6: bool)
    requires SplitOnce(raw, "://").Some? && (v6 || !split.v6)
    requires SplitOnce(raw, "://").value.0 == Build(split.prefix, split.scheme, split.v6)
    ensures NoSeparator(Build(split.prefix, split.scheme, v6))
  {
    var cut := SplitOnce(raw, "://").value.0;
    var a := Build(split.prefix, split.scheme, v6);
    forall j | 0 <= j && j + 3 < |a| ensures !OccursAt(a, "://", j) {
      assert !OccursAt(raw, "://", j);
      assert a[j..j + 3] == cut[j..j + 3] == raw[j..j + 3];
    }
  }

  lemma AfterBracketParts(rawScheme: string, rest: string) returns (host: string, tail: string)
    requires NormalizeAfterBracket(rawScheme, rest).Some?
    ensures rest == host + "]" + tail && ']' !in host && TailMeans(tail).Some?
    ensures SplitTunnelScheme(rawScheme).Some?
  {
    host, tail := SplitOnce(rest, "]").value.0, SplitOnce(rest, "]").value.1;
    HostHasNoBracket(rest);
  }

  // And only such URLs normalize: the parts of one that does.
  lemma NormalizedHasParts(raw: string) returns (split: SplitScheme, host: string, tail: string)
    requires IsBracketed(raw) && NormalizeBracketedUrl(raw).Some?
    ensures Legal(split.prefix, split.scheme) && ']' !in host && TailMeans(tail).Some?
    ensures NoSeparator(Build(split.prefix, split.scheme, split.v6))
    ensures NoSeparator(Build(split.prefix, split.scheme, true))
    ensures raw == Bracketed(Build(split.prefix, split.scheme, split.v6), host, tail)
  {
    var (rawScheme, rest) := SplitOnce(raw, "://").value;
    host, tail := AfterBracketParts(rawScheme, rest[1..]);
    split := SplitTunnelScheme(rawScheme).value;
    BuildInvertsSplit(rawScheme);
    CutSchemeHasNoSeparator(raw, split, split.v6);
    CutSchemeHasNoSeparator(raw, split, true);
    Brackets(rest, host, tail);
  }

  lemma Brackets(rest: string, host: string, tail: string)
    requires rest != "" && rest[0] == '[' && rest[1..] == host + "]" + tail
    ensures rest == "[" + host + "]" + tail
  {
    assert rest == "[" + rest[1..];
    assert "[" + (host + "]" + tail) == "[" + host + "]" + tail;
  }

  // A canonical tail means its port.
  lemma TailOfPort(port: Option<nat>)
    requires port.Some? ==> port.value <= 0xFFFF
    ensures TailMeans(PortTail(port)) == Some(port)
  {
    if port.Some? {
      PortNormalizes(port.value, true);
      assert PortTail(port)[1..] == Decimal(port.value);
    }
  }

  // A canonical URL with a suffixed scheme normalizes to itself.
  lemma RenderedIsFixed(prefix: string, scheme: string, host: string, port: Option<nat>)
    requires Legal(prefix, scheme) && NoSeparator(Build(prefix, scheme, true)) && ']' !in host
    requires port.Some? ==> port.value <= 0xFFFF
    ensures
      var url := Render(Build(prefix, scheme, true), host, port);
      IsBracketed(url) && NormalizeBracketedUrl(url) == Some(url)
  {
    TailOfPort(port);
    BracketedNormalizes(prefix, scheme, true, host, PortTail(port));
    assert Bracketed(Build(prefix, scheme, true), host, PortTail(port))
        == Render(Build(prefix, scheme, true), host, port);
  }

  // Normalizing a bracketed URL twice is normalizing it once.
  lemma NormalizeBracketedIdempotent(raw: string)
    requires IsBracketed(raw) && NormalizeBracketedUrl(raw).Some?
    ensures
      var once := NormalizeBracketedUrl(raw).value;
      IsBracketed(once) && NormalizeBracketedUrl(once) == Some(once)
  {
    var split, host, tail := NormalizedHasParts(raw);
    BracketedNormalizes(split.prefix, split.scheme, split.v6, host, tail);
    RenderedIsFixed(split.prefix, split.scheme, host, TailMeans(tail).value);
  }
}
