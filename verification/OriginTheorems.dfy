/** What origin normalisation means: its fixed points, and its agreement with
    the origin comparison of RFC 6454, section 5. */
module OriginTheorems {
  import opened Prelude
  import opened Strings
  import opened Origin

  // Idempotence

  /** The text names a port that normalisation drops, an empty one or the
      scheme's default, after a host that ends in white space. */
  predicate DropsPortAfterSpace(origin: string) {
    DropsIn(Trim(origin))
  }

  predicate DropsIn(t: string) {
    match SplitOnce(t, "://")
    case None => false
    case Some((scheme, authority)) =>
      var (host, port) := SplitAuthority(authority);
      && port.Some? && ShownPort(Lower(scheme), port) == ""
      && host != "" && IsSpace(host[|host| - 1])
  }

  lemma {:induction false} TrimShortens(s: string)
    requires s != "" && IsSpace(s[|s| - 1])
    ensures |Trim(s)| < |s|
  {
    if |TrimStart(s)| == |s| { assert TrimStart(s) == s; }
  }

  lemma NormalizeTrimmedShrinks(t: string)
    ensures |NormalizeTrimmed(t)| <= |t|
  {
    if SplitOnce(t, "://").Some? {
      SplitParts(t);
      AuthorityShapes(SplitOnce(t, "://").value.1);
    }
  }

  lemma FullEdges(scheme: string, host: string, shown: string)
    ensures var n := Lower(scheme) + "://" + Lower(host) + shown;
            && n != ""
            && n[0] == (if scheme == "" then ':' else LowerChar(scheme[0]))
            && n[|n| - 1] == (if shown != "" then shown[|shown| - 1]
                              else if host != "" then LowerChar(host[|host| - 1]) else '/')
  {
  }

  /** The ends of a normal form, from the ends of the text it comes from. */
  lemma FullFormEdges(t: string, scheme: string, host: string, port: Option<string>, shown: string)
    requires t == scheme + "://" + host + (match port case None => "" case Some(p) => ":" + p) && IsTrimmed(t)
    requires shown == "" || (port.Some? && port.value != "" && shown == ":" + port.value)
    ensures var n := Lower(scheme) + "://" + Lower(host) + shown;
            if port.Some? && shown == "" && host != "" && IsSpace(host[|host| - 1])
            then n != "" && IsSpace(n[|n| - 1]) else IsTrimmed(n)
  {
    FullEdges(scheme, host, shown);
    assert t[0] == if scheme == "" then ':' else scheme[0];
    LowerSpace(t[0]);
    if host != "" { LowerSpace(host[|host| - 1]); }
    if shown != "" {
      assert t[|t| - 1] == shown[|shown| - 1];
    } else if host != "" && port.None? {
      assert t[|t| - 1] == host[|host| - 1];
    }
  }

  lemma NoSchemeEdges(t: string)
    requires IsTrimmed(t) && SplitOnce(t, "://").None?
    ensures IsTrimmed(NormalizeTrimmed(t))
  {
    if t != "" {
      LowerSpace(t[0]);
      LowerSpace(t[|t| - 1]);
    }
  }

  lemma PartsOf(t: string) returns (scheme: string, host: string, port: Option<string>)
    requires SplitOnce(t, "://").Some?
    ensures t == scheme + "://" + host + (match port case None => "" case Some(p) => ":" + p)
    ensures NormalizeTrimmed(t) == Lower(scheme) + "://" + Lower(host) + ShownPort(Lower(scheme), port)
    ensures DropsIn(t) <==> port.Some? && ShownPort(Lower(scheme), port) == ""
                            && host != "" && IsSpace(host[|host| - 1])
  {
    SplitParts(t);
    var authority := SplitOnce(t, "://").value.1;
    scheme := SplitOnce(t, "://").value.0;
    AuthorityShapes(authority);
    host, port := SplitAuthority(authority).0, SplitAuthority(authority).1;
    Rebuilt(t, scheme, authority, host, port);
  }

  lemma Rebuilt(t: string, scheme: string, authority: string, host: string, port: Option<string>)
    requires t == scheme + "://" + authority
    requires if port.Some? then authority == host + ":" + port.value else authority == host
    ensures t == scheme + "://" + host + (match port case None => "" case Some(p) => ":" + p)
  {
    if port.Some? { assert authority == host + (":" + port.value); }
  }

  lemma SchemeEdges(t: string)
    requires IsTrimmed(t) && SplitOnce(t, "://").Some?
    ensures var n := NormalizeTrimmed(t);
            if DropsIn(t) then n != "" && IsSpace(n[|n| - 1]) else IsTrimmed(n)
  {
    var scheme, host, port := PartsOf(t);
    FullFormEdges(t, scheme, host, port, ShownPort(Lower(scheme), port));
  }

  /** The normal form of a text is bare unless a dropped port leaves a space
      at its end. */
  lemma NormalFormEdges(t: string)
    requires IsTrimmed(t)
    ensures var n := NormalizeTrimmed(t);
            if DropsIn(t) then n != "" && IsSpace(n[|n| - 1]) else IsTrimmed(n)
  {
    if SplitOnce(t, "://").Some? { SchemeEdges(t); } else { NoSchemeEdges(t); }
  }

  /** A normal form stays as it is exactly when it is bare. */
  lemma NormalFormStaysIffBare(t: string)
    requires var n := NormalizeTrimmed(t); IsTrimmed(n) || IsSpace(n[|n| - 1])
    ensures var n := NormalizeTrimmed(t); NormalizeOrigin(n) == n <==> IsTrimmed(n)
  {
    var n := NormalizeTrimmed(t);
    if IsTrimmed(n) {
      TrimmedStays(n);
      NormalizeTrimmedTwice(t);
    } else {
      TrimShortens(n);
      NormalizeTrimmedShrinks(Trim(n));
    }
  }

  /** Normalising twice is normalising once, for every string, except exactly
      when a port is dropped after a host ending in white space. */
  lemma IdempotentUnlessPortDroppedAfterSpace(origin: string)
    ensures NormalizeOrigin(NormalizeOrigin(origin)) == NormalizeOrigin(origin)
            <==> !DropsPortAfterSpace(origin)
  {
    NormalFormEdges(Trim(origin));
    NormalFormStaysIffBare(Trim(origin));
  }

  /** The exception is a whole family, `http://h :80` among it: any default
      or empty port after a plain host that ends in white space. */
  lemma PortDroppedAfterSpaceFamily(scheme: string, host: string, port: string)
    requires scheme != "" && !IsSpace(scheme[0]) && forall k :: 0 <= k < |scheme| ==> scheme[k] != ':'
    requires ':' !in host && host != "" && host[0] != '[' && IsSpace(host[|host| - 1])
    requires ShownPort(Lower(scheme), Some(port)) == "" && (port != "" ==> !IsSpace(port[|port| - 1]))
    ensures var origin := scheme + "://" + (host + (":" + port));
            NormalizeOrigin(NormalizeOrigin(origin)) != NormalizeOrigin(origin)
  {
    var origin := scheme + "://" + (host + (":" + port));
    assert origin[0] == scheme[0];
    assert origin[|origin| - 1] == if port == "" then ':' else port[|port| - 1];
    TrimmedStays(origin);
    DropsInPlain(scheme, host, port);
    IdempotentUnlessPortDroppedAfterSpace(origin);
  }

  lemma PortDroppedAfterSpaceExample()
    ensures var origin := "http" + "://" + ("h " + (":" + "80"));
            NormalizeOrigin(NormalizeOrigin(origin)) != NormalizeOrigin(origin)
  {
    PortEighty();
    PortDroppedAfterSpaceFamily("http", "h ", "80");
  }

  lemma DropsInPlain(scheme: string, host: string, port: string)
    requires forall k :: 0 <= k < |scheme| ==> scheme[k] != ':'
    requires ':' !in host && host != "" && host[0] != '[' && IsSpace(host[|host| - 1])
    requires ShownPort(Lower(scheme), Some(port)) == ""
    ensures DropsIn(scheme + "://" + (host + (":" + port)))
  {
    SchemeComesFirst(scheme, host + (":" + port));
    PlainSplits(host, ":" + port);
    assert (":" + port)[1..] == port;
  }

  lemma PortEighty()
    ensures ShownPort(Lower("http"), Some("80")) == ""
  {
    DefaultPortIsDropped("http", 80);
    assert Decimal(80) == Decimal(8) + [Digit(0)];
    assert Decimal(80) == "80";
    assert Lower("http") == "http";
  }

  // Agreement with structural comparison

  /** An origin as RFC 6454 has it, with the port it spells out, if any. */
  datatype WebOrigin = WebOrigin(scheme: string, host: string, port: Option<nat>) {

    predicate WellFormed() {
      && (forall k :: 0 <= k < |scheme| ==> scheme[k] != ':' && scheme[k] != '/' && !IsSpace(scheme[k]))
      && (forall k :: 0 <= k < |host| ==> !IsSpace(host[k]))
      && (if host != "" && host[0] == '[' then Find(host, "]", 0) == |host| - 1 else ':' !in host)
    }

    /** scheme, host and effective port, case folded (sections 4 and 5). */
    function Triple(): (string, string, Option<nat>) {
      (Lower(scheme), Lower(host), if port.Some? then port else DefaultPort(Lower(scheme)))
    }

    function Shown(): string {
      match port case None => "" case Some(n) => ":" + Decimal(n)
    }

    function Authority(): string { host + Shown() }

    /** The serialisation `scheme://host[:port]`. */
    function Text(): string { scheme + "://" + host + Shown() }

    /** Folded, without a port that the scheme implies. */
    function Canonical(): WebOrigin {
      WebOrigin(Lower(scheme), Lower(host), if port == DefaultPort(Lower(scheme)) then None else port)
    }
  }

  function DefaultPort(scheme: string): Option<nat> {
    if scheme == "http" || scheme == "ws" then Some(80)
    else if scheme == "https" || scheme == "wss" then Some(443)
    else None
  }

  function Digit(n: nat): (c: char)
    requires n < 10
    ensures IsDigit(c) && DigitValue(c) == n
  {
    (n + '0' as int) as char
  }

  /** Decimal digits without leading zeros. */
  function Decimal(n: nat): (s: string)
    ensures s != "" && forall k :: 0 <= k < |s| ==> IsDigit(s[k])
  {
    if n < 10 then [Digit(n)] else Decimal(n / 10) + [Digit(n % 10)]
  }

  lemma {:induction false} ParseDecimal(n: nat)
    ensures ParseDigits(Decimal(n)) == Some(n)
  {
    if n >= 10 {
      ParseDecimal(n / 10);
      var s := Decimal(n);
      assert s[..|s| - 1] == Decimal(n / 10);
    }
  }

  lemma DefaultPortIsDropped(scheme: string, n: nat)
    ensures IsDefaultPort(scheme, Decimal(n)) <==> DefaultPort(scheme) == Some(n)
  {
    ParseDecimal(n);
    assert IsDigit(Decimal(n)[0]);
  }

  lemma SchemeComesFirst(scheme: string, rest: string)
    requires forall k :: 0 <= k < |scheme| ==> scheme[k] != ':'
    ensures SplitOnce(scheme + "://" + rest, "://") == Some((scheme, rest))
  {
    var t := scheme + "://" + rest;
    forall j | 0 <= j < |scheme| ensures !("://" <= t[j..]) {
      MarkAt(t, j);
      assert t[j] == scheme[j];
    }
    FindFirst(scheme, "://", rest);
    assert t[..|scheme|] == scheme && t[|scheme| + 3..] == rest;
  }

  /** A well-formed origin's text comes apart into just its parts. */
  lemma TextComesApart(o: WebOrigin)
    requires o.WellFormed()
    ensures SplitOnce(o.Text(), "://") == Some((o.scheme, o.Authority()))
    ensures SplitAuthority(o.Authority()) == (o.host, match o.port case None => None case Some(n) => Some(Decimal(n)))
  {
    SchemeComesFirst(o.scheme, o.Authority());
    assert o.Text() == o.scheme + "://" + o.Authority();
    var shown := o.Shown();
    assert o.port.Some? ==> shown[1..] == Decimal(o.port.value);
    if o.host != "" && o.host[0] == '[' {
      BracketSplits(o.host, shown);
    } else {
      PlainSplits(o.host, shown);
    }
  }

  lemma TextIsBare(o: WebOrigin)
    requires o.WellFormed()
    ensures o.Text() != "" && IsTrimmed(o.Text())
  {
    var t := o.Text();
    assert o.scheme != "" ==> t[0] == o.scheme[0];
    match o.port
    case None => assert o.host != "" ==> t[|t| - 1] == o.host[|o.host| - 1];
    case Some(n) => assert t[|t| - 1] == Decimal(n)[|Decimal(n)| - 1];
  }

  lemma CanonicalWellFormed(o: WebOrigin)
    requires o.WellFormed()
    ensures o.Canonical().WellFormed()
  {
    var c := o.Canonical();
    forall k | 0 <= k < |c.scheme| ensures c.scheme[k] != ':' && c.scheme[k] != '/' && !IsSpace(c.scheme[k]) {
      LowerSpace(o.scheme[k]);
    }
    forall k | 0 <= k < |c.host| ensures !IsSpace(c.host[k]) {
      LowerSpace(o.host[k]);
    }
    if o.host != "" && o.host[0] == '[' { FindLower(o.host, ']', 0); } else { PlainLower(o.host); }
  }

  /** The normal form of an origin's text, with white space around it or not,
      is the text of its canonical origin. */
  lemma NormalFormIsCanonicalText(lead: string, o: WebOrigin, trail: string)
    requires o.WellFormed() && AllSpace(lead) && AllSpace(trail)
    ensures NormalizeOrigin(lead + o.Text() + trail) == o.Canonical().Text()
  {
    TextIsBare(o);
    TrimPadded(lead, o.Text(), trail);
    TextComesApart(o);
    ShownPortIsCanonical(o);
  }

  lemma ShownPortIsCanonical(o: WebOrigin)
    ensures ShownPort(Lower(o.scheme), match o.port case None => None case Some(n) => Some(Decimal(n)))
            == o.Canonical().Shown()
  {
    if o.port.Some? { DefaultPortIsDropped(Lower(o.scheme), o.port.value); }
  }

  lemma TextIsInjective(a: WebOrigin, b: WebOrigin)
    requires a.WellFormed() && b.WellFormed() && a.Text() == b.Text()
    ensures a == b
  {
    TextComesApart(a);
    TextComesApart(b);
    if a.port.Some? { ParseDecimal(a.port.value); }
    if b.port.Some? { ParseDecimal(b.port.value); }
  }

  /** Two origins, however written, have one normal form exactly when scheme,
      host and effective port are the same. */
  lemma SameNormalFormIffSameOrigin(l1: string, a: WebOrigin, t1: string, l2: string, b: WebOrigin, t2: string)
    requires a.WellFormed() && b.WellFormed()
    requires AllSpace(l1) && AllSpace(t1) && AllSpace(l2) && AllSpace(t2)
    ensures NormalizeOrigin(l1 + a.Text() + t1) == NormalizeOrigin(l2 + b.Text() + t2)
            <==> a.Triple() == b.Triple()
  {
    NormalFormIsCanonicalText(l1, a, t1);
    NormalFormIsCanonicalText(l2, b, t2);
    CanonicalWellFormed(a);
    CanonicalWellFormed(b);
    if a.Canonical().Text() == b.Canonical().Text() {
      TextIsInjective(a.Canonical(), b.Canonical());
    }
  }

  /** An allow-list entry: an origin with white space around it. */
  datatype Listed = Listed(lead: string, origin: WebOrigin, trail: string) {

    predicate WellFormed() {
      origin.WellFormed() && AllSpace(lead) && AllSpace(trail)
    }

    function Text(): string { lead + origin.Text() + trail }
  }

  /** The list admits an origin exactly when it is empty or an entry has its
      scheme, host and effective port; without an Origin header it admits
      exactly when it is empty. */
  lemma AllowedIffListed(given: Listed, entries: seq<Listed>)
    requires given.WellFormed()
    requires forall k :: 0 <= k < |entries| ==> entries[k].WellFormed()
    ensures var allowed := seq(|entries|, k requires 0 <= k < |entries| => entries[k].Text());
            && (OriginAllowed(None, allowed) <==> entries == [])
            && (OriginAllowed(Some(given.Text()), allowed)
                <==> entries == []
                     || exists k :: 0 <= k < |entries| && entries[k].origin.Triple() == given.origin.Triple())
  {
    var allowed := seq(|entries|, k requires 0 <= k < |entries| => entries[k].Text());
    forall k | 0 <= k < |entries|
      ensures NormalizeOrigin(allowed[k]) == NormalizeOrigin(given.Text())
              <==> entries[k].origin.Triple() == given.origin.Triple()
    {
      SameNormalFormIffSameOrigin(entries[k].lead, entries[k].origin, entries[k].trail,
                                  given.lead, given.origin, given.trail);
    }
  }

  /** The default, an empty list, admits every value and a missing one. */
  lemma EmptyListAdmitsAll(value: Option<string>)
    ensures OriginAllowed(value, [])
  {
  }

  /** A value without `://` matches no well-formed entry. */
  lemma NoSchemeMatchesNothing(value: string, entry: Listed)
    requires SplitOnce(Trim(value), "://").None? && entry.WellFormed()
    ensures NormalizeOrigin(value) != NormalizeOrigin(entry.Text())
  {
    NoSchemeStays(Trim(value));
    NormalFormIsCanonicalText(entry.lead, entry.origin, entry.trail);
    CanonicalWellFormed(entry.origin);
    TextComesApart(entry.origin.Canonical());
  }

  // Every other value

  function Zeros(z: nat): string {
    seq(z, _ => '0')
  }

  /** How `str::parse` reads a number: its decimal digits, behind any zeros and
      perhaps a plus sign. */
  ghost predicate IsNumeral(s: string, n: nat) {
    exists plus, z :: s == Numeral(plus, z, n)
  }

  function Numeral(plus: bool, z: nat, n: nat): string {
    (if plus then "+" else "") + (Zeros(z) + Decimal(n))
  }

  lemma {:induction false} ParseZeros(z: nat, n: nat)
    ensures ParseDigits(Zeros(z) + Decimal(n)) == Some(n)
    decreases n, z
  {
    var s := Zeros(z) + Decimal(n);
    if n >= 10 {
      ParseZeros(z, n / 10);
      assert s[..|s| - 1] == Zeros(z) + Decimal(n / 10);
    } else if z > 0 {
      ParseZeros(z - 1, 0);
      assert s[..|s| - 1] == Zeros(z - 1) + Decimal(0);
    } else {
      assert s == Decimal(n);
    }
  }

  lemma {:induction false} ParsedIsDecimal(s: string, n: nat) returns (z: nat)
    requires ParseDigits(s) == Some(n)
    ensures s == Zeros(z) + Decimal(n)
  {
    if |s| == 1 {
      z := 0;
      assert s == Decimal(n);
    } else {
      var t, d := s[..|s| - 1], s[|s| - 1];
      var m := ParseDigits(t).value;
      var y := ParsedIsDecimal(t, m);
      assert s == t + [d] && d == Digit(DigitValue(d));
      if m == 0 {
        z := y + 1;
        assert Zeros(y) + Decimal(0) == Zeros(z);
      } else {
        z := y;
        assert Decimal(n) == Decimal(m) + [d];
      }
    }
  }

  lemma ParsesIffNumeral(s: string, n: nat)
    ensures ParseU16(s) == Some(n) <==> n <= 65535 && IsNumeral(s, n)
  {
    if ParseU16(s) == Some(n) {
      var plus := s[0] == '+';
      var z := ParsedIsDecimal(if plus then s[1..] else s, n);
      assert s == Numeral(plus, z, n);
    }
    if IsNumeral(s, n) {
      var plus, z :| s == Numeral(plus, z, n);
      NumeralParses(plus, z, n);
    }
  }

  lemma NumeralParses(plus: bool, z: nat, n: nat)
    ensures ParseU16(Numeral(plus, z, n)) == if n <= 65535 then Some(n) else None
  {
    var digits, s := Zeros(z) + Decimal(n), Numeral(plus, z, n);
    ParseZeros(z, n);
    assert IsDigit(digits[0]) by { if z > 0 { assert digits[0] == '0'; } else { assert digits == Decimal(n); } }
    if plus { assert s[1..] == digits; } else { assert s == digits; }
  }

  /** The default port may be written with zeros or a plus sign before it, and
      no other text counts as the default. */
  lemma DefaultIffNumeral(scheme: string, port: string)
    ensures IsDefaultPort(scheme, port)
            <==> DefaultPort(scheme).Some? && IsNumeral(port, DefaultPort(scheme).value)
  {
    ParsesIffNumeral(port, 80);
    ParsesIffNumeral(port, 443);
  }

  lemma TrimsFirst(lead: string, t: string, trail: string)
    requires AllSpace(lead) && AllSpace(trail) && IsTrimmed(t)
    ensures NormalizeOrigin(lead + t + trail) == NormalizeTrimmed(t)
  {
    if t == "" { AllSpaceTrims(lead + t + trail); } else { TrimPadded(lead, t, trail); }
  }

  /** The mark after the scheme is the first there is. */
  predicate MarkFirst(scheme: string, authority: string) {
    forall j :: 0 <= j < |scheme| ==> !("://" <= (scheme + "://" + authority)[j..])
  }

  lemma FormOf(scheme: string, authority: string)
    requires MarkFirst(scheme, authority)
    ensures var (host, port) := SplitAuthority(authority);
            NormalizeTrimmed(scheme + "://" + authority)
            == Lower(scheme) + "://" + Lower(host) + ShownPort(Lower(scheme), port)
  {
    FindFirst(scheme, "://", authority);
    var t := scheme + "://" + authority;
    assert t[..|scheme|] == scheme && t[|scheme| + 3..] == authority;
  }

  /** A port of any text is kept as it is, unless it is empty or the scheme's
      default. */
  lemma AnyPortIsKept(lead: string, scheme: string, host: string, port: string, trail: string)
    requires AllSpace(lead) && AllSpace(trail) && MarkFirst(scheme, host + (":" + port))
    requires if host != "" && host[0] == '[' then Find(host, "]", 0) == |host| - 1 else ':' !in host
    requires IsTrimmed(scheme + "://" + (host + (":" + port)))
    ensures var default := DefaultPort(Lower(scheme));
            var dropped := port == "" || (default.Some? && IsNumeral(port, default.value));
            NormalizeOrigin(lead + (scheme + "://" + (host + (":" + port))) + trail)
            == Lower(scheme) + "://" + Lower(host) + if dropped then "" else ":" + port
  {
    TrimsFirst(lead, scheme + "://" + (host + (":" + port)), trail);
    FormOf(scheme, host + (":" + port));
    PortIsSplitOff(host, port);
    DefaultIffNumeral(Lower(scheme), port);
  }

  lemma PortIsSplitOff(host: string, port: string)
    requires if host != "" && host[0] == '[' then Find(host, "]", 0) == |host| - 1 else ':' !in host
    ensures SplitAuthority(host + (":" + port)) == (host, Some(port))
  {
    assert (":" + port)[1..] == port;
    if host != "" && host[0] == '[' { BracketSplits(host, ":" + port); } else { PlainSplits(host, ":" + port); }
  }

  /** No port: a plain authority without a colon, or one in brackets that never
      close or are not followed by a colon. */
  predicate Portless(authority: string) {
    if authority != "" && authority[0] == '['
    then forall k :: 0 <= k < |authority| - 1 && authority[k] == ']' && ']' !in authority[..k] ==>
           authority[k + 1] != ':'
    else ':' !in authority
  }

  lemma PortlessStaysWhole(authority: string)
    requires Portless(authority)
    ensures SplitAuthority(authority) == (authority, None)
  {
    if authority != "" && authority[0] == '[' {
      var k := Find(authority, "]", 0);
      NoneBefore(authority, ']', k);
      if k < |authority| { assert authority[k..][0] == ']'; }
    } else {
      NoMark(authority, ':');
    }
  }

  /** An authority without a port is folded whole. */
  lemma NoPortIsFolded(lead: string, scheme: string, authority: string, trail: string)
    requires AllSpace(lead) && AllSpace(trail) && MarkFirst(scheme, authority)
    requires Portless(authority) && IsTrimmed(scheme + "://" + authority)
    ensures NormalizeOrigin(lead + (scheme + "://" + authority) + trail) == Lower(scheme) + "://" + Lower(authority)
  {
    TrimsFirst(lead, scheme + "://" + authority, trail);
    FormOf(scheme, authority);
    PortlessStaysWhole(authority);
  }

  /** A value without `://` is only trimmed and folded. */
  lemma NoSchemeIsFolded(lead: string, value: string, trail: string)
    requires AllSpace(lead) && AllSpace(trail) && IsTrimmed(value)
    requires forall j :: 0 <= j < |value| ==> !("://" <= value[j..])
    ensures NormalizeOrigin(lead + value + trail) == Lower(value)
  {
    TrimsFirst(lead, value, trail);
  }
}
