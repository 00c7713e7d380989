/** Origin normalisation and the allow-list check (src/origin.rs), and what
    they mean: the comparison of scheme, host and port that section 5 of
    RFC 6454 defines. */
module Origin {
  import opened Prelude
  import opened Strings

  // The code

  predicate IsDigit(c: char) { '0' <= c <= '9' }

  function DigitValue(c: char): nat
    requires IsDigit(c)
  {
    (c as int) - ('0' as int)
  }

  function ParseDigits(s: string): Option<nat> {
    if s == "" || !IsDigit(s[|s| - 1]) then None
    else if |s| == 1 then Some(DigitValue(s[0]))
    else
      match ParseDigits(s[..|s| - 1])
      case None => None
      case Some(n) => Some(10 * n + DigitValue(s[|s| - 1]))
  }

  /** `str::parse::<u16>`: an optional plus sign, any leading zeros. */
  function ParseU16(s: string): Option<nat> {
    match ParseDigits(if s != "" && s[0] == '+' then s[1..] else s)
    case Some(n) => if n <= 65535 then Some(n) else None
    case None => None
  }

  predicate IsDefaultPort(scheme: string, port: string) {
    match ParseU16(port)
    case None => false
    case Some(p) =>
      (scheme == "http" && p == 80) || (scheme == "https" && p == 443)
      || (scheme == "ws" && p == 80) || (scheme == "wss" && p == 443)
  }

  function SplitAuthority(authority: string): (string, Option<string>) {
    if authority != "" && authority[0] == '[' then
      var close := Find(authority, "]", 0);
      if close < |authority| && close + 1 < |authority| && authority[close + 1] == ':' then
        (authority[..close + 1], Some(authority[close + 2..]))
      else (authority, None)
    else
      match SplitOnce(authority, ":")
      case Some((host, port)) => (host, Some(port))
      case None => (authority, None)
  }

  /** The port as the normal form shows it, with its colon, or nothing. */
  function ShownPort(scheme: string, port: Option<string>): string {
    match port
    case None => ""
    case Some(p) => if p != "" && !IsDefaultPort(scheme, p) then ":" + p else ""
  }

  function NormalizeTrimmed(origin: string): string {
    match SplitOnce(origin, "://")
    case None => Lower(origin)
    case Some((scheme, authority)) =>
      var (host, port) := SplitAuthority(authority);
      Lower(scheme) + "://" + Lower(host) + ShownPort(Lower(scheme), port)
  }

  function NormalizeOrigin(origin: string): string {
    NormalizeTrimmed(Trim(origin))
  }

  /** The text is built up in place, and any port pushed last. */
  method Normalize(origin: string) returns (out: string)
    ensures out == NormalizeOrigin(origin)
  {
    var trimmed := Trim(origin);
    match SplitOnce(trimmed, "://")
    case None => return Lower(trimmed);
    case Some((scheme, authority)) =>
      var folded := Lower(scheme);
      var (host, port) := SplitAuthority(authority);
      out := folded + "://" + Lower(host);
      if port.Some? && port.value != "" && !IsDefaultPort(folded, port.value) {
        Pushed(out, port.value);
        out := out + ":";
        out := out + port.value;
      }
  }

  lemma Pushed(out: string, port: string)
    ensures out + ":" + port == out + (":" + port)
  {
  }

  predicate OriginAllowed(origin: Option<string>, allowed: seq<string>) {
    || allowed == []
    || (origin.Some? && exists k :: 0 <= k < |allowed| && NormalizeOrigin(allowed[k]) == NormalizeOrigin(origin.value))
  }

  // Reading a normal form back

  lemma BracketShapes(authority: string)
    requires authority != "" && authority[0] == '['
    ensures var (host, port) := SplitAuthority(authority);
            if port.Some?
            then authority == host + ":" + port.value && host != "" && host[0] == '['
                 && Find(authority, "]", 0) == |host| - 1
            else host == authority
  {
    var close := Find(authority, "]", 0);
    if close + 1 < |authority| && authority[close + 1] == ':' {
      assert authority == authority[..close + 1] + ":" + authority[close + 2..];
    }
  }

  lemma PlainShapes(authority: string)
    requires authority == "" || authority[0] != '['
    ensures var (host, port) := SplitAuthority(authority);
            if port.Some?
            then authority == host + ":" + port.value && ':' !in host && (host == "" || host[0] != '[')
            else host == authority
  {
    var k := Find(authority, ":", 0);
    if k < |authority| {
      ColonAt(authority, k);
      assert authority == authority[..k] + ":" + authority[k + 1..];
      forall j | 0 <= j < k ensures authority[j] != ':' {
        ColonAt(authority, j);
      }
    }
  }

  lemma ColonAt(s: string, k: nat)
    requires k < |s|
    ensures ":" <= s[k..] <==> s[k] == ':'
  {
    assert s[k..][0] == s[k] && s[k..][..1] == [s[k]];
  }

  /** How `SplitAuthority` can come apart. */
  lemma AuthorityShapes(authority: string)
    ensures var (host, port) := SplitAuthority(authority);
            && (port.Some? ==> authority == host + ":" + port.value)
            && (port.None? ==> host == authority)
            && (port.Some? && host != "" && host[0] == '[' ==>
                  Find(authority, "]", 0) == |host| - 1)
            && (port.Some? && (host == "" || host[0] != '[') ==>
                  ':' !in host && (authority == "" || authority[0] != '['))
  {
    if authority != "" && authority[0] == '[' { BracketShapes(authority); } else { PlainShapes(authority); }
  }

  /** Folding case leaves the first place of a mark that is not a letter. */
  lemma {:induction false} FindLower(s: string, c: char, from: nat)
    requires from <= |s| && LowerChar(c) == c && !('a' <= c <= 'z')
    ensures Find(Lower(s), [c], from) == Find(s, [c], from)
    decreases |s| - from
  {
    if from < |s| {
      assert Lower(s)[from..][0] == LowerChar(s[from]) && s[from..][0] == s[from];
      FindLower(s, c, from + 1);
    }
  }

  lemma {:induction false} FindPrefix(a: string, b: string, c: char, from: nat)
    requires from <= |a| && Find(a, [c], from) < |a|
    ensures Find(a + b, [c], from) == Find(a, [c], from)
    decreases |a| - from
  {
    assert from < |a|;
    assert (a + b)[from..][0] == a[from..][0];
    if !([c] <= a[from..]) { FindPrefix(a, b, c, from + 1); }
  }

  lemma NoMark(s: string, c: char)
    ensures c !in s <==> Find(s, [c], 0) == |s|
  {
    if c in s {
      var k :| 0 <= k < |s| && s[k] == c;
      assert s[k..][0] == c;
    } else {
      FindChar(s, c, "");
    }
  }

  lemma WholeReadsBack(authority: string)
    requires SplitAuthority(authority).1.None?
    ensures SplitAuthority(Lower(authority)) == (Lower(authority), None)
  {
    AuthorityShapes(authority);
    FindLower(authority, ']', 0);
    FindLower(authority, ':', 0);
  }

  lemma BracketSplits(host: string, shown: string)
    requires host != "" && host[0] == '[' && Find(host, "]", 0) == |host| - 1
    requires shown == "" || shown[0] == ':'
    ensures SplitAuthority(host + shown) == (host, if shown == "" then None else Some(shown[1..]))
  {
    var again := host + shown;
    FindPrefix(host, shown, ']', 0);
    assert again[..|host|] == host;
    if shown == "" {
      assert again == host;
    } else {
      assert again[|host|] == ':' && again[|host| + 1..] == shown[1..];
    }
  }

  lemma PlainSplits(host: string, shown: string)
    requires ':' !in host && (host == "" || host[0] != '[')
    requires shown == "" || shown[0] == ':'
    ensures SplitAuthority(host + shown) == (host, if shown == "" then None else Some(shown[1..]))
  {
    var again := host + shown;
    NoMark(host, ':');
    if shown == "" {
      assert again == host;
    } else {
      FindChar(host, ':', shown[1..]);
      assert again == host + [':'] + shown[1..];
      assert again[..|host|] == host && again[|host| + 1..] == shown[1..];
    }
  }

  lemma PlainLower(host: string)
    requires ':' !in host
    ensures ':' !in Lower(host)
  {
    NoMark(host, ':');
    FindLower(host, ':', 0);
    NoMark(Lower(host), ':');
  }

  lemma BracketReadsBack(host: string, shown: string)
    requires host != "" && host[0] == '[' && Find(host, "]", 0) == |host| - 1
    requires shown == "" || shown[0] == ':'
    ensures SplitAuthority(Lower(host) + shown)
            == (Lower(host), if shown == "" then None else Some(shown[1..]))
  {
    FindLower(host, ']', 0);
    BracketSplits(Lower(host), shown);
  }

  lemma PlainReadsBack(host: string, shown: string)
    requires ':' !in host && (host == "" || host[0] != '[')
    requires shown == "" || shown[0] == ':'
    ensures SplitAuthority(Lower(host) + shown)
            == (Lower(host), if shown == "" then None else Some(shown[1..]))
  {
    PlainLower(host);
    PlainSplits(Lower(host), shown);
  }

  /** Splitting the folded host and a port, or no port, gives them back. */
  lemma AuthorityReadsBack(authority: string, shown: string)
    requires var (_, port) := SplitAuthority(authority);
             shown == "" || (port.Some? && shown == ":" + port.value)
    ensures var (host, port) := SplitAuthority(authority);
            SplitAuthority(Lower(host) + shown) == (Lower(host), if shown == "" then None else port)
  {
    AuthorityShapes(authority);
    var (host, port) := SplitAuthority(authority);
    if port.None? {
      WholeReadsBack(authority);
      assert Lower(host) + "" == Lower(host);
    } else {
      assert shown != "" ==> shown[1..] == port.value;
      if host != "" && host[0] == '[' {
        BracketCloses(authority, host);
        BracketReadsBack(host, shown);
      } else {
        PlainReadsBack(host, shown);
      }
    }
  }

  lemma BracketCloses(authority: string, host: string)
    requires host != "" && host <= authority && Find(authority, "]", 0) == |host| - 1
    ensures Find(host, "]", 0) == |host| - 1 && host[|host| - 1] == ']'
  {
    var k := |host| - 1;
    assert authority[k..][0] == ']';
    assert host[k..] == "]";
    forall j | 0 <= j < k ensures !("]" <= host[j..]) {
      assert authority[j..][0] == host[j..][0];
    }
  }

  lemma MarkAt(s: string, j: nat)
    requires j <= |s|
    ensures "://" <= s[j..] <==> j + 2 < |s| && s[j] == ':' && s[j + 1] == '/' && s[j + 2] == '/'
  {
    if j + 2 < |s| {
      assert s[j..][0] == s[j] && s[j..][1] == s[j + 1] && s[j..][2] == s[j + 2];
      assert s[j..][..3] == [s[j], s[j + 1], s[j + 2]];
    }
  }

  /** The first `://` of a text is where it was after folding the scheme. */
  lemma SchemeReadsBack(scheme: string, authority: string, again: string)
    requires Find(scheme + "://" + authority, "://", 0) == |scheme|
    ensures SplitOnce(Lower(scheme) + "://" + again, "://") == Some((Lower(scheme), again))
  {
    var s, t := scheme + "://" + authority, Lower(scheme) + "://" + again;
    forall j | 0 <= j < |scheme| ensures !("://" <= t[j..]) {
      MarkAt(s, j);
      MarkAt(t, j);
    }
    FindFirst(Lower(scheme), "://", again);
    assert t[..|scheme|] == Lower(scheme) && t[|scheme| + 3..] == again;
  }

  /** Folding and dropping ports a second time changes nothing. */
  lemma NormalizeTrimmedTwice(t: string)
    ensures NormalizeTrimmed(NormalizeTrimmed(t)) == NormalizeTrimmed(t)
  {
    match SplitOnce(t, "://")
    case None => NoSchemeStays(t);
    case Some((scheme, authority)) =>
      var (host, port) := SplitAuthority(authority);
      var shown := ShownPort(Lower(scheme), port);
      SplitParts(t);
      SchemeReadsBack(scheme, authority, Lower(host) + shown);
      AuthorityReadsBack(authority, shown);
      LowerTwice(scheme);
      LowerTwice(host);
      assert Lower(scheme) + "://" + Lower(host) + shown == Lower(scheme) + "://" + (Lower(host) + shown);
  }

  lemma SplitParts(t: string)
    requires SplitOnce(t, "://").Some?
    ensures var (scheme, authority) := SplitOnce(t, "://").value;
            t == scheme + "://" + authority && Find(t, "://", 0) == |scheme|
  {
    var k := Find(t, "://", 0);
    assert t == t[..k] + t[k..] && t[k..] == "://" + t[k..][3..] && t[k..][3..] == t[k + 3..];
  }

  lemma NoSchemeStays(t: string)
    requires SplitOnce(t, "://").None?
    ensures SplitOnce(Lower(t), "://").None? && Lower(Lower(t)) == Lower(t)
  {
    var l := Lower(t);
    forall j | 0 <= j < |t| ensures !("://" <= l[j..]) {
      MarkAt(t, j);
      MarkAt(l, j);
    }
    LowerTwice(t);
  }
}
