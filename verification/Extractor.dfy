/** Token extraction from upgrade requests (src/extractor.rs). */
module Extractor {
  import opened Prelude
  import opened Strings
  import Utf8

  datatype TokenSourceKind = AuthorizationHeader | QueryParam(name: string) | Cookie(name: string)

  function HexVal(c: char): Option<nat> {
    if '0' <= c <= '9' then Some((c - '0') as nat)
    else if 'a' <= c <= 'f' then Some((c - 'a') as nat + 10)
    else if 'A' <= c <= 'F' then Some((c - 'A') as nat + 10)
    else None
  }

  lemma HexRange(c: char)
    ensures HexVal(c).Some? ==> HexVal(c).value < 16
  {
  }

  /** What the decoder makes of the group at the head of a text, and how many
      characters that is: a plus is a space, `%XX` the character with that
      number, a broken or cut-off escape stands for itself. */
  function Group(s: string): (g: (string, nat))
    requires s != ""
    ensures 1 <= g.1 <= |s| && g.0 != ""
  {
    if s[0] == '+' then (" ", 1)
    else if s[0] == '%' then
      if |s| < 3 then (s, |s|)
      else
        HexRange(s[1]);
        HexRange(s[2]);
        if HexVal(s[1]).Some? && HexVal(s[2]).Some? then
          ([(HexVal(s[1]).value * 16 + HexVal(s[2]).value) as char], 3)
        else (s[..3], 3)
    else ([s[0]], 1)
  }

  function Decoded(s: string): string
    decreases |s|
  {
    if s == "" then "" else Group(s).0 + Decoded(s[Group(s).1..])
  }

  method UrlDecode(s: string) returns (out: string)
    ensures out == Decoded(s)
  {
    out := "";
    var i := 0;
    while i < |s|
      invariant 0 <= i <= |s|
      invariant out + Decoded(s[i..]) == Decoded(s)
    {
      var piece, next := DecodeGroup(s, i);
      DecodedStep(s, i, next, piece);
      Regroup(out, piece, Decoded(s[next..]));
      out := out + piece;
      i := next;
    }
    assert s[i..] == "" && out + "" == out;
  }

  lemma DecodedStep(s: string, i: nat, next: nat, piece: string)
    requires i < next <= |s| && (piece, next - i) == Group(s[i..])
    ensures Decoded(s[i..]) == piece + Decoded(s[next..])
  {
    assert s[i..][next - i..] == s[next..];
  }

  lemma Regroup(a: string, b: string, c: string)
    ensures a + (b + c) == (a + b) + c
  {
  }

  /** One turn of the decoding loop: what it appends, and where it goes on. */
  method DecodeGroup(s: string, start: nat) returns (piece: string, i: nat)
    requires start < |s|
    ensures start < i <= |s| && (piece, i - start) == Group(s[start..])
  {
    var c := s[start];
    i := start + 1;
    if c == '+' {
      piece := " ";
    } else if c == '%' {
      var hi := if i < |s| then Some(s[i]) else None;
      i := if i < |s| then i + 1 else i;
      var lo := if i < |s| then Some(s[i]) else None;
      i := if i < |s| then i + 1 else i;
      if hi.Some? && lo.Some? {
        HexRange(hi.value);
        HexRange(lo.value);
        if HexVal(hi.value).Some? && HexVal(lo.value).Some? {
          piece := [(HexVal(hi.value).value * 16 + HexVal(lo.value).value) as char];
        } else {
          piece := ['%', hi.value, lo.value];
          assert s[start..][..3] == piece;
        }
      } else {
        piece := ['%'] + if hi.Some? then [hi.value] else [];
        assert s[start..] == piece;
      }
    } else {
      piece := [c];
    }
  }

  /** The first answer that is one. */
  function FirstSome(answers: seq<Option<string>>): (r: Option<string>)
    ensures r.None? ==> forall k :: 0 <= k < |answers| ==> answers[k].None?
    ensures r.Some? ==> exists k :: 0 <= k < |answers| && answers[k] == r
                                    && forall j :: 0 <= j < k ==> answers[j].None?
  {
    if answers == [] then None
    else if answers[0].Some? then answers[0]
    else
      var r := FirstSome(answers[1..]);
      assert forall k :: 0 < k < |answers| ==> answers[k] == answers[1..][k - 1];
      r
  }

  lemma SkipNone(answers: seq<Option<string>>, i: nat)
    requires i < |answers|
    ensures FirstSome(answers[i..]) == if answers[i].Some? then answers[i] else FirstSome(answers[i + 1..])
  {
    assert answers[i..][1..] == answers[i + 1..];
  }

  /** The halves of `splitn(2, '=')`; a missing second half is empty. */
  function KeyValue(pair: string): (string, string) {
    match SplitOnce(pair, "=")
    case Some((k, v)) => (k, v)
    case None => (pair, "")
  }

  function TrimQuestion(s: string): string {
    if s != "" && s[0] == '?' then TrimQuestion(s[1..]) else s
  }

  /** What one pair says about a name. */
  function PairAnswer(pair: string, name: string): Option<string> {
    var (k, v) := KeyValue(pair);
    if pair != "" && Decoded(k) == name && Decoded(v) != "" then Some(Decoded(v)) else None
  }

  function PairAnswers(pairs: seq<string>, name: string): (answers: seq<Option<string>>)
    ensures |answers| == |pairs|
  {
    seq(|pairs|, k requires 0 <= k < |pairs| => PairAnswer(pairs[k], name))
  }

  /** The value of the first pair with this key and a non-empty value. */
  function QueryAnswer(query: string, name: string): Option<string> {
    FirstSome(PairAnswers(Split(TrimQuestion(query), '&'), name))
  }

  method ExtractQueryParam(query: string, name: string) returns (r: Option<string>)
    ensures r == QueryAnswer(query, name)
  {
    var q := TrimQuestion(query);
    if q == "" {
      EmptyQuery(name);
      return None;
    }
    var pairs := Split(q, '&');
    ghost var answers := PairAnswers(pairs, name);
    for i := 0 to |pairs|
      invariant FirstSome(answers[i..]) == FirstSome(answers)
    {
      SkipNone(answers, i);
      if pairs[i] != "" {
        var v := ReadPair(pairs[i], name);
        if v.Some? { return v; }
      }
    }
    return None;
  }

  lemma EmptyQuery(name: string)
    ensures FirstSome(PairAnswers(Split("", '&'), name)) == None
  {
    assert Split("", '&') == [""];
  }

  method ReadPair(pair: string, name: string) returns (r: Option<string>)
    requires pair != ""
    ensures r == PairAnswer(pair, name)
  {
    var (k, v) := KeyValue(pair);
    var key := UrlDecode(k);
    if key == name {
      var value := UrlDecode(v);
      if value != "" { return Some(value); }
    }
    return None;
  }

  function TrimQuotes(s: string): string {
    if s != "" && s[0] == '"' then TrimQuotes(s[1..])
    else if s != "" && s[|s| - 1] == '"' then TrimQuotes(s[..|s| - 1])
    else s
  }

  /** A cookie's name and its value without optional quotes. */
  function CookiePair(part: string): (string, string) {
    var (k, v) := KeyValue(Trim(part));
    (Trim(k), TrimQuotes(Trim(v)))
  }

  /** What one cookie says about a name. */
  function CookieAnswer(part: string, name: string): Option<string> {
    var (k, v) := CookiePair(part);
    if k == name && v != "" then Some(Decoded(v)) else None
  }

  function PartAnswers(parts: seq<string>, name: string): (answers: seq<Option<string>>)
    ensures |answers| == |parts|
  {
    seq(|parts|, k requires 0 <= k < |parts| => CookieAnswer(parts[k], name))
  }

  function CookieAnswers(header: string, name: string): seq<Option<string>> {
    PartAnswers(Split(header, ';'), name)
  }

  method ParseCookie(header: string, name: string) returns (r: Option<string>)
    ensures r == FirstSome(CookieAnswers(header, name))
  {
    var parts := Split(header, ';');
    ghost var answers := CookieAnswers(header, name);
    for i := 0 to |parts|
      invariant FirstSome(answers[i..]) == FirstSome(answers)
    {
      SkipNone(answers, i);
      var v := ReadCookie(parts[i], name);
      if v.Some? { return v; }
    }
    return None;
  }

  method ReadCookie(part: string, name: string) returns (r: Option<string>)
    ensures r == CookieAnswer(part, name)
  {
    var (k, v) := CookiePair(part);
    if k == name && v != "" {
      var value := UrlDecode(v);
      return Some(value);
    }
    return None;
  }

  const BEARER: seq<byte> := [0x62, 0x65, 0x61, 0x72, 0x65, 0x72, 0x20]

  function LowerByte(b: byte): byte {
    if 0x41 <= b <= 0x5A then b + 32 else b
  }

  predicate EqIgnoreAsciiCase(a: seq<byte>, b: seq<byte>) {
    |a| == |b| && forall k :: 0 <= k < |a| ==> LowerByte(a[k]) == LowerByte(b[k])
  }

  /** A byte position of a text that does not cut a character in two. */
  predicate IsCharBoundary(bytes: seq<byte>, k: nat) {
    k == |bytes| || (k < |bytes| && !Utf8.IsTail(bytes[k]))
  }

  /** The scheme is compared on bytes, and the rest is cut off by bytes. */
  function ParseBearer(s: string): Option<string> {
    var bytes := Utf8.Encode(s);
    if |bytes| < 7 || !EqIgnoreAsciiCase(bytes[..7], BEARER) || !IsCharBoundary(bytes, 7) then None
    else
      match Utf8.Decode(bytes[7..])
      case None => None
      case Some(rest) => if Trim(rest) == "" then None else Some(Trim(rest))
  }

  /** What one source says, given the request's headers and query. */
  function Answer(src: TokenSourceKind, auth: Option<string>, cookie: Option<string>, query: string): Option<string> {
    match src
    case AuthorizationHeader => if auth.Some? then ParseBearer(auth.value) else None
    case QueryParam(name) => QueryAnswer(query, name)
    case Cookie(name) => if cookie.Some? then FirstSome(CookieAnswers(cookie.value, name)) else None
  }

  /** What each source in turn would answer. */
  function Answers(sources: seq<TokenSourceKind>, auth: Option<string>, cookie: Option<string>, query: string)
    : (answers: seq<Option<string>>)
    ensures |answers| == |sources|
  {
    seq(|sources|, k requires 0 <= k < |sources| => Answer(sources[k], auth, cookie, query))
  }

  method ExtractFromParts(sources: seq<TokenSourceKind>, auth: Option<string>, cookie: Option<string>, query: string)
    returns (r: Option<string>)
    ensures r == FirstSome(Answers(sources, auth, cookie, query))
    ensures r.Some? ==> r.value != ""
  {
    ghost var answers := Answers(sources, auth, cookie, query);
    for i := 0 to |sources|
      invariant FirstSome(answers[i..]) == FirstSome(answers)
    {
      SkipNone(answers, i);
      var v := Ask(sources[i], auth, cookie, query);
      assert answers[i] == v;
      if v.Some? {
        AnswersAreNonEmpty(sources[i], auth, cookie, query);
        return v;
      }
    }
    return None;
  }

  method Ask(src: TokenSourceKind, auth: Option<string>, cookie: Option<string>, query: string)
    returns (r: Option<string>)
    ensures r == Answer(src, auth, cookie, query)
  {
    match src
    case AuthorizationHeader =>
      if auth.None? { return None; }
      r := ParseBearer(auth.value);
      if r.Some? && r.value == "" { return None; }
    case QueryParam(name) =>
      r := ExtractQueryParam(query, name);
    case Cookie(name) =>
      if cookie.None? { return None; }
      r := ParseCookie(cookie.value, name);
  }

  /** A header's raw value, as `http` keeps it. */
  datatype Parts = Parts(authorization: Option<seq<byte>>, cookie: Option<seq<byte>>)

  /** `HeaderValue::to_str`: visible ASCII and tabs only. */
  function ToStr(value: seq<byte>): Option<string> {
    if forall k :: 0 <= k < |value| ==> 32 <= value[k] < 127 || value[k] == 9
    then Some(seq(|value|, k requires 0 <= k < |value| => value[k] as char))
    else None
  }

  function HeaderText(value: Option<seq<byte>>): Option<string> {
    if value.Some? then ToStr(value.value) else None
  }

  /** The same search over request parts: it agrees with `ExtractFromParts`
      on the header values that convert to text. */
  method ExtractToken(sources: seq<TokenSourceKind>, parts: Parts, query: string) returns (r: Option<string>)
    ensures r == FirstSome(Answers(sources, HeaderText(parts.authorization), HeaderText(parts.cookie), query))
    ensures r.Some? ==> r.value != ""
  {
    ghost var auth, cookie := HeaderText(parts.authorization), HeaderText(parts.cookie);
    ghost var answers := Answers(sources, auth, cookie, query);
    for i := 0 to |sources|
      invariant FirstSome(answers[i..]) == FirstSome(answers)
    {
      SkipNone(answers, i);
      var v := AskParts(sources[i], parts, query);
      assert answers[i] == v;
      if v.Some? {
        AnswersAreNonEmpty(sources[i], auth, cookie, query);
        return v;
      }
    }
    return None;
  }

  method AskParts(src: TokenSourceKind, parts: Parts, query: string) returns (r: Option<string>)
    ensures r == Answer(src, HeaderText(parts.authorization), HeaderText(parts.cookie), query)
  {
    match src
    case AuthorizationHeader =>
      if parts.authorization.None? { return None; }
      var s := ToStr(parts.authorization.value);
      if s.None? { return None; }
      r := ParseBearer(s.value);
    case QueryParam(name) =>
      r := ExtractQueryParam(query, name);
    case Cookie(name) =>
      if parts.cookie.None? { return None; }
      var s := ToStr(parts.cookie.value);
      if s.None? { return None; }
      r := ParseCookie(s.value, name);
  }

  /** Decoding never loses a text altogether: each group leaves a character. */
  lemma DecodedNonEmpty(s: string)
    ensures s != "" ==> Decoded(s) != ""
  {
  }

  lemma CookieNonEmpty(part: string, name: string)
    ensures CookieAnswer(part, name).Some? ==> CookieAnswer(part, name).value != ""
  {
    DecodedNonEmpty(CookiePair(part).1);
  }

  /** No source ever answers with an empty token. */
  lemma AnswersAreNonEmpty(src: TokenSourceKind, auth: Option<string>, cookie: Option<string>, query: string)
    ensures var r := Answer(src, auth, cookie, query); r.Some? ==> r.value != ""
  {
    match src
    case AuthorizationHeader =>
    case QueryParam(name) =>
    case Cookie(name) =>
      if cookie.Some? {
        var parts := Split(cookie.value, ';');
        forall k | 0 <= k < |parts|
          ensures CookieAnswer(parts[k], name).Some? ==> CookieAnswer(parts[k], name).value != ""
        {
          CookieNonEmpty(parts[k], name);
        }
      }
  }
}
