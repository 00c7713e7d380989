/** What the query parser and the Bearer scheme make of their input, however it
    is written. */
module ExtractorTheorems {
  import opened Prelude
  import opened Strings
  import opened Extractor
  import opened Spelling
  import Utf8

  /** A written key and value; `bare` writes an empty value without `=`. */
  datatype Pair = Pair(key: seq<Piece>, value: seq<Piece>, bare: bool) {

    predicate WellFormed() {
      Written(key, {'&', '='}) && Written(value, {'&'}) && (bare ==> value == [])
    }
  }

  function PairText(p: Pair): string {
    Spelled(p.key) + if p.bare then "" else "=" + Spelled(p.value)
  }

  function Texts<T>(items: seq<T>, text: T -> string): (r: seq<string>)
    ensures |r| == |items|
  {
    seq(|items|, k requires 0 <= k < |items| => text(items[k]))
  }

  function Query(pairs: seq<Pair>): string {
    if pairs == [] then "" else Join(Texts(pairs, PairText), '&')
  }

  predicate AllWritten(pairs: seq<Pair>) {
    forall k :: 0 <= k < |pairs| ==> pairs[k].WellFormed()
  }

  function Says(p: Pair, name: string): Option<string> {
    if Value(p.key) == name && Value(p.value) != "" then Some(Value(p.value)) else None
  }

  /** The value of the first pair with this key that has one. */
  function FirstValue(pairs: seq<Pair>, name: string): Option<string> {
    FirstSome(seq(|pairs|, k requires 0 <= k < |pairs| => Says(pairs[k], name)))
  }

  lemma KeyComesFirst(k: string, v: string)
    requires '=' !in k
    ensures KeyValue(k + "=" + v) == (k, v) && KeyValue(k) == (k, "")
  {
    FindChar(k, '=', v);
    var t := k + ['='] + v;
    assert t[..|k|] == k && t[|k| + 1..] == v;
  }

  lemma TextParts(p: Pair)
    requires p.WellFormed()
    ensures PairText(p) == if p.bare then Spelled(p.key) else Spelled(p.key) + "=" + Spelled(p.value)
    ensures p.bare ==> Spelled(p.value) == ""
  {
    if p.bare {
      assert Spelled(p.key) + "" == Spelled(p.key);
    } else {
      Regroup(Spelled(p.key), "=", Spelled(p.value));
    }
  }

  lemma PairSplits(p: Pair)
    requires p.WellFormed()
    ensures KeyValue(PairText(p)) == (Spelled(p.key), Spelled(p.value))
  {
    TextParts(p);
    NoSeparatorInText(p.key, {'&', '='}, '=');
    KeyComesFirst(Spelled(p.key), Spelled(p.value));
  }

  lemma PairHoldsNoSeparator(p: Pair)
    requires p.WellFormed()
    ensures '&' !in PairText(p)
  {
    NoSeparatorInText(p.key, {'&', '='}, '&');
    NoSeparatorInText(p.value, {'&'}, '&');
  }

  lemma PairComesApart(p: Pair)
    requires p.WellFormed()
    ensures Decoded(KeyValue(PairText(p)).0) == Value(p.key)
    ensures Decoded(KeyValue(PairText(p)).1) == Value(p.value)
  {
    PairSplits(p);
    DecodeUndoesWriting(p.key, {'&', '='});
    DecodeUndoesWriting(p.value, {'&'});
  }

  lemma PairIsFound(p: Pair, name: string)
    requires p.WellFormed()
    ensures PairAnswer(PairText(p), name) == Says(p, name)
  {
    PairComesApart(p);
    if PairText(p) == "" { assert KeyValue("").1 == ""; }
  }

  lemma PairsAreFound(pairs: seq<Pair>, name: string)
    requires AllWritten(pairs)
    ensures FirstSome(PairAnswers(Texts(pairs, PairText), name)) == FirstValue(pairs, name)
  {
    var answers := PairAnswers(Texts(pairs, PairText), name);
    forall k | 0 <= k < |pairs| ensures answers[k] == Says(pairs[k], name) {
      PairIsFound(pairs[k], name);
    }
    assert answers == seq(|pairs|, k requires 0 <= k < |pairs| => Says(pairs[k], name));
  }

  /** The query round trip: however the pairs are written, with a leading `?`
      in front or not, the parameter found is the first non-empty value whose
      key is the name, and none when there is none. */
  lemma QueryRoundTrip(pairs: seq<Pair>, name: string, marks: nat)
    requires AllWritten(pairs)
    requires pairs != [] && pairs[0].key != [] ==> pairs[0].key[0] != Literal('?')
    ensures QueryAnswer(Marks(marks) + Query(pairs), name) == FirstValue(pairs, name)
  {
    var q := Query(pairs);
    assert q == "" || q[0] != '?' by { FirstIsNoMark(pairs); }
    MarksAreTrimmed(marks, q);
    if pairs == [] {
      EmptyQuery(name);
    } else {
      forall t | t in Texts(pairs, PairText) ensures '&' !in t {
        var k :| 0 <= k < |pairs| && t == PairText(pairs[k]);
        PairHoldsNoSeparator(pairs[k]);
      }
      SplitJoin(Texts(pairs, PairText), '&');
      PairsAreFound(pairs, name);
    }
  }

  lemma FirstIsNoMark(pairs: seq<Pair>)
    requires AllWritten(pairs)
    requires pairs != [] && pairs[0].key != [] ==> pairs[0].key[0] != Literal('?')
    ensures Query(pairs) == "" || Query(pairs)[0] != '?'
  {
    if pairs != [] {
      var t := Texts(pairs, PairText);
      assert Query(pairs) == t[0] || Query(pairs) == t[0] + ['&'] + Join(t[1..], '&');
      assert t[0] == PairText(pairs[0]);
      if pairs[0].key != [] {
        assert t[0][0] == pairs[0].key[0].Text()[0];
      } else {
        assert Spelled(pairs[0].key) == "";
        assert !pairs[0].bare ==> t[0][0] == '=';
      }
    }
  }

  function Marks(n: nat): string {
    seq(n, _ => '?')
  }

  lemma {:induction false} MarksAreTrimmed(n: nat, q: string)
    requires q == "" || q[0] != '?'
    ensures TrimQuestion(Marks(n) + q) == q
  {
    if n == 0 {
      assert Marks(0) + q == q;
    } else {
      assert (Marks(n) + q)[1..] == Marks(n - 1) + q;
      MarksAreTrimmed(n - 1, q);
    }
  }

  // Every text can be written

  /** Escapes what must be escaped, in upper or lower case, and only that. */
  function Write(s: string, upper: bool): seq<Piece> {
    if s == "" then [] else [WriteChar(s[0], upper)] + Write(s[1..], upper)
  }

  function WriteChar(c: char, upper: bool): Piece {
    if c in {'%', '+', '&', '=', '?'} then Escape(c as int / 16, c as int % 16, upper, upper) else Literal(c)
  }

  lemma WriteIsWellFormed(s: string, upper: bool)
    ensures Written(Write(s, upper), {'&', '='}) && Written(Write(s, upper), {'&'})
    ensures Value(Write(s, upper)) == s
    ensures s != "" ==> Write(s, upper)[0] != Literal('?')
  {
    if s != "" {
      WriteIsWellFormed(s[1..], upper);
      var n := s[0] as int;
      assert n == 16 * (n / 16) + n % 16;
      assert Write(s, upper)[1..] == Write(s[1..], upper);
      assert s == [s[0]] + s[1..];
    }
  }

  lemma OnePairComesBack(p: Pair)
    requires p.WellFormed() && Value(p.value) != ""
    requires p.key != [] ==> p.key[0] != Literal('?')
    ensures QueryAnswer(PairText(p), Value(p.key)) == Some(Value(p.value))
  {
    OnlyPair(p);
    assert Marks(0) + Query([p]) == PairText(p);
    QueryRoundTrip([p], Value(p.key), 0);
    FirstOfOne(p, Value(p.key));
  }

  /** So any parameter can be passed: a written key and value come back. */
  lemma AnyParameterComesBack(key: string, value: string, upper: bool)
    requires value != ""
    ensures QueryAnswer(Spelled(Write(key, upper)) + "=" + Spelled(Write(value, upper)), key) == Some(value)
  {
    var p := Pair(Write(key, upper), Write(value, upper), false);
    WriteIsWellFormed(key, upper);
    WriteIsWellFormed(value, upper);
    TextParts(p);
    OnePairComesBack(p);
  }

  lemma OnlyPair(p: Pair)
    ensures Query([p]) == PairText(p)
  {
    assert Texts([p], PairText) == [PairText(p)];
  }

  lemma FirstOfOne(p: Pair, name: string)
    requires Value(p.key) == name && Value(p.value) != ""
    ensures FirstValue([p], name) == Some(Value(p.value))
  {
  }

  // Every query is written

  lemma PairIsSpelled(piece: string) returns (p: Pair)
    requires '&' !in piece
    ensures p.WellFormed() && PairText(p) == piece
  {
    if '=' in piece {
      var k := Find(piece, "=", 0);
      NoneBefore(piece, '=', k);
      assert k < |piece| by { assert piece[..|piece|] == piece; }
      assert piece[k..][0] == '=' && piece == piece[..k] + "=" + piece[k + 1..];
      var key := EveryTextIsSpelled(piece[..k], {'&', '='});
      var value := EveryTextIsSpelled(piece[k + 1..], {'&'});
      p := Pair(key, value, false);
      TextParts(p);
    } else {
      var key := EveryTextIsSpelled(piece, {'&', '='});
      p := Pair(key, [], true);
      TextParts(p);
    }
  }

  lemma {:induction false} PairsAreSpelled(pieces: seq<string>) returns (pairs: seq<Pair>)
    requires forall t :: t in pieces ==> '&' !in t
    ensures AllWritten(pairs) && Texts(pairs, PairText) == pieces
  {
    if pieces == [] {
      pairs := [];
    } else {
      var p := PairIsSpelled(pieces[0]);
      var more := PairsAreSpelled(pieces[1..]);
      pairs := [p] + more;
      OneTextMore(p, more);
      assert pieces == [pieces[0]] + pieces[1..];
    }
  }

  lemma OneTextMore(p: Pair, more: seq<Pair>)
    ensures Texts([p] + more, PairText) == [PairText(p)] + Texts(more, PairText)
  {
  }

  lemma {:induction false} QuestionMarks(s: string) returns (n: nat)
    ensures s == Marks(n) + TrimQuestion(s)
    ensures TrimQuestion(s) == "" || TrimQuestion(s)[0] != '?'
  {
    if s != "" && s[0] == '?' {
      var m := QuestionMarks(s[1..]);
      n := m + 1;
      assert Marks(n) + TrimQuestion(s) == "?" + (Marks(m) + TrimQuestion(s)) == s;
    } else {
      n := 0;
    }
  }

  /** Nothing is left open by the round trip: every query whatever is a way of
      writing some pairs, and is answered as they say. */
  lemma EveryQueryIsRead(query: string, name: string) returns (marks: nat, pairs: seq<Pair>)
    ensures AllWritten(pairs) && query == Marks(marks) + Query(pairs)
    ensures QueryAnswer(query, name) == FirstValue(pairs, name)
  {
    marks := QuestionMarks(query);
    var q := TrimQuestion(query);
    JoinSplit(q, '&');
    pairs := PairsAreSpelled(Split(q, '&'));
    if pairs[0].key != [] {
      FirstOfJoin(Texts(pairs, PairText), '&');
      KeyStartsPair(pairs[0]);
    }
    QueryRoundTrip(pairs, name, marks);
  }

  lemma KeyStartsPair(p: Pair)
    requires p.key != []
    ensures PairText(p) != "" && p.key[0].Text()[0] == PairText(p)[0]
  {
  }

  lemma FirstOfJoin(pieces: seq<string>, sep: char)
    requires pieces != []
    ensures pieces[0] <= Join(pieces, sep)
  {
  }

  // Escaped UTF-8

  /** Every octet of a text's UTF-8 written as an escape, as RFC 3986 section
      2.5 has it for characters outside ASCII. */
  function EscapedOctets(b: seq<byte>): seq<Piece> {
    if b == [] then [] else [Escape(b[0] / 16, b[0] % 16, true, true)] + EscapedOctets(b[1..])
  }

  lemma {:induction false} OctetsBecomeCharacters(b: seq<byte>)
    ensures Written(EscapedOctets(b), {})
    ensures |Value(EscapedOctets(b))| == |b|
    ensures forall k :: 0 <= k < |b| ==> Value(EscapedOctets(b))[k] as int == b[k]
  {
    if b != [] {
      OctetsBecomeCharacters(b[1..]);
      var ps := EscapedOctets(b);
      assert ps[1..] == EscapedOctets(b[1..]);
      assert b[0] == 16 * (b[0] / 16) + b[0] % 16;
      forall k | 0 <= k < |b| ensures Value(ps)[k] as int == b[k] {
        if k > 0 { assert b[k] == b[1..][k - 1]; }
      }
    }
  }

  predicate IsAscii(s: string) {
    forall k :: 0 <= k < |s| ==> s[k] as int < 0x80
  }

  lemma {:induction false} OctetsPerCharacter(s: string)
    ensures |Utf8.Encode(s)| >= |s|
    ensures |Utf8.Encode(s)| == |s| ==> IsAscii(s)
  {
    if s != "" {
      OctetsPerCharacter(s[1..]);
      forall k | 0 <= k < |s| && |Utf8.Encode(s)| == |s| ensures s[k] as int < 0x80 {
        if k > 0 { assert s[k] == s[1..][k - 1]; }
      }
    }
  }

  /** An escape stands for a character, not for an octet of one: text whose
      UTF-8 is escaped comes back exactly when it is ASCII. */
  lemma EscapedUtf8ComesBackIffAscii(s: string)
    ensures Decoded(Spelled(EscapedOctets(Utf8.Encode(s)))) == s <==> IsAscii(s)
  {
    OctetsBecomeCharacters(Utf8.Encode(s));
    DecodeUndoesWriting(EscapedOctets(Utf8.Encode(s)), {});
    OctetsPerCharacter(s);
    if IsAscii(s) { AsciiEncodes(s); }
  }

  /** So `%C3%A9`, an e with an acute accent, does not come back. */
  lemma EscapedUtf8Example()
    ensures Spelled(EscapedOctets(Utf8.Encode("\U{E9}"))) == "%C3%A9"
    ensures Decoded("%C3%A9") != "\U{E9}"
  {
  }

  // Header values

  /** Space to tilde, and the tab. */
  predicate IsVisible(s: string) {
    forall k :: 0 <= k < |s| ==> ' ' <= s[k] <= '~' || s[k] == '\t'
  }

  /** A header value converts exactly when it is the encoding of visible text,
      and then to that text. */
  lemma ConvertsIffVisible(value: seq<byte>, s: string)
    ensures ToStr(value) == Some(s) <==> IsVisible(s) && value == Utf8.Encode(s)
  {
    if IsVisible(s) && value == Utf8.Encode(s) {
      AsciiEncodes(s);
      assert ToStr(value).value == s;
    } else if ToStr(value) == Some(s) {
      assert forall k :: 0 <= k < |s| ==> s[k] as int == value[k];
      AsciiEncodes(s);
    }
  }

  // Bearer

  const BEARER_TEXT := "bearer "

  lemma AsciiEncodes(s: string)
    requires forall k :: 0 <= k < |s| ==> (s[k] as int) < 0x80
    ensures |Utf8.Encode(s)| == |s| && forall k :: 0 <= k < |s| ==> Utf8.Encode(s)[k] == s[k] as int
    decreases |s|
  {
    if s != "" { AsciiEncodes(s[1..]); }
  }

  /** An octet below 0x80 is a character of its own. */
  lemma {:induction false} AsciiPrefix(s: string, n: nat)
    requires n <= |Utf8.Encode(s)|
    requires forall k :: 0 <= k < n ==> Utf8.Encode(s)[k] < 0x80
    ensures n <= |s| && forall k :: 0 <= k < n ==> s[k] as int == Utf8.Encode(s)[k]
    ensures Utf8.Encode(s)[n..] == Utf8.Encode(s[n..])
  {
    if n == 0 {
      assert s[0..] == s;
    } else {
      var b := Utf8.Encode(s);
      assert s != "" && b[0] == Utf8.EncodeChar(s[0])[0];
      FirstOctet(s[0]);
      assert b[1..] == Utf8.Encode(s[1..]);
      AsciiPrefix(s[1..], n - 1);
      assert s[n..] == s[1..][n - 1..] && b[n..] == b[1..][n - 1..];
      forall k | 0 <= k < n ensures s[k] as int == b[k] {
        if k > 0 { assert s[k] == s[1..][k - 1] && b[k] == b[1..][k - 1]; }
      }
    }
  }

  lemma FirstOctet(c: char)
    ensures !Utf8.IsTail(Utf8.EncodeChar(c)[0])
    ensures Utf8.EncodeChar(c)[0] < 0x80 ==> Utf8.EncodeChar(c) == [c as int]
  {
  }

  /** If the first seven octets pass, they are seven characters. */
  lemma BearerCuts(s: string)
    requires var bytes := Utf8.Encode(s); |bytes| >= 7 && EqIgnoreAsciiCase(bytes[..7], BEARER)
    ensures |s| >= 7 && Lower(s[..7]) == BEARER_TEXT
    ensures IsCharBoundary(Utf8.Encode(s), 7) && Utf8.Encode(s)[7..] == Utf8.Encode(s[7..])
  {
    var bytes := Utf8.Encode(s);
    forall k | 0 <= k < 7 ensures bytes[k] < 0x80 {
      assert LowerByte(bytes[..7][k]) == LowerByte(BEARER[k]);
    }
    AsciiPrefix(s, 7);
    assert IsCharBoundary(bytes, 7) by {
      if s[7..] != "" {
        FirstOctet(s[7]);
        assert bytes[7] == bytes[7..][0];
      }
    }
    assert Lower(s[..7]) == BEARER_TEXT by {
      forall k | 0 <= k < 7 ensures LowerChar(s[k]) == BEARER_TEXT[k] {
        assert LowerByte(bytes[..7][k]) == LowerByte(BEARER[k]);
      }
    }
  }

  /** The byte-wise check is the check on characters: a header yields a token
      exactly when it starts with `bearer ` in any case and something other
      than white space follows, and the token is that, trimmed. Cutting after
      seven octets never splits a character. */
  lemma BearerMeaning(s: string)
    ensures ParseBearer(s)
            == if |s| >= 7 && Lower(s[..7]) == BEARER_TEXT && Trim(s[7..]) != "" then Some(Trim(s[7..])) else None
  {
    var bytes := Utf8.Encode(s);
    if |bytes| >= 7 && EqIgnoreAsciiCase(bytes[..7], BEARER) {
      BearerCuts(s);
      Utf8.DecodeEncode(s[7..]);
    } else if |s| >= 7 && Lower(s[..7]) == BEARER_TEXT {
      BearerBytes(s);
    }
  }

  lemma BearerHead(head: string)
    requires |head| == 7 && Lower(head) == BEARER_TEXT
    ensures |Utf8.Encode(head)| == 7 && EqIgnoreAsciiCase(Utf8.Encode(head), BEARER)
  {
    forall k | 0 <= k < 7 ensures LowerChar(head[k]) == BEARER_TEXT[k] {
      assert Lower(head)[k] == BEARER_TEXT[k];
    }
    AsciiEncodes(head);
    var bytes := Utf8.Encode(head);
    forall k | 0 <= k < 7 ensures LowerByte(bytes[k]) == LowerByte(BEARER[k]) {
      assert BEARER_TEXT[k] as int == BEARER[k];
    }
  }

  lemma BearerBytes(s: string)
    requires |s| >= 7 && Lower(s[..7]) == BEARER_TEXT
    ensures |Utf8.Encode(s)| >= 7 && EqIgnoreAsciiCase(Utf8.Encode(s)[..7], BEARER)
  {
    assert s == s[..7] + s[7..];
    Utf8.EncodeAppend(s[..7], s[7..]);
    BearerHead(s[..7]);
    assert Utf8.Encode(s)[..7] == Utf8.Encode(s[..7]);
  }
}
