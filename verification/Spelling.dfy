/** How a text can be written in a query or a cookie: percent-encoding by
    section 2.1 of RFC 3986 in either case, `+` for a space, and the broken
    escapes that stand for themselves. */
module Spelling {
  import opened Prelude
  import opened Strings
  import opened Extractor

  const LOWER_HEX := "0123456789abcdef"
  const UPPER_HEX := "0123456789ABCDEF"

  type Nibble = n: int | 0 <= n < 16

  function HexDigit(n: Nibble, upper: bool): char {
    if upper then UPPER_HEX[n] else LOWER_HEX[n]
  }

  predicate IsHexDigit(c: char) {
    c in LOWER_HEX || c in UPPER_HEX
  }

  /** A hexadecimal digit has the value of its place in the table, in either
      case, and nothing else is one. */
  lemma HexValIsPlace(c: char, n: Nibble)
    ensures HexVal(c) == Some(n) <==> c == LOWER_HEX[n] || c == UPPER_HEX[n]
  {
  }

  lemma HexValIffDigit(c: char)
    ensures HexVal(c).Some? <==> IsHexDigit(c)
  {
    if HexVal(c).Some? {
      HexRange(c);
      HexValIsPlace(c, HexVal(c).value);
    } else {
      forall n: Nibble ensures c != LOWER_HEX[n] && c != UPPER_HEX[n] {
        HexValIsPlace(c, n);
      }
    }
  }

  /** One written piece: a character itself, a plus for a space, an escape
      with each digit in upper case or not, three characters that look like an
      escape and are none, or an escape cut off by the end of the text. */
  datatype Piece =
    | Literal(c: char)
    | Plus
    | Escape(hi: Nibble, lo: Nibble, upperHi: bool, upperLo: bool)
    | Broken(a: char, b: char)
    | Cut(rest: string)
  {
    /** `barred` holds the separators that must not be written literally. */
    predicate WellFormed(barred: set<char>) {
      match this
      case Literal(c) => c != '%' && c != '+' && c !in barred
      case Plus => true
      case Escape(_, _, _, _) => true
      case Broken(a, b) => !(IsHexDigit(a) && IsHexDigit(b)) && a !in barred && b !in barred
      case Cut(rest) => |rest| <= 1 && (rest != "" ==> rest[0] !in barred)
    }

    function Text(): string {
      match this
      case Literal(c) => [c]
      case Plus => "+"
      case Escape(hi, lo, upperHi, upperLo) => ['%', HexDigit(hi, upperHi), HexDigit(lo, upperLo)]
      case Broken(a, b) => ['%', a, b]
      case Cut(rest) => "%" + rest
    }

    /** What the piece stands for. */
    function Value(): string {
      match this
      case Literal(c) => [c]
      case Plus => " "
      case Escape(hi, lo, _, _) => [(16 * hi + lo) as char]
      case Broken(a, b) => ['%', a, b]
      case Cut(rest) => "%" + rest
    }
  }

  predicate Written(ps: seq<Piece>, barred: set<char>) {
    forall k :: 0 <= k < |ps| ==> ps[k].WellFormed(barred) && (ps[k].Cut? ==> k == |ps| - 1)
  }

  function Spelled(ps: seq<Piece>): string {
    if ps == [] then "" else ps[0].Text() + Spelled(ps[1..])
  }

  function Value(ps: seq<Piece>): string {
    if ps == [] then "" else ps[0].Value() + Value(ps[1..])
  }

  lemma EscapeIsRead(hi: Nibble, lo: Nibble, upperHi: bool, upperLo: bool, rest: string)
    ensures var text := ['%', HexDigit(hi, upperHi), HexDigit(lo, upperLo)] + rest;
            Group(text) == ([(16 * hi + lo) as char], 3)
  {
    HexValIsPlace(HexDigit(hi, upperHi), hi);
    HexValIsPlace(HexDigit(lo, upperLo), lo);
  }

  lemma BrokenIsKept(a: char, b: char, rest: string)
    requires !(IsHexDigit(a) && IsHexDigit(b))
    ensures Group(['%', a, b] + rest) == (['%', a, b], 3)
  {
    HexValIffDigit(a);
    HexValIffDigit(b);
    assert (['%', a, b] + rest)[..3] == ['%', a, b];
  }

  lemma GroupOfPiece(p: Piece, barred: set<char>, rest: string)
    requires p.WellFormed(barred) && (p.Cut? ==> rest == "")
    ensures Group(p.Text() + rest) == (p.Value(), |p.Text()|)
  {
    match p
    case Escape(hi, lo, upperHi, upperLo) => EscapeIsRead(hi, lo, upperHi, upperLo, rest);
    case Broken(a, b) => BrokenIsKept(a, b, rest);
    case Cut(cut) => assert p.Text() + rest == "%" + cut;
    case _ =>
  }

  /** However a text is written, decoding gives it back. */
  lemma {:induction false} DecodeUndoesWriting(ps: seq<Piece>, barred: set<char>)
    requires Written(ps, barred)
    ensures Decoded(Spelled(ps)) == Value(ps)
  {
    if ps != [] {
      assert Written(ps[1..], barred);
      DecodeUndoesWriting(ps[1..], barred);
      GroupOfPiece(ps[0], barred, Spelled(ps[1..]));
      assert Spelled(ps)[|ps[0].Text()|..] == Spelled(ps[1..]);
    }
  }

  lemma {:induction false} NoSeparatorInText(ps: seq<Piece>, barred: set<char>, sep: char)
    requires Written(ps, barred) && sep in barred
    requires !IsHexDigit(sep) && sep != '%' && sep != '+'
    ensures sep !in Spelled(ps)
  {
    if ps != [] {
      assert Written(ps[1..], barred);
      NoSeparatorInText(ps[1..], barred, sep);
      NoSeparatorInPiece(ps[0], barred, sep);
    }
  }

  lemma NoSeparatorInPiece(p: Piece, barred: set<char>, sep: char)
    requires p.WellFormed(barred) && sep in barred
    requires !IsHexDigit(sep) && sep != '%' && sep != '+'
    ensures sep !in p.Text()
  {
    if p.Escape? { assert IsHexDigit(HexDigit(p.hi, p.upperHi)) && IsHexDigit(HexDigit(p.lo, p.upperLo)); }
  }

  lemma SpelledEmpty(ps: seq<Piece>)
    ensures Spelled(ps) == "" <==> ps == []
    ensures Value(ps) == "" <==> ps == []
  {
    if ps != [] { assert ps[0].Text() != "" && ps[0].Value() != ""; }
  }

  /** The piece a text begins with. */
  function FirstPiece(s: string): (p: Piece)
    requires s != ""
    ensures p.Text() <= s && (p.Cut? ==> p.Text() == s)
  {
    if s[0] == '+' then Plus
    else if s[0] != '%' then Literal(s[0])
    else if |s| < 3 then
      assert s == "%" + s[1..];
      Cut(s[1..])
    else if HexVal(s[1]).Some? && HexVal(s[2]).Some? then
      HexRange(s[1]);
      HexRange(s[2]);
      HexValIsPlace(s[1], HexVal(s[1]).value);
      HexValIsPlace(s[2], HexVal(s[2]).value);
      var upperHi, upperLo := s[1] == UPPER_HEX[HexVal(s[1]).value], s[2] == UPPER_HEX[HexVal(s[2]).value];
      Escape(HexVal(s[1]).value, HexVal(s[2]).value, upperHi, upperLo)
    else Broken(s[1], s[2])
  }

  /** Every text is some spelling, with nothing barred in it that the text
      does not hold: so what decoding does to spellings it does to all texts. */
  lemma {:induction false} EveryTextIsSpelled(s: string, barred: set<char>) returns (ps: seq<Piece>)
    requires forall c :: c in s ==> c !in barred
    ensures Written(ps, barred) && Spelled(ps) == s
    decreases |s|
  {
    if s == "" {
      ps := [];
    } else {
      var p := FirstPiece(s);
      var rest := s[|p.Text()|..];
      var more := EveryTextIsSpelled(rest, barred);
      FirstPieceWellFormed(s, barred);
      ps := [p] + more;
      assert ps[1..] == more && s == p.Text() + rest;
      if p.Cut? { SpelledEmpty(more); }
    }
  }

  lemma FirstPieceWellFormed(s: string, barred: set<char>)
    requires s != "" && forall c :: c in s ==> c !in barred
    ensures FirstPiece(s).WellFormed(barred)
  {
    if |s| >= 3 {
      HexValIffDigit(s[1]);
      HexValIffDigit(s[2]);
    }
  }
}
