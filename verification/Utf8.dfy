/** UTF-8 as fixed by sections 3 and 4 of RFC 3629. A Rust `String` is the
    UTF-8 encoding of a sequence of Unicode scalar values, which is what a
    Dafny `string` is a sequence of. */
module Utf8 {
  import opened Prelude

  /** The one- to four-octet encoding of a scalar value (section 3). */
  function Octets(n: int): (r: seq<byte>)
    requires 0 <= n < 0x11_0000
    ensures 1 <= |r| <= 4
  {
    var q1 := n / 64;
    var q2 := q1 / 64;
    if n < 0x80 then [n]
    else if n < 0x800 then [0xC0 + q1, 0x80 + n % 64]
    else if n < 0x10000 then [0xE0 + q2, 0x80 + q1 % 64, 0x80 + n % 64]
    else [0xF0 + q2 / 64, 0x80 + q2 % 64, 0x80 + q1 % 64, 0x80 + n % 64]
  }

  function EncodeChar(c: char): (r: seq<byte>)
    ensures 1 <= |r| <= 4
  {
    Octets(c as int)
  }

  predicate IsTail(b: byte) { 0x80 <= b <= 0xBF }

  /** The length of the UTF8-char at the head of `b` by the grammar of
      section 4, or zero when there is none. */
  function HeadLength(b: seq<byte>): (n: nat)
    ensures n <= |b| && n <= 4
  {
    if |b| >= 1 && b[0] <= 0x7F then 1
    else if |b| >= 2 && 0xC2 <= b[0] <= 0xDF && IsTail(b[1]) then 2
    else if |b| >= 3 && IsTail(b[2])
            && ((b[0] == 0xE0 && 0xA0 <= b[1] <= 0xBF)
                || ((0xE1 <= b[0] <= 0xEC || 0xEE <= b[0] <= 0xEF) && IsTail(b[1]))
                || (b[0] == 0xED && 0x80 <= b[1] <= 0x9F)) then 3
    else if |b| >= 4 && IsTail(b[2]) && IsTail(b[3])
            && ((b[0] == 0xF0 && 0x90 <= b[1] <= 0xBF)
                || (0xF1 <= b[0] <= 0xF3 && IsTail(b[1]))
                || (b[0] == 0xF4 && 0x80 <= b[1] <= 0x8F)) then 4
    else 0
  }

  /** The number the first `HeadLength(b)` octets stand for. */
  function HeadValue(b: seq<byte>): (v: int)
    requires HeadLength(b) > 0
    ensures 0 <= v < 0xD800 || 0xE000 <= v < 0x11_0000
  {
    var n := HeadLength(b);
    var x0: int := b[0];
    if n == 1 then x0
    else
      var x1: int := b[1];
      if n == 2 then (x0 - 0xC0) * 64 + (x1 - 0x80)
      else
        var x2: int := b[2];
        if n == 3 then ((x0 - 0xE0) * 64 + (x1 - 0x80)) * 64 + (x2 - 0x80)
        else
          var x3: int := b[3];
          (((x0 - 0xF0) * 64 + (x1 - 0x80)) * 64 + (x2 - 0x80)) * 64 + (x3 - 0x80)
  }

  function HeadChar(b: seq<byte>): char
    requires HeadLength(b) > 0
  {
    HeadValue(b) as char
  }

  function Encode(s: string): seq<byte> {
    if s == "" then [] else EncodeChar(s[0]) + Encode(s[1..])
  }

  /** `String::from_utf8`: the text, or nothing when the bytes are not UTF-8. */
  function Decode(b: seq<byte>): Option<string> {
    if b == [] then Some("")
    else if HeadLength(b) == 0 then None
    else
      match Decode(b[HeadLength(b)..])
      case None => None
      case Some(rest) => Some([HeadChar(b)] + rest)
  }

  lemma HeadOfEncoded(c: char, rest: seq<byte>)
    ensures HeadLength(EncodeChar(c) + rest) == |EncodeChar(c)|
    ensures HeadChar(EncodeChar(c) + rest) == c
  {
    var n := c as int;
    var q1 := n / 64;
    var q2 := q1 / 64;
    var e := EncodeChar(c);
    var b := e + rest;
    assert forall k :: 0 <= k < |e| ==> b[k] == e[k];
    assert n == 64 * q1 + n % 64 && q1 == 64 * q2 + q1 % 64 && q2 == 64 * (q2 / 64) + q2 % 64;
    assert HeadLength(b) == |e|;
    assert HeadValue(b) == n;
  }

  lemma SixBits(q: int, r: int)
    requires 0 <= r < 64
    ensures (q * 64 + r) / 64 == q && (q * 64 + r) % 64 == r
  {
  }

  lemma TwoOctets(y: int, x: int)
    requires 2 <= y < 32 && 0 <= x < 64
    ensures Octets(y * 64 + x) == [0xC0 + y, 0x80 + x]
  {
    SixBits(y, x);
  }

  lemma ThreeOctets(z: int, y: int, x: int)
    requires 0 <= z < 16 && 0 <= y < 64 && 0 <= x < 64 && 32 <= z * 64 + y
    ensures Octets((z * 64 + y) * 64 + x) == [0xE0 + z, 0x80 + y, 0x80 + x]
  {
    SixBits(z * 64 + y, x);
    SixBits(z, y);
  }

  lemma FourOctets(u: int, z: int, y: int, x: int)
    requires 0 <= u <= 4 && 0 <= z < 64 && 0 <= y < 64 && 0 <= x < 64
    requires 16 <= u * 64 + z < 0x110
    ensures Octets(((u * 64 + z) * 64 + y) * 64 + x) == [0xF0 + u, 0x80 + z, 0x80 + y, 0x80 + x]
  {
    SixBits((u * 64 + z) * 64 + y, x);
    SixBits(u * 64 + z, y);
    SixBits(u, z);
  }

  lemma OctetsOfHead(b: seq<byte>)
    requires HeadLength(b) > 0
    ensures Octets(HeadValue(b)) == b[..HeadLength(b)]
  {
    match HeadLength(b)
    case 1 =>
    case 2 => TwoOctets(b[0] - 0xC0, b[1] - 0x80);
    case 3 => ThreeOctets(b[0] - 0xE0, b[1] - 0x80, b[2] - 0x80);
    case _ => FourOctets(b[0] - 0xF0, b[1] - 0x80, b[2] - 0x80, b[3] - 0x80);
  }

  lemma EncodedHead(b: seq<byte>)
    requires HeadLength(b) > 0
    ensures EncodeChar(HeadChar(b)) == b[..HeadLength(b)]
  {
    OctetsOfHead(b);
  }

  /** Every text survives: decoding its encoding gives it back. */
  lemma {:induction false} DecodeEncode(s: string)
    ensures Decode(Encode(s)) == Some(s)
  {
    if s != "" {
      HeadOfEncoded(s[0], Encode(s[1..]));
      assert Encode(s)[|EncodeChar(s[0])|..] == Encode(s[1..]);
      DecodeEncode(s[1..]);
      assert s == [s[0]] + s[1..];
    }
  }

  /** Valid bytes have exactly one reading: re-encoding what they decode to
      gives the same bytes. */
  lemma {:induction false} EncodeDecode(b: seq<byte>)
    requires Decode(b).Some?
    ensures Encode(Decode(b).value) == b
  {
    if b != [] {
      EncodedHead(b);
      EncodeDecode(b[HeadLength(b)..]);
      assert Decode(b).value[1..] == Decode(b[HeadLength(b)..]).value;
    }
  }

  lemma {:induction false} EncodeAppend(s: string, t: string)
    ensures Encode(s + t) == Encode(s) + Encode(t)
  {
    if s == "" {
      assert s + t == t;
    } else {
      assert (s + t)[1..] == s[1..] + t;
      EncodeAppend(s[1..], t);
    }
  }

  /** Two examples of section 7, with characters of every length. */
  lemma SectionSevenExamples()
    ensures Encode("A\U{2262}\U{391}.") == [0x41, 0xE2, 0x89, 0xA2, 0xCE, 0x91, 0x2E]
    ensures Encode("\U{FEFF}\U{233B4}") == [0xEF, 0xBB, 0xBF, 0xF0, 0xA3, 0x8E, 0xB4]
  {
  }
}
