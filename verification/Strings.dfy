/** The string operations of the Rust standard library that the crate uses. */
module Strings {
  import opened Prelude

  /** Unicode White_Space, which `trim` removes. */
  predicate IsSpace(c: char) {
    var n := c as int;
    9 <= n <= 13 || n == 0x20 || n == 0x85 || n == 0xA0 || n == 0x1680 || 0x2000 <= n <= 0x200A
    || n == 0x2028 || n == 0x2029 || n == 0x202F || n == 0x205F || n == 0x3000
  }

  function TrimStart(s: string): (r: string)
    ensures |r| <= |s| && r == s[|s| - |r|..]
    ensures r != "" ==> !IsSpace(r[0])
  {
    if s != "" && IsSpace(s[0]) then TrimStart(s[1..]) else s
  }

  function TrimEnd(s: string): (r: string)
    ensures |r| <= |s| && r == s[..|r|]
    ensures r != "" ==> !IsSpace(r[|r| - 1])
  {
    if s != "" && IsSpace(s[|s| - 1]) then TrimEnd(s[..|s| - 1]) else s
  }

  function Trim(s: string): (r: string)
    ensures |r| <= |s|
    ensures r != "" ==> !IsSpace(r[0]) && !IsSpace(r[|r| - 1])
  {
    TrimEnd(TrimStart(s))
  }

  predicate AllSpace(s: string) {
    forall k :: 0 <= k < |s| ==> IsSpace(s[k])
  }

  /** Already bare of outer white space. */
  predicate IsTrimmed(s: string) {
    s != "" ==> !IsSpace(s[0]) && !IsSpace(s[|s| - 1])
  }

  lemma TrimmedStays(s: string)
    requires IsTrimmed(s)
    ensures Trim(s) == s
  {
  }

  lemma {:induction false} TrimStartPadded(pad: string, s: string)
    requires AllSpace(pad) && (s != "" ==> !IsSpace(s[0]))
    ensures TrimStart(pad + s) == s
  {
    if pad == "" {
      assert pad + s == s;
    } else {
      assert (pad + s)[1..] == pad[1..] + s;
      TrimStartPadded(pad[1..], s);
    }
  }

  lemma {:induction false} TrimEndPadded(s: string, pad: string)
    requires AllSpace(pad) && (s != "" ==> !IsSpace(s[|s| - 1]))
    ensures TrimEnd(s + pad) == s
  {
    if pad == "" {
      assert s + pad == s;
    } else {
      assert (s + pad)[..|s + pad| - 1] == s + pad[..|pad| - 1];
      TrimEndPadded(s, pad[..|pad| - 1]);
    }
  }

  lemma AllSpaceTrims(s: string)
    requires AllSpace(s)
    ensures TrimStart(s) == "" && TrimEnd(s) == ""
  {
    assert s + "" == s && "" + s == s;
    TrimStartPadded(s, "");
    TrimEndPadded("", s);
  }

  /** White space around a bare text is all that `trim` takes away. */
  lemma TrimPadded(lead: string, s: string, trail: string)
    requires AllSpace(lead) && AllSpace(trail) && s != "" && IsTrimmed(s)
    ensures Trim(lead + s + trail) == s
  {
    assert lead + s + trail == lead + (s + trail);
    TrimStartPadded(lead, s + trail);
    TrimEndPadded(s, trail);
  }

  function LowerChar(c: char): char {
    if 'A' <= c <= 'Z' then ((c as int) + 32) as char else c
  }

  /** `to_ascii_lowercase`. */
  function Lower(s: string): (r: string)
    ensures |r| == |s|
    ensures forall k :: 0 <= k < |s| ==> r[k] == LowerChar(s[k])
  {
    seq(|s|, k requires 0 <= k < |s| => LowerChar(s[k]))
  }

  lemma LowerSpace(c: char)
    ensures IsSpace(LowerChar(c)) <==> IsSpace(c)
  {
  }

  lemma LowerTwice(s: string)
    ensures Lower(Lower(s)) == Lower(s)
  {
  }

  /** The first position of `sep` in `s` at or after `from`, or `|s|`. */
  function Find(s: string, sep: string, from: nat): (k: nat)
    requires from <= |s| && sep != ""
    ensures from <= k <= |s|
    ensures k < |s| ==> sep <= s[k..]
    ensures forall j :: from <= j < k ==> !(sep <= s[j..])
    decreases |s| - from
  {
    if from == |s| || sep <= s[from..] then from else Find(s, sep, from + 1)
  }

  /** `split_once`. */
  function SplitOnce(s: string, sep: string): Option<(string, string)>
    requires sep != ""
  {
    var k := Find(s, sep, 0);
    if k < |s| then Some((s[..k], s[k + |sep|..])) else None
  }

  /** `split` on a character: always at least one piece. */
  function Split(s: string, sep: char): (pieces: seq<string>)
    ensures pieces != []
    decreases |s|
  {
    var k := Find(s, [sep], 0);
    if k < |s| then [s[..k]] + Split(s[k + 1..], sep) else [s]
  }

  function Join(pieces: seq<string>, sep: char): string
    requires pieces != []
  {
    if |pieces| == 1 then pieces[0] else pieces[0] + [sep] + Join(pieces[1..], sep)
  }

  lemma FindFirst(a: string, sep: string, b: string)
    requires sep != ""
    requires forall j :: 0 <= j < |a| ==> !(sep <= (a + sep + b)[j..])
    ensures Find(a + sep + b, sep, 0) == |a|
  {
    assert (a + sep + b)[|a|..] == sep + b;
  }

  lemma FindChar(a: string, c: char, b: string)
    requires c !in a
    ensures Find(a + [c] + b, [c], 0) == |a|
    ensures Find(a, [c], 0) == |a|
  {
    forall j | 0 <= j < |a| ensures !([c] <= (a + [c] + b)[j..]) {
      assert (a + [c] + b)[j..][0] == a[j];
    }
    FindFirst(a, [c], b);
  }

  lemma SplitHead(a: string, sep: char, rest: string)
    requires sep !in a
    ensures Split(a, sep) == [a]
    ensures Split(a + [sep] + rest, sep) == [a] + Split(rest, sep)
  {
    FindChar(a, sep, rest);
    var s := a + [sep] + rest;
    assert s[..|a|] == a && s[|a| + 1..] == rest;
  }

  /** Splitting undoes joining when no piece holds the separator. */
  lemma {:induction false} SplitJoin(pieces: seq<string>, sep: char)
    requires pieces != [] && forall p :: p in pieces ==> sep !in p
    ensures Split(Join(pieces, sep), sep) == pieces
  {
    if |pieces| == 1 {
      SplitHead(pieces[0], sep, "");
    } else {
      SplitHead(pieces[0], sep, Join(pieces[1..], sep));
      SplitJoin(pieces[1..], sep);
    }
  }

  /** And joining undoes splitting, whose pieces never hold the separator. */
  lemma {:induction false} JoinSplit(s: string, sep: char)
    ensures Join(Split(s, sep), sep) == s
    ensures forall p :: p in Split(s, sep) ==> sep !in p
    decreases |s|
  {
    var k := Find(s, [sep], 0);
    NoneBefore(s, sep, k);
    if k < |s| {
      JoinSplit(s[k + 1..], sep);
      assert s[k..][0] == sep && s == s[..k] + [sep] + s[k + 1..];
      assert Split(s, sep)[1..] == Split(s[k + 1..], sep);
    } else {
      assert s[..k] == s;
    }
  }

  lemma NoneBefore(s: string, sep: char, k: nat)
    requires k == Find(s, [sep], 0)
    ensures sep !in s[..k]
  {
    forall j | 0 <= j < k ensures s[j] != sep {
      assert s[j..][0] == s[j] && s[j..][..1] == [s[j]];
    }
  }

  // The tables behind the character classes

  /** The characters with the Unicode property White_Space. */
  const WHITE_SPACE := "\U{9}\U{A}\U{B}\U{C}\U{D}\U{20}\U{85}\U{A0}\U{1680}"
    + "\U{2000}\U{2001}\U{2002}\U{2003}\U{2004}\U{2005}\U{2006}\U{2007}\U{2008}\U{2009}\U{200A}"
    + "\U{2028}\U{2029}\U{202F}\U{205F}\U{3000}"
  const UPPER_CASE := "ABCDEFGHIJKLMNOPQRSTUVWXYZ"
  const LOWER_CASE := "abcdefghijklmnopqrstuvwxyz"

  lemma SpacesAreListed(c: char)
    ensures IsSpace(c) <==> c in WHITE_SPACE
  {
  }

  /** Folding takes each capital letter to the small one at its place, and
      keeps every other character. */
  lemma LettersAreFolded(c: char, k: nat)
    ensures k < 26 ==> LowerChar(UPPER_CASE[k]) == LOWER_CASE[k]
    ensures c !in UPPER_CASE ==> LowerChar(c) == c
  {
    if 'A' <= c <= 'Z' { assert UPPER_CASE[c as int - 'A' as int] == c; }
  }

  /** Trimming takes white space off both ends, all of it and nothing else. */
  lemma TrimTakesSpaces(s: string) returns (lead: string, trail: string)
    ensures s == lead + Trim(s) + trail && AllSpace(lead) && AllSpace(trail) && IsTrimmed(Trim(s))
  {
    var t := TrimStart(s);
    var u := TrimEnd(t);
    lead := StartSpaces(s);
    trail := EndSpaces(t);
    ThreeParts(s, lead, t, u, trail);
    assert u == Trim(s);
  }

  lemma ThreeParts(s: string, lead: string, t: string, u: string, trail: string)
    requires s == lead + t && t == u + trail
    ensures s == lead + u + trail
  {
  }

  lemma {:induction false} StartSpaces(s: string) returns (lead: string)
    ensures s == lead + TrimStart(s) && AllSpace(lead)
  {
    if s != "" && IsSpace(s[0]) {
      var more := StartSpaces(s[1..]);
      lead := [s[0]] + more;
    } else {
      lead := "";
    }
  }

  lemma {:induction false} EndSpaces(s: string) returns (trail: string)
    ensures s == TrimEnd(s) + trail && AllSpace(trail)
  {
    if s != "" && IsSpace(s[|s| - 1]) {
      var more := EndSpaces(s[..|s| - 1]);
      trail := more + [s[|s| - 1]];
    } else {
      trail := "";
    }
  }
}
