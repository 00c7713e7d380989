/** The cookie parser undoes every way of writing its input: parts with or
    without an equals sign, with white space around name and value and quotes
    around the value (src/extractor.rs:216-229). */
module CookieTheorems {
  import opened Prelude
  import opened Strings
  import opened Extractor
  import opened ExtractorTheorems
  import opened Spelling

  /** One part of a Cookie header. `front` and `back` count the quotes before
      and after the value. */
  datatype CookiePart =
    | Bare(text: string)
    | Baked(lead: string, name: string, left: string, right: string,
            front: nat, value: seq<Piece>, back: nat, trail: string)
  {
    /** No quote stands at an end of the value literally, and white space only
        between quotes; inside the value both may. */
    predicate WellFormed() {
      match this
      case Bare(text) => ';' !in text && '=' !in text
      case Baked(_, _, _, _, _, _, _, _) =>
        && AllSpace(lead) && AllSpace(left) && AllSpace(right) && AllSpace(trail)
        && ';' !in name && '=' !in name && IsTrimmed(name)
        && Written(value, {';'})
        && ValueEnds(front, Spelled(value), back)
    }
  }

  predicate ValueEnds(front: nat, v: string, back: nat) {
    v != "" ==> && v[0] != '"' && v[|v| - 1] != '"'
                && (front == 0 ==> !IsSpace(v[0])) && (back == 0 ==> !IsSpace(v[|v| - 1]))
  }

  function Quotes(n: nat): (s: string)
    ensures |s| == n
  {
    seq(n, _ => '"')
  }

  function Quoted(front: nat, v: string, back: nat): string {
    Quotes(front) + v + Quotes(back)
  }

  function PartText(c: CookiePart): string {
    match c
    case Bare(text) => text
    case Baked(lead, name, left, right, front, value, back, trail) =>
      (lead + name + left) + "=" + (right + Quoted(front, Spelled(value), back) + trail)
  }

  predicate AllWellFormed(cookies: seq<CookiePart>) {
    forall k :: 0 <= k < |cookies| ==> cookies[k].WellFormed()
  }

  function Holds(c: CookiePart, name: string): Option<string> {
    if c.Baked? && c.name == name && c.value != [] then Some(Value(c.value)) else None
  }

  /** The first non-empty value under the name. */
  function FirstCookieValue(cookies: seq<CookiePart>, name: string): Option<string> {
    FirstSome(seq(|cookies|, k requires 0 <= k < |cookies| => Holds(cookies[k], name)))
  }

  // Trimming

  lemma {:induction false} TrimStartStops(a: string, c: char, b: string)
    requires !IsSpace(c)
    ensures TrimStart(a + [c] + b) == TrimStart(a) + [c] + b
  {
    var t := a + [c] + b;
    if a == "" {
      assert t[0] == c && t == [c] + b;
    } else {
      assert t[0] == a[0] && t[1..] == a[1..] + [c] + b;
      TrimStartStops(a[1..], c, b);
    }
  }

  lemma {:induction false} TrimEndStops(a: string, c: char, b: string)
    requires !IsSpace(c)
    ensures TrimEnd(a + [c] + b) == a + [c] + TrimEnd(b)
  {
    var t := a + [c] + b;
    if b == "" {
      assert t[|t| - 1] == c && t == a + [c];
    } else {
      assert t[|t| - 1] == b[|b| - 1] && t[..|t| - 1] == a + [c] + b[..|b| - 1];
      TrimEndStops(a, c, b[..|b| - 1]);
    }
  }

  /** Trimming a part trims its name from the front and its value from the
      back, and leaves the sign between them. */
  lemma PartTrims(a: string, b: string)
    requires '=' !in a
    ensures KeyValue(Trim(a + "=" + b)) == (TrimStart(a), TrimEnd(b))
  {
    TrimStartStops(a, '=', b);
    TrimEndStops(TrimStart(a), '=', b);
    KeyComesFirst(TrimStart(a), TrimEnd(b));
  }

  lemma StartPadded(lead: string, s: string, trail: string)
    requires AllSpace(lead) && s != "" && IsTrimmed(s)
    ensures TrimStart(lead + s + trail) == s + trail
  {
    assert lead + s + trail == lead + (s + trail) && (s + trail)[0] == s[0];
    TrimStartPadded(lead, s + trail);
  }

  lemma EndPadded(lead: string, s: string, trail: string)
    requires AllSpace(trail) && s != "" && IsTrimmed(s)
    ensures TrimEnd(lead + s + trail) == lead + s
  {
    assert (lead + s)[|lead + s| - 1] == s[|s| - 1];
    TrimEndPadded(lead + s, trail);
  }

  lemma NoPadding(s: string, pad: string)
    requires AllSpace(pad) && s != "" && IsTrimmed(s)
    ensures Trim(s + pad) == s && Trim(pad + s) == s
  {
    assert "" + s + pad == s + pad && pad + s + "" == pad + s;
    TrimPadded("", s, pad);
    TrimPadded(pad, s, "");
  }

  /** White space about a bare text goes, in whichever order it is trimmed. */
  lemma PaddingGoes(lead: string, s: string, trail: string)
    requires AllSpace(lead) && AllSpace(trail) && IsTrimmed(s)
    ensures Trim(TrimStart(lead + s + trail)) == s
    ensures Trim(TrimEnd(lead + s + trail)) == s
  {
    if s == "" {
      assert AllSpace(lead + s + trail);
      AllSpaceTrims(lead + s + trail);
      assert Trim("") == "";
    } else {
      StartPadded(lead, s, trail);
      EndPadded(lead, s, trail);
      NoPadding(s, trail);
      NoPadding(s, lead);
    }
  }

  lemma {:induction false} QuotesGo(front: nat, v: string, back: nat)
    requires v != "" ==> v[0] != '"' && v[|v| - 1] != '"'
    ensures TrimQuotes(Quoted(front, v, back)) == v
    decreases front, back
  {
    var q := Quoted(front, v, back);
    if front > 0 {
      assert q[0] == '"' && q[1..] == Quoted(front - 1, v, back);
      QuotesGo(front - 1, v, back);
    } else if back > 0 {
      assert q == v + Quotes(back);
      assert q[|q| - 1] == '"';
      if v == "" {
        assert q[0] == '"' && q[1..] == Quoted(0, v, back - 1);
      } else {
        assert q[0] == v[0] && q[..|q| - 1] == Quoted(0, v, back - 1);
      }
      QuotesGo(0, v, back - 1);
    } else {
      assert q == v;
    }
  }

  // One part

  lemma BareSaysNothing(text: string, name: string)
    requires '=' !in text
    ensures CookieAnswer(text, name) == None
  {
    var t := Trim(text);
    assert '=' !in t;
    KeyComesFirst(t, "");
    assert Trim("") == "" && TrimQuotes("") == "";
  }

  lemma SidesComeApart(a: string, b: string, name: string, q: string, v: string)
    requires '=' !in a && Trim(TrimStart(a)) == name && Trim(TrimEnd(b)) == q && TrimQuotes(q) == v
    ensures CookiePair(a + "=" + b) == (name, v)
  {
    PartTrims(a, b);
  }

  lemma BakedComesApart(c: CookiePart)
    requires c.Baked? && c.WellFormed()
    ensures CookiePair(PartText(c)) == (c.name, Spelled(c.value))
  {
    var v := Spelled(c.value);
    var q := Quoted(c.front, v, c.back);
    var a, b := c.lead + c.name + c.left, c.right + q + c.trail;
    assert '=' !in a by { assert !IsSpace('='); }
    assert Trim(TrimStart(a)) == c.name by { PaddingGoes(c.lead, c.name, c.left); }
    assert Trim(TrimEnd(b)) == q by {
      QuotedIsTrimmed(c.front, v, c.back);
      PaddingGoes(c.right, q, c.trail);
    }
    assert TrimQuotes(q) == v by { QuotesGo(c.front, v, c.back); }
    SidesComeApart(a, b, c.name, q, v);
  }

  lemma QuotedIsTrimmed(front: nat, v: string, back: nat)
    requires v != "" ==> (front == 0 ==> !IsSpace(v[0])) && (back == 0 ==> !IsSpace(v[|v| - 1]))
    ensures IsTrimmed(Quoted(front, v, back))
  {
    var q := Quoted(front, v, back);
    if q != "" {
      assert q[0] == if front > 0 || v == "" then '"' else v[0];
      assert q[|q| - 1] == if back > 0 || v == "" then '"' else v[|v| - 1];
    }
  }

  lemma PairIsRead(part: string, own: string, value: seq<Piece>, name: string)
    requires CookiePair(part) == (own, Spelled(value)) && Written(value, {';'})
    ensures CookieAnswer(part, name) == if own == name && value != [] then Some(Value(value)) else None
  {
    SpelledEmpty(value);
    DecodeUndoesWriting(value, {';'});
  }

  lemma PartIsFound(c: CookiePart, name: string)
    requires c.WellFormed()
    ensures CookieAnswer(PartText(c), name) == Holds(c, name)
  {
    if c.Bare? {
      BareSaysNothing(c.text, name);
    } else {
      BakedComesApart(c);
      PairIsRead(PartText(c), c.name, c.value, name);
    }
  }

  lemma PartHoldsNoSeparator(c: CookiePart)
    requires c.WellFormed()
    ensures ';' !in PartText(c)
  {
    if c.Baked? { NoSeparatorInText(c.value, {';'}, ';'); }
  }

  // The header

  lemma PartsAreFound(cookies: seq<CookiePart>, name: string)
    requires AllWellFormed(cookies)
    ensures FirstSome(PartAnswers(Texts(cookies, PartText), name)) == FirstCookieValue(cookies, name)
  {
    var answers := PartAnswers(Texts(cookies, PartText), name);
    forall k | 0 <= k < |cookies| ensures answers[k] == Holds(cookies[k], name) {
      PartIsFound(cookies[k], name);
    }
    assert answers == seq(|cookies|, k requires 0 <= k < |cookies| => Holds(cookies[k], name));
  }

  /** The cookie round trip: the answer is the first non-empty value under the
      name, freed of white space, quotes and escapes. */
  lemma CookieRoundTrip(cookies: seq<CookiePart>, name: string)
    requires AllWellFormed(cookies) && cookies != []
    ensures FirstSome(CookieAnswers(Join(Texts(cookies, PartText), ';'), name)) == FirstCookieValue(cookies, name)
  {
    forall t | t in Texts(cookies, PartText) ensures ';' !in t {
      var k :| 0 <= k < |cookies| && t == PartText(cookies[k]);
      PartHoldsNoSeparator(cookies[k]);
    }
    SplitJoin(Texts(cookies, PartText), ';');
    PartsAreFound(cookies, name);
  }

  // Every header is written

  lemma {:induction false} OuterQuotes(q: string) returns (front: nat, back: nat)
    ensures q == Quoted(front, TrimQuotes(q), back)
    ensures var v := TrimQuotes(q); v != "" ==> v[0] != '"' && v[|v| - 1] != '"'
    ensures q != "" && q[0] != '"' ==> front == 0
    decreases |q|
  {
    if q != "" && q[0] == '"' {
      var f, b := OuterQuotes(q[1..]);
      front, back := f + 1, b;
      assert Quoted(front, TrimQuotes(q), back) == "\"" + Quoted(f, TrimQuotes(q), b);
    } else if q != "" && q[|q| - 1] == '"' {
      var f, b := OuterQuotes(q[..|q| - 1]);
      front, back := f, b + 1;
      assert Quoted(front, TrimQuotes(q), back) == Quoted(f, TrimQuotes(q), b) + "\"";
    } else {
      front, back := 0, 0;
      assert Quoted(0, q, 0) == q;
    }
  }

  lemma QuotedEnds(front: nat, v: string, back: nat)
    requires IsTrimmed(Quoted(front, v, back)) && v != ""
    ensures (front == 0 ==> !IsSpace(v[0])) && (back == 0 ==> !IsSpace(v[|v| - 1]))
  {
    var q := Quoted(front, v, back);
    assert front == 0 ==> q[0] == v[0];
    assert back == 0 ==> q[|q| - 1] == v[|v| - 1];
  }

  lemma QuotedIsSpelled(q: string) returns (front: nat, value: seq<Piece>, back: nat)
    requires IsTrimmed(q) && ';' !in q
    ensures Written(value, {';'}) && q == Quoted(front, Spelled(value), back)
    ensures ValueEnds(front, Spelled(value), back)
  {
    front, back := OuterQuotes(q);
    var v := TrimQuotes(q);
    NotWithin(Quotes(front), v, Quotes(back), ';');
    value := EveryTextIsSpelled(v, {';'});
    if v != "" { QuotedEnds(front, v, back); }
  }

  /** The value side of a part, taken apart. */
  lemma ValueIsSpelled(b: string)
    returns (right: string, front: nat, value: seq<Piece>, back: nat, trail: string)
    requires ';' !in b
    ensures AllSpace(right) && AllSpace(trail) && Written(value, {';'})
    ensures b == right + Quoted(front, Spelled(value), back) + trail
    ensures ValueEnds(front, Spelled(value), back)
  {
    right, trail := TrimTakesSpaces(b);
    NotWithin(right, Trim(b), trail, ';');
    front, value, back := QuotedIsSpelled(Trim(b));
  }

  lemma NotWithin(a: string, s: string, b: string, c: char)
    requires c !in a + s + b
    ensures c !in s
  {
    forall k | 0 <= k < |s| ensures s[k] != c {
      assert (a + s + b)[|a| + k] == s[k];
    }
  }

  lemma PartIsWritten(part: string) returns (c: CookiePart)
    requires ';' !in part
    ensures c.WellFormed() && PartText(c) == part
  {
    if '=' in part {
      var k := Find(part, "=", 0);
      NoneBefore(part, '=', k);
      assert k < |part| by { assert part[..|part|] == part; }
      assert part[k..][0] == '=' && part == part[..k] + "=" + part[k + 1..];
      var lead, left := TrimTakesSpaces(part[..k]);
      var name := Trim(part[..k]);
      assert forall c :: c in name ==> c in part[..k];
      var right, front, value, back, trail := ValueIsSpelled(part[k + 1..]);
      c := Baked(lead, name, left, right, front, value, back, trail);
    } else {
      c := Bare(part);
    }
  }

  lemma {:induction false} PartsAreWritten(parts: seq<string>) returns (cookies: seq<CookiePart>)
    requires forall t :: t in parts ==> ';' !in t
    ensures AllWellFormed(cookies) && Texts(cookies, PartText) == parts
  {
    if parts == [] {
      cookies := [];
    } else {
      var c := PartIsWritten(parts[0]);
      var more := PartsAreWritten(parts[1..]);
      cookies := [c] + more;
      assert Texts(cookies, PartText) == [PartText(c)] + Texts(more, PartText);
      assert parts == [parts[0]] + parts[1..];
    }
  }

  /** Nothing is left open by the round trip: every header whatever is a way of
      writing some parts, and is answered as they say. */
  lemma EveryHeaderIsRead(header: string, name: string) returns (cookies: seq<CookiePart>)
    ensures cookies != [] && AllWellFormed(cookies) && header == Join(Texts(cookies, PartText), ';')
    ensures FirstSome(CookieAnswers(header, name)) == FirstCookieValue(cookies, name)
  {
    JoinSplit(header, ';');
    cookies := PartsAreWritten(Split(header, ';'));
    CookieRoundTrip(cookies, name);
  }
}
