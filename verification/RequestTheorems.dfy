/** What the token sources answer for a request, from the way the request was
    written (src/extractor.rs:89-143). */
module RequestTheorems {
  import opened Prelude
  import opened Strings
  import Utf8
  import opened Extractor
  import opened ExtractorTheorems
  import opened CookieTheorems
  import opened Spelling

  /** An Authorization value, some query pairs behind any number of question
      marks, and the parts of a Cookie header. */
  datatype Request = Request(auth: Option<string>, marks: nat, pairs: seq<Pair>, cookies: Option<seq<CookiePart>>) {

    predicate WellFormed() {
      && AllWritten(pairs) && (pairs != [] && pairs[0].key != [] ==> pairs[0].key[0] != Literal('?'))
      && (cookies.Some? ==> cookies.value != [] && AllWellFormed(cookies.value))
    }

    function QueryText(): string {
      Marks(marks) + Query(pairs)
    }

    function CookieText(): Option<string>
      requires WellFormed()
    {
      if cookies.Some? then Some(Join(Texts(cookies.value, PartText), ';')) else None
    }

    /** The token behind the Bearer scheme, the first parameter or cookie with
        the name and a value. */
    function Token(src: TokenSourceKind): Option<string> {
      match src
      case AuthorizationHeader =>
        if auth.Some? && |auth.value| >= 7 && Lower(auth.value[..7]) == "bearer " && Trim(auth.value[7..]) != ""
        then Some(Trim(auth.value[7..])) else None
      case QueryParam(name) => FirstValue(pairs, name)
      case Cookie(name) => if cookies.Some? then FirstCookieValue(cookies.value, name) else None
    }
  }

  /** Each source answers with its own token of the request. */
  lemma SourceAnswers(src: TokenSourceKind, q: Request)
    requires q.WellFormed()
    ensures Answer(src, q.auth, q.CookieText(), q.QueryText()) == q.Token(src)
  {
    match src
    case AuthorizationHeader => if q.auth.Some? { BearerMeaning(q.auth.value); }
    case QueryParam(name) => QueryRoundTrip(q.pairs, name, q.marks);
    case Cookie(name) => if q.cookies.Some? { CookieRoundTrip(q.cookies.value, name); }
  }

  /** So the search over the sources returns the token of the first source in
      order whose token the request has, and nothing when it has none. */
  lemma FirstSourceWins(sources: seq<TokenSourceKind>, q: Request, k: nat)
    requires q.WellFormed() && k <= |sources|
    requires forall j :: 0 <= j < k ==> q.Token(sources[j]).None?
    requires k < |sources| ==> q.Token(sources[k]).Some?
    ensures FirstSome(Answers(sources, q.auth, q.CookieText(), q.QueryText()))
            == if k < |sources| then q.Token(sources[k]) else None
  {
    var answers := Answers(sources, q.auth, q.CookieText(), q.QueryText());
    forall j | 0 <= j < |sources| ensures answers[j] == q.Token(sources[j]) {
      SourceAnswers(sources[j], q);
    }
    FirstIs(answers, k);
  }

  lemma FirstIs(answers: seq<Option<string>>, k: nat)
    requires k <= |answers| && forall j :: 0 <= j < k ==> answers[j].None?
    requires k < |answers| ==> answers[k].Some?
    ensures FirstSome(answers) == if k < |answers| then answers[k] else None
  {
    var r := FirstSome(answers);
    if r.Some? {
      var m :| 0 <= m < |answers| && answers[m] == r && forall j :: 0 <= j < m ==> answers[j].None?;
      assert m == k;
    }
  }

  /** Over header values in octets the same holds of the text they carry; a
      value that is not visible text counts as missing. */
  lemma HeadersCarryText(s: string)
    requires IsVisible(s)
    ensures HeaderText(Some(Utf8.Encode(s))) == Some(s)
  {
    ConvertsIffVisible(Utf8.Encode(s), s);
  }

}
