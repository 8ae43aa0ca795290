/**
 * The request side of the news client: the `Router.news` endpoint description
 * and the parser that pulls the API credential out of the `.env` file.
 */
module Api {
  import opened Wrappers
  import opened Text

  datatype HttpMethod = Get

  /** The one endpoint of the service; the page defaults to the first. */
  datatype Router = News(query: string, page: int := 1)

  datatype ParamValue = StringParam(text: string) | IntParam(number: int)

  /** A request before URL encoding: method, absolute URL and the query
      parameters that get encoded into it. */
  datatype HttpRequest = HttpRequest(httpMethod: HttpMethod, url: string, parameters: map<string, ParamValue>)

  const BaseUrl: string := "https://newsapi.org/"
  const PageSize: int := 15
  const ApiKeyName: string := "API_KEY"

  function Path(r: Router): (path: string) {
    match r
    case News(_, _) => "v2/everything"
  }

  function Method(r: Router): (m: HttpMethod) {
    match r
    case News(_, _) => Get
  }

  /** The query parameters of a route; `apiKey` is the credential loaded at
      start-up, and a missing credential is sent as the empty string. */
  function Parameters(r: Router, apiKey: Option<string>): (m: map<string, ParamValue>)
    ensures m.Keys == {"q", "page", "pageSize", "apiKey"}
    ensures m["pageSize"] == IntParam(PageSize)
    ensures apiKey.None? ==> m["apiKey"] == StringParam("")
  {
    match r
    case News(query, page) =>
      map["q" := StringParam(query),
          "page" := IntParam(page),
          "pageSize" := IntParam(PageSize),
          "apiKey" := StringParam(apiKey.GetOr(""))]
  }

  /** The request a route describes, URL encoding aside. */
  function BuildRequest(r: Router, apiKey: Option<string>): (req: HttpRequest)
    ensures req.httpMethod == Get
    ensures req.url == "https://newsapi.org/v2/everything"
    ensures req.parameters.Keys == {"q", "page", "pageSize", "apiKey"}
  {
    HttpRequest(Method(r), BaseUrl + Path(r), Parameters(r, apiKey))
  }

  /** Reads the route back out of a request's parameters. */
  function RouteOf(req: HttpRequest): (r: Option<Router>) {
    var p := req.parameters;
    if "q" in p && p["q"].StringParam? && "page" in p && p["page"].IntParam?
    then Some(News(p["q"].text, p["page"].number))
    else None
  }

  /** Reads the credential back out of a request's parameters. */
  function ApiKeyOf(req: HttpRequest): (key: Option<string>) {
    var p := req.parameters;
    if "apiKey" in p && p["apiKey"].StringParam? then Some(p["apiKey"].text) else None
  }

  /** The request carries its route: query and page survive encoding into
      parameters, whatever the credential. */
  lemma RequestCarriesRoute(r: Router, apiKey: Option<string>)
    ensures RouteOf(BuildRequest(r, apiKey)) == Some(r)
  {
  }

  /** The request carries the loaded credential, or the empty string when
      none was loaded. */
  lemma RequestCarriesApiKey(r: Router, apiKey: Option<string>)
    ensures ApiKeyOf(BuildRequest(r, apiKey)) == Some(apiKey.GetOr(""))
    ensures apiKey.Some? ==> ApiKeyOf(BuildRequest(r, apiKey)) == apiKey
  {
  }

  /** Two routes give the same request (for one credential) exactly when
      they are the same route. */
  lemma RequestIsInjective(r1: Router, r2: Router, apiKey: Option<string>)
    ensures BuildRequest(r1, apiKey) == BuildRequest(r2, apiKey) <==> r1 == r2
  {
    if BuildRequest(r1, apiKey) == BuildRequest(r2, apiKey) {
      RequestCarriesRoute(r1, apiKey);
      RequestCarriesRoute(r2, apiKey);
    }
  }

  /** `.news(query:)` without a page asks for the first page. */
  function NewsFirstPage(query: string): (r: Router)
    ensures r.query == query && r.page == 1
    ensures RouteOf(BuildRequest(r, None)) == Some(News(query, 1))
  {
    News(query)
  }

  // ---------------------------------------------------------------------
  // The `.env` credential parser

  /** The lines of the file: its pieces between line feeds, blank lines
      omitted. */
  function Lines(contents: string): (lines: seq<string>)
    ensures forall i :: 0 <= i < |lines| ==> lines[i] != [] && '\n' !in lines[i]
  {
    SplitPieces(contents, '\n');
    Split(contents, '\n')
  }

  /** One line of the file: it is a credential line when splitting it at
      `=` leaves exactly two pieces and the first one, trimmed, is
      `API_KEY`; its value is the second piece, trimmed. */
  function MatchLine(line: string): (v: Option<string>)
    ensures v.Some? ==> Trimmed(v.value)
  {
    var kv := Split(line, '=');
    if |kv| == 2 && Trim(kv[0]) == ApiKeyName then Some(Trim(kv[1])) else None
  }

  /** What each line of the file yields, in order. */
  function Matches(lines: seq<string>): (ms: seq<Option<string>>)
    ensures |ms| == |lines|
  {
    if lines == [] then [] else [MatchLine(lines[0])] + Matches(lines[1..])
  }

  lemma {:induction false} MatchesAt(lines: seq<string>, i: nat)
    requires i < |lines|
    ensures Matches(lines)[i] == MatchLine(lines[i])
  {
    if i > 0 {
      MatchesAt(lines[1..], i - 1);
    }
  }

  /** The first present value of `ms`, if any. */
  function FirstSome(ms: seq<Option<string>>): (r: Option<string>) {
    if ms == [] then None
    else if ms[0].Some? then ms[0]
    else FirstSome(ms[1..])
  }

  lemma {:induction false} FirstSomeWins(ms: seq<Option<string>>, i: nat)
    requires i < |ms| && ms[i].Some?
    requires forall j :: 0 <= j < i ==> ms[j].None?
    ensures FirstSome(ms) == ms[i]
  {
    if i > 0 {
      assert ms[0].None?;
      FirstSomeWins(ms[1..], i - 1);
    }
  }

  lemma {:induction false} FirstSomeFound(ms: seq<Option<string>>)
    requires FirstSome(ms).Some?
    ensures exists i :: 0 <= i < |ms| && ms[i] == FirstSome(ms)
                        && forall j :: 0 <= j < i ==> ms[j].None?
  {
    if ms[0].None? {
      FirstSomeFound(ms[1..]);
      var i :| 0 <= i < |ms[1..]| && ms[1..][i] == FirstSome(ms[1..])
               && forall j :: 0 <= j < i ==> ms[1..][j].None?;
      assert ms[i + 1] == FirstSome(ms);
      forall j | 0 <= j < i + 1 ensures ms[j].None? {
        if j > 0 { assert ms[j] == ms[1..][j - 1]; }
      }
    } else {
      assert ms[0] == FirstSome(ms);
    }
  }

  lemma {:induction false} FirstSomeAbsent(ms: seq<Option<string>>)
    ensures FirstSome(ms).None? <==> forall j :: 0 <= j < |ms| ==> ms[j].None?
  {
    if ms != [] {
      FirstSomeAbsent(ms[1..]);
      if FirstSome(ms).None? {
        forall j | 0 <= j < |ms| ensures ms[j].None? {
          if j > 0 { assert ms[j] == ms[1..][j - 1]; }
        }
      }
    }
  }

  /** The credential the file's lines yield: the value of the first
      credential line, if any. */
  function FindKey(lines: seq<string>): (k: Option<string>)
    ensures k.Some? ==> Trimmed(k.value)
  {
    var ms := Matches(lines);
    if FirstSome(ms).Some? then
      FirstSomeFound(ms);
      var i :| 0 <= i < |ms| && ms[i] == FirstSome(ms);
      MatchesAt(lines, i);
      FirstSome(ms)
    else FirstSome(ms)
  }

  /** The first credential line decides, whatever follows it. */
  lemma FirstMatchWins(lines: seq<string>, i: nat)
    requires i < |lines| && MatchLine(lines[i]).Some?
    requires forall j :: 0 <= j < i ==> MatchLine(lines[j]).None?
    ensures FindKey(lines) == MatchLine(lines[i])
  {
    var ms := Matches(lines);
    forall j | 0 <= j < i ensures ms[j].None? {
      MatchesAt(lines, j);
    }
    MatchesAt(lines, i);
    FirstSomeWins(ms, i);
  }

  /** A credential found in the lines comes from a credential line with
      none before it. */
  lemma FoundKeyComesFromFirstMatch(lines: seq<string>)
    requires FindKey(lines).Some?
    ensures exists i :: 0 <= i < |lines| && MatchLine(lines[i]) == FindKey(lines)
                        && forall j :: 0 <= j < i ==> MatchLine(lines[j]).None?
    ensures Trimmed(FindKey(lines).value)
  {
    var ms := Matches(lines);
    FirstSomeFound(ms);
    var i :| 0 <= i < |ms| && ms[i] == FirstSome(ms) && forall j :: 0 <= j < i ==> ms[j].None?;
    MatchesAt(lines, i);
    forall j | 0 <= j < i ensures MatchLine(lines[j]).None? {
      MatchesAt(lines, j);
    }
  }

  /** The lines yield nothing exactly when none of them is a credential
      line. */
  lemma NoMatchIsNone(lines: seq<string>)
    ensures FindKey(lines).None? <==> forall j :: 0 <= j < |lines| ==> MatchLine(lines[j]).None?
  {
    var ms := Matches(lines);
    FirstSomeAbsent(ms);
    forall j | 0 <= j < |lines| ensures ms[j] == MatchLine(lines[j]) {
      MatchesAt(lines, j);
    }
  }

  /** `API.loadAPIKey`, with the file read abstracted: `file` is the text of
      the `.env` resource, or nothing when the resource is missing or cannot
      be read. Scans the lines in order and returns the value of the first
      credential line; a missing file and a file without one both give
      nothing. */
  method LoadApiKey(file: Option<string>) returns (key: Option<string>)
    ensures file.None? ==> key.None?
    ensures file.Some? ==> key == FindKey(Lines(file.value))
    ensures key.Some? ==> Trimmed(key.value)
  {
    if file.None? {
      return None;
    }
    var lines := Lines(file.value);
    ghost var ms := Matches(lines);
    var i := 0;
    while i < |lines|
      invariant 0 <= i <= |lines|
      invariant forall j :: 0 <= j < i ==> ms[j].None?
    {
      var v := MatchLine(lines[i]);
      MatchesAt(lines, i);
      if v.Some? {
        key := v;
        FirstSomeWins(ms, i);
        FoundKeyComesFromFirstMatch(lines);
        return;
      }
      i := i + 1;
    }
    key := None;
    FirstSomeAbsent(ms);
  }

  // ---------------------------------------------------------------------
  // What the parser does to particular line shapes

  /** A line `k=v` whose key trims to `API_KEY` yields its value trimmed,
      however much whitespace surrounds the key. */
  lemma KeyValueLine(k: string, v: string)
    requires k != [] && v != [] && '=' !in k && '=' !in v
    requires Trim(k) == ApiKeyName
    ensures MatchLine(k + "=" + v) == Some(Trim(v))
  {
    var line := k + "=" + v;
    SplitAtSeparator(k, '=', v);
    SplitSinglePiece(k, '=');
    SplitSinglePiece(v, '=');
    assert line == k + ['='] + v;
    var kv := Split(line, '=');
    assert kv == [k, v];
    assert MatchLine(line) == Some(Trim(kv[1]));
  }

  /** A line without `=` is never a credential line. */
  lemma LineWithoutSeparator(line: string)
    requires '=' !in line
    ensures MatchLine(line).None?
  {
    SplitAtMostOnePiece(line, '=');
  }

  /** A key with nothing after the `=` is one piece, so it is skipped. */
  lemma EmptyValueIgnored(k: string)
    requires '=' !in k
    ensures MatchLine(k + "=").None?
  {
    SplitAtSeparator(k, '=', []);
    SplitAtMostOnePiece(k, '=');
    assert k + "=" == k + ['='] + [];
  }

  /** Three or more non-empty pieces make the line ambiguous, so it is
      skipped. */
  lemma ThreePiecesIgnored(a: string, b: string, c: string)
    requires a != [] && b != [] && c != []
    requires '=' !in a && '=' !in b && '=' !in c
    ensures MatchLine(a + "=" + b + "=" + c).None?
  {
    SplitJoin([a, b, c], '=');
    assert [a, b, c][1..] == [b, c] && [b, c][1..] == [c];
    assert Join([b, c], '=') == b + "=" + c;
    assert Join([a, b, c], '=') == a + "=" + (b + "=" + c);
    assert a + "=" + (b + "=" + c) == a + "=" + b + "=" + c;
  }

  /** Repeated separators collapse: `API_KEY==x` is the two pieces
      `API_KEY` and `x`. */
  lemma DoubledSeparatorCollapses(k: string, v: string)
    requires k != [] && v != [] && '=' !in k && '=' !in v
    requires Trim(k) == ApiKeyName
    ensures MatchLine(k + "==" + v) == Some(Trim(v))
  {
    assert k + "==" + v == k + ['='] + ("=" + v);
    assert "=" + v == [] + ['='] + v;
    SplitAtSeparator(k, '=', "=" + v);
    SplitAtSeparator([], '=', v);
    SplitAtMostOnePiece(k, '=');
    SplitAtMostOnePiece(v, '=');
  }

  lemma WhitespaceHasNoSeparator(w: string)
    requires AllWhitespace(w)
    ensures '=' !in w
  {
  }

  /** Whitespace around the key does not matter: `  API_KEY\t=v` is a
      credential line like `API_KEY=v`. */
  lemma PaddedKeyMatches(left: string, right: string, v: string)
    requires AllWhitespace(left) && AllWhitespace(right)
    requires v != [] && '=' !in v
    ensures MatchLine(left + ApiKeyName + right + "=" + v) == Some(Trim(v))
  {
    var k := left + ApiKeyName + right;
    assert Trimmed(ApiKeyName);
    TrimRemovesPadding(left, ApiKeyName, right);
    WhitespaceHasNoSeparator(left);
    WhitespaceHasNoSeparator(right);
    assert '=' !in ApiKeyName;
    KeyValueLine(k, v);
  }

  /** A file whose lines are written one per line feed yields the first
      credential line among them. */
  lemma {:induction false} FileOfLines(lines: seq<string>)
    requires forall i :: 0 <= i < |lines| ==> lines[i] != [] && '\n' !in lines[i]
    ensures FindKey(Lines(Join(lines, '\n'))) == FindKey(lines)
  {
    SplitJoin(lines, '\n');
  }
}
