/** The request line of an HTTP request, read as a method and a command. */
module TcpRequest {
  import opened Wrappers
  import opened Text
  import opened TcpCommand

  datatype RequestType = Get | Post | Del | Put

  datatype Request = Request(reqType: RequestType, command: Command)

  /** `Request::default()`: a `GET` of the main page. */
  const DefaultRequest := Request(Get, ShowMain)

  /** What the server falls back to when the connection sends no line at all. */
  const DefaultLine := "GET / HTTP/1.1"

  /** The method a normalised word names. */
  function ChooseType(word: string): (r: Result<RequestType, ()>)
    ensures r.Success? <==> word == "get" || word == "post" || word == "del" || word == "put"
    ensures r == Success(Get) <==> word == "get"
  {
    match word
    case "get" => Success(Get)
    case "post" => Success(Post)
    case "del" => Success(Del)
    case "put" => Success(Put)
    case _ => Failure(())
  }

  /** `RequestType::from_str`: lower-cased, then trimmed. */
  function ParseRequestType(s: string): Result<RequestType, ()> {
    ChooseType(Trim(ToLower(s)))
  }

  /** The method is recognised whatever its capitals and surrounding whitespace. */
  lemma ParseRequestTypeNormalised(w1: string, s: string, w2: string)
    requires IsBlank(w1) && IsBlank(w2)
    requires s == [] || (!IsWhitespace(s[0]) && !IsWhitespace(s[|s| - 1]))
    ensures ParseRequestType(w1 + s + w2) == ChooseType(ToLower(s))
    ensures ParseRequestType(ToLower(s)) == ParseRequestType(s)
  {
    assert forall c: char :: IsWhitespace(LowerChar(c)) == IsWhitespace(c);
    LowerTrimCommute(w1 + s + w2);
    TrimPadded(w1, s, w2);
    LowerTrimCommute(s);
    TrimUnpadded(s);
    LowerIdempotent(s);
    LowerTrimCommute(ToLower(s));
  }

  /** The first two tokens of a line, each with its default. */
  function MethodToken(tokens: seq<string>): string {
    if tokens == [] then "GET" else tokens[0]
  }

  function PathToken(tokens: seq<string>): string {
    if |tokens| < 2 then Slash else tokens[1]
  }

  /** `Server::parse_request`: the first token is the method (`GET` when the line is blank),
      the second the path (`/` when missing); further tokens, such as the protocol version, are
      ignored. Either part failing to parse fails the whole. */
  function ParseHttpRequest(line: string): (r: Result<Request, ()>)
    ensures var tokens := SplitWhitespace(line);
      && (r.Success? <==>
           ParseRequestType(MethodToken(tokens)).Success? && ParseCommand(PathToken(tokens)).Success?)
      && (r.Success? ==>
           r.value.reqType == ParseRequestType(MethodToken(tokens)).value
           && r.value.command == ParseCommand(PathToken(tokens)).value)
  {
    var tokens := SplitWhitespace(line);
    match ParseRequestType(MethodToken(tokens))
    case Failure(_) => Failure(())
    case Success(reqType) =>
      match ParseCommand(PathToken(tokens))
      case Failure(_) => Failure(())
      case Success(command) => Success(Request(reqType, command))
  }

  /** The request the server acts on for one connection: the line read (the default line when
      there is none), parsed, with the default request when parsing fails. */
  function RequestFor(line: Option<string>): (r: Request)
    ensures ParseHttpRequest(line.GetOr(DefaultLine)).Failure? ==> r == DefaultRequest
    ensures ParseHttpRequest(line.GetOr(DefaultLine)).Success? ==>
      r == ParseHttpRequest(line.GetOr(DefaultLine)).value
  {
    match ParseHttpRequest(line.GetOr(DefaultLine))
    case Success(request) => request
    case Failure(_) => DefaultRequest
  }

  /** The request of a line depends only on its tokens. */
  lemma HttpTokens(line: string, tokens: seq<string>)
    requires SplitWhitespace(line) == tokens
    ensures ParseHttpRequest(line) == 
      match ParseRequestType(MethodToken(tokens))
      case Failure(_) => Failure(())
      case Success(t) =>
        match ParseCommand(PathToken(tokens))
        case Failure(_) => Failure(())
        case Success(c) => Success(Request(t, c))
  {
  }

  /** A request line of words: the method word and the path word decide, the rest is ignored. */
  lemma ParseHttpLine(verb: string, path: string, rest: seq<string>)
    requires IsWord(verb) && IsWord(path) && forall k :: 0 <= k < |rest| ==> IsWord(rest[k])
    ensures var r := ParseHttpRequest(Join([verb, path] + rest, " "));
      && (r.Success? <==> ParseRequestType(verb).Success? && ParseCommand(path).Success?)
      && (r.Success? ==> r.value == Request(ParseRequestType(verb).value, ParseCommand(path).value))
  {
    var ws := [verb, path] + rest;
    WordList(verb, path, rest);
    SplitJoinedWords(ws);
    HttpTokens(Join(ws, " "), ws);
  }

  lemma WordList(verb: string, path: string, rest: seq<string>)
    requires IsWord(verb) && IsWord(path) && forall k :: 0 <= k < |rest| ==> IsWord(rest[k])
    ensures forall k :: 0 <= k < |[verb, path] + rest| ==> IsWord(([verb, path] + rest)[k])
  {
    var ws := [verb, path] + rest;
    forall k | 0 <= k < |ws| ensures IsWord(ws[k]) {
      if k >= 2 {
        assert ws[k] == rest[k - 2];
      }
    }
  }

  /** `GET` and `/` are the defaults: a blank line asks for the main page. */
  lemma ParseBlankLine(line: string)
    requires IsBlank(line)
    ensures ParseHttpRequest(line) == Success(DefaultRequest)
  {
    SplitBlankPrefix(line, []);
    assert line + [] == line;
    HttpTokens(line, []);
    DefaultsParse();
  }

  lemma DefaultsParse()
    ensures ParseRequestType("GET") == Success(Get)
    ensures ParseCommand(Slash) == Success(ShowMain)
  {
    DefaultMethodParses();
    DefaultPathParses();
  }

  lemma DefaultMethodParses()
    ensures ParseRequestType("GET") == Success(Get)
  {
    var lower := ToLower("GET");
    assert |lower| == 3 && lower[0] == 'g' && lower[1] == 'e' && lower[2] == 't';
    assert lower == "get";
    TrimUnpadded(lower);
  }

  lemma DefaultPathParses()
    ensures ParseCommand(Slash) == Success(ShowMain)
  {
    assert !Contains([], Slash);
    ParseRoot([], []);
    assert Slash + [] + [] == Slash;
  }

  /** A connection that sends no line is served the main page. */
  lemma RequestForMissingLine()
    ensures RequestFor(None) == DefaultRequest
  {
    DefaultLineWords();
    ParseHttpLine("GET", Slash, ["HTTP/1.1"]);
    DefaultsParse();
  }

  lemma DefaultLineWords()
    ensures IsWord("GET") && IsWord(Slash) && IsWord("HTTP/1.1")
    ensures Join(["GET", Slash] + ["HTTP/1.1"], " ") == DefaultLine
  {
    var ws := ["GET", Slash] + ["HTTP/1.1"];
    assert ws[1..] == [Slash, "HTTP/1.1"];
    assert ws[1..][1..] == ["HTTP/1.1"];
    assert Join(ws[1..], " ") == Slash + " " + "HTTP/1.1";
  }
}
