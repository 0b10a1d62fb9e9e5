/**
 cURL commands: the printer quotes every argument for the shell and puts each on its own line, the parser tokenises the
 text with a regular expression and walks over the tokens. What a printed command is parsed to is worked out for every
 request whose strings keep clear of quotes, and with it exactly when the parse is the request again.
 */
module Curl {
  import opened Options
  import opened Seqs
  import opened JsText

  datatype Header = Header(key: string, value: string, enabled: bool)

  datatype BodyMode = NoBody | Raw | GraphqlMultipart | OtherMode

  datatype Auth = NoAuth | Basic(username: string, password: string) | Bearer(token: string) | OtherAuth

  /** `verb` is missing only in a request parsed from a command that ends in `-X`. */
  datatype Request = Request(
    verb: Option<string>,
    url: string,
    headers: seq<Header>,
    bodyMode: BodyMode,
    body: string,
    auth: Auth
  )

  function EmptyRequest(): Request {
    Request(Some("GET"), "", [], NoBody, "", NoAuth)
  }

  // Printing.

  /** `value.replace(/'/g, "'\\''")`. */
  function QuoteQuotes(value: string): string {
    if value == "" then ""
    else (if value[0] == '\'' then ['\'', '\\', '\'', '\''] else [value[0]]) + QuoteQuotes(value[1..])
  }

  function ShellQuote(value: string): string {
    ['\''] + QuoteQuotes(value) + ['\'']
  }

  lemma {:induction false} QuotesStay(start: string, rest: string)
    requires '\'' !in start
    ensures QuoteQuotes(start + rest) == start + QuoteQuotes(rest)
  {
    if start == "" {
      assert start + rest == rest;
    } else {
      assert (start + rest)[1..] == start[1..] + rest && start[0] in start;
      assert forall c <- start[1..] :: c in start;
      QuotesStay(start[1..], rest);
    }
  }

  lemma QuoteAfter(start: string, rest: string)
    requires '\'' !in start
    ensures QuoteQuotes(start + ['\''] + rest) == start + ['\'', '\\', '\'', '\''] + QuoteQuotes(rest)
  {
    QuotesStay(start, ['\''] + rest);
    assert start + ['\''] + rest == start + (['\''] + rest) && (['\''] + rest)[1..] == rest;
  }

  lemma {:induction false} QuotesJoin(value: string)
    ensures QuoteQuotes(value) == Join(Split(value, ['\'']), ['\'', '\\', '\'', '\''])
    decreases |value|
  {
    var i := Find(value, ['\'']);
    FindChar(value, '\'');
    if i < 0 {
      QuotesStay(value, "");
      assert value + "" == value;
    } else {
      var start, rest := value[..i], value[i + 1..];
      QuoteAfter(start, rest);
      QuotesJoin(rest);
      assert value == start + ['\''] + rest;
    }
  }

  /** Quoted is what stands between the single quotes, with each of them closed, escaped and opened again. */
  lemma ShellQuoteJoins(value: string)
    ensures ShellQuote(value) == ['\''] + Join(Split(value, ['\'']), ['\'', '\\', '\'', '\'']) + ['\'']
  {
    QuotesJoin(value);
  }

  function EnabledHeaders(headers: seq<Header>): seq<Header> {
    if headers == [] then []
    else (if headers[0].enabled && !Blank(headers[0].key) then [headers[0]] else []) + EnabledHeaders(headers[1..])
  }

  predicate HasBody(request: Request) {
    request.bodyMode != NoBody && !Blank(request.body)
  }

  function MethodText(request: Request): string {
    request.verb.GetOr("undefined")
  }

  function HeaderText(header: Header): string {
    header.key + ": " + header.value
  }

  function HeaderParts(headers: seq<Header>): seq<string> {
    if headers == [] then [] else ["-H", ShellQuote(HeaderText(headers[0]))] + HeaderParts(headers[1..])
  }

  /** The arguments after `curl`. */
  function Arguments(request: Request): seq<string> {
    ["-X", ShellQuote(MethodText(request)), ShellQuote(request.url)]
    + HeaderParts(EnabledHeaders(request.headers))
    + (if HasBody(request) then ["--data-raw", ShellQuote(request.body)] else [])
  }

  /** Each argument on a line of its own. */
  function Lines(arguments: seq<string>): string {
    if arguments == [] then "" else [' ', '\\', '\n', ' ', ' '] + arguments[0] + Lines(arguments[1..])
  }

  function Printed(request: Request): string {
    "curl" + Lines(Arguments(request))
  }

  lemma {:induction false} HeaderPartsAppend(headers: seq<Header>, n: nat)
    requires n < |headers|
    ensures HeaderParts(headers[..n + 1]) == HeaderParts(headers[..n]) + ["-H", ShellQuote(HeaderText(headers[n]))]
  {
    assert headers[..n + 1][1..] == headers[1..][..n];
    if n > 0 {
      assert headers[..n][1..] == headers[1..][..n - 1];
      HeaderPartsAppend(headers[1..], n - 1);
    }
  }

  lemma {:induction false} LinesAppend(arguments: seq<string>, n: nat)
    requires n < |arguments|
    ensures Lines(arguments[..n + 1]) == Lines(arguments[..n]) + ([' ', '\\', '\n', ' ', ' '] + arguments[n])
  {
    assert arguments[..n + 1][1..] == arguments[1..][..n];
    if n > 0 {
      assert arguments[..n][1..] == arguments[1..][..n - 1];
      LinesAppend(arguments[1..], n - 1);
    }
  }

  lemma PartsAppend(start: seq<string>, headers: seq<Header>, n: nat)
    requires n < |headers|
    ensures start + HeaderParts(headers[..n + 1])
         == start + HeaderParts(headers[..n]) + ["-H", ShellQuote(HeaderText(headers[n]))]
  {
    HeaderPartsAppend(headers, n);
    ConcatAssociates(start, HeaderParts(headers[..n]), ["-H", ShellQuote(HeaderText(headers[n]))]);
  }

  method CollectParts(request: Request) returns (parts: seq<string>)
    ensures parts == ["curl"] + Arguments(request)
  {
    parts := ["curl", "-X", ShellQuote(MethodText(request)), ShellQuote(request.url)];
    ghost var start := parts;
    var headers := EnabledHeaders(request.headers);
    for n := 0 to |headers|
      invariant parts == start + HeaderParts(headers[..n])
    {
      PartsAppend(start, headers, n);
      parts := parts + ["-H", ShellQuote(HeaderText(headers[n]))];
    }
    assert headers[..|headers|] == headers;
    if HasBody(request) {
      parts := parts + ["--data-raw", ShellQuote(request.body)];
    }
  }

  /** The first parts, each after the first on a line of its own. */
  ghost function Folded(parts: seq<string>, n: nat): string
    requires n <= |parts|
  {
    if n == 0 then "" else parts[0] + Lines(parts[1..][..n - 1])
  }

  lemma FoldedNext(parts: seq<string>, n: nat)
    requires n < |parts|
    ensures Folded(parts, n + 1)
         == if n == 0 then parts[0] else Folded(parts, n) + ([' ', '\\', '\n', ' ', ' '] + parts[n])
  {
    if n == 0 {
      assert parts[0] + Lines([]) == parts[0];
    } else {
      LinesAppend(parts[1..], n - 1);
      ConcatAssociates(parts[0], Lines(parts[1..][..n - 1]), [' ', '\\', '\n', ' ', ' '] + parts[n]);
    }
  }

  lemma {:induction false} LinesJoinParts(parts: seq<string>)
    requires parts != []
    ensures Join(parts, [' ', '\\', '\n', ' ', ' ']) == parts[0] + Lines(parts[1..])
  {
    if |parts| == 1 {
      assert parts[0] + Lines([]) == parts[0];
    } else {
      LinesJoinParts(parts[1..]);
      ConcatAssociates(parts[0], [' ', '\\', '\n', ' ', ' '], Join(parts[1..], [' ', '\\', '\n', ' ', ' ']));
      LinesFrom(parts[1..]);
    }
  }

  lemma LinesFrom(arguments: seq<string>)
    requires arguments != []
    ensures Lines(arguments) == [' ', '\\', '\n', ' ', ' '] + (arguments[0] + Lines(arguments[1..]))
  {
  }

  method FoldParts(parts: seq<string>) returns (text: string)
    requires parts != []
    ensures text == parts[0] + Lines(parts[1..])
    ensures text == Join(parts, [' ', '\\', '\n', ' ', ' '])
  {
    text := "";
    for index := 0 to |parts|
      invariant text == Folded(parts, index)
    {
      FoldedNext(parts, index);
      text := if index == 0 then parts[index] else text + ([' ', '\\', '\n', ' ', ' '] + parts[index]);
    }
    assert parts[1..][..|parts| - 1] == parts[1..];
    LinesJoinParts(parts);
  }

  /** The arguments of one header: those with a name that are switched on. */
  function PartsOfHeader(h: Header): seq<string> {
    if h.enabled && !Blank(h.key) then ["-H", ShellQuote(h.key + ": " + h.value)] else []
  }

  lemma {:induction false} HeaderPartsOfEach(headers: seq<Header>)
    ensures HeaderParts(EnabledHeaders(headers)) == FlatMap(PartsOfHeader, headers)
  {
    if headers != [] {
      HeaderPartsOfEach(headers[1..]);
      var more := EnabledHeaders(headers[1..]);
      assert headers[0].enabled && !Blank(headers[0].key) ==> ([headers[0]] + more)[1..] == more;
      assert [] + more == more && [] + HeaderParts(more) == HeaderParts(more);
    }
  }

  lemma PartsOf(request: Request, parts: seq<string>)
    requires parts == ["curl"] + Arguments(request)
    ensures parts == ["curl", "-X", ShellQuote(MethodText(request)), ShellQuote(request.url)]
      + HeaderParts(EnabledHeaders(request.headers))
      + (if HasBody(request) then ["--data-raw", ShellQuote(request.body)] else [])
  {
  }

  method GenerateCurl(request: Request) returns (text: string)
    requires request.bodyMode != GraphqlMultipart
    ensures text == Printed(request)
    ensures text == Join(
      ["curl", "-X", ShellQuote(request.verb.GetOr("undefined")), ShellQuote(request.url)]
      + FlatMap(PartsOfHeader, request.headers)
      + (if request.bodyMode != NoBody && !Blank(request.body) then ["--data-raw", ShellQuote(request.body)] else []),
      [' ', '\\', '\n', ' ', ' '])
  {
    var parts := CollectParts(request);
    text := FoldParts(parts);
    HeaderPartsOfEach(request.headers);
    PartsOf(request, parts);
    assert parts[0] == "curl" && parts[1..] == Arguments(request);
  }

  // Tokenising.

  /** `command.replace(/\\\r?\n/g, " ")`. */
  function JoinLines(s: string): string {
    if s == "" then ""
    else if |s| > 1 && s[0] == '\\' && s[1] == '\n' then [' '] + JoinLines(s[2..])
    else if |s| > 2 && s[0] == '\\' && s[1] == '\r' && s[2] == '\n' then [' '] + JoinLines(s[3..])
    else [s[0]] + JoinLines(s[1..])
  }

  /** What `.` does not match. */
  predicate LineTerminator(c: char) {
    c == '\n' || c == '\r' || c == '\U{2028}' || c == '\U{2029}'
  }

  /** How many characters `(?:[^q\\]|\\.)*q` matches at the start of `s`, or zero if it does not match. */
  function Closing(s: string, q: char): (n: nat)
    ensures n <= |s|
  {
    if s == "" then 0
    else if s[0] == q then 1
    else if s[0] != '\\' then
      var n := Closing(s[1..], q);
      if n == 0 then 0 else n + 1
    else if |s| > 1 && !LineTerminator(s[1]) then
      var n := Closing(s[2..], q);
      if n == 0 then 0 else n + 2
    else 0
  }

  predicate WordChar(c: char) {
    !IsSpace(c) && c != '"' && c != '\''
  }

  function WordLength(s: string): (n: nat)
    ensures n <= |s|
  {
    if s != "" && WordChar(s[0]) then 1 + WordLength(s[1..]) else 0
  }

  /** The length of the match that `/"(?:[^"\\]|\\.)*"|'(?:[^'\\]|\\.)*'|[^\s"']+/` finds at the start of `s`. */
  function MatchLength(s: string): (n: nat)
    requires s != ""
    ensures n <= |s|
  {
    if s[0] == '"' || s[0] == '\'' then
      var n := Closing(s[1..], s[0]);
      if n == 0 then 0 else n + 1
    else WordLength(s)
  }

  /** All matches from the left; a character where nothing matches is passed over. */
  function Matches(s: string): seq<string>
    decreases |s|
  {
    if s == "" then []
    else
      var n := MatchLength(s);
      if n == 0 then Matches(s[1..]) else [s[..n]] + Matches(s[n..])
  }

  function StripQuotes(value: string): string {
    if |value| >= 2 && (value[0] == '"' || value[0] == '\'') && Last(value) == value[0] then
      Unescape(Unescape(value[1..|value| - 1], '"', '"'), '\'', '\'')
    else value
  }

  function StripAll(tokens: seq<string>): seq<string> {
    seq(|tokens|, i requires 0 <= i < |tokens| => StripQuotes(tokens[i]))
  }

  function Tokens(command: string): seq<string> {
    StripAll(Matches(JoinLines(command)))
  }

  // Parsing.

  /** The options that take a value and mean nothing here. */
  predicate ValueFlagName(token: string) {
    || token == "-o" || token == "--output" || token == "-A" || token == "--user-agent"
    || token == "-e" || token == "--referer" || token == "-m" || token == "--max-time" || token == "--connect-timeout"
    || token == "-F" || token == "--form" || token == "--form-string" || token == "-x" || token == "--proxy"
    || token == "--cert" || token == "--key" || token == "--cacert" || token == "-c" || token == "--cookie-jar"
    || token == "--limit-rate" || token == "--retry" || token == "--resolve" || token == "--interface"
    || token == "--data-urlencode"
  }

  datatype Kind = MethodFlag | HeaderFlag | DataFlag | UserFlag | ValueFlag | Address | Ignored

  predicate Dashed(token: string) { token != "" && token[0] == '-' }

  function KindOf(token: string): Kind {
    if token == "-X" || token == "--request" then MethodFlag
    else if token == "-H" || token == "--header" then HeaderFlag
    else if token == "-d" || token == "--data" || token == "--data-raw" || token == "--data-binary" then DataFlag
    else if token == "-u" || token == "--user" then UserFlag
    else if ValueFlagName(token) then ValueFlag
    else if !Dashed(token) then Address
    else Ignored
  }

  /** The header a `-H` argument stands for: none without a colon. */
  function ReadHeader(raw: string): seq<Header> {
    var colon := Find(raw, ":");
    if colon == -1 then [] else [Header(Trim(raw[..colon]), Trim(raw[colon + 1..]), true)]
  }

  function ReadUser(credentials: string): Auth {
    var colon := Find(credentials, ":");
    if colon == -1 then Basic(credentials, "") else Basic(credentials[..colon], credentials[colon + 1..])
  }

  /** What one option does to the request; `argument` is the token after it, if there is one. */
  function Apply(kind: Kind, token: string, argument: Option<string>, request: Request): Request {
    match kind
    case MethodFlag => request.(verb := if argument.Some? then Some(Upper(argument.value)) else None)
    case HeaderFlag => request.(headers := request.headers + ReadHeader(argument.GetOr("")))
    case DataFlag => request.(
      verb := if request.verb == Some("GET") then Some("POST") else request.verb,
      bodyMode := Raw,
      body := argument.GetOr("")
    )
    case UserFlag => request.(auth := ReadUser(argument.GetOr("")))
    case ValueFlag => request
    case Address => request.(url := token)
    case Ignored => request
  }

  function Argument(tokens: seq<string>): Option<string>
    requires tokens != []
  {
    if |tokens| > 1 then Some(tokens[1]) else None
  }

  /** The tokens left after the first and, for an option with a value, its value. */
  function Remaining(tokens: seq<string>): (rest: seq<string>)
    requires tokens != []
    ensures |rest| < |tokens|
  {
    if KindOf(tokens[0]).Address? || KindOf(tokens[0]).Ignored? then tokens[1..]
    else if |tokens| > 1 then tokens[2..]
    else []
  }

  function Walk(tokens: seq<string>, request: Request): Request
    decreases |tokens|
  {
    if tokens == [] then request
    else Walk(Remaining(tokens), Apply(KindOf(tokens[0]), tokens[0], Argument(tokens), request))
  }

  /** `headers.findIndex` for the authorization header. */
  function FindAuthorization(headers: seq<Header>): (r: int)
    ensures -1 <= r < |headers|
  {
    if headers == [] then -1
    else if Lower(headers[0].key) == "authorization" then 0
    else
      var rest := FindAuthorization(headers[1..]);
      if rest < 0 then -1 else rest + 1
  }

  predicate BearerFirst(headers: seq<Header>) {
    var index := FindAuthorization(headers);
    index != -1 && StartsWith(Lower(headers[index].value), "bearer ")
  }

  /** A bearer authorization header becomes the request's authentication. */
  function TakeBearer(request: Request): Request {
    if !BearerFirst(request.headers) then request
    else
      var index := FindAuthorization(request.headers);
      request.(
        auth := Bearer(request.headers[index].value[7..]),
        headers := request.headers[..index] + request.headers[index + 1..]
      )
  }

  function Parsed(command: string): Option<Request> {
    var tokens := Tokens(command);
    if tokens == [] || Lower(tokens[0]) != "curl" then None
    else Some(TakeBearer(Walk(tokens[1..], EmptyRequest())))
  }

  lemma WalkOne(tokens: seq<string>, i: nat, request: Request)
    requires i < |tokens|
    ensures var kind := KindOf(tokens[i]);
      var argument := if i + 1 < |tokens| then Some(tokens[i + 1]) else None;
      var next := if kind.Address? || kind.Ignored? then i + 1 else i + 2;
      Walk(tokens[i..], request)
      == Walk(if next < |tokens| then tokens[next..] else [], Apply(kind, tokens[i], argument, request))
  {
    var rest := tokens[i..];
    assert rest[1..] == tokens[i + 1..];
    assert |rest| > 1 ==> rest[2..] == tokens[i + 2..];
  }

  /** A name without a colon and a password with any come apart at the first colon. */
  lemma UserSplits(username: string, password: string)
    requires ':' !in username
    ensures ReadUser(username + ":" + password) == Basic(username, password)
  {
    var credentials := username + [':'] + password;
    FindCharAfter(username, ':', password);
    assert credentials[..|username|] == username && credentials[|username| + 1..] == password;
  }

  lemma ValueIsPassedOver(flag: string, value: string, rest: seq<string>, request: Request)
    requires KindOf(flag) == ValueFlag
    ensures Walk([flag, value] + rest, request) == Walk(rest, request)
  {
    assert ([flag, value] + rest)[2..] == rest;
  }

  lemma ValueFlagKind(flag: string)
    requires ValueFlagName(flag)
    ensures KindOf(flag) == ValueFlag
  {
  }

  /** An option with a value that means nothing here takes its value with it, whatever that looks like. */
  lemma ValueFlagsTakeTheirValue(flag: string, value: string, rest: seq<string>, request: Request)
    requires ValueFlagName(flag)
    ensures Walk([flag, value] + rest, request) == Walk(rest, request)
  {
    ValueFlagKind(flag);
    ValueIsPassedOver(flag, value, rest, request);
  }

  /** One pass through the chain of option names. */
  method ApplyOption(kind: Kind, token: string, argument: Option<string>, request: Request) returns (next: Request)
    ensures next == Apply(kind, token, argument, request)
  {
    next := request;
    match kind {
      case MethodFlag =>
        next := next.(verb := if argument.Some? then Some(Upper(argument.value)) else None);
      case HeaderFlag =>
        next := next.(headers := next.headers + ReadHeader(argument.GetOr("")));
      case DataFlag =>
        next := next.(verb := if next.verb == Some("GET") then Some("POST") else next.verb);
        next := next.(bodyMode := Raw, body := argument.GetOr(""));
      case UserFlag =>
        next := next.(auth := ReadUser(argument.GetOr("")));
      case ValueFlag =>
      case Address =>
        next := next.(url := token);
      case Ignored =>
    }
  }

  method WalkTokens(tokens: seq<string>, start: Request) returns (request: Request)
    requires tokens != []
    ensures request == Walk(tokens[1..], start)
  {
    request := start;
    var i := 1;
    while i < |tokens|
      invariant i >= 1
      invariant Walk(tokens[1..], start) == Walk(if i < |tokens| then tokens[i..] else [], request)
    {
      WalkOne(tokens, i, request);
      var token, argument := tokens[i], if i + 1 < |tokens| then Some(tokens[i + 1]) else None;
      var kind := KindOf(token);
      if !kind.Address? && !kind.Ignored? {
        i := i + 1;
      }
      request := ApplyOption(kind, token, argument, request);
      i := i + 1;
    }
  }

  method ParseCurl(command: string) returns (result: Option<Request>)
    ensures result == Parsed(command)
  {
    var tokens := Tokens(command);
    if tokens == [] || Lower(tokens[0]) != "curl" {
      return None;
    }
    var request := WalkTokens(tokens, EmptyRequest());
    var authorization := FindAuthorization(request.headers);
    if authorization != -1 {
      var value := request.headers[authorization].value;
      if StartsWith(Lower(value), "bearer ") {
        request := request.(
          auth := Bearer(value[7..]),
          headers := request.headers[..authorization] + request.headers[authorization + 1..]
        );
      }
    }
    result := Some(request);
  }
}
