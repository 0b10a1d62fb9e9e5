/** What a printed cURL command is parsed to, and when that is the request again. */
module CurlRoundTrip {
  import opened Options
  import opened Seqs
  import opened JsText
  import opened Curl

  // Strings that pass through the quoting.

  /** Every backslash takes a character with it, as the token pattern reads them. */
  predicate Paired(s: string) {
    if s == "" then true
    else if s[0] != '\\' then Paired(s[1..])
    else |s| > 1 && !LineTerminator(s[1]) && Paired(s[2..])
  }

  /** No backslash before a line break. */
  predicate NoContinuation(s: string) {
    forall i :: 0 <= i < |s| - 1 && s[i] == '\\' ==>
      s[i + 1] != '\n' && !(i + 2 < |s| && s[i + 1] == '\r' && s[i + 2] == '\n')
  }

  predicate NoEscapedQuote(s: string) {
    forall i :: 0 <= i < |s| - 1 && s[i] == '\\' ==> s[i + 1] != '"'
  }

  /** No single quote, and backslashes only where they mean nothing to the tokeniser. */
  predicate Plain(s: string) {
    '\'' !in s && Paired(s) && NoContinuation(s) && NoEscapedQuote(s)
  }

  /** In particular every string without single quotes and backslashes. */
  lemma {:induction false} NoBackslashIsPlain(s: string)
    requires '\'' !in s && '\\' !in s
    ensures Plain(s)
  {
    if s != "" {
      assert s[0] in s && forall c <- s[1..] :: c in s;
      NoBackslashIsPlain(s[1..]);
    }
    assert forall i :: 0 <= i < |s| ==> s[i] in s;
  }

  lemma {:induction false} NothingToQuote(s: string)
    requires '\'' !in s
    ensures ShellQuote(s) == ['\''] + s + ['\'']
  {
    if s != "" {
      assert s[0] in s && forall c <- s[1..] :: c in s;
      NothingToQuote(s[1..]);
      assert QuoteQuotes(s[1..]) == ShellQuote(s[1..])[1..|s|] == s[1..];
      assert s == [s[0]] + s[1..];
    }
  }

  // Line continuations.

  lemma PlainCharJoins(c: char, s: string)
    requires c != '\\'
    ensures JoinLines([c] + s) == [c] + JoinLines(s)
  {
    assert ([c] + s)[1..] == s;
  }

  /** An argument that no continuation starts in. */
  predicate Solid(a: string) {
    a != "" && NoContinuation(a) && Last(a) != '\\' && Last(a) != '\r'
  }

  lemma {:induction false} SolidJoins(a: string, rest: string)
    requires Solid(a)
    ensures JoinLines(a + rest) == a + JoinLines(rest)
  {
    var s := a + rest;
    assert s[1..] == a[1..] + rest;
    assert |a| > 1 ==> s[1] == a[1];
    assert |a| > 2 ==> s[2] == a[2];
    assert JoinLines(s) == [a[0]] + JoinLines(a[1..] + rest);
    if |a| == 1 {
      assert a[1..] + rest == rest;
    } else {
      assert forall i :: 0 <= i < |a| - 1 ==> a[1..][i] == a[i + 1];
      SolidJoins(a[1..], rest);
      assert [a[0]] + (a[1..] + JoinLines(rest)) == a + JoinLines(rest);
    }
  }

  function Spread(arguments: seq<string>): string {
    if arguments == [] then "" else [' ', ' ', ' ', ' '] + arguments[0] + Spread(arguments[1..])
  }

  lemma GapJoins(s: string)
    ensures JoinLines([' ', '\\', '\n', ' ', ' '] + s) == [' ', ' ', ' ', ' '] + JoinLines(s)
  {
    var two := [' '] + ([' '] + s);
    PlainCharJoins(' ', s);
    PlainCharJoins(' ', [' '] + s);
    assert JoinLines(two) == [' ', ' '] + JoinLines(s);
    assert (['\\', '\n'] + two)[2..] == two;
    assert JoinLines(['\\', '\n'] + two) == [' '] + JoinLines(two);
    PlainCharJoins(' ', ['\\', '\n'] + two);
    assert [' ', '\\', '\n', ' ', ' '] + s == [' '] + (['\\', '\n'] + two);
  }

  lemma LinesHead(arguments: seq<string>)
    requires arguments != []
    ensures Lines(arguments) == [' ', '\\', '\n', ' ', ' '] + (arguments[0] + Lines(arguments[1..]))
  {
  }

  lemma SpreadHead(arguments: seq<string>)
    requires arguments != []
    ensures Spread(arguments) == [' ', ' ', ' ', ' '] + (arguments[0] + Spread(arguments[1..]))
  {
  }

  lemma {:induction false} LinesJoin(arguments: seq<string>)
    requires forall a <- arguments :: Solid(a)
    ensures JoinLines(Lines(arguments)) == Spread(arguments)
  {
    if arguments != [] {
      var a, rest := arguments[0], Lines(arguments[1..]);
      assert a in arguments && forall b <- arguments[1..] :: b in arguments;
      LinesJoin(arguments[1..]);
      SolidJoins(a, rest);
      GapJoins(a + rest);
      LinesHead(arguments);
      SpreadHead(arguments);
      assert ([' ', ' ', ' ', ' '] + (a + Spread(arguments[1..]))) == [' ', ' ', ' ', ' '] + JoinLines(a + rest);
    }
  }

  // Tokens.

  lemma {:induction false} QuoteCloses(s: string, rest: string)
    requires '\'' !in s && Paired(s)
    ensures Closing(s + ['\''] + rest, '\'') == |s| + 1
    decreases |s|
  {
    var t := s + ['\''] + rest;
    if s != "" {
      assert s[0] in s && t[1..] == s[1..] + ['\''] + rest;
      assert forall c <- s[1..] :: c in s;
      if s[0] != '\\' {
        QuoteCloses(s[1..], rest);
      } else {
        assert t[1] == s[1] && t[2..] == s[2..] + ['\''] + rest;
        assert forall c <- s[2..] :: c in s;
        QuoteCloses(s[2..], rest);
      }
    }
  }

  lemma QuotedMatches(s: string, rest: string)
    requires '\'' !in s && Paired(s)
    ensures Matches((['\''] + s + ['\'']) + rest) == [['\''] + s + ['\'']] + Matches(rest)
  {
    var quoted := ['\''] + s + ['\''];
    var t := quoted + rest;
    QuoteCloses(s, rest);
    assert t[1..] == s + ['\''] + rest;
    assert t[..|quoted|] == quoted && t[|quoted|..] == rest;
  }

  predicate Word(w: string) {
    w != "" && forall i :: 0 <= i < |w| ==> WordChar(w[i]) && w[i] != '\\'
  }

  lemma {:induction false} WordEnds(w: string, rest: string)
    requires forall i :: 0 <= i < |w| ==> WordChar(w[i])
    requires rest == "" || !WordChar(rest[0])
    ensures WordLength(w + rest) == |w|
  {
    if w == "" {
      assert w + rest == rest;
    } else {
      assert (w + rest)[1..] == w[1..] + rest;
      WordEnds(w[1..], rest);
    }
  }

  lemma WordMatches(w: string, rest: string)
    requires Word(w) && (rest == "" || !WordChar(rest[0]))
    ensures Matches(w + rest) == [w] + Matches(rest)
  {
    WordEnds(w, rest);
    assert WordChar(w[0]) && (w + rest)[0] == w[0];
    assert (w + rest)[..|w|] == w && (w + rest)[|w|..] == rest;
  }

  lemma SpaceMatchesNothing(s: string)
    ensures Matches([' '] + s) == Matches(s)
  {
    assert ([' '] + s)[1..] == s;
    assert WordLength([' '] + s) == 0;
  }

  lemma GapMatchesNothing(s: string)
    ensures Matches([' ', ' ', ' ', ' '] + s) == Matches(s)
  {
    SpaceMatchesNothing(s);
    SpaceMatchesNothing([' '] + s);
    SpaceMatchesNothing([' '] + ([' '] + s));
    SpaceMatchesNothing([' '] + ([' '] + ([' '] + s)));
    assert [' '] + ([' '] + ([' '] + ([' '] + s))) == [' ', ' ', ' ', ' '] + s;
  }

  predicate Quoted(a: string) {
    |a| >= 2 && a[0] == '\'' && Last(a) == '\'' && Plain(a[1..|a| - 1])
  }

  /** What the printer writes: an option name or a quoted string. */
  predicate ArgumentText(a: string) {
    Word(a) || Quoted(a)
  }

  lemma ArgumentIsSolid(a: string)
    requires ArgumentText(a)
    ensures Solid(a)
  {
    if Quoted(a) {
      var s := a[1..|a| - 1];
      forall i | 0 <= i < |a| - 1 && a[i] == '\\'
        ensures a[i + 1] != '\n' && !(i + 2 < |a| && a[i + 1] == '\r' && a[i + 2] == '\n')
      {
        assert s[i - 1] == a[i];
        assert i < |s| ==> s[i] == a[i + 1];
        assert i + 1 < |s| ==> s[i + 1] == a[i + 2];
      }
    }
  }

  lemma ArgumentMatches(a: string, rest: string)
    requires ArgumentText(a) && (rest == "" || rest[0] == ' ')
    ensures Matches(a + rest) == [a] + Matches(rest)
  {
    if Word(a) {
      WordMatches(a, rest);
    } else {
      var s := a[1..|a| - 1];
      assert a == ['\''] + s + ['\''];
      QuotedMatches(s, rest);
    }
  }

  lemma {:induction false} SpreadMatches(arguments: seq<string>)
    requires forall a <- arguments :: ArgumentText(a)
    ensures Matches(Spread(arguments)) == arguments
  {
    if arguments != [] {
      var a, rest := arguments[0], Spread(arguments[1..]);
      assert a in arguments && forall b <- arguments[1..] :: b in arguments;
      SpreadMatches(arguments[1..]);
      ArgumentMatches(a, rest);
      GapMatchesNothing(a + rest);
      SpreadHead(arguments);
    }
  }

  /** The printed lines are split into the printed arguments. */
  lemma {:induction false} CommandMatches(arguments: seq<string>)
    requires forall a <- arguments :: ArgumentText(a)
    ensures Matches(JoinLines("curl" + Lines(arguments))) == ["curl"] + arguments
  {
    forall a | a in arguments
      ensures Solid(a)
    {
      ArgumentIsSolid(a);
    }
    LinesJoin(arguments);
    SolidJoins("curl", Lines(arguments));
    ArgumentMatches("curl", Spread(arguments));
    SpreadMatches(arguments);
  }

  lemma WordStaysUnstripped(w: string)
    requires Word(w)
    ensures StripQuotes(w) == w
  {
    assert WordChar(w[0]);
  }

  lemma QuotedStrips(s: string)
    requires '\'' !in s && NoEscapedQuote(s)
    ensures StripQuotes(['\''] + s + ['\'']) == s
  {
    var quoted := ['\''] + s + ['\''];
    assert quoted[1..|quoted| - 1] == s && quoted[0] == '\'' && Last(quoted) == '\'';
    NothingToUnescape(s);
  }

  lemma NothingToUnescape(s: string)
    requires '\'' !in s && NoEscapedQuote(s)
    ensures Unescape(Unescape(s, '"', '"'), '\'', '\'') == s
  {
    UnescapeKeeps(s, '"', '"');
    assert forall i :: 0 <= i < |s| ==> s[i] in s;
    UnescapeKeeps(s, '\'', '\'');
  }

  lemma PlainIsUnquoted(s: string)
    requires Plain(s)
    ensures ArgumentText(ShellQuote(s)) && StripQuotes(ShellQuote(s)) == s
  {
    NothingToQuote(s);
    var quoted := ['\''] + s + ['\''];
    assert quoted[1..|quoted| - 1] == s;
    assert Quoted(quoted);
    QuotedStrips(s);
  }

  // From the tokens to the request.

  function HeaderValues(headers: seq<Header>): seq<string> {
    if headers == [] then [] else ["-H", HeaderText(headers[0])] + HeaderValues(headers[1..])
  }

  function BodyValues(request: Request): seq<string> {
    if HasBody(request) then ["--data-raw", request.body] else []
  }

  /** The arguments without their quotes. */
  function Values(request: Request): seq<string> {
    ["-X", MethodText(request), request.url] + HeaderValues(EnabledHeaders(request.headers)) + BodyValues(request)
  }

  /** Not multipart, and every string of the command is plain. */
  predicate PlainRequest(request: Request) {
    && request.bodyMode != GraphqlMultipart
    && Plain(MethodText(request)) && Plain(request.url)
    && (forall h <- EnabledHeaders(request.headers) :: Plain(HeaderText(h)))
    && (HasBody(request) ==> Plain(request.body))
  }

  predicate PrintsOne(argument: string, value: string) {
    ArgumentText(argument) && StripQuotes(argument) == value
  }

  /** `arguments` are what the printer writes for `values`. */
  predicate Prints(arguments: seq<string>, values: seq<string>) {
    && |arguments| == |values|
    && forall i :: 0 <= i < |arguments| ==> PrintsOne(arguments[i], values[i])
  }

  lemma PrintsOption(name: string, s: string)
    requires Word(name) && Plain(s)
    ensures Prints([name, ShellQuote(s)], [name, s])
  {
    WordStaysUnstripped(name);
    PlainIsUnquoted(s);
  }

  lemma PrintsTogether(a: seq<string>, v: seq<string>, b: seq<string>, w: seq<string>)
    requires Prints(a, v) && Prints(b, w)
    ensures Prints(a + b, v + w)
  {
    forall i | 0 <= i < |a + b|
      ensures PrintsOne((a + b)[i], (v + w)[i])
    {
      if i < |a| {
        assert (a + b)[i] == a[i] && (v + w)[i] == v[i];
      } else {
        assert (a + b)[i] == b[i - |a|] && (v + w)[i] == w[i - |a|];
      }
    }
  }

  lemma {:induction false} HeadersPrint(headers: seq<Header>)
    requires forall h <- headers :: Plain(HeaderText(h))
    ensures Prints(HeaderParts(headers), HeaderValues(headers))
  {
    if headers != [] {
      var h := headers[0];
      assert h in headers && forall g <- headers[1..] :: g in headers;
      PrintsOption("-H", HeaderText(h));
      HeadersPrint(headers[1..]);
      PrintsTogether(["-H", ShellQuote(HeaderText(h))], ["-H", HeaderText(h)],
        HeaderParts(headers[1..]), HeaderValues(headers[1..]));
    }
  }

  lemma AddressPrints(verb: string, url: string)
    requires Plain(verb) && Plain(url)
    ensures Prints(["-X", ShellQuote(verb), ShellQuote(url)], ["-X", verb, url])
  {
    PrintsOption("-X", verb);
    PlainIsUnquoted(url);
    PrintsTogether(["-X", ShellQuote(verb)], ["-X", verb], [ShellQuote(url)], [url]);
    assert ["-X", ShellQuote(verb)] + [ShellQuote(url)] == ["-X", ShellQuote(verb), ShellQuote(url)];
    assert ["-X", verb] + [url] == ["-X", verb, url];
  }

  lemma RequestPrints(request: Request)
    requires PlainRequest(request)
    ensures Prints(Arguments(request), Values(request))
  {
    var headers := EnabledHeaders(request.headers);
    var start, startValues := ["-X", ShellQuote(MethodText(request)), ShellQuote(request.url)],
      ["-X", MethodText(request), request.url];
    AddressPrints(MethodText(request), request.url);
    HeadersPrint(headers);
    PrintsTogether(start, startValues, HeaderParts(headers), HeaderValues(headers));
    if HasBody(request) {
      PrintsOption("--data-raw", request.body);
      PrintsTogether(start + HeaderParts(headers), startValues + HeaderValues(headers),
        ["--data-raw", ShellQuote(request.body)], BodyValues(request));
    }
  }

  lemma CommandStrips(arguments: seq<string>, values: seq<string>)
    requires Prints(arguments, values)
    ensures StripAll(["curl"] + arguments) == ["curl"] + values
  {
    WordStaysUnstripped("curl");
    StripTogether(["curl"], arguments);
    assert StripAll(arguments) == values && StripAll(["curl"]) == ["curl"];
  }

  lemma StripTogether(a: seq<string>, b: seq<string>)
    ensures StripAll(a + b) == StripAll(a) + StripAll(b)
  {
  }

  lemma {:induction false} PrintedTokens(request: Request)
    requires PlainRequest(request)
    ensures Tokens(Printed(request)) == ["curl"] + Values(request)
  {
    RequestPrints(request);
    CommandMatches(Arguments(request));
    CommandStrips(Arguments(request), Values(request));
  }

  lemma PrintedOptions()
    ensures KindOf("-X") == MethodFlag && KindOf("-H") == HeaderFlag && KindOf("--data-raw") == DataFlag
  {
  }

  lemma AddressKind(token: string)
    requires !Dashed(token)
    ensures KindOf(token) == Address
  {
  }

  function RereadHeaders(headers: seq<Header>): seq<Header> {
    if headers == [] then [] else ReadHeader(HeaderText(headers[0])) + RereadHeaders(headers[1..])
  }

  lemma WalkOption(name: string, value: string, rest: seq<string>, request: Request)
    requires !KindOf(name).Address? && !KindOf(name).Ignored?
    ensures Walk([name, value] + rest, request) == Walk(rest, Apply(KindOf(name), name, Some(value), request))
  {
    var tokens := [name, value] + rest;
    assert tokens[2..] == rest && Argument(tokens) == Some(value);
  }

  lemma WalkHeader(text: string, rest: seq<string>, request: Request)
    ensures Walk(["-H", text] + rest, request)
         == Walk(rest, request.(headers := request.headers + ReadHeader(text)))
  {
    PrintedOptions();
    WalkOption("-H", text, rest, request);
  }

  lemma FirstHeaderValues(headers: seq<Header>, rest: seq<string>)
    requires headers != []
    ensures HeaderValues(headers) + rest
         == ["-H", HeaderText(headers[0])] + (HeaderValues(headers[1..]) + rest)
  {
    ConcatAssociates(["-H", HeaderText(headers[0])], HeaderValues(headers[1..]), rest);
  }

  function WithHeaders(request: Request, more: seq<Header>): Request {
    request.(headers := request.headers + more)
  }

  lemma MoreHeaders(request: Request, headers: seq<Header>)
    requires headers != []
    ensures WithHeaders(WithHeaders(request, ReadHeader(HeaderText(headers[0]))), RereadHeaders(headers[1..]))
         == WithHeaders(request, RereadHeaders(headers))
  {
    ConcatAssociates(request.headers, ReadHeader(HeaderText(headers[0])), RereadHeaders(headers[1..]));
  }

  lemma {:induction false} WalkHeaders(headers: seq<Header>, rest: seq<string>, request: Request)
    ensures Walk(HeaderValues(headers) + rest, request) == Walk(rest, WithHeaders(request, RereadHeaders(headers)))
    decreases |headers|
  {
    if headers == [] {
      assert HeaderValues(headers) + rest == rest;
      assert request.headers + RereadHeaders(headers) == request.headers;
    } else {
      var text := HeaderText(headers[0]);
      FirstHeaderValues(headers, rest);
      WalkHeader(text, HeaderValues(headers[1..]) + rest, request);
      WalkHeaders(headers[1..], rest, WithHeaders(request, ReadHeader(text)));
      MoreHeaders(request, headers);
    }
  }

  /** What the command of a plain request is parsed to. */
  function Reread(request: Request): Request {
    var verb := Upper(MethodText(request));
    TakeBearer(Request(
      Some(if HasBody(request) && verb == "GET" then "POST" else verb),
      request.url,
      RereadHeaders(EnabledHeaders(request.headers)),
      if HasBody(request) then Raw else NoBody,
      if HasBody(request) then request.body else "",
      NoAuth
    ))
  }

  lemma WalkAddress(url: string, rest: seq<string>, request: Request)
    requires KindOf(url).Address?
    ensures Walk([url] + rest, request) == Walk(rest, request.(url := url))
  {
    assert ([url] + rest)[1..] == rest;
  }

  lemma WalkMethodAndAddress(name: string, verb: string, url: string, rest: seq<string>, request: Request)
    requires KindOf(name).MethodFlag? && KindOf(url).Address?
    ensures Walk([name, verb, url] + rest, request) == Walk(rest, request.(verb := Some(Upper(verb)), url := url))
  {
    WalkOption(name, verb, [url] + rest, request);
    WalkAddress(url, rest, request.(verb := Some(Upper(verb))));
    assert [name, verb, url] + rest == [name, verb] + ([url] + rest);
  }

  lemma WalkStart(verb: string, url: string, rest: seq<string>)
    requires !Dashed(url)
    ensures Walk(["-X", verb, url] + rest, EmptyRequest())
         == Walk(rest, Request(Some(Upper(verb)), url, [], NoBody, "", NoAuth))
  {
    PrintedOptions();
    AddressKind(url);
    WalkMethodAndAddress("-X", verb, url, rest, EmptyRequest());
  }

  lemma WalkBody(request: Request, start: Request)
    ensures Walk(BodyValues(request), start) == if !HasBody(request) then start
      else start.(verb := if start.verb == Some("GET") then Some("POST") else start.verb,
        bodyMode := Raw, body := request.body)
  {
    if HasBody(request) {
      PrintedOptions();
      WalkOption("--data-raw", request.body, [], start);
      assert ["--data-raw", request.body] + [] == BodyValues(request);
    }
  }

  lemma WalkValues(request: Request)
    requires !Dashed(request.url)
    ensures TakeBearer(Walk(Values(request), EmptyRequest())) == Reread(request)
  {
    var headers, body := EnabledHeaders(request.headers), BodyValues(request);
    var start := Request(Some(Upper(MethodText(request))), request.url, [], NoBody, "", NoAuth);
    assert Values(request) == ["-X", MethodText(request), request.url] + (HeaderValues(headers) + body);
    WalkStart(MethodText(request), request.url, HeaderValues(headers) + body);
    WalkHeaders(headers, body, start);
    assert [] + RereadHeaders(headers) == RereadHeaders(headers);
    WalkBody(request, start.(headers := RereadHeaders(headers)));
  }

  lemma {:induction false} PrintedCommandParses(request: Request)
    requires PlainRequest(request) && !Dashed(request.url)
    ensures Parsed(Printed(request)) == Some(Reread(request))
  {
    PrintedTokens(request);
    assert Lower("curl") == "curl";
    assert (["curl"] + Values(request))[1..] == Values(request);
    WalkValues(request);
  }

  // When the parse is the request.

  /** The request's method, address, enabled headers and body. */
  predicate SameRequest(request: Request, parsed: Request) {
    && parsed.verb == Some(MethodText(request)) && parsed.url == request.url
    && parsed.headers == EnabledHeaders(request.headers)
    && parsed.body == if HasBody(request) then request.body else ""
  }

  predicate CleanHeader(h: Header) {
    ':' !in h.key && Trimmed(h.key) && Trimmed(h.value)
  }

  lemma TrimIsNoLonger(s: string)
    ensures |Trim(s)| <= |s|
  {
  }

  lemma ColonInKey(h: Header)
    requires ':' in h.key
    ensures |ReadHeader(HeaderText(h))| == 1 && |ReadHeader(HeaderText(h))[0].key| < |h.key|
  {
    var raw := HeaderText(h);
    var i :| 0 <= i < |h.key| && h.key[i] == ':';
    assert raw[i..i + 1] == ":" && OccursAt(raw, ":", i);
    FindIsFirst(raw, ":");
    TrimIsNoLonger(raw[..Find(raw, ":")]);
  }

  lemma NoColonInKey(h: Header)
    requires ':' !in h.key
    ensures ReadHeader(HeaderText(h)) == [Header(Trim(h.key), Trim(h.value), true)]
  {
    var raw, value := HeaderText(h), [' '] + h.value;
    assert raw == h.key + ":" + value;
    FindCharAfter(h.key, ':', value);
    assert raw[..|h.key|] == h.key && raw[|h.key| + 1..] == value;
    TrimAfterSpace(h.value);
  }

  lemma HeaderRereads(h: Header)
    requires h.enabled
    ensures |ReadHeader(HeaderText(h))| == 1
    ensures ReadHeader(HeaderText(h)) == [h] <==> CleanHeader(h)
  {
    if ':' in h.key {
      ColonInKey(h);
    } else {
      NoColonInKey(h);
      TrimmedIsTrim(h.key);
      TrimmedIsTrim(h.value);
    }
  }

  lemma {:induction false} EnabledAreEnabled(headers: seq<Header>)
    ensures forall h <- EnabledHeaders(headers) :: h.enabled
  {
    if headers != [] {
      EnabledAreEnabled(headers[1..]);
    }
  }

  lemma SameHeadAndTail<T>(first: seq<T>, more: seq<T>, s: seq<T>)
    requires |first| == 1 && s != []
    ensures first + more == s <==> first == [s[0]] && more == s[1..]
  {
    assert s == [s[0]] + s[1..];
    assert (first + more)[0] == first[0] && (first + more)[1..] == more;
  }

  predicate AllClean(headers: seq<Header>) {
    forall h <- headers :: CleanHeader(h)
  }

  lemma CleanHeadAndTail(headers: seq<Header>, first: seq<Header>, more: seq<Header>)
    requires headers != [] && |first| == 1
    requires first == [headers[0]] <==> CleanHeader(headers[0])
    requires more == headers[1..] <==> AllClean(headers[1..])
    ensures first + more == headers <==> AllClean(headers)
  {
    SameHeadAndTail(first, more, headers);
    assert headers == [headers[0]] + headers[1..];
  }

  lemma {:induction false} HeadersReread(headers: seq<Header>)
    requires forall h <- headers :: h.enabled
    ensures |RereadHeaders(headers)| == |headers|
    ensures RereadHeaders(headers) == headers <==> AllClean(headers)
  {
    if headers != [] {
      var h, rest := headers[0], headers[1..];
      assert h in headers && forall g <- rest :: g in headers;
      HeaderRereads(h);
      HeadersReread(rest);
      CleanHeadAndTail(headers, ReadHeader(HeaderText(h)), RereadHeaders(rest));
    }
  }

  lemma TakenBearerIsMissing(request: Request)
    ensures BearerFirst(request.headers) ==> |TakeBearer(request).headers| == |request.headers| - 1
    ensures !BearerFirst(request.headers) ==> TakeBearer(request) == request
  {
  }

  lemma RereadSomeRequest(request: Request) returns (p: Request)
    ensures Reread(request) == TakeBearer(p)
    ensures p.url == request.url && p.headers == RereadHeaders(EnabledHeaders(request.headers))
    ensures p.verb
         == Some(if HasBody(request) && Upper(MethodText(request)) == "GET" then "POST" else Upper(MethodText(request)))
    ensures p.body == if HasBody(request) then request.body else ""
  {
    var verb := Upper(MethodText(request));
    p := Request(
      Some(if HasBody(request) && verb == "GET" then "POST" else verb),
      request.url,
      RereadHeaders(EnabledHeaders(request.headers)),
      if HasBody(request) then Raw else NoBody,
      if HasBody(request) then request.body else "",
      NoAuth
    );
  }

  lemma MethodRereadsIff(verb: string, hasBody: bool)
    ensures (if hasBody && Upper(verb) == "GET" then "POST" else Upper(verb)) == verb
       <==> Upper(verb) == verb && !(hasBody && verb == "GET")
  {
    assert Upper("POST") == "POST";
  }

  lemma ApplyKeepsAddressUndashed(kind: Kind, token: string, argument: Option<string>, request: Request)
    requires !Dashed(request.url) && (kind.Address? ==> !Dashed(token))
    ensures !Dashed(Apply(kind, token, argument, request).url)
  {
  }

  lemma AddressIsNotDashed(token: string)
    ensures KindOf(token).Address? ==> !Dashed(token)
  {
  }

  lemma {:induction false} WalkedAddressIsNotDashed(tokens: seq<string>, request: Request)
    requires !Dashed(request.url)
    ensures !Dashed(Walk(tokens, request).url)
    decreases |tokens|
  {
    if tokens != [] {
      AddressIsNotDashed(tokens[0]);
      ApplyKeepsAddressUndashed(KindOf(tokens[0]), tokens[0], Argument(tokens), request);
      WalkedAddressIsNotDashed(Remaining(tokens), Apply(KindOf(tokens[0]), tokens[0], Argument(tokens), request));
    }
  }

  lemma BearerKeepsAddress(request: Request)
    ensures TakeBearer(request).url == request.url
  {
  }

  /** No command whatsoever is parsed to an address that starts with a dash, so such an address never comes back. */
  lemma {:induction false} DashedAddressIsLost(command: string)
    ensures Parsed(command).Some? ==> !Dashed(Parsed(command).value.url)
  {
    var tokens := Tokens(command);
    if tokens != [] {
      WalkedAddressIsNotDashed(tokens[1..], EmptyRequest());
      BearerKeepsAddress(Walk(tokens[1..], EmptyRequest()));
    }
  }

  lemma PrintedCommandIsCurl(request: Request)
    requires PlainRequest(request)
    ensures Parsed(Printed(request)).Some?
  {
    PrintedTokens(request);
    assert Lower("curl") == "curl";
  }

  /** What decides whether a plain request comes back. */
  predicate ComesBack(request: Request) {
    var headers := EnabledHeaders(request.headers);
    && !Dashed(request.url) && Upper(MethodText(request)) == MethodText(request)
    && !(HasBody(request) && MethodText(request) == "GET")
    && AllClean(headers) && !BearerFirst(headers)
  }

  lemma UndashedRoundTripsIff(request: Request)
    requires PlainRequest(request) && !Dashed(request.url)
    ensures Parsed(Printed(request)).Some?
    ensures SameRequest(request, Parsed(Printed(request)).value) <==> ComesBack(request)
  {
    PrintedCommandParses(request);
    var p := RereadSomeRequest(request);
    TakenBearerIsMissing(p);
    EnabledAreEnabled(request.headers);
    HeadersReread(EnabledHeaders(request.headers));
    MethodRereadsIff(MethodText(request), HasBody(request));
  }

  /**
   The command brings back the method, address, enabled headers and body exactly if the address does not start with a
   dash, the method is in upper case and is not GET with a body, the headers have colon-free keys and no space around
   keys and values, and the first authorization header is not a bearer token.
   */
  lemma {:induction false} RoundTripsIff(request: Request)
    requires PlainRequest(request)
    ensures Parsed(Printed(request)).Some?
    ensures SameRequest(request, Parsed(Printed(request)).value) <==> ComesBack(request)
  {
    PrintedCommandIsCurl(request);
    if Dashed(request.url) {
      DashedAddressIsLost(Printed(request));
    } else {
      UndashedRoundTripsIff(request);
    }
  }
}
