/** Exactly which bodies a printed cURL command brings back. */
module CurlBody {
  import opened Options
  import opened Seqs
  import opened JsText
  import opened Curl
  import opened CurlRoundTrip
  import opened CurlQuotes

  /** Everything in the command but the body passes through. */
  predicate PlainHead(request: Request) {
    && request.bodyMode != GraphqlMultipart
    && Plain(MethodText(request)) && Plain(request.url) && !Dashed(request.url)
    && forall h <- EnabledHeaders(request.headers) :: Plain(HeaderText(h))
  }

  /**
   Either the backslashes pair up and none escapes a double quote, or they do not, and then the body is read as a
   single word.
   */
  predicate BodySurvives(body: string) {
    && NoContinuation(body)
    && if Paired(body) then NoEscapedQuote(body) else forall i :: 0 <= i < |body| ==> WordChar(body[i])
  }

  // The text of the body after the line continuations are joined.

  lemma {:induction false} JoinLinesShortens(s: string)
    ensures |JoinLines(s)| <= |s|
    ensures JoinLines(s) == s <==> NoContinuation(s)
    ensures '\'' !in s ==> '\'' !in JoinLines(s)
    decreases |s|
  {
    if s != "" {
      if |s| > 1 && s[0] == '\\' && s[1] == '\n' {
        JoinLinesShortens(s[2..]);
      } else if |s| > 2 && s[0] == '\\' && s[1] == '\r' && s[2] == '\n' {
        JoinLinesShortens(s[3..]);
      } else {
        JoinLinesShortens(s[1..]);
        assert s == [s[0]] + s[1..];
        ContinuationTail(s);
        SameTail(s[0], JoinLines(s[1..]), s[1..]);
      }
    }
  }

  lemma SameTail(c: char, a: string, b: string)
    ensures [c] + a == [c] + b <==> a == b
  {
    assert ([c] + a)[1..] == a && ([c] + b)[1..] == b;
  }

  lemma ContinuationTail(s: string)
    requires s != "" && !(|s| > 1 && s[0] == '\\' && s[1] == '\n')
    requires !(|s| > 2 && s[0] == '\\' && s[1] == '\r' && s[2] == '\n')
    ensures NoContinuation(s) <==> NoContinuation(s[1..])
  {
    var rest := s[1..];
    assert forall i :: 0 <= i < |rest| ==> rest[i] == s[i + 1];
    if NoContinuation(rest) {
      forall i | 0 <= i < |s| - 1 && s[i] == '\\'
        ensures s[i + 1] != '\n' && !(i + 2 < |s| && s[i + 1] == '\r' && s[i + 2] == '\n')
      {
        assert i > 0 ==> rest[i - 1] == s[i];
        assert rest[i] == s[i + 1];
      }
    }
  }

  // The tokens of the body.

  lemma {:induction false} UnpairedDoesNotClose(s: string)
    requires '\'' !in s && !Paired(s)
    ensures Closing(s + ['\''], '\'') == 0
    decreases |s|
  {
    var t := s + ['\''];
    assert s[0] in s && t[1..] == s[1..] + ['\''];
    assert forall c <- s[1..] :: c in s;
    if s[0] != '\\' {
      UnpairedDoesNotClose(s[1..]);
    } else if |s| > 1 && !LineTerminator(s[1]) {
      assert t[1] == s[1] && t[2..] == s[2..] + ['\''];
      assert forall c <- s[2..] :: c in s;
      UnpairedDoesNotClose(s[2..]);
    } else if |s| == 1 {
      assert t[2..] == "";
    }
  }

  lemma {:induction false} ClosesAtQuote(s: string, q: char)
    ensures Closing(s, q) > 0 ==> s[Closing(s, q) - 1] == q
    decreases |s|
  {
    if s != "" && s[0] != q {
      if s[0] != '\\' {
        ClosesAtQuote(s[1..], q);
      } else if |s| > 1 {
        ClosesAtQuote(s[2..], q);
      }
    }
  }

  lemma {:induction false} WordLengthIsWord(s: string)
    ensures forall i :: 0 <= i < WordLength(s) ==> WordChar(s[i])
  {
    if s != "" && WordChar(s[0]) {
      WordLengthIsWord(s[1..]);
    }
  }

  /** In text whose only single quote is the last character, matches end before it, and only words keep their length. */
  lemma MatchStaysBefore(s: string)
    requires s != "" && '\'' !in s
    ensures MatchLength(s + ['\'']) <= |s|
    ensures MatchLength(s + ['\'']) == |s| ==> s[0] == '"' || forall i :: 0 <= i < |s| ==> WordChar(s[i])
  {
    var t := s + ['\''];
    assert t[0] == s[0] && s[0] in s;
    if s[0] == '"' {
      ClosesAtQuote(t[1..], '"');
    } else {
      WordLengthIsWord(t);
      assert !WordChar(t[|s|]);
      assert forall i :: 0 <= i < |s| ==> t[i] == s[i];
    }
  }

  lemma StripShortens(token: string)
    ensures |StripQuotes(token)| <= |token|
    ensures |token| >= 2 && token[0] == '"' && Last(token) == '"' ==> |StripQuotes(token)| < |token|
  {
    if |token| >= 2 {
      var inner := token[1..|token| - 1];
      UnescapeShortens(inner, '"', '"');
      UnescapeShortens(Unescape(inner, '"', '"'), '\'', '\'');
    }
  }

  lemma {:induction false} UnescapeShortens(s: string, letter: char, to: char)
    ensures |Unescape(s, letter, to)| <= |s|
    ensures |Unescape(s, letter, to)| == |s| ==> forall i :: 0 <= i < |s| - 1 && s[i] == '\\' ==> s[i + 1] != letter
    decreases |s|
  {
    if s != "" {
      if |s| > 1 && s[0] == '\\' && s[1] == letter {
        UnescapeShortens(s[2..], letter, to);
      } else {
        var rest := s[1..];
        UnescapeShortens(rest, letter, to);
        forall i | 0 <= i < |s| - 1 && s[i] == '\\' && |Unescape(s, letter, to)| == |s|
          ensures s[i + 1] != letter
        {
          assert i > 0 ==> rest[i - 1] == s[i];
          assert rest[i] == s[i + 1];
        }
      }
    }
  }

  predicate AllShorter(tokens: seq<string>, n: nat) {
    forall i :: 0 <= i < |tokens| ==> |StripQuotes(tokens[i])| < n
  }

  /** The first match and the text after it, or after the character no match starts at. */
  lemma FirstAndRestAreShort(t: string, n: nat)
    requires t != ""
    requires MatchLength(t) == 0 ==> AllShorter(Matches(t[1..]), n)
    requires MatchLength(t) > 0 ==>
      |StripQuotes(t[..MatchLength(t)])| < n && AllShorter(Matches(t[MatchLength(t)..]), n)
    ensures AllShorter(Matches(t), n)
  {
    var k := MatchLength(t);
    if k > 0 {
      assert Matches(t) == [t[..k]] + Matches(t[k..]);
    }
  }

  /** Where the text goes on after the first match, or after the character no match starts at. */
  lemma AfterMatch(s: string) returns (m: nat)
    requires s != "" && '\'' !in s
    ensures m == if MatchLength(s + ['\'']) == 0 then 1 else MatchLength(s + ['\''])
    ensures 0 < m <= |s| && (s + ['\''])[m..] == s[m..] + ['\''] && '\'' !in s[m..]
  {
    var k := MatchLength(s + ['\'']);
    MatchStaysBefore(s);
    m := if k == 0 then 1 else k;
    assert forall c <- s[m..] :: c in s;
  }

  lemma {:induction false} TokensAreShort(s: string, n: nat)
    requires '\'' !in s && |s| < n
    ensures AllShorter(Matches(s + ['\'']), n)
    decreases |s|
  {
    var t := s + ['\''];
    if s == "" {
      QuoteAloneMatchesNothing();
    } else {
      var m := AfterMatch(s);
      TokensAreShort(s[m..], n);
      StripShortens(t[..MatchLength(t)]);
      FirstAndRestAreShort(t, n);
    }
  }

  lemma QuotedMatchShrinks(s: string)
    requires s != "" && '\'' !in s && s[0] == '"'
    ensures var t, k := s + ['\''], MatchLength(s + ['\'']);
      k > 0 ==> |StripQuotes(t[..k])| < |s|
  {
    var t := s + ['\''];
    var k := MatchLength(t);
    MatchStaysBefore(s);
    StripShortens(t[..k]);
    if k > 0 {
      ClosesAtQuote(t[1..], '"');
      assert Last(t[..k]) == t[1..][k - 2];
    }
  }

  lemma FirstMatchIsShort(s: string)
    requires s != "" && '\'' !in s && !(forall i :: 0 <= i < |s| ==> WordChar(s[i]))
    ensures var t, k := s + ['\''], MatchLength(s + ['\'']);
      k > 0 ==> |StripQuotes(t[..k])| < |s|
  {
    if s[0] == '"' {
      QuotedMatchShrinks(s);
    } else {
      MatchStaysBefore(s);
      StripShortens((s + ['\''])[..MatchLength(s + ['\''])]);
    }
  }

  /** Text that is not one word falls apart into shorter tokens. */
  lemma BrokenTextIsShort(s: string)
    requires s != "" && '\'' !in s && !(forall i :: 0 <= i < |s| ==> WordChar(s[i]))
    ensures AllShorter(Matches(s + ['\'']), |s|)
  {
    var t := s + ['\''];
    var m := AfterMatch(s);
    TokensAreShort(s[m..], |s|);
    FirstMatchIsShort(s);
    FirstAndRestAreShort(t, |s|);
  }

  lemma UnpairedIsUnquoted(s: string)
    requires '\'' !in s && !Paired(s)
    ensures Matches(['\''] + s + ['\'']) == Matches(s + ['\''])
  {
    UnpairedDoesNotClose(s);
    assert (['\''] + s + ['\''])[1..] == s + ['\''];
  }

  lemma PairedIsOneToken(s: string)
    requires '\'' !in s && Paired(s)
    ensures Matches(['\''] + s + ['\'']) == [['\''] + s + ['\'']]
  {
    QuotedMatches(s, "");
    assert (['\''] + s + ['\'']) + "" == ['\''] + s + ['\''];
  }

  lemma LoneWord(s: string)
    requires s != "" && forall i :: 0 <= i < |s| ==> WordChar(s[i])
    ensures Matches(s + ['\'']) == [s] && StripQuotes(s) == s
  {
    var t := s + ['\''];
    WordEnds(s, ['\'']);
    assert t[0] == s[0] && WordChar(s[0]);
    assert t[..|s|] == s && t[|s|..] == ['\''];
    QuoteAloneMatchesNothing();
  }

  // What the tokens make of the body.

  lemma AppliedBody(kind: Kind, token: string, argument: Option<string>, request: Request)
    ensures var body := Apply(kind, token, argument, request).body;
      body == request.body || body == argument.GetOr("")
  {
  }

  lemma RemainingTokens(tokens: seq<string>)
    requires tokens != []
    ensures forall body <- Remaining(tokens) :: body in tokens
    ensures Argument(tokens).Some? ==> Argument(tokens).value in tokens
  {
  }

  /** The body that is parsed comes from a token. */
  lemma {:induction false} BodyIsAToken(tokens: seq<string>, request: Request)
    ensures var body := Walk(tokens, request).body; body == request.body || body == "" || body in tokens
    decreases |tokens|
  {
    if tokens != [] {
      var kind, argument, rest := KindOf(tokens[0]), Argument(tokens), Remaining(tokens);
      AppliedBody(kind, tokens[0], argument, request);
      RemainingTokens(tokens);
      BodyIsAToken(rest, Apply(kind, tokens[0], argument, request));
    }
  }

  lemma QuotedBodyTokens(body: string)
    requires '\'' !in body
    ensures BodyTokens(body) == StripAll(Matches(['\''] + JoinLines(body) + ['\'']))
  {
    QuotedJoins(body);
    JoinLinesShortens(body);
    QuotingUnquoted(JoinLines(body), ['\'']);
    assert ['\''] + Inside(JoinLines(body)) == ['\''] + JoinLines(body) + ['\''];
  }

  lemma PairedBodyTokens(body: string)
    requires '\'' !in body && Paired(JoinLines(body))
    ensures var joined := JoinLines(body);
      BodyTokens(body) == [Unescape(joined, '"', '"')]
  {
    var joined := JoinLines(body);
    QuotedBodyTokens(body);
    JoinLinesShortens(body);
    PairedIsOneToken(joined);
    var quoted := ['\''] + joined + ['\''];
    assert quoted[1..|quoted| - 1] == joined;
    var u := Unescape(joined, '"', '"');
    UnescapeMakesNoQuote(joined);
    assert forall i :: 0 <= i < |u| ==> u[i] in u;
    UnescapeKeeps(u, '\'', '\'');
  }

  lemma PairedBodySurvivesIff(body: string)
    requires '\'' !in body && Paired(JoinLines(body))
    ensures BodyTokens(body) == [body] <==> BodySurvives(body)
    ensures |BodyTokens(body)| == 1
  {
    var joined := JoinLines(body);
    PairedBodyTokens(body);
    JoinLinesShortens(body);
    JoinLinesKeepsLength(body);
    UnescapeShortens(joined, '"', '"');
    if joined == body {
      KeptUnlessEscaped(body);
    }
  }

  lemma KeptUnlessEscaped(s: string)
    ensures Unescape(s, '"', '"') == s <==> NoEscapedQuote(s)
  {
    UnescapeShortens(s, '"', '"');
    if NoEscapedQuote(s) {
      UnescapeKeeps(s, '"', '"');
    }
  }

  lemma UnpairedBodyTokens(body: string)
    requires body != "" && '\'' !in body && !Paired(JoinLines(body))
    ensures BodySurvives(body) ==> BodyTokens(body) == [body]
    ensures !BodySurvives(body) ==> body !in BodyTokens(body)
  {
    var joined := JoinLines(body);
    QuotedBodyTokens(body);
    JoinLinesShortens(body);
    UnpairedIsUnquoted(joined);
    if joined == body && forall i :: 0 <= i < |body| ==> WordChar(body[i]) {
      LoneWord(body);
    } else if joined == body {
      BrokenTextIsShort(body);
    } else if |joined| < |body| {
      TokensAreShort(joined, |body|);
    } else {
      JoinLinesKeepsLength(body);
    }
  }

  lemma {:induction false} JoinLinesKeepsLength(s: string)
    ensures |JoinLines(s)| == |s| ==> JoinLines(s) == s
    decreases |s|
  {
    if s != "" {
      if |s| > 1 && s[0] == '\\' && s[1] == '\n' {
        JoinLinesShortens(s[2..]);
      } else if |s| > 2 && s[0] == '\\' && s[1] == '\r' && s[2] == '\n' {
        JoinLinesShortens(s[3..]);
      } else {
        JoinLinesKeepsLength(s[1..]);
        assert s == [s[0]] + s[1..];
      }
    }
  }

  // The whole command.

  function HeadArguments(request: Request): seq<string> {
    ["-X", ShellQuote(MethodText(request)), ShellQuote(request.url)]
    + HeaderParts(EnabledHeaders(request.headers)) + ["--data-raw"]
  }

  function HeadValues(request: Request): seq<string> {
    ["-X", MethodText(request), request.url] + HeaderValues(EnabledHeaders(request.headers)) + ["--data-raw"]
  }

  lemma HeadPrints(request: Request)
    requires PlainHead(request)
    ensures Prints(HeadArguments(request), HeadValues(request))
  {
    var headers := EnabledHeaders(request.headers);
    var start, startValues := ["-X", ShellQuote(MethodText(request)), ShellQuote(request.url)],
      ["-X", MethodText(request), request.url];
    AddressPrints(MethodText(request), request.url);
    HeadersPrint(headers);
    PrintsTogether(start, startValues, HeaderParts(headers), HeaderValues(headers));
    WordStaysUnstripped("--data-raw");
    PrintsTogether(start + HeaderParts(headers), startValues + HeaderValues(headers), ["--data-raw"], ["--data-raw"]);
  }

  /** The head of the command is split off whatever follows it on a new line. */
  lemma {:induction false} HeadJoins(arguments: seq<string>, last: string)
    requires forall a <- arguments :: Solid(a)
    ensures JoinLines(Lines(arguments + [last])) == Spread(arguments) + ([' ', ' ', ' ', ' '] + JoinLines(last))
  {
    if arguments == [] {
      assert [] + [last] == [last] && [last][1..] == [];
      GapJoins(last);
      assert Lines([last]) == [' ', '\\', '\n', ' ', ' '] + last;
    } else {
      var a, rest := arguments[0], Lines(arguments[1..] + [last]);
      assert a in arguments && forall b <- arguments[1..] :: b in arguments;
      assert (arguments + [last])[1..] == arguments[1..] + [last];
      HeadJoins(arguments[1..], last);
      SolidJoins(a, rest);
      GapJoins(a + rest);
      LinesHead(arguments + [last]);
      SpreadHead(arguments);
      var end := [' ', ' ', ' ', ' '] + JoinLines(last);
      ConcatAssociates(a, Spread(arguments[1..]), end);
      ConcatAssociates([' ', ' ', ' ', ' '], a + Spread(arguments[1..]), end);
    }
  }

  lemma {:induction false} HeadMatches(arguments: seq<string>, end: string)
    requires forall a <- arguments :: ArgumentText(a)
    requires end != "" && end[0] == ' '
    ensures Matches(Spread(arguments) + end) == arguments + Matches(end)
  {
    if arguments == [] {
      assert Spread(arguments) + end == end;
    } else {
      var a, rest := arguments[0], Spread(arguments[1..]) + end;
      assert a in arguments && forall b <- arguments[1..] :: b in arguments;
      HeadMatches(arguments[1..], end);
      ArgumentMatches(a, rest);
      GapMatchesNothing(a + rest);
      SpreadHead(arguments);
      ConcatAssociates([' ', ' ', ' ', ' '], a + Spread(arguments[1..]), end);
      ConcatAssociates(a, Spread(arguments[1..]), end);
      SameHeadAndTail([a], arguments[1..], arguments);
      ConcatAssociates([a], arguments[1..], Matches(end));
    }
  }

  lemma CommandEndMatches(arguments: seq<string>, last: string)
    requires forall a <- arguments :: ArgumentText(a)
    ensures Matches(JoinLines("curl" + Lines(arguments + [last])))
         == ["curl"] + (arguments + Matches(JoinLines(last)))
  {
    forall a | a in arguments
      ensures Solid(a)
    {
      ArgumentIsSolid(a);
    }
    var end := [' ', ' ', ' ', ' '] + JoinLines(last);
    HeadJoins(arguments, last);
    SolidJoins("curl", Lines(arguments + [last]));
    SpreadStarts(arguments, end);
    ArgumentMatches("curl", Spread(arguments) + end);
    HeadMatches(arguments, end);
    GapMatchesNothing(JoinLines(last));
  }

  lemma SpreadStarts(arguments: seq<string>, end: string)
    requires end != "" && end[0] == ' '
    ensures (Spread(arguments) + end)[0] == ' '
  {
  }

  lemma CommandTokens(request: Request)
    requires PlainHead(request) && HasBody(request)
    ensures Tokens(Printed(request)) == ["curl"] + (HeadValues(request) + BodyTokens(request.body))
  {
    var arguments := HeadArguments(request);
    HeadPrints(request);
    CommandEndMatches(arguments, ShellQuote(request.body));
    var end := Matches(JoinLines(ShellQuote(request.body)));
    BodyIsLast(request);
    WordStaysUnstripped("curl");
    StripTogether(["curl"], arguments + end);
    StripTogether(arguments, end);
    assert StripAll(arguments) == HeadValues(request);
    assert StripAll(["curl"]) == ["curl"];
  }

  lemma BodyIsLast(request: Request)
    requires HasBody(request)
    ensures Arguments(request) == HeadArguments(request) + [ShellQuote(request.body)]
  {
    assert ["--data-raw", ShellQuote(request.body)] == ["--data-raw"] + [ShellQuote(request.body)];
  }

  lemma HeadWalks(request: Request, end: seq<string>) returns (start: Request)
    requires !Dashed(request.url)
    ensures start.body == ""
    ensures Walk(HeadValues(request) + end, EmptyRequest()) == Walk(["--data-raw"] + end, start)
  {
    var headers := EnabledHeaders(request.headers);
    var rest := ["--data-raw"] + end;
    assert HeadValues(request) + end == ["-X", MethodText(request), request.url] + (HeaderValues(headers) + rest);
    WalkStart(MethodText(request), request.url, HeaderValues(headers) + rest);
    start := Request(Some(Upper(MethodText(request))), request.url, [], NoBody, "", NoAuth);
    WalkHeaders(headers, rest, start);
    start := start.(headers := start.headers + RereadHeaders(headers));
  }

  lemma WalkData(data: string, rest: seq<string>, start: Request)
    ensures Walk(["--data-raw", data] + rest, start) == Walk(rest, Apply(DataFlag, "--data-raw", Some(data), start))
  {
    PrintedOptions();
    WalkOption("--data-raw", data, rest, start);
  }

  lemma WalkDataWithoutValue(start: Request)
    ensures Walk(["--data-raw"], start).body == ""
  {
    PrintedOptions();
    assert ["--data-raw"][1..] == [];
    assert Walk([], Apply(DataFlag, "--data-raw", None, start)) == Apply(DataFlag, "--data-raw", None, start);
  }

  lemma BodyAfterData(end: seq<string>, start: Request, body: string)
    requires start.body == "" && body != ""
    ensures end == [body] ==> Walk(["--data-raw"] + end, start).body == body
    ensures body !in end ==> Walk(["--data-raw"] + end, start).body != body
  {
    if end == [] {
      WalkDataWithoutValue(start);
      assert ["--data-raw"] + end == ["--data-raw"];
    } else {
      assert ["--data-raw"] + end == ["--data-raw", end[0]] + end[1..];
      WalkData(end[0], end[1..], start);
      BodyIsAToken(end[1..], Apply(DataFlag, "--data-raw", Some(end[0]), start));
    }
  }

  lemma BearerKeepsBody(request: Request)
    ensures TakeBearer(request).body == request.body
  {
  }

  lemma BodyTokensDecide(body: string)
    requires body != "" && '\'' !in body
    ensures BodySurvives(body) ==> BodyTokens(body) == [body]
    ensures !BodySurvives(body) ==> body !in BodyTokens(body)
  {
    if Paired(JoinLines(body)) {
      PairedBodySurvivesIff(body);
    } else {
      UnpairedBodyTokens(body);
    }
  }

  /** The body that comes back, in terms of the tokens the quoted body is split into. */
  lemma BodyFromTokens(request: Request)
    requires PlainHead(request) && HasBody(request)
    ensures Parsed(Printed(request)).Some?
    ensures BodyTokens(request.body) == [request.body] ==> Parsed(Printed(request)).value.body == request.body
    ensures request.body !in BodyTokens(request.body) ==> Parsed(Printed(request)).value.body != request.body
  {
    var end := BodyTokens(request.body);
    CommandTokens(request);
    var tokens := HeadValues(request) + end;
    assert (["curl"] + tokens)[1..] == tokens;
    assert Lower("curl") == "curl";
    var start := HeadWalks(request, end);
    BearerKeepsBody(Walk(tokens, EmptyRequest()));
    BodyAfterData(end, start, request.body);
  }

  /** A body comes back exactly if it has no single quote and survives. */
  lemma {:induction false} BodyComesBackIff(request: Request)
    requires PlainHead(request) && HasBody(request)
    ensures Parsed(Printed(request)).Some?
    ensures Parsed(Printed(request)).value.body == request.body <==> '\'' !in request.body && BodySurvives(request.body)
  {
    BodyFromTokens(request);
    if '\'' in request.body {
      QuoteIsLost(request.body);
    } else {
      BodyTokensDecide(request.body);
    }
  }

  /** The backslash of an escaped double quote, as JSON bodies have them, is lost. */
  lemma {:induction false} EscapedQuoteIsLost(request: Request)
    requires PlainHead(request) && HasBody(request) && request.body == ['"', '\\', '"', '"']
    ensures Parsed(Printed(request)).Some? && Parsed(Printed(request)).value.body != request.body
  {
    assert request.body[1] == '\\' && request.body[2] == '"';
    BodyComesBackIff(request);
  }

  /** The shell's way of writing a single quote is not one the tokeniser reads: a body with one is never kept. */
  lemma {:induction false} SingleQuoteIsLost(request: Request)
    requires PlainHead(request) && HasBody(request) && '\'' in request.body
    ensures Parsed(Printed(request)).Some? && Parsed(Printed(request)).value.body != request.body
  {
    BodyComesBackIff(request);
  }
}
