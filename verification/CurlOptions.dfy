/**
 What each option of a cURL command means, for every spelling, and which tokens a command written by hand is read as:
 bare words, strings in single quotes and strings in double quotes.
 */
module CurlOptions {
  import opened Options
  import opened Seqs
  import opened JsText
  import opened Curl
  import opened CurlRoundTrip

  // One step of the walk, for each kind of option.

  /** Walking over an option and its value leaves the rest to be walked from the next request. */
  ghost predicate StepsTo(flag: string, value: string, request: Request, next: Request) {
    forall rest :: Walk([flag, value] + rest, request) == Walk(rest, next)
  }

  lemma WalkTwo(flag: string, value: string, request: Request)
    requires !KindOf(flag).Address? && !KindOf(flag).Ignored?
    ensures StepsTo(flag, value, request, Apply(KindOf(flag), flag, Some(value), request))
  {
    forall rest {
      WalkOption(flag, value, rest, request);
    }
  }

  lemma WalkLast(flag: string, request: Request)
    requires !KindOf(flag).Address? && !KindOf(flag).Ignored?
    ensures Walk([flag], request) == Apply(KindOf(flag), flag, None, request)
  {
  }

  lemma MethodSpelling(flag: string)
    requires flag == "-X" || flag == "--request"
    ensures KindOf(flag) == MethodFlag
  {
  }

  lemma HeaderSpelling(flag: string)
    requires flag == "-H" || flag == "--header"
    ensures KindOf(flag) == HeaderFlag
  {
  }

  lemma DataSpelling(flag: string)
    requires flag == "-d" || flag == "--data" || flag == "--data-raw" || flag == "--data-binary"
    ensures KindOf(flag) == DataFlag
  {
  }

  lemma UserSpelling(flag: string)
    requires flag == "-u" || flag == "--user"
    ensures KindOf(flag) == UserFlag
  {
  }

  // Options.

  /** A method option sets the method in upper case; without a value there is no method. */
  lemma MethodOption(flag: string, value: string, request: Request)
    requires flag == "-X" || flag == "--request"
    ensures StepsTo(flag, value, request, request.(verb := Some(Upper(value))))
    ensures Walk([flag], request) == request.(verb := None)
  {
    MethodSpelling(flag);
    WalkTwo(flag, value, request);
    WalkLast(flag, request);
  }

  lemma ReadHeaderAt(name: string, value: string)
    requires ':' !in name
    ensures ReadHeader(name + ":" + value) == [Header(Trim(name), Trim(value), true)]
  {
    var raw := name + [':'] + value;
    FindCharAfter(name, ':', value);
    assert raw[..|name|] == name && raw[|name| + 1..] == value;
  }

  lemma HeaderStep(flag: string, raw: string, request: Request)
    requires KindOf(flag) == HeaderFlag
    ensures StepsTo(flag, raw, request, request.(headers := request.headers + ReadHeader(raw)))
  {
    WalkTwo(flag, raw, request);
  }

  /** A header option adds what stands around the first colon, trimmed, as an enabled header. */
  lemma HeaderOption(flag: string, name: string, value: string, request: Request)
    requires (flag == "-H" || flag == "--header") && ':' !in name
    ensures StepsTo(flag, name + ":" + value, request,
                    request.(headers := request.headers + [Header(Trim(name), Trim(value), true)]))
  {
    HeaderSpelling(flag);
    ReadHeaderAt(name, value);
    HeaderStep(flag, name + ":" + value, request);
  }

  /** A header without a colon is dropped, and so is an option without a value. */
  lemma HeaderWithoutColon(flag: string, value: string, request: Request)
    requires (flag == "-H" || flag == "--header") && ':' !in value
    ensures StepsTo(flag, value, request, request)
    ensures Walk([flag], request) == request
  {
    HeaderSpelling(flag);
    FindChar(value, ':');
    FindChar("", ':');
    assert request.headers + [] == request.headers;
    WalkTwo(flag, value, request);
    WalkLast(flag, request);
  }

  /** A data option is a raw body and makes a GET a POST, and no other method. */
  lemma DataOption(flag: string, value: string, request: Request)
    requires flag == "-d" || flag == "--data" || flag == "--data-raw" || flag == "--data-binary"
    ensures StepsTo(flag, value, request,
      if request.verb == Some("GET") then request.(verb := Some("POST"), bodyMode := Raw, body := value)
      else request.(bodyMode := Raw, body := value))
    ensures Walk([flag], request) == Walk([flag, ""], request)
  {
    DataSpelling(flag);
    WalkTwo(flag, value, request);
    WalkTwo(flag, "", request);
    WalkLast(flag, request);
    assert [flag, ""] + [] == [flag, ""];
  }

  /** A user option is basic authentication with what stands around the first colon. */
  lemma UserOption(flag: string, username: string, password: string, request: Request)
    requires (flag == "-u" || flag == "--user") && ':' !in username
    ensures StepsTo(flag, username + ":" + password, request, request.(auth := Basic(username, password)))
  {
    UserSpelling(flag);
    UserSplits(username, password);
    WalkTwo(flag, username + ":" + password, request);
  }

  /** Without a colon all of it is the name. */
  lemma UserWithoutColon(flag: string, username: string, request: Request)
    requires (flag == "-u" || flag == "--user") && ':' !in username
    ensures StepsTo(flag, username, request, request.(auth := Basic(username, "")))
    ensures Walk([flag], request) == request.(auth := Basic("", ""))
  {
    UserSpelling(flag);
    FindChar(username, ':');
    FindChar("", ':');
    WalkTwo(flag, username, request);
    WalkLast(flag, request);
  }

  /** The options with a value that means nothing for a request. */
  const PASSED_OVER := [
    "-o", "--output", "-A", "--user-agent", "-e", "--referer", "-m", "--max-time", "--connect-timeout",
    "-F", "--form", "--form-string", "-x", "--proxy", "--cert", "--key", "--cacert", "-c", "--cookie-jar",
    "--limit-rate", "--retry", "--resolve", "--interface", "--data-urlencode"
  ]

  /** The options that set something. */
  const READ := [
    "-X", "--request", "-H", "--header", "-d", "--data", "--data-raw", "--data-binary", "-u", "--user"
  ]

  lemma PassedOverIsValueFlag(flag: string)
    requires flag in PASSED_OVER
    ensures ValueFlagName(flag)
  {
  }

  lemma PassedOverKind(flag: string)
    requires flag in PASSED_OVER
    ensures KindOf(flag) == ValueFlag
  {
    PassedOverIsValueFlag(flag);
    ValueFlagKind(flag);
  }

  lemma ValueStep(flag: string, value: string, request: Request)
    requires KindOf(flag) == ValueFlag
    ensures StepsTo(flag, value, request, request)
    ensures Walk([flag], request) == request
  {
    WalkTwo(flag, value, request);
    WalkLast(flag, request);
  }

  /** An option that is passed over takes its value with it, whatever that looks like. */
  lemma PassedOverOption(flag: string, value: string, request: Request)
    requires flag in PASSED_OVER
    ensures StepsTo(flag, value, request, request)
    ensures Walk([flag], request) == request
  {
    PassedOverKind(flag);
    ValueStep(flag, value, request);
  }

  lemma UnlistedIsNoValueFlag(token: string)
    requires token !in PASSED_OVER
    ensures !ValueFlagName(token)
  {
  }

  lemma OtherKind(token: string)
    requires token !in READ && !ValueFlagName(token)
    ensures KindOf(token) == if Dashed(token) then Ignored else Address
  {
  }

  lemma OtherTokenKind(token: string)
    requires token !in READ && token !in PASSED_OVER
    ensures KindOf(token) == if Dashed(token) then Ignored else Address
  {
    UnlistedIsNoValueFlag(token);
    OtherKind(token);
  }

  lemma WalkAlone(token: string, rest: seq<string>, request: Request)
    requires KindOf(token) == if Dashed(token) then Ignored else Address
    ensures Walk([token] + rest, request) == Walk(rest, if Dashed(token) then request else request.(url := token))
  {
    assert ([token] + rest)[1..] == rest;
  }

  /** Any other token with a dash is ignored alone, and one without is the address. */
  lemma OtherToken(token: string, rest: seq<string>, request: Request)
    requires token !in READ && token !in PASSED_OVER
    ensures Walk([token] + rest, request) == Walk(rest, if Dashed(token) then request else request.(url := token))
  {
    OtherTokenKind(token);
    WalkAlone(token, rest, request);
  }

  // Bearer tokens.

  lemma {:induction false} FirstAuthorization(before: seq<Header>, header: Header, after: seq<Header>)
    requires Lower(header.key) == "authorization"
    requires forall h <- before :: Lower(h.key) != "authorization"
    ensures FindAuthorization(before + [header] + after) == |before|
  {
    if before == [] {
      assert (before + [header] + after)[0] == header;
    } else {
      assert (before + [header] + after)[1..] == before[1..] + [header] + after;
      assert before[0] in before && (before + [header] + after)[0] == before[0];
      FirstAuthorization(before[1..], header, after);
    }
  }

  lemma BearerIsTaken(request: Request, before: seq<Header>, header: Header, after: seq<Header>, scheme: string,
                      token: string)
    requires request.headers == before + [header] + after && header.value == scheme + token
    requires Lower(header.key) == "authorization" && Lower(scheme) == "bearer "
    requires forall h <- before :: Lower(h.key) != "authorization"
    ensures TakeBearer(request) == request.(auth := Bearer(token), headers := before + after)
  {
    FirstAuthorization(before, header, after);
    assert |scheme| == |Lower(scheme)| == 7;
    assert Lower(header.value)[..7] == Lower(scheme);
    assert header.value[7..] == token;
    assert request.headers[..|before|] == before && request.headers[|before| + 1..] == after;
  }

  predicate IsFirstAuthorization(headers: seq<Header>, i: nat)
    requires i < |headers|
  {
    Lower(headers[i].key) == "authorization" && forall j :: 0 <= j < i ==> Lower(headers[j].key) != "authorization"
  }

  /** Without a first authorization header of that scheme nothing changes. */
  lemma OtherwiseUntaken(request: Request)
    requires forall i :: 0 <= i < |request.headers| && IsFirstAuthorization(request.headers, i) ==>
      !StartsWith(Lower(request.headers[i].value), "bearer ")
    ensures TakeBearer(request) == request
  {
    FoundIsFirst(request.headers);
  }

  lemma {:induction false} FoundIsFirst(headers: seq<Header>)
    ensures var index := FindAuthorization(headers);
      && (index >= 0 ==> Lower(headers[index].key) == "authorization")
      && forall j :: 0 <= j < |headers| && (index < 0 || j < index) ==> Lower(headers[j].key) != "authorization"
  {
    if headers != [] && Lower(headers[0].key) != "authorization" {
      FoundIsFirst(headers[1..]);
      var index := FindAuthorization(headers);
      forall j | 0 < j < |headers| && (index < 0 || j < index)
        ensures Lower(headers[j].key) != "authorization"
      {
        assert headers[1..][j - 1] == headers[j];
      }
    }
  }

  /** A command is walked from the request of a new tab if its first token is the program name in any case. */
  lemma CommandIsWalked(command: string, name: string, rest: seq<string>)
    requires Tokens(command) == [name] + rest
    ensures Parsed(command)
         == if Lower(name) == "curl" then Some(TakeBearer(Walk(rest, Request(Some("GET"), "", [], NoBody, "", NoAuth))))
            else None
  {
  }

  // Commands written by hand.

  /** A token as a shell user writes it. */
  datatype Piece = Bare(value: string) | Single(value: string) | Double(value: string)

  /** Double quotes inside double quotes after a backslash. */
  function EscapeDouble(s: string): string {
    if s == "" then "" else (if s[0] == '"' then ['\\', '"'] else [s[0]]) + EscapeDouble(s[1..])
  }

  predicate Writable(piece: Piece) {
    match piece
    case Bare(value) => Word(value)
    case Single(value) => Plain(value)
    case Double(value) => '\\' !in value
  }

  function Written(piece: Piece): string {
    match piece
    case Bare(value) => value
    case Single(value) => ['\''] + value + ['\'']
    case Double(value) => ['"'] + EscapeDouble(value) + ['"']
  }

  function WrittenAll(pieces: seq<Piece>): string {
    if pieces == [] then "" else [' '] + Written(pieces[0]) + WrittenAll(pieces[1..])
  }

  function PieceValues(pieces: seq<Piece>): seq<string> {
    seq(|pieces|, i requires 0 <= i < |pieces| => pieces[i].value)
  }

  lemma ClosesAfterOne(c: char, t: string, n: nat)
    requires c != '"' && c != '\\' && Closing(t, '"') == n + 1
    ensures Closing([c] + t, '"') == n + 2
  {
    assert ([c] + t)[1..] == t;
  }

  lemma ClosesAfterEscape(t: string, n: nat)
    requires Closing(t, '"') == n + 1
    ensures Closing(['\\', '"'] + t, '"') == n + 3
  {
    assert (['\\', '"'] + t)[2..] == t;
  }

  lemma {:induction false} EscapedCloses(s: string, end: string)
    requires '\\' !in s && end != "" && end[0] == '"'
    ensures Closing(EscapeDouble(s) + end, '"') == |EscapeDouble(s)| + 1
  {
    if s == "" {
      assert EscapeDouble(s) + end == end;
    } else {
      assert s[0] in s && forall c <- s[1..] :: c in s;
      EscapedCloses(s[1..], end);
      var tail := EscapeDouble(s[1..]);
      if s[0] == '"' {
        ClosesAfterEscape(tail + end, |tail|);
        ConcatAssociates(['\\', '"'], tail, end);
      } else {
        ClosesAfterOne(s[0], tail + end, |tail|);
        ConcatAssociates([s[0]], tail, end);
      }
    }
  }

  lemma {:induction false} EscapedUnescapes(s: string)
    requires '\\' !in s
    ensures Unescape(EscapeDouble(s), '"', '"') == s
  {
    if s != "" {
      assert s[0] in s && forall c <- s[1..] :: c in s;
      EscapedUnescapes(s[1..]);
      var t := EscapeDouble(s);
      if s[0] == '"' {
        assert t[2..] == EscapeDouble(s[1..]);
      } else {
        assert t[1..] == EscapeDouble(s[1..]);
      }
      assert s == [s[0]] + s[1..];
    }
  }

  lemma {:induction false} EscapedHasNoContinuation(s: string)
    requires '\\' !in s
    ensures forall i :: 0 <= i < |EscapeDouble(s)| && EscapeDouble(s)[i] == '\\' ==>
      i + 1 < |EscapeDouble(s)| && EscapeDouble(s)[i + 1] == '"'
  {
    if s != "" {
      assert s[0] in s && forall c <- s[1..] :: c in s;
      EscapedHasNoContinuation(s[1..]);
      var n := if s[0] == '"' then 2 else 1;
      assert EscapeDouble(s)[n..] == EscapeDouble(s[1..]);
      forall i | n <= i < |EscapeDouble(s)| && EscapeDouble(s)[i] == '\\'
        ensures i + 1 < |EscapeDouble(s)| && EscapeDouble(s)[i + 1] == '"'
      {
        assert EscapeDouble(s)[i] == EscapeDouble(s[1..])[i - n];
      }
    }
  }

  lemma DoubleIsSolid(s: string)
    requires '\\' !in s
    ensures Solid(['"'] + EscapeDouble(s) + ['"'])
  {
    EscapedHasNoContinuation(s);
    var (t, a) := (EscapeDouble(s), ['"'] + EscapeDouble(s) + ['"']);
    forall i | 0 <= i < |a| - 1 && a[i] == '\\'
      ensures a[i + 1] == '"'
    {
      assert t[i - 1] == a[i] && t[i] == a[i + 1];
    }
  }

  lemma SingleIsQuoted(s: string)
    requires Plain(s)
    ensures Quoted(['\''] + s + ['\''])
  {
    assert (['\''] + s + ['\''])[1..|s| + 1] == s;
  }

  lemma PieceIsSolid(piece: Piece)
    requires Writable(piece)
    ensures Solid(Written(piece))
  {
    match piece {
      case Bare(value) => ArgumentIsSolid(value);
      case Single(value) => SingleIsQuoted(value); ArgumentIsSolid(Written(piece));
      case Double(value) => DoubleIsSolid(value);
    }
  }

  lemma DoubleMatches(s: string, rest: string)
    requires '\\' !in s
    ensures Matches((['"'] + EscapeDouble(s) + ['"']) + rest) == [['"'] + EscapeDouble(s) + ['"']] + Matches(rest)
  {
    var quoted := ['"'] + EscapeDouble(s) + ['"'];
    EscapedCloses(s, ['"'] + rest);
    assert (quoted + rest)[1..] == EscapeDouble(s) + (['"'] + rest);
    assert (quoted + rest)[..|quoted|] == quoted && (quoted + rest)[|quoted|..] == rest;
  }

  lemma PieceMatches(piece: Piece, rest: string)
    requires Writable(piece) && (rest == "" || rest[0] == ' ')
    ensures Matches(Written(piece) + rest) == [Written(piece)] + Matches(rest)
  {
    match piece {
      case Bare(value) => ArgumentMatches(value, rest);
      case Single(value) => SingleIsQuoted(value); ArgumentMatches(Written(piece), rest);
      case Double(value) => DoubleMatches(value, rest);
    }
  }

  lemma PieceStrips(piece: Piece)
    requires Writable(piece)
    ensures StripQuotes(Written(piece)) == piece.value
  {
    match piece {
      case Bare(value) => WordStaysUnstripped(value);
      case Single(value) => QuotedStrips(value);
      case Double(value) => DoubleStrips(value);
    }
  }

  lemma DoubleStrips(s: string)
    requires '\\' !in s
    ensures StripQuotes(['"'] + EscapeDouble(s) + ['"']) == s
  {
    var quoted := ['"'] + EscapeDouble(s) + ['"'];
    assert quoted[1..|quoted| - 1] == EscapeDouble(s);
    EscapedUnescapes(s);
    assert forall i :: 0 <= i < |s| ==> s[i] in s;
    UnescapeKeeps(s, '\'', '\'');
  }

  lemma {:induction false} PiecesJoin(pieces: seq<Piece>)
    requires forall piece <- pieces :: Writable(piece)
    ensures JoinLines(WrittenAll(pieces)) == WrittenAll(pieces)
  {
    if pieces != [] {
      assert pieces[0] in pieces && forall piece <- pieces[1..] :: piece in pieces;
      PiecesJoin(pieces[1..]);
      PieceIsSolid(pieces[0]);
      SolidJoins(Written(pieces[0]), WrittenAll(pieces[1..]));
      PlainCharJoins(' ', Written(pieces[0]) + WrittenAll(pieces[1..]));
      ConcatAssociates([' '], Written(pieces[0]), WrittenAll(pieces[1..]));
    }
  }

  function WrittenEach(pieces: seq<Piece>): seq<string> {
    seq(|pieces|, i requires 0 <= i < |pieces| => Written(pieces[i]))
  }

  lemma PieceMatchesAfterSpace(piece: Piece, rest: string)
    requires Writable(piece) && (rest == "" || rest[0] == ' ')
    ensures Matches([' '] + Written(piece) + rest) == [Written(piece)] + Matches(rest)
  {
    PieceMatches(piece, rest);
    SpaceMatchesNothing(Written(piece) + rest);
    ConcatAssociates([' '], Written(piece), rest);
  }

  lemma {:induction false} PiecesMatch(pieces: seq<Piece>)
    requires forall piece <- pieces :: Writable(piece)
    ensures Matches(WrittenAll(pieces)) == WrittenEach(pieces)
  {
    if pieces != [] {
      assert pieces[0] in pieces && forall piece <- pieces[1..] :: piece in pieces;
      PiecesMatch(pieces[1..]);
      PieceMatchesAfterSpace(pieces[0], WrittenAll(pieces[1..]));
      assert WrittenEach(pieces) == [Written(pieces[0])] + WrittenEach(pieces[1..]);
    }
  }

  lemma PiecesStrip(pieces: seq<Piece>)
    requires forall piece <- pieces :: Writable(piece)
    ensures StripAll(WrittenEach(pieces)) == PieceValues(pieces)
  {
    forall i | 0 <= i < |pieces|
      ensures StripQuotes(Written(pieces[i])) == pieces[i].value
    {
      assert pieces[i] in pieces;
      PieceStrips(pieces[i]);
    }
  }

  /** A command of bare words and quoted strings is read as the program name and their values. */
  lemma {:induction false} WrittenTokens(name: string, pieces: seq<Piece>)
    requires Word(name) && forall piece <- pieces :: Writable(piece)
    ensures Tokens(name + WrittenAll(pieces)) == [name] + PieceValues(pieces)
  {
    var rest := WrittenAll(pieces);
    PiecesJoin(pieces);
    ArgumentIsSolid(name);
    SolidJoins(name, rest);
    PieceMatches(Bare(name), rest);
    PiecesMatch(pieces);
    PiecesStrip(pieces);
    WordStaysUnstripped(name);
    StripTogether([name], WrittenEach(pieces));
    assert StripAll([name]) == [name];
  }
}
