/** The mock server's store: calls pick the responses of a route in turn, and a bounded log remembers them. */
module GrpcMockStore {
  import opened Options
  import opened Seqs
  import opened GrpcReplay
  import opened Remainders

  datatype Log = Log(fullMethod: string, requestBody: string, responseBody: string, statusCode: int, matched: bool)

  /** `Defect` stands for the exception thrown for a route without responses. */
  datatype Reply =
    | Reply(
        bodyJson: string, statusCode: int, statusMessage: string, trailers: seq<Trailer>, durationMs: nat,
        error: Option<string>)
    | Defect

  datatype Store = Store(routes: seq<Route>, logs: seq<Log>, sequenceIndex: map<string, nat>)

  const MAX_LOGS: nat := 1000

  predicate Serves(route: Route, fullMethod: string) {
    route.enabled != Some(false) && route.fullMethod == fullMethod
  }

  /** The first enabled route of the method. */
  function FindRoute(routes: seq<Route>, fullMethod: string): (r: Option<Route>)
    ensures r.Some? ==> r.value in routes && Serves(r.value, fullMethod)
    ensures r.None? <==> forall route <- routes :: !Serves(route, fullMethod)
  {
    if routes == [] then None
    else if Serves(routes[0], fullMethod) then Some(routes[0])
    else
      assert routes == [routes[0]] + routes[1..];
      FindRoute(routes[1..], fullMethod)
  }

  function NoRoute(fullMethod: string): Reply {
    var message := "No mock route for " + fullMethod;
    Reply("", 12, message, [], 0, Some(message))
  }

  function Answer(route: Route, response: Response): Reply {
    Reply(response.bodyJson, response.statusCode.GetOr(0), response.statusMessage.GetOr("OK"),
      response.trailers.GetOr([]), route.latencyMs.GetOr(0), None)
  }

  /** What the next call to a method is answered with. */
  function Decision(s: Store, fullMethod: string): Reply {
    match FindRoute(s.routes, fullMethod)
    case None => NoRoute(fullMethod)
    case Some(route) =>
      if route.responses == [] then Defect
      else Answer(route, route.responses[Lookup(s.sequenceIndex, fullMethod).GetOr(0) % |route.responses|])
  }

  function Called(s: Store, fullMethod: string): Store {
    match FindRoute(s.routes, fullMethod)
    case None => s
    case Some(route) =>
      if route.responses == [] then s
      else s.(sequenceIndex := s.sequenceIndex[fullMethod := Lookup(s.sequenceIndex, fullMethod).GetOr(0) + 1])
  }

  function WithDefaults(routes: seq<Route>): seq<Route> {
    seq(|routes|, i requires 0 <= i < |routes| => routes[i].(enabled := Some(routes[i].enabled.GetOr(true))))
  }

  function Replaced(s: Store, routes: seq<Route>): Store {
    s.(routes := WithDefaults(routes), sequenceIndex := map[])
  }

  function Trimmed(logs: seq<Log>): seq<Log> {
    if |logs| > MAX_LOGS then logs[|logs| - MAX_LOGS..] else logs
  }

  function Logged(s: Store, log: Log): Store {
    s.(logs := Trimmed(s.logs + [log]))
  }

  class MockGrpcStore {
    var state: Store

    constructor ()
      ensures state == Store([], [], map[])
    {
      state := Store([], [], map[]);
    }

    method ReplaceRoutes(routes: seq<Route>) returns (count: nat)
      modifies this
      ensures count == |routes| && state == Replaced(old(state), routes)
    {
      var next: seq<Route> := [];
      for n := 0 to |routes|
        invariant next == WithDefaults(routes)[..n]
      {
        next := next + [routes[n].(enabled := Some(routes[n].enabled.GetOr(true)))];
      }
      state := state.(routes := next, sequenceIndex := map[]);
      count := |next|;
    }

    /** The first atomic region of `invoke`: pick the response and advance the sequence. */
    method Decide(fullMethod: string, bodyJson: string) returns (reply: Reply, log: Option<Log>)
      modifies this
      ensures reply == Decision(old(state), fullMethod) && state == Called(old(state), fullMethod)
      ensures log == match reply
        case Defect => None
        case Reply(body, status, _, _, _, error) => Some(Log(fullMethod, bodyJson, body, status, error.None?))
    {
      match FindRoute(state.routes, fullMethod) {
        case None =>
          reply := NoRoute(fullMethod);
          log := Some(Log(fullMethod, bodyJson, "", 12, false));
        case Some(route) =>
          var idx := Lookup(state.sequenceIndex, route.fullMethod).GetOr(0);
          if |route.responses| == 0 {
            return Defect, None;
          }
          var response := route.responses[idx % |route.responses|];
          state := state.(sequenceIndex := state.sequenceIndex[route.fullMethod := idx + 1]);
          reply := Reply(response.bodyJson, response.statusCode.GetOr(0), response.statusMessage.GetOr("OK"),
            response.trailers.GetOr([]), route.latencyMs.GetOr(0), None);
          log := Some(Log(fullMethod, bodyJson, response.bodyJson, response.statusCode.GetOr(0), true));
      }
    }

    /** The second atomic region of `invoke`, after the latency: append to the log. */
    method AppendLog(log: Log)
      modifies this
      ensures state == Logged(old(state), log)
    {
      var logs := state.logs + [log];
      if |logs| > MAX_LOGS {
        logs := logs[|logs| - MAX_LOGS..];
      }
      state := state.(logs := logs);
    }

    method ClearLogs()
      modifies this
      ensures state == old(state).(logs := [])
    {
      state := state.(logs := []);
    }

    method Reset()
      modifies this
      ensures state == Store([], [], map[])
    {
      state := Store([], [], map[]);
    }
  }

  // Runs: the atomic regions in any order.

  datatype Event = Replace(routes: seq<Route>) | Call(fullMethod: string) | Append(log: Log) | Clear | ResetAll

  function Step(s: Store, event: Event): Store {
    match event
    case Replace(routes) => Replaced(s, routes)
    case Call(fullMethod) => Called(s, fullMethod)
    case Append(log) => Logged(s, log)
    case Clear => s.(logs := [])
    case ResetAll => Store([], [], map[])
  }

  function After(s: Store, events: seq<Event>): Store {
    if events == [] then s else Step(After(s, Front(events)), Last(events))
  }

  /** The routes are left alone. */
  predicate Quiet(events: seq<Event>) {
    forall e <- events :: !e.Replace? && !e.ResetAll?
  }

  function Calls(events: seq<Event>): seq<string> {
    if events == [] then []
    else Calls(Front(events)) + (if Last(events).Call? then [Last(events).fullMethod] else [])
  }

  function Count(names: seq<string>, name: string): nat {
    if names == [] then 0 else Count(Front(names), name) + (if Last(names) == name then 1 else 0)
  }

  /** How far a method's sequence has come. */
  function Position(s: Store, fullMethod: string): nat {
    Lookup(s.sequenceIndex, fullMethod).GetOr(0)
  }

  predicate Advances(s: Store, fullMethod: string) {
    var route := FindRoute(s.routes, fullMethod);
    route.Some? && route.value.responses != []
  }

  lemma CountNext(names: seq<string>, next: seq<string>, name: string)
    requires |next| <= 1
    ensures Count(names + next, name) == Count(names, name) + (if next == [name] then 1 else 0)
  {
    if next == [] {
      assert names + next == names;
    } else {
      assert Front(names + next) == names;
    }
  }

  /** Only a method's own calls move its sequence. */
  lemma {:induction false} PositionCountsCalls(s: Store, events: seq<Event>, fullMethod: string)
    requires Quiet(events)
    ensures After(s, events).routes == s.routes
    ensures Advances(s, fullMethod) ==>
      Position(After(s, events), fullMethod) == Position(s, fullMethod) + Count(Calls(events), fullMethod)
  {
    if events != [] {
      var before, last := Front(events), Last(events);
      assert events == before + [last];
      PositionCountsCalls(s, before, fullMethod);
      CountNext(Calls(before), if last.Call? then [last.fullMethod] else [], fullMethod);
    }
  }

  /**
   After the routes were loaded, a call is answered with the response whose number is the count of earlier calls to
   the same method, modulo the number of responses, under any interleaving with other calls and log updates.
   */
  lemma {:induction false} ResponsesComeInTurn(s: Store, routes: seq<Route>, events: seq<Event>, fullMethod: string)
    requires Quiet(events)
    ensures var found := FindRoute(WithDefaults(routes), fullMethod);
      Decision(After(Replaced(s, routes), events), fullMethod) ==
        if found.None? then NoRoute(fullMethod)
        else if found.value.responses == [] then Defect
        else Answer(found.value,
          found.value.responses[Count(Calls(events), fullMethod) % |found.value.responses|])
  {
    PositionCountsCalls(Replaced(s, routes), events, fullMethod);
  }

  // The log.

  /** Everything appended since the log was last cleared. */
  function Appended(events: seq<Event>): seq<Log> {
    if events == [] then []
    else
      match Last(events)
      case Append(log) => Appended(Front(events)) + [log]
      case Clear => []
      case ResetAll => []
      case Replace(_) => Appended(Front(events))
      case Call(_) => Appended(Front(events))
  }

  lemma TrimmedAgain(logs: seq<Log>, log: Log)
    ensures Trimmed(Trimmed(logs) + [log]) == Trimmed(logs + [log])
  {
  }

  /** The log holds the last thousand entries appended since it was cleared, in order. */
  lemma {:induction false} LogKeepsTheLast(events: seq<Event>)
    ensures After(Store([], [], map[]), events).logs == Trimmed(Appended(events))
  {
    if events != [] {
      LogKeepsTheLast(Front(events));
      if Last(events).Append? {
        TrimmedAgain(Appended(Front(events)), Last(events).log);
      }
    }
  }

  // Replaying a recording.

  function Names(entries: seq<Entry>): seq<string> {
    seq(|entries|, i requires 0 <= i < |entries| => entries[i].fullMethod)
  }

  /** What the recorded call returned. */
  function Outcome(entry: Entry): Reply {
    Reply(entry.responseBody, entry.statusCode, entry.statusMessage, entry.trailers, 0, None)
  }

  lemma ReplayFindsRoute(entries: seq<Entry>, fullMethod: string)
    requires exists i :: 0 <= i < |entries| && entries[i].fullMethod == fullMethod
    ensures FindRoute(WithDefaults(ReplayRoutes(entries)), fullMethod)
         == Some(Route(fullMethod, ResponsesOf(entries, fullMethod), None, Some(true)))
    ensures ResponsesOf(entries, fullMethod) != []
  {
    var i :| 0 <= i < |entries| && entries[i].fullMethod == fullMethod;
    assert entries[i] in entries;
    var ms, routes := Methods(entries), WithDefaults(ReplayRoutes(entries));
    var k :| 0 <= k < |ms| && ms[k] == fullMethod;
    assert Serves(routes[k], fullMethod);
    forall route | route in routes && Serves(route, fullMethod)
      ensures route == routes[k]
    {
      var j :| 0 <= j < |routes| && routes[j] == route;
      assert ms[j] == ms[k];
    }
  }

  lemma {:induction false} ResponsesAreCounted(entries: seq<Entry>, fullMethod: string)
    ensures |ResponsesOf(entries, fullMethod)| == Count(Names(entries), fullMethod)
  {
    if entries != [] {
      ResponsesAreCounted(Front(entries), fullMethod);
      assert Front(Names(entries)) == Names(Front(entries));
    }
  }

  /** The recorded response of an entry has the number of its earlier calls. */
  lemma {:induction false} ResponseNumber(entries: seq<Entry>, i: nat)
    requires i < |entries|
    ensures var name := entries[i].fullMethod;
      var k := Count(Names(entries)[..i], name);
      k < |ResponsesOf(entries, name)| && ResponsesOf(entries, name)[k] == ResponseOf(entries[i])
  {
    var before, name := Front(entries), entries[i].fullMethod;
    if i == |before| {
      ResponsesAreCounted(before, name);
      assert Names(entries)[..i] == Names(before);
    } else {
      ResponseNumber(before, i);
      assert Names(entries)[..i] == Names(before)[..i];
    }
  }

  /** The k-th call to a recorded method returns its recorded response number k, starting over at the end. */
  lemma {:induction false} ReplayComesInTurn(s: Store, entries: seq<Entry>, events: seq<Event>, fullMethod: string)
    requires Quiet(events) && exists i :: 0 <= i < |entries| && entries[i].fullMethod == fullMethod
    ensures var responses, k := ResponsesOf(entries, fullMethod), Count(Calls(events), fullMethod);
      && responses != []
      && Decision(After(Replaced(s, ReplayRoutes(entries)), events), fullMethod)
        == Answer(Route(fullMethod, responses, None, Some(true)), responses[k % |responses|])
  {
    ReplayFindsRoute(entries, fullMethod);
    ResponsesComeInTurn(s, ReplayRoutes(entries), events, fullMethod);
  }

  // Repeating the recorded calls.

  /** The calls follow the recorded ones over and over. */
  predicate Repeats(calls: seq<string>, names: seq<string>)
    requires names != []
  {
    forall q :: 0 <= q < |calls| ==> calls[q] == names[q % |names|]
  }

  lemma {:induction false} CountConcat(a: seq<string>, b: seq<string>, name: string)
    ensures Count(a + b, name) == Count(a, name) + Count(b, name)
  {
    if b == [] {
      assert a + b == a;
    } else {
      assert Front(a + b) == a + Front(b);
      CountConcat(a, Front(b), name);
    }
  }

  lemma LaterRounds(calls: seq<string>, names: seq<string>)
    requires names != [] && Repeats(calls, names) && |calls| >= |names|
    ensures calls[..|names|] == names && Repeats(calls[|names|..], names)
  {
    var n, rest := |names|, calls[|names|..];
    forall q | 0 <= q < |rest|
      ensures rest[q] == names[q % n]
    {
      RoundVanishes(n, q);
      assert rest[q] == calls[n + q];
    }
    forall q | 0 <= q < n
      ensures calls[q] == names[q]
    {
      SmallStays(q, n);
    }
  }

  lemma FirstRound(calls: seq<string>, names: seq<string>)
    requires names != [] && Repeats(calls, names) && |calls| < |names|
    ensures |calls| % |names| == |calls| && calls == names[..|calls|]
  {
    SmallStays(|calls|, |names|);
    forall q | 0 <= q < |calls|
      ensures calls[q] == names[q]
    {
      SmallStays(q, |names|);
    }
  }

  lemma OneRound(calls: seq<string>, names: seq<string>, name: string)
    requires names != [] && Repeats(calls, names) && |calls| >= |names|
    ensures var rest := calls[|names|..];
      && |calls| == |names| + |rest| && Count(calls, name) == Count(names, name) + Count(rest, name)
      && Repeats(rest, names)
  {
    var rest := calls[|names|..];
    LaterRounds(calls, names);
    assert calls == names + rest;
    CountConcat(names, rest, name);
  }

  lemma RoundsCounted(calls: seq<string>, names: seq<string>, name: string)
    requires names != [] && Repeats(calls, names) && |calls| >= |names| && Count(names, name) > 0
    ensures var rest := calls[|names|..];
      && |calls| % |names| == |rest| % |names|
      && Count(calls, name) % Count(names, name) == Count(rest, name) % Count(names, name)
      && Repeats(rest, names)
  {
    var rest := calls[|names|..];
    OneRound(calls, names, name);
    RoundVanishes(|names|, |rest|);
    RoundVanishes(Count(names, name), Count(rest, name));
  }

  /** Whole rounds do not count modulo the calls of one round. */
  lemma {:induction false} RoundsVanish(calls: seq<string>, names: seq<string>, name: string)
    requires names != [] && Repeats(calls, names) && Count(names, name) > 0
    ensures Count(calls, name) % Count(names, name)
         == Count(names[..|calls| % |names|], name) % Count(names, name)
    decreases |calls|
  {
    if |calls| < |names| {
      FirstRound(calls, names);
    } else {
      RoundsCounted(calls, names, name);
      RoundsVanish(calls[|names|..], names, name);
    }
  }

  lemma {:induction false} CallsPrefix(events: seq<Event>, j: nat)
    requires j < |events| && events[j].Call?
    ensures |Calls(events[..j])| < |Calls(events)|
    ensures Calls(events)[..|Calls(events[..j])|] == Calls(events[..j])
    ensures Calls(events)[|Calls(events[..j])|] == events[j].fullMethod
  {
    var before := Front(events);
    if j == |before| {
      assert events[..j] == before;
    } else {
      assert before[..j] == events[..j];
      CallsPrefix(before, j);
    }
  }

  lemma OutcomeOfPosition(entries: seq<Entry>, i: nat, k: nat)
    requires i < |entries|
    requires var name := entries[i].fullMethod;
      Count(Names(entries), name) > 0
      && k % Count(Names(entries), name) == Count(Names(entries)[..i], name) % Count(Names(entries), name)
    ensures var responses := ResponsesOf(entries, entries[i].fullMethod);
      |responses| > 0 && responses[k % |responses|] == ResponseOf(entries[i])
  {
    var name := entries[i].fullMethod;
    ResponsesAreCounted(entries, name);
    ResponseNumber(entries, i);
    SmallStays(Count(Names(entries)[..i], name), Count(Names(entries), name));
  }

  /**
   Replaying the recorded calls in their order, as often as one likes and with log updates in between, returns what
   was recorded: the p-th call is answered like recorded call number p modulo the length of the recording.
   */
  lemma {:induction false} ReplayReproducesRecording(s: Store, entries: seq<Entry>, events: seq<Event>, j: nat)
    requires entries != [] && Quiet(events) && j < |events| && events[j].Call?
    requires Repeats(Calls(events), Names(entries))
    ensures Decision(After(Replaced(s, ReplayRoutes(entries)), events[..j]), events[j].fullMethod)
         == Outcome(entries[|Calls(events[..j])| % |entries|])
  {
    var names, calls := Names(entries), Calls(events[..j]);
    var i := |calls| % |entries|;
    var name := entries[i].fullMethod;
    CallsPrefix(events, j);
    assert events[j].fullMethod == names[i] == name;
    ReplayComesInTurn(s, entries, events[..j], name);
    ResponsesAreCounted(entries, name);
    assert Repeats(calls, names) by {
      assert forall q :: 0 <= q < |calls| ==> calls[q] == Calls(events)[q];
    }
    RoundsVanish(calls, names, name);
    OutcomeOfPosition(entries, i, Count(calls, name));
  }

  /** From recording to replay: what a session recorded is what its fixture returns. */
  lemma {:induction false} RecordingIsReproduced(
    recorder: Recording, id: string, name: string, address: string, entries: seq<Entry>,
    s: Store, events: seq<Event>, j: nat
  )
    requires entries != [] && forall f <- recorder.fixtures :: f.id != id
    requires Quiet(events) && j < |events| && events[j].Call? && Repeats(Calls(events), Names(entries))
    ensures var stopped := Stopped(RecordedAll(Started(recorder, id, name, address), entries));
      var index := FixtureIndex(stopped.fixtures, id);
      && index >= 0
      && Decision(After(Replaced(s, ReplayRoutes(stopped.fixtures[index].entries)), events[..j]), events[j].fullMethod)
        == Outcome(entries[|Calls(events[..j])| % |entries|])
  {
    SessionIsKept(recorder, id, name, address, entries);
    SessionIsFound(recorder.fixtures, Fixture(id, name, address, entries));
    ReplayReproducesRecording(s, entries, events, j);
  }
}
