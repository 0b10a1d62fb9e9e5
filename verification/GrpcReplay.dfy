/**
 Recording and replaying gRPC calls. The recorder collects the entries between a start and a stop and turns them into
 mock routes; the store serves the responses of a route in turn, whatever else happens in between.
 */
module GrpcReplay {
  import opened Options
  import opened Seqs

  datatype Trailer = Trailer(key: string, value: string)

  datatype Entry = Entry(
    fullMethod: string, requestBody: string, responseBody: string,
    statusCode: int, statusMessage: string, trailers: seq<Trailer>
  )

  datatype Fixture = Fixture(id: string, name: string, address: string, entries: seq<Entry>)

  datatype Response = Response(
    bodyJson: string, statusCode: Option<int>, statusMessage: Option<string>, trailers: Option<seq<Trailer>>
  )

  datatype Route = Route(fullMethod: string, responses: seq<Response>, latencyMs: Option<nat>, enabled: Option<bool>)

  // The recorder.

  datatype Recording = Recording(recording: bool, active: Option<Fixture>, fixtures: seq<Fixture>)

  function Started(s: Recording, id: string, name: string, address: string): Recording {
    s.(recording := true, active := Some(Fixture(id, name, address, [])))
  }

  function Stopped(s: Recording): Recording {
    Recording(false, None,
      if s.active.Some? && s.active.value.entries != [] then s.fixtures + [s.active.value] else s.fixtures)
  }

  function Recorded(s: Recording, entry: Entry): Recording {
    if s.recording && s.active.Some? then
      s.(active := Some(s.active.value.(entries := s.active.value.entries + [entry])))
    else s
  }

  function RecordedAll(s: Recording, entries: seq<Entry>): Recording
    decreases |entries|
  {
    if entries == [] then s else RecordedAll(Recorded(s, entries[0]), entries[1..])
  }

  function FixtureIndex(fixtures: seq<Fixture>, id: string): (r: int)
    ensures -1 <= r < |fixtures|
    ensures r >= 0 ==> fixtures[r].id == id
    ensures forall i :: 0 <= i < |fixtures| && (r < 0 || i < r) ==> fixtures[i].id != id
  {
    if fixtures == [] then -1
    else if fixtures[0].id == id then 0
    else
      var rest := FixtureIndex(fixtures[1..], id);
      assert forall i :: 0 < i < |fixtures| ==> fixtures[i] == fixtures[1..][i - 1];
      if rest < 0 then -1 else rest + 1
  }

  function ResponseOf(entry: Entry): Response {
    Response(entry.responseBody, Some(entry.statusCode), Some(entry.statusMessage), Some(entry.trailers))
  }

  /** The recorded responses of one method, in order. */
  function ResponsesOf(entries: seq<Entry>, fullMethod: string): seq<Response> {
    if entries == [] then []
    else
      var last := if Last(entries).fullMethod == fullMethod then [ResponseOf(Last(entries))] else [];
      ResponsesOf(Front(entries), fullMethod) + last
  }

  /** The recorded methods in the order of their first call. */
  function Methods(entries: seq<Entry>): (r: seq<string>)
    ensures forall i, j :: 0 <= i < j < |r| ==> r[i] != r[j]
    ensures forall e <- entries :: e.fullMethod in r
    ensures forall m <- r :: ResponsesOf(entries, m) != []
  {
    if entries == [] then []
    else
      var earlier, last := Methods(Front(entries)), Last(entries);
      assert entries == Front(entries) + [last];
      if last.fullMethod in earlier then earlier else earlier + [last.fullMethod]
  }

  function ReplayRoutes(entries: seq<Entry>): seq<Route> {
    var ms := Methods(entries);
    seq(|ms|, i requires 0 <= i < |ms| => Route(ms[i], ResponsesOf(entries, ms[i]), None, Some(true)))
  }

  /** The responses of the recorded methods, and the methods in the order of their first call. */
  ghost predicate ByMethod(entries: seq<Entry>, routeMap: map<string, seq<Response>>, keys: seq<string>) {
    && keys == Methods(entries) && (forall m :: m in routeMap <==> m in keys)
    && (forall m <- routeMap :: routeMap[m] == ResponsesOf(entries, m))
    && forall m :: m !in keys ==> ResponsesOf(entries, m) == []
  }

  lemma ResponsesNext(entries: seq<Entry>, m: string)
    requires entries != []
    ensures ResponsesOf(entries, m)
         == if Last(entries).fullMethod == m then ResponsesOf(Front(entries), m) + [ResponseOf(Last(entries))]
            else ResponsesOf(Front(entries), m)
  {
  }

  /** The map with one response more of the method. */
  function WithResponse(routeMap: map<string, seq<Response>>, m: string, r: Response): map<string, seq<Response>> {
    routeMap[m := (if m in routeMap then routeMap[m] else []) + [r]]
  }

  lemma ResponsesStayCollected(entries: seq<Entry>, routeMap: map<string, seq<Response>>, keys: seq<string>, m: string)
    requires entries != [] && ByMethod(Front(entries), routeMap, keys)
    ensures var next := WithResponse(routeMap, Last(entries).fullMethod, ResponseOf(Last(entries)));
      if m in next then next[m] == ResponsesOf(entries, m) else ResponsesOf(entries, m) == []
  {
    ResponsesNext(entries, m);
    if m !in routeMap {
      assert m !in keys;
    }
  }

  lemma NextByMethod(entries: seq<Entry>, routeMap: map<string, seq<Response>>, keys: seq<string>)
    requires entries != [] && ByMethod(Front(entries), routeMap, keys)
    ensures var m := Last(entries).fullMethod;
      ByMethod(entries, WithResponse(routeMap, m, ResponseOf(Last(entries))),
               if m in routeMap then keys else keys + [m])
  {
    forall m
      ensures var next := WithResponse(routeMap, Last(entries).fullMethod, ResponseOf(Last(entries)));
        if m in next then next[m] == ResponsesOf(entries, m) else ResponsesOf(entries, m) == []
    {
      ResponsesStayCollected(entries, routeMap, keys, m);
    }
  }

  lemma RoutesByMethod(entries: seq<Entry>, routeMap: map<string, seq<Response>>, keys: seq<string>, i: nat)
    requires ByMethod(entries, routeMap, keys) && i < |keys|
    ensures keys[i] in routeMap && i < |ReplayRoutes(entries)|
    ensures Route(keys[i], routeMap[keys[i]], None, Some(true)) == ReplayRoutes(entries)[i]
  {
  }

  class Recorder {
    var state: Recording

    constructor ()
      ensures state == Recording(false, None, [])
    {
      state := Recording(false, None, []);
    }

    method Start(id: string, name: string, address: string)
      modifies this
      ensures state == Started(old(state), id, name, address)
    {
      var fixture := Fixture(id, name, address, []);
      state := state.(recording := true, active := Some(fixture));
    }

    method Stop() returns (fixture: Option<Fixture>)
      modifies this
      ensures fixture == old(state.active) && state == Stopped(old(state))
    {
      fixture := state.active;
      var fixtures := state.fixtures;
      if fixture.Some? && |fixture.value.entries| > 0 {
        fixtures := fixtures + [fixture.value];
      }
      state := Recording(false, None, fixtures);
    }

    method RecordEntry(entry: Entry)
      modifies this
      ensures state == Recorded(old(state), entry)
    {
      if !state.recording {
        return;
      }
      match state.active {
        case None =>
        case Some(fixture) =>
          state := state.(active := Some(fixture.(entries := fixture.entries + [entry])));
      }
    }

    method DeleteFixture(id: string) returns (deleted: bool)
      modifies this
      ensures deleted == (FixtureIndex(old(state.fixtures), id) != -1)
      ensures !deleted ==> state == old(state)
      ensures deleted ==>
        var index := FixtureIndex(old(state.fixtures), id);
        state == old(state).(fixtures := old(state.fixtures)[..index] + old(state.fixtures)[index + 1..])
    {
      var index := FixtureIndex(state.fixtures, id);
      if index == -1 {
        return false;
      }
      state := state.(fixtures := state.fixtures[..index] + state.fixtures[index + 1..]);
      deleted := true;
    }

    /** The insertion-ordered map of the responses by method. */
    static method GroupResponses(entries: seq<Entry>)
      returns (routeMap: map<string, seq<Response>>, keys: seq<string>)
      ensures ByMethod(entries, routeMap, keys)
    {
      routeMap, keys := map[], [];
      for n := 0 to |entries|
        invariant ByMethod(entries[..n], routeMap, keys)
      {
        var entry := entries[n];
        assert Front(entries[..n + 1]) == entries[..n] && Last(entries[..n + 1]) == entry;
        NextByMethod(entries[..n + 1], routeMap, keys);
        if entry.fullMethod !in routeMap {
          routeMap := routeMap[entry.fullMethod := []];
          keys := keys + [entry.fullMethod];
        }
        routeMap := routeMap[entry.fullMethod := routeMap[entry.fullMethod] + [ResponseOf(entry)]];
      }
      assert entries[..|entries|] == entries;
    }

    /** `None` stands for the error of an unknown fixture. */
    method ReplayFixture(id: string) returns (routes: Option<seq<Route>>)
      ensures var index := FixtureIndex(state.fixtures, id);
        routes == if index == -1 then None else Some(ReplayRoutes(state.fixtures[index].entries))
    {
      var index := FixtureIndex(state.fixtures, id);
      if index == -1 {
        return None;
      }
      var entries := state.fixtures[index].entries;
      var routeMap, keys := GroupResponses(entries);
      forall i | 0 <= i < |keys|
        ensures keys[i] in routeMap
        ensures Route(keys[i], routeMap[keys[i]], None, Some(true)) == ReplayRoutes(entries)[i]
      {
        RoutesByMethod(entries, routeMap, keys, i);
      }
      var list := seq(|keys|, i requires 0 <= i < |keys| && keys[i] in routeMap =>
        Route(keys[i], routeMap[keys[i]], None, Some(true)));
      assert list == ReplayRoutes(entries);
      routes := Some(list);
    }
  }

  lemma {:induction false} RecordedInOrder(s: Recording, entries: seq<Entry>)
    requires s.recording && s.active.Some?
    ensures RecordedAll(s, entries)
         == s.(active := Some(s.active.value.(entries := s.active.value.entries + entries)))
    decreases |entries|
  {
    if entries == [] {
      assert s.active.value.entries + entries == s.active.value.entries;
    } else {
      RecordedInOrder(Recorded(s, entries[0]), entries[1..]);
      assert s.active.value.entries + [entries[0]] + entries[1..] == s.active.value.entries + entries;
    }
  }

  /** A session keeps exactly the entries recorded between start and stop, whatever was being recorded before. */
  lemma {:induction false} SessionIsKept(s: Recording, id: string, name: string, address: string, entries: seq<Entry>)
    requires entries != []
    ensures Stopped(RecordedAll(Started(s, id, name, address), entries))
         == Recording(false, None, s.fixtures + [Fixture(id, name, address, entries)])
  {
    var started := Started(s, id, name, address);
    RecordedInOrder(started, entries);
    assert started.active.value.entries + entries == entries;
  }

  lemma SessionIsFound(fixtures: seq<Fixture>, fixture: Fixture)
    requires forall f <- fixtures :: f.id != fixture.id
    ensures FixtureIndex(fixtures + [fixture], fixture.id) == |fixtures|
  {
    var all := fixtures + [fixture];
    assert all[|fixtures|].id == fixture.id;
  }
}
