/**
 The executor's registry of open gRPC streams: three maps under one mutex. Each locked region is one atomic step;
 what a call does after its region (send, close, cancel) works on what the region found.
 */
module GrpcRegistry {
  import opened Options
  import opened GrpcRelay

  const IDLE_LIMIT := 600

  /** The maps hold the record, the sender and the closer of a stream; all three stand for that stream here. */
  datatype Registry<T> = Registry(streams: map<string, T>, senders: map<string, T>, closers: map<string, T>)

  function Without<T>(r: Registry<T>, ids: set<string>): Registry<T> {
    Registry(r.streams - ids, r.senders - ids, r.closers - ids)
  }

  function Opened<T>(r: Registry<T>, id: string, stream: T): Registry<T> {
    Registry(r.streams[id := stream], r.senders[id := stream], r.closers[id := stream])
  }

  class Service {
    var streams: map<string, GrpcManagedStream>
    var senders: map<string, GrpcManagedStream>
    var closers: map<string, GrpcManagedStream>

    constructor ()
      ensures View() == Registry(map[], map[], map[])
    {
      streams, senders, closers := map[], map[], map[];
    }

    ghost function View(): Registry<GrpcManagedStream>
      reads this
    {
      Registry(streams, senders, closers)
    }

    method Open(id: string, stream: GrpcManagedStream)
      modifies this
      ensures View() == Opened(old(View()), id, stream)
      ensures streams == old(streams)[id := stream] && senders == old(senders)[id := stream]
      ensures closers == old(closers)[id := stream]
    {
      streams := streams[id := stream];
      senders := senders[id := stream];
      closers := closers[id := stream];
    }

    method FindForSend(id: string) returns (sender: Option<GrpcManagedStream>, stream: Option<GrpcManagedStream>)
      ensures sender == Lookup(senders, id) && stream == Lookup(streams, id)
      ensures streams == senders && sender.Some? ==> stream == sender
    {
      sender := Lookup(senders, id);
      stream := Lookup(streams, id);
    }

    method RemoveForClose(id: string) returns (closer: Option<GrpcManagedStream>, stream: Option<GrpcManagedStream>)
      modifies this
      ensures closer == Lookup(old(closers), id) && stream == Lookup(old(streams), id)
      ensures View() == Without(old(View()), {id})
      ensures streams == old(streams) - {id} && senders == old(senders) - {id} && closers == old(closers) - {id}
    {
      closer := Lookup(closers, id);
      stream := Lookup(streams, id);
      streams := streams - {id};
      senders := senders - {id};
      closers := closers - {id};
    }

    /** Removes the finished and the idle streams; the contexts of the streams it returns are cancelled. */
    method CleanupTick(now: int) returns (cancelled: set<string>)
      modifies this
      ensures cancelled == StaleIds(old(streams), now - IDLE_LIMIT)
      ensures View() == Without(old(View()), cancelled)
      ensures forall id :: id in cancelled <==>
        id in old(streams) && (old(streams)[id].done || old(streams)[id].lastUsed < now - 600)
      ensures streams == old(streams) - cancelled
      ensures senders == old(senders) - cancelled && closers == old(closers) - cancelled
    {
      var cutoff := now - IDLE_LIMIT;
      var todo := streams.Keys;
      cancelled := {};
      ghost var before, staleIds := View(), StaleIds(streams, cutoff);
      while todo != {}
        invariant todo <= before.streams.Keys && cancelled !! todo
        invariant cancelled <= staleIds <= cancelled + todo
        invariant View() == Without(before, cancelled)
        decreases todo
      {
        var id :| id in todo;
        assert id in before.streams && streams[id] == before.streams[id];
        var stale := streams[id].Stale(cutoff);
        assert stale <==> id in staleIds;
        if stale {
          RemoveOneMore(before, cancelled, id);
          streams := streams - {id};
          senders := senders - {id};
          closers := closers - {id};
          cancelled := cancelled + {id};
        }
        todo := todo - {id};
      }
    }
  }

  lemma RemoveOneMore<T>(r: Registry<T>, ids: set<string>, id: string)
    ensures Without(Without(r, ids), {id}) == Without(r, ids + {id})
  {
    assert r.streams - ids - {id} == r.streams - (ids + {id});
    assert r.senders - ids - {id} == r.senders - (ids + {id});
    assert r.closers - ids - {id} == r.closers - (ids + {id});
  }

  function StaleIds(streams: map<string, GrpcManagedStream>, cutoff: int): set<string>
    reads streams.Values
  {
    set id | id in streams && (streams[id].done || streams[id].lastUsed < cutoff)
  }

  // Every run of the registry.

  datatype Event<T> =
    | Open(id: string, stream: T)
    | Send(id: string)
    | Close(id: string)
    | Cleanup(stale: set<string>)

  /**
   `issued` are the ids handed out so far, `closed` the calls of closers in order, `swept` the ids removed by the
   cleanup tick.
   */
  datatype World<T> = World(registry: Registry<T>, issued: map<string, T>, closed: seq<string>, swept: set<string>)

  function Empty<T>(): World<T> {
    World(Registry(map[], map[], map[]), map[], [], {})
  }

  /** New ids are fresh: eight random bytes never repeat. A cleanup removes streams it met in the map. */
  predicate Enabled<T>(w: World<T>, e: Event<T>) {
    && (e.Open? ==> e.id !in w.issued)
    && (e.Cleanup? ==> e.stale <= w.registry.streams.Keys)
  }

  function Step<T>(w: World<T>, e: Event<T>): World<T> {
    match e
    case Open(id, stream) => w.(registry := Opened(w.registry, id, stream), issued := w.issued[id := stream])
    case Send(_) => w
    case Close(id) =>
      w.(registry := Without(w.registry, {id}),
         closed := if id in w.registry.closers then w.closed + [id] else w.closed)
    case Cleanup(stale) => w.(registry := Without(w.registry, stale), swept := w.swept + stale)
  }

  function Run<T>(events: seq<Event<T>>): World<T> {
    if events == [] then Empty() else Step(Run(events[..|events| - 1]), events[|events| - 1])
  }

  predicate Possible<T>(events: seq<Event<T>>) {
    events != [] ==>
      Possible(events[..|events| - 1]) && Enabled(Run(events[..|events| - 1]), events[|events| - 1])
  }

  function Elements<T>(s: seq<T>): set<T> {
    set x | x in s
  }

  /** An id handed out is live in all three maps, or was closed once, or was swept, and never more than one of these. */
  predicate Consistent<T(==)>(w: World<T>) {
    && w.registry.streams == w.registry.senders == w.registry.closers
    && (forall id <- w.registry.streams :: id in w.issued && w.registry.streams[id] == w.issued[id])
    && w.issued.Keys == w.registry.streams.Keys + Elements(w.closed) + w.swept
    && w.registry.streams.Keys !! Elements(w.closed)
    && w.registry.streams.Keys !! w.swept
    && w.swept !! Elements(w.closed)
    && (forall i, j :: 0 <= i < j < |w.closed| ==> w.closed[i] != w.closed[j])
  }

  lemma {:induction false} RegistryIsConsistent<T>(events: seq<Event<T>>)
    requires Possible(events)
    ensures Consistent(Run(events))
  {
    if events != [] {
      var w, e := Run(events[..|events| - 1]), events[|events| - 1];
      RegistryIsConsistent(events[..|events| - 1]);
      match e
      case Open(id, stream) =>
      case Send(_) =>
      case Close(id) =>
        if id in w.registry.closers {
          assert Elements(w.closed + [id]) == Elements(w.closed) + {id};
        }
      case Cleanup(stale) =>
    }
  }

  /** In every reachable state, a send that finds a sender finds the record of the same stream. */
  lemma {:induction false} SendFindsItsStream<T>(events: seq<Event<T>>, id: string)
    requires Possible(events)
    ensures var r := Run(events).registry;
      && r.streams.Keys == r.senders.Keys == r.closers.Keys
      && (id in r.senders ==>
            id in r.streams && id in Run(events).issued && r.streams[id] == r.senders[id] == Run(events).issued[id])
  {
    RegistryIsConsistent(events);
  }

  lemma {:induction false} OpenedStays<T>(events: seq<Event<T>>, n: nat)
    requires Possible(events) && n <= |events|
    ensures Possible(events[..n])
    ensures Run(events[..n]).issued.Keys <= Run(events).issued.Keys
    ensures Elements(Run(events[..n]).closed) <= Elements(Run(events).closed)
    ensures Run(events[..n]).swept <= Run(events).swept
  {
    if n == |events| {
      assert events[..n] == events;
    } else {
      var shorter := events[..|events| - 1];
      OpenedStays(shorter, n);
      assert shorter[..n] == events[..n];
    }
  }

  /** Once removed, an id never comes back, and over a whole run its closer is called at most once. */
  lemma {:induction false} RemovedStaysRemoved<T>(events: seq<Event<T>>, n: nat, id: string)
    requires Possible(events) && n <= |events|
    requires id in Run(events[..n]).issued && id !in Run(events[..n]).registry.streams
    ensures id !in Run(events).registry.streams && id !in Run(events).registry.senders
    ensures multiset(Run(events).closed)[id] <= 1
  {
    OpenedStays(events, n);
    RegistryIsConsistent(events[..n]);
    RegistryIsConsistent(events);
    AtMostOnce(Run(events).closed, id);
  }

  lemma {:induction false} AtMostOnce<T>(s: seq<T>, x: T)
    requires forall i, j :: 0 <= i < j < |s| ==> s[i] != s[j]
    ensures multiset(s)[x] <= 1
  {
    if s != [] {
      var front := s[..|s| - 1];
      assert s == front + [s[|s| - 1]];
      AtMostOnce(front, x);
      assert s[|s| - 1] !in front;
    }
  }
}
