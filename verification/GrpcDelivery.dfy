/**
 A managed stream from end to end: what the reader goroutine of the executor receives, and what the callbacks of the
 page are called with after polls, server-sent events and any cutting of the text into chunks.
 */
module GrpcDelivery {
  import opened Options
  import opened Seqs
  import opened JsText
  import opened SseStreams
  import opened GrpcRelay

  /** How an event is printed as JSON, how the text is parsed again, and what is then seen of the event. */
  datatype Wire<!M> = Wire(text: SentEvent -> string, decoder: Decoder<M>, seen: SentEvent -> M)

  /** JSON without line breaks that is parsed to what was printed, its `done` field included. */
  ghost predicate Transparent<M>(wire: Wire<M>) {
    forall e ::
      && PlainPayload(wire.text(e)) && wire.decoder.parse(wire.text(e)) == Some(wire.seen(e))
      && (wire.decoder.done(wire.seen(e)) <==> IsDone(e))
  }

  function Payloads<M>(wire: Wire<M>, sent: seq<SentEvent>): seq<string> {
    seq(|sent|, i requires 0 <= i < |sent| => wire.text(sent[i]))
  }

  /** The call a sent event stands for. */
  function Call<M>(wire: Wire<M>, e: SentEvent): Delivery<M> {
    if IsDone(e) then OnDone(wire.seen(e)) else OnMessage(wire.seen(e))
  }

  function Calls<M>(wire: Wire<M>, sent: seq<SentEvent>): seq<Delivery<M>> {
    seq(|sent|, i requires 0 <= i < |sent| => Call(wire, sent[i]))
  }

  lemma SentAreDelivered<M>(wire: Wire<M>, sent: seq<SentEvent>)
    requires Transparent(wire)
    ensures FlatMap(Deliverer(wire.decoder), Payloads(wire, sent)) == Calls(wire, sent)
  {
    forall i | 0 <= i < |sent|
      ensures Deliverer(wire.decoder)(Payloads(wire, sent)[i]) == [Calls(wire, sent)[i]]
    {
      assert wire.decoder.parse(wire.text(sent[i])) == Some(wire.seen(sent[i]));
    }
    FlatMapSingles(Deliverer(wire.decoder), Payloads(wire, sent), Calls(wire, sent));
  }

  /** Before the first done event every event forwards the next shown message. */
  lemma {:induction false} ShownAt(sent: seq<SentEvent>, i: nat)
    requires i < |sent| && forall j :: 0 <= j <= i ==> sent[j].Forwarded?
    ensures i < |Shown(sent)| && Shown(sent)[i] == sent[i].message
    ensures i == |sent| - 1 ==> |Shown(sent)| == |sent|
  {
    if i == |sent| - 1 {
      if i > 0 {
        ShownAt(Front(sent), i - 1);
      }
    } else {
      ShownAt(Front(sent), i);
    }
  }

  lemma ForwardsTheLog(s: System, i: nat)
    requires Faithful(s) && i < |s.sent| && !IsDone(s.sent[i])
    ensures i < |s.relay.log| && s.sent[i] == Forwarded(s.relay.log[i])
  {
    ShownAt(s.sent, i);
    assert (s.relay.drained + s.relay.stream.messages)[i] == s.relay.drained[i];
  }

  /** The message that carries a body. */
  function Carrier(body: string): Message { Message(body, false, 0, "") }

  lemma ForwardsTheBodies(s: System, events: seq<Event>, i: nat)
    requires EndOf(events).Some? ==> EndOf(events).value.End?
    requires Faithful(s) && HasReceived(s.relay, events) && i < |s.sent| && !IsDone(s.sent[i])
    ensures i < |Bodies(events)| && s.sent[i] == Forwarded(Carrier(Bodies(events)[i]))
  {
    ForwardsTheLog(s, i);
    if i < |Bodies(events)| {
      assert Carries(s.relay.log[i], Bodies(events)[i]);
    }
  }

  /** The calls carry the bodies from the first one on, ended by a call of `onDone` when there is one. */
  ghost predicate CarriesBodies<M>(wire: Wire<M>, bodies: seq<string>, calls: seq<Delivery<M>>) {
    forall i :: 0 <= i < |calls| ==>
      if calls[i].OnDone? then i == |calls| - 1
      else i < |bodies| && calls[i] == OnMessage(wire.seen(Forwarded(Carrier(bodies[i]))))
  }

  lemma CallsCarryBodies<M>(wire: Wire<M>, s: System, events: seq<Event>)
    requires EndOf(events).Some? ==> EndOf(events).value.End?
    requires Faithful(s) && HasReceived(s.relay, events)
    ensures CarriesBodies(wire, Bodies(events), Calls(wire, s.sent))
    ensures s.finished <==> s.sent != [] && Last(Calls(wire, s.sent)).OnDone?
  {
    var calls, bodies := Calls(wire, s.sent), Bodies(events);
    forall i | 0 <= i < |calls|
      ensures if calls[i].OnDone? then i == |calls| - 1
              else i < |bodies| && calls[i] == OnMessage(wire.seen(Forwarded(Carrier(bodies[i]))))
    {
      if !IsDone(s.sent[i]) {
        ForwardsTheBodies(s, events, i);
      }
    }
  }

  /** The message that ended the reader. */
  function EndMessageOf(end: Event): Message
    requires end.End?
  {
    Message("", true, end.statusCode, if end.error == "EOF" then "" else end.error)
  }

  /**
   The event that ends an event stream: an error if the executor could not be reached, the reader's own end if the last
   poll found the stream and left nothing, and otherwise one that is made up.
   */
  function LastEvent(s: System, end: Option<Event>): SentEvent
    requires end.Some? ==> end.value.End?
  {
    if s.last == Unreachable then NotFoundError
    else if s.last == Found && s.relay.stream.messages == [] && end.Some? then Forwarded(EndMessageOf(end.value))
    else Synthesised
  }

  lemma FinalEventIs(s: System, events: seq<Event>)
    requires EndOf(events).Some? ==> EndOf(events).value.End?
    requires Faithful(s) && s.finished && HasReceived(s.relay, events)
    requires s.last == Found && s.relay.stream.messages == [] ==> s.relay.log != []
    ensures FinalEvent(s) == LastEvent(s, EndOf(events))
    ensures s.last == Found ==> EndOf(events).Some?
  {
    if s.last == Found && s.relay.stream.messages == [] {
      assert EndsWith(s.relay.log[|Bodies(events)|], EndOf(events).value);
    }
  }

  lemma SentIsCalled<M>(wire: Wire<M>, sent: seq<SentEvent>, chunks: seq<string>)
    requires Transparent(wire) && Concat(chunks) == PrintData(Payloads(wire, sent))
    ensures ReadText(wire.decoder, Concat(chunks)) == Calls(wire, sent)
  {
    forall p | p in Payloads(wire, sent)
      ensures PlainPayload(p)
    {
      var i :| 0 <= i < |sent| && Payloads(wire, sent)[i] == p;
      assert PlainPayload(wire.text(sent[i]));
    }
    DataRoundTrip(wire.decoder, Payloads(wire, sent), chunks);
    SentAreDelivered(wire, sent);
  }

  /**
   Over every interleaving and every cutting into chunks, the page's callbacks are called with the bodies that arrived
   at the executor, from the first one on and in order, and `onDone` is called once, last, and exactly when the event
   stream has ended: with the reader's own end if the last poll found the stream and emptied it.
   */
  lemma {:induction false} PageGetsWhatArrived<M>(
    wire: Wire<M>, now: int, events: seq<SystemEvent>, chunks: seq<string>
  )
    requires Transparent(wire)
    requires Concat(chunks) == PrintData(Payloads(wire, SystemRun(now, events).sent))
    ensures EndOf(Inner(events)).Some? ==> EndOf(Inner(events)).value.End?
    ensures var (s, calls) := (SystemRun(now, events), ReadText(wire.decoder, Concat(chunks)));
      && |calls| == |s.sent| && CarriesBodies(wire, Bodies(Inner(events)), calls)
      && (s.finished <==> calls != [] && Last(calls).OnDone?)
      && (s.finished ==> calls != [] && Last(calls) == OnDone(wire.seen(LastEvent(s, EndOf(Inner(events))))))
  {
    var s := SystemRun(now, events);
    SystemIsFaithful(now, events);
    SystemLogCarriesWhatArrived(now, events);
    SentIsCalled(wire, s.sent, chunks);
    CallsCarryBodies(wire, s, Inner(events));
    if s.finished {
      EndsWithFinalEvent(now, events);
      FinalEventIs(s, Inner(events));
    }
  }

  lemma PrefixCarriesBodies<M>(wire: Wire<M>, bodies: seq<string>, calls: seq<Delivery<M>>, part: seq<Delivery<M>>)
    requires CarriesBodies(wire, bodies, calls) && part <= calls
    ensures CarriesBodies(wire, bodies, part)
  {
    assert forall i :: 0 <= i < |part| ==> part[i] == calls[i];
  }

  /** A connection that is cut anywhere before the end has called with a shorter part of the same. */
  lemma {:induction false} CutPageGetsWhatArrived<M>(
    wire: Wire<M>, now: int, events: seq<SystemEvent>, chunks: seq<string>, missing: string
  )
    requires Transparent(wire)
    requires Concat(chunks) + missing == PrintData(Payloads(wire, SystemRun(now, events).sent))
    ensures CarriesBodies(wire, Bodies(Inner(events)), ReadText(wire.decoder, Concat(chunks)))
  {
    var text := Concat(chunks) + missing;
    assert Concat([text]) == text + Concat([]) by {
      assert [text][1..] == [];
    }
    PageGetsWhatArrived(wire, now, events, [text]);
    CutStreamDeliversPrefix(wire.decoder, Concat(chunks), missing);
    PrefixCarriesBodies(wire, Bodies(Inner(events)), ReadText(wire.decoder, text),
                        ReadText(wire.decoder, Concat(chunks)));
  }
}
