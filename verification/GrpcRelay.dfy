/**
 A managed bidi stream: a reader goroutine appends to a buffer, polls drain it, and the server turns polls into
 server-sent events. Every region under the stream's mutex is one atomic step, and the theorems are about every
 interleaving of those steps.
 */
module GrpcRelay {
  import opened Options
  import opened Seqs

  datatype Message = Message(body: string, done: bool, statusCode: int, error: string)

  const DEFAULT_MAX_MESSAGES := 50
  const SSE_MAX_MESSAGES := 50

  datatype Stream = Stream(messages: seq<Message>, done: bool, lastUsed: int)

  function Received(s: Stream, body: string): Stream {
    s.(messages := s.messages + [Message(body, false, 0, "")])
  }

  function EndMessage(statusCode: int, error: string): Message {
    Message("", true, statusCode, if error == "EOF" then "" else error)
  }

  function Ended(s: Stream, statusCode: int, error: string): Stream {
    s.(messages := s.messages + [EndMessage(statusCode, error)], done := true)
  }

  /** How many messages a poll takes. */
  function Taken(s: Stream, maxMessages: int): nat {
    var limit := if maxMessages <= 0 then DEFAULT_MAX_MESSAGES else maxMessages;
    if limit > |s.messages| then |s.messages| else limit
  }

  function Drained(s: Stream, maxMessages: int, now: int): Stream {
    s.(messages := s.messages[Taken(s, maxMessages)..], lastUsed := now)
  }

  /** The stream record of the executor; each method is one region under `ms.mu`. */
  class GrpcManagedStream {
    var messages: seq<Message>
    var done: bool
    var lastUsed: int

    constructor (now: int)
      ensures View() == Stream([], false, now)
    {
      messages, done, lastUsed := [], false, now;
    }

    ghost function View(): Stream
      reads this
    {
      Stream(messages, done, lastUsed)
    }

    method Receive(body: string)
      modifies this
      ensures View() == Received(old(View()), body)
      ensures messages == old(messages) + [Message(body, false, 0, "")]
      ensures done == old(done) && lastUsed == old(lastUsed)
    {
      messages := messages + [Message(body, false, 0, "")];
    }

    method ReceiveError(statusCode: int, error: string)
      modifies this
      ensures View() == Ended(old(View()), statusCode, error)
      ensures messages == old(messages) + [Message("", true, statusCode, if error == "EOF" then "" else error)]
      ensures done && lastUsed == old(lastUsed)
    {
      var end := Message("", true, statusCode, "");
      if error != "EOF" {
        end := end.(error := error);
      }
      messages := messages + [end];
      done := true;
    }

    method Poll(maxMessages: int, now: int) returns (drained: seq<Message>, connected: bool)
      modifies this
      ensures View() == Drained(old(View()), maxMessages, now)
      ensures drained + messages == old(messages) && |drained| == Taken(old(View()), maxMessages)
      ensures var limit := if maxMessages <= 0 then 50 else maxMessages;
        |drained| == if |old(messages)| < limit then |old(messages)| else limit
      ensures connected == !done == !old(done) && lastUsed == now
    {
      var max := maxMessages;
      if max <= 0 {
        max := DEFAULT_MAX_MESSAGES;
      }
      var n := max;
      if n > |messages| {
        n := |messages|;
      }
      drained := messages[..n];
      messages := messages[n..];
      connected := !done;
      lastUsed := now;
    }

    method Touch(now: int)
      modifies this
      ensures View() == old(View()).(lastUsed := now)
      ensures messages == old(messages) && done == old(done) && lastUsed == now
    {
      lastUsed := now;
    }

    /** What the cleanup tick decides about the stream. */
    method Stale(cutoff: int) returns (stale: bool)
      ensures stale == (done || lastUsed < cutoff)
    {
      stale := done || lastUsed < cutoff;
    }
  }

  // Every interleaving of one reader with any number of pollers and senders.

  datatype Event =
    | Deliver(body: string)
    | End(statusCode: int, error: string)
    | Poll(maxMessages: int, now: int)
    | Touch(now: int)

  /** `log` is what the reader has appended, `drained` what polls have taken, both in the order of the lock. */
  datatype Relay = Relay(stream: Stream, reading: bool, log: seq<Message>, drained: seq<Message>)

  function Open(now: int): Relay {
    Relay(Stream([], false, now), true, [], [])
  }

  /** The reader stops after its error: a reader step that comes later does not happen. */
  function Step(r: Relay, e: Event): Relay {
    match e
    case Deliver(body) =>
      if r.reading then
        var s := Received(r.stream, body);
        r.(stream := s, log := r.log + [Last(s.messages)])
      else r
    case End(statusCode, error) =>
      if r.reading then
        var s := Ended(r.stream, statusCode, error);
        r.(stream := s, reading := false, log := r.log + [Last(s.messages)])
      else r
    case Poll(maxMessages, now) =>
      r.(stream := Drained(r.stream, maxMessages, now),
         drained := r.drained + r.stream.messages[..Taken(r.stream, maxMessages)])
    case Touch(now) => r.(stream := r.stream.(lastUsed := now))
  }

  function Run(r: Relay, events: seq<Event>): Relay {
    if events == [] then r else Step(Run(r, Front(events)), Last(events))
  }

  predicate DoneOnlyLast(log: seq<Message>) {
    forall i :: 0 <= i < |log| - 1 ==> !log[i].done
  }

  predicate Conserved(r: Relay) {
    && r.drained + r.stream.messages == r.log
    && DoneOnlyLast(r.log)
    && (r.stream.done <==> r.log != [] && Last(r.log).done)
    && r.reading == !r.stream.done
  }

  lemma StepConserves(r: Relay, e: Event)
    requires Conserved(r)
    ensures Conserved(Step(r, e))
  {
    match e
    case Poll(maxMessages, _) =>
      var n := Taken(r.stream, maxMessages);
      assert r.stream.messages[..n] + r.stream.messages[n..] == r.stream.messages;
      assert r.drained + r.stream.messages[..n] + r.stream.messages[n..] == r.log;
    case _ =>
  }

  /**
   Over every interleaving: drained messages followed by the buffer are exactly what the reader appended, and the
   only done message there can be is the reader's last.
   */
  lemma {:induction false} RelayConserves(now: int, events: seq<Event>)
    ensures Conserved(Run(Open(now), events))
  {
    if events != [] {
      RelayConserves(now, Front(events));
      StepConserves(Run(Open(now), Front(events)), Last(events));
    }
  }

  // What the reader received, told from the events alone.

  /** The bodies that arrive before the end. */
  function Bodies(events: seq<Event>): seq<string> {
    if events == [] then []
    else
      match events[0]
      case Deliver(body) => [body] + Bodies(events[1..])
      case End(_, _) => []
      case _ => Bodies(events[1..])
  }

  /** The first end. */
  function EndOf(events: seq<Event>): Option<Event> {
    if events == [] then None
    else if events[0].End? then Some(events[0])
    else EndOf(events[1..])
  }

  /** A message as it is buffered: its body, not done, without status and error. */
  predicate Carries(m: Message, body: string) {
    m.body == body && !m.done && m.statusCode == 0 && m.error == ""
  }

  /** The message that ends a stream: no body, the status, and the error unless that is the plain end. */
  predicate EndsWith(m: Message, end: Event)
    requires end.End?
  {
    && m.body == "" && m.done && m.statusCode == end.statusCode
    && m.error == (if end.error == "EOF" then "" else end.error)
  }

  /** Exactly these bodies in order, followed by the end exactly if there was one. */
  predicate Carried(log: seq<Message>, bodies: seq<string>, end: Option<Event>)
    requires end.Some? ==> end.value.End?
  {
    && |log| == |bodies| + (if end.Some? then 1 else 0)
    && (forall i :: 0 <= i < |bodies| ==> Carries(log[i], bodies[i]))
    && (end.Some? ==> EndsWith(log[|bodies|], end.value))
  }

  lemma {:induction false} EndIsEnd(events: seq<Event>)
    ensures EndOf(events).Some? ==> EndOf(events).value.End?
  {
    if events != [] {
      EndIsEnd(events[1..]);
    }
  }

  lemma {:induction false} OneMoreEvent(events: seq<Event>, e: Event)
    ensures Bodies(events + [e])
         == if EndOf(events).None? && e.Deliver? then Bodies(events) + [e.body] else Bodies(events)
    ensures EndOf(events + [e]) == if EndOf(events).None? && e.End? then Some(e) else EndOf(events)
  {
    if events == [] {
      assert events + [e] == [e] && [e][1..] == [];
    } else {
      assert (events + [e])[0] == events[0] && (events + [e])[1..] == events[1..] + [e];
      OneMoreEvent(events[1..], e);
    }
  }

  /** The log carries what arrived, and the reader is at work exactly as long as no end has come. */
  predicate HasReceived(r: Relay, events: seq<Event>)
    requires EndOf(events).Some? ==> EndOf(events).value.End?
  {
    Carried(r.log, Bodies(events), EndOf(events)) && (r.reading <==> EndOf(events).None?)
  }

  lemma StepReceives(r: Relay, events: seq<Event>, e: Event)
    requires EndOf(events).Some? ==> EndOf(events).value.End?
    requires HasReceived(r, events)
    ensures EndOf(events + [e]).Some? ==> EndOf(events + [e]).value.End?
    ensures HasReceived(Step(r, e), events + [e])
  {
    OneMoreEvent(events, e);
  }

  /**
   In every reachable state the log carries exactly the bodies that arrived before the end, in order, and then the end
   exactly if it came.
   */
  lemma {:induction false} LogCarriesWhatArrived(now: int, events: seq<Event>)
    ensures EndOf(events).Some? ==> EndOf(events).value.End?
    ensures HasReceived(Run(Open(now), events), events)
  {
    EndIsEnd(events);
    if events != [] {
      LogCarriesWhatArrived(now, Front(events));
      StepReceives(Run(Open(now), Front(events)), Front(events), Last(events));
      assert events == Front(events) + [Last(events)];
    }
  }

  // The server's event stream: polls of at most fifty messages until a done event is sent.

  datatype SentEvent = Forwarded(message: Message) | Synthesised | NotFoundError

  predicate IsDone(e: SentEvent) {
    e.Forwarded? ==> e.message.done
  }

  /** Everything up to and including the first done message. */
  function UpToDone(messages: seq<Message>): seq<Message> {
    if messages == [] then []
    else if messages[0].done then [messages[0]]
    else [messages[0]] + UpToDone(messages[1..])
  }

  function Forward(messages: seq<Message>): seq<SentEvent> {
    seq(|messages|, i requires 0 <= i < |messages| => Forwarded(messages[i]))
  }

  lemma ForwardAppend(a: seq<Message>, m: Message)
    ensures Forward(a + [m]) == Forward(a) + [Forwarded(m)]
  {
  }

  predicate AnyDone(messages: seq<Message>) {
    exists i :: 0 <= i < |messages| && messages[i].done
  }

  lemma OneMoreSent(messages: seq<Message>, i: nat, sent: seq<Message>)
    requires i < |messages| && UpToDone(messages) == sent + UpToDone(messages[i..])
    ensures UpToDone(messages)
         == if messages[i].done then sent + [messages[i]] else (sent + [messages[i]]) + UpToDone(messages[i + 1..])
  {
    assert messages[i..][1..] == messages[i + 1..];
    if !messages[i].done {
      ConcatAssociates(sent, [messages[i]], UpToDone(messages[i + 1..]));
    }
  }

  /** The `streamEvents` formatter. */
  method FormatPoll(messages: seq<Message>, connected: bool) returns (events: seq<SentEvent>, done: bool)
    ensures (events, done) == Formatted(messages, connected)
  {
    events := [];
    var doneFromMessage, i := false, 0;
    ghost var sent: seq<Message> := [];
    assert messages[0..] == messages;
    while i < |messages|
      invariant 0 <= i <= |messages|
      invariant forall j :: 0 <= j < i ==> !messages[j].done
      invariant events == Forward(sent) && UpToDone(messages) == sent + UpToDone(messages[i..])
    {
      OneMoreSent(messages, i, sent);
      ForwardAppend(sent, messages[i]);
      events := events + [Forwarded(messages[i])];
      sent := sent + [messages[i]];
      if messages[i].done {
        doneFromMessage := true;
        break;
      }
      i := i + 1;
    }
    assert UpToDone(messages) == sent;
    assert doneFromMessage <==> AnyDone(messages);
    if !connected && !doneFromMessage {
      events := events + [Synthesised];
    }
    done := doneFromMessage || !connected;
  }

  function Formatted(messages: seq<Message>, connected: bool): (seq<SentEvent>, bool) {
    var sent := Forward(UpToDone(messages));
    if AnyDone(messages) then (sent, true)
    else if connected then (sent, false)
    else (sent + [Synthesised], true)
  }

  /** How one poll of the server turns out: the executor knows the stream, does not, or cannot be reached. */
  datatype Outcome = Found | Unknown | Unreachable

  datatype SystemEvent = Internal(e: Event) | ServerPoll(outcome: Outcome, now: int)

  /** The relay with one server-sent event stream on it, which is the only one to poll. */
  datatype System = System(relay: Relay, sent: seq<SentEvent>, finished: bool, last: Outcome)

  function SystemStep(s: System, e: SystemEvent): System {
    match e
    case Internal(event) => if event.Poll? then s else s.(relay := Step(s.relay, event))
    case ServerPoll(outcome, now) =>
      if s.finished then s
      else
        match outcome
        case Unreachable => s.(sent := s.sent + [NotFoundError], finished := true, last := outcome)
        case Unknown =>
          var (events, done) := Formatted([], false);
          s.(sent := s.sent + events, finished := done, last := outcome)
        case Found =>
          var n := Taken(s.relay.stream, SSE_MAX_MESSAGES);
          var (events, done) := Formatted(s.relay.stream.messages[..n], !s.relay.stream.done);
          System(Step(s.relay, Poll(SSE_MAX_MESSAGES, now)), s.sent + events, done, outcome)
  }

  function SystemRun(now: int, events: seq<SystemEvent>): System {
    if events == [] then System(Open(now), [], false, Found)
    else SystemStep(SystemRun(now, Front(events)), Last(events))
  }

  /** The messages among the events sent. */
  function Shown(sent: seq<SentEvent>): seq<Message> {
    if sent == [] then []
    else Shown(Front(sent)) + if Last(sent).Forwarded? then [Last(sent).message] else []
  }

  lemma {:induction false} ShownForward(sent: seq<SentEvent>, messages: seq<Message>)
    ensures Shown(sent + Forward(messages)) == Shown(sent) + messages
  {
    if messages == [] {
      assert sent + Forward(messages) == sent;
    } else {
      ShownForward(sent, Front(messages));
      var all := sent + Forward(messages);
      assert Front(all) == sent + Forward(Front(messages));
      assert Last(all) == Forwarded(Last(messages));
    }
  }

  lemma {:induction false} UpToDoneOfLog(messages: seq<Message>)
    requires DoneOnlyLast(messages)
    ensures UpToDone(messages) == messages
    ensures AnyDone(messages) <==> messages != [] && Last(messages).done
  {
    if |messages| > 1 {
      assert forall i :: 0 <= i < |messages| - 1 ==> messages[1..][i] == messages[i + 1];
      UpToDoneOfLog(messages[1..]);
    }
  }

  /** What is shown was drained from a relay that loses nothing. */
  predicate ShowsDrained(s: System) {
    Conserved(s.relay) && Shown(s.sent) == s.relay.drained
  }

  /** No event but the last is a done event, and it is one exactly if the stream has ended. */
  predicate EndsByDone(sent: seq<SentEvent>, finished: bool) {
    && (forall i :: 0 <= i < |sent| - 1 ==> !IsDone(sent[i]))
    && (finished <==> sent != [] && IsDone(Last(sent)))
  }

  predicate Faithful(s: System) {
    && ShowsDrained(s)
    && EndsByDone(s.sent, s.finished)
    && (s.finished && s.last == Found ==>
          s.relay.stream.done && (Last(s.sent).Forwarded? <==> s.relay.stream.messages == []))
  }

  lemma MiddleIsDoneOnlyLast(a: seq<Message>, b: seq<Message>, c: seq<Message>)
    requires DoneOnlyLast(a + (b + c))
    ensures DoneOnlyLast(b)
    ensures b != [] && Last(b).done ==> c == []
  {
    forall i | 0 <= i < |b| && (i < |b| - 1 || c != [])
      ensures !b[i].done
    {
      assert (a + (b + c))[|a| + i] == b[i];
    }
  }

  lemma LastOfLog(a: seq<Message>, b: seq<Message>)
    requires b != []
    ensures Last(a + b) == Last(b)
  {
  }

  /** The part of the log one poll takes, when no done message was taken before. */
  lemma TakenPart(r: Relay, n: nat)
    requires Conserved(r) && n <= |r.stream.messages|
    ensures var taken := r.stream.messages[..n];
      && DoneOnlyLast(taken) && UpToDone(taken) == taken
      && (AnyDone(taken) <==> taken != [] && Last(taken).done)
      && (AnyDone(taken) ==> n == |r.stream.messages| && r.stream.done)
      && (r.stream.done && n == |r.stream.messages| && n > 0 ==> AnyDone(taken))
  {
    var taken, rest := r.stream.messages[..n], r.stream.messages[n..];
    assert r.stream.messages == taken + rest;
    MiddleIsDoneOnlyLast(r.drained, taken, rest);
    UpToDoneOfLog(taken);
    if rest == [] && taken != [] {
      assert taken + rest == taken;
      LastOfLog(r.drained, taken);
    }
  }

  /** What a poll of a known stream does to the relay. */
  lemma PollOfRelay(s: System, now: int)
    requires !s.finished
    ensures var after := SystemStep(s, ServerPoll(Found, now));
      after.relay == Step(s.relay, Poll(SSE_MAX_MESSAGES, now)) && after.last == Found
  {
  }

  /** What a poll of a known stream sends: the messages it takes, and a done event of its own if it must end without. */
  lemma PollSends(s: System, now: int)
    requires Faithful(s) && !s.finished
    ensures var n := Taken(s.relay.stream, SSE_MAX_MESSAGES);
      var taken, after := s.relay.stream.messages[..n], SystemStep(s, ServerPoll(Found, now));
      var ended := s.relay.stream.done && !AnyDone(taken);
      && UpToDone(taken) == taken
      && after.sent == s.sent + Forward(taken) + (if ended then [Synthesised] else [])
      && after.finished == s.relay.stream.done
      && (s.relay.stream.done && n == |s.relay.stream.messages| ==> AnyDone(taken))
  {
    TakenPart(s.relay, Taken(s.relay.stream, SSE_MAX_MESSAGES));
    if s.relay.stream.done && s.relay.stream.messages == [] {
      DoneWasShown(s);
    }
  }

  lemma SynthesisedShowsNothing(sent: seq<SentEvent>)
    ensures Shown(sent + [Synthesised]) == Shown(sent)
  {
    assert Front(sent + [Synthesised]) == sent;
  }

  lemma PollShows(s: System, now: int)
    requires Faithful(s) && !s.finished
    ensures Shown(SystemStep(s, ServerPoll(Found, now)).sent)
         == Shown(s.sent) + s.relay.stream.messages[..Taken(s.relay.stream, SSE_MAX_MESSAGES)]
  {
    var taken := s.relay.stream.messages[..Taken(s.relay.stream, SSE_MAX_MESSAGES)];
    PollSends(s, now);
    ShownForward(s.sent, taken);
    SynthesisedShowsNothing(s.sent + Forward(taken));
    assert s.sent + Forward(taken) + [] == s.sent + Forward(taken);
  }

  lemma FoundPollShowsDrained(s: System, now: int)
    requires Faithful(s) && !s.finished
    ensures ShowsDrained(SystemStep(s, ServerPoll(Found, now)))
  {
    StepConserves(s.relay, Poll(SSE_MAX_MESSAGES, now));
    PollOfRelay(s, now);
    PollShows(s, now);
  }

  lemma SynthesisedEnds(sent: seq<SentEvent>)
    requires EndsByDone(sent, false)
    ensures EndsByDone(sent + [Synthesised], true) && !Last(sent + [Synthesised]).Forwarded?
  {
    var all := sent + [Synthesised];
    assert forall i :: 0 <= i < |sent| ==> all[i] == sent[i] && !IsDone(sent[i]);
  }

  /** How the events of a poll end the event stream, given what it took. */
  lemma PollEndsByDone(before: seq<SentEvent>, taken: seq<Message>, streamDone: bool)
    requires EndsByDone(before, false) && DoneOnlyLast(taken) && UpToDone(taken) == taken
    requires AnyDone(taken) <==> taken != [] && Last(taken).done
    requires AnyDone(taken) ==> streamDone
    ensures var ended := streamDone && !AnyDone(taken);
      var sent := before + Forward(taken) + (if ended then [Synthesised] else []);
      && EndsByDone(sent, streamDone)
      && (streamDone ==> (Last(sent).Forwarded? <==> AnyDone(taken)))
  {
    var sent := before + Forward(taken);
    SentByPoll(before, taken);
    if streamDone && !AnyDone(taken) {
      SynthesisedEnds(sent);
    } else {
      assert sent + [] == sent;
    }
  }

  lemma FoundPollEndsByDone(s: System, now: int)
    requires Faithful(s) && !s.finished
    ensures var after := SystemStep(s, ServerPoll(Found, now));
      && EndsByDone(after.sent, after.finished)
      && (after.finished ==> (Last(after.sent).Forwarded? <==> after.relay.stream.messages == []))
  {
    var n := Taken(s.relay.stream, SSE_MAX_MESSAGES);
    var taken := s.relay.stream.messages[..n];
    PollOfRelay(s, now);
    TakenPart(s.relay, n);
    PollSends(s, now);
    PollEndsByDone(s.sent, taken, s.relay.stream.done);
  }

  lemma FoundPollStaysFaithful(s: System, now: int)
    requires Faithful(s) && !s.finished
    ensures Faithful(SystemStep(s, ServerPoll(Found, now)))
  {
    PollOfRelay(s, now);
    PollSends(s, now);
    FoundPollShowsDrained(s, now);
    FoundPollEndsByDone(s, now);
  }

  lemma ForwardEnds(taken: seq<Message>)
    requires DoneOnlyLast(taken) && (AnyDone(taken) <==> taken != [] && Last(taken).done)
    ensures EndsByDone(Forward(taken), AnyDone(taken))
  {
  }

  lemma EndsTogether(before: seq<SentEvent>, more: seq<SentEvent>, ended: bool)
    requires EndsByDone(before, false) && EndsByDone(more, ended)
    ensures EndsByDone(before + more, ended) && (more != [] ==> Last(before + more) == Last(more))
  {
    if more == [] {
      assert before + more == before;
    }
    assert forall i :: 0 <= i < |before| ==> !IsDone(before[i]);
  }

  /** No done event before the last one of a poll, and the last is one exactly if a done message was taken. */
  lemma SentByPoll(before: seq<SentEvent>, taken: seq<Message>)
    requires EndsByDone(before, false) && DoneOnlyLast(taken)
    requires AnyDone(taken) <==> taken != [] && Last(taken).done
    ensures var sent := before + Forward(taken);
      EndsByDone(sent, AnyDone(taken)) && (AnyDone(taken) ==> Last(sent).Forwarded?)
  {
    ForwardEnds(taken);
    EndsTogether(before, Forward(taken), AnyDone(taken));
  }

  /** A done message already taken would have finished the event stream. */
  lemma DoneWasShown(s: System)
    requires Faithful(s) && s.relay.stream.done && s.relay.stream.messages == []
    ensures s.finished
  {
    assert s.relay.drained == s.relay.log;
    ShownIsSent(s.sent);
  }

  lemma {:induction false} ShownIsSent(sent: seq<SentEvent>)
    requires Shown(sent) != [] && Last(Shown(sent)).done
    ensures exists i :: 0 <= i < |sent| && IsDone(sent[i])
  {
    if Last(sent).Forwarded? {
      assert Last(Shown(sent)) == Last(sent).message;
      assert IsDone(sent[|sent| - 1]);
    } else {
      ShownIsSent(Front(sent));
    }
  }

  lemma {:induction false} SystemIsFaithful(now: int, events: seq<SystemEvent>)
    ensures Faithful(SystemRun(now, events))
  {
    if events != [] {
      var s := SystemRun(now, Front(events));
      SystemIsFaithful(now, Front(events));
      match Last(events)
      case Internal(event) =>
        if !event.Poll? {
          StepConserves(s.relay, event);
        }
      case ServerPoll(outcome, time) =>
        if !s.finished {
          match outcome
          case Found => FoundPollStaysFaithful(s, time);
          case _ => EndedWithoutPoll(s, outcome, time);
        }
    }
  }

  lemma EndedBy(s: System, final: SentEvent, outcome: Outcome)
    requires Faithful(s) && !s.finished && !final.Forwarded? && outcome != Found
    ensures Faithful(System(s.relay, s.sent + [final], true, outcome))
  {
    assert Front(s.sent + [final]) == s.sent;
  }

  lemma NothingFormatted()
    ensures Formatted([], false) == ([Synthesised], true)
  {
    assert UpToDone([]) == [] && Forward([]) == [] && !AnyDone([]);
    assert [] + [Synthesised] == [Synthesised];
  }

  lemma StepWithoutPoll(s: System, outcome: Outcome, now: int)
    requires !s.finished && outcome != Found
    ensures var final := if outcome == Unreachable then NotFoundError else Synthesised;
      SystemStep(s, ServerPoll(outcome, now)) == System(s.relay, s.sent + [final], true, outcome)
  {
    NothingFormatted();
  }

  lemma EndedWithoutPoll(s: System, outcome: Outcome, now: int)
    requires Faithful(s) && !s.finished && outcome != Found
    ensures Faithful(SystemStep(s, ServerPoll(outcome, now)))
  {
    StepWithoutPoll(s, outcome, now);
    EndedBy(s, if outcome == Unreachable then NotFoundError else Synthesised, outcome);
  }

  /**
   The sole event stream on a relay, over every interleaving: what it shows followed by what is still buffered is
   the reader's log, no event but the last is a done event, and it ends exactly by sending one. When its last poll
   found the stream, it showed the whole log, the reader's own done message included, exactly if that poll emptied
   the buffer.
   */
  lemma {:induction false} EventStreamShowsTheLog(now: int, events: seq<SystemEvent>)
    ensures var s := SystemRun(now, events);
      && Shown(s.sent) + s.relay.stream.messages == s.relay.log
      && (forall i :: 0 <= i < |s.sent| - 1 ==> !IsDone(s.sent[i]))
      && (s.finished <==> s.sent != [] && IsDone(Last(s.sent)))
      && (s.finished && s.last == Found ==> (Shown(s.sent) == s.relay.log <==> s.relay.stream.messages == []))
      && (s.finished && s.last == Found && s.relay.stream.messages == [] ==>
            s.relay.log != [] && Last(s.sent) == Forwarded(Last(s.relay.log)))
  {
    var s := SystemRun(now, events);
    SystemIsFaithful(now, events);
    assert Shown(s.sent) == s.relay.drained;
    if s.finished && s.last == Found && s.relay.stream.messages == [] {
      assert s.relay.drained == s.relay.log;
      assert Last(Shown(s.sent)) == Last(s.sent).message;
    }
  }

  // The same of a run of the system.

  /** The events of the relay but for polls, which are the server's. */
  function Inner(events: seq<SystemEvent>): seq<Event> {
    if events == [] then []
    else
      var last := Last(events);
      Inner(Front(events)) + if last.Internal? && !last.e.Poll? then [last.e] else []
  }

  lemma PollReceivesNothing(s: System, e: SystemEvent)
    requires e.ServerPoll? || e.e.Poll?
    ensures SystemStep(s, e).relay.log == s.relay.log && SystemStep(s, e).relay.reading == s.relay.reading
  {
  }

  /** In every reachable state of the system, too, the log carries exactly what arrived. */
  lemma {:induction false} SystemLogCarriesWhatArrived(now: int, events: seq<SystemEvent>)
    ensures EndOf(Inner(events)).Some? ==> EndOf(Inner(events)).value.End?
    ensures HasReceived(SystemRun(now, events).relay, Inner(events))
  {
    EndIsEnd(Inner(events));
    if events != [] {
      var s, last := SystemRun(now, Front(events)), Last(events);
      SystemLogCarriesWhatArrived(now, Front(events));
      if last.Internal? && !last.e.Poll? {
        StepReceives(s.relay, Inner(Front(events)), last.e);
      } else {
        PollReceivesNothing(s, last);
        assert Inner(Front(events)) + [] == Inner(Front(events));
      }
    }
  }

  /** The kind of the event that ended the stream, by how the last poll turned out. */
  predicate EndsAsTold(s: System) {
    s.finished ==>
      && s.sent != []
      && match s.last
         case Unreachable => Last(s.sent) == NotFoundError
         case Unknown => Last(s.sent) == Synthesised
         case Found => Last(s.sent).Forwarded? || Last(s.sent) == Synthesised
  }

  lemma PollEndsAsTold(s: System, outcome: Outcome, now: int)
    requires Faithful(s) && EndsAsTold(s)
    ensures EndsAsTold(SystemStep(s, ServerPoll(outcome, now)))
  {
    if !s.finished {
      match outcome
      case Found =>
        PollSends(s, now);
        FoundPollEndsByDone(s, now);
        PollOfRelay(s, now);
      case _ =>
        StepWithoutPoll(s, outcome, now);
    }
  }

  lemma {:induction false} SystemEndsAsTold(now: int, events: seq<SystemEvent>)
    ensures EndsAsTold(SystemRun(now, events))
  {
    if events != [] {
      SystemEndsAsTold(now, Front(events));
      SystemIsFaithful(now, Front(events));
      if Last(events).ServerPoll? {
        PollEndsAsTold(SystemRun(now, Front(events)), Last(events).outcome, Last(events).now);
      }
    }
  }

  /** The event a finished stream ended with. */
  function FinalEvent(s: System): SentEvent
    requires s.last == Found && s.relay.stream.messages == [] ==> s.relay.log != []
  {
    match s.last
    case Unreachable => NotFoundError
    case Unknown => Synthesised
    case Found => if s.relay.stream.messages == [] then Forwarded(Last(s.relay.log)) else Synthesised
  }

  /** It is the reader's own done message exactly if the last poll found the stream and left nothing behind. */
  lemma {:induction false} EndsWithFinalEvent(now: int, events: seq<SystemEvent>)
    requires SystemRun(now, events).finished
    ensures var s := SystemRun(now, events);
      && (s.last == Found && s.relay.stream.messages == [] ==> s.relay.log != [])
      && s.sent != [] && Last(s.sent) == FinalEvent(s)
  {
    SystemEndsAsTold(now, events);
    SystemIsFaithful(now, events);
    EventStreamShowsTheLog(now, events);
  }

  lemma ShowsAllIffDrained(s: System)
    requires ShowsDrained(s)
    ensures Shown(s.sent) == s.relay.log <==> s.relay.stream.messages == []
  {
  }

  lemma PollShowsAllIff(s: System, t: int)
    requires Faithful(s) && !s.finished
    ensures var r := SystemStep(s, ServerPoll(Found, t));
      && (r.finished <==> s.relay.stream.done)
      && (Shown(r.sent) == r.relay.log <==> |s.relay.stream.messages| <= SSE_MAX_MESSAGES)
  {
    PollOfRelay(s, t);
    PollSends(s, t);
    FoundPollShowsDrained(s, t);
    ShowsAllIffDrained(SystemStep(s, ServerPoll(Found, t)));
    PollLeaves(s.relay.stream, t);
  }

  /**
   What the next poll brings, told from the state before it: it finishes the event stream exactly if the reader has
   ended, and afterwards the whole log has been shown exactly if at most fifty messages were still buffered.
   */
  lemma {:induction false} FinalPollShowsAllIff(now: int, events: seq<SystemEvent>, t: int)
    requires !SystemRun(now, events).finished
    ensures var s := SystemRun(now, events);
      var r := SystemStep(s, ServerPoll(Found, t));
      && (r.finished <==> s.relay.stream.done)
      && (Shown(r.sent) == r.relay.log <==> |s.relay.stream.messages| <= SSE_MAX_MESSAGES)
  {
    SystemIsFaithful(now, events);
    PollShowsAllIff(SystemRun(now, events), t);
  }

  /** A poll of the server empties the buffer exactly if it holds at most fifty messages. */
  lemma PollLeaves(s: Stream, now: int)
    ensures Drained(s, SSE_MAX_MESSAGES, now).messages == [] <==> |s.messages| <= SSE_MAX_MESSAGES
    ensures Drained(s, SSE_MAX_MESSAGES, now).done == s.done
  {
  }

  // The messages a finished event stream can miss.

  function Deliveries(bodies: seq<string>): seq<SystemEvent> {
    seq(|bodies|, i requires 0 <= i < |bodies| => Internal(Deliver(bodies[i])))
  }

  lemma {:induction false} BufferedDeliveries(now: int, bodies: seq<string>)
    ensures var s := SystemRun(now, Deliveries(bodies));
      !s.finished && s.relay.reading && |s.relay.stream.messages| == |bodies|
  {
    if bodies != [] {
      BufferedDeliveries(now, Front(bodies));
      assert Front(Deliveries(bodies)) == Deliveries(Front(bodies));
    }
  }

  /** Fifty or more messages and then the end before the first poll: what comes after the first fifty is never sent. */
  lemma {:induction false} LongBacklogIsCutOff(now: int, bodies: seq<string>, statusCode: int, error: string)
    requires |bodies| >= SSE_MAX_MESSAGES
    ensures var s := SystemRun(now, Deliveries(bodies) + [Internal(End(statusCode, error)), ServerPoll(Found, now)]);
      s.finished && |Shown(s.sent)| == SSE_MAX_MESSAGES && |s.relay.log| == |bodies| + 1
  {
    var end, poll := Internal(End(statusCode, error)), ServerPoll(Found, now);
    var events := Deliveries(bodies) + [end, poll];
    BufferedDeliveries(now, bodies);
    assert Front(events) == Deliveries(bodies) + [end];
    assert Front(Front(events)) == Deliveries(bodies);
    var s, ended := SystemRun(now, events), SystemRun(now, Front(events));
    SystemIsFaithful(now, Deliveries(bodies));
    SystemIsFaithful(now, Front(events));
    SystemIsFaithful(now, events);
    TakenPart(ended.relay, SSE_MAX_MESSAGES);
    EventStreamShowsTheLog(now, events);
    NothingShownYet(now, bodies);
  }

  lemma {:induction false} NothingShownYet(now: int, bodies: seq<string>)
    ensures SystemRun(now, Deliveries(bodies)).relay.drained == []
  {
    if bodies != [] {
      NothingShownYet(now, Front(bodies));
      BufferedDeliveries(now, Front(bodies));
      assert Front(Deliveries(bodies)) == Deliveries(Front(bodies));
    }
  }
}
