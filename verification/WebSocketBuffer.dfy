/**
 The buffer of one WebSocket connection: the reader and the senders append, polls take from the front, and old
 messages are thrown away when there are too many of them or too many bytes. Every region under `conn.mu` is one
 atomic step.
 */
module WebSocketBuffer {
  import opened Seqs

  datatype Direction = In | Out | System

  datatype Kind = Handshake | Text | Binary | Info | Error | Warn

  /** The text of a message; of the fixed notice about discarded messages only the length matters. */
  datatype Body = Payload(text: string) | OverflowNotice {
    function Size(): nat { if Payload? then |text| else 42 }
  }

  datatype Message = Message(direction: Direction, kind: Kind, body: Body)

  const MAX_BUFFER_BYTES := 16 * 1024 * 1024
  const MAX_MESSAGES := 500
  const MAX_POLL := 100

  datatype Connection = Connection(messages: seq<Message>, totalBytes: int, closed: bool, lastUsed: int)

  predicate Suffix(part: seq<Message>, whole: seq<Message>) {
    |part| <= |whole| && part == whole[|whole| - |part|..]
  }

  /** `appendWebSocketMessage`. */
  function Append(messages: seq<Message>, m: Message): (r: seq<Message>)
    requires |messages| <= MAX_MESSAGES
    ensures |r| <= MAX_MESSAGES
  {
    var all := messages + [m];
    if |all| > MAX_MESSAGES then all[|all| - MAX_MESSAGES..] else all
  }

  function Bytes(messages: seq<Message>): nat {
    if messages == [] then 0 else messages[0].body.Size() + Bytes(messages[1..])
  }

  const OVERFLOW := Message(System, Warn, OverflowNotice)

  /** The messages a frame leaves in the buffer before it is appended: half of them when it would not fit. */
  function MadeRoom(c: Connection, size: nat): Connection
    requires |c.messages| <= MAX_MESSAGES
  {
    if c.totalBytes + size > MAX_BUFFER_BYTES then
      var half := |c.messages| / 2;
      c.(messages := Append(c.messages[half..], OVERFLOW), totalBytes := c.totalBytes - Bytes(c.messages[..half]))
    else c
  }

  function Inbound(binary: bool, data: string, encoded: string): Message {
    if binary then Message(In, Binary, Payload(encoded)) else Message(In, Text, Payload(data))
  }

  function Received(c: Connection, binary: bool, data: string, encoded: string, now: int): Connection
    requires |c.messages| <= MAX_MESSAGES
  {
    var room := MadeRoom(c, |data|);
    Connection(Append(room.messages, Inbound(binary, data, encoded)), room.totalBytes + |data|, c.closed, now)
  }

  function Broken(c: Connection, normal: bool, reason: string, now: int): Connection
    requires |c.messages| <= MAX_MESSAGES
  {
    Connection(Append(c.messages, Message(System, if normal then Info else Error, Payload(reason))),
               c.totalBytes, true, now)
  }

  function Sent(c: Connection, body: string, binary: bool, failed: bool, now: int): Connection
    requires |c.messages| <= MAX_MESSAGES
  {
    Connection(Append(c.messages, Message(Out, if binary then Binary else Text, Payload(body))),
               c.totalBytes, c.closed || failed, now)
  }

  function Taken(c: Connection, maxMessages: int): nat {
    var limit := if maxMessages <= 0 || maxMessages > MAX_POLL then MAX_POLL else maxMessages;
    if limit < |c.messages| then limit else |c.messages|
  }

  function Polled(c: Connection, maxMessages: int, now: int): Connection {
    var n := Taken(c, maxMessages);
    Connection(c.messages[n..], c.totalBytes - Bytes(c.messages[..n]), c.closed, now)
  }

  lemma BytesAppend(messages: seq<Message>, i: nat)
    requires i < |messages|
    ensures Bytes(messages[..i + 1]) == Bytes(messages[..i]) + messages[i].body.Size()
  {
    assert messages[..i + 1][1..] == messages[1..][..i];
    if i > 0 {
      assert messages[..i][1..] == messages[1..][..i - 1];
      BytesAppend(messages[1..], i - 1);
    }
  }

  /** The last 500 messages, once this one is appended. */
  ghost predicate AppendedTo(messages: seq<Message>, m: Message, after: seq<Message>) {
    if |messages| < 500 then after == messages + [m]
    else |after| == 500 && after == (messages + [m])[|messages| - 499..]
  }

  /** The connection record of the executor; each method is one region under its mutex. */
  class WsConnection {
    var messages: seq<Message>
    var totalBytes: int
    var closed: bool
    var lastUsed: int

    constructor (handshake: seq<Message>, now: int)
      requires |handshake| <= 1
      ensures Valid() && View() == Connection(handshake, 0, false, now)
    {
      messages, totalBytes, closed, lastUsed := handshake, 0, false, now;
    }

    ghost predicate Valid()
      reads this
    {
      |messages| <= MAX_MESSAGES
    }

    ghost function View(): Connection
      reads this
    {
      Connection(messages, totalBytes, closed, lastUsed)
    }

    method Subtract(gone: seq<Message>)
      modifies this`totalBytes
      ensures totalBytes == old(totalBytes) - Bytes(gone)
    {
      var i := 0;
      while i < |gone|
        invariant 0 <= i <= |gone|
        invariant totalBytes == old(totalBytes) - Bytes(gone[..i])
      {
        BytesAppend(gone, i);
        totalBytes := totalBytes - gone[i].body.Size();
        i := i + 1;
      }
      assert gone[..i] == gone;
    }

    method ReceiveFrame(binary: bool, data: string, encoded: string, now: int)
      requires Valid()
      modifies this
      ensures Valid() && View() == Received(old(View()), binary, data, encoded, now)
      ensures var kept := if old(totalBytes) + |data| > 16777216
                          then old(messages)[|old(messages)| / 2..] + [Message(System, Warn, OverflowNotice)]
                          else old(messages);
        AppendedTo(kept, if binary then Message(In, Binary, Payload(encoded)) else Message(In, Text, Payload(data)),
                   messages)
      ensures closed == old(closed) && lastUsed == now
    {
      DropOldestHalf(|data|);
      ghost var room := View();
      totalBytes := totalBytes + |data|;
      messages := Append(messages, Inbound(binary, data, encoded));
      lastUsed := now;
      assert View() == Connection(
        Append(room.messages, Inbound(binary, data, encoded)), room.totalBytes + |data|, room.closed, now);
    }

    method DropOldestHalf(incoming: nat)
      requires Valid()
      modifies this
      ensures Valid() && View() == MadeRoom(old(View()), incoming)
    {
      if totalBytes + incoming > MAX_BUFFER_BYTES {
        var half := |messages| / 2;
        if half > 0 {
          Subtract(messages[..half]);
          messages := messages[half..];
        } else {
          assert messages[..0] == [] && messages[0..] == messages;
        }
        messages := Append(messages, OVERFLOW);
      }
    }

    method ReceiveError(normal: bool, reason: string, now: int)
      requires Valid()
      modifies this
      ensures Valid() && View() == Broken(old(View()), normal, reason, now)
      ensures AppendedTo(old(messages), Message(System, if normal then Info else Error, Payload(reason)), messages)
      ensures closed && lastUsed == now
    {
      lastUsed := now;
      closed := true;
      messages := Append(messages, Message(System, if normal then Info else Error, Payload(reason)));
    }

    method RecordSend(body: string, binary: bool, failed: bool, now: int)
      requires Valid()
      modifies this
      ensures Valid() && View() == Sent(old(View()), body, binary, failed, now)
      ensures AppendedTo(old(messages), Message(Out, if binary then Binary else Text, Payload(body)), messages)
      ensures closed == (old(closed) || failed) && lastUsed == now
    {
      lastUsed := now;
      messages := Append(messages, Message(Out, if binary then Binary else Text, Payload(body)));
      if failed {
        closed := true;
      }
    }

    method Poll(maxMessages: int, now: int) returns (taken: seq<Message>, connected: bool)
      requires Valid()
      modifies this
      ensures Valid() && View() == Polled(old(View()), maxMessages, now)
      ensures taken + messages == old(messages) && |taken| == Taken(old(View()), maxMessages)
      ensures var limit := if 0 < maxMessages <= 100 then maxMessages else 100;
        |taken| == if |old(messages)| < limit then |old(messages)| else limit
      ensures connected == !closed == !old(closed) && lastUsed == now
    {
      var limit := maxMessages;
      if limit <= 0 || limit > MAX_POLL {
        limit := MAX_POLL;
      }
      var count := if limit < |messages| then limit else |messages|;
      assert count == Taken(View(), maxMessages);
      taken := messages[..count];
      assert messages[..count] + messages[count..] == messages;
      Subtract(taken);
      messages := messages[count..];
      lastUsed := now;
      connected := !closed;
    }

    /** The region of `WebSocketClose`, and of a failed ping. */
    method MarkClosed()
      requires Valid()
      modifies this`closed
      ensures Valid() && View() == old(View()).(closed := true)
    {
      closed := true;
    }
  }

  // Every interleaving.

  datatype Event =
    | Frame(binary: bool, data: string, encoded: string, now: int)
    | Failure(normal: bool, reason: string, now: int)
    | Send(body: string, binary: bool, failed: bool, now: int)
    | Poll(maxMessages: int, now: int)
    | Close

  /**
   `log` are all messages ever appended, in the order of the lock; `polled` the positions in the log of the messages
   that polls took; `lost` how many messages were thrown away.
   */
  datatype History = History(connection: Connection, log: seq<Message>, polled: seq<nat>, lost: nat)

  predicate Ok(h: History) {
    && |h.connection.messages| <= MAX_MESSAGES
    && Suffix(h.connection.messages, h.log)
    && |h.log| == |h.polled| + h.lost + |h.connection.messages|
    && (forall i, j :: 0 <= i < j < |h.polled| ==> h.polled[i] < h.polled[j])
    && (forall i :: 0 <= i < |h.polled| ==> h.polled[i] < |h.log| - |h.connection.messages|)
  }

  /** The messages an event appends to the log, given the connection it meets. */
  function Appended(c: Connection, e: Event): seq<Message> {
    match e
    case Frame(binary, data, encoded, _) =>
      (if c.totalBytes + |data| > MAX_BUFFER_BYTES then [OVERFLOW] else []) + [Inbound(binary, data, encoded)]
    case Failure(normal, reason, _) => [Message(System, if normal then Info else Error, Payload(reason))]
    case Send(body, binary, _, _) => [Message(Out, if binary then Binary else Text, Payload(body))]
    case _ => []
  }

  function After(c: Connection, e: Event): Connection
    requires |c.messages| <= MAX_MESSAGES
  {
    match e
    case Frame(binary, data, encoded, now) => Received(c, binary, data, encoded, now)
    case Failure(normal, reason, now) => Broken(c, normal, reason, now)
    case Send(body, binary, failed, now) => Sent(c, body, binary, failed, now)
    case Poll(maxMessages, now) => Polled(c, maxMessages, now)
    case Close => c.(closed := true)
  }

  /** How many messages an append pushes out. */
  function PushedOut(messages: seq<Message>): nat {
    if |messages| >= MAX_MESSAGES then 1 else 0
  }

  /** How many messages an event throws away: the oldest half when a frame would not fit, and what appends push out. */
  function Discarded(c: Connection, e: Event): nat
    requires |c.messages| <= MAX_MESSAGES
  {
    match e
    case Frame(_, data, _, _) =>
      if c.totalBytes + |data| > MAX_BUFFER_BYTES then
        var half := |c.messages| / 2;
        half + PushedOut(c.messages[half..]) + PushedOut(Append(c.messages[half..], OVERFLOW))
      else PushedOut(c.messages)
    case Failure(_, _, _) => PushedOut(c.messages)
    case Send(_, _, _, _) => PushedOut(c.messages)
    case _ => 0
  }

  function Step(h: History, e: Event): (r: History)
    requires Ok(h)
    ensures Ok(r)
  {
    var c, next := h.connection, After(h.connection, e);
    var first := |h.log| - |c.messages|;
    var n := if e.Poll? then Taken(c, e.maxMessages) else 0;
    var polled := h.polled + seq(n, i requires 0 <= i < n => first + i);
    AfterIsSuffix(c, e, h.log);
    NothingUncounted(c, e);
    History(next, h.log + Appended(c, e), polled, h.lost + Discarded(c, e))
  }

  /** An append keeps what was there, but for the messages it pushes out. */
  lemma AppendCounts(messages: seq<Message>, m: Message)
    requires |messages| <= MAX_MESSAGES
    ensures |Append(messages, m)| + PushedOut(messages) == |messages| + 1
  {
  }

  /** What an event finds and appends is still there, taken or thrown away. */
  lemma NothingUncounted(c: Connection, e: Event)
    requires |c.messages| <= MAX_MESSAGES
    ensures |After(c, e).messages| + Discarded(c, e) + (if e.Poll? then Taken(c, e.maxMessages) else 0)
         == |c.messages| + |Appended(c, e)|
  {
    match e
    case Frame(binary, data, encoded, _) =>
      var m := Inbound(binary, data, encoded);
      if c.totalBytes + |data| > MAX_BUFFER_BYTES {
        var half := c.messages[|c.messages| / 2..];
        AppendCounts(half, OVERFLOW);
        AppendCounts(Append(half, OVERFLOW), m);
      } else {
        AppendCounts(c.messages, m);
      }
    case Failure(normal, reason, _) =>
      AppendCounts(c.messages, Message(System, if normal then Info else Error, Payload(reason)));
    case Send(body, binary, _, _) =>
      AppendCounts(c.messages, Message(Out, if binary then Binary else Text, Payload(body)));
    case _ =>
  }

  lemma SuffixDrop(part: seq<Message>, whole: seq<Message>, n: nat)
    requires Suffix(part, whole) && n <= |part|
    ensures Suffix(part[n..], whole)
  {
  }

  lemma SuffixAppend(part: seq<Message>, whole: seq<Message>, m: Message)
    requires Suffix(part, whole) && |part| <= MAX_MESSAGES
    ensures Suffix(Append(part, m), whole + [m])
    ensures |whole| + 1 - |Append(part, m)| >= |whole| - |part|
  {
    assert part + [m] == (whole + [m])[|whole| - |part|..];
    var kept := Append(part, m);
    assert kept == (whole + [m])[|whole| + 1 - |kept|..];
  }

  /** The buffer ends the log, and at least `gone` messages of the log come before it. */
  predicate EndsLog(part: seq<Message>, whole: seq<Message>, gone: int) {
    Suffix(part, whole) && |part| <= MAX_MESSAGES && |whole| - |part| >= gone
  }

  lemma AppendEndsLog(messages: seq<Message>, log: seq<Message>, m: Message)
    requires |messages| <= MAX_MESSAGES && Suffix(messages, log)
    ensures EndsLog(Append(messages, m), log + [m], |log| - |messages|)
  {
    SuffixAppend(messages, log, m);
  }

  lemma OverflowEndsLog(messages: seq<Message>, log: seq<Message>, m: Message)
    requires |messages| <= MAX_MESSAGES && Suffix(messages, log)
    ensures EndsLog(
      Append(Append(messages[|messages| / 2..], OVERFLOW), m), log + ([OVERFLOW] + [m]), |log| - |messages|)
  {
    var half := messages[|messages| / 2..];
    SuffixDrop(messages, log, |messages| / 2);
    AppendEndsLog(half, log, OVERFLOW);
    AppendEndsLog(Append(half, OVERFLOW), log + [OVERFLOW], m);
    assert log + ([OVERFLOW] + [m]) == log + [OVERFLOW] + [m];
  }

  lemma FrameEndsLog(c: Connection, binary: bool, data: string, encoded: string, now: int, log: seq<Message>)
    requires |c.messages| <= MAX_MESSAGES && Suffix(c.messages, log)
    ensures EndsLog(
      Received(c, binary, data, encoded, now).messages,
      log + Appended(c, Frame(binary, data, encoded, now)), |log| - |c.messages|)
  {
    var m := Inbound(binary, data, encoded);
    if c.totalBytes + |data| > MAX_BUFFER_BYTES {
      OverflowEndsLog(c.messages, log, m);
    } else {
      AppendEndsLog(c.messages, log, m);
      assert [] + [m] == [m];
    }
  }

  lemma AfterIsSuffix(c: Connection, e: Event, log: seq<Message>)
    requires |c.messages| <= MAX_MESSAGES && Suffix(c.messages, log)
    ensures EndsLog(After(c, e).messages, log + Appended(c, e),
      |log| - |c.messages| + if e.Poll? then Taken(c, e.maxMessages) else 0)
  {
    match e
    case Frame(binary, data, encoded, now) =>
      FrameEndsLog(c, binary, data, encoded, now, log);
    case Failure(normal, reason, _) =>
      AppendEndsLog(c.messages, log, Message(System, if normal then Info else Error, Payload(reason)));
    case Send(body, binary, _, _) =>
      AppendEndsLog(c.messages, log, Message(Out, if binary then Binary else Text, Payload(body)));
    case Poll(maxMessages, _) =>
      SuffixDrop(c.messages, log, Taken(c, maxMessages));
      assert log + [] == log;
    case Close =>
      assert log + [] == log;
  }

  function Run(h: History, events: seq<Event>): (r: History)
    requires Ok(h)
    ensures Ok(r)
    decreases |events|
  {
    if events == [] then h else Step(Run(h, Front(events)), Last(events))
  }

  function Opened(handshake: seq<Message>, now: int): (h: History)
    requires |handshake| <= 1
    ensures Ok(h)
  {
    History(Connection(handshake, 0, false, now), handshake, [], 0)
  }

  /**
   In every reachable state the buffer is the end of the log and holds at most 500 messages; the polled messages are
   at increasing positions before it; and every message of the log was polled, is buffered or was thrown away.
   */
  lemma {:induction false} BufferIsEndOfLog(handshake: seq<Message>, now: int, events: seq<Event>)
    requires |handshake| <= 1
    ensures var h := Run(Opened(handshake, now), events);
      var start := |h.log| - |h.connection.messages|;
      && 0 <= start && |h.connection.messages| <= 500
      && h.connection.messages == h.log[start..]
      && (forall i, j :: 0 <= i < j < |h.polled| ==> h.polled[i] < h.polled[j] < start)
      && |h.log| == |h.polled| + h.lost + |h.connection.messages|
  {
    var h := Run(Opened(handshake, now), events);
    assert Ok(h);
  }

  /** What an event alone says: a frame in, a frame out or the reason of a failure. */
  function Told(e: Event): seq<Message> {
    match e
    case Frame(binary, data, encoded, _) =>
      [if binary then Message(In, Binary, Payload(encoded)) else Message(In, Text, Payload(data))]
    case Failure(normal, reason, _) => [Message(System, if normal then Info else Error, Payload(reason))]
    case Send(body, binary, _, _) => [Message(Out, if binary then Binary else Text, Payload(body))]
    case _ => []
  }

  function NoNotices(messages: seq<Message>): seq<Message> {
    FlatMap((m: Message) => if m.body.OverflowNotice? then [] else [m], messages)
  }

  lemma NoNoticesConcat(a: seq<Message>, b: seq<Message>)
    ensures NoNotices(a + b) == NoNotices(a) + NoNotices(b)
  {
    FlatMapConcat((m: Message) => if m.body.OverflowNotice? then [] else [m], a, b);
  }

  lemma NoNoticesOne(m: Message)
    ensures NoNotices([m]) == if m.body.OverflowNotice? then [] else [m]
  {
    FlatMapOne((m: Message) => if m.body.OverflowNotice? then [] else [m], m);
  }

  lemma AppendedIsTold(c: Connection, e: Event)
    ensures NoNotices(Appended(c, e)) == Told(e)
  {
    match e
    case Frame(binary, data, encoded, _) =>
      NoNoticesOne(OVERFLOW);
      NoNoticesOne(Inbound(binary, data, encoded));
      NoNoticesConcat([OVERFLOW], [Inbound(binary, data, encoded)]);
      assert [] + [Inbound(binary, data, encoded)] == [Inbound(binary, data, encoded)];
    case Failure(normal, reason, _) =>
      NoNoticesOne(Message(System, if normal then Info else Error, Payload(reason)));
    case Send(body, binary, _, _) =>
      NoNoticesOne(Message(Out, if binary then Binary else Text, Payload(body)));
    case _ =>
  }

  lemma StepTells(h: History, e: Event)
    requires Ok(h)
    ensures NoNotices(Step(h, e).log) == NoNotices(h.log) + Told(e)
  {
    NoNoticesConcat(h.log, Appended(h.connection, e));
    AppendedIsTold(h.connection, e);
  }

  lemma ToldLast(events: seq<Event>)
    requires events != []
    ensures FlatMap(Told, events) == FlatMap(Told, Front(events)) + Told(Last(events))
  {
    assert events == Front(events) + [Last(events)];
    FlatMapConcat(Told, Front(events), [Last(events)]);
    FlatMapOne(Told, Last(events));
  }

  /** But for the notices of overflow, the log is what was there at first and then what each event says, in order. */
  lemma {:induction false} LogTellsEvents(h: History, events: seq<Event>)
    requires Ok(h)
    ensures NoNotices(Run(h, events).log) == NoNotices(h.log) + FlatMap(Told, events)
    decreases |events|
  {
    if events == [] {
      assert NoNotices(h.log) + [] == NoNotices(h.log);
    } else {
      var before, e := Run(h, Front(events)), Last(events);
      LogTellsEvents(h, Front(events));
      StepTells(before, e);
      ToldLast(events);
      ConcatAssociates(NoNotices(h.log), FlatMap(Told, Front(events)), Told(e));
    }
  }

  /** What polls returned, in the order of the polls. */
  function Returned(h: History, events: seq<Event>): seq<Message>
    requires Ok(h)
    decreases |events|
  {
    if events == [] then []
    else
      var c := Run(h, Front(events)).connection;
      Returned(h, Front(events)) + if Last(events).Poll? then c.messages[..Taken(c, Last(events).maxMessages)] else []
  }

  /** The texts are those of the log at the given positions. */
  predicate ReadsAt(texts: seq<Message>, log: seq<Message>, positions: seq<nat>) {
    && |texts| == |positions|
    && forall i :: 0 <= i < |positions| ==> positions[i] < |log| && texts[i] == log[positions[i]]
  }

  lemma ReadsAtLonger(texts: seq<Message>, log: seq<Message>, positions: seq<nat>, more: seq<Message>)
    requires ReadsAt(texts, log, positions)
    ensures ReadsAt(texts, log + more, positions)
  {
  }

  lemma ReadsAtTogether(
    texts: seq<Message>, positions: seq<nat>, more: seq<Message>, next: seq<nat>, log: seq<Message>
  )
    requires ReadsAt(texts, log, positions) && ReadsAt(more, log, next)
    ensures ReadsAt(texts + more, log, positions + next)
  {
  }

  /** What an event returns is what the log holds at the positions that the event adds. */
  lemma StepReturns(h: History, e: Event)
    requires Ok(h)
    ensures var taken := if e.Poll? then h.connection.messages[..Taken(h.connection, e.maxMessages)] else [];
      && |h.polled| <= |Step(h, e).polled| && Step(h, e).polled[..|h.polled|] == h.polled
      && ReadsAt(taken, h.log, Step(h, e).polled[|h.polled|..])
  {
    var first := |h.log| - |h.connection.messages|;
    var n := if e.Poll? then Taken(h.connection, e.maxMessages) else 0;
    var added := seq(n, i requires 0 <= i < n => first + i);
    assert Step(h, e).polled == h.polled + added;
    assert Step(h, e).polled[|h.polled|..] == added;
  }

  /** The messages returned by polls are the messages of the log at the polled positions. */
  lemma {:induction false} ReturnedIsPolled(h: History, events: seq<Event>)
    requires Ok(h) && h.polled == []
    ensures h.log <= Run(h, events).log
    ensures ReadsAt(Returned(h, events), Run(h, events).log, Run(h, events).polled)
    decreases |events|
  {
    if events != [] {
      var before, e := Run(h, Front(events)), Last(events);
      var after := Step(before, e);
      ReturnedIsPolled(h, Front(events));
      StepReturns(before, e);
      assert after.log == before.log + Appended(before.connection, e);
      var texts, taken := Returned(h, Front(events)),
        if e.Poll? then before.connection.messages[..Taken(before.connection, e.maxMessages)] else [];
      var added := after.polled[|before.polled|..];
      ReadsAtTogether(texts, before.polled, taken, added, before.log);
      ReadsAtLonger(texts + taken, before.log, before.polled + added, Appended(before.connection, e));
      assert after.polled == before.polled + added;
    }
  }

  /** As long as nothing was thrown away, what polls returned followed by the buffer is the whole log. */
  lemma {:induction false} NothingLostNothingMissing(h: History, events: seq<Event>)
    requires Ok(h) && h.polled == [] && Run(h, events).lost == 0
    ensures Returned(h, events) + Run(h, events).connection.messages == Run(h, events).log
  {
    ReturnedIsPolled(h, events);
    NothingLost(Run(h, events), Returned(h, events));
  }

  lemma NothingLost(r: History, texts: seq<Message>)
    requires Ok(r) && r.lost == 0 && ReadsAt(texts, r.log, r.polled)
    ensures texts + r.connection.messages == r.log
  {
    var start := |r.log| - |r.connection.messages|;
    AllPositionsRead(texts, r.log, r.polled, start);
    assert r.log == r.log[..start] + r.log[start..];
  }

  lemma AllPositionsRead(texts: seq<Message>, log: seq<Message>, positions: seq<nat>, n: nat)
    requires ReadsAt(texts, log, positions) && |positions| == n <= |log|
    requires forall i, j :: 0 <= i < j < |positions| ==> positions[i] < positions[j]
    requires forall i :: 0 <= i < |positions| ==> positions[i] < n
    ensures texts == log[..n]
  {
    PositionsAreCount(positions, n);
  }

  lemma {:induction false} PositionsAreCount(positions: seq<nat>, n: nat)
    requires |positions| == n
    requires forall i, j :: 0 <= i < j < |positions| ==> positions[i] < positions[j]
    requires forall i :: 0 <= i < |positions| ==> positions[i] < n
    ensures forall i :: 0 <= i < n ==> positions[i] == i
  {
    if n > 0 {
      var front := Front(positions);
      assert forall i :: 0 <= i < n - 1 ==> front[i] < positions[n - 1];
      PositionsAreCount(front, n - 1);
      assert forall i :: 0 <= i < n - 1 ==> positions[i] == front[i];
      if n > 1 {
        assert positions[n - 2] == n - 2;
      }
    }
  }

  /** Once closed, a connection stays closed. */
  lemma {:induction false} ClosedStaysClosed(h: History, events: seq<Event>)
    requires Ok(h) && h.connection.closed
    ensures Run(h, events).connection.closed
    decreases |events|
  {
    if events != [] {
      ClosedStaysClosed(h, Front(events));
    }
  }
}
