/**
 Server-sent events as this application prints and reads them (event-stream format, section 9.2 of the WHATWG
 HTML Standard): the server's two printers and the client's two incremental readers, which keep an unfinished
 event in a carry buffer between chunks.
 */
module SseStreams {
  import opened Options
  import opened Seqs
  import opened JsText

  const BLANK_LINE := "\n\n"

  // The server.

  function SseEvent(event: string, payload: string): string {
    "event: " + event + "\ndata: " + payload + "\n\n"
  }

  function SseData(payload: string): string {
    "data: " + payload + "\n\n"
  }

  function PrintData(payloads: seq<string>): string {
    if payloads == [] then "" else SseData(payloads[0]) + PrintData(payloads[1..])
  }

  datatype Named = Named(event: string, payload: string)

  function PrintEvents(events: seq<Named>): string {
    if events == [] then "" else SseEvent(events[0].event, events[0].payload) + PrintEvents(events[1..])
  }

  // The message reader of the gRPC streams.

  datatype Delivery<M> = OnMessage(message: M) | OnDone(message: M)

  /** `JSON.parse` and the `done` field of what it returns; a text that does not parse is skipped. */
  datatype Decoder<!M> = Decoder(parse: string -> Option<M>, done: M -> bool)

  function Deliver<M>(decoder: Decoder<M>, payload: string): seq<Delivery<M>> {
    match decoder.parse(payload)
    case None => []
    case Some(message) => [if decoder.done(message) then OnDone(message) else OnMessage(message)]
  }

  function FirstDataLine(lines: seq<string>): (line: Option<string>)
    ensures line.Some? ==> StartsWith(line.value, "data:")
  {
    if lines == [] then None
    else if StartsWith(lines[0], "data:") then Some(lines[0])
    else FirstDataLine(lines[1..])
  }

  function ReadEvent<M>(decoder: Decoder<M>, event: string): seq<Delivery<M>> {
    match FirstDataLine(Split(event, "\n"))
    case None => []
    case Some(line) => Deliver(decoder, TrimStart(line[5..]))
  }

  function Reader<M>(decoder: Decoder<M>): string -> seq<Delivery<M>> {
    event => ReadEvent(decoder, event)
  }

  function Deliverer<M>(decoder: Decoder<M>): string -> seq<Delivery<M>> {
    payload => Deliver(decoder, payload)
  }

  /** The complete events of a text: everything before its last blank line. */
  function Complete(text: string): seq<string> {
    Front(Split(text, BLANK_LINE))
  }

  /** What the message reader makes of a whole text. */
  function ReadText<M>(decoder: Decoder<M>, text: string): seq<Delivery<M>> {
    FlatMap(Reader(decoder), Complete(text))
  }

  method FindDataLine(event: string) returns (dataLine: Option<string>)
    ensures dataLine == FirstDataLine(Split(event, "\n"))
  {
    dataLine := None;
    var lines, i := Split(event, "\n"), 0;
    while i < |lines|
      invariant 0 <= i <= |lines|
      invariant FirstDataLine(lines) == FirstDataLine(lines[i..])
    {
      assert lines[i..][1..] == lines[i + 1..];
      if StartsWith(lines[i], "data:") {
        return Some(lines[i]);
      }
      i := i + 1;
    }
  }

  method DeliverEvent<M>(event: string, decoder: Decoder<M>) returns (deliveries: seq<Delivery<M>>)
    ensures deliveries == Reader(decoder)(event)
  {
    deliveries := [];
    var dataLine := FindDataLine(event);
    if dataLine.Some? {
      var parsed := decoder.parse(TrimStart(dataLine.value[5..]));
      if parsed.Some? {
        if decoder.done(parsed.value) {
          deliveries := [OnDone(parsed.value)];
        } else {
          deliveries := [OnMessage(parsed.value)];
        }
      }
    }
  }

  method DeliverNext<M>(events: seq<string>, i: nat, decoder: Decoder<M>, before: seq<Delivery<M>>)
    returns (deliveries: seq<Delivery<M>>)
    requires i < |events| && before == FlatMap(Reader(decoder), events[..i])
    ensures deliveries == FlatMap(Reader(decoder), events[..i + 1])
  {
    var more := DeliverEvent(events[i], decoder);
    FlatMapNext(Reader(decoder), events, i, before, more);
    deliveries := before + more;
  }

  method DeliverEvents<M>(events: seq<string>, decoder: Decoder<M>) returns (deliveries: seq<Delivery<M>>)
    ensures deliveries == FlatMap(Reader(decoder), events)
  {
    deliveries := [];
    for i := 0 to |events|
      invariant deliveries == FlatMap(Reader(decoder), events[..i])
    {
      deliveries := DeliverNext(events, i, decoder, deliveries);
    }
    assert events[..|events|] == events;
  }

  /** One more chunk: the events split off so far, and what they were read as, grow together. */
  lemma {:induction false} CarryOver<T>(
    f: string -> seq<T>, chunks: seq<string>, i: nat, seen: seq<string>, buffer: string
  )
    requires i < |chunks| && Split(Concat(chunks[..i]), BLANK_LINE) == seen + [buffer]
    ensures var events := Split(buffer + chunks[i], BLANK_LINE);
      && Split(Concat(chunks[..i + 1]), BLANK_LINE) == (seen + Front(events)) + [Last(events)]
      && FlatMap(f, seen + Front(events)) == FlatMap(f, seen) + FlatMap(f, Front(events))
  {
    ConcatAppend(chunks, i);
    SplitCarry(Concat(chunks[..i]), chunks[i], BLANK_LINE, seen, buffer);
    FlatMapConcat(f, seen, Front(Split(buffer + chunks[i], BLANK_LINE)));
  }

  /** `grpcServerStream` and `grpcStreamEvents`: whatever the chunks, the reader delivers what the whole text says. */
  method ReadMessages<M>(chunks: seq<string>, decoder: Decoder<M>) returns (deliveries: seq<Delivery<M>>)
    ensures deliveries == ReadText(decoder, Concat(chunks))
  {
    var buffer, i := "", 0;
    deliveries := [];
    ghost var seen: seq<string> := [];
    while i < |chunks|
      invariant 0 <= i <= |chunks|
      invariant Split(Concat(chunks[..i]), BLANK_LINE) == seen + [buffer]
      invariant deliveries == FlatMap(Reader(decoder), seen)
    {
      CarryOver(Reader(decoder), chunks, i, seen, buffer);
      var events := Split(buffer + chunks[i], BLANK_LINE);
      var more := DeliverEvents(Front(events), decoder);
      seen := seen + Front(events);
      buffer := Last(events);
      deliveries := deliveries + more;
      i := i + 1;
    }
    assert chunks[..i] == chunks;
    assert Front(seen + [buffer]) == seen;
  }

  lemma NoBlankLineInside(block: string)
    requires OneLine(block)
    ensures forall i :: 0 <= i < |block| ==> !OccursAt(block + BLANK_LINE, BLANK_LINE, i)
  {
    forall i | 0 <= i < |block|
      ensures !OccursAt(block + BLANK_LINE, BLANK_LINE, i)
    {
      assert (block + BLANK_LINE)[i..i + 2][0] == block[i];
    }
  }

  predicate PlainPayload(payload: string) {
    OneLine(payload) && (payload != "" ==> !IsSpace(payload[0]))
  }

  lemma ReadPrintedData<M>(decoder: Decoder<M>, payload: string)
    requires PlainPayload(payload)
    ensures ReadEvent(decoder, "data: " + payload) == Deliver(decoder, payload)
  {
    var line := "data: " + payload;
    DataLineIsOneLine(payload);
    SplitOneLine(line);
    assert line[..5] == "data:";
    assert FirstDataLine([line]) == Some(line);
    assert line[5..] == " " + payload;
    assert (" " + payload)[1..] == payload;
    assert TrimStart(" " + payload) == payload;
  }

  lemma DataLineIsOneLine(payload: string)
    requires OneLine(payload)
    ensures OneLine("data: " + payload)
  {
  }

  lemma {:induction false} ReadAllPrintedData<M>(decoder: Decoder<M>, payloads: seq<string>)
    requires forall p <- payloads :: PlainPayload(p)
    ensures ReadText(decoder, PrintData(payloads)) == FlatMap(Deliverer(decoder), payloads)
  {
    if payloads != [] {
      var block, rest := "data: " + payloads[0], PrintData(payloads[1..]);
      assert PlainPayload(payloads[0]);
      DataLineIsOneLine(payloads[0]);
      NoBlankLineInside(block);
      assert PrintData(payloads) == block + BLANK_LINE + rest;
      SplitFirst(block, BLANK_LINE, rest);
      ReadAllPrintedData(decoder, payloads[1..]);
      assert Complete(PrintData(payloads)) == [block] + Complete(rest);
      assert ([block] + Complete(rest))[1..] == Complete(rest);
      ReadPrintedData(decoder, payloads[0]);
    }
  }

  /** Payloads printed by the server and cut into chunks anywhere are delivered one for one and in order. */
  lemma {:induction false} DataRoundTrip<M>(decoder: Decoder<M>, payloads: seq<string>, chunks: seq<string>)
    requires forall p <- payloads :: PlainPayload(p)
    requires Concat(chunks) == PrintData(payloads)
    ensures ReadText(decoder, Concat(chunks)) == FlatMap(Deliverer(decoder), payloads)
  {
    ReadAllPrintedData(decoder, payloads);
  }

  /** A stream cut off anywhere has delivered a prefix of what the whole stream delivers. */
  lemma {:induction false} CutStreamDeliversPrefix<M>(decoder: Decoder<M>, text: string, missing: string)
    ensures ReadText(decoder, text) <= ReadText(decoder, text + missing)
  {
    SplitResumes(text, missing, BLANK_LINE);
    var more := Split(Last(Split(text, BLANK_LINE)) + missing, BLANK_LINE);
    assert Complete(text + missing) == Complete(text) + Front(more);
    FlatMapConcat(Reader(decoder), Complete(text), Front(more));
  }

  // The reader of `executeStream`: named events, several data lines, and a last event without a blank line.

  /** What the page is told; `Rejection` ends the whole stream with an error. */
  datatype Handled<F> = OnChunk(text: string) | OnFinal(response: F) | Rejection

  /** The decoding of a chunk, which falls back on the text itself, and of the final response, which can fail. */
  datatype Codec<!F> = Codec(chunk: string -> string, final: string -> Option<F>)

  datatype Accumulator = Accumulator(event: Option<string>, data: seq<string>)

  function AccumulateLine(accumulator: Accumulator, line: string): Accumulator {
    var named := if StartsWith(line, "event:") then accumulator.(event := Some(Trim(line[6..]))) else accumulator;
    if StartsWith(line, "data:") then named.(data := named.data + [TrimStart(line[5..])]) else named
  }

  function Accumulate(lines: seq<string>): Accumulator {
    if lines == [] then Accumulator(None, []) else AccumulateLine(Accumulate(Front(lines)), Trim(Last(lines)))
  }

  function Finish<F>(final: Option<F>): Handled<F> {
    match final
    case Some(response) => OnFinal(response)
    case None => Rejection
  }

  function Dispatch<F>(codec: Codec<F>, event: Accumulator): seq<Handled<F>> {
    var data := Join(event.data, "\n");
    if event.event == Some("chunk") then [OnChunk(codec.chunk(data))]
    else if event.event == Some("final") then [Finish(codec.final(data))]
    else []
  }

  function Handle<F>(codec: Codec<F>, rawEvent: string): seq<Handled<F>> {
    Dispatch(codec, Accumulate(SplitLines(rawEvent)))
  }

  function Handler<F>(codec: Codec<F>): string -> seq<Handled<F>> {
    rawEvent => Handle(codec, rawEvent)
  }

  /** All parts in order, the last one only when something is left in it. */
  function HandleParts<T>(handler: string -> seq<T>, parts: seq<string>): seq<T>
    requires parts != []
  {
    FlatMap(handler, Front(parts)) + if Blank(Last(parts)) then [] else handler(Last(parts))
  }

  /** What all events of a text say. */
  function HandleText<F>(codec: Codec<F>, text: string): seq<Handled<F>> {
    HandleParts(Handler(codec), Split(text, BLANK_LINE))
  }

  predicate Rejected<F>(handled: seq<Handled<F>>) {
    exists i :: 0 <= i < |handled| && handled[i].Rejection?
  }

  /** Nothing is handled after the first rejection. */
  function UpToRejection<F>(handled: seq<Handled<F>>): seq<Handled<F>> {
    if handled == [] then []
    else if handled[0].Rejection? then [Rejection]
    else [handled[0]] + UpToRejection(handled[1..])
  }

  lemma {:induction false} UnrejectedStays<F>(a: seq<Handled<F>>)
    ensures Rejected(UpToRejection(a)) <==> Rejected(a)
    ensures !Rejected(a) ==> UpToRejection(a) == a
  {
    if a != [] {
      RejectedFirst(a);
      UnrejectedStays(a[1..]);
      if !a[0].Rejection? {
        RejectedFirst([a[0]] + UpToRejection(a[1..]));
        assert ([a[0]] + UpToRejection(a[1..]))[1..] == UpToRejection(a[1..]);
        assert a == [a[0]] + a[1..];
      }
    }
  }

  lemma {:induction false} UpToRejectionConcat<F>(a: seq<Handled<F>>, b: seq<Handled<F>>)
    ensures UpToRejection(a + b) == if Rejected(a) then UpToRejection(a) else a + UpToRejection(b)
  {
    if a == [] {
      assert a + b == b;
    } else {
      RejectedFirst(a);
      assert (a + b)[1..] == a[1..] + b;
      UpToRejectionConcat(a[1..], b);
      if !Rejected(a) {
        ConcatAssociates([a[0]], a[1..], UpToRejection(b));
      }
    }
  }

  lemma RejectedFirst<F>(a: seq<Handled<F>>)
    requires a != []
    ensures Rejected(a) <==> a[0].Rejection? || Rejected(a[1..])
  {
    if Rejected(a[1..]) {
      var i :| 0 <= i < |a[1..]| && a[1..][i].Rejection?;
      assert a[i + 1].Rejection?;
    }
    if Rejected(a) {
      var i :| 0 <= i < |a| && a[i].Rejection?;
      assert i > 0 ==> a[1..][i - 1].Rejection?;
    }
  }

  method AccumulateLines(lines: seq<string>) returns (accumulator: Accumulator)
    ensures accumulator == Accumulate(lines)
  {
    accumulator := Accumulator(None, []);
    for i := 0 to |lines|
      invariant accumulator == Accumulate(lines[..i])
    {
      assert Front(lines[..i + 1]) == lines[..i];
      var line := Trim(lines[i]);
      if StartsWith(line, "event:") {
        accumulator := accumulator.(event := Some(Trim(line[6..])));
      }
      if StartsWith(line, "data:") {
        accumulator := accumulator.(data := accumulator.data + [TrimStart(line[5..])]);
      }
    }
    assert lines[..|lines|] == lines;
  }

  method HandleSseEvent<F>(rawEvent: string, codec: Codec<F>) returns (handled: seq<Handled<F>>)
    ensures handled == Handler(codec)(rawEvent)
  {
    var accumulator := AccumulateLines(SplitLines(rawEvent));
    var data := Join(accumulator.data, "\n");
    handled := [];
    if accumulator.event == Some("chunk") {
      return [OnChunk(codec.chunk(data))];
    }
    if accumulator.event == Some("final") {
      var payload := codec.final(data);
      if payload.None? {
        return [Rejection];
      }
      handled := [OnFinal(payload.value)];
    }
  }

  /** One event more is handled, and there is a rejection now exactly if it was rejected. */
  lemma HandleOneMore<F>(codec: Codec<F>, events: seq<string>, i: nat, before: seq<Handled<F>>)
    requires i < |events| && before == FlatMap(Handler(codec), events[..i]) && !Rejected(before)
    ensures var more := Handler(codec)(events[i]);
      && before + more == FlatMap(Handler(codec), events[..i + 1])
      && UpToRejection(before + more) == before + more
      && (Rejected(before + more) <==> more != [] && more[0].Rejection?)
  {
    var more := Handler(codec)(events[i]);
    FlatMapNext(Handler(codec), events, i, before, more);
    UpToRejectionConcat(before, more);
    OneIsKept(codec, Accumulate(SplitLines(events[i])));
    RejectedEither(before, more);
  }

  lemma OneIsKept<F>(codec: Codec<F>, event: Accumulator)
    ensures var more := Dispatch(codec, event);
      UpToRejection(more) == more && (Rejected(more) <==> more != [] && more[0].Rejection?)
  {
    var more := Dispatch(codec, event);
    if more != [] {
      RejectedFirst(more);
      assert more[1..] == [];
    }
  }

  /** The events after the first ones do not change what comes before a rejection. */
  lemma RejectedStays<F>(codec: Codec<F>, events: seq<string>, n: nat)
    requires n <= |events| && Rejected(FlatMap(Handler(codec), events[..n]))
    ensures UpToRejection(FlatMap(Handler(codec), events)) == UpToRejection(FlatMap(Handler(codec), events[..n]))
    ensures Rejected(FlatMap(Handler(codec), events))
  {
    assert events == events[..n] + events[n..];
    FlatMapConcat(Handler(codec), events[..n], events[n..]);
    UpToRejectionConcat(FlatMap(Handler(codec), events[..n]), FlatMap(Handler(codec), events[n..]));
    RejectedInFront(FlatMap(Handler(codec), events[..n]), FlatMap(Handler(codec), events[n..]));
  }

  lemma RejectedInFront<F>(a: seq<Handled<F>>, b: seq<Handled<F>>)
    requires Rejected(a)
    ensures Rejected(a + b)
  {
    var i :| 0 <= i < |a| && a[i].Rejection?;
    assert (a + b)[i].Rejection?;
  }

  /** The chain of promises over the events: it is broken by the first one that fails. */
  method HandleSseEvents<F>(events: seq<string>, codec: Codec<F>) returns (handled: seq<Handled<F>>, rejected: bool)
    ensures handled == UpToRejection(FlatMap(Handler(codec), events))
    ensures rejected == Rejected(FlatMap(Handler(codec), events))
  {
    handled, rejected := [], false;
    for i := 0 to |events|
      invariant handled == FlatMap(Handler(codec), events[..i]) && !Rejected(handled)
    {
      HandleOneMore(codec, events, i, handled);
      var more := HandleSseEvent(events[i], codec);
      handled := handled + more;
      if more != [] && more[0].Rejection? {
        RejectedStays(codec, events, i + 1);
        return handled, true;
      }
    }
    assert events[..|events|] == events;
    UnrejectedStays(handled);
  }

  lemma HandlePartsSplit<T>(handler: string -> seq<T>, front: seq<string>, last: string)
    ensures HandleParts(handler, front + [last]) == FlatMap(handler, front) + if Blank(last) then [] else handler(last)
  {
    assert Front(front + [last]) == front;
  }

  lemma {:induction false} ConcatRest(chunks: seq<string>, k: nat)
    requires k <= |chunks|
    ensures Concat(chunks) == Concat(chunks[..k]) + Concat(chunks[k..])
  {
    if k == 0 {
      assert chunks[0..] == chunks;
    } else {
      ConcatRest(chunks[1..], k - 1);
      assert chunks[..k][1..] == chunks[1..][..k - 1] && chunks[1..][k - 1..] == chunks[k..];
      ConcatAssociates(chunks[0], Concat(chunks[1..][..k - 1]), Concat(chunks[k..]));
    }
  }

  /** What was rejected in the events so far is where the whole text is rejected. */
  lemma RejectionIsFinal<F>(codec: Codec<F>, text: string, missing: string, seen: seq<string>, buffer: string)
    requires Split(text, BLANK_LINE) == seen + [buffer] && Rejected(FlatMap(Handler(codec), seen))
    ensures UpToRejection(HandleText(codec, text + missing)) == UpToRejection(FlatMap(Handler(codec), seen))
  {
    var more := Split(buffer + missing, BLANK_LINE);
    SplitCarry(text, missing, BLANK_LINE, seen, buffer);
    HandlePartsSplit(Handler(codec), seen + Front(more), Last(more));
    var last := if Blank(Last(more)) then [] else Handler(codec)(Last(more));
    FlatMapConcat(Handler(codec), seen, Front(more));
    ConcatAssociates(FlatMap(Handler(codec), seen), FlatMap(Handler(codec), Front(more)), last);
    UpToRejectionConcat(FlatMap(Handler(codec), seen), FlatMap(Handler(codec), Front(more)) + last);
  }

  /** The events of one chunk after those before it. */
  lemma NextEvents<F>(codec: Codec<F>, seen: seq<string>, events: seq<string>, before: seq<Handled<F>>)
    requires before == FlatMap(Handler(codec), seen) && !Rejected(before)
    ensures var more := FlatMap(Handler(codec), events);
      && FlatMap(Handler(codec), seen + events) == before + more
      && UpToRejection(before + more) == before + UpToRejection(more)
      && (Rejected(before + more) <==> Rejected(more))
      && (!Rejected(more) ==> UpToRejection(more) == more)
  {
    var more := FlatMap(Handler(codec), events);
    FlatMapConcat(Handler(codec), seen, events);
    UpToRejectionConcat(before, more);
    UnrejectedStays(more);
    RejectedEither(before, more);
  }

  lemma RejectedEither<F>(a: seq<Handled<F>>, b: seq<Handled<F>>)
    ensures Rejected(a + b) <==> Rejected(a) || Rejected(b)
  {
    if Rejected(a) {
      RejectedInFront(a, b);
    }
    if Rejected(b) {
      var i :| 0 <= i < |b| && b[i].Rejection?;
      assert (a + b)[|a| + i].Rejection?;
    }
    if Rejected(a + b) {
      var i :| 0 <= i < |a + b| && (a + b)[i].Rejection?;
      assert if i < |a| then a[i].Rejection? else b[i - |a|].Rejection?;
    }
  }

  /** The last event, without a blank line after it. */
  method HandleRest<F>(buffer: string, codec: Codec<F>, ghost seen: seq<string>, before: seq<Handled<F>>)
    returns (handled: seq<Handled<F>>)
    requires before == FlatMap(Handler(codec), seen) && !Rejected(before)
    ensures handled == UpToRejection(HandleParts(Handler(codec), seen + [buffer]))
  {
    handled := before;
    HandlePartsSplit(Handler(codec), seen, buffer);
    UpToRejectionConcat(before, if Blank(buffer) then [] else Handler(codec)(buffer));
    if !Blank(buffer) {
      OneIsKept(codec, Accumulate(SplitLines(buffer)));
      var more := HandleSseEvent(buffer, codec);
      handled := handled + more;
    }
  }

  /** `executeStream`: whatever the chunks, what the whole text says is handled, up to the first rejection. */
  method ExecuteStream<F>(chunks: seq<string>, codec: Codec<F>) returns (handled: seq<Handled<F>>)
    ensures handled == UpToRejection(HandleText(codec, Concat(chunks)))
  {
    var buffer, i := "", 0;
    handled := [];
    ghost var seen: seq<string> := [];
    while i < |chunks|
      invariant 0 <= i <= |chunks|
      invariant Split(Concat(chunks[..i]), BLANK_LINE) == seen + [buffer]
      invariant handled == FlatMap(Handler(codec), seen) && !Rejected(handled)
    {
      CarryOver(Handler(codec), chunks, i, seen, buffer);
      var events := Split(buffer + chunks[i], BLANK_LINE);
      var more, rejected := HandleSseEvents(Front(events), codec);
      NextEvents(codec, seen, Front(events), handled);
      seen := seen + Front(events);
      buffer := Last(events);
      handled := handled + more;
      i := i + 1;
      if rejected {
        ConcatRest(chunks, i);
        RejectionIsFinal(codec, Concat(chunks[..i]), Concat(chunks[i..]), seen, buffer);
        return;
      }
    }
    assert chunks[..i] == chunks;
    handled := HandleRest(buffer, codec, seen, handled);
  }

  function HandledAs<F>(codec: Codec<F>, event: Named): seq<Handled<F>> {
    if event.event == "chunk" then [OnChunk(codec.chunk(event.payload))]
    else if event.event == "final" then [Finish(codec.final(event.payload))]
    else []
  }

  function ByName<F>(codec: Codec<F>): Named -> seq<Handled<F>> {
    event => HandledAs(codec, event)
  }

  predicate Printable(event: Named) {
    OneLine(event.event) && Trimmed(event.event) && OneLine(event.payload) && Trimmed(event.payload)
  }

  /** The event as the server prints it, without the blank line after it. */
  function Block(event: Named): string {
    "event: " + event.event + "\ndata: " + event.payload
  }

  lemma PrintedLines(event: Named)
    requires Printable(event)
    ensures OneLine("event: " + event.event) && OneLine("data: " + event.payload)
    ensures Block(event) == ("event: " + event.event) + "\n" + ("data: " + event.payload)
  {
  }

  lemma SplitTwoLines(a: string, b: string)
    requires OneLine(a) && OneLine(b)
    ensures Split(a + "\n" + b, "\n") == [a, b]
  {
    SplitFirstChar(a, '\n', b);
    SplitOneLine(b);
  }

  lemma PrintedEventLines(event: Named)
    requires Printable(event)
    ensures SplitLines(Block(event)) == ["event: " + event.event, "data: " + event.payload]
  {
    var first, second := "event: " + event.event, "data: " + event.payload;
    PrintedLines(event);
    SplitTwoLines(first, second);
    assert Last(first) == if event.event == "" then ' ' else Last(event.event);
  }

  lemma TrimPadded(prefix: string, text: string)
    requires prefix != "" && Trimmed(prefix) && Trimmed(text)
    ensures StartsWith(Trim(prefix + " " + text), prefix)
    ensures Trim(Trim(prefix + " " + text)[|prefix|..]) == text
    ensures TrimStart(Trim(prefix + " " + text)[|prefix|..]) == text
  {
    if text == "" {
      TrimNothingPadded(prefix);
      assert prefix[..|prefix|] == prefix && prefix[|prefix|..] == "";
    } else {
      TrimPaddedText(prefix, text);
      TrimBehindSpace(text);
    }
  }

  lemma TrimNothingPadded(prefix: string)
    requires prefix != "" && Trimmed(prefix)
    ensures Trim(prefix + " " + "") == prefix
  {
    var line := prefix + " " + "";
    assert TrimStart(line) == line && line[..|line| - 1] == prefix;
    assert TrimEnd(line) == TrimEnd(prefix) == prefix;
  }

  lemma TrimPaddedText(prefix: string, text: string)
    requires prefix != "" && text != "" && Trimmed(prefix) && Trimmed(text)
    ensures var line := prefix + " " + text;
      Trim(line) == line && line[..|prefix|] == prefix && line[|prefix|..] == [' '] + text
  {
    var line := prefix + " " + text;
    assert line[0] == prefix[0] && line[|line| - 1] == text[|text| - 1];
    TrimmedIsTrim(line);
  }

  lemma TrimBehindSpace(text: string)
    requires Trimmed(text)
    ensures TrimStart([' '] + text) == text && Trim([' '] + text) == text
  {
    TrimAfterSpace(text);
    TrimmedIsTrim(text);
  }

  lemma OtherStart(s: string, prefix: string)
    requires s != "" && prefix != "" && s[0] != prefix[0]
    ensures !StartsWith(s, prefix)
  {
    if |prefix| <= |s| {
      assert s[..|prefix|][0] != prefix[0];
    }
  }

  lemma SamePrefixStart(s: string, prefix: string)
    requires StartsWith(s, prefix) && prefix != ""
    ensures s != "" && s[0] == prefix[0]
  {
    assert s[..|prefix|][0] == prefix[0];
  }

  lemma NamedLine(accumulator: Accumulator, line: string, text: string)
    requires StartsWith(line, "event:") && Trim(line[6..]) == text
    ensures AccumulateLine(accumulator, line) == accumulator.(event := Some(text))
  {
    SamePrefixStart(line, "event:");
    OtherStart(line, "data:");
  }

  lemma DataLine(accumulator: Accumulator, line: string, text: string)
    requires StartsWith(line, "data:") && TrimStart(line[5..]) == text
    ensures AccumulateLine(accumulator, line) == accumulator.(data := accumulator.data + [text])
  {
    SamePrefixStart(line, "data:");
    OtherStart(line, "event:");
  }

  lemma AccumulateTwo(first: string, second: string)
    ensures Accumulate([first, second])
         == AccumulateLine(AccumulateLine(Accumulator(None, []), Trim(first)), Trim(second))
  {
    assert Front([first, second]) == [first] && Front([first]) == [];
    assert Accumulate([first]) == AccumulateLine(Accumulator(None, []), Trim(first));
  }

  lemma PaddedEvent(text: string)
    requires Trimmed(text)
    ensures StartsWith(Trim("event: " + text), "event:") && Trim(Trim("event: " + text)[6..]) == text
  {
    assert "event: " + text == "event:" + " " + text;
    TrimPadded("event:", text);
  }

  lemma PaddedData(text: string)
    requires Trimmed(text)
    ensures StartsWith(Trim("data: " + text), "data:") && TrimStart(Trim("data: " + text)[5..]) == text
  {
    assert "data: " + text == "data:" + " " + text;
    TrimPadded("data:", text);
  }

  lemma EventLine(text: string)
    requires Trimmed(text)
    ensures AccumulateLine(Accumulator(None, []), Trim("event: " + text)) == Accumulator(Some(text), [])
  {
    PaddedEvent(text);
    NamedLine(Accumulator(None, []), Trim("event: " + text), text);
  }

  lemma PayloadLine(event: string, text: string)
    requires Trimmed(text)
    ensures AccumulateLine(Accumulator(Some(event), []), Trim("data: " + text)) == Accumulator(Some(event), [text])
  {
    PaddedData(text);
    DataLine(Accumulator(Some(event), []), Trim("data: " + text), text);
  }

  lemma AccumulatePrinted(event: Named)
    requires Printable(event)
    ensures Accumulate(SplitLines(Block(event))) == Accumulator(Some(event.event), [event.payload])
  {
    PrintedEventLines(event);
    AccumulateTwo("event: " + event.event, "data: " + event.payload);
    EventLine(event.event);
    PayloadLine(event.event, event.payload);
  }

  lemma HandlePrinted<F>(codec: Codec<F>, event: Named)
    requires Printable(event)
    ensures Handle(codec, Block(event)) == HandledAs(codec, event)
  {
    AccumulatePrinted(event);
    DispatchPrinted(codec, event);
  }

  lemma DispatchPrinted<F>(codec: Codec<F>, event: Named)
    ensures Dispatch(codec, Accumulator(Some(event.event), [event.payload])) == HandledAs(codec, event)
  {
  }

  lemma NoBlankLineInTwoLines(a: string, b: string)
    requires OneLine(a) && OneLine(b) && b != ""
    ensures forall i :: 0 <= i < |a + "\n" + b| ==> !OccursAt(a + "\n" + b + BLANK_LINE, BLANK_LINE, i)
  {
    var block := a + "\n" + b;
    forall i | 0 <= i < |block|
      ensures !OccursAt(block + BLANK_LINE, BLANK_LINE, i)
    {
      var pair := (block + BLANK_LINE)[i..i + 2];
      if i == |a| {
        assert pair[1] == b[0];
      } else {
        assert pair[0] == block[i];
        assert block[i] == if i < |a| then a[i] else b[i - |a| - 1];
      }
    }
  }

  lemma SplitPrintedEvent(event: Named, rest: string)
    requires Printable(event)
    ensures Split(SseEvent(event.event, event.payload) + rest, BLANK_LINE) == [Block(event)] + Split(rest, BLANK_LINE)
  {
    PrintedLines(event);
    NoBlankLineInTwoLines("event: " + event.event, "data: " + event.payload);
    SplitFirst(Block(event), BLANK_LINE, rest);
    assert SseEvent(event.event, event.payload) + rest == Block(event) + BLANK_LINE + rest;
  }

  lemma HandlePartsCons<T>(handler: string -> seq<T>, first: string, parts: seq<string>)
    requires parts != []
    ensures HandleParts(handler, [first] + parts) == handler(first) + HandleParts(handler, parts)
  {
    assert Front([first] + parts) == [first] + Front(parts);
    assert ([first] + Front(parts))[1..] == Front(parts);
  }

  lemma {:induction false} HandlePrintedEvents<F>(codec: Codec<F>, events: seq<Named>)
    requires forall e <- events :: Printable(e)
    ensures HandleText(codec, PrintEvents(events)) == FlatMap(ByName(codec), events)
  {
    if events == [] {
      assert HandleParts(Handler(codec), [""]) == [];
    } else {
      var rest := PrintEvents(events[1..]);
      SplitPrintedEvent(events[0], rest);
      HandlePartsCons(Handler(codec), Block(events[0]), Split(rest, BLANK_LINE));
      HandlePrintedEvents(codec, events[1..]);
      HandlePrinted(codec, events[0]);
    }
  }

  /** No final response of the events fails to decode. */
  predicate FinalsDecode<F>(codec: Codec<F>, events: seq<Named>) {
    forall e <- events :: e.event == "final" ==> codec.final(e.payload).Some?
  }

  lemma {:induction false} RejectedIff<F>(codec: Codec<F>, events: seq<Named>)
    ensures Rejected(FlatMap(ByName(codec), events)) <==> !FinalsDecode(codec, events)
  {
    if events != [] {
      var first := HandledAs(codec, events[0]);
      RejectedIff(codec, events[1..]);
      RejectedEither(first, FlatMap(ByName(codec), events[1..]));
      FirstRejectedIff(codec, events[0]);
      assert events == [events[0]] + events[1..];
    }
  }

  lemma FirstRejectedIff<F>(codec: Codec<F>, event: Named)
    ensures Rejected(HandledAs(codec, event)) <==> event.event == "final" && codec.final(event.payload).None?
  {
    var handled := HandledAs(codec, event);
    if handled != [] {
      assert Rejected(handled) <==> handled[0].Rejection?;
    }
  }

  /**
   Named events printed by the server and cut into chunks anywhere are handled one for one and in order, up to the
   first final response that does not decode; all of them exactly if every final response does.
   */
  lemma {:induction false} EventRoundTrip<F>(codec: Codec<F>, events: seq<Named>, chunks: seq<string>)
    requires forall e <- events :: Printable(e)
    requires Concat(chunks) == PrintEvents(events)
    ensures HandleText(codec, Concat(chunks)) == FlatMap(ByName(codec), events)
    ensures Rejected(UpToRejection(HandleText(codec, Concat(chunks)))) <==> !FinalsDecode(codec, events)
    ensures FinalsDecode(codec, events) ==>
      UpToRejection(HandleText(codec, Concat(chunks))) == FlatMap(ByName(codec), events)
  {
    HandlePrintedEvents(codec, events);
    RejectedIff(codec, events);
    UnrejectedStays(FlatMap(ByName(codec), events));
  }
}
