/**
 What the two readers of server-sent events make of the lines of one event, in whatever order and number they come and
 whichever line ends they have.
 */
module SseFields {
  import opened Options
  import opened Seqs
  import opened JsText
  import opened SseStreams

  // The message reader.

  lemma {:induction false} FirstDataLineAt(before: seq<string>, line: string, after: seq<string>)
    requires StartsWith(line, "data:") && forall l <- before :: !StartsWith(l, "data:")
    ensures FirstDataLine(before + [line] + after) == Some(line)
  {
    var lines := before + [line] + after;
    if before == [] {
      assert lines[0] == line;
    } else {
      assert lines[0] == before[0] && before[0] in before && lines[1..] == before[1..] + [line] + after;
      FirstDataLineAt(before[1..], line, after);
    }
  }

  lemma {:induction false} NoDataLine(lines: seq<string>)
    requires forall l <- lines :: !StartsWith(l, "data:")
    ensures FirstDataLine(lines) == None
  {
    if lines != [] {
      assert lines[0] in lines;
      NoDataLine(lines[1..]);
    }
  }

  lemma PayloadOfLine(spaces: string, payload: string)
    requires Blank(spaces) && (payload != "" ==> !IsSpace(payload[0]))
    ensures var line := "data:" + spaces + payload; StartsWith(line, "data:") && TrimStart(line[5..]) == payload
  {
    var line := "data:" + spaces + payload;
    assert line[..5] == "data:" && line[5..] == spaces + payload;
    TrimStartAfter(spaces, payload);
  }

  /**
   An event is told by its first data line, without the white space before the payload: it is a message or the end of
   the stream, or nothing if the payload does not parse.
   */
  lemma {:induction false} EventIsDelivered<M>(
    decoder: Decoder<M>, before: seq<string>, spaces: string, payload: string, after: seq<string>
  )
    requires Blank(spaces) && (payload != "" ==> !IsSpace(payload[0]))
    requires forall l <- before + ["data:" + spaces + payload] + after :: OneLine(l)
    requires forall l <- before :: !StartsWith(l, "data:")
    ensures ReadEvent(decoder, Join(before + ["data:" + spaces + payload] + after, "\n"))
         == match decoder.parse(payload)
            case Some(message) => [if decoder.done(message) then OnDone(message) else OnMessage(message)]
            case None => []
  {
    var line := "data:" + spaces + payload;
    PayloadOfLine(spaces, payload);
    SplitJoinedLines(before + [line] + after);
    FirstDataLineAt(before, line, after);
  }

  /** An event without a data line is skipped. */
  lemma EventWithoutData<M>(decoder: Decoder<M>, lines: seq<string>)
    requires lines != [] && forall l <- lines :: OneLine(l) && !StartsWith(l, "data:")
    ensures ReadEvent(decoder, Join(lines, "\n")) == []
  {
    SplitJoinedLines(lines);
    NoDataLine(lines);
  }

  // The reader of named events.

  /** A line of an event: its name, a piece of its data, or one that means nothing. */
  datatype Field = NameField(value: string) | DataField(value: string) | OtherField(value: string)

  predicate Readable(field: Field) {
    OneLine(field.value) && Trimmed(field.value)
    && (field.OtherField? ==> !StartsWith(field.value, "event:") && !StartsWith(field.value, "data:"))
  }

  function LineOf(field: Field): string {
    match field
    case NameField(value) => "event: " + value
    case DataField(value) => "data: " + value
    case OtherField(value) => value
  }

  function LinesOf(fields: seq<Field>): seq<string> {
    seq(|fields|, i requires 0 <= i < |fields| => LineOf(fields[i]))
  }

  function DataOf(field: Field): seq<string> {
    if field.DataField? then [field.value] else []
  }

  /** The lines, a carriage return after those that are to end with one; the last one has no end. */
  function Parts(lines: seq<string>, carriage: seq<bool>): seq<string>
    requires |lines| == |carriage|
  {
    seq(|lines|, i requires 0 <= i < |lines| =>
      if i < |lines| - 1 && carriage[i] then lines[i] + "\r" else lines[i])
  }

  /** The lines, each before the last with one of the two line ends. */
  function Ended(lines: seq<string>, carriage: seq<bool>): string
    requires |lines| == |carriage|
  {
    Join(Parts(lines, carriage), "\n")
  }

  lemma PartIsOneLine(line: string)
    requires OneLine(line)
    ensures OneLine(line + "\r") && Last(line + "\r") == '\r' && Front(line + "\r") == line
  {
    assert (line + "\r")[..|line|] == line;
  }

  lemma PartsAreOneLine(lines: seq<string>, carriage: seq<bool>)
    requires |lines| == |carriage| && forall l <- lines :: OneLine(l)
    ensures forall part <- Parts(lines, carriage) :: OneLine(part)
  {
    forall part | part in Parts(lines, carriage)
      ensures OneLine(part)
    {
      var i :| 0 <= i < |lines| && Parts(lines, carriage)[i] == part;
      assert lines[i] in lines;
      PartIsOneLine(lines[i]);
    }
  }

  lemma {:induction false} EndedLinesSplit(lines: seq<string>, carriage: seq<bool>)
    requires lines != [] && |lines| == |carriage|
    requires forall l <- lines :: OneLine(l) && (l != "" ==> Last(l) != '\r')
    ensures SplitLines(Ended(lines, carriage)) == lines
  {
    var parts := Parts(lines, carriage);
    PartsAreOneLine(lines, carriage);
    SplitJoinedLines(parts);
    forall i | 0 <= i < |lines|
      ensures lines[i]
           == if i < |parts| - 1 && parts[i] != "" && Last(parts[i]) == '\r' then Front(parts[i]) else parts[i]
    {
      assert lines[i] in lines;
      PartIsOneLine(lines[i]);
    }
  }

  lemma FieldIsRead(accumulator: Accumulator, field: Field)
    requires Readable(field)
    ensures AccumulateLine(accumulator, Trim(LineOf(field)))
         == Accumulator(if field.NameField? then Some(field.value) else accumulator.event,
                        accumulator.data + DataOf(field))
  {
    match field
    case NameField(value) =>
      PaddedEvent(value);
      NamedLine(accumulator, Trim(LineOf(field)), value);
      assert accumulator.data + [] == accumulator.data;
    case DataField(value) =>
      PaddedData(value);
      DataLine(accumulator, Trim(LineOf(field)), value);
    case OtherField(value) =>
      TrimmedIsTrim(value);
      assert accumulator.data + [] == accumulator.data;
  }

  /** The index of the last name of the event, or -1 if it has none. */
  predicate LastName(fields: seq<Field>, last: int) {
    && -1 <= last < |fields|
    && (last >= 0 ==> fields[last].NameField?)
    && forall i :: last < i < |fields| ==> !fields[i].NameField?
  }

  lemma AccumulateLast(lines: seq<string>)
    requires lines != []
    ensures Accumulate(lines) == AccumulateLine(Accumulate(Front(lines)), Trim(Last(lines)))
  {
  }

  lemma LinesOfLast(fields: seq<Field>)
    requires fields != []
    ensures LinesOf(fields) != [] && Front(LinesOf(fields)) == LinesOf(Front(fields))
    ensures Last(LinesOf(fields)) == LineOf(Last(fields))
  {
  }

  lemma DataOfLast(fields: seq<Field>)
    requires fields != []
    ensures FlatMap(DataOf, fields) == FlatMap(DataOf, Front(fields)) + DataOf(Last(fields))
  {
    assert fields[..|fields| - 1 + 1] == fields;
    FlatMapAppend(DataOf, fields, |fields| - 1);
  }

  function NameAt(fields: seq<Field>, last: int): Option<string>
    requires LastName(fields, last)
  {
    if last < 0 then None else Some(fields[last].value)
  }

  lemma {:induction false} FieldsAccumulate(fields: seq<Field>, last: int)
    requires (forall f <- fields :: Readable(f)) && LastName(fields, last)
    ensures Accumulate(LinesOf(fields)) == Accumulator(NameAt(fields, last), FlatMap(DataOf, fields))
    decreases |fields|
  {
    if fields != [] {
      var front, field := Front(fields), Last(fields);
      assert field in fields && forall f <- front :: f in fields;
      var before := LastNameBefore(fields, last);
      FieldsAccumulate(front, before);
      FieldIsRead(Accumulate(LinesOf(front)), field);
      LinesOfLast(fields);
      AccumulateLast(LinesOf(fields));
      DataOfLast(fields);
    }
  }

  lemma {:induction false} LastNameBefore(fields: seq<Field>, last: int) returns (before: int)
    requires fields != [] && LastName(fields, last)
    ensures LastName(Front(fields), before)
    ensures NameAt(fields, last)
         == if Last(fields).NameField? then Some(Last(fields).value) else NameAt(Front(fields), before)
  {
    if last < |fields| - 1 {
      before := last;
    } else {
      before := SomeLastName(Front(fields));
    }
  }

  lemma {:induction false} SomeLastName(fields: seq<Field>) returns (last: int)
    ensures LastName(fields, last)
    decreases |fields|
  {
    if fields == [] {
      last := -1;
    } else if Last(fields).NameField? {
      last := |fields| - 1;
    } else {
      last := SomeLastName(Front(fields));
    }
  }

  /**
   An event is handled by its last name: a chunk or a final response is decoded from all its data lines, in their order
   and joined by line breaks, and a final response that does not decode is a rejection. Any other event, named or not,
   and any other line means nothing, and both line ends are read.
   */
  lemma {:induction false} FieldsAreHandled<F>(codec: Codec<F>, fields: seq<Field>, carriage: seq<bool>, last: int)
    requires fields != [] && (forall f <- fields :: Readable(f)) && LastName(fields, last) && |carriage| == |fields|
    ensures var (data, raw) := (Join(FlatMap(DataOf, fields), "\n"), Ended(LinesOf(fields), carriage));
      Handle(codec, raw)
      == if last >= 0 && fields[last].value == "chunk" then [OnChunk(codec.chunk(data))]
         else if last >= 0 && fields[last].value == "final" then
           match codec.final(data)
           case Some(response) => [OnFinal(response)]
           case None => [Rejection]
         else []
  {
    LinesHaveNoEnds(fields);
    EndedLinesSplit(LinesOf(fields), carriage);
    FieldsAccumulate(fields, last);
    DispatchByName(codec, NameAt(fields, last), FlatMap(DataOf, fields));
  }

  lemma DispatchByName<F>(codec: Codec<F>, name: Option<string>, data: seq<string>)
    ensures Dispatch(codec, Accumulator(name, data))
         == if name == Some("chunk") then [OnChunk(codec.chunk(Join(data, "\n")))]
            else if name == Some("final") then
              match codec.final(Join(data, "\n"))
              case Some(response) => [OnFinal(response)]
              case None => [Rejection]
            else []
  {
  }

  lemma LinesHaveNoEnds(fields: seq<Field>)
    requires forall f <- fields :: Readable(f)
    ensures forall l <- LinesOf(fields) :: OneLine(l) && (l != "" ==> Last(l) != '\r')
  {
    forall l | l in LinesOf(fields)
      ensures OneLine(l) && (l != "" ==> Last(l) != '\r')
    {
      var i :| 0 <= i < |fields| && LinesOf(fields)[i] == l;
      assert fields[i] in fields;
      LineHasNoEnd(fields[i]);
    }
  }

  lemma LineHasNoEnd(field: Field)
    requires Readable(field)
    ensures OneLine(LineOf(field)) && (LineOf(field) != "" ==> Last(LineOf(field)) != '\r')
  {
    assert field.NameField? ==> LineOf(field) == "event: " + field.value;
    assert field.DataField? ==> LineOf(field) == "data: " + field.value;
  }

  // The event that the stream ends in.

  lemma UnfinishedSplit(whole: string, front: seq<string>, raw: string)
    requires Split(whole, BLANK_LINE) == front + [""] && Find(raw, BLANK_LINE) < 0
    ensures Split(whole + raw, BLANK_LINE) == front + [raw]
  {
    SplitResumes(whole, raw, BLANK_LINE);
    assert "" + raw == raw && Front(front + [""]) == front;
  }

  lemma HandledUpTo<F>(codec: Codec<F>, text: string, front: seq<string>, last: string)
    requires Split(text, BLANK_LINE) == front + [last]
    ensures HandleText(codec, text) == FlatMap(Handler(codec), front) + if Blank(last) then [] else Handle(codec, last)
  {
    HandlePartsSplit(Handler(codec), front, last);
  }

  lemma HandledWhole<F>(codec: Codec<F>, text: string, front: seq<string>)
    requires Split(text, BLANK_LINE) == front + [""]
    ensures HandleText(codec, text) == FlatMap(Handler(codec), front)
  {
    HandledUpTo(codec, text, front, "");
    assert FlatMap(Handler(codec), front) + [] == FlatMap(Handler(codec), front);
  }

  /**
   An event without a blank line after it at the end of a stream, here after whole events, is handled by the reader of
   named events if there is anything in it but white space.
   */
  lemma {:induction false} UnfinishedIsHandled<F>(codec: Codec<F>, whole: string, front: seq<string>, raw: string)
    requires Split(whole, BLANK_LINE) == front + [""] && Find(raw, BLANK_LINE) < 0
    ensures HandleText(codec, whole + raw)
         == HandleText(codec, whole) + if forall c <- raw :: IsSpace(c) then [] else Handle(codec, raw)
  {
    UnfinishedSplit(whole, front, raw);
    HandledUpTo(codec, whole + raw, front, raw);
    HandledWhole(codec, whole, front);
  }

  /** The message reader never reads it. */
  lemma {:induction false} UnfinishedIsNotRead<M>(
    decoder: Decoder<M>, whole: string, front: seq<string>, raw: string
  )
    requires Split(whole, BLANK_LINE) == front + [""] && Find(raw, BLANK_LINE) < 0
    ensures ReadText(decoder, whole + raw) == ReadText(decoder, whole)
  {
    UnfinishedSplit(whole, front, raw);
    assert Front(front + [raw]) == front && Front(front + [""]) == front;
  }
}
