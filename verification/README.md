# Verified model of the API client

This project models the parts of the client whose behaviour spans many steps or several functions, and proves what they
keep over every run. It is written in Dafny 4.11; `dafny verify dfyconfig.toml` checks all of it.

What is modelled, file by file:

- **Flow engine**: `FlowInterpreter` is the engine as an object with shared variables and results, `FlowMachine` a
  small-step machine for the same language, and `FlowTrace` says what the results of a run tell of the text of the
  flow. `FlowValidation` is the validator as a walk over mutable records, `FlowReport` says of the positions of a flow
  what it accepts and reports, and `FlowBounds` what acceptance says about every run.
- **Streams**: `SseStreams` holds the printers and the two incremental readers of server-sent events, `SseFields` what
  they make of the lines of an event, `GrpcRelay` the
  buffer between a gRPC reader and its pollers together with the server's event stream, `GrpcDelivery` the way from
  that reader to the page's callbacks, `GrpcRegistry` the three parallel maps of live streams, and `WebSocketBuffer`
  the bounded buffer of a WebSocket connection. A region under a mutex is one atomic step, and runs are arbitrary
  sequences of steps.
- **Differ**: `JsonDiff` is the recursive comparison of two JSON values, with paths kept as lists; `JsonPatch` applies
  reported changes to a value, and `JsonPatchOrder` says which orders lead to the other one; `ResponseDiff` compares
  whole responses.
- **Text**: `Curl`, `CurlOptions`, `CurlRoundTrip`, `CurlQuotes` and `CurlBody` cover the cURL printer and parser,
  `EnvText`, `EnvLines` and `EnvKeys` the env-file printer and parser, and `Template` the bounded expansion of
  placeholders.
- **Rate limiter**: `RateLimiter`, in exact real arithmetic, and `RateAllowance`, which says exactly which checks get
  through.
- **Mock servers**: `MockPaths` says which paths a pattern matches, `MockCoverage` which routes can be picked at all,
  and `MockOverlap` and
  `MockOverlapSoundness` relate the overlap warning to that; `GrpcReplay` and `GrpcMockStore` cover recording and
  replaying.
- **Closures and names**: `FolderTree` and `DependencyFetch` are the two fixpoint searches over `Graphs`; `Slugs`,
  `ExportSlugs`, `FolderForest`, `ExportPaths` and `ExportFiles` the naming of exported folders and files.
- `JsText`, `StringOrder`, `Decimal`, `Reals`, `Options`, `Seqs`, `Sets` and `Remainders` hold the operations of the two
  source languages and the few facts about collections and remainders that the others share.

Imperative code is modelled imperatively: classes with the source's fields and methods, loops with invariants. Each such
method is proved equal to a function of its inputs or old state, and the theorems are about those functions.

What the outside world decides is a parameter: responses, clocks, fresh ids, `JSON.parse`, condition evaluation, the
sorting of siblings, server answers. The results hold for every choice of it.

Where the code does not do what one would expect, the model follows the code:

- An env value that contains a backslash directly before `n` or `r` is garbled on the way back (the four replacements
  run one after another), and so are values with other control characters. `ValueRoundTripsIff` says exactly which
  values survive.
- The cURL parser does not read the shell's spelling of a single quote, and drops the backslash before a double quote.
  `BodyComesBackIff` says of every body whether it comes back, and `RoundTripsIff` of every request whose strings are
  plain, which includes all strings without single quotes and backslashes, whether the whole request does.
- The differ lists the removals of an array from left to right. Taken one after another they have to be made from
  right to left; `AppliesExactlyInAllowedOrders` says which orders of the changes can be applied.
- An event stream whose last poll finds more than fifty messages in the buffer, the done message included, never sends
  the rest; `FinalPollShowsAllIff` says exactly when nothing is missed.
- A self-referring variable is neither expanded nor reported (`SelfReferenceGoesUnreported`).
- Fields that contain a separator of the printed key can cause a wrong overlap warning (`ColonMakesAFalseWarning`);
  `OverlapIsRightIff` says exactly which warnings are right.
- A folder with a missing parent can get the path of a top folder (`DanglingParentCollides`); `PathsDifferIff` says
  exactly when paths are distinct.
- A cycle of parents, which an import accepts, makes the path loop run for ever (`OwnParentNeverEnds`);
  `EndsIffWithinSize` says exactly from which folders it ends.
- A key with an equals sign, a line break, a leading hash or an `export` prefix is printed to an env file and not read
  back (`ExportedTextReadsBackIff`).

## Model

| member | source | states |
|---|---|---|
| `FlowInterpreter.FlowRunner.constructor` | packages/core/src/flow/index.ts:26-31 | a runner starts with empty variables and results |
| `FlowInterpreter.FlowRunner.Run` | packages/core/src/flow/index.ts:59-86 | the engine with its shared mutable fields ends in the state the recursive meaning of the flow gives, and the run is failed exactly if some result is |
| `FlowInterpreter.FlowRunner.RunStepList` | packages/core/src/flow/index.ts:88-101 | the loop with its early return refines the recursive meaning of a step list |
| `FlowInterpreter.FlowRunner.RunOneStep` | packages/core/src/flow/index.ts:103-191 | dispatch, branches and the bounded loop with its break refine the recursive meaning of a step |
| `FlowInterpreter.FlowRunner.RunRequestStep` | packages/core/src/flow/index.ts:193-285 | the retry loop makes the calls, extracts the variables and pushes the one result that the meaning of a request step gives |
| `FlowInterpreter.RetriesUntilAnswered` | packages/core/src/flow/index.ts:220-237 | at least one call and at most one more than the retry count is made; every call before the last was rejected, and the outcome is the first answer, or a failure after all retries |
| `FlowInterpreter.FlowRunner.ExecuteRequest` | packages/core/src/flow/index.ts:220-237 | the loop over the retries makes exactly those calls, with the variables the step began with |
| `FlowInterpreter.CapIsLoopTest` | packages/core/src/flow/index.ts:171-172 | the real-valued loop test on the index holds for exactly the first Cap(step) naturals, also for fractional and negative limits |
| `FlowInterpreter.LoopStopsAtFirstFailedCheck` | packages/core/src/flow/index.ts:160-191 | a loop runs its body, numbered from zero, until its check first fails or the cap is reached, and then adds its own result |
| `FlowInterpreter.StepPushesItsOwn` | packages/core/src/flow/index.ts:115-191 | every step adds its own result: requests and delays nothing else, a condition before those of its branch, a loop after those of its iterations |
| `FlowTrace.ConditionTakesItsBranch` | packages/core/src/flow/index.ts:133-158 | after a condition's own result come only results of steps nested in its thenSteps if it held before it, and of steps nested in its elseSteps otherwise; the first step of that list is begun, and an empty list adds nothing |
| `FlowTrace.RequestAddsItsAnswer` | packages/core/src/flow/index.ts:193-285 | a request step adds one result: of the first answer within the allowed retries, failed exactly if that carries an error or fails its assertions or if there is none; what an answer extracts is added to the variables, and nothing else changes |
| `FlowTrace.LoopGoesRound` | packages/core/src/flow/index.ts:160-191 | a loop goes round from its counter zero, each time over its whole list with the counter written to the variable of the iteration, and it stops exactly where the counter has reached the limit or its condition does not let it go on; then it adds its own result |
| `FlowTrace.ListNamesItsSteps` | packages/core/src/flow/index.ts:88-101 | results are only added, and every result of a list has the id of a step nested in it |
| `FlowMachine.MachineAgreesWithEngine` | packages/core/src/flow/index.ts:88-191 | a small-step machine with a stack of pending lists halts within a bound computed from the flow and ends exactly where the recursive engine ends, for every flow and every sequence of responses |
| `FlowMachine.NextKeepsMeaning` | packages/core/src/flow/index.ts:88-191 | one machine step changes nothing about what the rest of the run will produce |
| `FlowMachine.NextBurnsFuel` | packages/core/src/flow/index.ts:95-99 | every machine step uses up some of the fuel of the stack, so no run is infinite |
| `FlowMachine.HaltsWithMeaning` | packages/core/src/flow/index.ts:59-101 | from any stack with enough fuel the machine ends empty, in the state the stack means |
| `FlowMachine.InterruptionKeepsPrefix` | packages/core/src/flow/index.ts:22-49 | stopping after any number of machine steps leaves a prefix of the results of the uninterrupted run |
| `FlowMachine.CancelledRunReportsPrefix` | packages/core/src/flow/index.ts:36-49 | a cancelled run reports itself as cancelled with a prefix of the results of the full run, and with all of them when nothing was left to do |
| `FlowMachine.FailureCutsOnlyItsOwnList` | packages/core/src/flow/index.ts:94-100 | a list runs without early exit up to its first own request that fails without continueOnFailure; failures inside its branches and loops never stop it |
| `FlowMachine.TolerantListRunsToItsEnd` | packages/core/src/flow/index.ts:94-100 | a list whose requests all continue on failure begins every one of its steps |
| `FlowMachine.ResultsOnlyGrow` | packages/core/src/flow/index.ts:127-186 | results are append-only over every run |
| `FlowValidation.FlowValidator.ValidateFlow` | packages/core/src/flow/validation.ts:102-147 | the imperative walk leaves exactly the issues that the flow is to be reported for (who they are is ReportedIff), splits them by level without loss, and accepts a flow exactly if it meets the declarative rules |
| `FlowValidation.FlowValidator.ValidateSteps` | packages/core/src/flow/validation.ts:149-156 | the walk over a list threads issues, seen ids, count and depth through its steps in order, remembering whether there was a request; what that adds up to is StepsAddUp, StepsIff and ReportedIff |
| `FlowValidation.FlowValidator.ValidateStep` | packages/core/src/flow/validation.ts:158-199 | one step: its head, the checks of its type, then what is nested in it one level deeper |
| `FlowValidation.FlowValidator.ValidateConditionStep` | packages/core/src/flow/validation.ts:260-299 | the checks of a condition, then both branches one level deeper |
| `FlowValidation.FlowValidator.ValidateLoopStep` | packages/core/src/flow/validation.ts:301-382 | the checks of a loop head, then its body one level deeper |
| `FlowValidation.FlowValidator.ValidateStepHead` | packages/core/src/flow/validation.ts:160-193 | count, depth, id and name of a step: an id already seen anywhere in the flow is an error |
| `FlowValidation.FlowValidator.ValidateLoopHead` | packages/core/src/flow/validation.ts:312-375 | the issues of a loop head: numbers that are no integers in range, a limit below the count, a condition without a mode, and nothing that bounds the loop |
| `FlowValidation.FlowValidator.Partition` | packages/core/src/flow/validation.ts:144-146 | errors and warnings are the issues of each level in their order, together all issues and none twice, and there are no errors exactly if no issue is one |
| `FlowValidation.StepsAddUp` | packages/core/src/flow/validation.ts:149-171 | the walk over a list adds the number of its nested steps to the count, its nesting to the depth and its ids to those seen |
| `FlowValidation.StepsIff` | packages/core/src/flow/validation.ts:149-199 | the walk over a list adds no error exactly if every nested step is in order and all ids in it are present, new and given once |
| `FlowReport.AcceptedIff` | packages/core/src/flow/validation.ts:17-56 | said of positions alone: a flow is accepted exactly if its name is present and within 120 characters, it has steps where they are required, every step in it is right by itself, is at most eight levels deep and has an id of its own, and there are at most 500 of them |
| `FlowReport.ReportedIff` | packages/core/src/flow/validation.ts:102-382 | an issue, error or warning, is reported exactly if the flow as a whole, one of its steps by itself or two equal ids give rise to it; a step that looks at a response is warned about exactly if no request stands before it in one of the lists around it |
| `FlowReport.PositionsOfList` | packages/core/src/flow/validation.ts:160-160 | the count of a list is the number of its positions |
| `FlowReport.UniqueIdsIff` | packages/core/src/flow/validation.ts:163-171 | the ids met by the walk are distinct exactly if no two positions share one |
| `FlowBounds.ResultsPerStep` | packages/core/src/flow/validation.ts:77-84 | in every run of an accepted flow, whatever the responses, a step gives at most as many results as the product of the caps of its enclosing loops, which is at most a power of 1000 |
| `FlowBounds.ResultNamesOneStep` | packages/core/src/flow/validation.ts:163-171 | every result of a run of an accepted flow names a step of the flow, and only one |
| `FlowBounds.ResultsOfWholeRun` | packages/core/src/flow/validation.ts:133-142 | a whole run of an accepted flow gives at most steps * 1000^(depth-1), hence at most 500 * 1000^7 results |
| `FlowBounds.SameIdSamePath` | packages/core/src/flow/validation.ts:163-171 | in a flow with distinct ids two positions with the same id are the same position |
| `FlowBounds.AllowanceIsCapProduct` | packages/core/src/flow/index.ts:171-184 | the number of results an id may get, counted over the text of the flow, is the product of the caps around its only position |
| `FlowBounds.ListWithinAllowance` | packages/core/src/flow/index.ts:88-191 | no run, accepted or not, gives an id more results than the text of the flow allows |
| `SseStreams.FindDataLine` | packages/ui/src/features/grpc/api.ts:44-50 | the loop stops at the first data line |
| `SseStreams.DeliverEvent` | packages/ui/src/features/grpc/api.ts:44-62 | one event is delivered as a message, as the end, or skipped when it has no data line or does not parse |
| `SseStreams.ReadMessages` | packages/ui/src/features/grpc/api.ts:33-63 | the incremental reader with its carry buffer delivers what the whole text says, however the text is cut into chunks |
| `SseStreams.DataRoundTrip` | packages/server/src/api/handlers/sse.ts:14-16 | newline-free payloads printed by the server and cut into chunks anywhere are delivered one for one and in order |
| `SseStreams.CutStreamDeliversPrefix` | packages/ui/src/features/grpc/api.ts:41-42 | a stream cut off anywhere has delivered a prefix of what the whole stream delivers |
| `SseStreams.AccumulateLines` | packages/ui/src/features/execute/api.ts:105-119 | the fold over the lines keeps the last event name and all data lines in order |
| `SseStreams.HandleSseEvent` | packages/ui/src/features/execute/api.ts:98-139 | a raw event becomes a decoded chunk, a final response or a rejection, or nothing, by its name and its joined data lines |
| `SseStreams.ExecuteStream` | packages/ui/src/features/execute/api.ts:79-96 | the reader with its carry buffer and its unfinished last event handles what the whole text says up to the first rejection, however the text is chunked |
| `SseStreams.EventRoundTrip` | packages/server/src/api/handlers/sse.ts:10-12 | named events printed by the server and cut into chunks anywhere are handled one for one and in order; the stream is rejected exactly if some final response does not decode |
| `SseStreams.CarryOver` | packages/ui/src/features/execute/api.ts:87-93 | events split off so far and the carry buffer stay a split of everything received |
| `SseFields.EventIsDelivered` | packages/ui/src/features/grpc/api.ts:43-61 | an event with any lines around its first data line is what that payload parses to, without the white space before it: a message, the end, or nothing |
| `SseFields.FieldsAreHandled` | packages/ui/src/features/execute/api.ts:104-139 | an event of any number of name, data and other lines, with either line end, is handled by its last name, from all its data lines in order joined by line breaks |
| `SseFields.FieldsAccumulate` | packages/ui/src/features/execute/api.ts:108-119 | the fold keeps the last name and every piece of data in order |
| `SseFields.EndedLinesSplit` | packages/ui/src/features/execute/api.ts:106-106 | lines come apart at both line ends |
| `SseFields.UnfinishedIsHandled` | packages/ui/src/features/execute/api.ts:95-95 | a last event without a blank line is handled by the reader of named events unless it is blank |
| `SseFields.UnfinishedIsNotRead` | packages/ui/src/features/grpc/api.ts:40-43 | the message reader never reads it |
| `JsText.SplitResumes` | packages/ui/src/features/grpc/api.ts:40-42 | splitting can be suspended at any place and resumed from the last part |
| `GrpcRelay.GrpcManagedStream.constructor` | executor/internal/executor/grpc_stream.go:127-134 | an opened stream has an empty buffer and is not done |
| `GrpcRelay.GrpcManagedStream.Receive` | executor/internal/executor/grpc_stream.go:158-160 | the reader's locked region appends one message with the received body, not done and without an error, and changes nothing else |
| `GrpcRelay.GrpcManagedStream.ReceiveError` | executor/internal/executor/grpc_stream.go:142-156 | the reader's last region appends the done message with the status and the error, which is left out for the plain end, and sets the flag |
| `GrpcRelay.GrpcManagedStream.Poll` | executor/internal/executor/grpc_stream.go:284-296 | a poll takes the oldest messages up to its limit, loses none, and reports connected exactly until the reader has ended |
| `GrpcRelay.GrpcManagedStream.Touch` | executor/internal/executor/grpc_stream.go:240-242 | a send only moves the time of last use |
| `GrpcRelay.RelayConserves` | executor/internal/executor/grpc_stream.go:136-163 | over every interleaving of reader, polls and sends: what polls drained followed by the buffer is what the reader appended, with at most one done message, which is the last |
| `GrpcRelay.LogCarriesWhatArrived` | executor/internal/executor/grpc_stream.go:136-163 | over every interleaving the log holds exactly the bodies received before the first end, in order, in messages that are not done and carry no error, followed exactly if there was an end by one done message with its status and its error |
| `GrpcRelay.SystemLogCarriesWhatArrived` | packages/server/src/api/handlers/grpc.ts:106-132 | the same under the server's event stream, over every interleaving of reader, polls and sends |
| `GrpcRelay.FormatPoll` | packages/server/src/api/handlers/grpc.ts:116-132 | the formatter forwards messages up to the first done one and makes up a done event exactly when the stream is gone and none was forwarded |
| `GrpcRelay.SystemIsFaithful` | packages/server/src/api/handlers/sse.ts:25-45 | over every interleaving with a sole event stream: what was sent is what was drained, done events come last only, and the stream ends exactly by one |
| `GrpcRelay.EventStreamShowsTheLog` | packages/server/src/api/handlers/grpc.ts:106-136 | over every interleaving the events sent followed by what is buffered are the reader's log, no event but the last is a done event, and a stream that misses nothing ends with the reader's own done message |
| `GrpcRelay.FinalPollShowsAllIff` | packages/server/src/api/handlers/grpc.ts:106-132 | told from any reachable state before a poll: the poll ends the event stream exactly if the reader has ended, and afterwards the whole log has been shown exactly if at most fifty messages were buffered |
| `GrpcRelay.LongBacklogIsCutOff` | packages/server/src/api/handlers/grpc.ts:127-131 | the other case does occur: after fifty or more messages and the end before the first poll, the stream ends with fifty messages shown |
| `GrpcRelay.EndsWithFinalEvent` | packages/server/src/api/handlers/grpc.ts:123-132 | a finished stream ended with the reader's own done message exactly if its last poll found the stream and left nothing behind, with a made-up done event if it left something or the stream was gone, and with the error event if the executor could not be reached |
| `GrpcDelivery.PageGetsWhatArrived` | packages/ui/src/features/grpc/api.ts:33-63 | end to end, over every interleaving and every cutting into chunks: onMessage is called with the bodies the executor received, from the first and in order; the call of onDone comes once, last, and exactly when the event stream has ended, with the event it ended with |
| `GrpcDelivery.CutPageGetsWhatArrived` | packages/ui/src/features/grpc/api.ts:33-63 | a connection cut anywhere has called with a first part of the same bodies |
| `GrpcRegistry.Service.Open` | executor/internal/executor/grpc_stream.go:220-225 | the record, the sender and the closer of a stream are entered together |
| `GrpcRegistry.Service.RemoveForClose` | executor/internal/executor/grpc_stream.go:251-261 | a close takes the id out of all three maps and gets its closer if it was there |
| `GrpcRegistry.Service.CleanupTick` | executor/internal/executor/grpc_stream.go:44-58 | the tick removes exactly the stale streams, from all three maps |
| `GrpcRegistry.RegistryIsConsistent` | executor/internal/executor/grpc_stream.go:39-271 | in every reachable state the three maps have the same keys, and an issued id is live, was closed once or was swept, never two of these |
| `GrpcRegistry.SendFindsItsStream` | executor/internal/executor/grpc_stream.go:231-247 | a send that finds a sender finds the record of the same stream |
| `GrpcRegistry.RemovedStaysRemoved` | executor/internal/executor/grpc_stream.go:249-271 | with fresh ids, a removed id never comes back and its closer is called at most once in a whole run |
| `WebSocketBuffer.WsConnection.constructor` | executor/internal/executor/websocket.go:102-121 | a connection starts open with at most the handshake message |
| `WebSocketBuffer.WsConnection.ReceiveFrame` | executor/internal/executor/websocket.go:269-301 | a frame makes room when it would not fit and is then appended |
| `WebSocketBuffer.WsConnection.DropOldestHalf` | executor/internal/executor/websocket.go:276-292 | when the byte limit would be passed, the oldest half goes and a notice is appended; otherwise nothing changes |
| `WebSocketBuffer.WsConnection.ReceiveError` | executor/internal/executor/websocket.go:247-267 | the end of the connection appends its reason and closes |
| `WebSocketBuffer.WsConnection.RecordSend` | executor/internal/executor/websocket.go:178-189 | a send is recorded, and a failed one closes the connection |
| `WebSocketBuffer.WsConnection.Poll` | executor/internal/executor/websocket.go:203-219 | a poll takes the oldest messages, at most 100, and what it took followed by what is left is what was there |
| `WebSocketBuffer.WsConnection.MarkClosed` | executor/internal/executor/websocket.go:233-235 | closing changes the flag and nothing else |
| `WebSocketBuffer.BufferIsEndOfLog` | executor/internal/executor/websocket.go:348-354 | in every reachable state the buffer is the end of the log of all appended messages, holds at most 500, polled positions increase before it, and the messages polled, buffered and counted as thrown away when room was made add up to the log |
| `WebSocketBuffer.LogTellsEvents` | executor/internal/executor/websocket.go:178-301 | but for the notices of overflow the log is the handshake and then, event by event, the frame that came in, the frame that was sent or the reason of a failure |
| `WebSocketBuffer.ReturnedIsPolled` | executor/internal/executor/websocket.go:208-219 | what polls returned are the messages of the log at strictly increasing positions: in order and without duplicates |
| `WebSocketBuffer.NothingLostNothingMissing` | executor/internal/executor/websocket.go:276-286 | as long as no event threw anything away, what polls returned followed by the buffer is the whole log |
| `WebSocketBuffer.ClosedStaysClosed` | executor/internal/executor/websocket.go:253-253 | closed never reverts to open |
| `JsonDiff.PatchReadsAsRight` | packages/core/src/lib/diff.ts:51-75 | at every path the first change at or above it, or the left value where there is none, gives what the right value has there |
| `JsonPatchOrder.PatchMakesRight` | packages/core/src/lib/diff.ts:51-75 | applied one after another, additions and replacements as listed and then the removals from last to first, every reported change fits and the left value becomes the right one up to the order of object keys |
| `JsonPatchOrder.AppliesExactlyInAllowedOrders` | packages/core/src/lib/diff.ts:51-75 | any order of the reported changes can be applied exactly if no item is added before the one on its left or removed before the one on its right, and every such order leads to the right value |
| `JsonPatchOrder.ListedOrderFails` | packages/core/src/lib/diff.ts:57-65 | applied in the order of the list itself the changes do not fit when the array loses two items or more |
| `JsonPatchOrder.ChangesAreGrounded` | packages/core/src/lib/diff.ts:51-75 | what a change says was there is there in the left value, and nothing is where it adds |
| `JsonPatch.EditAt` | packages/core/src/lib/diff.ts:51-75 | one edit changes the value at its path and below, and keeps everything beside it |
| `JsonPatch.EditFits` | packages/core/src/lib/diff.ts:51-75 | an edit can be made exactly if the value it names is there, or the composite it adds to, and an item is at the end of its array |
| `JsonPatch.AppliedReadsAsPatch` | packages/core/src/lib/diff.ts:51-75 | after edits that do not overlap the value reads at every path as the list of changes says |
| `JsonDiff.NoChangesIffSame` | packages/core/src/lib/diff.ts:51-52 | no change is reported exactly when the values are equal up to the order of object keys |
| `JsonDiff.SameReadsTheSame` | packages/core/src/lib/diff.ts:61-66 | values equal up to key order read the same at every path |
| `JsonDiff.ReadsTheSameIsSame` | packages/core/src/lib/diff.ts:61-66 | values that read the same at every path are equal up to key order |
| `JsonDiff.SwappingSidesMirrors` | packages/core/src/lib/diff.ts:71-75 | swapping the sides turns adds into removes and exchanges old and new values, change for change |
| `JsonDiff.SwappingSidesSwapsCounts` | packages/core/src/lib/diff.ts:100-106 | swapping the sides swaps the counts of additions and deletions and keeps the count of changes |
| `ResponseDiff.SummaryCounts` | packages/core/src/lib/diff.ts:100-106 | additions, deletions and changes are the numbers of places in the list that hold an add, a remove and a replace, and together all of them |
| `ResponseDiff.CountsHaveDirection` | packages/core/src/lib/diff.ts:100-106 | for objects that agree on the keys they share, additions is the number of keys only the right one has and deletions that of keys only the left one has |
| `JsonDiff.ChangesDoNotOverlap` | packages/core/src/lib/diff.ts:51-75 | no reported path is a prefix of another: each change is made at a place of its own |
| `JsonDiff.CompareUnder` | packages/core/src/lib/diff.ts:57-65 | comparing under a path reports the changes of the comparison at the root, moved under that path |
| `ResponseDiff.CompareText` | packages/core/src/lib/diff.ts:77-98 | the loop over the lines reports what the value differ reports on the two arrays of lines |
| `ResponseDiff.CompareResponses` | packages/core/src/lib/diff.ts:3-49 | the pushed and filtered list is the body, header and status changes in that order that are not ignored; the summary counts the adds, removes and replaces in it, and together they are all of it |
| `ResponseDiff.ReportedIff` | packages/core/src/lib/diff.ts:11-38 | a change is in the list exactly if it is a change of the status, of the parsed bodies or of the headers and its printed path is not ignored |
| `ResponseDiff.IgnoredIff` | packages/core/src/lib/diff.ts:8-10 | a path is ignored exactly if it is printed as an ignored one, or goes on after an ignored one with a dot or a bracket |
| `ResponseDiff.PathsArePrinted` | packages/core/src/lib/diff.ts:57-67 | how the path of a field, an item and a line is printed after the path it stands under |
| `ResponseDiff.IgnoredBelow` | packages/core/src/lib/diff.ts:8-10 | a change is ignored with every change below it, by paths as they are printed |
| `ResponseDiff.LastHeaderWins` | packages/core/src/lib/diff.ts:108-110 | a lower-cased header name has the value of the last header of that name |
| `ResponseDiff.HeaderNamesAreKeys` | packages/core/src/lib/diff.ts:108-110 | exactly the lower-cased names of headers are keys |
| `ResponseDiff.NoChangesIffResponsesAgree` | packages/core/src/lib/diff.ts:3-38 | with nothing ignored, no change is reported exactly when bodies, headers, status and status text say the same |
| `RateLimiter.Limiter.CheckKey` | packages/server/src/services/rate-limiter.ts:31-61 | a check updates the bucket of its own key to what the refill rule says and touches no other |
| `RateLimiter.KeysAreIndependent` | packages/server/src/services/rate-limiter.ts:36-60 | the results of a key in a trace of all clients are those of its own checks alone |
| `RateLimiter.WindowBound` | packages/server/src/services/rate-limiter.ts:37-60 | for one key, with a clock that does not go back and any mix of limits on the bucket, a window allows at most the largest burst plus what the largest rate refills in it |
| `RateLimiter.ServerWindowBound` | packages/server/src/middleware/rate-limit.ts:23-45 | with the server's three limits a client gets at most 60 plus two per second in any window, whatever the other clients do |
| `RateLimiter.DeniedCheckIsInvisible` | packages/server/src/services/rate-limiter.ts:49-52 | a denied check leaves a bucket that refills to the same amount at every later time |
| `RateLimiter.ServerDeniedCheckCanBeDeleted` | packages/server/src/services/rate-limiter.ts:49-52 | in a trace of all clients, deleting a denied check of a client with a single limit changes no other result of any client |
| `RateLimiter.RetryAfterIsExact` | packages/server/src/services/rate-limiter.ts:51-52 | the next check of the key d milliseconds after a denial is allowed exactly if d is at least the reported wait |
| `RateLimiter.ServerRetryAfterIsExact` | packages/server/src/services/rate-limiter.ts:53-58 | in a trace of all clients, a client denied ever since a reported wait gets through exactly from the end of that wait on |
| `RateAllowance.AllowedIff` | packages/server/src/services/rate-limiter.ts:36-60 | for a new key, under any mix of limits and at any times: a check is allowed exactly if, from each earlier check on, the checks allowed since and this one are within that check's burst and what was refilled since |
| `RateAllowance.ServerAllowsIff` | packages/server/src/services/rate-limiter.ts:36-60 | the same for a client with a single limit in a trace of all clients, with the refill as seconds times rate |
| `RateAllowance.BurstAllowsWholeTokens` | packages/server/src/middleware/rate-limit.ts:23-45 | a burst at one time gets exactly as many checks through as there are whole tokens, the first ones |
| `Curl.CollectParts` | packages/core/src/codegen/index.ts:174-180 | the pushed parts are the command name and the arguments of the request in order |
| `Curl.FoldParts` | packages/core/src/codegen/index.ts:181-184 | the fold puts every argument after the first on a continued line of its own |
| `Curl.GenerateCurl` | packages/core/src/codegen/index.ts:170-185 | the text printed for a request that is not multipart: command name, method, address, the headers with a name that are switched on, and a body that is not blank, each after the first on a continued line |
| `Curl.ShellQuoteJoins` | packages/core/src/codegen/index.ts:751-753 | a quoted argument stands between single quotes, with each single quote in it closed, escaped and opened again |
| `Curl.WalkTokens` | packages/core/src/import-export/curl.ts:37-68 | the index loop, which takes a second token for options with a value, is the recursive walk over the tokens |
| `Curl.ParseCurl` | packages/core/src/import-export/curl.ts:31-78 | only a command starting with curl in any case is parsed, and a first bearer header moves into the authentication |
| `Curl.UserSplits` | packages/core/src/import-export/curl.ts:55-62 | a colon-free user name and any password come apart at the first colon |
| `Curl.ValueFlagsTakeTheirValue` | packages/core/src/import-export/curl.ts:63-64 | an ignored option with a value takes the next token with it, whatever that looks like |
| `CurlOptions.MethodOption` | packages/core/src/import-export/curl.ts:39-40 | each spelling of the method option sets the method in upper case, or none without a value |
| `CurlOptions.HeaderOption` | packages/core/src/import-export/curl.ts:41-50 | each spelling of the header option adds an enabled header, split at the first colon and trimmed |
| `CurlOptions.HeaderWithoutColon` | packages/core/src/import-export/curl.ts:42-44 | a header without a colon is dropped |
| `CurlOptions.DataOption` | packages/core/src/import-export/curl.ts:51-54 | each of the four spellings of the data option sets a raw body and turns a GET, and no other method, into a POST |
| `CurlOptions.UserOption` | packages/core/src/import-export/curl.ts:55-62 | each spelling of the user option sets basic authentication, split at the first colon |
| `CurlOptions.UserWithoutColon` | packages/core/src/import-export/curl.ts:58-60 | credentials without a colon are a name with an empty password |
| `CurlOptions.PassedOverOption` | packages/core/src/import-export/curl.ts:5-29 | each of the options with a value that means nothing here takes its value with it |
| `CurlOptions.OtherToken` | packages/core/src/import-export/curl.ts:65-67 | any other token with a dash is ignored alone, and one without is the address |
| `CurlOptions.BearerIsTaken` | packages/core/src/import-export/curl.ts:69-76 | a first authorization header with a bearer token leaves the headers, and the token becomes the authentication |
| `CurlOptions.OtherwiseUntaken` | packages/core/src/import-export/curl.ts:69-76 | nothing changes unless the first authorization header is a bearer token |
| `CurlOptions.WrittenTokens` | packages/core/src/import-export/curl.ts:32-34 | a command of bare words, single-quoted strings and double-quoted strings with escaped double quotes is read as exactly their values |
| `CurlRoundTrip.CommandMatches` | packages/core/src/import-export/curl.ts:32-34 | the token pattern splits the printed lines back into exactly the printed arguments |
| `CurlRoundTrip.PrintedTokens` | packages/core/src/import-export/curl.ts:32-34 | the tokens of a printed command are its unquoted arguments |
| `CurlRoundTrip.PrintedCommandParses` | packages/core/src/import-export/curl.ts:31-78 | what the command of a request with plain strings is parsed to, for every such request |
| `CurlRoundTrip.RoundTripsIff` | packages/core/src/codegen/index.ts:170-185 | for every request with plain strings: parsing the printed command gives back method, address, enabled headers and body exactly if the address does not start with a dash, the method is upper case and not GET with a body, header keys are colon-free and trimmed, values are trimmed, and the first authorization header is not a bearer token |
| `CurlRoundTrip.DashedAddressIsLost` | packages/core/src/import-export/curl.ts:65-67 | no command whatsoever is parsed to an address that starts with a dash |
| `CurlRoundTrip.NoBackslashIsPlain` | packages/core/src/import-export/curl.ts:34-34 | every string without single quotes and backslashes is plain |
| `CurlBody.BodyComesBackIff` | packages/core/src/import-export/curl.ts:51-54 | for every request with a body and a plain head: the body comes back exactly if it has no single quote, no backslash before a line break, and either its backslashes pair up and escape no double quote, or they do not pair up and it is one word |
| `CurlBody.EscapedQuoteIsLost` | packages/core/src/import-export/curl.ts:80-89 | the backslash of an escaped double quote is lost on the way back |
| `CurlBody.SingleQuoteIsLost` | packages/core/src/codegen/index.ts:751-753 | a body with a single quote never comes back: the shell's spelling of the quote is not read back |
| `CurlQuotes.QuoteIsLost` | packages/core/src/import-export/curl.ts:80-89 | whatever tokens a quoted body with a single quote is split into, none of them is the body |
| `CurlQuotes.InsideJoins` | packages/core/src/import-export/curl.ts:33-33 | line continuations are joined inside the printed quotes as they are in the body |
| `Template.Resolver.ResolveOne` | packages/core/src/variables/index.ts:33-45 | the recursive replacement with its shared set computes the bounded expansion and adds exactly the names missing in it |
| `Template.Resolver.ResolvePieces` | packages/core/src/variables/index.ts:35-44 | one pass over the placeholders of a text |
| `Template.ResolveTemplate` | packages/core/src/variables/index.ts:31-47 | the whole resolver: bounded expansion and set of unresolved names |
| `Template.PlaceholderIsFound` | packages/core/src/variables/index.ts:35-35 | the scanner finds a reference exactly where there are two braces, a non-empty text without a closing brace, and two braces |
| `Template.ReferenceIsReplaced` | packages/core/src/variables/index.ts:35-44 | a reference with any white space around its name becomes what a dollar name produces, the expanded value of a variable, or itself without the white space, followed by the expansion of the rest |
| `Template.ReferenceIsReported` | packages/core/src/variables/index.ts:38-42 | a reference is reported exactly if it has no dollar sign and no value, and so is what its value refers to while lookups are left |
| `Template.OtherCharacterStays` | packages/core/src/variables/index.ts:35-35 | a character that no reference starts at stays and is not reported |
| `Template.UnresolvedIsReachable` | packages/core/src/variables/index.ts:38-42 | the reported names are exactly the undefined names without a dollar sign within reach of at most eight lookups |
| `Template.BoundDoesNotShow` | packages/core/src/variables/index.ts:34-34 | for every set of variables: if nine lookups always end at a text without references, the result is the one unbounded expansion, and no larger bound changes the text or the reported names |
| `Template.SelfReferenceGoesUnreported` | packages/core/src/variables/index.ts:34-43 | a variable that only mentions itself comes out as written and is not reported |
| `EnvText.ParseEnvText` | packages/core/src/variables/index.ts:335-353 | the loop with its continues collects, line by line, what each line alone says |
| `EnvLines.LineIsRead` | packages/core/src/variables/index.ts:338-350 | a key, an equals sign and a value, with any white space around them and with or without an export before them, are read as one enabled variable |
| `EnvLines.CommentIsPassedOver` | packages/core/src/variables/index.ts:338-339 | blank lines and comments are passed over |
| `EnvLines.NothingWithoutAKey` | packages/core/src/variables/index.ts:343-344 | an assignment to no key is passed over |
| `EnvLines.ExportedArePrinted` | packages/core/src/variables/index.ts:356-358 | exactly the enabled variables with a key are printed, the sensitive ones only where that is asked for |
| `EnvText.ParsedValue` | packages/core/src/variables/index.ts:363-381 | what every value is read back as after printing |
| `EnvText.ValueRoundTripsIff` | packages/core/src/variables/index.ts:363-381 | a value is read back as itself exactly if it was written bare, or has no other control character and no backslash directly before n or r |
| `EnvText.FourPassesAreOneIff` | packages/core/src/variables/index.ts:367-371 | the four replacements agree with decoding in one pass exactly if no backslash stands directly before n or r |
| `EnvText.BackslashLetterIsGarbled` | packages/core/src/variables/index.ts:368-368 | a backslash followed by the letter n comes back as a backslash and a line feed |
| `EnvKeys.ExportedTextReadsBackIff` | packages/core/src/variables/index.ts:355-361 | for every list of variables: the keys of a printed file come back one for one exactly if every key is readable, that is, has no equals sign, line break, leading hash or export prefix; and exactly then every variable comes back with what the quoting leaves of its value |
| `EnvKeys.EnvTextRoundTripsIff` | packages/core/src/variables/index.ts:335-361 | for every list of variables: the file keeps the enabled key and value list exactly if every key in it is readable and every value was bare or survives quoting |
| `MockOverlap.MatchPath` | packages/server/src/services/mock-match.ts:108-127 | a path matches exactly if the segments pair up, parameters matching anything; the parameters of a match are the last of each name |
| `MockOverlap.ParametersAreLast` | packages/server/src/services/mock-match.ts:113-121 | the parameters are exactly those the pattern names, each decoded from the last segment of its name |
| `MockPaths.PathMatchesIff` | packages/server/src/services/mock-match.ts:108-127 | for paths written from segments, with any slashes at their ends: a pattern matches exactly if there are as many segments and each of its own is a parameter or the same in any letter case |
| `MockPaths.SlashesGo` | packages/server/src/services/mock-match.ts:125-127 | slashes at both ends go, and nothing else |
| `MockOverlap.FindMockRouteMatch` | packages/server/src/services/mock-match.ts:4-28 | the route returned is the first that matches, and none is returned only if none matches |
| `MockOverlap.FindOverlaps` | packages/core/src/mock/validation.ts:148-159 | the warnings are exactly the pairs of an enabled route and the first enabled route with its key, in order |
| `MockOverlapSoundness.SameKeyIff` | packages/core/src/mock/validation.ts:149-149 | clean routes have the same key exactly if method, path shape and conditions up to order are the same |
| `MockOverlapSoundness.SameShapesMatchTheSame` | packages/core/src/mock/validation.ts:541-547 | patterns of the same shape match the same paths |
| `MockOverlapSoundness.SignatureIsUnordered` | packages/core/src/mock/validation.ts:531-539 | the condition signature forgets the order of the conditions and nothing else |
| `MockCoverage.NeverPickedIff` | packages/server/src/services/mock-match.ts:4-28 | an enabled route answers no request whatsoever exactly if an earlier enabled route of its method covers it: every segment a parameter or an equal literal, every condition one of its own |
| `MockCoverage.CoversIff` | packages/server/src/services/mock-match.ts:108-127 | a route answers whatever another enabled one answers exactly if it covers it |
| `MockOverlapSoundness.OverlapIsRightIff` | packages/core/src/mock/validation.ts:150-155 | which warnings are right: a reported route answers nothing exactly if an earlier route covers it, and the route named answers in its place exactly if that one does |
| `MockOverlapSoundness.SpaceFreeOverlapCoversIff` | packages/core/src/mock/validation.ts:531-547 | without spaces in methods and patterns the route named covers the reported one exactly if all its conditions are conditions of that one |
| `MockOverlapSoundness.OverlappedIsNeverPicked` | packages/core/src/mock/validation.ts:150-155 | so a reported route answers no request whatsoever when no field of the two routes holds a separator of the key |
| `MockOverlapSoundness.ColonMakesAFalseWarning` | packages/core/src/mock/validation.ts:531-539 | an input where the warning is wrong: two different conditions that print alike |
| `MockOverlapSoundness.ConditionsThatPrintAlike` | packages/core/src/mock/validation.ts:535-535 | such conditions exist for every source and matcher |
| `StringOrder.SortForgetsOrder` | packages/core/src/mock/validation.ts:537-537 | sorting gives the same list exactly for the same elements |
| `GrpcReplay.Recorder.Start` | packages/server/src/services/mock-grpc-recorder.ts:86-99 | starting drops what was being recorded and begins an empty fixture |
| `GrpcReplay.Recorder.Stop` | packages/server/src/services/mock-grpc-recorder.ts:101-110 | stopping hands out the active fixture and keeps it if it has entries |
| `GrpcReplay.Recorder.RecordEntry` | packages/server/src/services/mock-grpc-recorder.ts:197-210 | an entry is appended to the active fixture while recording and ignored otherwise |
| `GrpcReplay.Recorder.DeleteFixture` | packages/server/src/services/mock-grpc-recorder.ts:146-157 | the first fixture with the id is removed; an unknown id changes nothing |
| `GrpcReplay.Recorder.ReplayFixture` | packages/server/src/services/mock-grpc-recorder.ts:159-195 | the insertion-ordered map gives one route per method in order of first call, with the method's responses in order |
| `GrpcReplay.SessionIsKept` | packages/server/src/services/mock-grpc-recorder.ts:86-110 | a session keeps exactly the entries recorded between its start and stop, whatever was active before |
| `GrpcReplay.RecordedInOrder` | packages/server/src/services/mock-grpc-recorder.ts:197-210 | recorded entries are kept in order |
| `GrpcMockStore.MockGrpcStore.ReplaceRoutes` | packages/server/src/services/mock-grpc-store.ts:83-93 | new routes reset every method's position and keep the log |
| `GrpcMockStore.MockGrpcStore.Decide` | packages/server/src/services/mock-grpc-store.ts:100-161 | the first atomic region of a call: an unmatched method is answered with code 12, a route without responses is a defect, and otherwise only the method's own position moves |
| `GrpcMockStore.MockGrpcStore.AppendLog` | packages/server/src/services/mock-grpc-store.ts:167-170 | the second region appends to the log and trims it |
| `GrpcMockStore.PositionCountsCalls` | packages/server/src/services/mock-grpc-store.ts:133-159 | a method's position is the count of its own calls, under any interleaving |
| `GrpcMockStore.ResponsesComeInTurn` | packages/server/src/services/mock-grpc-store.ts:133-134 | a call is answered with the response whose number is the count of earlier calls of the method modulo the number of responses |
| `GrpcMockStore.ReplayComesInTurn` | packages/server/src/services/mock-grpc-recorder.ts:176-193 | the k-th call of a recorded method returns its recorded response k modulo their number |
| `GrpcMockStore.ReplayReproducesRecording` | packages/server/src/services/mock-grpc-recorder.ts:176-193 | calling in the recorded order, over and over and with log updates in between, returns what was recorded |
| `GrpcMockStore.RecordingIsReproduced` | packages/server/src/services/mock-grpc-recorder.ts:159-195 | from recording to replay: a session's fixture, loaded as routes, returns the session's outcomes |
| `GrpcMockStore.LogKeepsTheLast` | packages/server/src/services/mock-grpc-store.ts:185-188 | the log holds the last thousand entries since it was cleared, in order |
| `FolderTree.CollectFolderIds` | packages/core/src/storage/helpers.ts:16-29 | the fixpoint loop ends and returns the root and exactly its descendants, each once, for any parent relation, cyclic ones included |
| `FolderTree.AddChildren` | packages/core/src/storage/helpers.ts:21-26 | a pass that changes nothing has found every child of the ids |
| `DependencyFetch.ReflectionClient.Fetch` | executor/internal/executor/grpc.go:515-539 | after a request every name stands for the server's file or for none, and new names are reachable from the one asked for |
| `DependencyFetch.ReflectionClient.CollectMissing` | executor/internal/executor/grpc.go:503-510 | the missing names are exactly the unknown imports of known files |
| `DependencyFetch.ReflectionClient.FetchMissingDeps` | executor/internal/executor/grpc.go:501-542 | against a consistent server the fetch ends, also on cyclic imports, and without an error the known names are exactly those reachable from the seeds |
| `Graphs.ClosureIsReachability` | executor/internal/executor/grpc.go:501-542 | a closed set of reachable names is the set of reachable names |
| `Slugs.SlugJoinsRuns` | packages/core/src/lib/format.ts:12-19 | a slug is the maximal runs of letters and digits of the lower-cased value joined by single dashes, or request when there are none |
| `Slugs.WordsMakeTheSlug` | packages/core/src/lib/format.ts:12-19 | a text laid out as words of letters and digits with anything else between them has those words in lower case as its slug |
| `Slugs.SlugIsStable` | packages/core/src/lib/format.ts:12-19 | a slug is its own slug |
| `Slugs.UniqueSlug` | packages/core/src/import-export/invoke-yaml.ts:459-469 | the search ends with the base if nobody uses it and else with the base and the least number from 2 on that nobody uses, and marks it used |
| `Slugs.FirstFreeIsFresh` | packages/core/src/import-export/invoke-yaml.ts:461-466 | the first free name is a slug nobody uses, and every name tried before it was used |
| `FolderForest.OwnParentNeverEnds` | packages/core/src/import-export/invoke-yaml.ts:445-449 | from a folder that is its own parent no number of turns leads out of the loop |
| `FolderForest.EndsIffWithinSize` | packages/core/src/import-export/invoke-yaml.ts:445-449 | the loop up the parents ends exactly if it has ended after as many turns as there are folders, and exactly if no folder comes twice |
| `FolderForest.AcyclicIffRanked` | packages/core/src/import-export/invoke-yaml.ts:445-449 | the loop ends from every folder exactly if parents can be ranked below their children |
| `ExportSlugs.AssignSlugs` | packages/core/src/import-export/invoke-yaml.ts:420-433 | in every sorted group of siblings each folder takes the first name of its own that the folders before it left |
| `ExportSlugs.SlugInGroup` | packages/core/src/import-export/invoke-yaml.ts:428-433 | a folder has the slug of its name if no sibling sorted before it has that, and else that with the least number from 2 on that none of them has |
| `ExportSlugs.AssignedAreApart` | packages/core/src/import-export/invoke-yaml.ts:428-433 | siblings get different slugs, in whatever order they are sorted |
| `ExportSlugs.AssignedIsUnique` | packages/core/src/import-export/invoke-yaml.ts:428-433 | the slugs are settled by the names of the folders and the order of their siblings |
| `ExportPaths.FolderExportPath` | packages/core/src/import-export/invoke-yaml.ts:439-451 | for every forest and every number of turns: the loop up the parents is over by then exactly if the way up is, and the path is the slugs from the top down to the folder |
| `ExportPaths.PathBelowParent` | packages/core/src/import-export/invoke-yaml.ts:439-451 | the path of a folder is the path of its parent, a slash and its own slug, or its slug alone without a known parent |
| `ExportPaths.TurnsSuffice` | packages/core/src/import-export/invoke-yaml.ts:445-449 | with as many turns as there are folders the loop has a path exactly if it ends at all |
| `ExportPaths.PathsDifferIff` | packages/core/src/import-export/invoke-yaml.ts:420-451 | where the loops end, different folders get different paths exactly if the folders at the top, those without a known parent, have different slugs |
| `ExportPaths.ExportFolderPaths` | packages/core/src/import-export/invoke-yaml.ts:420-437 | for every forest: there are paths exactly if all loops end, with enough turns exactly if the forest has no cycle; no two are the same exactly if the folders at the top have different slugs, which they have when every parent named is there |
| `ExportPaths.DanglingParentCollides` | packages/core/src/import-export/invoke-yaml.ts:425-425 | two folders of one name, one at the top and one with a missing parent, get the same path from the slugs the export assigns |
| `ExportFiles.UniqueRequestFileName` | packages/core/src/import-export/invoke-yaml.ts:453-457 | the file is named after the request, with the first name that is new within its path, and is remembered there |
| `ExportFiles.PlaceRequests` | packages/core/src/import-export/invoke-yaml.ts:51-59 | each request goes to the path of its folder under the first name of its own that the requests before it left there, and no two get the same path and file name |
| `ExportFiles.ExportCollection` | packages/core/src/import-export/invoke-yaml.ts:31-59 | the whole naming of an export, for every forest: it gets done exactly if all loops end, with folder paths that are distinct exactly if the top slugs are, and every request under the path of its folder with a file name of its own |

## Left out

- Hooks, timestamps, durations and delays of flow results: they do not influence which steps run.
- Flow numbers that are NaN or infinite: counts, caps and delays are reals.
- FlowValidation.FlowValidator.ValidateFlow: the leaf checks (request, assertion, extraction and condition rules) are one
  parameter that returns issues, those of a condition in one block; the texts and paths of issues are not modelled, and the checks that steps are arrays and of a known type are met by every modelled flow.
- MockCoverage.NeverPickedIff: a request may satisfy any set of conditions, so a route whose conditions contradict each other counts as one that can be picked.
- Condition evaluation, assertions and JSONPath, regular-expression matchers and schema checks: uninterpreted functions.
- UTF-16 code units: a string is a sequence of characters. Case mapping covers the ASCII letters.
- Byte splitting of `TextDecoder` and `JSON.parse` of event data: chunks are text and parsing is a parameter. `GrpcDelivery` asks that parsing undoes the printing of an event and keeps its `done` field.
- SseStreams.HandleSseEvent: the decoding of the data (`JSON.parse`, base64, the `chunk` field) is a parameter, which for a final response can fail; errors thrown by the handlers themselves are left out.
- The effects of cancelling a stream context or closing a connection on the reader: its end is an event that may come at any time.
- `totalBytes` of a WebSocket connection: it is updated as in the source, but nothing is claimed about its value.
- ResponseDiff.CompareResponses: the timing delta and the pretty texts are left out.
- Negative zero and numbers that print as `null` in `isEqual`: JSON numbers are reals.
- Rounding of the token bucket: tokens and rates are exact reals.
- Template.ResolveTemplate: dynamic names produce the same text for the same name, because the random source is one function of the name, and the unresolved names are a set, so their order is not modelled.
- The GraphQL multipart form of the cURL printer, and the other code generators.
- CurlRoundTrip.RoundTripsIff: for method, address and headers outside the plain strings only the printed text and the parser are modelled, because a broken token changes how all later tokens are read.
- CurlBody.BodyComesBackIff: asks for a plain method, address and headers, for the same reason.
- The other checks of `validateMockRoutes`, path parameter decoding and response rendering.
- Ids and times of recorded fixtures and logs; latency of mock replies is a number in the reply only.
- DependencyFetch.ReflectionClient.FetchMissingDeps: transport and parse errors are one failure of the server; the error texts are not modelled.
- The v1alpha variant of the dependency fetch, which is the same loop over another client type.
- ExportPaths.FolderExportPath: the source's loop has no limit; here it is given up after a number of turns, and the results hold for every number.
- ExportPaths.ExportFolderPaths: asks for distinct ids, as the store gives them out.
- The reserved export names: a request whose slug is `folder` or `collection` shares a file name with the folder or collection document.
- Prototype-named keys of JavaScript objects: objects are finite maps.
- Network, TLS, proxy, storage and UI code, the transport cache, redaction and request signing.
