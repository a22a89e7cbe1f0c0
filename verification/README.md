# Verification of the my_socket reactor runtime and of two cpplint algorithms

A Dafny 4.11 model of the event-driven server library in `my_socket/src` and of the bracket
matching and preprocessor handling in `my_socket/build_support/cpplint.py`, with proofs.
`dafny verify dfyconfig.toml` checks everything.

How the parts are modelled:

- **Threads.** Where several threads meet (`Teardown`, `Handoff`, `Logging`, `Pool`), one action is
  one atomic access to shared state, and the theorems quantify over every list of actions, hence
  over every interleaving. The kernel (open descriptors, epoll interest, eventfd counter, what a
  `write` accepts) is part of the state or chosen freely by an action.
- **Objects.** Where the source's object is driven by one thread, it is a class whose loops and
  methods are proved against specification functions (`ByteBuffer`, `Channels`, `SendPath`,
  `HttpContexts`, `HttpResponses`, `NestingStates`, `TimeQueues`, `AsyncLoggings`, and `EventLoop`
  and `ThreadPool` for their critical sections), and the theorems are about those functions.
- **Errors.** `Errif` ends the process; here the operation reports an abort or the run halts.

| file | subject |
|---|---|
| `Options.dfy` | a value or none |
| `Teardown.dfy`, `TeardownResults.dfy`, `TeardownProgress.dfy` | connection teardown across event loops and descriptor reuse |
| `Handoff.dfy` | task hand-off to a loop and its wakeup |
| `Buffer.dfy`, `Channel.dfy`, `SendPath.dfy` | byte buffer, epoll interest, sending |
| `Traces.dfy`, `HttpMachine.dfy`, `HttpContext.dfy` | request parsing, one turn and the whole loop |
| `HttpRoundTrip.dfy`, `HttpAnyValues.dfy`, `HttpLanguage.dfy` | what is parsed and what is refused |
| `HttpResponse.dfy` | response printing and framing (section 6.3 of RFC 9112) |
| `Brackets.dfy`, `Expressions.dfy`, `ReverseExpressions.dfy`, `Templates.dfy` | bracket and angle matching in cpplint |
| `Nesting.dfy`, `NestingState.dfy` | nesting stack across `#if`/`#else`/`#endif` in cpplint |
| `Timing.dfy`, `TimingResults.dfy`, `TimeQueue.dfy` | timer queue |
| `Logging.dfy`, `AsyncLogging.dfy` | double-buffered log |
| `ThreadPool.dfy` | worker pool |

Where the code does less than its evident intent, the code is kept, a theorem gives the exact
condition under which the intent is met, and a lemma gives a failing run from the initial state:

- `Buffer::EnsureWritableBytes` leaves the write index unmoved when it compacts: exactly
  `ByteBuffer.RunRefinesQueue` and `SendPath.SendsAreConserved`, failing in
  `ByteBuffer.CompactionOverruns` and `SendPath.ThreeEventsOverrun`. A flag selects the code as
  written or the repair; each theorem says which.
- `HttpContext::ParaseRequest` bounds its loop from the moving `start`: exactly
  `HttpMachine.EveryInput` and `HttpRoundTrip.RoundTrip`, failing in
  `HttpMachine.CutOffRequestOverreads` and `HttpRoundTrip.MissingBodyDiverges`.
- Its empty field values take in the next line: exactly `HttpAnyValues.RoundTripAnyValues` and
  `HttpAnyValues.RoundTripDistinctNames`, failing in `HttpAnyValues.EmptyHostIsLost`.
- Version 1.0 ends as invalid: exactly `HttpMachine.VersionIsNamedIff`, failing in
  `HttpRoundTrip.OldVersionIsLost`.
- `TimeQueue::HandleTimers` erases timers that callbacks insert before the cut's end: exactly
  `TimingResults.NothingIsLostIff`, failing in `TimingResults.RescheduledTimerIsLost`;
  `HttpServer::OverTime` re-arms itself from such a callback.
- Setting the timer descriptor between poll and read makes the read fail, unless the time it was
  set for has come by then: exactly `TimingResults.StaysReadableIff`, failing in
  `TimingResults.ReportedExpiryIsTakenBack`.
- `Channel::DisableWriting` on the last event strands the channel: exactly `Channels.KeepsInSync`,
  failing in `Channels.WriteOnlyChannelIsStuck`.
- A second removal request aborts: exactly `TeardownResults.OneRequestNeverAborts` with
  `TeardownResults.CleanRunsRequestOnce`, failing in `TeardownResults.TwoRequestsAbort` and
  `TeardownResults.TwoSubLoopRequestsAbort`.
- `FindEndOfExpressionInLine` tests for `operator>` one character too early: exactly
  `Templates.CloseIsTemplate` with its `Sign`, failing in `Templates.OperatorGreaterCloses`.
- A line that exactly fills a log buffer aborts: exactly `Logging.AppendAbortsIff`, failing in
  `Logging.ExactFitAborts`.
- What is appended after the last exchange is never written: exactly `Logging.LostAfterReturn`,
  failing in `Logging.LastLineIsLost`.

## Model

| member | source | states |
|---|---|---|
| TeardownResults.TeardownSafety | my_socket/src/Server.cpp:45-72 | In every interleaving of any number of loops, with any free descriptor handed out by the kernel: each map entry is a live connection owning that open descriptor; live connections have distinct descriptors; a registered connection is alive and still owned; `NewConnection` never overwrites an entry; a queued removal, even a second one for the same connection, can only erase its own entry, and so can a removal carried out at once on the main loop; no epoll call fails and no dead channel is used. |
| TeardownResults.DispatchSafety | my_socket/src/EventLoop.cpp:40-49 | Every channel pointer left in a polled batch is alive, open and registered with the loop that polled it until its handler runs; that every handler does run is `TeardownProgress.EveryEventIsHandled`. |
| TeardownProgress.EveryEventIsHandled | my_socket/src/EventLoop.cpp:40-49 | In every interleaving, for each loop, the events handled so far followed by the batch left are exactly the events polled, in order. |
| TeardownProgress.RoundsFollowHandling | my_socket/src/EventLoop.cpp:40-49 | So a loop swaps out its functors, runs one, or polls again only when every polled event has been handled. |
| TeardownProgress.HandlerHolds | my_socket/src/Channel.cpp:87-94 | While a ready event's handler or a timer callback that has locked the connection runs, it holds the connection and may ask for its removal. |
| TeardownProgress.EveryFunctorIsRun | my_socket/src/EventLoop.cpp:26-66 | In every interleaving the functors each loop has run, then those left in the swapped-out vector and the queue, are exactly those that removal requests and removals queued for it, in order. |
| TeardownProgress.EveryRoundEnds | my_socket/src/EventLoop.cpp:40-49 | From every reachable state in which no removal was requested twice, each loop comes back to `Poll` by its own steps alone, with every event it had polled handled. |
| TeardownResults.ClosedAfterLeavingEpoll | my_socket/src/Socket.cpp:28-33 | Whatever one step does, a connection registered before it is alive with its descriptor open after it: leaving epoll and closing never fall together. |
| TeardownResults.FailsIff | my_socket/src/Poller.cpp:43-68 | In any state: adding fails if and only if epoll has the descriptor, deleting if and only if it has not; the lookup fails if and only if the map has no entry, the removal from epoll if and only if the channel has left it, and a polled channel is used after its end if and only if its connection is gone. |
| TeardownResults.LastReferenceIff | my_socket/src/Socket.cpp:28-33 | A step kills exactly the connections that nothing holds any more, closes exactly their descriptors, and the kernel keeps exactly the registrations of open descriptors. |
| TeardownResults.ExecInv | my_socket/src/Server.cpp:45-72 | The invariant behind these results holds after every list of actions. |
| TeardownResults.OneRequestNeverAborts | my_socket/src/Channel.cpp:32-41 | If no connection's removal is requested twice, neither the failed map lookup nor the failed removal from epoll is reachable. |
| TeardownResults.CleanRunsRequestOnce | my_socket/src/Server.cpp:59-72 | Conversely, a run that executed all queued functors without aborting requested each removal at most once, and exactly the requested connections have left epoll and the map. |
| TeardownResults.SecondRequestAborts | my_socket/src/Connection.cpp:168-173 | From every state of the invariant, a second removal request right after the first on the main loop aborts in the map lookup. |
| TeardownResults.TwoRequestsAbort | my_socket/src/Server.cpp:59-64 | A run from the start of a server with one sub-loop in which a second request for one connection, made on the main loop, fails the map lookup. |
| TeardownResults.TwoSubLoopRequestsAbort | my_socket/src/Connection.cpp:168-186 | A run from the start of the same server in which both requests for a connection of the sub-loop pass the map lookup, and the second destruction aborts because the channel has already left epoll. |
| TeardownResults.CountsRequests | my_socket/src/Connection.cpp:51-53 | The request counter kept per connection is the number of removals actually requested in the run. |
| TeardownResults.RequestedIsClosed | my_socket/src/Connection.cpp:41-45 | A requested connection is dead once every loop is back in `Poll` with nothing queued, and its descriptor is closed unless the kernel has given it to another live connection. |
| TeardownResults.OpenIsOwned | my_socket/src/Socket.cpp:28-33 | No descriptor leaks: each open one belongs to a live connection. |
| TeardownResults.AliveIsHeld | my_socket/src/Server.cpp:45-57 | A connection object lives only while the map, a functor or a stack still holds it. |
| Handoff.ExactlyOnceInOrder | my_socket/src/EventLoop.cpp:26-66 | In every interleaving, functors already run, then the rest of the swapped-out vector, then the queue, are exactly the functors pushed, in order, whoever pushed them. |
| Handoff.WakeupNeverLost | my_socket/src/EventLoop.cpp:40-82 | While the loop is about to poll with functors queued, the eventfd is readable or the producer inside the critical section still owes its write; `HandleRead` always finds a positive counter. |
| Handoff.NoFunctorUnderLock | my_socket/src/EventLoop.cpp:26-38 | No functor starts while its thread holds the mutex. |
| Handoff.HistoryIsHanded | my_socket/src/EventLoop.cpp:55-66 | Every functor handed to `QueueOneFunc` is pushed, once, in the order in which the threads got the mutex. |
| Handoff.OneWriteEach | my_socket/src/EventLoop.cpp:55-66 | Each push from another thread, or from inside a round of functors, is followed by exactly one eventfd write, and no other push by any. |
| Handoff.CounterIsUnread | my_socket/src/EventLoop.cpp:76-82 | The eventfd counter is the number of writes since the loop last read it: one read clears every wakeup. |
| Handoff.ReadFailsIff | my_socket/src/EventLoop.cpp:76-82 | Reading the eventfd fails if and only if nothing was written. |
| Handoff.OneAtATime | my_socket/src/EventLoop.cpp:26-38 | Functors run one at a time, and those recorded as run are those that were started. |
| Handoff.AnyoneMayQueue | my_socket/src/EventLoop.cpp:55-66 | With the mutex free, any thread outside `QueueOneFunc` may queue; the loop's own thread while it handles events or is inside a functor. |
| Handoff.LoopDrainsAlone | my_socket/src/EventLoop.cpp:40-49 | From every reachable state in which no producer is inside `QueueOneFunc`, the loop thread alone, woken only by the eventfd, runs everything queued. |
| Handoff.ExecInv | my_socket/src/EventLoop.cpp:26-82 | The mutex, wakeup and order invariants hold after every list of actions. |
| Handoff.EventLoop.QueueOneFunc | my_socket/src/EventLoop.cpp:55-66 | Appends the functor and writes the eventfd exactly when called from another thread or from inside the functor round. |
| Handoff.EventLoop.RunOneFunc | my_socket/src/EventLoop.cpp:68-74 | Runs the functor now on the loop thread, ahead of the queue, with one eventfd write for each functor it queues if a functor round is on; otherwise queues it and wakes the loop. |
| Handoff.EventLoop.DoToDoList | my_socket/src/EventLoop.cpp:26-38 | Runs exactly the functors queued before the swap, in order; what they queue is left for the next round with one eventfd write each. |
| ByteBuffer.AppendEnqueues | my_socket/src/Buffer.cpp:10-30 | An append puts its bytes at the back of the readable ones if and only if it does not compact or the compaction is the repaired one; as written, the compacting append writes past the vector. |
| ByteBuffer.RetreiveDequeues | my_socket/src/Buffer.cpp:44-51 | Succeeds exactly when that many bytes are readable, and then drops them from the front. |
| ByteBuffer.RunRefinesQueue | my_socket/src/Buffer.cpp:10-55 | Repaired, every run of operations is a run of a byte queue; as written, a run is one if and only if no append in it takes the compaction branch. |
| ByteBuffer.WholeRetreivalsNeverCompact | my_socket/src/Buffer.cpp:52-55 | As written, a buffer that is only ever emptied whole, by either kind of retrieval, never compacts, keeps its read index at 8 and refines the queue. |
| ByteBuffer.CompactionOverruns | my_socket/src/Buffer.cpp:22-27 | Appending four bytes, taking two and appending one more overruns the vector as written. |
| ByteBuffer.CopyForward | my_socket/src/Buffer.cpp:24-24 | The overlapping forward copy moves the range and leaves the rest. |
| ByteBuffer.Buffer.EnsureWritableBytes | my_socket/src/Buffer.cpp:19-30 | In place, the growth and compaction of the specification, unrepaired. |
| ByteBuffer.Buffer.Append | my_socket/src/Buffer.cpp:10-15 | In place, the unrepaired append; reports the overrun exactly when the specification does. |
| ByteBuffer.Buffer.Retreive | my_socket/src/Buffer.cpp:44-51 | In place; aborts exactly when more is asked than is readable. |
| ByteBuffer.Buffer.RetreiveAllAsString | my_socket/src/Buffer.cpp:63-67 | Returns all readable bytes and empties the buffer. |
| Channels.KeepsInSync | my_socket/src/Channel.cpp:32-74 | A channel operation succeeds and leaves the flag and the kernel's mask equal to the translation of the listened events if and only if it is neither the disabling of the last event nor the removal of an unregistered channel; never the former while reading is enabled. |
| Channels.AbortsIff | my_socket/src/Channel.cpp:32-74 | In any state an operation aborts if and only if epoll is asked to add what it has, or to change or delete what it has not, or the removed channel is not registered. |
| Channels.ListensAsAsked | my_socket/src/Channel.cpp:32-74 | An operation that succeeds changes the listened events as its name says and registers what it leaves; a removal leaves the channel as new. |
| Channels.TranslatesEach | my_socket/src/Poller.cpp:43-63 | The mask asks for reading, writing and edge triggering if and only if the channel listens for each. |
| Channels.EmptiedChannelIsStuck | my_socket/src/Channel.cpp:62-69 | After disabling the last event every operation aborts, removal from epoll included. |
| Channels.WriteOnlyChannelIsStuck | my_socket/src/Channel.cpp:57-69 | A new channel enabled and then disabled for writing aborts on whatever comes next. |
| Channels.Channel.UpdateChannel | my_socket/src/Poller.cpp:43-63 | Adds or modifies the kernel entry with the translated mask; aborts exactly when flag and kernel disagree. |
| Channels.Channel.DeleteChannel | my_socket/src/Poller.cpp:65-68 | Deletes the kernel entry; aborts exactly when there is none. |
| Channels.Channel.DisableWriting | my_socket/src/Channel.cpp:62-69 | Deletes the entry on an empty mask, updates it otherwise. |
| Channels.Channel.RemoveInEpoll | my_socket/src/Channel.cpp:32-41 | Aborts on an unregistered channel; otherwise clears everything. |
| Channels.Channel.ReportReady | my_socket/src/Poller.cpp:28-38 | The ready bits after a poll are exactly those the kernel reported. |
| SendPath.SendsAreConserved | my_socket/src/Connection.cpp:125-147 | A run stays connected if and only if no write in it fails and no kept bytes make the unrepaired buffer compact: it ends closed exactly in the first case and in a buffer overrun exactly in the second. Until then, for any mix of sends, partial writes and full sockets: bytes the kernel accepted, then buffered bytes, are the concatenation of all sends; buffered bytes imply a write event asked of the kernel; kernel and channel agree. |
| SendPath.ThreeEventsOverrun | my_socket/src/Connection.cpp:125-147 | On a new connection, whatever the bytes: four are kept, two written, one more kept, and the output buffer overruns. |
| SendPath.SendConserves | my_socket/src/Connection.cpp:125-147 | One send moves all its bytes to the wire and the buffer, or closes having moved nothing if and only if nothing was pending and the kernel refused, or overruns exactly when the kept bytes compact the unrepaired buffer. |
| SendPath.SendReachesWire | my_socket/src/Connection.cpp:125-147 | What the kernel accepts of a send, and nothing else, goes to the wire. |
| SendPath.WriteConserves | my_socket/src/Connection.cpp:248-270 | One write event closes the connection if and only if bytes were pending and the kernel answered an error or took none, and leaves it connected otherwise, on a full socket too; it moves exactly what the kernel takes, and with nothing pending it ends the interest in write events. |
| SendPath.EpollFailsIff | my_socket/src/Connection.cpp:125-147 | In any state a step aborts in epoll if and only if it asks for a change of interest that the kernel refuses: of a channel out of step with it, or the deletion of an entry it does not have. |
| SendPath.Connection.Send | my_socket/src/Connection.cpp:125-147 | In place, over the buffer and channel objects, the send of the specification. |
| SendPath.Connection.WriteNonBlocking | my_socket/src/Connection.cpp:248-270 | In place, the write event of the specification. |
| HttpRoundTrip.RoundTrip | my_socket/src/HttpContext.cpp:10-223 | Every well-formed request text (five methods, any blanks the machine allows, any d.d version, any parameters and non-empty field values free of their delimiters) parses to the message it was printed from if and only if its version is not 1.0 and its body fits: at least as many bytes as a positive Content-Length says, any number without Content-Length, none if Content-Length is given and not positive. With fewer bytes than a positive Content-Length the loop never ends. |
| HttpRoundTrip.MissingBodyDiverges | my_socket/src/HttpContext.cpp:205-213 | A POST with Content-Length 5 and no body makes the loop run for ever. |
| HttpRoundTrip.OldVersionIsLost | my_socket/src/HttpRequest.cpp:43-52 | A complete HTTP/1.0 request is not parsed to what it means. |
| HttpAnyValues.RoundTripDistinctNames | my_socket/src/HttpContext.cpp:172-185 | With field values of any length and no name given twice, a request text parses to its message if and only if, besides, no field value is empty. |
| HttpAnyValues.RoundTripAnyValues | my_socket/src/HttpContext.cpp:172-185 | With any names: if and only if, besides, no empty last value takes in the blank line and the fields with the lines after empty values merged into them give the same header map. |
| HttpAnyValues.BlankLineTaken | my_socket/src/HttpContext.cpp:172-185 | When an empty value takes in the blank line, the request is never parsed to what it means, whatever its body. |
| HttpAnyValues.EmptyHostIsLost | my_socket/src/HttpContext.cpp:172-185 | An empty Host followed by another field swallows it, with any body. |
| HttpRoundTrip.ParseHead | my_socket/src/HttpContext.cpp:10-223 | Every byte of the head is consumed by exactly one turn, with start <= end throughout, and the fields read are the message's (of duplicate names the last). |
| HttpMachine.EveryInput | my_socket/src/HttpContext.cpp:10-223 | On every byte string the loop ends, or starts BODY over for ever, or runs past the terminator, and one pass over the text decides which; on no other does it read out of bounds, and the in-loop INVAILD case is never reached. |
| HttpLanguage.HeadIsGrammar | my_socket/src/HttpContext.cpp:10-223 | For every text and every length: after that many bytes the machine is in a given state of the head if and only if they are a beginning of that kind in a grammar of tokens. |
| HttpLanguage.StartIsAtToken | my_socket/src/HttpContext.cpp:10-223 | The start cursor, from which the loop measures its bound, is where the last token that moves it began. |
| HttpLanguage.RefusedIffMalformed | my_socket/src/HttpContext.cpp:10-223 | The machine ends as invalid if and only if the text has, after some beginning, an empty parameter key or value, a version part that is no digit, a carriage return without its line feed, a field line that starts with a blank, or anything but a colon after a field name's blanks; and it then parses to nothing. |
| HttpLanguage.EmptyKeyIsRefused | my_socket/src/HttpContext.cpp:51-59 | After any well-formed path and parameters: a blank or line end where a parameter key should start. |
| HttpLanguage.EmptyValueIsRefused | my_socket/src/HttpContext.cpp:67-75 | Likewise a blank or line end right after a parameter's equals sign. |
| HttpLanguage.NoMajorIsRefused | my_socket/src/HttpContext.cpp:103-110 | Likewise no digit after the slash. |
| HttpLanguage.NoMinorIsRefused | my_socket/src/HttpContext.cpp:122-130 | Likewise no digit after the version's dot. |
| HttpLanguage.NoLineFeedIsRefused | my_socket/src/HttpContext.cpp:131-138 | After any well-formed request line and field lines: a carriage return without a line feed. |
| HttpLanguage.FoldedLineIsRefused | my_socket/src/HttpContext.cpp:139-148 | Likewise a line that starts with a blank. |
| HttpLanguage.JunkBeforeColonIsRefused | my_socket/src/HttpContext.cpp:162-171 | Likewise anything but a colon after a field name and blanks. |
| HttpLanguage.PrintedByLines | my_socket/src/HttpContext.cpp:10-223 | The beginnings in these rows are those of printed well-formed requests: such a request is its lines, an empty line and its body. |
| HttpMachine.TerminatorStep | my_socket/src/HttpContext.cpp:14-18 | The terminator ends an unfinished request if and only if the state rejects it, or the start cursor is at most at one and does not move (in a state that starts a token: the text has at most one byte). |
| HttpMachine.CutOffRequestOverreads | my_socket/src/HttpContext.cpp:10-223 | "GET /" makes the loop read past the terminator. |
| HttpMachine.VersionIsNamedIff | my_socket/src/HttpRequest.cpp:43-52 | The version stored is the version the text names if and only if the text is not 1.0. |
| HttpMachine.MethodIsNamedIff | my_socket/src/HttpRequest.cpp:4-17 | A method text is taken for one of the five methods if and only if it is its name. |
| HttpMachine.AtoiReadsDigits | my_socket/src/HttpContext.cpp:189-189 | Digits are read in base ten, up to the first byte that is none. |
| HttpMachine.AtoiReadsSign | my_socket/src/HttpContext.cpp:189-189 | White space before a length is skipped and its sign honoured; what is no number counts zero. |
| HttpMachine.PassReaches | my_socket/src/HttpContext.cpp:10-223 | The first pass reads each byte once, in order, with the cursors in order: the loop's decreasing measure. |
| HttpMachine.BodyTurns | my_socket/src/HttpContext.cpp:203-213 | From BODY, one turn completes with the rest of the text as body when it is long enough; otherwise the loop diverges. |
| HttpContexts.HttpContext.ParaseRequest | my_socket/src/HttpContext.cpp:10-223 | The loop in place, from any state of the context: on every text on which it ends, it ends in the configuration the machine reaches, and returns true exactly for COMPLETE or BODY. |
| HttpContexts.HttpContext.Dispatch | my_socket/src/HttpContext.cpp:19-218 | One turn of the switch in place is one turn of the machine. |
| HttpContexts.HttpRequest.SetMethod | my_socket/src/HttpRequest.cpp:4-17 | The five methods and the invalid one. |
| HttpContexts.HttpRequest.SetVersion | my_socket/src/HttpRequest.cpp:43-52 | Only 1.1 survives: the second test overwrites what the first stored for 1.0. |
| HttpResponses.StreamReadsBack | my_socket/src/HttpResponse.cpp:16-41 | From any number of keep-alive responses back to back, with fields in any order, a reader that splits at the first empty line and takes the decimal Content-Length recovers exactly the bodies. |
| HttpResponses.PrintedReadsBack | my_socket/src/HttpResponse.cpp:16-41 | A printed response followed by anything is read back as its body if and only if it keeps the connection alive. |
| HttpResponses.PreBodyIsLines | my_socket/src/HttpResponse.cpp:16-39 | The printed head is the listed lines, each ended by CRLF, and an empty line. |
| HttpResponses.ToStringReads | my_socket/src/HttpResponse.cpp:18-28 | The decimal printing of a length reads back as that number. |
| HttpResponses.HttpResponse.GetPreBody | my_socket/src/HttpResponse.cpp:16-39 | In place, with a loop over the header map in some order listing each field once, the specified head. |
| HttpResponses.HttpResponse.GetResponse | my_socket/src/HttpResponse.cpp:41-41 | The head followed by the body. |
| Brackets.StackIsGrammar | my_socket/build_support/cpplint.py:1822-1863 | Reading a text against a stack of open brackets ends empty if and only if the text is a balanced word of the grammar. |
| Brackets.MirrorBalanced | my_socket/build_support/cpplint.py:1943-1978 | A text is balanced if and only if its mirror image is. |
| Brackets.FirstIsLast | my_socket/build_support/cpplint.py:1822-1978 | A text is balanced with no shorter balanced beginning if and only if it is balanced with no shorter balanced end. |
| Expressions.CloseIsFirstBalanced | my_socket/build_support/cpplint.py:1822-1863 | From an opening (, [ or {, over any number of lines, `CloseExpression` returns a position if and only if the text up to it is the first balanced one: what the scan takes `<`, `>`, `;`, arrows and operators for never matters, and it fails exactly when there is none. |
| Expressions.CloseMeets | my_socket/build_support/cpplint.py:1744-1817 | The same from the middle of a scan with any stack that has a bracket at its bottom. |
| Expressions.EndTurnsAtClosing | my_socket/build_support/cpplint.py:1776-1793 | At a closing bracket, one step of the scan does to the brackets of its stack what the recogniser does. |
| Expressions.EndTurnsElsewhere | my_socket/build_support/cpplint.py:1760-1815 | At any other character likewise, and the scan goes on. |
| Expressions.FindEndOfExpressionInLine | my_socket/build_support/cpplint.py:1744-1819 | The loop computes the specified scan of one line, with its three kinds of answer. |
| Expressions.FindStartOfExpressionInLine | my_socket/build_support/cpplint.py:1866-1940 | The backward loop likewise, with the characters it passes over in one go. |
| Expressions.CloseExpression | my_socket/build_support/cpplint.py:1822-1863 | The line loop computes the specified search, and returns the line it found. |
| Expressions.ReverseCloseExpression | my_socket/build_support/cpplint.py:1943-1978 | The backward line loop likewise. |
| ReverseExpressions.OpenIsLastBalanced | my_socket/build_support/cpplint.py:1943-1978 | From a closing bracket, `ReverseCloseExpression` returns a position if and only if the text from it is the last balanced one. |
| ReverseExpressions.CloseAndOpenAreInverse | my_socket/build_support/cpplint.py:1822-1978 | Going forward from (l, pos) reaches just past (m, e) if and only if going back from (m, e) reaches (l, pos). |
| Templates.CloseIsTemplate | my_socket/build_support/cpplint.py:1744-1863 | From a `<` that opens something, over any number of lines, `CloseExpression` returns a position if and only if no `<<` or `<=` starts there and the text up to it is template arguments in angles: text, bracketed text in which angles do not count, and arguments in angles, with no unmatched bracket or `;` outside brackets. An arrow's `>`, the angle of `operator<`, and a `>` one character after `operator` count as text; the second `<` of a shift takes back the first. |
| Templates.OpenIsTemplate | my_socket/build_support/cpplint.py:1866-1978 | From a `>` that closes something, `ReverseCloseExpression` returns a position if and only if the text from it is such arguments; an arrow, a spaced `>=`, `operator>` and a shift count as text. |
| Templates.SkipsIff | my_socket/build_support/cpplint.py:1888-1903 | The backward search passes over an angle if and only if it is that of an arrow, a spaced `>=`, `operator>` or a shift. |
| Templates.OnlyFromBrackets | my_socket/build_support/cpplint.py:1847-1978 | Neither search finds anything from a character that opens, or closes, nothing. |
| Templates.OperatorIff | my_socket/build_support/cpplint.py:1770-1770 | The test for a preceding `operator` holds if and only if the word, not preceded by a word character, and then nothing but white space end the text. |
| Templates.AnglesAreInverse | my_socket/build_support/cpplint.py:1744-1978 | In lines without shifts, arrows, spaced `>=` or the word `operator`, going forward from `<` and back from its `>` are inverse. |
| Templates.NestedIsFound | my_socket/build_support/cpplint.py:1744-1978 | In such lines, the first text from a `<` that is balanced in all four kinds of brackets is what both searches find. |
| Templates.StrayAngleFindsNext | my_socket/build_support/cpplint.py:1762-1775 | From a `<` that opens nothing `CloseExpression` goes on to the end of what next opens on the line, if only text and stray closing angles lie between. |
| Templates.OpenFromNothing | my_socket/build_support/cpplint.py:1888-1911 | A backward search with nothing open goes on to what is last closed before it on the line, over what it passes. |
| Templates.OperatorGreaterCloses | my_socket/build_support/cpplint.py:1794-1801 | In "a<operator>b>" the forward search takes the angle of `operator>` for the end, while the backward one passes over it. |
| ReverseExpressions.GetTextInside | my_socket/build_support/cpplint.py:4868-4921 | The loop finds where the expected closing brackets have all been met, or fails. |
| ReverseExpressions.InsideAgreesWithClose | my_socket/build_support/cpplint.py:4905-4921 | On one line it ends where `CloseExpression` ends, and fails when that fails. |
| Nesting.FirstBranchesDecide | my_socket/build_support/cpplint.py:2757-2811 | From any state, a text with well-nested conditionals of any depth, for any per-line effect, leaves the nesting stack that its first branches alone would leave and the stack of checkpoints as it was. |
| Nesting.KeptLinesDecide | my_socket/build_support/cpplint.py:2757-2811 | For every sequence of lines, well-nested or not: outside later branches the stack is the one the kept lines alone would build; inside one, that stack is what the pending `#endif`s bring back. |
| Nesting.ActiveLinesDecide | my_socket/build_support/cpplint.py:2757-2811 | For every sequence of lines, in every branch: the stack is the one built by the active lines alone, those left when each `#else` drops its conditional's lines before it and each `#endif` those from the first `#else` on; and each checkpoint holds the stacks before its `#if` and its first `#else`. |
| Nesting.LaterBranchStartsOver | my_socket/build_support/cpplint.py:2781-2797 | After `#if`, a first branch, any further branches, an `#else` and a well-nested text, the stack is what that text makes of the stack before the `#if` and the `#else` line's effect. |
| Nesting.BranchesAreSkipped | my_socket/build_support/cpplint.py:2781-2797 | No number of later branches changes what `#endif` will restore. |
| NestingStates.NestingState.UpdatePreprocessor | my_socket/build_support/cpplint.py:2757-2811 | On objects with deep copies: keeps current blocks and all saved blocks disjoint and does what the specification does on values, so a change to a block in a skipped branch reaches no kept block. |
| NestingStates.NestingState.Update | my_socket/build_support/cpplint.py:2814-2976 | One line, with any plan of pushes, pops and changes to the top block, on objects as on values. |
| NestingStates.EditsOfTop | my_socket/build_support/cpplint.py:2814-2976 | A pop takes back a push, a change replaces what was pushed, and an empty stack only changes by a push. |
| NestingStates.NestingState.UpdateAll | my_socket/build_support/cpplint.py:6084-6090 | A whole file, likewise. |
| NestingStates.DeepCopy | my_socket/build_support/cpplint.py:2779-2795 | New, distinct blocks with the same contents. |
| TimingResults.BatchIsExact | my_socket/src/TimeQueue.cpp:73-83 | One `HandleTimers` runs exactly the timers before the cut, each once and in order, and leaves the timers that were not due, the callback insertions that survive the erase, and every repeating timer with its new deadline, once each. |
| TimingResults.NothingIsLostIff | my_socket/src/TimeQueue.cpp:76-81 | No timer is lost if and only if no callback inserts one that sorts before the first timer not due; when all timers are due, no callback may insert any. |
| TimingResults.RescheduledTimerIsLost | my_socket/src/TimeQueue.cpp:76-81 | From the start: the only timer is due, its callback sets another five seconds ahead, and that one is erased unrun. |
| Timing.CutIsNow | my_socket/src/TimeQueue.cpp:76-77 | Nothing before the cut is early, nothing after it is overdue. |
| TimingResults.AlwaysKeyedAndArmed | my_socket/src/TimeQueue.cpp:30-83 | In every reachable state each key is its timer's own deadline, no timer is queued twice, and with timers pending the descriptor has expired or will expire at the later of the earliest deadline and 100 microseconds after it was set. |
| Timing.RestartKeeps | my_socket/src/Timer.cpp:18-18 | Restarting a timer that has no entry left keeps every key its timer's own, which is why the erase must come first. |
| Timing.RenewedIff | my_socket/src/TimeQueue.cpp:44-50 | Exactly the timers with a positive interval are put back, each at the clock of its restart plus the interval. |
| Timing.AddTimeIsMicroseconds | my_socket/src/include/TimeStamp.h:40-43 | Adding seconds adds their whole microseconds, a rest being dropped towards zero. |
| Timing.InsertArmsIff | my_socket/src/TimeQueue.cpp:30-35 | An insertion sets the descriptor if and only if nothing is queued or its deadline is strictly the earliest: for that deadline, or 100 microseconds ahead. |
| TimingResults.StaysReadableIff | my_socket/src/TimeQueue.cpp:24-34 | Over every run of insertions and passing time between the poll that reported the descriptor and its read: at the read it is readable if and only if no insertion became the first timer, or the clock has reached the time the last such insertion set it for (its deadline, at least 100 microseconds ahead). |
| TimingResults.ReadableUnlessSet | my_socket/src/TimeQueue.cpp:24-34 | In particular it is readable when no insertion becomes the first timer, and not readable when one does and the read comes within 100 microseconds of the poll. |
| TimingResults.ReportedExpiryIsTakenBack | my_socket/src/TimeQueue.cpp:24-34 | A reachable state with a reported expiry in which an earlier timer set before the read makes a read at once abort; a read after the new time has come would succeed. |
| TimeQueues.TimeQueue.Insert | my_socket/src/TimeQueue.cpp:30-35 | In place, the specified insertion and arming. |
| TimeQueues.TimeQueue.InsertTimer | my_socket/src/TimeQueue.cpp:36-43 | Inserts under the timer's deadline and says whether it became the first. |
| TimeQueues.TimeQueue.ResetTimers | my_socket/src/TimeQueue.cpp:44-54 | The loop over the timers that ran, in place. |
| TimeQueues.TimeQueue.ResetTimerfd | my_socket/src/TimeQueue.cpp:56-71 | Arms for the deadline, at least 100 microseconds ahead. |
| TimeQueues.TimeQueue.HandleTimers | my_socket/src/TimeQueue.cpp:73-83 | In place, the batch of the specification; aborts exactly when the descriptor is not readable. |
| Logging.LogIsConserved | my_socket/src/AsyncLogging.cpp:28-95 | In every interleaving of appends, back-end steps and a stop at any moment: the file, the buffers being written and the front end's buffers are, in that order, everything appended; at its loop head the back end has two empty spares and has written everything appended before its last exchange; the byte counter stays below 1 GiB + 4096000. |
| Logging.NoBufferIsShared | my_socket/src/AsyncLogging.cpp:28-94 | No buffer ever has two owners. |
| Logging.AppendAbortsIff | my_socket/src/include/LogStream.h:17-24 | An append aborts if and only if the line is exactly as long as the space left or no shorter than a whole buffer. |
| Logging.AppendRotatesIff | my_socket/src/AsyncLogging.cpp:28-40 | An append goes on to the next buffer if and only if the line is longer than the space left; otherwise it touches nothing but the current buffer. |
| Logging.ExchangeKeepsBuffers | my_socket/src/AsyncLogging.cpp:54-66 | The exchange moves every buffer and loses none. |
| Logging.RecycleReuses | my_socket/src/AsyncLogging.cpp:75-93 | The back end reuses the first two buffers it took and makes one only when it took a single buffer and got no spare back. |
| Logging.FilesAreBounded | my_socket/src/AsyncLogging.cpp:68-73 | In every interleaving the log is cut into files that each exceed 1 GiB by less than a buffer, and a last one whose size the counter is. |
| Logging.LostAfterReturn | my_socket/src/AsyncLogging.cpp:23-26 | After the back end has returned nothing was lost if and only if nothing was appended after its last exchange. |
| Logging.StopDuringWait | my_socket/src/AsyncLogging.cpp:53-93 | A stop while the back end is between its loop test and its exchange is followed by exactly one exchange, and by the time it returns everything appended before the stop is in the file, in every interleaving. |
| Logging.ExchangesAfterStop | my_socket/src/AsyncLogging.cpp:53-66 | After a stop there is one exchange if the back end was past its loop test, and none otherwise. |
| Logging.LastLineIsLost | my_socket/src/AsyncLogging.cpp:23-40 | A run from the start in which a line appended before the stop is never written. |
| Logging.ExactFitAborts | my_socket/src/include/LogStream.h:17-24 | A run from the start in which a line of one byte aborts because the buffer has exactly one byte left. |
| Logging.GoneForGood | my_socket/src/AsyncLogging.cpp:53-53 | Then the file never changes again. |
| Logging.RoundWritesAll | my_socket/src/AsyncLogging.cpp:53-93 | From its loop test or its wait on, one undisturbed round of the back end writes everything appended so far; from its wait on, stopping or not. |
| AsyncLoggings.FixedBuffer.Append | my_socket/src/include/LogStream.h:17-24 | In place: copies the line or refuses it, as specified. |
| AsyncLoggings.FixedBuffer.Clear | my_socket/src/include/LogStream.h:33-37 | Empties the buffer. |
| AsyncLoggings.AsyncLogging.Append | my_socket/src/AsyncLogging.cpp:28-40 | On buffer objects, the specified front-end append; the front end keeps to its buffers and at most new ones with new memory. |
| AsyncLoggings.AppendAside | my_socket/src/AsyncLogging.cpp:28-40 | An append leaves the two spares of the back end as they are and apart from the front end, so rounds and appends can alternate. |
| AsyncLoggings.AsyncLogging.Exchange | my_socket/src/AsyncLogging.cpp:54-66 | On buffer objects, the back end's critical section. |
| AsyncLoggings.WriteActive | my_socket/src/AsyncLogging.cpp:68-73 | Writes all taken buffers in order, starting a new file at the bound. |
| AsyncLoggings.Recycle | my_socket/src/AsyncLogging.cpp:75-93 | Two of the written buffers, or one and a new one, emptied, become the spares. |
| AsyncLoggings.Round | my_socket/src/AsyncLogging.cpp:54-93 | One round on the objects: the exchange, the writing and the recycling in sequence, leaving two spares that share nothing with each other or the front end, so that the next round can start. |
| AsyncLoggings.LogFile.Write | my_socket/src/LogFile.cpp:20-34 | The loop over partial writes writes the whole message and counts it. |
| Pool.FirstInFirstOut | my_socket/src/ThreadPool.cpp:20-32 | In every interleaving started tasks followed by queued ones are the accepted tasks in order. |
| Pool.QueueIsAttended | my_socket/src/include/ThreadPool.h:18-33 | While a worker is blocked there are at most as many queued tasks as owed notifications and ready workers; a non-empty queue always has a worker that is not blocked or an owed notification. |
| Pool.AcceptsUntilStopped | my_socket/src/include/ThreadPool.h:24-31 | Exactly the tasks added before the stop are accepted, in order, each announced by one notification, given or owed; all workers are woken only after the stop. |
| Pool.CheckDecides | my_socket/src/ThreadPool.cpp:20-30 | A worker sleeps exactly on an empty queue of a running pool, leaves exactly on that of a stopped one, and otherwise takes the oldest task, leaving the other workers alone. |
| Pool.SleeperServes | my_socket/src/ThreadPool.cpp:18-45 | A run in which a worker sleeps, wakes for nothing, sleeps again, is woken by the first task, runs it and leaves after the stop. |
| Pool.WorkersStay | my_socket/src/ThreadPool.cpp:11-36 | The pool keeps as many workers as it was asked for, one if it was asked for none. |
| Pool.JoinedMeansDrained | my_socket/src/ThreadPool.cpp:38-45 | When every worker has returned the pool is stopped and empty, all accepted tasks were started in order and each has finished as often as it was accepted. |
| Pool.StoppedPoolEnds | my_socket/src/include/ThreadPool.h:35-40 | From every reachable stopped state the pool's own steps, at most as many as are left to do, bring every worker to its end, so the joins return. |
| Pool.StepsDrain | my_socket/src/ThreadPool.cpp:20-32 | In a stopped pool every step of the pool's own threads leaves less to do, and adding does nothing. |
| Pool.ThreadPool.Add | my_socket/src/include/ThreadPool.h:24-30 | Queues the task, or throws once the pool has stopped. |
| Pool.ThreadPool.TakeTask | my_socket/src/ThreadPool.cpp:21-30 | Sleeps, leaves or takes the oldest task. |

## Left out

- Data races on fields read without the lock (`running_`, `state_`, `current_buffer_` outside the mutex): each listed action is one atomic step.
- `Connection::SendFile`: it advances its offset twice and bypasses pending output.
- `Connection::ReadNonBlocking`, `ReadBlocking`, `WriteBlocking` and `KeyBoardToOutput`: system-call loops around the buffer operations modelled here.
- Liveness under edge triggering: no claim that the kernel reports another write event after a partial write.
- `HttpServer` callbacks, URL routing, directory listing and `FileUpload`.
- The macOS kqueue branch of `Poller`, and the limit on events returned by one poll.
- Integer width: indices, `atoi` results, the eventfd counter, file counters and time stamps are unbounded; `LogFile`'s counter is proved to stay in range.
- HttpRoundTrip.RoundTrip: starts from a fresh context and one chunk, because a context after `ResetState` keeps old headers and the locals are per call; `ParaseRequest` itself is proved from any state.
- Responses that carry no body by status code (1xx, 204, 304): the printer does not treat them specially and neither does the reader here.
- AsyncLoggings.LogFile.Write: `fwrite` is taken to accept at least one byte each time, since otherwise the source's loop does not end, and the flushing by time is left out.
- `LogStream` and `Logger` formatting and `LogFile`'s fopen fallback.
- The steady clock of the timer descriptor and the wall clock are one clock; `timerfd` arming is in whole microseconds.
- `TimeQueue`: timers are entries of a table from address to fields, not separate heap objects, so that two entries for one timer see the same fields; object lifetime is not modelled.
- NestingStates.NestingState.Update: the regular expressions that decide a line's edits are a parameter, so that the result holds for every effect; `previous_stack_top`, which no step of the two stacks reads, is left out.
- NestingStates.NestingState.UpdateAll: the same.
- `NestingState`'s checkpoint objects are values, since each is reached only through its place in `pp_stack`; the blocks they hold are objects.
- `FindEndOfExpressionInLine` and its companions: `\s` and `\w` are the ASCII classes.
- ReverseExpressions.GetTextInside: the search for the start pattern is a parameter, the position where its match ended, because it is the caller's regular expression.
- `EventLoopThreadPool`'s round robin and `Latch`.
- `AsyncLogging`'s waiting time: once past its loop test the back end may exchange at any moment, which covers every duration of `wait_until`, and no wait at all.
- The rest of cpplint.py and the other top-level directories.
