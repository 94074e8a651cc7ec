# A verified model of the Boost.Asio examples

The repository is a collection of network programs built on Boost.Asio. This project models the parts
of it that hold logic of their own, and proves what they guarantee:

* **An HTTP client and an HTTP server**, each of which parses what the other prints, over a byte
  stream that the network may cut into arbitrary pieces. Handlers share one buffer, which a delimited
  read may fill beyond the delimiter. `Streams` models `std::istream` with its eof and fail bits,
  `read_until` with its buffer limit, and the network (`Chunking`); `Decimal`, `StatusLines` and
  `HeaderBlocks` the parsers and printers; `HttpClient` and `HttpServer` the two objects;
  `ClientRuns`, `ServerRuns` and `Conversation` whole exchanges. `StatusMeanings`, `HeaderMeanings` and
  `ServerTexts` say what these come to in plain texts, names and numbers.
* **One HTTP request under concurrent cancellation** (`RequestMachine`): six operations in a fixed
  order, one lock that is released before the callback, and cancellations at any moment.
* **A client with a registry of sessions and two kinds of locks** (`CancelProtocol`,
  `CancelTheorems`, `CancelRegistry`, `CancelClosing`, `CancelProgress`, `AsyncTcpClient`): user threads
  start and cancel requests while I/O threads complete them, and the two locks are taken in opposite
  orders on two paths.
* **The accept loop and its self-deleting services** (`Accepting`).
* **Partial transfers** (`PartialTransfers`): reading and writing a buffer by calls that may transfer
  less than they are asked to, as a loop and as a chain of completion handlers.

Objects whose methods update fields are classes. Each of their methods is proved to have the effect
of a function on the object's value (`Handle`, `Apply`, `Continue`), and the theorems are about that
function, over every run. The state machines have one event for each section of code that other
threads cannot interrupt, and quantify over all interleavings, all error codes and all bytes the
network may deliver.

What to look at first: `Conversation.ConversationOutcome`, `ServerRuns.ServerReplies`,
`ClientRuns.ResponseIndependentIff`, `ClientRuns.BytesConserved`, `HeaderBlocks.ClientLoopEndsIff`,
`CancelTheorems.WaitCycleIff`, `CancelTheorems.EffectiveCancelReported`,
`CancelRegistry.RegistryExactIff`, `CancelClosing.CloseServesIff`, `CancelProgress.CloseReturns`,
`RequestMachine.CancelGuarantee`.

## Where the code is not as good as its intent

Some properties one would expect hold only under a condition; the project proves the exact one.

* The client's `while (true)` header loop does not end on every input. It ends if and only if the
  buffer consists of lines, each closed by CR and one more byte, followed by nothing or by an empty
  line (`ClientLoopEndsIff`). `BareCrSpins` is a short input on which it runs for ever. The chunking
  matters for the headers exactly when no empty line, as the client counts them, lies before the end
  of the first blank line (`HeadersIndependentIff`).
* A first line that holds no word, or only `HTTP/1.1`, makes the client's `>>` run past the line into
  whatever bytes happen to be buffered: then, and only then, the status phase depends on the chunking
  (`StatusIndependentIff`).
* The client needs a blank line after the status line it has consumed. A response without headers has
  already spent half of its only one, so that it succeeds if and only if its body begins with an empty
  line or holds a blank line (`HeaderlessOutcome`, `HeaderlessBlankLine`); otherwise it ends in eof
  although its status has been recorded, as every error response of the server does, whose body is
  empty (`ErrorRoundTrip`). With headers or without, a response whose status line has no CR, and whose
  CRs up to the first blank line after it each have their LF, succeeds if and only if there is such a
  blank line (`OrdinaryOutcome`).
* The client prints any target and any host. The server serves exactly the target if and only if the
  target is not empty and has no white space, and request line and header block show their ends within
  4096 bytes each (`RequestRoundTrip`). A plain target that does not fit is answered 413
  (`PlainTarget`); of a target of two words the second is taken for the version, so that it is answered
  413 or 505, or another path is served (`TwoWordTarget`). The Host header is parsed as printed if and
  only if the host has no CR (`RequestParsed`).
* Two cancellations of one live request can block two threads for ever. `WaitCycleIff` says exactly
  when threads wait for each other, `RunClashesIff` exactly which runs come to that, and
  `TwoCancelsDeadlock` is a run in which they do, with one user thread and one I/O thread; so the
  single-threaded client has it as well. `close` returns unless that happens (`CloseReturns`).
* The map of active sessions is exact throughout a run if and only if no session is registered under an
  id that the map holds (`RegistryExactIff`). The session that was there before is then hidden from
  every later cancellation, in every continuation (`OverwrittenIsHidden`, `HiddenForever`).
* When `close` returns, a request may lack its callback. With at least one I/O thread it has had it if
  and only if its connection was asked for before the event loop stopped, which the loop does as soon as
  `close` has been called, no operation is pending and no handler is running (`CloseServesIff`). So
  `close` drains if and only if that is so of every request (`CloseDrainsIff`), in particular if nothing
  was started during or after it (`CloseDrains`). What is asked for later is never served, in any
  continuation (`StoppedForever`, `LateStartIsStranded`).

## Model

| member | source | states |
|---|---|---|
| Streams.GetlineExtends | chapter5/HTTPClient/httpclient.cpp:245-247 | a `getline` that leaves the stream good has not looked past the bytes it had: more bytes in the buffer only stay behind it |
| Streams.ExtractExtends | chapter5/HTTPClient/httpclient.cpp:223-232 | the same for `>>` |
| Streams.ReadUntilConserves | chapter5/HTTPClient/httpclient.cpp:203-208 | a delimited read neither loses, repeats nor reorders bytes between buffer and wire, and respects the buffer's limit |
| Streams.ReadUntilOutcome | chapter5/HTTPServer/service.cpp:18-24 | success, not_found or the end of the connection is decided by the bytes and the limit alone, for every chunking |
| Streams.ReadAllOutcome | chapter5/HTTPClient/httpclient.cpp:315-319 | reading the body collects every remaining byte, in order, for every chunking |
| Streams.EarlyAndLate | chapter5/HTTPClient/httpclient.cpp:264-269 | the network may stop right behind the delimiter or deliver everything at once: the read leaves a different buffer, so over-filling is real |
| Decimal.StoulOfPrint | chapter5/HTTPServer/service.cpp:169-170 | a printed number is read back as itself, for every 64-bit number |
| Decimal.ValueOfPrint | chapter5/HTTPServer/service.cpp:169-170 | the decimal print of every natural number has that value |
| Decimal.PrintHasNoLeadingZero | chapter5/HTTPServer/service.cpp:169-170 | a printed number has no leading zero |
| Decimal.StoulAcceptsIff | chapter5/HTTPClient/httpclient.cpp:237-239 | a text without white space is a number if and only if it begins, after at most one sign, with digits the longest run of which denotes less than 2^64 |
| Decimal.StoulOfSplit | chapter5/HTTPClient/httpclient.cpp:237-239 | it is then the value of those digits, negated modulo 2^64 after a minus |
| StatusLines.ParseExtends | chapter5/HTTPClient/httpclient.cpp:218-247 | a status-line parse that stays within its bytes gives the same code and message whatever follows, and leaves exactly that unread |
| StatusLines.StaysInLine | chapter5/HTTPClient/httpclient.cpp:223-247 | the parser stays inside the first line if and only if that line holds a version and a code, or a version that is rejected |
| StatusLines.DecidedStatus | chapter5/HTTPClient/httpclient.cpp:203-250 | for a deciding first line the code, the message and the bytes still ahead are the same for every continuation and every chunking |
| StatusLines.UndecidedStatus | chapter5/HTTPClient/httpclient.cpp:203-250 | for every other first line there is a continuation that one chunking gets rejected and another accepted |
| StatusLines.StatusIndependentIff | chapter5/HTTPClient/httpclient.cpp:203-250 | the status phase is independent of the chunking if and only if the first line decides it |
| StatusLines.StatusLineRoundTrip | chapter5/HTTPClient/httpclient.cpp:223-250 | for every code and CR-free reason the printed status line is read back as the code (narrowed to unsigned int) and the reason with its leading blank, and exactly the line is consumed |
| StatusMeanings.CodeAcceptedIff | chapter5/HTTPClient/httpclient.cpp:232-243 | a status line with any code is accepted if and only if the code is such a number |
| StatusMeanings.CodeMeans | chapter5/HTTPClient/httpclient.cpp:232-250 | it is recorded as that number modulo 2^32, with the message after its leading blank, and exactly the line is consumed |
| StatusMeanings.BadCodeIsReported | chapter5/HTTPClient/httpclient.cpp:237-243 | any other code ends the request with invalid_response, for every continuation and chunking |
| StatusMeanings.BadVersionIsReported | chapter5/HTTPClient/httpclient.cpp:226-230 | so does any first word other than HTTP/1.1 |
| HeaderBlocks.StuckTurns | chapter5/HTTPClient/httpclient.cpp:283-290 | once the stream is not good and the header is not empty, no further turn ever changes the header |
| HeaderBlocks.ScanIsLoop | chapter5/HTTPClient/httpclient.cpp:279-303 | the structural scan is the turn-by-turn loop: it stops exactly when some first turn produces an empty header, with that turn's headers and unread bytes |
| HeaderBlocks.ScanLines | chapter5/HTTPClient/httpclient.cpp:283-303 | proper lines followed by the end or an empty line stop the loop; the headers are those of the lines and what follows the empty line is untouched |
| HeaderBlocks.ClientLoopEndsIff | chapter5/HTTPClient/httpclient.cpp:279-303 | the header loop ends if and only if the buffer is proper lines followed by nothing or an empty line |
| HeaderBlocks.BareCrSpins | chapter5/HTTPClient/httpclient.cpp:279-303 | a buffer with a blank line and a bare CR on which the loop never ends |
| HeaderBlocks.StopsAtEmptyLine | chapter5/HTTPClient/httpclient.cpp:279-303 | if every CR up to the first blank line has its LF, the loop stops exactly after the first empty line and leaves the body |
| HeaderBlocks.FixedHeaders | chapter5/HTTPClient/httpclient.cpp:264-303 | with an empty line inside the block, headers and remaining bytes are the same for every chunking |
| HeaderBlocks.ChanceHeaders | chapter5/HTTPClient/httpclient.cpp:264-303 | without one, some body is treated differently under two chunkings |
| HeaderBlocks.HeadersIndependentIff | chapter5/HTTPClient/httpclient.cpp:264-303 | the header phase is independent of the chunking if and only if the block has an empty line inside |
| HeaderBlocks.LastWinsMeaning | chapter5/HTTPClient/httpclient.cpp:58-61 | of fields with the same name the last one's value is kept |
| HeaderBlocks.ClientReadsFields | chapter5/HTTPClient/httpclient.cpp:283-303 | on any number of printed fields and a final CRLF the client's loop builds the last-wins map and uses up the block |
| HeaderMeanings.ClientReadsLines | chapter5/HTTPClient/httpclient.cpp:283-303 | from any mixture of lines the client takes exactly the names before a first colon, each with the rest of its last line; lines without a colon leave no trace |
| HeaderMeanings.ClientReadsEntries | chapter5/HTTPClient/httpclient.cpp:283-303 | every buffer on which the loop ends is such a mixture, so its headers are those |
| HeaderMeanings.LastWinsNames | chapter5/HTTPClient/httpclient.cpp:58-61 | fields add exactly their names to the headers |
| HeaderBlocks.ServerReadsFields | chapter5/HTTPServer/service.cpp:120-129 | on the same bytes the server's loop builds the last-wins map |
| HeaderMeanings.ServerReadsBytes | chapter5/HTTPServer/service.cpp:120-129 | from any bytes, split into names up to a colon and values up to CR, the server takes exactly those names, each with its last value |
| HeaderMeanings.FieldsOf | chapter5/HTTPServer/service.cpp:120-129 | all bytes split in this way |
| HeaderBlocks.ParsersAgree | chapter5/HTTPServer/service.cpp:120-129 | the client's and the server's loops build the same headers from the same block |
| HttpClient.HTTPResponse.SetStatusCode | chapter5/HTTPClient/httpclient.cpp:50-52 | records the code and nothing else |
| HttpClient.HTTPResponse.SetStatusMessage | chapter5/HTTPClient/httpclient.cpp:54-56 | records the message and nothing else |
| HttpClient.HTTPResponse.AddHeader | chapter5/HTTPClient/httpclient.cpp:58-61 | maps the name to the value, overwriting an earlier one, and changes nothing else |
| HttpClient.HTTPRequest.Execute | chapter5/HTTPClient/httpclient.cpp:83-111 | starts to resolve the host, or finishes with operation_aborted if already cancelled |
| HttpClient.HTTPRequest.Cancel | chapter5/HTTPClient/httpclient.cpp:113-118 | sets the flag and changes nothing else of the request |
| HttpClient.HTTPRequest.OnHostNameResolved | chapter5/HTTPClient/httpclient.cpp:125-149 | an error finishes, a cancelled request finishes with operation_aborted, otherwise the connection is asked for |
| HttpClient.HTTPRequest.OnConnectionEstablished | chapter5/HTTPClient/httpclient.cpp:151-182 | the same for the next stage, appending the printed request to the request buffer |
| HttpClient.HTTPRequest.OnRequestSent | chapter5/HTTPClient/httpclient.cpp:184-209 | the same for the read of the status line; if the shutdown throws, which it can unless there was an error, nothing is pending any more and nothing finishes |
| HttpClient.HTTPRequest.OnStatusLineReceived | chapter5/HTTPClient/httpclient.cpp:211-270 | the parse decides between invalid_response and the header phase; a rejected parse still consumes its bytes |
| HttpClient.HTTPRequest.ParseHeaders | chapter5/HTTPClient/httpclient.cpp:279-303 | the loop over the shared buffer has the effect of the scan, and says when the source's loop would never end |
| HttpClient.HTTPRequest.OnHeadersReceived | chapter5/HTTPClient/httpclient.cpp:272-322 | headers are stored and the body is asked for, unless an error, a cancellation or an endless loop intervenes |
| HttpClient.HTTPRequest.OnResponseBodyReceived | chapter5/HTTPClient/httpclient.cpp:324-330 | end of file counts as success, any other code is passed on |
| HttpClient.HTTPRequest.OnFinish | chapter5/HTTPClient/httpclient.cpp:332-341 | the callback is given the code, once for each call |
| ClientRuns.StatusPhase | chapter5/HTTPClient/httpclient.cpp:203-270 | a deciding first line leads to the header phase with its code and message, or to invalid_response, for every chunking |
| ClientRuns.HeaderPhase | chapter5/HTTPClient/httpclient.cpp:264-330 | a block with an empty line inside gives its headers, and everything behind the empty line becomes the body |
| ClientRuns.ChunkingIndependent | chapter5/HTTPClient/httpclient.cpp:203-330 | for every regular response the code, the headers and on success the body are the same for all chunkings |
| ClientRuns.ResponseIndependentIff | chapter5/HTTPClient/httpclient.cpp:203-330 | after a deciding first line, the answer to a response is the same for all bodies and chunkings if and only if the header block has its empty line inside |
| ClientRuns.UndecidedResponse | chapter5/HTTPClient/httpclient.cpp:203-250 | for every first line that does not decide the parse some continuation is answered differently under two chunkings |
| ClientRuns.FirstLineIndependentIff | chapter5/HTTPClient/httpclient.cpp:203-330 | for every first line: the answer to all continuations with a regular header block is independent of the chunking if and only if the line decides the parse |
| ClientRuns.ConformingIsRegular | chapter5/HTTPClient/httpclient.cpp:203-330 | a response with a deciding CR-free first line, and every CR up to the first later blank line followed by LF, is regular |
| ClientRuns.BytesConserved | chapter5/HTTPClient/httpclient.cpp:203-330 | for every byte stream and chunking: on success status line, header lines, the end of the block and the final buffer are all bytes received, in order; the parts are what the status parser and the header loop took from their buffers, and give the recorded code, message and headers |
| ClientRuns.OrdinaryOutcome | chapter5/HTTPClient/httpclient.cpp:264-330 | an ordinary response, with headers or without, succeeds if and only if a blank line follows somewhere after its status line and the connection then ends in eof; otherwise the code is that of the end |
| ClientRuns.HeaderlessOutcome | chapter5/HTTPClient/httpclient.cpp:249-277 | a response without headers gives the client its whole body and success if that, behind the first CRLF, brings a blank line, and fails with the end otherwise; for every body and chunking |
| ClientRuns.HeaderlessBlankLine | chapter5/HTTPClient/httpclient.cpp:264-277 | it brings one if and only if it begins with CRLF or holds a blank line |
| HttpServer.HTTPService.StartHandling | chapter5/HTTPServer/service.cpp:16-25 | the request line is asked for |
| HttpServer.HTTPService.OnRequestLineReceived | chapter5/HTTPServer/service.cpp:27-94 | 413 for a full buffer, deletion for any other error, then 501, then 505, then the header phase; an exception from the shutdown before a response leaves the service neither waiting nor deleted |
| HttpServer.HTTPService.OnHeadersReceived | chapter5/HTTPServer/service.cpp:96-136 | 413, deletion, or the headers, the file and the response, with the same exception |
| HttpServer.HTTPService.ParseHeaders | chapter5/HTTPServer/service.cpp:116-129 | the loop ends on every buffer, empties it, and builds the scan's headers |
| HttpServer.HTTPService.ProcessRequest | chapter5/HTTPServer/service.cpp:138-171 | 404 for a missing file, 500 for one that cannot be opened, otherwise its bytes and their number |
| HttpServer.HTTPService.SendResponse | chapter5/HTTPServer/service.cpp:173-202 | sends status line, headers, blank line and resource, unless the shutdown throws; needs a code of the status table |
| HttpServer.HTTPService.OnResponseSent | chapter5/HTTPServer/service.cpp:204-213 | the service is deleted whatever the code of the write, unless the shutdown throws |
| HttpServer.HTTPService.OnFinish | chapter5/HTTPServer/service.cpp:215-218 | deletes a service that has not been deleted |
| ServerRuns.ServerReplies | chapter5/HTTPServer/service.cpp:8-136 | for every chunking the service sends exactly the reply described independently on the whole request (413, nothing, 501, 505, 404, 500, file), or deletes itself without one |
| ServerTexts.AnswersNoLine | chapter5/HTTPServer/service.cpp:33-47 | without the end of a line within 4096 bytes the server sends its 413 if there are 4096, and nothing otherwise |
| ServerTexts.AnswersBadLine | chapter5/HTTPServer/service.cpp:56-81 | to a line whose first word is not GET it sends its 501, to one whose third word is not HTTP/1.1 its 505 |
| ServerTexts.AnswersTarget | chapter5/HTTPServer/service.cpp:83-171 | to any other line, if the rest shows a blank line within 4096 bytes, it sends its 404, its 500, or its 200 with the length and the file; else 413 for 4096 bytes and nothing for fewer |
| ServerRuns.OnlyLookUpServes | chapter5/HTTPServer/service.cpp:62-81 | a request is answered by the file of a path, for every file system, if and only if its line is judged to ask for that path |
| ServerRuns.ReplyIndependent | chapter5/HTTPServer/service.cpp:27-202 | the response and the fate of the service do not depend on the chunking |
| ServerRuns.ThreeWords | chapter5/HTTPServer/service.cpp:56-75 | the three extractions yield the first three words of the request line, missing ones as empty strings |
| ServerRuns.ReplyFramed | chapter5/HTTPServer/service.cpp:173-193 | every reply has a code of the table; with 200 a file's whole content with its length, otherwise nothing behind the blank line |
| Conversation.ReadsEntry | chapter5/HTTPServer/main.cpp:15-21 | the client reads the status line of every entry of the table as its code and the words after it |
| Conversation.ResponseRoundTrip | chapter5/HTTPServer/service.cpp:160-193 | for every file content and every chunking the client finishes without error with 200, " OK", exactly the content-length header, and the file's bytes |
| Conversation.ErrorRoundTrip | chapter5/HTTPServer/main.cpp:15-21 | every header-less reply records its code and the words of the table at the client, which then finishes with eof |
| Conversation.SilenceRoundTrip | chapter5/HTTPClient/httpclient.cpp:211-216 | a connection closed without a reply finishes with eof and an untouched response |
| Conversation.RequestRoundTrip | chapter5/HTTPClient/httpclient.cpp:159-165 | for every target and host: the server serves exactly the target, for every file system, if and only if the target is not empty and has no white space, and request line and header block show their ends within 4096 bytes |
| Conversation.PlainTarget | chapter5/HTTPClient/httpclient.cpp:159-165 | a target without white space is looked up if both parts fit, otherwise refused with 413 |
| Conversation.FitsByLength | chapter5/HTTPServer/service.cpp:8-14 | for a host without CR, fitting means at most 4081 characters of a target and 4086 of a host |
| Conversation.TwoWordTarget | chapter5/HTTPServer/service.cpp:56-81 | of a target of two words the second is taken for the version: 413 if the line is too long, else 505, or, if it is the accepted version, the first word is looked up if the header block fits and 413 sent if not |
| Conversation.RequestIsAnswered | chapter5/HTTPServer/service.cpp:27-136 | whatever the target and the host, a printed request is answered |
| Conversation.RequestParsed | chapter5/HTTPServer/service.cpp:49-132 | of a request that is served, for every chunking, the server has parsed the target, and exactly the Host header if and only if the host has no CR |
| Conversation.ConversationOutcome | chapter5/HTTPClient/httpclient.cpp:151-341 | what the callback is told, exactly once and in the words of the status table, for every target, every host, every file system and every chunking of both directions |
| Conversation.ConversationSucceeds | chapter5/HTTPClient/httpclient.cpp:151-341 | the callback is told success if and only if the server looks up a path that holds a file; for a target without white space, if and only if the request fits and the target is a file |
| RequestMachine.StepKeepsInv | chapter5/HTTPClient/httpclient.cpp:83-341 | operations start in their fixed order, exactly one activity at a time, the lock belongs to whoever is between its acquisition and release |
| RequestMachine.CancelGuarantee | chapter5/HTTPClient/httpclient.cpp:113-123 | once a cancellation has returned no further operation is started; if the body read had not been started, the callback gets an error |
| RequestMachine.CancelIsReported | chapter5/HTTPClient/httpclient.cpp:95-102 | a request cancelled before its next operation is started, or before the first, ends with operation_aborted in every continuation |
| RequestMachine.FailureIsReported | chapter5/HTTPClient/httpclient.cpp:125-216 | a failed operation ends the request with its own code in every continuation, whichever operation it was and whether or not the request is cancelled |
| RequestMachine.BodyEndIsSuccess | chapter5/HTTPClient/httpclient.cpp:324-330 | the end of the connection during the body ends it with success in every continuation |
| RequestMachine.StartedInOrder | chapter5/HTTPClient/httpclient.cpp:104-319 | operations are started in the order resolve, connect, write, status line, headers, body, and success needs all six |
| RequestMachine.CancelIsExact | chapter5/HTTPClient/httpclient.cpp:305-330 | of a cancelled request with a pending operation, the callback is certain to get an error if and only if that is not the body read |
| RequestMachine.CallbackWithoutLock | chapter5/HTTPClient/httpclient.cpp:307-312 | the thread running the callback does not hold the cancel lock |
| RequestMachine.StepDescends | chapter5/HTTPClient/httpclient.cpp:83-341 | every step of the request lowers its rank; steps of cancellers do not change it |
| RequestMachine.RunIsBounded | chapter5/HTTPClient/httpclient.cpp:83-341 | every run holds at most as many steps of the request as its rank |
| RequestMachine.NeverStuck | chapter5/HTTPClient/httpclient.cpp:83-341 | until a request has ended, some step other than a new cancellation is possible |
| RequestMachine.CallbackExactlyOnce | chapter5/HTTPClient/httpclient.cpp:332-341 | the callback is called at most once in every run; in a finished one exactly once, if and only if it did not end in an endless header loop or an exception |
| RequestMachine.HandlerIsSteps | chapter5/HTTPClient/httpclient.cpp:125-322 | run without interference, the machine's steps for a completion have the effect of the object's handler on the buffer the completion has filled |
| RequestMachine.ReceiveIsRun | chapter5/HTTPClient/httpclient.cpp:203-330 | a whole exchange with the network, read by read, is a run of the machine |
| CancelProtocol.StepKeepsInv | chapter3/asyncTCPClientMT/asynctcpclient.cpp:15-139 | every lock step, completion, call and return keeps: owners of both kinds of locks, one responsible party for each session, the map's contents, the account of cancellations |
| CancelProtocol.RunKeepsInv | chapter3/asyncTCPClientMT/asynctcpclient.cpp:15-139 | the same over every run, for any number of threads |
| CancelTheorems.EffectiveCancelReported | chapter3/asyncTCPClientMT/asynctcpclient.cpp:88-138 | in every interleaving, a session found by some cancellation is never reported as success, and no session is reported twice |
| CancelTheorems.ReportedExactlyOnce | chapter3/asyncTCPClientMT/asynctcpclient.cpp:112-139 | no report before the callback, exactly one from it on and only after the erasure: the failed operation's code, else operation_aborted if the session was cancelled and success if not; success only after connect, write and read |
| CancelTheorems.FailureReachesCallback | chapter3/asyncTCPClientMT/asynctcpclient.cpp:40-83 | in every continuation of a failed operation the callback is given that operation's code and no other |
| CancelTheorems.SuccessReachesCallback | chapter3/asyncTCPClientMT/asynctcpclient.cpp:71-83 | in every continuation of a read that succeeds, the callback is told success if no cancellation found the session, and operation_aborted otherwise |
| CancelTheorems.NothingAfterCancel | chapter3/asyncTCPClientMT/asynctcpclient.cpp:47-73 | in every continuation, a session whose flag is set starts no further operation, except a connection not yet asked for when it was cancelled |
| CancelTheorems.FoundOnlyById | chapter3/asyncTCPClientMT/asynctcpclient.cpp:88-98 | a session is found by a step if and only if that is a lookup of the id under which the map holds it |
| CancelTheorems.FlaggedOnlyInGuard | chapter3/asyncTCPClientMT/asynctcpclient.cpp:93-97 | a session becomes flagged only by a cancellation that holds its mutex |
| CancelTheorems.CallbackUnderGuardIff | chapter3/asyncTCPClientMT/asynctcpclient.cpp:47-52 | the callback runs with the session's mutex held if and only if no operation failed and the read was never started |
| CancelTheorems.ReachableStep | chapter3/asyncTCPClientMT/asynctcpclient.cpp:15-139 | what the events of the object's methods lead to from a reachable state is reachable, so that the theorems apply to the object after every sequence of calls |
| CancelTheorems.WaitCycleIff | chapter3/asyncTCPClientMT/asynctcpclient.cpp:47-122 | threads wait for each other in a cycle if and only if one cancels again a session whose completion has seen an earlier cancellation |
| CancelTheorems.DeadlockFree | chapter3/asyncTCPClientMT/asynctcpclient.cpp:47-122 | if every session was found by at most one cancellation, unless its read had been started, there is no wait cycle, of any length |
| CancelTheorems.NeverStuck | chapter3/asyncTCPClientMT/asynctcpclient.cpp:15-139 | without such a clash, while any thread is inside the client's code some thread can take a step |
| CancelTheorems.StepClashesIff | chapter3/asyncTCPClientMT/asynctcpclient.cpp:47-122 | a step brings about the first clash if and only if it is a lookup that finds a session whose completion holds its mutex, having seen it cancelled, or a completion that sees cancelled a session for which a cancellation waits |
| CancelTheorems.ClashIsForever | chapter3/asyncTCPClientMT/asynctcpclient.cpp:89-122 | no continuation of a run ends such a clash |
| CancelTheorems.RunClashesIff | chapter3/asyncTCPClientMT/asynctcpclient.cpp:47-122 | so a run ends in a deadlock if and only if one of its steps did that |
| CancelTheorems.SecondCancelDeadlocks | chapter3/asyncTCPClientMT/asynctcpclient.cpp:88-122 | from every state with both mutexes free, an idle I/O thread, and a live request already cancelled and still connecting or writing, one completion and one more cancellation reach a deadlock |
| CancelTheorems.TwoCancelsDeadlock | chapter3/asyncTCPClient/asynctcpclient.cpp:44-107 | a whole run of one user thread and one I/O thread that ends in a permanent deadlock |
| CancelRegistry.StepKeepsUnique | chapter3/asyncTCPClientMT/asynctcpclient.cpp:35-37 | while no id of a request in flight is reused, ids in flight stay different and registered sessions stay in the map |
| CancelRegistry.RegistryExact | chapter3/asyncTCPClientMT/asynctcpclient.cpp:112-128 | if no id in flight was reused, the map holds exactly the registered sessions not yet erased, each under its id |
| CancelClosing.ListedIsAtWork | chapter3/asyncTCPClientMT/asynctcpclient.cpp:35-85 | a session in the map has exactly one of a connection about to be asked for, a pending operation, a handler before the erasure, unless it was asked of an event loop that has stopped; it is never over |
| CancelRegistry.OneThreadOneHandler | chapter3/asyncTCPClient/asynctcpclient.cpp:7-10 | with a single I/O thread at most one session at a time has its handler or callback running |
| CancelRegistry.CallbackMayReuseId | chapter3/asyncTCPClientMT/asynctcpclient.cpp:121-138 | starting a request under the same id from inside the callback is neither a duplicate nor late |
| CancelRegistry.StepKeepsExactIff | chapter3/asyncTCPClientMT/asynctcpclient.cpp:35-37 | a step breaks the exactness of the map if and only if it registers a session under an id that the map holds |
| CancelRegistry.RegistryExactIff | chapter3/asyncTCPClientMT/asynctcpclient.cpp:35-128 | the map is exact throughout a run if and only if no step of the run does that |
| CancelRegistry.OverwrittenIsHidden | chapter3/asyncTCPClientMT/asynctcpclient.cpp:35-37 | such a step takes the session that was there, which is registered and not erased, out of the map |
| CancelRegistry.HiddenForever | chapter3/asyncTCPClientMT/asynctcpclient.cpp:88-98 | a registered session that is not in the map never comes back into it, and no cancellation finds it, in every continuation |
| CancelRegistry.DuplicateHidesSession | chapter3/asyncTCPClientMT/asynctcpclient.cpp:35-37 | a run in which a reused id hides a pending session, and it stays hidden in every continuation |
| CancelClosing.StepStopsInOrder | chapter3/asyncTCPClientMT/asynctcpclient.cpp:100-110 | only an event loop that has stopped leaves a session unserved for good, and threads leave only when it has |
| CancelClosing.StoppedForever | chapter3/asyncTCPClientMT/asynctcpclient.cpp:100-110 | a stopped event loop stays stopped, and in every continuation old sessions keep their reports and new ones get none |
| CancelClosing.CloseServesIff | chapter3/asyncTCPClientMT/asynctcpclient.cpp:100-139 | when `close` returns, with at least one I/O thread, a request has had its callback, once, if and only if its connection was asked for before the event loop stopped; otherwise it never has |
| CancelClosing.CloseDrainsIff | chapter3/asyncTCPClientMT/asynctcpclient.cpp:100-139 | every request has had its callback if and only if every one was asked for in time, and then the map is empty |
| CancelClosing.CloseDrains | chapter3/asyncTCPClientMT/asynctcpclient.cpp:100-110 | that is so if no request was started, outside callbacks, during or after `close`: the map is empty and every request has had its callback once |
| CancelClosing.CloseGoesOn | chapter3/asyncTCPClientMT/asynctcpclient.cpp:100-110 | until then, and without a clash, some step, completion, return or exit is possible |
| CancelClosing.StrandedForever | chapter3/asyncTCPClientMT/asynctcpclient.cpp:100-110 | without I/O threads, as in a client made without any, old sessions keep their reports and new ones get none in every continuation |
| CancelClosing.LateStartIsStranded | chapter3/asyncTCPClientMT/asynctcpclient.cpp:5-13 | a run in which a request is started after `close` has returned, and is not reported in any continuation |
| CancelProgress.StepDescends | chapter3/asyncTCPClientMT/asynctcpclient.cpp:15-139 | every step, completion, return and exit lowers a measure; a start raises it by at most 18, a cancellation by at most 5 |
| CancelProgress.RunIsBounded | chapter3/asyncTCPClientMT/asynctcpclient.cpp:15-139 | so every run is bounded by what it begins with and the calls made in it |
| CancelProgress.CloseReturns | chapter3/asyncTCPClientMT/asynctcpclient.cpp:100-110 | after `close` and without new calls every run is bounded, and one that can go no further has seen every I/O thread leave if and only if no second cancellation clashes with a completion |
| AsyncTcpClient.AsyncTCPClient.FindSession | chapter3/asyncTCPClientMT/asynctcpclient.cpp:91-93 | the lookup finds the session under that id, or the cancellation leaves without effect |
| AsyncTcpClient.AsyncTCPClient.NextOperation | chapter3/asyncTCPClientMT/asynctcpclient.cpp:49-73 | a cancelled session goes to completion with its mutex held; otherwise the next operation is started under it |
| AsyncTcpClient.AsyncTCPClient.EraseSession | chapter3/asyncTCPClientMT/asynctcpclient.cpp:121-128 | whatever is in the map under the session's id is erased, and the mutex released |
| AsyncTcpClient.AsyncTCPClient.ReturnFromCallback | chapter3/asyncTCPClientMT/asynctcpclient.cpp:138-139 | the session is over; if its handler held the session's mutex, that is released only now |
| Accepting.StepKeepsInv | chapter5/HTTPServer/acceptor.cpp:10-49 | accepts outstanding plus handlers at work are one while the acceptor is open, none before and after; each service has exactly one activity |
| Accepting.OneOutstandingAccept | chapter5/HTTPServer/acceptor.cpp:21-49 | between handlers exactly one accept is outstanding from the start until the acceptor is closed, then none; closing implies the stop flag |
| Accepting.ServicesMatchAccepts | chapter5/HTTPServer/acceptor.cpp:34-38 | between handlers there are as many services as successful accepts |
| Accepting.StopIsFinal | chapter5/HTTPServer/acceptor.cpp:16-48 | after a stop at most one more service is created in every run; after the closing none, and it stays closed |
| Accepting.ServiceLifetime | chapter5/HTTPServer/service.cpp:16-218 | each service is deleted at most once, no handler begins after that, and at most three begin in all |
| Accepting.ServiceIsFreed | chapter5/HTTPServer/service.cpp:195-218 | a service that is not deleted can go on; each handler brings it nearer its end when it begins and no further away when it runs; and the last one deletes it |
| Accepting.AcceptHandlerIsSteps | chapter5/HTTPServer/acceptor.cpp:31-49 | run without interference, the machine's steps of an accept handler have the effect of the object's method |
| Accepting.CellServes | chapter5/HTTPServer/service.cpp:16-136 | a service created by an accept, with its reads completed by the network, is the service whose replies are described above |
| Accepting.Acceptor.Start | chapter5/HTTPServer/acceptor.cpp:10-14 | listening, with one accept started |
| Accepting.Acceptor.Stop | chapter5/HTTPServer/acceptor.cpp:16-19 | sets the flag and nothing else |
| Accepting.Acceptor.InitAccept | chapter5/HTTPServer/acceptor.cpp:21-29 | one more accept is outstanding |
| Accepting.Acceptor.OnAccept | chapter5/HTTPServer/acceptor.cpp:31-49 | a fresh service reading its request line unless the accept failed; then a new accept, or the closing if stopped |
| PartialTransfers.LoopOutcome | chapter2/readingFromTCPSockSync/main.cpp:33-45 | for every size and every sequence of positive partial transfers the loop transfers the first bytes in order, as many as asked for or as there are, and not one more |
| PartialTransfers.ChainRefinesLoop | chapter2/readingFromTCPSockAsync/main.cpp:22-69 | the chain of handlers ends with the bytes of the loop and exactly one code, which is success exactly when all were transferred |
| PartialTransfers.ChainOutcome | chapter2/readingFromTCPSockAsync/main.cpp:22-69 | what a chain leaves behind depends on the bytes supplied alone |
| PartialTransfers.ReadFromSocket | chapter2/readingFromTCPSockSync/main.cpp:33-45 | the loop over a real buffer returns the transferred bytes, or the error that ended the connection |
| PartialTransfers.WriteToSocket | chapter2/writingToTCPSockSync/main.cpp:14-28 | the loop sends exactly the bytes of the buffer, or a prefix of it before the error |
| PartialTransfers.ReadSession.constructor | chapter2/readingFromTCPSockAsync/main.cpp:50-69 | an empty buffer and a first read for all of it |
| PartialTransfers.ReadSession.Callback | chapter2/readingFromTCPSockAsync/main.cpp:22-48 | an error ends the chain with nothing added; the full count ends it with success; otherwise the next read is started for the rest |
| PartialTransfers.ReadSession.Run | chapter2/readingFromTCPSockAsync/main.cpp:22-69 | the chain on a real buffer, which it fills in place, is the functional chain |
| PartialTransfers.WriteSession.Callback | chapter2/writingToTCPSockAsync/main.cpp:21-45 | the same three cases for writing |
| PartialTransfers.WriteSession.Run | chapter2/writingToTCPSockAsync/main.cpp:21-63 | the chain is the functional chain, and what was put on the wire is exactly the part of the buffer counted as written |
| PartialTransfers.ReadDelimOutcome | chapter2/readingFromTCPSockSync/main.cpp:6-22 | the message is the first line and an error means there is none, for every chunking; bytes read past the newline are lost to the socket |

## Left out

- Sockets, name resolution, endpoints, chapter 1, the SSL programs: an operation is a completion with an arbitrary code and bytes.
- Chapter 4 servers, the synchronous TCP and UDP clients, and the "Enhanced" examples of chapter 2: simpler versions of the protocols modelled here.
- ClientRuns.ChunkingIndependent: the client's buffer has no explicit limit in the source and is unbounded in the model; the library's own maximum size is not modelled.
- ServerRuns.ServerReplies: assumes that a read never ends with the library's code for a full buffer unless the buffer is full.
- Conversation.ConversationOutcome: a server that closes while request bytes are unread may have its connection reset; the model lets the reply arrive in full.
- Decimal.StoulOfPrint: `unsigned long` is taken to have 64 bits and `unsigned int` 32, as on LP64 platforms.
- HttpServer.HTTPService.ProcessRequest: the file system is a function from paths to missing, unopenable, or a finite content; directories and failures of size or seek calls are not modelled.
- HttpClient.HTTPRequest.ParseHeaders: where the source's loop never ends, the method returns and says so, and the request is marked as spinning.
- RequestMachine.CallbackExactlyOnce: the exception that the shutdown of the sending side can throw is an event leading to a terminal state of its own, and so is the endless header loop; neither calls the callback.
- Accepting.ServiceIsFreed: an exception out of the shutdown of a socket stops the whole run, and `io_context::stop`, which abandons the services in progress, is not modelled; nor is the limit on how many handlers a thread pool runs at once.
- HttpClient.HTTPRequest.Cancel: the aborts it asks of resolver and socket appear only as completions with arbitrary codes; ServerRuns and ClientRuns take every shutdown to succeed.
- CancelClosing.CloseServesIff: that an event loop without work stops for good is the library's doing; the model takes it to happen at once.
- CancelProgress.CloseReturns: that threads and pending operations do go on as long as they can is the scheduler's and the network's part.
- CancelTheorems.SecondCancelDeadlocks: states in which a mutex is held, or no I/O thread is idle, are not considered.
- AsyncTcpClient.AsyncTCPClient: each of its methods has the effect of one event of the protocol; those that say nothing beyond that event have no row above.
- AsyncTcpClient.AsyncTCPClient.FindSession: sessions are values in a map that the methods replace, not objects, so sharing of session objects is not captured; the response line handed to the callback and the text of the request are not modelled.
- What a user's callback does beyond starting and cancelling requests, and console output.
- Weak memory: each section of code between lock operations is one step, and the read of the cancellation flag after the erasure, which takes no lock in the source, is atomic.
- PartialTransfers.ChainRefinesLoop: a call on an empty buffer is taken to succeed with no bytes, and a call on a non-empty one to transfer at least one byte or fail.
