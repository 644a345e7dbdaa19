# A verified model of the epoll HTTP server

This project models the HTTP server of `epoll-http-server/src` in Dafny and proves what it is built for. `dafny verify dfyconfig.toml` checks all of it.

The model has three layers and joins them.

- **The incremental request parser.** `HttpRequestSpec` is the parser as a function on its state, with what it leaves behind on failure too. `HttpRequestParser` is the class that updates its fields in place and is proved to compute that function. `HttpRequestGrammar` gives the accepted language as a grammar that never searches for separators, and proves that the parser accepts, understands and refuses exactly what the grammar says. `HttpRequestInvariants` states what every run of calls keeps. `RequestPrinting` and `HttpResponsePrinter` prove round trips through printed requests and responses. `RequestMeaning` and `ResponseMeaning` say in plain octets, without the parser's and the printer's own functions, what a parsed request and a printed response say.
- **The event loop.** `Reactor` has the classes `Channel` and `EventLoop` with the epoll table as a mirror of the channels. `LoopProtocol` is the cross-thread queue, eventfd and quit flag as a state machine over the steps of any number of threads. `ThreadPool` is the round-robin choice of a sub-loop.
- **The server.** `HttpServerConnection` has the callbacks of one connection as functions on its state, with the environment's answers as parameters; `HttpServerConnectionObject` is the object with the parser, channel and loop objects inside, each callback proved to do what those functions say; `HttpServerObject` is the server object with the hand-off and the shared table. `ConnectionMeaning` says what each event does from the environment's answers alone. `EndToEnd` proves that a connection refines a sequential server. `Lifetime` is the main loop, the sub-loops and the shared connection table as one state machine, with accept, hand-off, dispatch, close, the queueing of the erase functor and its run as interleaved steps. `DescriptorReuse` says exactly when a descriptor may come back from accept, and `EarlyReuse` has runs in which it comes back too early.
- **The whole.** `ServerRun` puts the connections behind the events of `Lifetime` and proves that every client is served in order over any interleaving of the loops. `ServerLoops` proves that every loop of `Lifetime` is a run of `LoopProtocol`.

## What is assumed about the environment

- `read`, `write`, `accept`, `epoll_wait` and `epoll_ctl` are parameters or steps of the environment: a write takes at most what it is offered, `epoll_wait` reports each descriptor once and only what it is registered for (or a hang-up or an error), and may return with nothing.
- A `char` stands for one octet. `tolower` is the ASCII one, `long` has 64 bits and `strtol` saturates.
- A hash table is walked in an arbitrary order; every theorem about printed headers holds for every order.
- The lock and the atomics are sequentially consistent steps; callbacks terminate; an eventfd was obtained (`Reactor.EventLoop.Wakeup` has the other branch, the protocol has not).

## Where the code does less than one might think

Each of these is a theorem, with the exact condition under which the code does better.

- **The 64 KB limit** is described as a limit per request (epoll-http-server/src/HttpRequest.cpp:6-7). It bounds what is in the buffer at one call: `CallsAcceptedIff` says exactly which runs of calls are accepted, of any total length; `NoLimitOnWholeRequest` gives accepted requests of any length, and `FragmentationInvariance` says exactly when one call on the whole succeeds.
- **400 responses** close the connection when sent at once, but after a short first write the unfinished request's own keep-alive decides: `BadRequestsAgreeIff`, `BadRequestKeptOpen`.
- **A read while a response is unsent** answers again. `InterveningReadKeepsIff` says exactly when the unsent octets still reach the peer in order. After a short write they are dropped (`InterveningReadDropsUnsent`); after a full write of a keep-alive response they come behind it and the connection is then closed (`FullWriteReorders`). `PipelinedReadLosesResponse` is a run from the start in which a response is lost. The end-to-end theorem therefore asks that nothing be read then (no pipelining).
- **A quit before `loop()` starts** is undone by the loop's initial store: `QuitBeforeStartIsLost`. The quit results speak of a quit issued since the start.
- **Descriptor reuse.** The descriptor is closed first, then its erase functor is queued, and later that functor erases the table entry by descriptor. `ServerLifetimesAreSafe` proves that connections are destroyed in order over a run if and only if every table insertion of that run finds its slot empty. `HandOffsInOrderAreSafe` derives this from the order of the queues: when a descriptor is handed off, an entry it still has must be due to be erased by a functor that is already queued on the very sub-loop it goes to. `HandOffIsSafeIff` and `AcceptIsSafeIff` prove this condition exact, at the hand-off and at accept: otherwise some steps that follow destroy a connection out of order. With one sub-loop it comes down to one moment: `OneSubLoopIsSafe`, unless accept returns the descriptor between its close and the queueing of its erase functor. `EarlyReuseDangles` (two sub-loops) and `OneSubLoopDangles` (one, in that moment) are runs that end with an epoll entry pointing to a destroyed connection.
- **An error report alone** runs no callback, because the server installs no error callback: `ServerDispatch`. Runs of a connection and of the server include such reports.

## Model

| member | source | states |
|---|---|---|
| HttpRequestParser.HttpRequest.constructor | epoll-http-server/src/HttpRequest.cpp:10-11 | a new parser is the fresh state |
| HttpRequestParser.HttpRequest.Reset | epoll-http-server/src/HttpRequest.cpp:13-22 | reset makes it the fresh state again, leftover octets included |
| HttpRequestParser.HttpRequest.Parse | epoll-http-server/src/HttpRequest.cpp:27-77 | the loop over the buffer computes one call of the specified parser: its verdict and the whole new state, also when it fails |
| HttpRequestParser.HttpRequest.ReadRequestLine | epoll-http-server/src/HttpRequest.cpp:80-104 | first and last space, normalised path, fields written before the version is refused |
| HttpRequestParser.HttpRequest.ReadHeader | epoll-http-server/src/HttpRequest.cpp:107-134 | first colon, lower-case key, leading blanks dropped, table written before a bad length is refused |
| HttpRequestParser.HttpRequest.Header | epoll-http-server/src/HttpRequest.cpp:137-142 | lookup by lower-cased name, empty when absent |
| HttpRequestParser.HttpRequest.IsKeepAlive | epoll-http-server/src/HttpRequest.cpp:145-153 | the persistence rule of the state |
| HttpRequestSpec.DrainThenMore | epoll-http-server/src/HttpRequest.cpp:32-77 | octets that arrive later never change what was consumed, and a failure stays one |
| HttpRequestSpec.SuccessfulCallsDrainTheWhole | epoll-http-server/src/HttpRequest.cpp:24-77 | calls that all succeed leave the state of one unbounded pass over all the octets |
| HttpRequestSpec.FragmentationInvariance | epoll-http-server/src/HttpRequest.cpp:24-77 | one call on the whole succeeds iff all calls of the splitting do and the whole is within the limit; then the states are identical |
| HttpRequestSpec.SplittingsAgree | epoll-http-server/src/HttpRequest.cpp:24-77 | any two splittings of the same octets within the limit are accepted alike and end alike |
| HttpRequestSpec.CallsAcceptedIff | epoll-http-server/src/HttpRequest.cpp:27-77 | which runs of calls are accepted, of any total length: iff one pass over all octets finds no error and each call finds room beside what the earlier ones left; the end state is that of the one pass |
| HttpRequestGrammar.MessageIsRecognised | epoll-http-server/src/HttpRequest.cpp:34-134 | every message of the grammar is accepted with its meaning, and what follows it is left over |
| HttpRequestGrammar.CompleteRequestIsMessage | epoll-http-server/src/HttpRequest.cpp:34-134 | a complete request can only come from a message of the grammar at the start of the text |
| HttpRequestGrammar.MessagesArePrefixFree | epoll-http-server/src/HttpRequest.cpp:34-134 | at most one message starts a text, so the grammar is unambiguous |
| HttpRequestGrammar.ParserIsExact | epoll-http-server/src/HttpRequest.cpp:27-134 | within 64 KB a fresh parser ends complete iff some message starts the text; it is the only one, and state and leftover are the ones it gives |
| HttpRequestGrammar.RejectionIsExact | epoll-http-server/src/HttpRequest.cpp:27-134 | within 64 KB the parser reports an error iff a line that no message can have at its place ends within the text |
| HttpRequestGrammar.TableHoldsLast | epoll-http-server/src/HttpRequest.cpp:122-122 | the table holds for each name what the last field of that name says |
| HttpRequestGrammar.PersistenceOfMessage | epoll-http-server/src/HttpRequest.cpp:145-153 | what keep-alive means in terms of the message's last Connection field and its version |
| HttpRequestInvariants.SuccessfulRunKeeps | epoll-http-server/src/HttpRequest.cpp:27-134 | over any run of successful calls: keys lower-case and at most 64, cached length as the stored header declares, body complete exactly in the end, nothing consumable left, no octet lost or invented |
| HttpRequestInvariants.LookupIgnoresCase | epoll-http-server/src/HttpRequest.cpp:136-142 | names that differ in the case of letters only are looked up alike |
| HttpRequestInvariants.NoLimitOnWholeRequest | epoll-http-server/src/HttpRequest.cpp:6-31 | requests of any total length are accepted in small calls |
| RequestMeaning.RequestLineMeans | epoll-http-server/src/HttpRequest.cpp:80-104 | after any text that got past its first line: method before the first space, version behind the last, and the path is all that is between, with a slash in front if it begins with none |
| RequestMeaning.LookupMeans | epoll-http-server/src/HttpRequest.cpp:107-142 | after a message, a lookup gives what the last field of that name says, without regard to the case of letters, and the empty string without such a field |
| RequestMeaning.ContentLengthMeans | epoll-http-server/src/HttpRequest.cpp:124-131 | a Content-Length line is taken iff its value begins with a number that is not below zero, and that number, clamped, is expected of the body |
| Octets.StrtolOfNumeral | epoll-http-server/src/HttpRequest.cpp:126-127 | spaces, sign and digits convert to the saturated value, whatever follows |
| Octets.StrtolReadsNumeral | epoll-http-server/src/HttpRequest.cpp:126-127 | nothing else converts |
| Octets.StrtolOfDecimal | epoll-http-server/src/HttpRequest.cpp:126-126 | reading back a printed length gives the length |
| Octets.StrtolOfDecimalInt | epoll-http-server/src/HttpResponse.cpp:42-42 | reading back a printed number, below zero or not, gives the number, clamped to 64 bits |
| Octets.ValueExact | epoll-http-server/src/HttpRequest.cpp:126-126 | a numeral's value, one literal digit after the other |
| Octets.LowerExact | epoll-http-server/src/HttpRequest.cpp:113-113 | lowering turns the 26 capitals into their small letters and changes nothing else |
| Octets.LowerForgetsCaseOnly | epoll-http-server/src/HttpRequest.cpp:139-139 | two names are lowered alike iff they are the same letter by letter but for case |
| Octets.TrimValueExact | epoll-http-server/src/HttpRequest.cpp:116-120 | exactly the spaces and tabs in front are dropped, unless there is nothing else |
| RequestPrinting.PrintThenParse | epoll-http-server/src/HttpRequest.cpp:27-134 | a printed request is accepted without leftover in any header order; it comes back unchanged iff no blanks follow the colons or every value begins with something solid |
| RequestPrinting.PrintThenParseChunked | epoll-http-server/src/HttpRequest.cpp:27-134 | the same under any chunking within 64 KB |
| RequestPrinting.PrintableIsImage | epoll-http-server/src/HttpRequest.cpp:27-134 | the printable requests are exactly those that parsing some text produces |
| RequestPrinting.ReprintIsStable | epoll-http-server/src/HttpRequest.cpp:27-134 | parse anything, print it in any order, parse it in any chunks: the same request |
| HttpResponsePrinter.HttpResponse.constructor | epoll-http-server/src/HttpResponse.cpp:4-5 | a new response is 200 OK, empty, not keep-alive |
| HttpResponsePrinter.HttpResponse.SetStatusCode | epoll-http-server/src/HttpResponse.cpp:7-16 | code and its message, nothing else |
| HttpResponsePrinter.HttpResponse.SetStatusMessage | epoll-http-server/src/HttpResponse.cpp:18-20 | the message only |
| HttpResponsePrinter.HttpResponse.SetContentType | epoll-http-server/src/HttpResponse.cpp:22-24 | the Content-Type entry only |
| HttpResponsePrinter.HttpResponse.SetBody | epoll-http-server/src/HttpResponse.cpp:26-28 | the body only |
| HttpResponsePrinter.HttpResponse.SetKeepAlive | epoll-http-server/src/HttpResponse.cpp:30-32 | the flag only |
| HttpResponsePrinter.HttpResponse.SetHeader | epoll-http-server/src/HttpResponse.cpp:34-36 | one entry only |
| HttpResponsePrinter.HttpResponse.ToMessage | epoll-http-server/src/HttpResponse.cpp:38-59 | the printed text for some walking order of the table |
| HttpResponsePrinter.ResponseFraming | epoll-http-server/src/HttpResponse.cpp:38-59 | what follows the status line reads back complete iff the response is readable, and then with exactly the body, no leftover, `keep-alive` or `close` by the flag and the length of the body, for every walking order |
| HttpResponsePrinter.PlainResponsesAreReadable | epoll-http-server/src/HttpResponse.cpp:38-59 | at most 62 headers, none called Content-Length, is always readable |
| ResponseMeaning.ResponseMeans | epoll-http-server/src/HttpResponse.cpp:38-59 | the first line is the version, a plain number that reads back as the status code, and the message; the reader gets the body, its length, and `keep-alive` iff the flag is set, else `close` |
| ResponseMeaning.CallerHeadersMean | epoll-http-server/src/HttpResponse.cpp:45-47 | each of the caller's headers is read back with its own value |
| Reactor.Channel.constructor | epoll-http-server/src/Channel.cpp:4-5 | no interest, not registered |
| Reactor.Channel.EnableReading | epoll-http-server/src/Channel.h:27-27 | one bit set, the table a mirror again, one entry changed, no epoll_ctl failed |
| Reactor.Channel.EnableWriting | epoll-http-server/src/Channel.h:28-28 | likewise |
| Reactor.Channel.DisableReading | epoll-http-server/src/Channel.h:29-29 | one bit cleared, likewise |
| Reactor.Channel.DisableWriting | epoll-http-server/src/Channel.h:30-30 | likewise |
| Reactor.Channel.DisableAll | epoll-http-server/src/Channel.h:31-31 | no interest and no table entry |
| Reactor.Channel.HandleEvent | epoll-http-server/src/Channel.cpp:7-27 | the one callback an event runs: reported, installed, and first among those |
| Reactor.ServerDispatch | epoll-http-server/src/Channel.cpp:7-27 | with the server's callbacks: write before read before close, exactly one, and none for an error alone |
| Reactor.EventLoop.UpdateChannel | epoll-http-server/src/EventLoop.cpp:48-63 | from a mirror but for one channel to a mirror; ADD only when absent, MOD and DEL only when present |
| Reactor.EventLoop.Quit | epoll-http-server/src/EventLoop.cpp:43-46 | flag stored, eventfd written |
| Reactor.EventLoop.RunInLoop | epoll-http-server/src/EventLoop.cpp:65-71 | on the loop's thread left to the caller to run at once, queued and woken otherwise |
| Reactor.EventLoop.QueueInLoop | epoll-http-server/src/EventLoop.cpp:73-79 | appended, eventfd written |
| Reactor.EventLoop.Wakeup | epoll-http-server/src/EventLoop.cpp:81-90 | the counter grows, or stays at its maximum, or there is no eventfd |
| Reactor.EventLoop.HandleWakeup | epoll-http-server/src/EventLoop.cpp:92-101 | the counter is emptied |
| Reactor.EventLoop.TakePending | epoll-http-server/src/EventLoop.cpp:103-108 | the whole queue is taken |
| LoopProtocol.InvKept | epoll-http-server/src/EventLoop.cpp:28-113 | every step of every thread keeps the protocol's invariant |
| LoopProtocol.ReachableStatesAreSafe | epoll-http-server/src/EventLoop.cpp:28-113 | over all runs: tasks exactly once and in order, each in the first drain after its push, no lost wakeup, quit flag true iff quit was called since the start, and the loop leaves only then |
| LoopProtocol.TaskRunsInTime | epoll-http-server/src/EventLoop.cpp:28-113 | a queued task has run after a stated number of the loop's own steps, whatever the others do, unless a quit was observed |
| LoopProtocol.NeverStuck | epoll-http-server/src/EventLoop.cpp:28-113 | with work or a quit outstanding, the loop or an eventfd write can always go on |
| LoopProtocol.QuitEndsTheTurn | epoll-http-server/src/EventLoop.cpp:28-46 | after a quit the loop leaves at most the wait it is in, and never waits again |
| LoopProtocol.QuitExitsInTime | epoll-http-server/src/EventLoop.cpp:28-46 | after a quit the loop has exited after a stated number of its own steps, plus one for each task pushed meanwhile |
| LoopProtocol.QuitBeforeStartIsLost | epoll-http-server/src/EventLoop.cpp:28-30 | a quit before the initial store is undone and the loop waits for ever |
| ThreadPool.EventLoopThreadPool.constructor | epoll-http-server/src/EventLoopThreadPool.cpp:6-7 | no loops yet |
| ThreadPool.EventLoopThreadPool.Begin | epoll-http-server/src/EventLoopThreadPool.cpp:13-20 | as many loops as threads, all new and different |
| ThreadPool.EventLoopThreadPool.GetNextLoop | epoll-http-server/src/EventLoopThreadPool.cpp:22-29 | pick number k is loop k modulo their number; the base loop without any |
| ThreadPool.PicksAreBalanced | epoll-http-server/src/EventLoopThreadPool.cpp:22-29 | after k picks each of n loops was picked k/n times, rounded down or up |
| ThreadPool.PicksGoRound | epoll-http-server/src/EventLoopThreadPool.cpp:22-29 | the first picks go through the loops in order, and every later one repeats the one a round before |
| HttpServerObject.HttpServer.constructor | epoll-http-server/src/HttpServer.cpp:10-10 | a new pool on the main loop with so many threads, and an empty table |
| HttpServerObject.HttpServer.OnNewConnection | epoll-http-server/src/HttpServer.cpp:39-66 | the next loop in turn gets the create functor queued and is woken, every other loop is left alone; without sub-loops the connection is created in the call |
| HttpServerObject.HttpServer.RunCreate | epoll-http-server/src/HttpServer.cpp:46-65 | a fresh open connection registered for reading, entered under its descriptor |
| HttpServerObject.HttpServer.RunErase | epoll-http-server/src/HttpServer.cpp:193-196 | the entry of that descriptor is gone, the others stay |
| HttpServerConnectionObject.Connection.constructor | epoll-http-server/src/HttpServer.cpp:46-59 | a fresh parser, an empty buffer, read, write and close callbacks installed, registered for reading only |
| HttpServerConnectionObject.Connection.RemoveConnection | epoll-http-server/src/HttpServer.cpp:180-197 | once: closing, deregistered, descriptor closed, erase functor queued; a second time nothing |
| HttpServerConnectionObject.Connection.SendResponse | epoll-http-server/src/HttpServer.cpp:148-177 | the specified state after one write of the printed response |
| HttpServerConnectionObject.Connection.OnRead | epoll-http-server/src/HttpServer.cpp:69-104 | the specified state after reading, parsing and answering |
| HttpServerConnectionObject.Connection.OnWrite | epoll-http-server/src/HttpServer.cpp:107-140 | the specified state after a write round, with the loop over short writes |
| HttpServerConnectionObject.Connection.OnClose | epoll-http-server/src/HttpServer.cpp:143-145 | removal |
| HttpServerConnectionObject.Connection.OnEvent | epoll-http-server/src/HttpServer.cpp:50-58 | which of write, read, close or nothing an event mask runs on a connection, with the callbacks it was given |
| HttpServerConnection.FlushMovesOctets | epoll-http-server/src/HttpServer.cpp:109-126 | writing moves octets from unsent to sent in order and changes nothing else |
| HttpServerConnection.EventKeepsInterest | epoll-http-server/src/HttpServer.cpp:69-197 | every callback keeps: reading always registered, writing iff something is unsent, nothing when closing |
| HttpServerConnection.InterestOverRun | epoll-http-server/src/HttpServer.cpp:69-197 | the same over every sequence of events |
| HttpServerConnection.ClosingIsFinal | epoll-http-server/src/HttpServer.cpp:180-197 | a closing connection is registered for nothing, so no run goes on after it, and it never regains interest |
| HttpServerConnection.BufferedRefinesDirect | epoll-http-server/src/HttpServer.cpp:107-177 | sent and unsent octets always make up the message; completion over any rounds equals one full write iff the first write was full or the flags agree |
| HttpServerConnection.AnswersAgree | epoll-http-server/src/HttpServer.cpp:94-177 | for parsed requests the two ways of sending always end in the same state |
| HttpServerConnection.BadRequestsAgreeIff | epoll-http-server/src/HttpServer.cpp:81-88 | for failed parses after a short write iff the failed request says close |
| HttpServerConnection.BadRequestKeptOpen | epoll-http-server/src/HttpServer.cpp:134-176 | requests for which the two ways differ |
| HttpServerConnection.InterveningReadKeepsIff | epoll-http-server/src/HttpServer.cpp:69-177 | an answered read leaves the earlier octets on their way, in order, iff none was unsent, or the kernel took a keep-alive response whole whose text commutes with them |
| HttpServerConnection.InterveningReadDropsUnsent | epoll-http-server/src/HttpServer.cpp:90-168 | after a short write the unsent octets are never sent, and a complete request is answered again |
| HttpServerConnection.FullWriteReorders | epoll-http-server/src/HttpServer.cpp:129-172 | after a full write instead, the unsent octets come behind the new response, and then the connection closes |
| HttpServerConnection.PipelinedReadLosesResponse | epoll-http-server/src/HttpServer.cpp:69-168 | a run of two reads from the start, for any request that fits one read, in which the first response is never sent |
| EndToEnd.CompleteAtLastChunk | epoll-http-server/src/HttpServer.cpp:81-92 | a request read in chunks is complete after the last one and not before |
| EndToEnd.ServerRefinesSequential | epoll-http-server/src/HttpServer.cpp:69-177 | over any fragmentation and any short writes: the callback gets each whole request once and in order, the octets sent and unsent are the callback's answers in order, printed and flagged with the request's keep-alive, and the connection closes exactly after the last one iff it is not keep-alive |
| EndToEnd.FullWriteCompletes | epoll-http-server/src/HttpServer.cpp:107-140 | a round in which the kernel takes everything completes the response |
| ConnectionMeaning.EventMeans | epoll-http-server/src/HttpServer.cpp:69-197 | from the environment's answers alone: exactly when an event closes the connection, which octets the kernel gets, and, if it stays open, what is still to be sent and what the parser holds |
| ConnectionMeaning.AnswersMean | epoll-http-server/src/HttpServer.cpp:81-104 | what is sent is the callback's answer, printed, with the request's persistence, or a closing 400; the callback is asked for complete requests only |
| ConnectionMeaning.FlushMeans | epoll-http-server/src/HttpServer.cpp:107-126 | the write loop sends as much as the kernel has room for in a row of writes, and ends as the first refusal says |
| Lifetime.StepKeeps | epoll-http-server/src/HttpServer.cpp:39-197 | every step of every loop whose insertion finds its slot empty keeps the lifetime invariant |
| Lifetime.OwnEraseIffSlotFree | epoll-http-server/src/HttpServer.cpp:61-64 | a step destroys connections only in order iff its insertion finds the slot empty |
| Lifetime.ServerLifetimesAreSafe | epoll-http-server/src/HttpServer.cpp:39-197 | over all runs: destruction only by the own loop's erase functor iff every insertion found its slot empty; then nothing dispatched is closed or destroyed, closes happen once, waiting loops have nothing to erase, every accepted descriptor is in one place |
| Lifetime.LifeAdvances | epoll-http-server/src/HttpServer.cpp:46-196 | a connection goes one way from queued to destroyed, keeps loop and descriptor, and is closed in one step only |
| Lifetime.HandOffIsBalanced | epoll-http-server/src/HttpServer.cpp:44-46 | after any run the accepted connections are spread evenly over the sub-loops |
| DescriptorReuse.EntryMeansEraseDue | epoll-http-server/src/HttpServer.cpp:186-196 | a descriptor without live connection has a table entry exactly while its erase functor is queued or about to be |
| DescriptorReuse.OrderKept | epoll-http-server/src/HttpServer.cpp:44-65 | when descriptors are handed off in order every insertion finds its slot empty, because the erase functor stays ahead of the creation in the same queue |
| DescriptorReuse.HandOffsInOrderAreSafe | epoll-http-server/src/HttpServer.cpp:39-197 | if every descriptor is handed off in order, all lifetime results hold over any run |
| DescriptorReuse.OneSubLoopOrder | epoll-http-server/src/HttpServer.cpp:186-196 | with one sub-loop a hand-off is in order iff the descriptor is not one between its close and the queueing of its erase functor |
| DescriptorReuse.OneSubLoopIsSafe | epoll-http-server/src/HttpServer.cpp:39-197 | with one sub-loop all lifetime results hold over any run without a hand-off in that moment |
| DescriptorReuse.EarlyHandOffGoesWrong | epoll-http-server/src/HttpServer.cpp:44-65 | after any hand-off out of order, steps of the target loop alone lead to an insertion into a taken slot |
| DescriptorReuse.HandOffIsSafeIff | epoll-http-server/src/HttpServer.cpp:44-65 | a hand-off is safe whatever the loops do next iff an entry the descriptor still has is due to be erased by a functor queued on its target |
| DescriptorReuse.AcceptIsSafeIff | epoll-http-server/src/HttpServer.cpp:39-197 | accept may return a descriptor, whatever the loops do next, iff the same holds at that moment |
| EarlyReuse.EarlyReuseDangles | epoll-http-server/src/HttpServer.cpp:188-196 | a run of two sub-loops with an early reuse after which epoll points to a destroyed connection |
| EarlyReuse.OneSubLoopDangles | epoll-http-server/src/HttpServer.cpp:186-196 | a run of one sub-loop with a reuse between close and queueing, with the same end |
| ServerRun.LifeRuns | epoll-http-server/src/HttpServer.cpp:39-197 | every run of the server is a run of the loops and the table, which close exactly when a callback does |
| ServerRun.StepKeeps | epoll-http-server/src/HttpServer.cpp:39-197 | what epoll reported is still registered when its turn in the batch comes, over every step of every loop |
| ServerRun.ConnectionsRunAlone | epoll-http-server/src/HttpServer.cpp:39-197 | over any interleaving, each connection goes through a run of its own events only, is closing exactly when the loops have closed its descriptor, and is in its epoll table exactly while it has interest |
| ServerRun.EveryClientIsServedInOrder | epoll-http-server/src/HttpServer.cpp:39-197 | over any interleaving of all loops, each polite client gets the callback's answers to its requests in order, and is closed exactly after the last one iff it is not keep-alive |
| ServerLoops.LoopsFollowProtocol | epoll-http-server/src/EventLoop.cpp:28-113 | what each loop of the server does is a run of the queue protocol with the same functors queued, run, under way and pending in the same drains, where a loop that waits with functors pending has a readable eventfd |
| ServerLoops.FunctorsRunInNextDrain | epoll-http-server/src/EventLoop.cpp:73-113 | the functors that create and erase connections run once each, in the order queued on their loop, each in the first drain begun after it was queued |

## Left out

- Reactor.EventLoop.RunInLoop: functors are names here, so on the loop's own thread it tells the caller to run the functor; `HttpServerObject.HttpServer.OnNewConnection` does.
- HttpServerObject.HttpServer.constructor: the acceptor and its callback are not part of this model; accepting is a step of `Lifetime` and a call of `OnNewConnection`.
- ServerLoops.LoopsFollowProtocol: `Lifetime` has no eventfd, so the protocol runs it gives write it right after each push; the two apart, in any interleaving, are in `LoopProtocol`.
- `db-engineering`: its headers declare interfaces whose bodies are still to be written.
- Sockets, binding, listening and the options of `Acceptor` and `Socket`: only the outcome of accept, read, write and close is modelled.
- `HttpContext`: it passes its calls through.
- `EventLoopThread`: starting and joining threads; the loops are taken as started.
- Destruction of the server, the pool and the loops, timeouts and graceful shutdown.
- The demo programs of stages 1 to 4 and the benchmark.
- Loop exit in `Lifetime`: sub-loops there run without end, since nothing stops them before the server is destroyed; quitting is in `LoopProtocol`.
- A failed eventfd creation in `LoopProtocol`: without an eventfd no wakeup arrives and tasks may wait for an unrelated event.
- The thread the functor runs on and the callbacks' own effects in `Reactor.EventLoop`: its methods are the atomic sections; their interleaving is in `LoopProtocol`.
- HTTP beyond the code: case-insensitive Connection values, trailing blanks, duplicate Content-Length headers and chunked bodies are not treated specially by the source, and the grammar says so.
