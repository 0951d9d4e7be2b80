# Verified model of the proactor web backend

This project models, in Dafny, the concurrent and stateful core of a C++ web backend: an epoll event
loop that does all socket I/O, a pool of worker threads that parse requests and print responses, two
connection pools, a cache-aside resource service, an asynchronous logger, and the codec for object and
cache keys. `dafny verify dfyconfig.toml` checks everything.

## How it is organised

| file | what it covers |
|---|---|
| `Runs.dfy` | runs of a step system, invariants over runs, sums over threads |
| `Text.dfy` | the C string and decimal helpers |
| `HttpParser.dfy` | what the incremental request parser computes, on the untouched byte stream |
| `RequestReader.dfy` | the parser as written: a fixed buffer, overwritten in place, with cursors |
| `HttpRequest.dfy` | every request a client can write, and what the endpoint table makes of it |
| `HttpResponse.dfy` | the responses, and a client that reads them back |
| `ResponseWriter.dfy` | the bounded printer and the `writev` loop |
| `HttpConn.dfy` | the connection object: `process`, `write`, and a whole exchange |
| `HttpSession.dfy` | a keep-alive connection over all its reads |
| `HttpLockstep.dfy` | when the requests the server finds are the requests the client sent |
| `ThreadPool.dfy` | the worker pool, including its shutdown |
| `Proactor.dfy` | the event loop composed with the worker pool |
| `Server.dfy` | the event loop and the workers moving the contents of the connections |
| `ConnectionPool.dfy` | the PostgreSQL pool |
| `RedisPool.dfy` | the Redis context pool |
| `ResourceStore.dfy`, `ResourceService.dfy` | the table, and the cached service in serial runs |
| `CacheRaces.dfy` | the cached service under concurrency |
| `Logger.dfy` | the asynchronous logger |
| `ObjectKeys.dfy` | file names, object keys, public URLs, cache keys |

Concurrent components are deterministic step functions `Step(state, action)` that answer `None` when an
action is not enabled; the action names the thread and every choice of the environment, so a sequence
of actions is one interleaving and a theorem over all sequences is a theorem over all interleavings.
Semaphore operations, lock operations, queue operations and counter updates are separate steps where
another thread could see the difference. Objects that the source updates in place are classes, and their
methods are proved against the functions or the machine steps they stand for.

Main results:

- **One owner per connection.** In every interleaving of the event loop and any number of workers each
  descriptor is in exactly one hand (`Proactor.SingleOwner`). No request is ever lost to a refused `append`
  if and only if the descriptors below `max_fd` that the process does not hold for other purposes are no
  more than `max_requests` (`Proactor.NoRequestLostIff`); `max_fd <= max_requests` suffices.
- **A request is served the same however it is cut.** For every split into reads the header phase ends
  with the same result and fields (`HttpParser.FragmentationIndependence`), which is proved of the in-place
  parser for every split and every kind of request (`RequestReader.Reader.ServeInPieces`). A request with a
  body is decided on the bytes received when its headers are complete, and `HttpParser.SplitOutcome` says
  for exactly which cuts that is the outcome of the whole request.
- **Every request meets its endpoint.** Whatever the method word, the path, the header lines and their
  order, the declared length and the bytes behind the blank line, the outcome is the one the endpoint table
  and the declared length give (`HttpRequest.RequestRouted`).
- **Responses arrive.** From the first byte read to the last byte written the client reads exactly the answer
  to the request the server found (`HttpConn.Connection.Serve`), and over a whole connection all answers in
  order (`HttpSession.ServeAll`). For a client that waits for each answer, the requests found are the requests
  sent if and only if no body comes in a later read than the end of its headers
  (`HttpLockstep.ClientServedIff`).
- **The server as a whole.** With every thread working on its own copies, in every interleaving no work is
  lost, and what each connection has sent and has still to send are the responses to its own reads, in order
  (`Server.NoWorkLost`, `Server.EveryConnectionAnswered`). A connection is closed only for one of four reasons
  (`Server.ClosedOnlyFor`), and otherwise carries any number of requests (`Server.KeptThroughout`).
- **Pools lose nothing.** Connections, contexts and tasks are each in one place at every step, no wakeup
  is lost, with ten threads and ten slots nobody ever waits, with more threads nobody is ever stuck, and
  shutdown completes.
- **The cache never lies in serial runs, and for three reasons only in concurrent ones**
  (`ResourceService.SerialRefinement`, `CacheRaces.StaleOnlyFor`, `CacheRaces.EveryCauseOccurs`).

## Facts about the code that the theorems state as they are

- An incomplete body is answered with BAD_REQUEST instead of being waited for
  (src/network/http_conn.cpp:484). Cutting the stream is therefore harmless in the request line and the
  headers; `HttpParser.BodySplitMatters` says exactly which cuts of a body are.
- A malformed line ending makes `process_read` ask for more input (src/network/http_conn.cpp:302), and for
  ever: a paused request is never answered, whatever else arrives, if and only if it paused at a malformed
  line ending (`HttpParser.ServerNeverAnswersIff`; `HttpRequest.UnixLineEndings` is an instance).
- The terminator behind the body is stored at an offset the client declares (src/network/http_conn.cpp:464-465).
  For a request that reaches the body phase C++ leaves the outcome open if and only if body start plus
  declared length is negative or above INT_MAX (`HttpRequest.UnspecifiedIff`;
  `HttpRequest.NegativeLengthUnspecified` is an instance). Smaller negative lengths cut an earlier line and
  hand over the text up to its first NUL (`HttpParser.BodyIsExact`).
- What is left to send is computed as an `int`, and tested only behind the first iovec
  (src/network/http_conn.cpp:186-205). A response is never declared finished early, whatever the short
  writes, if and only if its second part, the JSON body, has at most INT_MAX bytes
  (`ResponseWriter.CountersSufficeIff`).
- Between requests `init()` forgets the bytes received behind the answered one (src/network/http_conn.cpp:242;
  `RequestReader.Reader.Reset`). Bytes that are still in the socket are not forgotten: the next read brings
  them, and they are parsed as the start of the next request (`HttpSession.Starts`). A body that comes in a
  later read than its headers therefore spoils the request behind it: `HttpLockstep.OutOfStep` is an
  instance, `HttpLockstep.ClientServedIff` the exact condition.
- The documented endpoints for creating and updating a resource answer 404 when the body is empty
  (src/network/http_conn.cpp:419-425); all other endpoints behave as the API table says, by path prefix
  (`HttpRequest.CompleteRequestServed`).
- An unknown method word runs as GET (src/network/http_conn.cpp:343-351; `HttpRequest.UnknownMethodRunsAsGet`).
- The results of cache deletes are ignored (src/service/resource_service.cpp:59, 178-179, 217-218), which is
  one of the three causes in `CacheRaces.StaleOnlyFor`.
- The list query has no order (src/dao/resource_dao.cpp:103-105), so lists are multisets.
- Titles and contents are bound as C strings (src/dao/resource_dao.cpp:62-67), so they end at their first NUL.
- Object keys are injective for every timestamp, negative ones included.

## Assumptions about the environment

- `recv` returns at most the requested length, and 0 for a request of length zero; `writev` returns an error or
  at most what is offered, and never more than 0x7ffff000; both may otherwise slice the data in any way.
- A one-shot descriptor reports nothing until it is armed again, and appears at most once per `epoll_wait`
  batch; `accept` returns a descriptor that is neither open nor held by the process for other purposes, and
  can return any such one.
- A handler returns one of its own result codes with any JSON text, or throws; nothing else is known about it.
- Parsing a dumped JSON text gives back the value. Identity ids are never reused (db/schema.sql:9).
- A database statement that reports failure had no effect.
- Bytes are characters, and a `char*` is the text before its terminator. `int` and `long` are bounded
  explicitly where the code narrows or saturates.

## Model

| member | source | states |
|---|---|---|
| `Text.AtolReadsToString` | src/network/http_conn.cpp:437-440 | reading a printed `int` back through `atol` and the narrowing to `int` gives the same number |
| `Text.DeclaredLength` | src/network/http_conn.cpp:437-440 | a declared length is taken as written up to INT_MAX, wrapped around up to LONG_MAX, and is -1 beyond |
| `Text.CapitalsSame` | src/network/http_conn.cpp:343-351 | a text and the same in capitals do not differ for the comparisons that ignore case |
| `HttpParser.ScanLine` | src/network/http_conn.cpp:306-329 | where a scan stops: a reported line ends in CR LF with no break before it, an open one consumed everything but a trailing CR |
| `HttpParser.RawParseLineIsScan` | src/network/http_conn.cpp:306-329 | under the parser's invariant the overwriting scanner, with all its branches, is the pure one, and the LF-after-CR branch (320-324) is never taken |
| `HttpParser.HeaderPhaseResumes` | src/network/http_conn.cpp:256-303 | parsing a prefix first changes nothing: a result is final, and a pause resumes to the result on the longer stream |
| `HttpParser.FragmentationIndependence` | src/network/http_conn.cpp:138-303 | for every split of a stream into reads, the first result of the header phase and all parsed fields equal those of a single read |
| `HttpParser.NextChunk` | src/network/http_conn.cpp:138-303 | one more read continues as if everything had arrived at once |
| `HttpParser.HeaderPhaseCut` | src/network/http_conn.cpp:256-303 | a result of the header phase depends only on the bytes up to where it stopped |
| `HttpParser.BodyPhaseNeverPauses` | src/network/http_conn.cpp:287-302 | the body phase never asks for more input, so a call never starts in the CONTENT state |
| `HttpParser.BodyIsExact` | src/network/http_conn.cpp:463-485 | for every declared length and body: unspecified exactly when the declared end is no position of the buffer, BAD_REQUEST exactly when it has not been received, and otherwise the handler gets the declared bytes (for a negative length, everything received) up to the first NUL |
| `HttpParser.BodySplitMatters` | src/network/http_conn.cpp:463-485 | a request with a body that is decided on a prefix gets the outcome of the whole stream if and only if the prefix reaches the declared end, or the whole stream does not, or the end is no position of the buffer (with the exact condition for negative lengths) |
| `HttpParser.SeenSuffices` | src/network/http_conn.cpp:256-303 | for any split, the bytes received when the headers are complete are a prefix of the stream with the same header phase |
| `HttpParser.SplitOutcome` | src/network/http_conn.cpp:256-303 | for any split, the outcome is that of the whole stream if and only if no body follows or the deciding read cuts it harmlessly |
| `HttpParser.BadLineIsFinal` | src/network/http_conn.cpp:306-329 | a pause at a malformed line ending is permanent: no later bytes change the parser state |
| `HttpParser.OpenLineCompletes` | src/network/http_conn.cpp:306-329 | a pause on an open line can be ended: closing the line and the headers gives a result |
| `HttpParser.NeverAnsweredIff` | src/network/http_conn.cpp:256-329 | for every grammar whose blank line decides, a paused request is never answered, whatever else arrives, if and only if the pause is at a malformed line ending |
| `HttpParser.ServerNeverAnswersIff` | src/network/http_conn.cpp:256-329 | the same for the server's own lines |
| `RequestReader.LineTerminated` | src/network/http_conn.cpp:313-316 | overwriting the CR LF turns the line into a C string and leaves everything before and behind it as it was |
| `RequestReader.BodyTerminated` | src/network/http_conn.cpp:464-465 | a terminator at an offset inside the buffer turns the buffered body into a C string; one before the body changes nothing of it |
| `RequestReader.RepresentsFrame` | src/network/http_conn.cpp:334-457 | the pointers into the buffer keep denoting the same strings under every write above them |
| `RequestReader.Reader.constructor` | src/network/http_conn.cpp:231-253 | a new reader is valid, empty and in the initial parser state |
| `RequestReader.Reader.Reset` | src/network/http_conn.cpp:231-253 | forgets the request and every byte behind it, and is ready for the next one |
| `RequestReader.Reader.Read` | src/network/http_conn.cpp:138-157 | however the kernel slices the data, the call succeeds exactly when the socket runs dry with room left, and then holds all of it with a byte to spare |
| `RequestReader.Reader.ParseLine` | src/network/http_conn.cpp:306-329 | the loop computes the overwriting scan, for any buffer contents |
| `RequestReader.Reader.NextLine` | src/network/http_conn.cpp:262-266 | scans on the stream and leaves the complete line as a C string before the new cursor |
| `RequestReader.Reader.ParseRequestLine` | src/network/http_conn.cpp:334-358 | the in-place split of the request line yields the fields the specification reads from the text, touching only that line |
| `RequestReader.Reader.ParseTarget` | src/network/http_conn.cpp:353-396 | target, version and route marker, as the specification reads them |
| `RequestReader.Reader.NormaliseTarget` | src/network/http_conn.cpp:385-395 | absolute-form targets lose scheme and authority by moving the pointer, and every accepted target starts with a slash |
| `RequestReader.Reader.ParseHeader` | src/network/http_conn.cpp:428-456 | each header line changes the one field it is about |
| `RequestReader.Reader.ConsumeLine` | src/network/http_conn.cpp:267-286 | one complete line has the effect the specification gives it, in either phase |
| `RequestReader.Reader.ParseContent` | src/network/http_conn.cpp:463-485 | the body outcome is the specified one, with the terminator stored inside the buffer whenever the declared end is a position of it |
| `RequestReader.Reader.ProcessRead` | src/network/http_conn.cpp:256-303 | the loop terminates with the specified outcome and parser state, and is ready to resume whenever it asks for more |
| `RequestReader.Reader.ServeInPieces` | src/network/http_conn.cpp:138-303 | `read` and `process_read` in turn over any reads end in the state and fields of one read, with the outcome decided on the bytes received when the headers are complete |
| `HttpRequest.RouteExact` | src/network/http_conn.cpp:362-383 | each route marker is set exactly for its own path: the overlapping tests are exclusive |
| `HttpRequest.RequestReadsBack` | src/network/http_conn.cpp:334-457 | parsing any request in origin form takes its request line and header lines in order and stops at the body |
| `HttpRequest.HeadersKeep` | src/network/http_conn.cpp:398-457 | no header touches what the request line set |
| `HttpRequest.NameInCapitals` | src/network/http_conn.cpp:428-447 | header names are read in any case |
| `HttpRequest.ValueTrimmed` | src/network/http_conn.cpp:429-449 | a header's value is what follows its name without leading spaces and tabs |
| `HttpRequest.HeaderMeanings` | src/network/http_conn.cpp:428-455 | only keep-alive and close, in any case, change the persistence; only a Bearer authorization gives a token, all that follows |
| `HttpRequest.RequestLineAcceptedIff` | src/network/http_conn.cpp:334-396 | a request line is accepted if and only if it is three words, each ended by one space or tab: a method, a path or http URL with a path, and HTTP/1.1 in any case |
| `HttpRequest.PathOfTarget` | src/network/http_conn.cpp:385-392 | the path used is the target itself, or what follows the authority of an absolute one |
| `HttpRequest.LastLengthCounts` | src/network/http_conn.cpp:437-440 | whatever the headers and their order, the length that counts is that of the last Content-Length line |
| `HttpRequest.RequestRouted` | README.md:159-186 | for any method word, path, header lines in any order, declared length and body bytes, the outcome is the one the endpoint table and the declared length give to the method the word selects |
| `HttpRequest.MethodWordsExact` | src/network/http_conn.cpp:343-351 | each of the four method words, in any case, selects its own method of the endpoint table |
| `HttpRequest.UpdateAndDelete` | src/network/http_conn.cpp:401-406 | a delete of a resource reaches the delete handler, and a complete update the update handler with its body |
| `HttpRequest.CompleteRequestServed` | README.md:159-186 | a complete request reaches exactly the handler the endpoint table names, with its body, and 404 otherwise; empty creates and updates are the one exception |
| `HttpRequest.UnknownMethodRunsAsGet` | src/network/http_conn.cpp:343-351 | a method word outside the four known ones is served as GET |
| `HttpRequest.UnspecifiedIff` | src/network/http_conn.cpp:464-465 | the outcome is unspecified if and only if the request reaches the body phase and its declared end is negative or above INT_MAX |
| `HttpRequest.NegativeLengthUnspecified` | src/network/http_conn.cpp:464-465 | an instance: a login with Content-Length: -100 and no other header |
| `HttpRequest.BareLineFeedNeverAnswered` | src/network/http_conn.cpp:319-326 | a stream whose first line ends in a bare LF is never answered, whatever the line and whatever follows |
| `HttpRequest.UnixLineEndings` | src/network/http_conn.cpp:319-326 | an instance: a health check with Unix line endings |
| `HttpRequest.TypicalRequestReadsBack` | src/network/http_conn.cpp:334-457 | round trip for a client that sends host, persistence, token and length: every field is the one it wrote |
| `HttpResponse.EveryReplyFits` | src/network/http_conn.cpp:887-977 | every printable response, whatever its body, ends at or before offset 1022 of the write buffer |
| `HttpResponse.LengthHeaderReadsBack` | src/network/http_conn.cpp:992-994 | the printed Content-Length, read with the server's own header rules, is the number printed |
| `HttpResponse.LingerHeaderReadsBack` | src/network/http_conn.cpp:997-1000 | the printed Connection header reads back as the persistence flag |
| `HttpResponse.ResponseReadsBack` | src/network/http_conn.cpp:887-1022 | a client that reads the announced number of bytes recovers exactly the status of the code, the persistence and the body, which is the JSON text whenever the code answers one, whatever follows on the connection |
| `HttpResponse.HeadLines` | src/network/http_conn.cpp:981-1015 | a printed response begins with its status line, its length, type and connection headers, and a blank line |
| `HttpResponse.NotFoundSays` | src/network/http_conn.cpp:925-931 | the status line, media type and text of a 404 |
| `HttpResponse.ForbiddenSays` | src/network/http_conn.cpp:932-938 | the status line, media type and text of a 403 |
| `HttpResponse.InternalErrorSays` | src/network/http_conn.cpp:907-913 | the status line, media type and text of a 500 |
| `HttpResponse.BadRequestSays` | src/network/http_conn.cpp:914-924 | the status line of a 400, with the JSON text if there is one and the plain text otherwise |
| `HttpResponse.SuccessSays` | src/network/http_conn.cpp:939-946 | the four success codes are a 200 with the JSON text |
| `HttpResponse.SaidOnTheWire` | src/network/http_conn.cpp:887-1022 | so it is on the wire: the lines of the head, and a message with that status and body |
| `ResponseWriter.Writer.AddResponse` | src/network/http_conn.cpp:960-977 | text is appended exactly if it leaves the index at or below 1022, and otherwise nothing is kept, for every index |
| `ResponseWriter.Writer.AddHeaders` | src/network/http_conn.cpp:1010-1015 | all four header lines or a failure, in order |
| `ResponseWriter.Writer.SendJson` | src/network/http_conn.cpp:889-903 | succeeds exactly if the headers fit, and then the two iovecs hold the response |
| `ResponseWriter.Writer.SendPlain` | src/network/http_conn.cpp:907-953 | for text that fits, the one iovec holds the response, although two results are ignored |
| `ResponseWriter.Writer.ProcessWrite` | src/network/http_conn.cpp:887-955 | fails only for the two codes that are no response, and otherwise leaves exactly the response for the code to be sent |
| `ResponseWriter.Writer.Advance` | src/network/http_conn.cpp:183-201 | the iovecs are left with exactly the rest, wherever the short write stopped |
| `ResponseWriter.Writer.SendSome` | src/network/http_conn.cpp:172-205 | one `writev`: the next bytes of the response and no others go out; inside the first iovec the loop goes on untested, behind it the `int` of what is left is tested |
| `ResponseWriter.Writer.Flush` | src/network/http_conn.cpp:171-216 | over any sequence of short writes exactly the next bytes of the response go out, as many as the loop takes; finished and paused exactly as that loop decides |
| `ResponseWriter.PushedExact` | src/network/http_conn.cpp:171-216 | for a response whose body has at most INT_MAX bytes the loop sends what the socket took, and finishes exactly when that is all of it |
| `ResponseWriter.CountersSufficeIff` | src/network/http_conn.cpp:160-205 | a response with a header is never declared finished early, whatever the short writes, if and only if its second part has at most INT_MAX bytes |
| `HttpConn.AnswerIsPrintable` | src/network/http_conn.cpp:101-135 | no outcome of `process_read`, exceptions included, leads to a code that cannot be printed |
| `HttpConn.AnswerSays` | src/network/http_conn.cpp:101-135 | unknown routes and malformed requests get their own codes, an exception is an internal error, and otherwise the handler's result stands |
| `HttpConn.Connection.constructor` | src/network/http_conn.cpp:96-97 | a new connection is armed for input with everything reset |
| `HttpConn.Connection.Respond` | src/network/http_conn.cpp:120-135 | a worker never closes a connection; the complete response is ready and arming for output is the last step |
| `HttpConn.Connection.Process` | src/network/http_conn.cpp:101-135 | the specified outcome; then armed for input and ready to resume, or the response complete and armed for output: NO_RESOURCE for what is not found, BAD_REQUEST for what is malformed, INTERNAL_ERROR for an exception, and otherwise the handler's own code and JSON text |
| `HttpConn.Connection.Write` | src/network/http_conn.cpp:160-217 | goes on exactly where the response stopped; armed for input exactly when it is declared finished, for output exactly on a pause; keep-alive decides between reset and close |
| `HttpConn.Connection.Deliver` | src/network/http_conn.cpp:160-217 | over repeated calls the wire shows a prefix of the response, nothing twice or out of order; a finished keep-alive response leaves the connection as new |
| `HttpConn.DeliveredExact` | src/network/http_conn.cpp:160-217 | over repeated calls a response with a body of at most INT_MAX bytes is finished exactly when all of it is out, and without a broken socket exactly as much is out as the socket took |
| `HttpConn.Connection.Receive` | src/network/http_conn.cpp:101-157 | whatever the reads, the request takes those up to the one that completes its headers and is decided on them, and nothing is sent before; if they do not fit the buffer a read fails first |
| `HttpConn.Connection.Serve` | src/network/http_conn.cpp:101-217 | for every sequence of reads, every handler and every sequence of short writes: which reads the request takes; the wire shows a prefix of the response to them; finished means the client reads exactly its status, persistence and body; a kept connection is as new |
| `HttpSession.TranscriptReadsBack` | src/network/http_conn.cpp:887-1022 | whatever follows them, a client reads a series of responses back one by one |
| `HttpSession.ServeAll` | src/network/http_conn.cpp:101-253 | over a whole connection the reads are taken request by request; the wire shows the responses to the requests so found in order and a part of the next; a client reads exactly those answers in order; the session stops only at a request to close or an exchange that does not complete |
| `HttpSession.ServeOne` | src/network/http_conn.cpp:101-253 | one exchange of a session: where the next request starts, and what is added to the wire |
| `HttpSession.ClientSees` | src/network/http_conn.cpp:101-135 | of every request served the client reads 404 if it was not found, 400 if it was malformed, 500 if its handler threw, and otherwise the status of the handler's code with its JSON text |
| `HttpLockstep.InStepIff` | src/network/http_conn.cpp:138-253 | the server finds exactly the requests of a client that waits for its answers if and only if each is decided by its last read |
| `HttpLockstep.UndecidedIff` | src/network/http_conn.cpp:256-303 | a prefix of a request is undecided exactly while its headers are not complete |
| `HttpLockstep.WholeIff` | src/network/http_conn.cpp:463-485 | a request is decided by its last read if and only if its headers are not complete before it |
| `HttpLockstep.ClientServedIff` | src/network/http_conn.cpp:138-253 | the server finds exactly the client's requests if and only if no body comes in a later read than the end of its headers, and then every request meets the fate the endpoint table gives it |
| `HttpLockstep.UnknownRouteReads404` | src/network/http_conn.cpp:424-425 | whatever its method, headers and reads, a request without a body for a path that is none of the API's is answered with status 404 |
| `HttpLockstep.MalformedLineReads400` | src/network/http_conn.cpp:334-392 | whatever its reads, a request whose first line is not a request line is answered with status 400 |
| `HttpLockstep.LeftoverJoins` | src/network/http_conn.cpp:334-351 | bytes left over in front of a request become the start of its method word |
| `HttpLockstep.OutOfStep` | src/network/http_conn.cpp:242-484 | an instance: a login whose body comes late is refused, and the complete login behind it is not found |
| `ThreadPool.QueueAccounting` | src/thread/threadpool.h:80-120 | in every run: tasks leave in append order, each once; before shutdown the queue length is permits + workers between acquire and pop + a pending release; no worker finds the queue empty |
| `ThreadPool.PopFindsTask` | src/thread/threadpool.h:104-113 | a worker at the lock before shutdown gets the oldest accepted task that was not taken |
| `ThreadPool.InvStep` | src/thread/threadpool.h:80-120 | every step keeps the accounting, and after the stop permits cover every worker still in acquire |
| `ThreadPool.JoiningStep` | src/thread/threadpool.h:97-120 | once permits are released every step uses up remaining work |
| `ThreadPool.JoiningNotStuck` | src/thread/threadpool.h:68-76 | while a worker is left, some worker can move |
| `ThreadPool.ShutdownCompletes` | src/thread/threadpool.h:68-76 | no run of the shutdown exceeds the remaining work, and a run that cannot go on has every worker out of the loop |
| `ThreadPool.Pool.constructor` | src/thread/threadpool.h:48-63 | starts in the initial machine state |
| `ThreadPool.Pool.Append` | src/thread/threadpool.h:80-92 | refuses exactly when the queue is full, and is the machine's submit, push and post |
| `ThreadPool.Pool.Take` | src/thread/threadpool.h:104-113 | the locked section is the machine's pop |
| `Proactor.InvStep` | src/main.cpp:140-181 | every step of main or a worker keeps each open connection in exactly one place and the user count equal to the open connections |
| `Proactor.SingleOwner` | src/main.cpp:140-181 | in every interleaving each descriptor is in exactly one of closed, armed, with main, queued, with a worker, or stranded by a refused append; no duplicates in the queue, no two workers on one connection |
| `Proactor.QueueBelowOpen` | src/main.cpp:160-171 | while main appends, the queue is shorter than the number of open connections, which is at most the number of descriptors a connection can get |
| `Proactor.AppendNeverRejects` | src/main.cpp:160-171 | when the descriptors a connection can get are no more than the queue limit, append accepts in every reachable state and nothing is ever stranded, so ignoring its result loses no request |
| `Proactor.DefaultLimitsSuffice` | src/main.cpp:71-79 | that is so whenever `max_fd <= max_requests`, 4096 and 10000 by default, whatever else the process holds |
| `Proactor.RejectionReachable` | src/main.cpp:169-174 | with one more usable descriptor than the queue takes, some run loses a connection to a refused append |
| `Proactor.NoRequestLostIff` | src/main.cpp:160-174 | no run loses a request if and only if the queue limit covers every descriptor below `max_fd` that the process does not hold otherwise |
| `Server.InvStep` | src/main.cpp:140-181 | every step of any thread, with its effect on the contents, keeps every connection consistent with where it is |
| `Server.NoWorkLost` | src/main.cpp:140-181 | in every interleaving the copy a thread works on is the connection itself when it is written back |
| `Server.EveryConnectionAnswered` | src/main.cpp:140-181 | in every interleaving, for every live connection: its reads were taken request by request, what was and is still to be sent are the responses to those requests in order, and a client reads exactly those answers |
| `Server.ClosesForCause` | src/main.cpp:167-179 | the event loop turns to closing a connection only after a hangup, a failed read, a write that failed on a broken socket, or a complete response to a request that asked for it |
| `Server.ClosedOnlyFor` | src/main.cpp:140-181 | in every run, a connection that is no longer open has met one of these four reasons on the way |
| `Server.KeptThroughout` | src/main.cpp:140-181 | for any number of complete keep-alive requests there is a run in which one connection carries them all: its wire is all the responses in order, and it is still open and waiting |
| `Server.StepsDefined` | src/main.cpp:140-181 | only the environment keeps a step from happening: the copies are always there and in the state the step needs |
| `Server.ProcessedOk` | src/network/http_conn.cpp:101-135 | processing a read resumes the parser as if the request had come at once, and appends the response to it |
| `Server.WroteOk` | src/network/http_conn.cpp:160-217 | a write call moves bytes from what is unsent to the wire and leaves the connection ready for what is armed |
| `ConnectionPool.InvStep` | src/db/connection_pool.cpp:64-95 | every semaphore, lock, queue and counter step keeps the accounting |
| `ConnectionPool.PoolAccounting` | src/db/connection_pool.cpp:26-95 | queue length = permits + threads in transit; the empty branch is dead; each connection idle once or held by one thread; the counters add up to the pool size whenever the lock is free |
| `ConnectionPool.NeverEmpty` | src/db/connection_pool.cpp:67-74 | a thread that holds a permit finds a connection |
| `ConnectionPool.AcquireNeverBlocks` | src/main.cpp:79-92 | with no more threads than connections no thread ever blocks in acquire |
| `ConnectionPool.WaiterNotStuck` | src/db/connection_pool.cpp:64-95 | with any number of threads, while a permit is missing some thread that holds one can move |
| `ConnectionPool.PermitsReturn` | src/db/connection_pool.cpp:64-95 | without new acquires every run is bounded, and one that cannot go on has every permit back |
| `ConnectionPool.Pool.constructor` | src/db/connection_pool.cpp:5-8 | a new pool holds nothing |
| `ConnectionPool.Pool.Open` | src/db/connection_pool.cpp:26-61 | opens the configured number of connections, which is the initial machine state, exactly when every attempt succeeds; otherwise the process ends |
| `ConnectionPool.Pool.Get` | src/db/connection_pool.cpp:64-80 | takes the oldest idle connection, as the thread's five machine steps; without a permit the caller stays blocked and nothing changes |
| `ConnectionPool.Pool.Put` | src/db/connection_pool.cpp:83-95 | returns it behind the others, as the thread's five machine steps |
| `ConnectionPool.Pool.RunStatement` | src/dao/resource_dao.cpp:11-22 | after an answer, an early return or an exception the lease guard has returned the connection: permits and threads as before, the queue rotated by one |
| `RedisPool.InvStep` | src/cache/redis_client.cpp:145-211 | every step keeps ownership, slots, the lock discipline and the wakeup bound |
| `RedisPool.ContextOwnership` | src/cache/redis_client.cpp:145-211 | each context ever created is idle, in one thread's hands or freed once; slots make up the pool size while available; unavailable and unlocked means empty, and with all leases returned every context has been freed |
| `RedisPool.NoLostWakeup` | src/cache/redis_client.cpp:145-202 | while a thread sleeps, idle contexts are covered by pending notifies and woken threads, and some thread can act on them; after going unavailable a notify_all is still coming and leaves nobody asleep |
| `RedisPool.GetNeverWaits` | src/main.cpp:79-92 | with no more threads than contexts nobody ever sleeps, and get_connection returns a context at once while Redis is available |
| `RedisPool.NotStuck` | src/cache/redis_client.cpp:145-211 | with any number of threads, while one is inside a call or asleep some thread can proceed |
| `RedisPool.FailureGivesUp` | src/cache/redis_client.cpp:189-199 | a thread whose replacement failed does nothing else before it has made the pool unavailable |
| `RedisPool.UnavailableForEver` | src/cache/redis_client.cpp:145-202 | once unavailable, no run makes the pool available again and nobody gets a context |
| `RedisPool.Client.constructor` | src/cache/redis_client.h:44-46 | a new client is unavailable and owns nothing |
| `RedisPool.Client.ClearPool` | src/cache/redis_client.cpp:205-211 | frees every idle context once, in order |
| `RedisPool.Client.Open` | src/cache/redis_client.cpp:26-59 | frees what the pool held; available with ten new contexts exactly when all ten connections succeed, otherwise everything opened is freed again; on a new client a success is the initial machine state |
| `RedisPool.Client.GetLocked` | src/cache/redis_client.cpp:145-162 | for a caller and for a woken thread: refused, asleep or leased, as the machine's step |
| `RedisPool.Client.ReleaseLocked` | src/cache/redis_client.cpp:165-181 | pooled and to be notified while available, freed otherwise: the machine's step |
| `RedisPool.Client.GiveUpLocked` | src/cache/redis_client.cpp:195-199 | going unavailable frees every idle context inside the lock, as a run of machine steps |
| `ResourceStore.UntouchedKeys` | src/service/resource_service.cpp:45-68 | a write changes a cacheable answer only for the keys it invalidates; create needs no resource key |
| `ResourceStore.WriteEffect` | src/dao/resource_dao.cpp:46-302 | a committed write makes its own item what was written, texts ending at their first NUL, or removes it, and changes no other item of anybody |
| `ResourceStore.ListEffect` | src/dao/resource_dao.cpp:91-144 | the user's list trades the old item for the new one and nothing else |
| `ResourceService.ServeRefines` | src/service/resource_service.cpp:45-227 | one call keeps the cache coherent, moves the database as without a cache, and answers as without a cache |
| `ResourceService.SerialRefinement` | src/service/resource_service.cpp:45-227 | for every sequence of calls by any users, with entries expiring and Redis refusing reads and fills at any moment, the cached service answers exactly as the uncached one |
| `ResourceService.ReadYourWrites` | src/service/resource_service.cpp:108-227 | a read behind a write that answered with a status sees it, whatever expired in between |
| `ResourceService.StatusIff` | src/service/resource_service.cpp:45-227 | a write answers with a status exactly when there is no fault and, but for a create, the row is owned and its object, if any, is gone; and then it has committed |
| `ResourceService.FilledThenHit` | src/service/resource_service.cpp:71-137 | what a read filled in answers the next read even while the database fails |
| `ResourceService.OtherEntriesStay` | src/service/resource_service.cpp:45-227 | a write leaves every cache entry of other users and of other resources |
| `ResourceService.Backend.constructor` | db/schema.sql:8-14 | an empty table and cache are coherent |
| `ResourceService.Backend.FetchRows` | src/dao/resource_dao.cpp:127-136 | the row loop returns the user's items, each once, in whatever order the database chose |
| `ResourceService.Backend.BuildList` | src/service/resource_service.cpp:86-96 | the list built from the rows is the database's answer |
| `ResourceService.Backend.GetResources` | src/service/resource_service.cpp:71-105 | hit, failure, or miss with fill: the specified call |
| `ResourceService.Backend.GetResource` | src/service/resource_service.cpp:108-137 | an item exactly on a hit or when the database answers and the user owns the row, and then that row; otherwise the fault or not found; and the specified effect on the cache |
| `ResourceService.Backend.GetFileDownloadUrl` | src/service/resource_service.cpp:140-162 | the stored URL of an owned file, with its two refusals and the fault; never uses the cache |
| `ResourceService.Backend.CreateResource` | src/service/resource_service.cpp:45-68 | without a fault one new row with the texts given, the next id used up, the user's list key and no other deleted, and "created"; with a fault nothing |
| `ResourceService.Backend.UpdateResource` | src/service/resource_service.cpp:165-188 | "updated" exactly when there is no fault and the user owns the row, which then holds the new texts, with both keys deleted; otherwise nothing changes |
| `ResourceService.Backend.DeleteResource` | src/service/resource_service.cpp:191-227 | "deleted" exactly when there is no fault, the user owns the row and its object, if any, is gone; then the row is gone and both keys are deleted; otherwise nothing changes |
| `CacheRaces.InvStep` | src/service/resource_service.cpp:45-227 | every step of any thread keeps each entry genuine, within its time to live, and excused for every later commit that owes its key a delete |
| `CacheRaces.ChangeHasCommit` | src/service/resource_service.cpp:45-227 | between two versions a cacheable answer changes only through a commit that owes its key a delete |
| `CacheRaces.StaleOnlyFor` | src/service/resource_service.cpp:71-227 | in every interleaving an entry is an answer the database gave and was filled less than 300 seconds ago, a list less than 120; if it is not the current answer, a later commit's delete of its key is pending, failed, or came before a fill from an older read |
| `CacheRaces.LivesItsTime` | src/cache/resource_cache.cpp:9-12 | time alone does not take an entry before its 300 or 120 seconds |
| `CacheRaces.QuietCacheIsExact` | src/service/resource_service.cpp:71-137 | an entry is the current answer as soon as every delete its key is owed by a later commit has been made, none before the entry was filled |
| `CacheRaces.EveryCauseOccurs` | src/service/resource_service.cpp:165-227 | for every write that changes a cached answer, each of the three causes alone leaves a stale entry in some run |
| `Logger.LogHistory` | src/utils/logger.cpp:51-87 | in every interleaving, emitted, pending and queued lines in that order are the lines in lock order; a worker that left had emitted everything logged by then; a sleeping worker with work has a notify coming |
| `Logger.DrainProgress` | src/utils/logger.cpp:18-28 | while the destructor joins, the worker can move until it has left, and every move brings it closer |
| `Logger.DrainCompletes` | src/utils/logger.cpp:18-28 | with callers that go on notifying and logging, the drain is bounded by the work left and the further log calls, and ends with the worker gone and every earlier line emitted |
| `Logger.Log.constructor` | src/utils/logger.cpp:7-9 | starts running with nothing queued |
| `Logger.Log.Append` | src/utils/logger.cpp:75-87 | push and notify are the machine's two steps |
| `Logger.Log.Round` | src/utils/logger.cpp:51-72 | one round writes out the queued lines in order, or leaves exactly when stopped with nothing queued; it is a run of machine steps |
| `ObjectKeys.TrimTrailingSlash` | src/service/storage_service.cpp:51-56 | the longest prefix that does not end in a slash |
| `ObjectKeys.TrimmedUnique` | src/service/storage_service.cpp:51-56 | that prefix is unique, so upload and download use the same endpoint |
| `ObjectKeys.SanitizeFilename` | src/service/storage_service.cpp:93-108 | letters, digits, dot, dash and underscore stay, everything else becomes an underscore; empty exactly for empty and dot-only names |
| `ObjectKeys.CleanNameIsFlat` | src/service/storage_service.cpp:93-133 | an accepted name has no separator and no parent marker after cleaning |
| `ObjectKeys.ExtensionExact` | src/service/storage_service.cpp:119-125 | no extension exactly without a dot; otherwise the name from its last dot on, lowered |
| `ObjectKeys.BlockedIff` | src/service/storage_service.cpp:149-154 | the blocked names are exactly those that end, in any case, in one of the eight extensions |
| `ObjectKeys.CleanKeepsExtension` | src/service/storage_service.cpp:304-319 | cleaning a name neither hides nor makes such an ending |
| `ObjectKeys.AllowedIff` | src/service/storage_service.cpp:136-146 | the accepted media types are the six, in any case |
| `ObjectKeys.ExtractKeyExact` | src/service/storage_service.cpp:281-291 | a URL yields a key exactly when it is the public URL of that key |
| `ObjectKeys.CreateUpload` | src/service/storage_service.cpp:297-338 | exactly which names and media types are accepted, which reason is given for each refusal, and the key and URL an upload gets |
| `ObjectKeys.FindKey` | src/service/storage_service.cpp:375-386 | the stored URL yields a key exactly when it is that key's URL under the trimmed endpoint |
| `ObjectKeys.UploadRoundTrip` | src/service/storage_service.cpp:281-386 | for every endpoint, bucket and accepted name, the key found in the public URL is the non-empty key uploaded to |
| `ObjectKeys.ObjectKeyInjective` | src/service/storage_service.cpp:333-335 | equal object keys come from the same user, timestamp and clean name |
| `ObjectKeys.KeyInOwnFolder` | src/service/storage_service.cpp:333-335 | every upload lands in its own user's folder and in nobody else's |
| `ObjectKeys.CacheKeysInjective` | src/cache/resource_cache.cpp:112-119 | one key per user and resource, one list key per user, and the two families are disjoint |

## Left out

- HttpConn.Connection.Process: promises nothing for the outcome `Unspecified`, because C++ defines nothing there; `HttpRequest.UnspecifiedIff` says exactly which requests these are.
- RequestReader.Reader.ParseContent: stores no terminator when the declared end is no position of the buffer, and answers `Unspecified` instead.
- RequestReader.BodyTerminated: the terminator at an offset inside the buffer; a negative offset is the outcome `Unspecified`.
- HttpConn.Connection.Serve: what a client reads is stated for bodies of at most 2147483647 bytes.
- HttpSession.ServeAll: for requests with a specified outcome and bodies of at most 2147483647 bytes.
- Server.EveryConnectionAnswered: process() takes effect when its worker re-arms, read() and write() when they return, each on the copy made before; hangups and failed calls close the connection.
- HttpResponse.ResponseReadsBack: bodies up to 2147483647 bytes, because the length is narrowed to an `int` when it is printed.
- HttpRequest.RequestRouted: requests in origin form; absolute-form targets are parsed but set no route marker in the source.
- HttpConn.Connection.constructor: the user count is part of `Proactor`, not of the connection object.
- ConnectionPool.Pool.RunStatement: what the statement does in the database is `ResourceStore`; here it is one of three outcomes.
- ResourceService.Backend.GetFileDownloadUrl: answers the stored URL; `ObjectKeys.FindKey` is the check that follows, and signing is an external call.
- ResourceService.SerialRefinement: a read that fails in the database is excluded, because the cached service may still answer it correctly; `ResourceService.ServeRefines` states that case. Cache deletes succeed; failing ones are the subject of `CacheRaces`.
- CacheRaces.StaleOnlyFor: expiry itself is Redis's promise and is part of the step system.
- Proactor.NoRequestLostIff: the descriptors held for other purposes are fixed; ones that come and go only take usable descriptors away.
- Request handlers, JWT, password hashing, JSON parsing and printing, and input validation: handlers are arbitrary results with the codes each can return.
- Pipelined requests in one read: `init()` forgets what was received behind the answered request, so they are not served; `HttpLockstep` says when nothing is behind it.
- Critical sections of the thread pool, of the Redis pool other than emptying it, and of the logger are single steps; the PostgreSQL pool and the Redis clean-up have an explicit lock.
- Concurrent use of the static error message of the data access objects: errors are results of each call.
- Statements that took effect although they were reported as failed, and exceptions thrown by the cache client itself.
- The Redis `init` in the step system while leases are out, and the destructors of the two pools.
- Teardown in `main` after the loop, signals and environment parsing; pool shutdown is modelled by itself.
- The user service and its data access, deletion of users with their rows, the signing of URLs and the removal of stored objects, which are external calls.
- The migration runner, the frontend, deployment, Terraform and Docker files.
