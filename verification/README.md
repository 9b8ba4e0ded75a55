# Verified model of the Webserver tree

A small epoll web server: an incremental HTTP/1.1 parser that works in place on a fixed
buffer, a response writer on two iovecs, a sorted list of idle timers, a thread pool and a
database connection pool, a logger behind a ring buffer, a login form and its user table;
and two programs beside it, the request builder of webbench and the send queue of the asio
session. This project models their logic in Dafny and proves what it keeps.

`dafny verify dfyconfig.toml` checks everything.

## How the model is built

Where the program changes things in place, so does the model: a class with the program's
fields, and methods that do what its methods do (`RequestReader`, `ResponseWriter`,
`SortTimerLst`, `Server`, `SharedPools`, `BlockQueue`, `Log`, `Users`, `Bench`, `CSession`).
Each method is proved against a function on values, and the properties are proved about those
functions, over every input and every run. Where threads interleave, each lock-protected
region, each semaphore operation and each unlocked test of shared state is one step of a state
machine; runs are arbitrary sequences of enabled steps, for any number of threads. Clocks,
`recv`, `accept`, `writev`, `epoll_wait` and MySQL results are inputs.

| file | what it holds |
|---|---|
| `CStrings.dfy`, `Quotients.dfy`, `Wrappers.dfy` | C strings inside a buffer, `atol`, `%d`; division; `Option` |
| `HttpParser.dfy`, `HttpConn.dfy` | the parser, as functions and in place |
| `RequestGrammar.dfy` | which lines it accepts, said of the text alone |
| `HttpChunking.dfy`, `HttpStall.dfy`, `HttpBody.dfy` | what the way the bytes arrive does to the answer; the body as do_request finds it |
| `HttpLines.dfy` | the parser on the lines the programs print |
| `HttpResponse.dfy`, `HttpAnswer.dfy`, `ResponseDrain.dfy` | the answer printed, read again byte by byte, and sent through two iovecs |
| `TimerSequence.dfy`, `TimerList.dfy` | the timer list, as a sequence and as linked nodes |
| `ServerModel.dfy`, `WebServer.dfy` | connections, timers and the event loop |
| `Pools.dfy`, `PoolThreads.dfy`, `Reactor.dfy` | both pools and the `improv` handshake |
| `BlockQueue.dfy`, `QueueWaiters.dfy` | the ring buffer and its wait set |
| `LogRotation.dfy`, `LogQuota.dfy`, `LogLines.dfy`, `LogThreads.dfy`, `LogWriter.dfy` | file rotation, the quota of a file, and the way of each line |
| `LoginForm.dfy`, `UserTable.dfy` | the form and the table of users |
| `Webbench.dfy`, `BenchRequest.dfy`, `RequestBytes.dfy` | the request builder, read back by the server's parser; a browser's request, byte by byte |
| `Session.dfy` | one asynchronous write at a time |

## What came out

Some intended properties fail for the code as it is written. The code is kept, and each is
proved with the exact condition.

- A body that arrives in pieces (`PiecesAgreeExactly`, `CompleteIffHarmless`,
  `BodyInPiecesExactly`): `parse_line`, called after an incomplete `parse_content`, moves
  `m_checked_idx` into the body, and the length is then counted from there. In however many
  pieces a request comes, it is answered as in one exactly when no piece ends where some of the
  body has been scanned; for a body that starts with no CR or LF, that is anywhere inside it.
- A stray CR or LF in the request line or a header (`BadLineNeverAnswered`): `process_read` then
  waits for more input, and no input that may follow is ever answered.
- What webbench sends (`BenchAnsweredExactly`): of its requests for a plain URL the server
  understands exactly those with GET and HTTP/1.1. HTTP/1.0, which is webbench's default, and
  HEAD, OPTIONS and TRACE are answered as bad requests.
- A read that fills the buffer (`ReadAllExactly`): edge-triggered, `recv` has no room left then
  and returns 0, so the connection is given up although nothing failed.
- A short write inside the header (`DrainsExactly`): the running total is subtracted from what
  is already a remainder. Two writes that both end inside the header break the drain; the
  variant in `chap.5` breaks under another condition; the full-buffer one does not, except that
  its caller clears the buffer early, which is not modelled.
- `m_user_count` (`CountMatchesListExactly`): it equals the length of the timer list exactly when no
  worker thread has closed a connection itself; otherwise the timer's expiry counts twice, be
  it before the worker's close or after.
- `adjust_timer` (`AdjustRepairsExactly`) only moves a timer towards the tail.
- More threads than connections (`ThreadsWithinConnectionsExactly`): then, and only then, some
  interleaving starves a worker.
- `timer_flag` is written after `improv` (`DealtWhenIdleExactly`): the main thread may look between.
- The logger (`NoneLostExactly`, `RightFilesExactly`): the result of `push` is not looked at, so two
  threads that both find room can lose a line; and only the day of the month decides that a
  new day has begun.
- The quota of a log file (`QuotaExactly`): a day that is entered again is counted from 0 in the
  file it has, so a clock set back overfills a file exactly when the visits to some day do not
  fit one file together. Without that, lines that wait between being counted and being written
  can overfill a file as soon as a second thread logs or there is a queue
  (`QuotaForThreadsExactly`).
- Registration (`LoginsAnsweredRight`, `RacedRegistration`): the page shown depends on
  `mysql_query`, the table on whether the name was free, and these need not agree.
- BAD_REQUEST is answered with the 404 page; a missing page and an empty file have no answer
  (`process_write`), so that the worker closes the connection itself. The length of a file
  goes through an int: Content-Length and the byte count are right iff it fits one
  (`AnswerFramesBody`, `process_write`).

The branch of `parse_line` for an LF whose CR was the last byte of an earlier call is never
taken (`LineEndsAtPair`): a call that ends on a CR does not move past it.

## Model

| member | source | states |
|---|---|---|
| CStrings.AtolOfIntText | Webserver/http/http_conn.cpp:609-612 | `atol`, cut to an int, reads back what `%d` prints for every int |
| CStrings.AtolOfAnyNumber | Webserver/http/http_conn.cpp:310-315 | of a printed number of any size `atol` into an int leaves the low 32 bits, and -1 or 0 beyond the range of a long |
| HttpParser.LineEndsAtPair | Webserver/http/http_conn.cpp:164-194 | a line ends at the first CR LF pair not yet passed; only that pair is overwritten; the byte before `m_checked_idx` is never a CR, so the LF-after-CR branch is dead |
| HttpParser.LineStatusExactly | Webserver/http/http_conn.cpp:164-194 | when exactly LINE_OK and LINE_OPEN are returned, and that a bad line stays bad whatever arrives later |
| HttpParser.NoLineKeepsBuffer | Webserver/http/http_conn.cpp:164-194 | a call that finds no line moves `m_checked_idx` and writes nothing |
| HttpParser.CutWord | Webserver/http/http_conn.cpp:244-265 | one word is cut off, only its blank is overwritten, and the next word starts inside the consumed line |
| HttpParser.JudgeFits | Webserver/http/http_conn.cpp:283-285 | the line consumed always has the 12 bytes that "/judge.html" and its NUL need |
| HttpParser.ParseRequestLine | Webserver/http/http_conn.cpp:242-287 | never touches unread bytes, the line start or the end of the consumed part; answers BAD_REQUEST or goes on to the headers |
| HttpParser.ProcessRead | Webserver/http/http_conn.cpp:342-386 | start, checked and read index stay ordered and in the buffer, the invariant is back whenever more input is awaited, and the loop ends |
| HttpParser.UnreadBytesKept | Webserver/http/http_conn.cpp:342-386 | no byte at or after `m_checked_idx` changes before the request completes |
| RequestGrammar.RequestLineExactly | Webserver/http/http_conn.cpp:242-287 | a request line is accepted iff its text is GET or POST, a url with a path, and HTTP/1.1, separated by blanks; then the method and the page of the path are what the parser holds, and no header field has changed |
| RequestGrammar.TargetIsPath | Webserver/http/http_conn.cpp:268-281 | the url scan in the buffer finds the path of the url text, or that there is none |
| RequestGrammar.PathOfUrl | Webserver/http/http_conn.cpp:268-281 | a path asks for itself, an absolute url for what follows its host, and for nothing without a slash there |
| RequestGrammar.HeaderLineExactly | Webserver/http/http_conn.cpp:301-326 | a header line sets exactly the field it names, to its value without leading blanks |
| HttpChunking.PhaseExtends | Webserver/http/http_conn.cpp:342-386 | reading request line and headers gives the same with more bytes behind, and can be resumed |
| HttpChunking.ChunkingAgrees | Webserver/http/http_conn.cpp:342-386 | two calls on consecutive pieces give the code and whole parser state of one call, if the boundary is not inside a scanned body |
| HttpChunking.SplitBodyExactly | Webserver/http/http_conn.cpp:330-386 | for a boundary inside the body: what one call and what two calls answer, and that they agree on a complete request iff nothing of the body was scanned |
| HttpChunking.CutBodyStalls | Webserver/http/http_conn.cpp:330-386 | a body without CR and LF cut strictly inside is never complete in two calls, though it is in one |
| HttpChunking.AnswerIsFinal | Webserver/http/http_conn.cpp:342-386 | an answer does not depend on bytes that arrive later |
| HttpChunking.AnyChunkingAgrees | Webserver/http/http_conn.cpp:342-386 | the same for any number of pieces |
| HttpChunking.ChunkingDoesNotMatter | Webserver/http/http_conn.cpp:342-386 | from a fresh connection, if no boundary lies strictly between the start and the end of the body, the pieces get the answer of one call |
| HttpChunking.BodilessChunking | Webserver/http/http_conn.cpp:342-386 | a request without a body may be cut anywhere, and all its pieces are needed |
| HttpChunking.PiecesAgreeExactly | Webserver/http/http_conn.cpp:342-386 | for any number of pieces, all of them needed, whose bytes in one call complete a request: code and whole parser state agree with that call iff no boundary lies in a scanned body |
| HttpChunking.CompleteIffHarmless | Webserver/http/http_conn.cpp:330-386 | pieces that end with the body complete the request iff no boundary lies in a scanned body |
| HttpChunking.CompleteIffOutside | Webserver/http/http_conn.cpp:330-386 | the same by positions, for a body that does not start with a CR or LF: iff no piece ends strictly inside the body |
| HttpStall.BodyInPiecesExactly | Webserver/http/http_conn.cpp:330-386 | any head that announces a body, any such body, any pieces: complete when the last byte has come iff no piece ends strictly between the head and the end |
| HttpStall.BadLineNeverAnswered | Webserver/http/http_conn.cpp:342-386 | a stray CR or LF is not answered by the call that meets it nor by the next, whatever bytes have come by then |
| HttpBody.BodyTerminated | Webserver/http/http_conn.cpp:330-340 | a body with any bytes behind it in the buffer: complete, m_string at its start, the byte behind it NUL and no other byte of the buffer changed, so that the C string there is the body |
| HttpBody.BodyOfRequest | Webserver/http/http_conn.cpp:330-386 | the same from a fresh connection, behind any head that announces the body |
| HttpConn.RequestReader.constructor | Webserver/http/http_conn.cpp:136-160 | the parser starts in the initial state over a zeroed buffer |
| HttpParser.ReadAllExactly | Webserver/http/http_conn.cpp:219-237 | the edge-triggered loop succeeds iff recv had nothing more and the buffer is not full; either way all bytes it returned stand behind those read before |
| HttpConn.RequestReader.recv | Webserver/http/http_conn.cpp:209-210 | the bytes received stand behind those read before |
| HttpConn.RequestReader.read_all | Webserver/http/http_conn.cpp:219-237 | the edge-triggered loop in place |
| HttpConn.RequestReader.read_once | Webserver/http/http_conn.cpp:198-239 | return value, buffer and index in both modes: a full buffer is refused, and level-triggered recv's -1 goes into m_read_idx |
| HttpConn.RequestReader.parse_line | Webserver/http/http_conn.cpp:164-194 | does in place what the function does |
| HttpConn.RequestReader.cut_word | Webserver/http/http_conn.cpp:244-265 | the NUL over the blank, and where the next word starts |
| HttpConn.RequestReader.parse_version | Webserver/http/http_conn.cpp:262-287 | version check, host skipped, page named, in place |
| HttpConn.RequestReader.parse_request_line | Webserver/http/http_conn.cpp:242-287 | new buffer and fields are those of the function |
| HttpConn.RequestReader.parse_headers | Webserver/http/http_conn.cpp:290-327 | new fields are those of the function |
| HttpConn.RequestReader.parse_content | Webserver/http/http_conn.cpp:330-340 | GET_REQUEST iff the body has arrived (and the run stays in bounds); then m_string is its start and only the byte behind the body changes, to NUL; otherwise nothing changes |
| HttpConn.RequestReader.process_read | Webserver/http/http_conn.cpp:342-386 | the loop over the buffer gives the code and state of the function, and terminates |
| HttpLines.RequestRound | Webserver/http/http_conn.cpp:242-287 | a whole request line takes the parser to the headers, the page where m_url points |
| HttpLines.ConnectionRound | Webserver/http/http_conn.cpp:301-309 | one round on a Connection line |
| HttpLines.HostRound | Webserver/http/http_conn.cpp:316-321 | one round on a Host line |
| HttpLines.BlankRound | Webserver/http/http_conn.cpp:292-300 | the blank line completes a request without a body and leads to the body of another |
| HttpResponse.HeadersReadBack | Webserver/http/http_conn.cpp:581-624 | for every int and either linger value, what add_headers prints (with the blank of chap.5 or without) is read back by parse_line and parse_headers: length, linger flag, and CONTENT iff the length is not 0; the request line's fields stay |
| HttpResponse.AnswerFramesBody | Webserver/http/http_conn.cpp:629-687 | in every answer, of this version and of chap.5, with a body of any length: the parser finds behind the blank line as much of the body as has been read, and the length of the whole body in Content-Length iff that is at most INT_MAX |
| HttpResponse.FramesAnyBody | Webserver/http/http_conn.cpp:629-687 | every answer, however long, can be read so |
| HttpAnswer.AnswersExactly | Webserver/http/http_conn.cpp:629-687 | for each code, in this version and in chap.5: whether it has an answer, its status line, and the bytes of its form |
| HttpAnswer.AnswerBytes | Webserver/http/http_conn.cpp:600-687 | every answer byte by byte: status line, CR LF, the two fields and the blank line as they are spelt, body |
| HttpAnswer.AnswerReadFromStart | Webserver/http/http_conn.cpp:600-687 | read from its first byte, as far as it has come: a whole line that is the status line of its code, then headers that give the length of the body, then the body |
| HttpResponse.ResponseWriter.Vsnprintf | Webserver/http/http_conn.cpp:581-591 | the bounded print: as much of the text as leaves room for a NUL, the bytes before it and from the bound on unchanged |
| HttpResponse.ResponseWriter.add_response | Webserver/http/http_conn.cpp:581-599 | appends the text iff it fits with room for a NUL |
| HttpResponse.ResponseWriter.add_headers | Webserver/http/http_conn.cpp:604-624 | appends the three header fields iff they all fit |
| HttpResponse.ResponseWriter.process_write | Webserver/http/http_conn.cpp:629-687 | for a file of any size: succeeds iff the code has an answer in its version; then the iovecs describe exactly that answer, and bytes_to_send agrees with them iff it is at most INT_MAX bytes long |
| HttpResponse.FormsFit | chap.5/http_conn.cpp:635-690 | every form of either version fits the write buffer with its headers |
| HttpResponse.ResponseWriter.init | Webserver/http/http_conn.cpp:136-160 | ready for the next answer |
| HttpResponse.ResponseWriter.book | Webserver/http/http_conn.cpp:550-562 | counters and iovecs after one writev |
| HttpResponse.ResponseWriter.unmap | Webserver/http/http_conn.cpp:516-523 | the file is given back |
| HttpResponse.ResponseWriter.write | Webserver/http/http_conn.cpp:524-580 | the loop against any writev results: finished iff the bytes taken before the first error are all that were left; else it returns true with file and iovecs kept iff that error is EAGAIN or there is none, else false with the file given back; counters and wire in each case |
| ResponseDrain.OneWrite | Webserver/http/http_conn.cpp:550-562 | one write keeps the iovecs describing the unsent bytes iff it does not start and end strictly inside the header (or the chap.5 condition) |
| ResponseDrain.DrainsExactly | Webserver/http/http_conn.cpp:524-580 | over all runs of writev results, sent ++ described = header ++ file at every loop head iff every write meets that condition; a run that does and takes all bytes leaves header ++ file on the wire |
| ResponseDrain.Misbooked | chap.5/http_conn.cpp:545-560 | after a write that does not meet its version's condition the iovecs describe fewer bytes than bytes_to_send, or bytes outside header and file |
| ResponseDrain.TwoShortWritesBreak | Webserver/http/http_conn.cpp:559-562 | two one-byte writes break the drain of any header of at least three bytes |
| ResponseDrain.EveryWriteProgresses | Webserver/http/http_conn.cpp:550-551 | bytes_have_send + bytes_to_send is conserved and every positive writev comes nearer the end, wherever the iovecs point |
| ResponseDrain.WriteLoopDrains | Webserver/http/http_conn.cpp:524-580 | one well-booked call keeps the iovecs in step; if it finishes, the wire holds header ++ file |
| ResponseDrain.WriteEndsExactly | Webserver/http/http_conn.cpp:533-580 | how a call ends, by the position of the first error and the sum before it alone |
| ResponseDrain.CallsEndExactly | Webserver/http/http_conn.cpp:533-580 | over any number of calls: while they only wait all bytes taken are booked, they are given up only when one fails, and finished only when nothing is left |
| ResponseDrain.WriteCallsDrain | Webserver/http/http_conn.cpp:524-580 | the same over any number of calls, each resumed after EAGAIN |
| ResponseDrain.ChunksDrain | Webserver_asio/http/http_conn.cpp:600-645 | the full-buffer variant: nothing, the first buffer that is not empty, or the whole message is on the wire after no, one or two completed writes |
| TimerSequence.AddKeepsOrder | Webserver/timer/lst_timer.cpp:20-39 | the list stays sorted and the new timer goes behind exactly those that expire no later |
| TimerSequence.AdjustRepairsExactly | Webserver/timer/lst_timer.cpp:40-64 | with one node out of order, adjust_timer keeps the contents and restores the order iff the node does not expire before its predecessor |
| TimerSequence.TickSplits | Webserver/timer/lst_timer.cpp:96-120 | a tick fires exactly the timers due, in ascending order, and leaves the rest |
| TimerSequence.RemoveKeepsOrder | Webserver/timer/lst_timer.cpp:65-95 | deletion keeps the order |
| TimerSequence.RunKeepsOrder | Webserver/timer/lst_timer.cpp:20-120 | over any run of add, raise and adjust, delete and tick the list stays sorted and holds what was brought less what was taken |
| TimerList.Connections.cb_func | Webserver/timer/lst_timer.cpp:218-224 | the descriptor closed, the count down by one |
| TimerList.SortTimerLst.find_place | Webserver/timer/lst_timer.cpp:122-136 | the loop stops in front of the first later node |
| TimerList.SortTimerLst.link | Webserver/timer/lst_timer.cpp:126-146 | the pointer writes put the node in between its neighbours, or at the tail |
| TimerList.SortTimerLst.add_timer | Webserver/timer/lst_timer.cpp:20-39 | links, head and tail agree again (also after a tick left tail stale), contents those of the sequence operation |
| TimerList.SortTimerLst.take_out | Webserver/timer/lst_timer.cpp:65-95 | the node is bypassed, head and tail moved where they named it |
| TimerList.SortTimerLst.adjust_timer | Webserver/timer/lst_timer.cpp:40-64 | from a list with one changed node to the sequence operation's result |
| TimerList.SortTimerLst.del_timer | Webserver/timer/lst_timer.cpp:65-95 | exactly that node is gone |
| TimerList.SortTimerLst.tick | Webserver/timer/lst_timer.cpp:96-120 | the due prefix is called back once each, in order, and the rest is the list |
| ServerModel.CountMatchesListExactly | Webserver/http/http_conn.cpp:101-109 | over every run, m_user_count is the length of the timer list iff no worker closed a connection itself; a worker may do so whenever m_sockfd is set, even after the loop has closed the descriptor |
| ServerModel.CountIsListLessWorkerCloses | Webserver/webserver.cpp:145-212 | every run keeps each open descriptor's own timer listed, and the count differs from the list length by the number of worker closes |
| ServerModel.WorkerCloseThenExpiry | Webserver/http/http_conn.cpp:697-700 | one worker close followed by the expiry of its timer leaves the count at -1 |
| ServerModel.ExpiryThenWorkerClose | Webserver/timer/lst_timer.cpp:218-224 | so does the expiry followed by the worker close |
| ServerModel.ConnectionsMatchTimers | Webserver/webserver.cpp:145-212 | without worker closes: count = list length = open connections, one list node per open descriptor, count within 0..MAX_FD |
| ServerModel.TickFiresIdleOfRun | Webserver/timer/lst_timer.cpp:96-120 | after any run with a nondecreasing clock, a tick at t fires exactly the listed timers whose last Accept or Activity was at or before t - 3 * TIMESLOT, and leaves the rest |
| ServerModel.StepIsByLastActivity | Webserver/webserver.cpp:145-177 | with a nondecreasing clock every accept and activity puts its timer last |
| ServerModel.ListIsByLastActivity | Webserver/webserver.cpp:145-177 | over every such run the timer list is the queue of connections by last activity |
| ServerModel.NothingDueNothingIdle | Webserver/timer/lst_timer.cpp:96-120 | over every such run: when no timer is due at the head of the list at t, no open connection had its last Accept or Activity at or before t - 3 * TIMESLOT |
| WebServer.Server.timer | Webserver/webserver.cpp:145-159 | a new connection: count, open descriptors, table entry, expiry and list node |
| WebServer.Server.adjust_timer | Webserver/webserver.cpp:163-169 | the timer of the descriptor moved to now + 3 * TIMESLOT |
| WebServer.Server.deal_timer | Webserver/webserver.cpp:171-177 | connection closed, node deleted |
| WebServer.Server.timer_handler | Webserver/timer/lst_timer.cpp:202-206 | one tick; behind it no timer is due at the head, and nothing has been opened |
| WebServer.Server.close_conn | Webserver/http/http_conn.cpp:101-109 | the worker's close: count and descriptor, not the timer |
| WebServer.Server.dealclientdata | Webserver/webserver.cpp:179-212 | which of the accepted descriptors get a connection, in either mode, and the return value |
| WebServer.Server.dealwith | Webserver/webserver.cpp:244-313 | the events a readable or writable descriptor leads to, in both actor models |
| WebServer.Server.handle | Webserver/webserver.cpp:327-351 | each kind of ready descriptor: the events it leads to, and what that does to the open descriptors, the count and the expiry of its timer; what concerns no connection changes nothing |
| WebServer.Server.worker_close | Webserver/http/http_conn.cpp:101-109 | a close by a worker between the descriptors served |
| WebServer.Server.serve | Webserver/webserver.cpp:324-350 | all that is ready, in order; whether the alarm went off, and whether SIGTERM came; only what hung up, failed or was closed by a worker has been closed, only what accept returned opened, and what hung up is not open unless accepted again behind that |
| WebServer.Server.one_round | Webserver/webserver.cpp:319-356 | that, and after an alarm at now no listed timer is due at the head; without one, only what hung up, failed or was closed by a worker has been closed |
| WebServer.Server.eventLoop | Webserver/webserver.cpp:315-357 | the loop follows exactly the run its rounds call for, each event with its own time, up to SIGTERM or a failure of epoll_wait; the count is the list length less the worker closes, and without them count = list length = open connections <= MAX_FD; if the alarm went off in the last round handled, at now, no timer is due at the head, and with a clock that does not go back no open connection had its last Accept or Activity at or before now - 3 * TIMESLOT |
| WebServer.ServedInTurn | Webserver/webserver.cpp:324-350 | serving one sequence of ready descriptors and then another is serving them one after the other |
| WebServer.ServedAlone | Webserver/webserver.cpp:324-350 | one alone leads to its own events, none to none |
| WebServer.RoundsInTurn | Webserver/webserver.cpp:319-356 | rounds are handled one after the other |
| WebServer.RoundAlone | Webserver/webserver.cpp:319-356 | a round alone serves all that is ready and then ticks, at its own time, iff the alarm has gone off |
| Pools.NoRequestStranded | Webserver/threadpool/threadpool.h:87-135 | over every interleaving: dispatched ++ queue = accepted, queue within its limit, and a waiting request always has a positive semaphore, a worker past the wait or a producer about to post |
| Pools.EmptyTestDead | Webserver/threadpool/threadpool.h:123-129 | if waits are never interrupted, a worker past the wait always finds a request |
| Pools.ConnectionsConserved | Webserver/CGImysql/sql_connection_pool.cpp:53-87 | free list and held connections partition the created ones; m_FreeConn + m_CurConn = m_MaxConn without underflow |
| Pools.NoConnectionShared | Webserver/CGImysql/sql_connection_pool.cpp:53-87 | no connection has two holders, or a holder while free |
| Pools.ListNeverEmptyAtPop | Webserver/CGImysql/sql_connection_pool.cpp:60-65 | the pop behind reserve.wait never meets an empty list |
| Pools.StepKeepsConns | Webserver/CGImysql/sql_connection_pool.cpp:53-87 | the account of reserve, list and holders that every step keeps |
| Pools.ThreadsWithinConnectionsExactly | Webserver/threadpool/threadpool.h:137-164 | no interleaving gives a worker NULL or makes it block on reserve iff thread_number <= m_MaxConn |
| PoolThreads.SharedPools.constructor | Webserver/CGImysql/sql_connection_pool.cpp:22-50 | the fill loop creates MaxConn connections, counts them, and sets reserve |
| PoolThreads.SharedPools.append | Webserver/threadpool/threadpool.h:87-112 | append and append_p undisturbed: the request queued and posted, or refused at the limit |
| PoolThreads.SharedPools.take | Webserver/threadpool/threadpool.h:123-135 | the locked part of run |
| PoolThreads.SharedPools.acquire | Webserver/CGImysql/sql_connection_pool.cpp:115-120 | connectionRAII takes the first free connection, NULL from an empty list, or waits when reserve is 0 |
| PoolThreads.SharedPools.give_back | Webserver/CGImysql/sql_connection_pool.cpp:122-124 | its destructor gives it back |
| PoolThreads.SharedPools.serve | Webserver/threadpool/threadpool.h:160-164 | a request taken is processed with the first connection, which goes back last; or without one; or it waits |
| PoolThreads.SharedPools.run_once | Webserver/threadpool/threadpool.h:122-164 | one undisturbed round from any state of both pools: when exactly it waits for a request or a connection, finds nothing, or serves the front with the first connection or without one, and what it leaves in queue, list, counters and semaphores |
| Reactor.HandshakeHolds | Webserver/webserver.cpp:246-263 | over every interleaving: at most one request queued, improv clear and the queue empty at every append, append never refused, each completion consumed once |
| Reactor.StepKeepsHandshake | Webserver/threadpool/threadpool.h:137-158 | the main thread's request is queued, in one worker's hands, or completed, never two of these |
| Reactor.SpinsOnFetchable | Webserver/threadpool/threadpool.h:87-135 | the main thread never spins on a queued request without a post to be taken or a worker behind the wait |
| Reactor.FineReadsAreProcessed | Webserver/threadpool/threadpool.h:137-158 | over every interleaving, each successful read of a connection and nothing else leads its worker on to process() for it |
| Reactor.FailuresDealtExactly | Webserver/webserver.cpp:283-299 | as long as no look fell between improv and timer_flag, the connections closed are those that failed, in order; the next look keeps it so iff it does not fall there |
| Reactor.DealtWhenIdleExactly | Webserver/webserver.cpp:283-299 | a run that ends with the main thread idle has dealt with all failures, in order, at every idle point iff no look of it fell between improv and timer_flag |
| Reactor.FlagExactly | Webserver/webserver.cpp:246-263 | over every interleaving, timer_flag of a connection is set iff the last of a failure, a look that dealt with it, and an init() that kept it, was the failure |
| Reactor.FlagSeenLate | Webserver/threadpool/threadpool.h:144-147 | a run in which a failed connection is not closed and its flag stays set |
| BlockingQueue.SlotsPush | Webserver/log/block_queue.h:109-125 | writing the slot behind the last appends to the ring's contents, for every capacity |
| BlockingQueue.SlotsPop | Webserver/log/block_queue.h:128-143 | moving m_front drops the oldest item and nothing else |
| BlockingQueue.DifferentSlots | Webserver/log/block_queue.h:109-125 | slots less than a capacity apart are different |
| BlockingQueue.BlockQueue.constructor | Webserver/log/block_queue.h:15-25 | an empty queue of that capacity |
| BlockingQueue.BlockQueue.clear | Webserver/log/block_queue.h:27-33 | empty again, both indices back at -1 |
| BlockingQueue.BlockQueue.full | Webserver/log/block_queue.h:44-52 | true iff the contents fill the capacity |
| BlockingQueue.BlockQueue.front | Webserver/log/block_queue.h:66-76 | the oldest item, or false |
| BlockingQueue.BlockQueue.back | Webserver/log/block_queue.h:79-88 | the newest item, or false |
| BlockingQueue.BlockQueue.push | Webserver/log/block_queue.h:109-125 | appends, or is refused when full |
| BlockingQueue.BlockQueue.pop | Webserver/log/block_queue.h:128-143 | the wait loop against whatever other threads do meanwhile, and the same by the waits alone |
| BlockingQueue.PopsExactly | Webserver/log/block_queue.h:128-143 | by the waits alone: pop returns the front at the first wake-up that finds the queue not empty, false iff a wait fails while it has stayed empty, and waits otherwise |
| BlockingQueue.BlockQueue.during | Webserver/log/block_queue.h:15-143 | any sequence of operations on the ring does what it does on a bounded FIFO |
| BlockingQueue.FirstInFirstOut | Webserver/log/block_queue.h:109-143 | without a clear, what is in the queue is what was there and what entered, less the oldest that left |
| QueueWaiters.NoWakeupLost | Webserver/log/block_queue.h:109-143 | over every interleaving: with an item present no consumer is left in the wait set, each could take the oldest item; items leave in the order they came |
| QueueWaiters.EveryPopTakesOne | Webserver/log/block_queue.h:128-143 | over every run the calls of pop are the items taken, the waits that failed and those still inside |
| LogRotation.NameStaysExactly | Webserver/log/log.cpp:88-112 | a line keeps the open file = (its day, m_count / m_split_lines) iff the day is the same, the day of the month differs, or the count divides |
| LogRotation.RightFilesExactly | Webserver/log/log.cpp:88-112 | over any run every line finds the file of its day and part open iff every line meets that condition |
| LogRotation.NamedAfter | Webserver/log/log.cpp:88-112 | whatever the dates, the part number and the day of the month of the open file are right |
| LogRotation.OpenFileIsDayAndPart | Webserver/log/log.cpp:88-112 | if every date change alters tm_mday, the open file is always the one named by day and part |
| LogRotation.NoFileOverfull | Webserver/log/log.cpp:88-112 | while the clock does not go back, no file gets more than m_split_lines lines |
| LogQuota.QuotaExactly | Webserver/log/log.cpp:88-112 | lines of one thread, without a queue: with the clock going back as it likes, every file keeps the quota iff every day that is visited more than once has visits that fit one file together (of the opening visit, what its first file holds) |
| LogQuota.MadeOfVisits | Webserver/log/log.cpp:88-112 | every run in which each change of date alters tm_mday is such a sequence of visits |
| LogQuota.SetBackExactly | Webserver/log/log.cpp:88-112 | n lines on a day, m on the day the log was opened, k on the first again: the quota is kept iff n + k <= m_split_lines |
| LogLines.LinesConserved | Webserver/log/log.cpp:88-139 | over every interleaving, lines logged = in files + queued + in a hand + lost, as multisets; queued lines keep their order |
| LogLines.NoneLostExactly | Webserver/log/log.cpp:132-134 | no interleaving of the asynchronous logger loses a line iff at most one thread logs |
| LogThreads.FileBound | Webserver/log/log.cpp:88-139 | over every interleaving with the clock not going back, no file gets more than m_split_lines lines and those that can wait: one of each other thread, and with a queue its capacity and the one in the writer's hand |
| LogThreads.QuotaForThreadsExactly | Webserver/log/log.cpp:88-139 | no such interleaving overfills a file iff at most one thread logs, without a queue |
| LogLines.PutKeepsOrderExactly | Webserver/log/log.cpp:135-139 | a line written directly keeps the order iff everything waiting is that same line |
| LogLines.SynchronousInOrder | Webserver/log/log.cpp:88-139 | one thread without a queue: the files hold the lines in the order logged |
| LogWriter.QuotaInFiles | Webserver/log/log.cpp:88-139 | the quota, for the files the synchronous logger really writes |
| LogWriter.Log.constructor | Webserver/log/log.cpp:20-59 | synchronous or asynchronous, the day's file open |
| LogWriter.Log.turn | Webserver/log/log.cpp:88-112 | the first locked region: count, day and open file |
| LogWriter.Log.check | Webserver/log/log.cpp:132-132 | the line goes to the queue iff the logger is asynchronous and the queue not full |
| LogWriter.Log.enqueue | Webserver/log/log.cpp:133-133 | push, its result not looked at |
| LogWriter.Log.put | Webserver/log/log.cpp:135-139 | the direct write |
| LogWriter.Log.write_log | Webserver/log/log.cpp:61-143 | the whole call undisturbed: where the line went, and that none is lost |
| LogWriter.LoopIsRun | Webserver/log/log.h:32-40 | the consumer loop among any acts of the other threads is a run of the steps, those of its rounds one after the other, so that what holds over runs holds of it |
| LogWriter.DrainsAlone | Webserver/log/log.h:32-40 | undisturbed it writes all that is queued, in order, to the open file |
| LogWriter.Log.async_write_log | Webserver/log/log.h:32-40 | the consumer loop in place, with whatever other threads do before each pop and between pop and fputs |
| LoginForm.FormReadBackExactly | Webserver/http/http_conn.cpp:410-419 | decoding the form gives back name and password iff the name has no '&', neither has a NUL, and both are under 100 bytes |
| LoginForm.LoginUnderstoodExactly | Webserver/http/http_conn.cpp:330-419 | behind any head that announces its length, with any other bytes behind it in the buffer, a form that arrives in one piece goes through parser and decoder to that name and password, under the same condition |
| LoginForm.PostedLoginUnderstood | Webserver/http/http_conn.cpp:242-419 | behind a POST line with a plain path the request is also complete for the page of that path |
| LoginForm.DecodeInPlace | Webserver/http/http_conn.cpp:410-419 | both loops into the local arrays, or the reason the run leaves them |
| UserTable.LoginsAnsweredRight | Webserver/http/http_conn.cpp:421-456 | over every interleaving a login is welcomed iff its pair was, when looked up, the name's last database row or else its first registration; a registration is refused iff the name was there when looked up or the query fails; and one that went through, whatever its page, logs in from then on iff its pair was the first under that name |
| UserTable.StoredForGood | Webserver/http/http_conn.cpp:433-438 | a stored password never changes |
| UserTable.RacedRegistration | Webserver/http/http_conn.cpp:433-446 | two threads told they are registered under one name, one of which is not |
| UserTable.LoadedRows | Webserver/http/http_conn.cpp:42-47 | loading keeps the last row of each name |
| UserTable.Users.initmysql_result | Webserver/http/http_conn.cpp:42-47 | the loading loop |
| UserTable.Users.insert | Webserver/http/http_conn.cpp:435-443 | the locked region |
| UserTable.Users.do_request | Webserver/http/http_conn.cpp:421-456 | registration or login undisturbed: table and page |
| Webbench.RequestFits | Webserver/test_pressure/webbench-1.5/webbench.c:199-291 | any URL of at most 1500 bytes that is accepted yields a request under REQUEST_SIZE |
| Webbench.ExitsExactly | Webserver/test_pressure/webbench-1.5/webbench.c:223-245 | which URLs each exit refuses, said of the text |
| Webbench.CopiesFitExactly | Webserver/test_pressure/webbench-1.5/webbench.c:246-261 | the copies stay in their buffers iff the host has at most 63 bytes and the port at most 9, or there is a proxy |
| Webbench.UrlTakenApart | Webserver/test_pressure/webbench-1.5/webbench.c:239-263 | host and path of every plain URL, with or without a port |
| Webbench.RequestUnderstood | Webserver/test_pressure/webbench-1.5/webbench.c:199-291 | what build_request prints for any plain URL, with a port or without, under GET, HTTP/1.1 and no proxy, takes the server's parser to GET_REQUEST with the page of the path, the host, no keep-alive and length 0 |
| Webbench.RequestUnderstoodInPieces | Webserver/test_pressure/webbench-1.5/webbench.c:199-291 | the same however that request's bytes arrive |
| RequestBytes.BytesSent | Webserver/test_pressure/webbench-1.5/webbench.c:199-291 | the bytes of the request for a plain URL, for every method and version |
| RequestBytes.BenchAnsweredExactly | Webserver/http/http_conn.cpp:242-287 | of these the server understands exactly GET with HTTP/1.1; the others get BAD_REQUEST |
| RequestBytes.HeadUnderstood | Webserver/http/http_conn.cpp:242-327 | a browser's head, byte by byte, is read as meant: GET or POST, page, host, keep-alive or close, any int as length; complete iff the length is 0 |
| BenchRequest.PortRead | Webserver/test_pressure/webbench-1.5/webbench.c:249-257 | the port of a URL is the number written there, 80 for 0 |
| BenchRequest.Bench.adjust_version | Webserver/test_pressure/webbench-1.5/webbench.c:207-210 | the protocol version after the adjustments |
| BenchRequest.Bench.check_url | Webserver/test_pressure/webbench-1.5/webbench.c:223-245 | the exits, in order |
| BenchRequest.Bench.copy_host | Webserver/test_pressure/webbench-1.5/webbench.c:246-261 | host and port, or the overrun |
| BenchRequest.Bench.build_request | Webserver/test_pressure/webbench-1.5/webbench.c:199-291 | outcome, whole request, host and port for every URL and every option |
| Session.OneWriteAtATime | Webserver_asio/Session/CSession.cpp:115-167 | over every interleaving: completed ++ queued = accepted; until an error exactly one write is under way iff the queue is non-empty, that of the front; at most MAX_SENDQUE + 1 queued; no pop of an empty queue; Send accepts iff at most MAX_SENDQUE are queued |
| Session.SilentAfterError | Webserver_asio/Session/CSession.cpp:143-167 | after a failed write no write ever starts |
| Session.CSession.Send | Webserver_asio/Session/CSession.cpp:115-132 | the locked part in place: queued or refused, and what is written next |
| Session.CSession.HandleWrite | Webserver_asio/Session/CSession.cpp:143-167 | the completion handler in place: the front popped and the next written, or closed |

## Left out

- Sockets, epoll registration, signals, `mmap`, `stat`, MySQL and file handles: only their results appear, as inputs.
- Log calls inside the parser, the pools and the event loop, and the formatting of log lines (level tag, timestamp, the size of `m_buf`): a line is a given string.
- The page table of `do_request` (digits to pages), `Config::parse_arg`, `trig_mode`: single lookups.
- HttpParser.Target: for a url such as "http://x", with no slash behind the host, the source hands the NULL of `strchr` on to `strncasecmp`, which has no meaning; the model answers BAD_REQUEST.
- Clearing of buffers in the asio version before a write has completed.
- Destruction, `DestroyPool`, the timed `pop`, semaphore copy assignment.
- `CSession::Start` and framing; MAX_SENDQUE, which the repository does not define, is a parameter.
- Memory-model effects: `users.find` runs unlocked beside `users.insert`, and `m_user_count`, `improv` and `timer_flag` are plain ints; each access is taken as one atomic step.
- HttpParser.ParseContent: a body that would be written outside the buffer, and a length that would overflow an int, are the outcome OUT_OF_BOUNDS and nothing is said of the run after it; the same for a name or password longer than its array in LoginForm.Decode and for a host or port too long for its buffer in Webbench.Outcome.
- HttpResponse.ResponseWriter.process_write: a number too wide for an int is cut to its low 32 bits, which the C++ standard leaves to the implementation.
- ResponseDrain.WriteLoopDrains: the kernel takes no more bytes than the iovecs describe; for a misbooked run nothing is said of what a writev with a bad iovec sends.
- LogQuota.QuotaExactly: runs in which the date changes and its day of the month does not; there the logger misses the new day altogether, which LogRotation.NameStaysExactly says.
- LogRotation.NoFileOverfull: counts the lines of one run of the program; a file that exists before it starts is appended to.
- Pools.ListNeverEmptyAtPop: reserve.wait is taken to succeed, as its result is not looked at.
- ServerModel.ConnectionsMatchTimers: the kernel reports only open descriptors and `accept` returns free ones below MAX_FD.
- BenchRequest.Bench.build_request: the globals `request` and `host` are strings; RequestFits and the outcome OVERRUN say what their sizes allow.
