# A Dafny model of the C++ web server

The server is an epoll reactor/proactor with a timer wheel, an incremental HTTP parser, a vectored
response writer, a thread pool, a database connection pool and an asynchronous log. This project models
the parts of it whose correctness rests on an argument that spans several functions, and proves that
argument for all inputs, all runs or all interleavings. `dafny verify dfyconfig.toml` checks everything.

| file | what it models |
|---|---|
| `Pool.dfy` | `MemoryPool`: blocks of cells with the free list threaded through their first words |
| `TimeWheel.dfy` | `time_wheel`: 60 doubly linked slot lists of pool cells, `add_timer`, `del_timer`, `tick` |
| `Deadlines.dfy` | runs of the wheel as a map from timer to the ticks it still waits through |
| `WebServer.dfy` | the timer glue of `WebServer`: client table, accept, adjust, close, alarm, event loop |
| `Activity.dfy` | what the event loop does to one connection: after its last success, after its last failure |
| `CStrings.dfy` | the C library string functions the parser calls |
| `HttpParser.dfy`, `HttpFeed.dfy` | what the parser makes of a byte stream, and of its division into reads |
| `HttpConn.dfy` | the parser itself, in place on the read buffer, proved against `HttpFeed.Process` |
| `Spelling.dfy` | request lines and headers letter by letter: words in any spelling, blanks, targets, numbers |
| `DiagnosePost.dfy` | a POST /diagnose request with any body, through the parser |
| `WebBench.dfy` | `build_request` of the load generator, and the parser on what it prints |
| `Writer.dfy` | `write()`: header and body through short `writev` counts and suspensions |
| `Response.dfy` | `add_response` to `process_write`, and a client that reads by Content-Length |
| `Answers.dfy` | the answers spelled out, and read back by the parser of requests |
| `Csv.dfy` | the CSV upload parsed into samples, and samples printed as CSV |
| `ThreadPool.dfy`, `ConnectionPool.dfy`, `LogBuffers.dfy` | concurrent protocols as interleaved steps |
| `Acceptance.dfy`, `Shutdown.dfy` | what `append` accepts and that it is taken; when `stop()` can return |
| `BlockQueue.dfy` | the circular array of `block_queue` |
| `Counting.dfy` | how many threads are at a program point |

Classes follow the source's objects and change their fields in place; each method is proved against a
specification function or states the new state outright, and the lemmas are about that specification.
Node pointers are cell numbers, `NULL` is -1, and a cell's first word is `expire` while it is live and the
free-list link while it is free. In the concurrent files a step is a stretch of code that touches shared
state once, a run is any list of enabled steps, and a spurious wake-up may come at any time.

Where the code is narrower than its intent, the file says exactly when it is right:

* A timer fires during tick `max(1, timeout) + 1`, one later than the comment on `add_timer` says, because
  the cursor moves after a slot was served (`Deadlines.OneTickLate`). An alarm comes every 5 seconds, so an
  idle connection is closed by the sixteenth alarm after its last activity, not after 15 seconds.
* `parse_line` runs once more after an incomplete `parse_content` and moves into the body. So a body is
  delivered exactly if no read that ends inside it moves the scanner, or if the first one that does is
  followed at once by a read that brings as many bytes beyond the body as the scanner has moved by
  (`HttpFeed.BodyFraming`). Otherwise the client waits; and whatever is sent after that can only complete the
  request with a text that starts behind the body's start (`DiagnosePost.WrongBody`).
* `write()` sends the right bytes if and only if at most one return of `writev` leaves the header partly
  sent and, for a CSV body, none leaves the body partly sent (`Writer.CompleteIffBenign`). A page without a
  body behind it that stops twice inside the header can run out of bytes to offer with bytes left; `write()`
  then loops for ever (`Writer.OffersUnlessStuck`, `Writer.StuckForGood`).
* The 404 page is longer than its Content-Length; lengths are cut to 32 bits; every redirection is followed
  by a complete 400 answer (`Response.FramedIff`, `Response.RedirectCarriesBadRequest`).
* `stop()` strands no request if and only if no `append` is between its look at the flag and the mutex at
  that moment (`ThreadPool.StopIsSafeIff`). It can hang if and only if at its `notify_all` a worker is between
  its test and its sleep and no `append` is between its look at the flag and the mutex; otherwise it can
  always return (`ThreadPool.StopHangsIff`, `Shutdown.StopReturnsIff`).
* `block_queue::front` reads the slot in front of the first element; with different elements that is the
  first one only in a queue of one slot (`BlockQueue.FrontIsFirstIff`).
* `webbench` in its default setting prints HTTP/1.0, which the server rejects (`WebBench.PrinterMeetsParser`).

## Model

| member | source | states |
|---|---|---|
| `Pool.AllocateKeepsPartition` | lock/memory_pool.h:25-70 | an allocation keeps the cells partitioned into live cells and a repeat-free free list, never hands out a live cell, and asks for a block only when all cells are live |
| `Pool.DeallocateKeepsPartition` | lock/memory_pool.h:73-79 | giving a live cell back keeps the partition |
| `Pool.PoolInvariant` | lock/memory_pool.h:25-79 | after every valid run: partition, one live cell per object not given back, and ceil(peak live / BlockSize) blocks |
| `Pool.LastFreedIsNextAllocated` | lock/memory_pool.h:29-34 | the cell given back last is handed out next, and the pool is then as it was |
| `Pool.CarvedChain` | lock/memory_pool.h:52-67 | the carved links of a new block form a list of its cells behind any index |
| `Pool.CarvingNeedsTwoCells` | lock/memory_pool.h:61-67 | `&ptrs[1]` heads a list of cells if and only if a block has at least two cells |
| `Pool.MemoryPool.Allocate` | lock/memory_pool.h:25-70 | pops the head of the free list through its first word, or carves a block in a loop; the new pool is the specified one and live cells keep their content |
| `Pool.MemoryPool.Deallocate` | lock/memory_pool.h:73-79 | pushes a live cell on the free list by overwriting only its first word |
| `Timers.RankOfNew` | timer/lst_timer.cpp:37-60 | the rotation and slot chosen for a timeout give the new timer the rank max(1, timeout) |
| `Timers.TicksForIs` | timer/lst_timer.cpp:35-48 | a timeout of t seconds waits through max(1, t) ticks |
| `Timers.SlotForIs` | timer/lst_timer.cpp:50-60 | the slot is as many places ahead of the cursor, around sixty |
| `Timers.SlotIsList` | timer/lst_timer.h:86-90 | under the shape invariant a slot is a finite doubly linked list without repeats of exactly its live nodes, null at both ends |
| `Timers.InsertKeepsShape` | timer/lst_timer.cpp:66-77 | head insertion keeps all 60 lists disjoint, acyclic and doubly linked |
| `Timers.UnlinkKeepsShape` | timer/lst_timer.cpp:88-108 | unlinking a node, head or inner, keeps them so for the remaining nodes |
| `Timers.TickWaits` | timer/lst_timer.cpp:154-158 | visiting a node with rounds left keeps the invariant of the walk |
| `Timers.TickFires` | timer/lst_timer.cpp:160-187 | firing and deleting the visited node keeps the invariant of the walk |
| `Timers.TickEnds` | timer/lst_timer.cpp:146-192 | at the end of the walk exactly the timers of rank 0 have fired, once each, and every other rank is one less |
| `Timers.TimeWheel.NewUtilTimer` | timer/lst_timer.h:40-48 | a new node is a pool cell with null links that no live timer uses |
| `Timers.TimeWheel.PushFront` | timer/lst_timer.cpp:66-77 | head insertion in place, other nodes keep their payload |
| `Timers.TimeWheel.AddTimer` | timer/lst_timer.cpp:33-79 | NULL for a negative timeout; otherwise a fresh node at the pool's next address with rank max(1, timeout), all other ranks unchanged |
| `Timers.TimeWheel.Unlink` | timer/lst_timer.cpp:88-106 | the pointer updates of a deletion leave the wheel in order without the node |
| `Timers.TimeWheel.DelTimer` | timer/lst_timer.cpp:81-109 | exactly the given timer leaves the wheel and its cell goes back to the pool |
| `Timers.TimeWheel.Fire` | timer/lst_timer.cpp:160-187 | the callback closes the node's descriptor and counts it off, then the node is deleted |
| `Timers.TimeWheel.Walk` | timer/lst_timer.cpp:149-188 | the delete-while-walking loop terminates having visited each node of the slot once |
| `Timers.TimeWheel.Tick` | timer/lst_timer.cpp:146-192 | a tick fires exactly the timers of rank 0, lowers every other rank by one and closes exactly the fired descriptors |
| `Timers.SlotRemains` | timer/lst_timer.cpp:19-28 | while earlier slots were emptied, a later slot is the list it was, of exactly the nodes left with its label |
| `Timers.TimeWheel.EmptySlot` | timer/lst_timer.cpp:21-27 | the inner loop of the destructor gives each node of one list back to the pool and touches nothing else |
| `Timers.TimeWheel.Destroy` | timer/lst_timer.cpp:17-29 | the destructor gives every node of all 60 lists back, once, and leaves all slots null |
| `Timers.ClientTable.CbFunc` | timer/lst_timer.cpp:263-269 | closes the descriptor and lowers the user count |
| `Deadlines.NextOk` | timer/lst_timer.cpp:33-192 | every add, delete and tick keeps wheel and pool in step, and the pool's next address is never that of a waiting timer |
| `Deadlines.FiresExactlyOnce` | timer/lst_timer.cpp:31-79 | over every run of adds, deletes and ticks, whose adds take the pool's next address, a timer that is not deleted keeps its address to itself, fires in tick max(1, timeout) + 1 and no other, once, and is gone then |
| `Deadlines.OneTickLate` | timer/lst_timer.cpp:31-48 | after the promised number of ticks it has not fired, after one more it has |
| `Deadlines.Perform` | timer/lst_timer.cpp:33-192 | one add with its client, delete or tick on the wheel object is one call on its value |
| `Deadlines.PerformAll` | timer/lst_timer.cpp:33-192 | any run of them on the wheel object, sound in whatever order ticks meet the due timers, is a valid run of calls on its value |
| `Server.Rearmed` | webserver.cpp:186-207 | deletion and re-addition at the same address keep the bijection and set only this entry back to 15 |
| `Server.Ticked` | webserver.cpp:443-450 | a tick keeps the bijection: each fired node's descriptor, and no other, is closed and counted off |
| `Server.IdleTimeout` | webserver.cpp:395-452 | over every run of the event loop a connection nothing happens on is closed by exactly the (k+1)-th alarm, k being its entry |
| `Server.AcceptedFrame` | webserver.cpp:221-263 | accepting others leaves a connection's entry alone |
| `Server.HandledFrame` | webserver.cpp:409-442 | events of others leave a connection's entry alone |
| `Server.WebServer.Timer` | webserver.cpp:167-182 | a new connection gets table entry and timer; descriptors and wheel nodes stay in bijection |
| `Server.WebServer.AdjustTimer` | webserver.cpp:186-207 | the table and hence the pointer the caller holds are unchanged, the connection's rank is 15 again |
| `Server.WebServer.DealTimer` | webserver.cpp:210-219 | the connection and its timer, and nothing else, are gone |
| `Server.WebServer.DealClientData` | webserver.cpp:221-263 | one connection accepted, or all waiting ones, up to the first beyond MAX_FD; false exactly when the first is already beyond it, or in edge-triggered mode always |
| `Server.WebServer.TimerHandler` | timer/lst_timer.cpp:248-255 | the idle map takes one tick |
| `Server.WebServer.DealWithRead` | webserver.cpp:301-344 | in both modes, also through the pointer taken before adjust_timer: after a successful read the descriptor is open with 15 ticks left, after a failed one it is closed and its timer gone |
| `Server.WebServer.DealWithWrite` | webserver.cpp:346-393 | the same for writing |
| `Server.WebServer.Dispatch` | webserver.cpp:409-442 | one reported event has the specified effect on the idle map and the flags |
| `Server.WebServer.OneRound` | webserver.cpp:400-451 | all events of one epoll_wait, then a tick if an alarm was among them |
| `Server.WebServer.EventLoop` | webserver.cpp:395-452 | over every run of rounds descriptors and wheel nodes are in bijection, the user count is their number, and the idle map is the specified one |
| `Activity.AcceptedExactly` | webserver.cpp:221-263 | after an accept event the connection that came first is open with 15 ticks left if fewer than MAX_FD were open; in edge-triggered mode so are as many of those waiting as there were places, and nothing else changes |
| `Activity.LastActive` | webserver.cpp:395-452 | over every run of the event loop, a connection whose last event was its accept, a successful read or a successful write has 15 - a ticks left after a later alarms, and is closed by the 16th |
| `Activity.LastFailed` | webserver.cpp:409-442 | a connection whose last event was a failed read, a failed write or a hang-up is closed from then on, until it is accepted again |
| `Activity.SignalsMean` | webserver.cpp:420-450 | an alarm among the events makes the round tick once, a termination signal alone does not |
| `HttpParser.ScanResumes` | http/http_conn.cpp:167-190 | a scan resumed where an earlier one stopped gives what a scan from the start gives |
| `HttpParser.ScanExtends` | http/http_conn.cpp:167-190 | more bytes change neither a complete nor a bad line |
| `HttpParser.ParseHeadResumes` | http/http_conn.cpp:294-323 | parsing a head in two portions is parsing it in one |
| `HttpParser.LinesAreTheInput` | http/http_conn.cpp:298-302 | the consumed lines joined by CR LF, and the rest, are the bytes received |
| `HttpParser.LinesAreClean` | http/http_conn.cpp:167-190 | no consumed line contains a CR or an LF |
| `HttpFeed.SplitInvariant` | http/http_conn.cpp:218-323 | every division of a head into reads gives the outcome, the parsed request and the remaining state of one read |
| `HttpFeed.IncompleteWaits` | http/http_conn.cpp:298-317 | an incomplete body never completes in the same call, and what is kept is the unscanned rest of what was received |
| `HttpFeed.MovedFeedMisreads` | http/http_conn.cpp:285-317 | once the line starts behind the body's start, every later outcome does: more waiting, or a text from further on |
| `HttpFeed.BodyFeed` | http/http_conn.cpp:285-317 | from the body's start on, with any bytes behind the body, any reads: exactly the body if and only if it arrives, and otherwise a misread |
| `HttpFeed.BodyFraming` | http/http_conn.cpp:255-323 | a request with a body, anything behind it, in any division into reads: do_request gets exactly the body's bytes if it arrives as stated, and otherwise none or those from a later offset |
| `HttpFeed.WellSplitArrives` | http/http_conn.cpp:298-317 | reads that never move the scanner inside the body let it arrive, whatever follows; with nothing behind it, no others do |
| `HttpFeed.BodyAlone` | http/http_conn.cpp:255-323 | with nothing behind the body it completes if and only if no read inside it moves the scanner; otherwise the client waits |
| `HttpFeed.BodyInTwoReads` | http/http_conn.cpp:298-317 | a body cut by one read, with bytes behind it: delivered exactly for first bytes that hold the scanner, or when the second read brings enough beyond |
| `Spelling.CaseIgnored` | http/http_conn.cpp:224-237 | two words are equal for the parser if and only if they have the same letters, each in either case |
| `Spelling.AtolReads` | http/http_conn.cpp:267-270 | a printed number, with a sign or white space in front, is read as that number within the range of a long |
| `Spelling.AtolStops` | http/http_conn.cpp:267-270 | it ends at the first character that is no digit |
| `Spelling.SpaceIs` | http/http_conn.cpp:270 | the white space in front of a number is a blank or one of the five characters from tab to carriage return |
| `Spelling.BlankIs` | http/http_conn.cpp:219-236 | the words of a request line are separated by blanks and tabs, and nothing else |
| `Spelling.ThreeWords` | http/http_conn.cpp:218-243 | a request line of three words with any blanks between them leads on to its target if and only if the first spells get or post and the last http/1.1 |
| `Spelling.FewerWords` | http/http_conn.cpp:218-235 | one or two words are rejected |
| `Spelling.AbsoluteTarget` | http/http_conn.cpp:238-252 | a target with the scheme http or https, in any spelling, is cut to what starts at the first slash behind the host; without a slash http is undefined behaviour and https rejected |
| `Spelling.OtherTarget` | http/http_conn.cpp:238-250 | a target with neither scheme that does not start with a slash is rejected |
| `Spelling.RequestLineTaken` | http/http_conn.cpp:218-253 | a target that starts with a slash is taken as it is, with the method and version of the line |
| `Spelling.LengthHeader` | http/http_conn.cpp:267-270 | content-length in any spelling, any blanks, and a printed number set the content length to that number |
| `Spelling.ConnectionHeader` | http/http_conn.cpp:261-266 | connection in any spelling sets linger exactly for a value that spells keep-alive |
| `Spelling.HostHeader` | http/http_conn.cpp:271-274 | host in any spelling sets the host to its value |
| `Spelling.CookieHeader` | http/http_conn.cpp:275-278 | cookie in any spelling sets the cookie to its value |
| `Spelling.OtherHeader` | http/http_conn.cpp:279-282 | a line that starts with none of the four names, in no spelling, changes nothing |
| `Spelling.ShortestRequest` | http/http_conn.cpp:218-323 | the bytes of a GET for the root page with no header, in one read, are a complete request for / |
| `Spelling.BadRequestLine` | http/http_conn.cpp:303-306 | a request line that is rejected is answered with 400 at once, whatever follows |
| `DiagnosePost.HeadParsed` | http/http_conn.cpp:218-283 | the head of a POST /diagnose, its method, version and field name in any spelling, with any blanks in front of the number, is parsed to exactly that request, whatever the length |
| `DiagnosePost.PostedBodyArrives` | http/http_conn.cpp:218-323 | in every such spelling, every body that fits the buffer, with anything behind it and in every division into reads, arrives exactly or is misread, by where the reads end |
| `DiagnosePost.TwoLetters` | http/http_conn.cpp:298-317 | a body of two letters is answered in one read, not in two, and again in two when one byte more follows |
| `DiagnosePost.WrongBody` | http/http_conn.cpp:298-317 | a body sent letter by letter, and three bytes more: do_request gets its last letter and two of the later bytes |
| `HttpConnection.HttpConn.Receive` | http/http_conn.cpp:197-198 | received bytes go behind those already there |
| `HttpConnection.ReadModes` | http/http_conn.cpp:192-216 | of chunks that fit the buffer the edge-triggered read takes all, if they end in a wait and not in a close or an error; the level-triggered read takes the first and ignores what is behind it |
| `HttpConnection.NoRoom` | http/http_conn.cpp:192-216 | with a full buffer read_once fails in both modes |
| `HttpConnection.HttpConn.ReadOnce` | http/http_conn.cpp:192-216 | in both modes false exactly for a full buffer, a closed connection, an error or, level-triggered, no bytes; otherwise all bytes received are behind those there |
| `HttpConnection.HttpConn.ParseLine` | http/http_conn.cpp:167-190 | the in-place scanner stops as specified, blanks exactly the two line-end bytes, and never takes the CR-before-LF arm |
| `HttpConnection.HttpConn.ParseRequestLine` | http/http_conn.cpp:218-253 | the pointers set into the buffer denote method, url and version as specified; 400 otherwise |
| `HttpConnection.HttpConn.ParseHeaders` | http/http_conn.cpp:255-283 | one header line has its specified effect on linger, content length, host and cookie |
| `HttpConnection.HttpConn.ParseContent` | http/http_conn.cpp:285-292 | complete exactly when the declared bytes are there; the body is then NUL-terminated in place |
| `HttpConnection.HttpConn.ProcessRead` | http/http_conn.cpp:294-323 | the in-place state machine refines the specification on byte strings, outcome by outcome |
| `HttpConnection.HttpConn.Serve` | http/http_conn.cpp:192-323 | read_once and process_read in turn, in place, in both modes: up to the first outcome or the first failing read they show what the specification gives for the bytes read, in the same division |
| `WebBench.Bench.BuildRequest` | test_presure/webbench-1.5/webbench.c:199-291 | succeeds exactly for acceptable urls, prints the specified request, and takes host and port from the url |
| `WebBench.AcceptedIff` | test_presure/webbench-1.5/webbench.c:229-253 | a url is accepted if and only if it has at most 1500 characters, a slash somewhere behind a "://", and, without a proxy, starts with http:// in any spelling |
| `WebBench.UrlWithPort` | test_presure/webbench-1.5/webbench.c:254-270 | scheme, host, port and path put together are taken apart again: the host, the port as its number, 80 for 0, the path with its slash |
| `WebBench.UrlWithoutPort` | test_presure/webbench-1.5/webbench.c:270-274 | without a port the host and path are found and the port stays |
| `WebBench.ProtocolIs` | test_presure/webbench-1.5/webbench.c:207-210 | the protocol is raised to 1.1 for OPTIONS and TRACE, to 1.0 for HEAD and a reload through a proxy, and never lowered |
| `WebBench.RequestSpelledOut` | test_presure/webbench-1.5/webbench.c:212-289 | the text of the request for a page in each protocol, and of a reload through a proxy, letter by letter |
| `WebBench.PrintedRequestLine` | test_presure/webbench-1.5/webbench.c:212-273 | what the parser makes of the printed request line, per method and protocol |
| `WebBench.PrintedHeaders` | test_presure/webbench-1.5/webbench.c:274-289 | the printed headers set the host of a direct request and nothing else |
| `WebBench.PrinterMeetsParser` | test_presure/webbench-1.5/webbench.c:199-291 | for every acceptable url without blanks and line ends the request is taken if and only if it is a GET over HTTP/1.1 for a target the server serves, and then with the url's path and host, no keep-alive, no body; all others get 400 |
| `WebBench.BlanksMeetParser` | test_presure/webbench-1.5/webbench.c:199-291 | for every acceptable url without line ends, in a GET over HTTP/1.1: blanks around the target are dropped, blanks inside it reject the request, and the url check sees its first word |
| `Writer.OnTrackOffers` | http/http_conn.cpp:622-660 | while the iovec is on track it offers exactly the unsent rest of the response |
| `Writer.OnTrackStep` | http/http_conn.cpp:639-648 | a return of writev keeps it on track, or loses the header's end, or moves a CSV body to the file address |
| `Writer.RunConserves` | http/http_conn.cpp:639-640 | sent plus remaining is constant over every run, and sent is what writev returned |
| `Writer.PrefixSent` | http/http_conn.cpp:622-660 | in a benign run the bytes sent are the first bytes_have_send bytes of header and body |
| `Writer.CompleteIffBenign` | http/http_conn.cpp:622-660 | a run taken for complete has sent the response if and only if at most one return left the header partly sent and, for CSV, none the body |
| `Writer.TwoStopsInHeader` | http/http_conn.cpp:645-648 | a complete run of four writes that did not send the response |
| `Writer.OffersUnlessStuck` | http/http_conn.cpp:629-648 | with bytes left, nothing is on offer if and only if no body is queued and the header counts as sent, which no benign run reaches |
| `Writer.StuckForGood` | http/http_conn.cpp:629-659 | from there on every writev returns 0 and changes nothing |
| `Writer.PageGetsStuck` | http/http_conn.cpp:629-659 | a run of two writes that gets there |
| `Writer.ResponseWriter.Account` | http/http_conn.cpp:639-648 | the fields after one writev are those of the specification |
| `Writer.ResponseWriter.Write` | http/http_conn.cpp:622-660 | one call consumes what the socket takes, suspends, fails, finishes or spins as the source does; it suspends only with something on offer, spins only for a page in a run that is not benign, and when it finishes the response was sent if and only if the whole run was benign |
| `Response.ReadDecimal` | http/http_conn.cpp:686-688 | a printed length reads back as itself, and a negative one does not read |
| `Response.UnframePrinted` | http/http_conn.cpp:662-708 | a client splits printed lines and body into exactly those lines and that body |
| `Response.HeadedBehind` | http/http_conn.cpp:678-770 | with room in the buffer every call of add_response succeeds, in the order of the source |
| `Response.WireUnframes` | http/http_conn.cpp:710-780 | the response to each code splits into its status line and fields, and its body |
| `Response.FramedIff` | http/http_conn.cpp:710-780 | Content-Length is the body's length exactly as listed per code: never for 404, below 2 GiB for files and CSV, by the C string for JSON, always for 500 and 400 |
| `Response.JsonIsFramed` | http/http_conn.cpp:743-750 | a JSON text without NUL is framed |
| `Response.HeadCarriesBadRequest` | http/http_conn.cpp:767-770 | whatever head without Content-Length was left in the buffer, as far as there is room, a complete 400 answer follows it as its body |
| `Response.RedirectCarriesBadRequest` | http/http_conn.cpp:340-342 | all three redirections, to the login page, after a login with any token, after a logout, have no Content-Length and a complete 400 answer behind them |
| `Answers.LingerReadsBack` | http/http_conn.cpp:698-700 | the Connection line of an answer, read as a header, sets linger if and only if the answer lingers |
| `Answers.LengthReadsBack` | http/http_conn.cpp:686-688 | the Content-Length line of an answer, read as a header, sets the length that was printed |
| `Answers.StatusOfCode` | http/http_conn.cpp:710-780 | the three digits behind "HTTP/1.1 " read back as 404, 500, 200 or 400 for each code |
| `Answers.HeadsSpelledOut` | http/http_conn.cpp:710-770 | the heads of the 404, 500, empty-file and 400 answers, letter by letter |
| `Answers.ResultHeadsSpelledOut` | http/http_conn.cpp:724-765 | the heads in front of a file, a JSON text and a CSV text, letter by letter around the printed length |
| `Answers.BodiesSpelledOut` | http/http_conn.cpp:710-770 | the body of every answer |
| `Answers.OtherCodes` | http/http_conn.cpp:767-770 | every other code is answered like a bad request |
| `Answers.RoomFor` | http/http_conn.cpp:662-676 | a text is appended if and only if buffer and text together are below 65535 bytes |
| `Answers.RedirectsSpelledOut` | http/http_conn.cpp:340-342 | the lines of the three redirections |
| `Response.SentResponse` | http/http_conn.cpp:622-780 | from process_write to the last writev a benign run delivers the response byte for byte, and only a benign one sends all the right addresses |
| `Response.Responder.AddResponse` | http/http_conn.cpp:662-676 | appends the whole text and keeps the index below the buffer's last byte, or fails and leaves the text as it was |
| `Response.Responder.ProcessWrite` | http/http_conn.cpp:710-780 | buffer, iovec and counters after process_write, from any buffer; false exactly when the page does not fit |
| `Csv.PiecesAreTheText` | http/http_conn.cpp:377-381 | the pieces getline delivers are the text, up to one delimiter at its end |
| `Csv.ParseRow` | http/http_conn.cpp:379-383 | the cells of one row, or the exception of stof for a cell that is no number |
| `Csv.ParseCsv` | http/http_conn.cpp:371-412 | the first bad row decides the error; otherwise floor(rows / 64) samples of 192 cells whose concatenation is a prefix of the cells |
| `Csv.RowsAreLines` | http/http_conn.cpp:377-378 | lines end at a line feed, the last one also at the end, and empty lines are skipped |
| `Csv.CellsAreBetweenCommas` | http/http_conn.cpp:379-383 | cells end at a comma; an empty cell counts, except behind the last comma |
| `Csv.SamplesHoldTheRows` | http/http_conn.cpp:371-412 | three numbers in every row: below 64 rows an error, otherwise sample i holds the cells of rows 64i to 64i + 63 in order, and the remaining rows are dropped |
| `Csv.FirstBadRowDecides` | http/http_conn.cpp:377-391 | the first row that is not three numbers decides the error, and a cell that is no number goes before a wrong number of cells |
| `Csv.PrintCsv` | http/http_conn.cpp:446-453 | prints the first 192 cells of each result as rows of three |
| `Csv.RowText` | http/http_conn.cpp:446-453 | a row is printed with commas between its cells and a line feed behind them |
| `Csv.PrintedRows` | http/http_conn.cpp:446-453 | the rows and cells of a printed text are those that were printed |
| `Csv.CsvRoundTrip` | http/http_conn.cpp:371-453 | parsing the print of samples gives exactly those samples |
| `ThreadPool.StepKeepsInv` | threadpool/threadpool.h:94-153 | every step of every thread keeps the invariant of mutex, queue, wake-ups and shutdown |
| `ThreadPool.NoLostWakeUp` | threadpool/threadpool.h:104-153 | while a worker sleeps, queued requests are no more than notifies to come and workers about to look; requests are taken once, in order of acceptance; the queue is bounded |
| `Acceptance.PushAccepts` | threadpool/threadpool.h:104-132 | in every reachable state append turns a request away if and only if the queue holds m_max_requests, and otherwise adds exactly that request |
| `Acceptance.AppendAsks` | threadpool/threadpool.h:104-108 | append goes for the mutex with the request it was given, or does nothing once stop() has set its flag |
| `Acceptance.AppendIsTaken` | threadpool/threadpool.h:104-153 | from every reachable state with stop() not called, a worker left and an idle producer, an append can be continued, without another append, until its request is taken by a worker |
| `ThreadPool.WorkIsServed` | threadpool/threadpool.h:104-153 | while a request waits and a worker is left, some thread can go on, nearer to the request being taken |
| `ThreadPool.RequestsAreServed` | threadpool/threadpool.h:104-153 | from every reachable state with a worker left, the threads can go on, without another append or a spurious wake-up, until all requests accepted so far have been taken |
| `ThreadPool.EveryRequestIsTaken` | threadpool/threadpool.h:104-153 | the same for every run |
| `ThreadPool.ShutdownDrains` | threadpool/threadpool.h:94-153 | when all workers have left, at most as many requests are stranded as appends were between flag and mutex when the flag was set; with none, every accepted request was taken |
| `ThreadPool.StopIsSafeIff` | threadpool/threadpool.h:94-153 | calling stop() in a reachable state strands no request, in any continuation, if and only if no append is between its look at the flag and the mutex |
| `ThreadPool.InFlightCanStrand` | threadpool/threadpool.h:94-153 | from every reachable state with such an append the threads can go on so that a request is stranded |
| `ThreadPool.Drains` | threadpool/threadpool.h:125-153 | once the flag is set, all workers can leave while the appends in flight stay where they are |
| `ThreadPool.InFlightIsStranded` | threadpool/threadpool.h:94-120 | a run in which an append in flight strands its request |
| `ThreadPool.StopHangsIff` | threadpool/threadpool.h:94-153 | from the notify_all of stop() a state is reachable in which nobody can go on, if and only if a worker is between its test and its sleep and no append is between its look at the flag and the mutex |
| `ThreadPool.LateCanHang` | threadpool/threadpool.h:94-153 | from every such state the threads can go on so that the late worker sleeps and stop() waits for it |
| `ThreadPool.StepKeepsWoken` | threadpool/threadpool.h:104-153 | with an append in flight at notify_all, every step keeps a notify ahead of the late worker |
| `ThreadPool.StopGetsOn` | threadpool/threadpool.h:94-102 | after notify_all at most one worker can be asleep or about to be, and with none late stop() gets on until all are joined |
| `Shutdown.Returns` | threadpool/threadpool.h:94-153 | from every reachable state after notify_all in which whoever sleeps has a notify to come, the threads can go on, without another append or a spurious wake-up, until stop() has joined all workers |
| `Shutdown.StopReturnsIff` | threadpool/threadpool.h:94-153 | stop() can return in every continuation of its notify_all, if and only if no worker was between its test and its sleep or some append was between its look at the flag and the mutex |
| `ThreadPool.StopCanHang` | threadpool/threadpool.h:94-102 | a run in which the wake-up is lost and no thread can go on |
| `ConnectionPool.StepKeepsInv` | CGImysql/sql_connection_pool.cpp:63-100 | every step of every thread keeps the invariant of semaphore, list, counters and holders |
| `ConnectionPool.InitialInv` | CGImysql/sql_connection_pool.cpp:26-59 | init establishes it |
| `ConnectionPool.FrontExists` | CGImysql/sql_connection_pool.cpp:63-82 | the front of the list is never taken from an empty list |
| `ConnectionPool.Accounts` | CGImysql/sql_connection_pool.cpp:63-100 | list length = semaphore count + tokens not yet popped + pushes not yet posted; free + in use = max, and free is the list length whenever the mutex is free |
| `ConnectionPool.OneHolder` | CGImysql/sql_connection_pool.cpp:63-100 | no connection has two holders, none held is in the list, none is lost |
| `ConnectionPool.SomebodyPosts` | lock/locker.h:43-61 | from every reachable state the others can go on until one of them posts and wakes a given sleeper |
| `ConnectionPool.TokenIsHonoured` | CGImysql/sql_connection_pool.cpp:70-81 | a thread past the semaphore gets its connection once the others have let go of the mutex |
| `ConnectionPool.SleeperIsServed` | CGImysql/sql_connection_pool.cpp:63-100 | every run in which a thread sleeps on the semaphore can be continued, without another request or a spurious wake-up, until that thread has its connection |
| `ConnectionPool.FirstComeFirstGiven` | CGImysql/sql_connection_pool.cpp:63-100 | over every run the connections handed out, then those in the list, are the initial ones and those given back, in that order |
| `ConnectionPool.AskTurnsAway` | CGImysql/sql_connection_pool.cpp:67-70 | GetConnection returns NULL if and only if the list is empty at its look; otherwise it goes to the semaphore |
| `ConnectionPool.AskerIsServed` | CGImysql/sql_connection_pool.cpp:63-82 | from every reachable state with a connection in the list, a request can be continued, without another request or a spurious wake-up, until that thread has a connection |
| `LogBuffers.NothingLost` | log/log.cpp:31-70 | at every step file, rest of the output buffer and input buffer make up the queued messages in order, and the output buffer is empty at every swap |
| `LogBuffers.WriterKeeps` | log/log.cpp:123-219 | the steps of write_log keep that |
| `LogBuffers.BackendKeeps` | log/log.cpp:31-70 | the steps of async_write_log keep that |
| `LogBuffers.MessagesArrive` | log/log.cpp:31-70 | from every reachable state the back end and the holder of the mutex alone bring every message queued so far into the file, in front of everything else |
| `LogBuffers.EveryMessageArrives` | log/log.cpp:31-70 | the same for every run, which can be so continued without another message |
| `LogBuffers.RunInOrder` | log/log.cpp:123-219 | over every run the messages a thread has called write_log with are, in order, those queued as its own and the one it is at |
| `LogBuffers.CallsAreRecorded` | log/log.cpp:123-219 | a call is its thread's last one; the mutex is free while the message is formatted and after the call |
| `LogBuffers.EveryCallIsLogged` | log/log.cpp:31-219 | every run can be continued, without another call, so that the file holds for each thread exactly the messages it called write_log with, in the order of its calls |
| `BlockQueue.WindowPush` | log/block_queue.h:127-147 | writing the next slot appends to the window, across wrap-around |
| `BlockQueue.WindowPop` | log/block_queue.h:149-169 | advancing the front takes the first element off the window |
| `BlockQueue.Queue.Push` | log/block_queue.h:127-147 | appends, or fails when full |
| `BlockQueue.Queue.Pop` | log/block_queue.h:149-199 | delivers and removes the first element; false only when empty |
| `BlockQueue.Queue.Back` | log/block_queue.h:90-101 | delivers the last element |
| `BlockQueue.Queue.Front` | log/block_queue.h:77-88 | delivers not the first element: nothing valid before the first pop, then the one popped last, and the newest when full |
| `BlockQueue.FrontIsFirstIff` | log/block_queue.h:77-88 | with different elements, front() delivers the first one if and only if the queue has one slot and something was popped |
| `BlockQueue.FrontAfterPop` | log/block_queue.h:77-88 | after pushing 1 and 2 and popping 1, front() delivers 1 and pop() 2 |
| `BlockQueue.Queue.Clear` | log/block_queue.h:34-41 | empties the queue |

## Left out

- Sockets, epoll, accept, stat, mmap, alarm, signals and clocks are inputs: chunks read, room in the socket, fresh descriptors, event batches. The value of `time(NULL)` is arbitrary.
- Server.WebServer.Timer: assumes that the kernel's descriptor is not open already and below MAX_FD; the source does not check it against the size of its tables.
- Server.WebServer.EventLoop: events name open connections, and workers do not close connections themselves (`close_conn`) while a round is handled.
- HttpConnection.HttpConn.ProcessRead: a negative Content-Length, a write of the body's NUL outside the buffer and an absolute url without a slash end in undefined behaviour in the source; the model reports them as such and says nothing about what happens then. `do_request` is not part of it.
- HttpFeed.BodyFraming: for a Content-Length that is positive and a body that ends inside the buffer. Texts are told apart by where they start, so a misread text may happen to equal the body.
- HttpConnection.HttpConn.ReadOnce: says nothing about the fields after false, when the caller closes the connection; the source then has m_read_idx one lower if a level-triggered recv failed.
- Writer.ResponseWriter.Write: counters are unbounded; the source's are 32-bit, so a response of 2 GiB or more is outside the model. A call from which the source never returns comes back with the end Spinning.
- Writer.CompleteIffBenign: bytes are told apart by address, so a wrong byte that happens to have the right value counts as wrong.
- Response.RedirectCarriesBadRequest: for session tokens below 60000 bytes without CR, LF or NUL; the source's are 32 hexadecimal digits.
- Response.SentResponse: the file's bytes do not change while it is being sent.
- Response.Responder.ProcessWrite: the formats are expanded to strings before they are copied.
- Csv.ParseCsv: cells are texts; which texts are numbers is a parameter, and rounding and number formatting are not modelled. Only the first sample is used further by the source.
- ThreadPool.NoLostWakeUp: taking a connection, processing and releasing are one stretch of a worker; exclusive access to a request while it is processed is assumed.
- Shutdown.StopReturnsIff: says that the threads can go on to the return, not that the scheduler lets them. A second `stop()` by the destructor is not modelled.
- ConnectionPool.OneHolder: threads release only what they got. `DestroyPool` is left out, and the unlocked read of the list's size is one atomic step.
- LogBuffers.NothingLost: without log rotation, which reopens the file while the back end may be writing, and without `flush`. Messages are opaque texts.
- BlockQueue.Queue.Pop: entered when the wait is over; blocking and the time computation are not modelled.
- WebBench.PrinterMeetsParser: for urls without line ends; a url with CR or LF inside, which build_request accepts, prints more lines than one request has. Blanks are treated in BlanksMeetParser for a GET over HTTP/1.1 only.
- WebBench.Bench.BuildRequest: without the fixed sizes of the host, request and port buffers, and the texts printed before an exit.
- The destructor of the pool, the locks of `MemoryPool` (only the main thread uses it), configuration, login and static routing in `do_request`, sessions, JSON, Redis, MySQL calls, model inference, and the benchmark's forking and timing.
- The loops of `process_read` and of its helpers are one method per phase and step in `HttpConn.dfy`; the order of tests and effects is the source's.
