# x-net verification

A Dafny model of x-net, a small reactor framework in C with an HTTP server on top, and proofs about
its behaviour. `dafny verify dfyconfig.toml` checks the whole project.

## What is modelled

The model follows the C code branch by branch: the same constants, the same error paths, the same
unsigned arithmetic where it matters. Objects that the code updates in place are classes over real
arrays and linked cells; what their methods do is stated against functions on values, and the
properties are proved about those functions and about state machines built from them. Bytes are
`char`s, strings are NUL-free sequences. Where the code departs from its evident intent, the code is
modelled as it stands, and a lemma gives the condition under which the intent is met, or an input
for which it is not.

**Search and buffer.** `Memmem` is `memmemx` with its wrapping window length, over memory that
extends to the end of the allocation; the answer is right exactly on the inputs that satisfy a
decidable condition. `Buffers` is the byte buffer: an array with compaction, growth and two-part
socket reads, refining a FIFO, with a bound on its size over whole runs.

**Connection and echo.** `Connections` is the output protocol: direct write, buffering, EVENT_WRITE
on and off. `Echo` runs it under the rot13 application for any chunks, partial writes and failures.

**Event loop.** `EventTables` says what a list of registrations does to the slot array and to the
kernel's interest set. `EventLoops` is the loop's data structure: the linked pending list and the
doubling slot array. `LoopProtocol` is the concurrent protocol as a step system: threads with
program counters, mutex, flag, pending list, unread wakeup bytes, kernel reports. `LoopInvariants`,
`LoopKernel`, `LoopTheorems` and `LoopProgress` prove what every interleaving keeps and that the
work gets done; `LoopCalls` and `LoopDelivery` follow whole calls and whole rounds of the loop, from
another thread's call to slots and kernel and from a write report to the wire; `LoopStale` is a run
that crashes. A step is a stretch of code within which no other
thread can be noticed.

**HTTP.** `Tokens` and `HttpRequests` are the query and cookie tokenisers, cutting strings up in
place. `HttpParser` is the line-driven parser over the shared buffer, including the ways in which
its loop does not return. `HttpRoundTrip` and `HttpChunks` print requests and parse them back.
`HttpResponses` is the encoder; `HttpFraming` is a client's decoder after RFC 9112, which knows the
methods of the requests sent and is defined without the encoder; `HttpMirror` runs the server's own
parser over encoded responses. `HttpServer` puts parser, callback, encoder and connection together
and goes from the requests a client writes to the responses it decodes.

**Inverse pairs and threads.** `UrlDecoding` is percent decoding against every encoding of section
2.1 of RFC 3986. `ConfigFiles` and `ConfigLoader` are the key/value loader. `StartHandshake` is the
mutex and condition variable handshake that starts a worker, `ThreadPools` the round robin over the
workers.

Nondeterminism is a parameter: what the kernel takes or delivers (`WriteResult`, `ReadResult`), what
stands in memory beside a buffer (`before`, `stale`), the interleaving (the list of actions), the
application's callback (a function), the file and the environment (values).

## Where code and intent differ

- lib/tcp_connection.c:64 declares `nwrited` unsigned, so a failed direct write is taken for a huge
  success and `size + 1` bytes from `data - 1` on are buffered. The echo stream is therefore right
  exactly when no direct write fails.
- lib/channel.c:31 and :43 take `chan->data` for an event loop although lib/tcp_connection.c:43
  stores the connection there. The model uses the connection's own loop.
- lib/utils.c:36 subtracts the distance from the original start on every retry, and :30 may compare
  beyond the window.
- http-server/http_server.c:60 keeps looping while there is no CRLF, so an incomplete request stops
  the thread; :90-94 ends the headers at any line without ": " and steps over two bytes only; with two
  bare colons in a line it computes a negative length.
- http-server/http_server.c:103-130 answers one request per read: a pipelined request waits for more
  bytes to arrive.
- http-server/http_request.c:211 matches headers by key prefix; :230-232 passes a null pointer for an
  HTTP/1.0 request without a Connection header, and tests a comparison for exactly 1.
- http-server/http_response.c:38-39 writes `Connection: close` when `keep_connected` is nonzero, and
  :42 cuts the Content-Length line of bodies of 10^13 bytes and more; :57-60 writes the body whatever
  the request's method and the status, which a client of HEAD, CONNECT, 204 and 304 misreads.
- http-server/static_file.c:57-77: the unsigned budget wraps round when an escape straddles it.
- tests/test_buffer.c:121-131 expects growth where lib/buffer.c:46-48 returns early; the code is
  followed.
- lib/config_loader.c:152-201 reads eight environment variables; keep_alive_timeout and
  max_request_size have none.

## Model

| member | source | states |
|---|---|---|
| Memmem.Memmemx | lib/utils.c:16-41 | the search loop, with its unsigned window length and its reads beyond the window, computes `Lookup` |
| Memmem.MemmemxExact | lib/utils.c:16-41 | the answer is the first occurrence in the window, or null when there is none, if and only if the first agreement with the needle, or the end of the memory, is reached through the shrinking window exactly when it is a match inside it |
| Memmem.OneFalseCandidateIsSound | lib/utils.c:28-38 | at most one false candidate before the answer or the window's end, and no straddling match, suffice |
| Memmem.TwoFalseCandidatesMiss | lib/utils.c:35-37 | two false candidates: an occurrence is missed |
| Memmem.ShrinkIs | lib/utils.c:36 | the window of a retry is the remainder of the difference modulo 2^64: below zero it is huge |
| Memmem.WrappedSearch | lib/utils.c:29-38 | two false candidates whose offsets together exceed the window: the next agreement anywhere in the memory is returned, or the search runs over its end |
| Memmem.TwoColons | lib/utils.c:29-38 | two bare colons in a line: the search for ": " leaves the line and finds a later one's |
| Memmem.TwoColonsLeaveTheLine | lib/utils.c:29-38 | `Host:localhost:8080` is such a line |
| Memmem.LookupOneFalse | lib/utils.c:28-40 | a single candidate that is false gives null |
| Memmem.LookupFirst | lib/utils.c:28-33 | with no false candidate the match is found, as on the lines the parser's clients print |
| Memmem.LookupLastByte | lib/utils.c:28-38 | a false candidate on the window's last byte ends the search without a match |
| Memmem.LookupMemoryEnd | lib/utils.c:28-33 | a false candidate on the memory's last byte is compared beyond it |
| Memmem.LookupNone | lib/utils.c:28-40 | null when the needle's first byte does not occur in the window |
| Buffers.Buffer.constructor | lib/buffer.c:7-22 | an empty buffer of 65535 bytes |
| Buffers.Buffer.MakeRoom | lib/buffer.c:41-66 | early return, overlapping compaction byte by byte, or growth by the request; the contents survive and the room is there |
| Buffers.Buffer.Append | lib/buffer.c:69-79 | appends to the FIFO; empty data is refused with -1 |
| Buffers.Buffer.AppendChar | lib/buffer.c:82-91 | appends one byte |
| Buffers.Buffer.AppendString | lib/buffer.c:94-101 | appends a string and returns its length, or -1 for the empty one |
| Buffers.Buffer.SocketRead | lib/buffer.c:104-127 | bytes beyond the tail go through the extra buffer and arrive in order; a failed read changes nothing |
| Buffers.Buffer.Read | lib/buffer.c:130-145 | takes the first min(size, readable) bytes |
| Buffers.Buffer.ReadChar | lib/buffer.c:148-161 | takes the first byte, through a signed char |
| Buffers.Buffer.FindCRLF | lib/buffer.c:164-173 | the search over readable bytes and the memory behind them |
| Buffers.StepMoves | lib/buffer.c:41-161 | every operation takes from the front what it returns and puts behind what it is given, and keeps the indices ordered |
| Buffers.ReserveIs | lib/buffer.c:46-64 | the size grows exactly if the bytes do not fit, by the bytes to come; the contents move to the front exactly if they fit only there |
| Buffers.ArriveIs | lib/buffer.c:104-127 | a socket read makes room only for what overflows the tail |
| Buffers.FifoOverRuns | lib/buffer.c:41-161 | over any sequence of operations, bytes taken followed by bytes held equal bytes put, and the size never exceeds max(65535, twice the largest content so far) |
| Buffers.ReadCharAmbiguity | lib/buffer.c:148-161 | a byte reads as the number in [-128, 127] congruent to it modulo 256; only 0xFF reads as -1, the answer for an empty buffer |
| Channels.WriteBitOnly | lib/channel.c:26-48 | enabling and disabling touch only the write bit, undo each other, and switch exactly EPOLLOUT in the kernel's mask, whose read and write bits are those of the channel's mask |
| Channels.Channel.WriteEventEnable | lib/channel.c:26-36 | sets the bit and counts one update for the loop |
| Channels.Channel.WriteEventDisable | lib/channel.c:38-48 | clears the bit and counts one update for the loop |
| Connections.SendStream | lib/tcp_connection.c:63-99 | a send appends its bytes to the stream exactly once, plus one stray byte if the direct write failed, and leaves EVENT_WRITE set iff bytes are buffered |
| Connections.FlushStream | lib/tcp_connection.c:120-141 | a flush moves bytes to the wire without changing the stream, and switches EVENT_WRITE off exactly when nothing is left |
| Connections.SendSplits | lib/tcp_connection.c:63-92 | what a direct write takes is on the wire and nowhere else, the rest is buffered; without a direct write nothing reaches the wire; the write bit and the update go with the first byte buffered |
| Connections.FlushSplits | lib/tcp_connection.c:120-141 | the bytes taken go from the front of the output to the wire; the last of them clears the write bit and submits an update |
| Connections.Connection.SendData | lib/tcp_connection.c:63-92 | the method refines the stream step; the wire has grown by exactly the bytes counted in the return value, and a direct write leaves the others in the output |
| Connections.Connection.SendBuffer | lib/tcp_connection.c:94-99 | sends and empties the caller's buffer, and returns what the direct write returned |
| Connections.Connection.ReadInput | lib/tcp_connection.c:107-117 | the callback is due exactly when bytes arrived |
| Connections.Connection.HandleWrite | lib/tcp_connection.c:120-141 | the method refines the flush step; the write-completed callback is due exactly when bytes were taken |
| Echo.HandleStream | lib/tcp_connection.c:107-141 | one handler call appends the rot13 of what it received to the stream |
| Echo.EchoExact | src/main.c:23-34 | in every run the input buffer is empty between handlers, unsent bytes are watched, the stream has one byte more per failed direct write, and it equals rot13 of everything received if and only if there was none |
| Echo.DeliveredAll | src/main.c:23-34 | with nothing left in the output, the wire carries the whole translation |
| Echo.EchoDelivers | lib/tcp_connection.c:120-141 | after a run without failed direct writes, as many write reports as bytes are buffered put the whole translation on the wire |
| Echo.FailedWriteCorrupts | lib/tcp_connection.c:72-86 | one failed direct write: a byte nobody sent is delivered |
| Echo.Rot13Twice | src/main.c:7-14 | echoing the echo gives the original |
| Echo.Rot13Rotates | src/main.c:7-14 | each letter goes thirteen places round its alphabet of 26, and everything else stays |
| Echo.Translate | src/main.c:27-31 | the read and append loop consumes the input and produces its rot13 |
| Echo.OnMessage | src/main.c:23-34 | the callback refines the message step |
| Echo.HandleRead | lib/tcp_connection.c:107-118 | the read handler with the echo callback refines the run's step |
| EventTables.ApplyKeepsAgreement | lib/event_loop.c:185-251 | a slot is occupied exactly when the kernel watches the descriptor, after every operation |
| EventTables.DrainExact | lib/event_loop.c:119-251 | a history of operations is applied without a null or out-of-range access if and only if each update and removal finds its descriptor in range and registered; then slots and kernel masks are what the history means |
| EventTables.DisciplinedIsSafe | lib/event_loop.c:185-251 | additions before updates and removals, and nothing after a removal, suffice |
| EventTables.LiveMeansAdded | lib/event_loop.c:185-251 | a descriptor is registered exactly when its last addition has not been undone |
| EventTables.CapacityDoubles | lib/channel_map.c:6-13 | the array keeps its size if the slot is in it, and is otherwise doubled, from 32 if empty, as often as it takes and no more |
| EventLoops.EventLoop.BufferNolock | lib/event_loop.c:145-158 | appends a cell to the linked list: the list stays acyclic, its tail is its last cell |
| EventLoops.EventLoop.MakeSpace | lib/channel_map.c:5-27 | doubles from 32 until the slot fits, keeps the old entries and clears the new ones |
| EventLoops.EventLoop.PendingAdd | lib/event_loop.c:185-209 | registers in a free slot, leaves an occupied one alone, and says which |
| EventLoops.EventLoop.PendingRemove | lib/event_loop.c:211-236 | unregisters and clears the slot |
| EventLoops.EventLoop.PendingUpdate | lib/event_loop.c:238-251 | passes the channel's present events to the kernel; the return code, where the code has one |
| EventLoops.EventLoop.HandlePendingChannel | lib/event_loop.c:119-143 | draining the list applies its operations in order and empties it |
| EventLoops.EventLoop.DoChannelEvent | lib/event_loop.c:160-171 | on the owner's thread the operation and everything before it is applied; on another it is listed |
| EventLoops.EventLoop.UpdateChannelEvent | lib/event_loop.c:181-183 | on the owner's thread the kernel is left with the channel's mask; on another the update is listed |
| EventLoops.EventLoop.WriteEventEnable | lib/channel.c:26-36 | sets the bit and submits the update to the loop: drained at once, the kernel watches for writability |
| EventLoops.EventLoop.WriteEventDisable | lib/channel.c:38-48 | clears the bit and submits the update to the loop: drained at once, the kernel no longer watches for writability |
| EventLoops.EventLoop.Activate | lib/event_loop.c:253-279 | which channel a report reaches, and which of its callbacks run |
| LoopTheorems.Always | lib/event_loop.c:99-171 | every interleaving keeps all of the invariants |
| LoopTheorems.Linearised | lib/event_loop.c:119-251 | operations applied followed by those in the list equal all operations enqueued in mutex order; slots and kernel are what the applied ones mean |
| LoopTheorems.MutualExclusion | lib/event_loop.c:119-163 | one thread at a time between lock and unlock, the flag only while it drains, no thread can lock while the flag is up, so the assertion of line 162 never fires |
| LoopTheorems.AssertionChecked | lib/event_loop.c:161-162 | the assertion fails exactly for a submitter that locks while the flag is up |
| LoopTheorems.NoLostWakeup | lib/event_loop.c:99-171 | while the owner waits with no unread byte, listed work has a submitter that is about to write one |
| LoopTheorems.LiveSlots | lib/event_loop.c:211-251 | with disciplined submissions every drained update or removal finds its own live slot |
| LoopTheorems.ActivationLive | lib/event_loop.c:253-265 | the assertion in the activation holds if and only if the reported descriptor's last addition has not been undone, in particular if nothing was removed since the wait |
| LoopStale.StaleReportCrashes | lib/event_loop.c:264-265 | wherever a handler runs with a report for another registered channel still in the batch, removing that channel makes the next activation dereference an empty slot |
| LoopStale.StaleRunCrashes | lib/event_loop.c:99-265 | a run from a fresh loop that does so: two channels reported by one wait, the first one's handler removes the second |
| LoopTheorems.NoStuckOutput | lib/epoll_dispatcher.c:106-128 | at rest the kernel mask of each registered channel is the translation of its events, so a connection is watched for writability exactly while it has unsent bytes |
| LoopDelivery.FlushStep | lib/tcp_connection.c:129-135 | a write handler's step: bytes go from the output to the wire, the last one clears the write bit and submits the update, nothing else changes |
| LoopDelivery.SendStep | lib/tcp_connection.c:71-90 | a send's step: what the kernel takes is on the wire, the rest behind the output, and the update is submitted when EVENT_WRITE comes on |
| LoopDelivery.AlterStep | lib/channel.c:26-48 | a mask changed by any thread is submitted as an update |
| LoopDelivery.HandlersKeepStream | lib/tcp_connection.c:63-141 | in every reachable state a flush leaves wire and output together as they were, with the output shorter by what was taken, and a send ends them with its bytes |
| LoopDelivery.ReportRunsHandler | lib/event_loop.c:253-276 | a report that reaches a registered channel runs its handler, which may send, flush and call into the loop |
| LoopDelivery.WakeReportTakesByte | lib/event_loop.c:10-19 | a report for the wakeup socket takes one byte and runs no other handler |
| LoopDelivery.RemoteCallApplied | lib/event_loop.c:99-171 | an operation submitted by another thread while the owner sleeps reaches slots and kernel through the wakeup byte |
| LoopDelivery.RoundDrains | lib/tcp_connection.c:120-141 | one wait that reports a connection writable: its bytes are written, and the loop waits again with the connection's present mask |
| LoopDelivery.OutputDrains | lib/tcp_connection.c:120-141 | write reports whose writes take at least one byte each drain the output, in order, in at most as many reports as it has bytes, and switch EPOLLOUT off |
| LoopDelivery.ReachableOutputDrains | lib/epoll_dispatcher.c:130-157 | the same from every reachable state at rest |
| LoopKernel.KeepsKernel | lib/channel.c:26-48 | in every step, the kernel mask agrees with the channel's events or an update is on its way |
| LoopProgress.MeasureDrops | lib/event_loop.c:99-171 | every step of any thread lowers one measure, but for a fixed amount per new call or new report |
| LoopProgress.SettledIsDone | lib/event_loop.c:99-171 | where no internal step is possible, the list is empty and everything enqueued has been applied |
| LoopProgress.LoopSettles | lib/event_loop.c:99-171 | from every reachable state, every interleaving is at most as long as the work at hand and the new calls and reports in it allow; where only new ones could follow, and nothing has crashed, all enqueued work is done: the owner is never blocked for ever on submitted work |
| Tokens.TokeniseJoin | http-server/http_request.c:313-333 | joining tokens and splitting them again gives the same tokens |
| Tokens.TokeniseSplits | http-server/http_request.c:313-333 | any text splits at every delimiter, and empty pieces are no tokens |
| Tokens.BareTokenSkipped | http-server/http_request.c:317-331 | a token without '=' adds nothing and takes no place among the pairs |
| Tokens.TrimmedIs | http-server/http_request.c:358-361 | cookie tokens lose all leading spaces |
| Tokens.QueryRoundTrip | http-server/http_request.c:291-336 | a printed query is parsed back: the path before the first '?', and the first 32 pairs in order |
| Tokens.CookieRoundTrip | http-server/http_request.c:338-381 | a printed cookie header is parsed back: the first 32 pairs in order |
| Tokens.Find | http-server/http_request.c:263-289 | the first pair with that key, or none |
| Tokens.FindHeader | http-server/http_request.c:208-217 | the first header whose key begins with the name |
| Tokens.HeaderLookupExact | http-server/http_request.c:208-217 | the prefix comparison finds the header asked for if and only if no longer key with that beginning stands before it |
| Tokens.LongerKeyShadows | http-server/http_request.c:208-217 | Cookie2 in front of Cookie is returned for Cookie |
| HttpRequests.Strtok | http-server/http_request.c:314-332 | cutting the next token out of the string in place, as the tokenisation says |
| HttpRequests.PairLoop | http-server/http_request.c:316-333 | the loop over tokens collects the pairs until 32 are held, overwriting the string |
| HttpRequests.MethodNames | http-server/http_request.c:239-261 | the seven names and the enumeration are inverse to each other; any other text is unknown |
| HttpRequests.PairsAppend | http-server/http_request.c:316-378 | pairs are added behind those held, and at most 32 are held |
| HttpRequests.HttpRequest.ParseQueryString | http-server/http_request.c:291-336 | path and parameters of the url |
| HttpRequests.HttpRequest.ParseCookies | http-server/http_request.c:338-381 | cookies of the first header that begins with Cookie |
| HttpRequests.HttpRequest.GetParam | http-server/http_request.c:263-275 | the value of the first parameter with that key, or none |
| HttpRequests.HttpRequest.GetCookie | http-server/http_request.c:277-289 | the value of the first cookie with that name, or none |
| HttpRequests.HttpRequest.GetHeader | http-server/http_request.c:208-217 | the value found by the prefix search |
| HttpRequests.HttpRequest.AddHeader | http-server/http_request.c:193-206 | at most 128 headers |
| HttpRequests.HttpRequest.Reset | http-server/http_request.c:117-191 | the request is as new |
| HttpParser.ProcessStatusLine | http-server/http_server.c:18-56 | method, url and version of the line; fails exactly where an assertion does |
| HttpParser.StatusLineExact | http-server/http_server.c:18-56 | a status line is accepted if and only if it holds two spaces |
| HttpParser.TwoColonsOverrun | http-server/http_server.c:76-86 | `Host:localhost:8080`: the value's length would be negative |
| HttpParser.ProcessHeaderLine | http-server/http_server.c:71-95 | a header, or the end of the headers, or a read outside the line |
| HttpParser.Iterate | http-server/http_server.c:60-98 | one round of the loop: it consumes a line, or changes nothing, or fails |
| HttpParser.ParseHttpRequest | http-server/http_server.c:58-101 | the loop as a function of the bytes: what it returns, and when it does not |
| HttpRoundTrip.ExpectedFields | http-server/http_server.c:18-94 | what the parsed request holds, field by field, with at most 128 headers |
| HttpRoundTrip.RequestRoundTrip | http-server/http_server.c:58-101 | a printed request is parsed back and exactly its bytes are consumed, whatever follows and whatever the memory behind holds |
| HttpRoundTrip.PipelineRoundTrip | http-server/http_server.c:58-129 | printing any list of requests back to back, then parsing and resetting, gives them back in order |
| HttpRoundTrip.ParseEndsIffComplete | http-server/http_server.c:58-101 | the parse loop completes if and only if the whole request has arrived |
| HttpRoundTrip.LooseLineEnds | http-server/http_server.c:90-94 | a line without ": " behind the headers completes the request and only its first two bytes are stepped over: what is left begins with its third |
| HttpRoundTrip.BadStatusAborts | http-server/http_server.c:23-37 | a first line with fewer than two spaces fails an assertion |
| HttpChunks.ChunkIndependence | http-server/http_server.c:60-98 | however the request is cut, and however often the parser goes round between arrivals: the parser leaves the buffer's memory if and only if it goes round while the bytes to read end in their only CR on the last byte of that memory; otherwise the result and the bytes left are those of whole delivery |
| Decimals.DigitsRoundTrip | http-server/http_response.c:42-42 | the printed number is the number |
| Decimals.DigitsFit | http-server/http_response.c:42-42 | at most k digits exactly below 10^k |
| HttpResponses.HttpResponse.EncodeBuffer | http-server/http_response.c:25-61 | status line, connection headers, headers and body are appended in that order |
| HttpResponses.HttpResponse.AddHeader | http-server/http_response.c:63-76 | at most 128 headers |
| HttpFraming.ContentLengthFits | http-server/http_response.c:30-44 | the 32-byte buffer holds the Content-Length line if and only if the body is shorter than 10^13 |
| HttpFraming.DecodeHeaderPart | http-server/http_response.c:48-55 | the header block decodes to the headers written |
| HttpFraming.BodyLengthIs | http-server/http_response.c:38-46 | section 6.3 of RFC 9112: no body where rules 1 and 2 allow none, for the request's method and the status; otherwise the announced length, or until close |
| HttpFraming.DecodeEncoded | http-server/http_response.c:25-61 | an encoded response in front of any bytes: a client that expects no body leaves the body in front of those bytes, a response with a length leaves exactly those bytes, any other swallows them |
| HttpFraming.FirstRead | http-server/http_response.c:23-61 | how a client goes on after an encoded response, and with which request: at its empty line when the method or the status allows no body, behind the announced length, or not at all |
| HttpFraming.LongBodyMisread | http-server/http_response.c:42-45 | a length line cut short runs into the next header line, and the client reads wrong fields or nothing |
| HttpFraming.FramingExact | http-server/http_response.c:25-61 | a connection's byte stream splits back, for a client that knows its requests' methods, into the responses written to it if and only if every length line is whole, no response that must not have a body has one, and all but the last say where they end |
| HttpMirror.EncodeIsPrint | http-server/http_response.c:25-61 | an encoded head has the layout of a printed request |
| HttpMirror.ParserReadsEncoded | http-server/http_server.c:58-101 | the request parser reads an encoded head back, up to 128 headers, and stops exactly where the body begins |
| HttpServer.MessageStep | http-server/http_server.c:103-130 | one message callback: stopped if the request is incomplete or makes it pass a null pointer, otherwise one reply is sent, exactly the request's bytes are gone, and the connection is shut down if the request closes it |
| HttpServer.ServesExactly | http-server/http_server.c:103-130 | for any printable requests, arrivals and writes: the server stays up if and only if each read completes one more request and no answered request is an HTTP/1.0 one without a Connection header; it has then answered as many requests as it made reads, in order, has shut down exactly when one of them asked for it, and its stream is their replies exactly when no direct write failed |
| HttpServer.NothingAfterShutdown | lib/tcp_connection.c:101-105 | after a shutdown no further byte reaches the client: what is left of the reply stays buffered |
| HttpServer.Delivers | lib/tcp_connection.c:120-141 | before a shutdown each write report that takes a byte shortens the output, the replies stay the same, and as many as bytes are buffered put them all on the wire |
| HttpServer.ClientReads | http-server/http_server.c:103-130 | end to end: a client that knows its requests' methods decodes the drained stream into the callback's responses if and only if every length line is whole, no response that must not have a body has one (HEAD, 2xx to CONNECT, 1xx, 204, 304), and all but the last say where they end |
| HttpServer.SecondRequestWaits | http-server/http_server.c:103-130 | two requests in one read: the second is not answered |
| HttpServer.CloseConnection | http-server/http_request.c:223-237 | the verdict, with the comparison that HTTP/1.0 requests get |
| HttpServer.VerdictIs | http-server/http_request.c:223-237 | which requests close the connection, and that exactly HTTP/1.0 ones without the header pass a null pointer |
| HttpServer.OrderIs | http-server/http_request.c:232 | the comparison is decided by the first byte that differs |
| HttpServer.VerdictMeetsStandard | http-server/http_request.c:223-237 | for no Connection header, `close` or `Keep-Alive`: the verdict is that of section 9.3 of RFC 9112 if and only if the request is not an HTTP/1.0 one without the header |
| HttpServer.OnMessage | http-server/http_server.c:103-130 | the method refines the message step |
| HttpServer.HandleRead | lib/tcp_connection.c:107-118 | the read handler with the server's callback refines the run's step |
| UrlDecoding.UrlDecode | http-server/static_file.c:55-88 | the loop writes the decoded bytes and a terminator, and nothing behind them |
| UrlDecoding.DecodedExact | http-server/static_file.c:55-88 | the result is the decoding of the first `len` bytes, or, exactly when an escape straddles that limit, of the whole source |
| UrlDecoding.NoStraddle | http-server/static_file.c:57-84 | for a source within the budget, the budget never goes negative |
| UrlDecoding.WritesBounded | http-server/static_file.c:55-88 | at most `len` bytes are written unless an escape straddles the limit and the whole source decodes to more; never for a source within the budget |
| UrlDecoding.StraddleOverflows | http-server/static_file.c:57-77 | a budget of one byte and three bytes written |
| UrlDecoding.DecodeInverts | http-server/static_file.c:55-88 | decoding inverts every encoding of section 2.1 of RFC 3986, digits taken from its table, with any bytes escaped and either case of digits |
| UrlDecoding.HexTable | http-server/static_file.c:59-75 | the decoder's digits and their values are those of the table 0-9, A-F, a-f |
| UrlDecoding.LonePercent | http-server/static_file.c:58-83 | a percent sign without two digits behind it stays |
| UrlDecoding.DecodeCuts | http-server/static_file.c:57-87 | a budget that ends between encoded bytes cuts the result there |
| ConfigFiles.LoadIsFold | lib/config_loader.c:85-150 | each field gets the last text assigned to it; other fields are unchanged |
| ConfigFiles.LoadPrinted | lib/config_loader.c:85-150 | printing any fields in any order and loading the file sets exactly those fields to what they were |
| ConfigFiles.ConfigRoundTrip | lib/config_loader.c:85-150 | a printed configuration is restored, numbers and quoted strings, for lines of up to 511 bytes |
| ConfigFiles.LoadedTextFits | lib/config_loader.c:139-143 | no file sets a string that does not fit one line of 511 bytes |
| ConfigFiles.AtoiDecimal | lib/config_loader.c:107-127 | `atoi` reads back what is printed, negative numbers included |
| ConfigFiles.AtoiReads | lib/config_loader.c:107-127 | blanks, a sign, digits: the number, whatever follows |
| ConfigFiles.LineSets | lib/config_loader.c:97-127 | a line `key: value` sets the field of that name, and an unknown key sets nothing |
| ConfigFiles.KeyNames | lib/config_loader.c:106-127 | each field's key names that field |
| ConfigFiles.NamedKeys | lib/config_loader.c:106-127 | the ten keys |
| ConfigFiles.LineIgnored | lib/config_loader.c:86-94 | blank lines, comments and lines without a colon set nothing |
| ConfigFiles.UnquoteIs | lib/config_loader.c:70-82 | one pair of equal quotes of either kind is taken off, anything else stays |
| ConfigFiles.ChunkLengthIs | lib/config_loader.c:141-142 | a chunk ends behind the first newline, at the end of the file, or after 511 bytes |
| ConfigFiles.NamedVariables | lib/config_loader.c:157-197 | the eight variables |
| ConfigFiles.OverlayGet | lib/config_loader.c:152-201 | the environment overrides exactly the eight fields that have a variable |
| ConfigFiles.Layered | lib/config_loader.c:130-201 | for every field: environment, else last line of the file, else what was there |
| ConfigLoader.TrimWhitespace | lib/config_loader.c:47-67 | trims in place and changes nothing outside the string |
| ConfigLoader.RemoveQuotes | lib/config_loader.c:70-82 | takes one pair of matching quotes off in place |
| ConfigLoader.SplitLine | lib/config_loader.c:85-104 | key and value of a line, cut at the first colon in place |
| ConfigLoader.ServerConfig.constructor | lib/config_loader.c:21-44 | a new configuration holds the ten default values |
| ConfigLoader.ServerConfig.ParseConfigLine | lib/config_loader.c:85-128 | a line's assignment, or nothing for comments, lines without a colon and unknown keys |
| ConfigLoader.ServerConfig.LoadFromFile | lib/config_loader.c:130-150 | the file loop is the fold over lines; -1 and no change when the file cannot be opened |
| ConfigLoader.ServerConfig.LoadFromEnv | lib/config_loader.c:152-201 | the environment overlay, and 0 |
| StartHandshake.RunKeepsGood | lib/event_loop_thread.c:5-44 | what every interleaving keeps, among it that a sleeping starter beside a finished loop is about to be signalled |
| StartHandshake.SpuriousWakeup | lib/event_loop_thread.c:37-39 | a spurious wakeup can happen; the starter tests again and sleeps again |
| StartHandshake.ReturnsTheLoop | lib/event_loop_thread.c:32-44 | the start returns nothing but the loop the worker made |
| StartHandshake.RestIsSuccess | lib/event_loop_thread.c:5-44 | no deadlock: both threads are at rest if and only if the start has returned and the loop runs, or, when no loop could be made, the process has aborted |
| StartHandshake.RunsEnd | lib/event_loop_thread.c:5-44 | no run with k spurious wakeups is longer than 22 + 3k steps |
| StartHandshake.StartSucceeds | lib/event_loop_thread.c:32-44 | where neither thread can go on, the start has returned the worker's loop |
| ThreadPools.RoundRobin | lib/thread_pool.c:47-61 | after m selections the position is m mod n, and the k-th selection was worker k mod n |
| ThreadPools.Shares | lib/thread_pool.c:47-61 | how often each worker was selected |
| ThreadPools.Fair | lib/thread_pool.c:47-61 | any two workers' shares differ by at most one |
| ThreadPools.MainOnly | lib/thread_pool.c:47-61 | without workers the main loop is selected |
| ThreadPools.ThreadPool.Start | lib/thread_pool.c:20-45 | after the handshakes every worker's loop is there |
| ThreadPools.ThreadPool.GetLoop | lib/thread_pool.c:47-61 | the selected loop is never null, and the position moves on |

## Left out

- Null pointer arguments, failing `malloc`, `realloc` and `strdup`, freeing and leaks: allocation succeeds.
- Integer widths other than `size_t` in the search, in `nwrited` and in percent decoding: sizes and descriptors are mathematical integers.
- The sockets, `epoll`, `readv`, `write`, and pthread internals: represented by the results of steps.
- EPOLLERR and EPOLLHUP (lib/epoll_dispatcher.c:139-143 closes the descriptor and keeps the map entry): the agreement of slots and kernel is about runs without them.
- A failing `epoll_ctl`, `quit`, the 128-report limit of one wait, and descriptors closed and opened again while registered.
- The wakeup socket's capacity: a wakeup byte is always written and read.
- HttpServer.ServesExactly: about clients that write printed requests; the branch of http_on_message for a parser result of 0, which the parser never returns, is not part of this model. A write after a shutdown fails and returns; SIGPIPE, for which the code installs no handler, is not part of this model.
- HttpFraming.FramingExact: about status codes of three digits, texts without CR, header values without surrounding blanks, and no framing headers of the application's own; chunked transfer coding and what follows in a tunnel are not decoded.
- LoopTheorems.NoStuckOutput: about runs in which an update names the channel that is registered for its descriptor; without that the kernel holds another channel's mask.
- HttpRequests.HttpRequest.ParseQueryString: the bytes of the url buffer after parsing are unspecified; path and parameters are observed instead.
- ConfigFiles.ConfigRoundTrip: `atoi` is modelled on numbers that an `int` holds; overflow is undefined in C.
- HttpServer.HandleRead: the callback is a function of the request; its own effects are not modelled. Whether `strncmp` returns exactly 1 is left to the C library (`Host.one`).
- Channels.Channel.WriteEventEnable: the submission is counted there, so that a connection's model needs no loop; EventLoops.EventLoop.WriteEventEnable makes the call, and LoopProtocol submits an update whenever the count moves. The same holds for WriteEventDisable.
- EventLoops.EventLoop.DoChannelEvent: one thread's view; the interleavings are in LoopProtocol, whose list is a sequence.
- Static files other than `url_decode`, the MIME table, path checks, response helpers, the status message table, `config_validate`, `config_to_string`, logging, acceptor and server set-up, `http_request_path_matches`: lookups and plumbing that would add only easy members.
