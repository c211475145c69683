# Verified models of the IPNC server and stream code

This project models the hardest parts of an IP-camera code base in Dafny and proves what they
are for. Each module follows one component and keeps its form: classes with the source's
fields and linked nodes, arrays overwritten in place, loops with the source's branches, and
constant tables.

`dafny verify dfyconfig.toml` checks everything, within Dafny's default limits.

## What is modelled

**EventLoop** (`boaLib/queue.c`, `select.c`, the scheduler in `request.c`), with **Handlers**,
**Schedule**, **ScheduleSteps**, **ScheduleRounds** and **ScheduleEnds**. Requests are heap nodes on three intrusive
doubly linked lists. Each method is proved to compute a function of the state (`Schedule`), and
the invariants are proved of those functions. System calls and status handlers are an arbitrary
environment: a read or write may be short, block or fail, a handler may close and open its data
descriptors and move to any status, `select` may leave any subset of its sets, requests may time
out at any time, SIGTERM may arrive, memory may run out, and any number of connections may arrive. In
every run and at every call of `select`:

- every request ever allocated is where its last dispatch put it: blocked and waiting for the very
  call that would have blocked, ready, freed, or waiting to send what is still buffered (`Filed`);
- each blocked request has its descriptor in the right set and within `max_fd`, and no two blocked
  requests wait for the same bit;
- the connection counter is the length of the ready and blocked lists together, and no descriptor
  belongs to two live requests;
- a request that was ready, selected or timed out is dispatched exactly once before the next
  `select`, and every other blocked request is left alone (`RoundDone`), although accepting
  prepends to the list being walked and blocking or freeing unlinks the current node;
- a request that was DEAD, that timed out, or that was DONE with nothing more to send is over, its
  request free or in use for another connection (`RoundEnds`);
- a connection that is finished is kept exactly if it is to be kept alive, SIGTERM has not arrived and a
  request can be had, and no more often than ka_max allows (`Visit`);
- the listening socket is watched while SIGTERM has not arrived and there is room, and a pending
  connection is accepted and dispatched if a request can be had (`Listens`).

Three things the source does not achieve have their exact conditions:

- When there is no room for another connection the listening socket is still watched exactly if the last
  `select` found it readable: its bit is set in the loop and never cleared (`Listens`).

- A blocked request that is reading its headers holds bytes it has not parsed exactly if its
  connection was kept alive with such bytes and it has not been dispatched since
  (`UnparsedIffRecycled`); it then waits for its client to send more (`PipelinedRequestWaits`).
- Every bit that `select` is called with is the listening socket's or that of a blocked request,
  except those that time-outs have left behind and nothing has cleared since (`UpdatesStrays`).
  `fdset_update` leaves one exactly when a request times out whose bit is set and is not the one a
  DEAD request waits for (`StaysClean`). `select` asks only for bits up to `max_fd`; when another
  request waits for a higher descriptor, the bit left behind is asked for although its own
  descriptor is closed (`SelectsAClosedDescriptor`).

What the environment is taken to do when a handler reports "blocked" is proved in **BlockedCalls**
of the handlers that RequestReader and ResponseStream model.

**RequestReader** (`boaLib/read.c`). The resumable header scanner is compared with a one-shot
reading of the whole stream in which a line ends with CR\*LF. For every division of the stream
into packets the same lines are handed over in the same order, and the headers end at the same
byte, also when the first bytes arrived behind an earlier request (section 3.5 of RFC 7230
allows a bare LF). For a POST, what has been written to the temporary file when the CGI program
is started is exactly the first Content-Length bytes behind the blank line. The line handlers
and `process_header_end` are arbitrary functions of the lines they have been given, and may
overwrite the text of a line. Headers as a client writes them are read back line by line
(`WrittenIsRead`, `WrittenDecides`). `read_header` reports 0 only for a header that is refused, a failed
or closed read or a full buffer (`ReadHeader`). When every read and write moves at least one byte, reading ends, and
the body that is due has then been passed on (`ServePromptly`). On a connection that is kept, each
request is read from where the headers of the one before it ended, whatever the packets, through the
unparsed bytes that `free_request` moves (`ServeConnection`). A header line without a colon ends its
request too; if the connection is kept then, the rest of its headers is read as the next request.

**ResponseStream** (`boaLib/buffer.c`, `init_get` and `process_get` in `get.c`, `pipe.c`, with the
dispatch and `free_request` of `request.c`). The answer is the headers followed by the file, or by a
page rewritten in memory, or an error page when the file cannot be opened, mapped or copied.
Whatever short, blocked or failing calls the kernel answers with, the bytes sent are a prefix of it,
and when the request ends they are all of it unless a call failed; an interrupted call does no harm
to a relay once its headers are out. It does end, with everything sent, when no call fails and more
calls are answered than an explicit bound, and the number of dispatches it takes is bounded too
(`Answer`). The status does not tell: `init_get` ignores the result of `req_flush` and overwrites
the status DEAD with DONE. A request ends as DONE with part of its answer unsent if and only if a
file is sent as it is, it and the headers fit in the output buffer together, and the first write of
all fails or is interrupted; then one dispatch ends it with nothing sent at all, as
`FirstFlushFails` exhibits.

**BoaGrammar** (`boaLib/y.tab.c`). The interpreter over the packed LALR tables succeeds exactly
on the token strings of `(NO_ARGS | ONE_ARG STRING | TWO_ARGS STRING STRING)* (MIMETYPE
STRING*)*`, never returns 2, never holds more than seven states, and in every case has made
exactly the calls of the longest prefix of its input that is a file.

**Crc32**, on **Gf2Division** (`rtspSLib/crcgenerateLib.h`; Annex A of ISO/IEC 13818-1). The
table form computes the remainder of long division by 0x04C11DB7; a section followed by its own
CRC has CRC zero; messages that differ only within 32 consecutive bits, aligned or not, never
share a CRC. `unsigned long` is 32 bits wide, as on the ARM target.

**BitCodec** (`rtspSLib/bitsLib.h`, `rtspCLib/spsParse.c`). Every list of fixed fields of at most
32 bits, `ue(v)` codes below 2^31 - 1 and `se(v)` codes written most significant bit first is read
back in order (sections 9.1 and 9.1.1 of ITU-T H.264). A read behind the end of the buffer finds
arbitrary bits.

**MmapCache** (`boaLib/mmap_cache.c`). The counter counts the slots in use; a slot has as many
uses as handles in circulation; the live mappings are those of the slots in use, one each, so
every mapping is removed exactly once; a probe never runs all the way round. A file is mapped once as
long as nothing is released (`SharesMapping`); after the release of an earlier slot on its path it may
be mapped twice (`MapsTwice`).

**AliasIndex** (`boaLib/alias.c`). An alias covers the uris that begin with its path components, and one
that ends in a slash those that have at least one more. The hash index agrees with a scan of all
aliases ever added, on every uri, if and only if no alias is "/"; then it finds the earliest alias that
covers the uri (`FindsWhatCovers`, `FoundBelow`).

**ByteRing** (`streamLib/buffer_ring.c`, with the receive and parse loop of
`privateLib/privateLib.c` and `networkLib/networkLib.c`). Popped frames are the received frames,
intact and in order, across the end of the buffer; a reset discards whole pending frames. A
receive that fills the ring exactly makes it look empty and loses what it holds: in the loop in
use a frame comes out if and only if it is shorter than the ring. What becomes of a frame is a function
of what `recv` answers: fewer than 200 answers of "nothing for now" in a row change nothing, and 200 end
it (`Retries`); a prompt peer gets every frame stored that is neither empty nor longer than the ring,
behind which a longer one would be written (`PromptOutcome`).

**AlarmRing** (`streamLib/streamAlarmQueue.c`). In every run of the writer and a reader with at most a
ring to read at each of its calls, also when the writer inserts between the reader's two looks at the
write position, the alarms given are counted exactly: the first ones written, once each and in order
(`Run`). With exactly a ring to read the call fails if and only if the reader had caught up at its
last call, and no number of calls gets those alarms then (`FullRingLooksEmpty`); otherwise as many
calls as alarms are waiting give them all (`ReadsCatchUp`). A reader that is more than a ring behind is
told so exactly if the writer has stopped between its two positions; otherwise it is given a newer alarm
out of turn (`Overtaken`).

**YuvPool** (`streamLib/streamYuvQueue.c`). Each buffer is free, used or held; the counters are
the list lengths, so the "buf num error" branches are unreachable; frames leave in insertion
order, and only the oldest is dropped, only when no buffer is free.

**CleanPath** (`boaLib/util.c`). Cleaning in place keeps exactly the components that are not
empty, "." or ".." (and the first and the last); a path is left as it is if and only if it has no
`//`, `/./` or `/../`.

Four small modules are shared: **Options**, **Bytes**, **Modulo** and **Departures**.

## Model

| member | source | states |
|---|---|---|
| EventLoop.Queue.Dequeue | boaLib/queue.c:102-113 | unlinking a node from any place leaves a well-formed list with the others in order |
| EventLoop.Queue.Enqueue | boaLib/queue.c:122-131 | the node becomes the head of a well-formed list |
| EventLoop.FdSets.Watch | boaLib/queue.c:41-60 | the descriptor and direction of the (buffer_end, status) pair are set and within max_fd, and no other bit changes |
| EventLoop.FdSets.Unwatch | boaLib/queue.c:74-92 | exactly the bit waited for is cleared |
| EventLoop.FdSets.SetRead | boaLib/include/defines.h:198-201 | the bit is set and max_fd raised to it |
| EventLoop.FdSets.SetWrite | boaLib/include/defines.h:198-201 | the bit is set and max_fd raised to it |
| EventLoop.FdSets.IsSetMeans | boaLib/select.c:35-83 | the FD_ISSET switch tests the bit the request waits for |
| Handlers.ReqFlush | boaLib/buffer.c:190-219 | its result and its effect on status and buffer_end, for each answer of the write, as the scheduler sees them |
| Handlers.RunHandler | boaLib/request.c:989-1016 | any handler: it touches only its own descriptors, and "blocked" leaves the request waiting for the call that would have blocked, with nothing unparsed |
| Handlers.Handle | boaLib/request.c:970-1043 | flush first, else dispatch on the status; a DEAD request ends with nothing buffered and not kept alive, a DONE one exactly when nothing is left buffered or the write fails, and any other that flushes exactly when the write fails |
| BlockedCalls.ReaderWaitsForItsCall | boaLib/read.c:146-300 | after a read or write of a request's input that would have blocked, the request waits for that call, as the scheduler takes it to |
| BlockedCalls.SenderWaitsForItsCall | boaLib/get.c:431-480 | the same for the calls that send an answer |
| BlockedCalls.Read | boaLib/request.c:989-1006 | read_header, read_body and write_body meet what is assumed of a blocked handler |
| BlockedCalls.Send | boaLib/request.c:970-1034 | req_flush, process_get and the relay meet it too |
| EventLoop.Server.BlockRequest | boaLib/queue.c:36-61 | from the ready list to the head of the blocked list, watched |
| EventLoop.Server.ReadyRequest | boaLib/queue.c:69-93 | from the blocked list to the head of the ready list, with only the bit it waited for cleared |
| EventLoop.Server.Dispatch | boaLib/request.c:970-1043 | one dispatch changes one request, its descriptors, and how often and with what result it was dispatched, by the rules of Handle |
| ScheduleSteps.DispatchingKeeps | boaLib/request.c:970-1043 | a dispatch keeps the lists, the counter, descriptor ownership, the watching of blocked requests and where every other request is |
| ScheduleSteps.UpdateKeepsDescriptors | boaLib/request.c:970-1043 | closing and opening a request's own descriptors keeps the descriptors of all live requests distinct |
| ScheduleSteps.DropKeepsDescriptors | boaLib/request.c:809-818 | removing a request and closing what it owns keeps the others' descriptors open and distinct |
| ScheduleSteps.NewDescriptor | boaLib/request.c:612-756 | a newly accepted descriptor belongs to nobody else |
| EventLoop.Server.NewRequest | boaLib/request.c:589-610 | the head of the free list or new memory, cleared; null exactly when there is neither |
| EventLoop.Server.GetRequest | boaLib/request.c:612-757 | accepts the connection exactly if accept gives a usable descriptor and a request can be had; nothing is pending any more exactly if none is waiting |
| EventLoop.Server.Admit | boaLib/request.c:683-757 | the accepted connection is live, counted and first on the ready list |
| ScheduleSteps.AdmittingKeeps | boaLib/request.c:683-757 | accepting keeps all invariants |
| ScheduleSteps.BlockingKeeps | boaLib/queue.c:36-61 | blocking keeps all invariants, and puts the request where its result says |
| EventLoop.Server.Detach | boaLib/request.c:790-818 | a finished request leaves the ready list and its data descriptors are closed |
| EventLoop.Server.KeepConnection | boaLib/request.c:849-891 | the connection goes on under a new watched request on the blocked list, with one keep-alive less and the unparsed bytes moved, unless no request can be had |
| EventLoop.Server.CloseConnection | boaLib/request.c:933-938 | the connection is closed and no longer counted, and the request is free |
| EventLoop.Server.FreeRequest | boaLib/request.c:778-938 | with output buffered only the status changes; otherwise the connection is kept exactly if it is to be kept alive and a request can be had, and closed if not |
| ScheduleSteps.FreeingKeeps | boaLib/request.c:778-938 | in each of the three cases freeing keeps all invariants, and puts the request where its result says |
| EventLoop.Server.File | boaLib/request.c:1059-1081 | blocked, freed or left ready by the result, and nothing else |
| EventLoop.Server.Turn | boaLib/request.c:970-1047 | the dispatch, after which no connection is kept alive once SIGTERM has arrived |
| ScheduleEnds.FilingKept | boaLib/request.c:849-938 | kept exactly under the source's test, with one keep-alive less and the unparsed bytes; closed otherwise |
| ScheduleRounds.FilingKeeps | boaLib/request.c:1059-1081 | the switch keeps all invariants, puts the current request where it belongs and leaves every other live one alone |
| ScheduleRounds.FilingDisposes | boaLib/request.c:1059-1081 | -1: blocked, waiting for the call that would have blocked; 0: free, or DONE with output buffered; otherwise ready |
| EventLoop.Server.Visit | boaLib/request.c:968-1081 | one turn of the walk: the current request is dispatched once and disposed of by its result, a pending connection is accepted, a finished one is kept alive under the source's test or closed, and nothing else that is live changes |
| EventLoop.Server.WalkReady | boaLib/request.c:966-1082 | the walk ends, has dispatched every request that was ready at its start exactly once and no other, ends those that had nothing more to do, and leaves every request where its last dispatch puts it |
| EventLoop.Server.ProcessRequests | boaLib/request.c:951-1082 | the whole pass, including the connection accepted at its start, which is dispatched in it |
| EventLoop.Server.TimeOut | boaLib/select.c:27-34 | a timed-out request only becomes DEAD |
| EventLoop.Server.UpdateOne | boaLib/select.c:20-85 | a request becomes ready exactly if it is dead or its bit survived, and is watched again otherwise |
| EventLoop.Server.FdsetUpdate | boaLib/select.c:16-87 | that, for every blocked request in turn |
| ScheduleSteps.WaitsDiffer | boaLib/select.c:39-81 | two blocked requests never wait for the same bit, alive or dead |
| ScheduleSteps.UpdatingKeeps | boaLib/select.c:20-85 | looking at one request keeps all invariants |
| ScheduleRounds.UpdatesKeep | boaLib/select.c:16-87 | after the pass every blocked request is watched and all invariants hold |
| ScheduleRounds.UpdatesLook | boaLib/select.c:16-87 | each request that was blocked is awake if dead or selected, and still blocked otherwise |
| ScheduleRounds.UpdatesStrays | boaLib/select.c:16-87 | the bits left behind are those left before that the pass does not clear, and those of the requests that time out with a set bit that is not the DEAD one |
| ScheduleRounds.StaysClean | boaLib/select.c:16-87 | starting with no bits but the listening socket's and the blocked requests', the pass ends so if and only if no time-out leaves a bit |
| EventLoop.Server.Select | boaLib/select.c:121-140 | any subset of the sets may be left, all of it when interrupted; a connection is pending after it exactly if one was or the listening socket is readable |
| EventLoop.Server.WatchServer | boaLib/select.c:118-121 | the listening socket is watched exactly if SIGTERM has not arrived and there is room |
| ScheduleEnds.RoundEndsNow | boaLib/select.c:99-119 | requests that are DEAD, that time out, or that are DONE with nothing to send are over at the next select |
| ScheduleEnds.UpdatesCalm | boaLib/select.c:16-87 | the pass over the blocked requests does not touch the bit of the listening socket |
| ScheduleEnds.ListensNow | boaLib/select.c:99-121 | at the next select the listening socket is watched exactly if there is room or it was readable at the last one, and a pending connection has been dispatched |
| EventLoop.Server.Round | boaLib/select.c:99-119 | every ready, selected or dead request is dispatched exactly once before the next select, those with nothing more to do are over, the other blocked ones stay, all blocked ones and the listening socket are watched |
| EventLoop.Server.SelectLoop | boaLib/select.c:90-145 | in every run, from the state it starts in and at every select: no lost wake-up, every request where its result puts it, conservation of connections; and from one select to the next, what Round and Select state |
| ScheduleRounds.UnparsedIffRecycled | boaLib/request.c:877-888 | a blocked header-reading request holds unparsed bytes if and only if it was kept alive with some and not dispatched since |
| ScheduleRounds.PipelinedRequestWaits | boaLib/request.c:877-888 | a kept connection that waits for its client with bytes of its request already read |
| ScheduleRounds.AccountedBitIsOpen | boaLib/select.c:121-122 | at every select, a bit that no time-out left behind is that of an open descriptor |
| ScheduleRounds.SelectsAClosedDescriptor | boaLib/select.c:27-34 | from a sound state, a time-out that leaves the bit of a closed descriptor set and within max_fd at the next select |
| RequestReader.MoreBytes | boaLib/read.c:12-88 | bytes behind a decided header change nothing, and an undecided one goes on from the start of its last line |
| RequestReader.LinesOfAPrefix | boaLib/read.c:12-88 | the lines of a part of the stream are the first lines of all of it |
| RequestReader.OneMoreByte | boaLib/read.c:17-88 | what one more parsed byte means for the lines |
| RequestReader.WrittenDecides | boaLib/read.c:17-88 | lines as a client writes them, with any number of CRs, are handed over until one decides the headers, as a simple or refused request or as their end |
| RequestReader.WrittenIsRead | boaLib/read.c:17-88 | headers written and ended by an empty line are read back, to the byte |
| RequestReader.Request.Switch | boaLib/read.c:18-58 | the status machine stays in step with the text of the line, and header_end with its CRs stripped |
| RequestReader.Request.Step | boaLib/read.c:17-63 | after each byte the scanner's state is that of the bytes parsed |
| RequestReader.Request.TakeLine | boaLib/read.c:64-68 | the text of the line with the NUL behind it, and the unparsed bytes left alone |
| RequestReader.Request.EndLine | boaLib/read.c:64-88 | the next line is handed over, once, and scanning goes on behind it or ends |
| RequestReader.Request.EndHeaders | boaLib/read.c:89-142 | the body is expected exactly when the headers are accepted, the method is POST and the length is in range; 1 exactly if the request is accepted with its body |
| RequestReader.Request.StartBody | boaLib/read.c:95-131 | the window is what has been received of the body, cut at its length |
| RequestReader.Request.ReadMore | boaLib/read.c:146-201 | appends what was received behind the unparsed bytes; 1 for bytes or an interrupted read, -1 if it would block, 0 exactly for a failed or closed read or a full buffer, which ends the request |
| RequestReader.Request.ParseReceived | boaLib/read.c:17-143 | everything received is parsed, unless the headers are decided on the way |
| RequestReader.Request.ReadHeader | boaLib/read.c:7-205 | every call parses what was received before it and keeps the correspondence; decided headers report whether they are accepted, undecided ones what the read answered |
| RequestReader.Request.ReadBody | boaLib/read.c:208-254 | 1: the next bytes of the body, at least one and none behind it, are in the empty buffer; -1: the read would block; 0: it failed or was interrupted, and so has the request |
| RequestReader.Request.WriteBody | boaLib/read.c:258-300 | the window advances by exactly what was written, with the result for each answer of the write; with an empty window the CGI program is started exactly if all of the body is written, and reading goes on otherwise |
| RequestReader.ValidReadsStream | boaLib/read.c:7-300 | in every state: lines, end of headers and body are those of the one-shot reading of the whole stream |
| RequestReader.PacketBoundariesDoNotMatter | boaLib/read.c:7-300 | two divisions of one stream agree on lines, end of headers and body |
| RequestReader.Serve | boaLib/request.c:990-1006 | in any number of calls on one connection: lines, end of headers and body are those of the one-shot reading; the calls end early only when the request is decided or a read fails, and each call that leaves the headers undecided has read once |
| RequestReader.NeverStuck | boaLib/read.c:146-157 | a stream that decides its headers within the buffer neither overruns it nor ends undecided |
| RequestReader.CallPromptly | boaLib/request.c:990-1006 | a call that moves at least one byte returns 1 and comes nearer to the end, or decides the request, with a body that is due passed on and its acceptance as the result |
| RequestReader.ServePromptly | boaLib/request.c:990-1006 | under the scheduler's rule that 0 ends a request: it is decided after finitely many such calls, the CGI program is started if and only if a body is due, and the result says whether it is accepted |
| RequestReader.NextInTurn | boaLib/request.c:849-891 | what a finished request has read is the next of the connection's requests, and the bytes moved are what was received behind it |
| RequestReader.ServeConnection | boaLib/request.c:849-891 | the requests of a kept connection are those of the one-shot reading, each from where the one before it ended, with their bodies; all of them when every read and write moves something |
| ResponseStream.SentIsAPrefix | boaLib/get.c:267-301 | what was sent is a prefix of what was promised, and all of it exactly when nothing is left |
| ResponseStream.Request.ReqCopy | boaLib/buffer.c:58-72 | the text is appended to the output window, or the request is DEAD and the window unchanged if it does not fit |
| ResponseStream.Request.ReqFlush | boaLib/buffer.c:190-219 | the stream stays whole under short and blocked writes; a failed write empties the buffer |
| ResponseStream.Request.InitGet | boaLib/get.c:144-302 | headers and the start of the file are buffered with nothing skipped, for HEAD, empty, small, large and rewritten files, or an error page; a failed write is hidden by DONE exactly when it is the first, the file is sent as it is and the answer fits the buffer |
| ResponseStream.Request.Prefill | boaLib/get.c:269-298 | the prefill ends where the mapped tail begins |
| ResponseStream.Request.ProcessGet | boaLib/get.c:431-480 | the part of the file that is not buffered is sent without gap or repetition; an answered write leaves less to do |
| ResponseStream.Request.ReadFromPipe | boaLib/pipe.c:38-82 | the bytes read are appended to the window, which stays inside the buffer; each answer of the read has its result, and an interrupted one changes nothing |
| ResponseStream.Request.WriteFromPipe | boaLib/pipe.c:94-126 | the window advances by exactly what was written, each answer of the write has its result, and an interrupted one changes nothing; 0 with CGI_DONE and no error means everything was delivered |
| ResponseStream.Request.RelayedSoFar | boaLib/pipe.c:38-126 | delivered bytes and window are what was read so far |
| ResponseStream.Request.FreeRequest | boaLib/request.c:785-788 | buffered output keeps the request, as DONE |
| ResponseStream.Request.Dispatch | boaLib/request.c:970-1034 | every dispatch appends to what was sent and keeps the stream whole; blocked exactly when its call is, finished when DEAD or when DONE with nothing left, and failed only by the call it makes |
| ResponseStream.Answer | boaLib/request.c:966-1070 | for any results of the calls: a prefix always, everything when the request ends without a failure, not everything after a write of something that failed; a failure only by the last call made, and never by an interrupted one in a relay; with enough answered calls and dispatches it ends with everything sent; ended as DONE without everything sent if and only if the file is sent as it is, fits the buffer with the headers, and the first write fails, and one dispatch then ends it with nothing sent |
| ResponseStream.DispatchPromptly | boaLib/request.c:970-1034 | a dispatch whose call is answered with at least one byte ends the request or leaves less to do |
| ResponseStream.AnswerPromptly | boaLib/request.c:966-1070 | a request ends with everything sent, after finitely many dispatches, when every call is answered with at least one byte |
| ResponseStream.FirstFlushFails | boaLib/get.c:294-297 | a request that ends as DONE with nothing sent |
| BoaGrammar.TablesEncodeAutomaton | boaLib/y.tab.c:425-577 | the packed tables with default reductions are this automaton, for every state and token |
| BoaGrammar.ShiftStep | boaLib/y.tab.c:1345-1353 | a shift keeps what is still to come |
| BoaGrammar.ReduceShape | boaLib/y.tab.c:1451-1469 | every goto leads to the one stack its state can have, and chains of reductions end |
| BoaGrammar.ReduceStep | boaLib/y.tab.c:1369-1469 | a reduction makes the calls of its rule and keeps what is still to come |
| BoaGrammar.ErrorStep | boaLib/y.tab.c:1332-1334 | where an error is reported nothing more can be accepted |
| BoaGrammar.Decide | boaLib/y.tab.c:1295-1363 | the action is the automaton's, with a lookahead read only where one is needed |
| BoaGrammar.ShiftTo | boaLib/y.tab.c:1345-1353 | pushing the state and value of the token |
| BoaGrammar.ReduceBy | boaLib/y.tab.c:1369-1469 | action, pop and goto keep the meaning of the stacks |
| BoaGrammar.PopForError | boaLib/y.tab.c:1566-1602 | no state can shift the error token |
| BoaGrammar.YyParse | boaLib/y.tab.c:1138-1653 | result 0 or 1 and calls are the recogniser's; at most seven states on the stack |
| BoaGrammar.FileAccepted | boaLib/y.tab.c:506-516 | every file is accepted with its own calls |
| BoaGrammar.NoLongerFile | boaLib/y.tab.c:506-516 | no longer prefix is a file |
| BoaGrammar.CompletedFile | boaLib/y.tab.c:506-516 | what was completed is a file, and its calls are the ones made |
| BoaGrammar.ParseConfig | boaLib/y.tab.c:1138-1653 | 0 exactly on the files of the grammar; calls of the longest prefix that is a file |
| Gf2Division.RegisterIsRemainder | rtspSLib/crcgenerateLib.h:82-95 | a shift register computes the remainder of long division |
| Gf2Division.TableForm | rtspSLib/crcgenerateLib.h:92-92 | the leading bits, with the message added, decide what is subtracted, and the rest moves up |
| Gf2Division.OwnContentsClear | rtspSLib/crcgenerateLib.h:82-95 | a register over its own contents becomes zero |
| Gf2Division.BurstDetected | rtspSLib/crcgenerateLib.h:82-95 | a burst no wider than the divisor's degree changes the register |
| Crc32.TableEntry | rtspSLib/crcgenerateLib.h:13-79 | each of the 256 entries is its index divided out |
| Crc32.TableStepIsEightBits | rtspSLib/crcgenerateLib.h:92-92 | one table step is eight bits of division |
| Crc32.CrcIsRemainder | rtspSLib/crcgenerateLib.h:82-95 | the value is bit-at-a-time division with initial value 0xFFFFFFFF |
| Crc32.Crc32Calculate | rtspSLib/crcgenerateLib.h:82-95 | the loop over the buffer computes that value |
| Crc32.OwnCrcGivesZero | rtspSLib/crcgenerateLib.h:82-95 | appending the value, most significant byte first, gives 0 |
| Crc32.BurstChangesCrc | rtspSLib/crcgenerateLib.h:82-95 | no collision within any 32 consecutive bits |
| Crc32.FourByteChangeDetected | rtspSLib/crcgenerateLib.h:82-95 | no collision within four consecutive bytes |
| BitCodec.BitsInitwrite | rtspSLib/bitsLib.h:17-32 | an empty bit string at the start of the caller's buffer or of a new one, whose first byte is 0; none exactly when memory is exhausted |
| BitCodec.BitWriter.WriteBit | rtspSLib/bitsLib.h:50-63 | one bit behind those written, which do not change |
| BitCodec.BitWriter.BitsWrite | rtspSLib/bitsLib.h:44-65 | the field is appended, most significant bit first, and no byte behind it is touched |
| BitCodec.CarryOne | rtspSLib/bitsLib.h:50-57 | setting or clearing through the mask changes that bit only |
| BitCodec.BitsOfFirst | rtspSLib/bitsLib.h:46-57 | the bit tested is the leading one of the bits left |
| BitCodec.U | rtspCLib/spsParse.c:54-72 | the number the bits spell, modulo 2^32, also of bits behind the buffer |
| BitCodec.LeadingZeros | rtspCLib/spsParse.c:13-22 | the zeros up to the first one, or to the end of the buffer |
| BitCodec.ZerosAreZeros | rtspCLib/spsParse.c:13-22 | they are all the zeros: a one or the end of the buffer follows them |
| BitCodec.Ue | rtspCLib/spsParse.c:10-42 | the number of the code and the position behind it, also of a code cut off by the end of the buffer |
| BitCodec.CeilOfHalf | rtspCLib/spsParse.c:47-48 | the ceil of a half is (k + 1) / 2 rounded down |
| BitCodec.SignedMapping | rtspCLib/spsParse.c:44-52 | the mapping of code numbers to signed numbers is one to one, in order of size, with the positive ones at the odd code numbers |
| BitCodec.Se | rtspCLib/spsParse.c:44-52 | the signed number of the code |
| BitCodec.GolombRead | rtspCLib/spsParse.c:10-42 | k + 1 in 2 * floor(log2(k + 1)) + 1 bits is found as a code of that length whose number is k |
| BitCodec.FixedRead | rtspCLib/spsParse.c:54-72 | a fixed field is read back as its low bits |
| BitCodec.FieldStands | rtspSLib/bitsLib.h:44-65 | each field stands where those before it end |
| BitCodec.WriteAll | rtspSLib/bitsLib.h:44-65 | the buffer carries the codes of the fields, one behind the other |
| BitCodec.ReadAll | rtspCLib/spsParse.c:10-72 | a buffer that carries the codes of a list of fields, of which only the kinds are known, is read back in order, whatever lies behind it |
| MmapCache.AllRound | boaLib/mmap_cache.c:35-38 | a probe that came round would have seen 256 slots in use |
| MmapCache.CountUse | boaLib/mmap_cache.c:26-66 | a use more keeps counter, use counts and handles in agreement |
| MmapCache.CountRelease | boaLib/mmap_cache.c:80-83 | so does a release |
| MmapCache.EveryMappingHasASlot | boaLib/mmap_cache.c:61-66 | no live mapping is without a slot |
| MmapCache.Cache.Probe | boaLib/mmap_cache.c:21-39 | the first slot on the path that is free or holds the file; running round is impossible |
| MmapCache.OneSlotOnPath | boaLib/mmap_cache.c:21-39 | there is only one such slot for a file |
| MmapCache.Cache.Find | boaLib/mmap_cache.c:16-68 | shares the mapping met first on the path or maps the file into the free slot met first, in a slot with its dev, ino and len; changes one slot only, and fails exactly when it meets a free slot first and the table has its fill or mmap refuses |
| MmapCache.Cache.Release | boaLib/mmap_cache.c:70-84 | one handle less; the last one of a slot removes its mapping, which was live |
| MmapCache.Cache.LiveMappings | boaLib/mmap_cache.c:16-84 | in every state the live mappings are those of the slots with handles |
| MmapCache.Cache.NothingLeaks | boaLib/mmap_cache.c:80-83 | without handles there are no mappings |
| MmapCache.SlotIsStable | boaLib/mmap_cache.c:22-33 | a slot keeps its file and mapping while a handle is out, whatever is looked up |
| MmapCache.SharesMapping | boaLib/mmap_cache.c:16-68 | a file looked up again, with any look-ups but no release in between, is found in the same slot |
| MmapCache.MapsTwice | boaLib/mmap_cache.c:21-39 | after a release a file can be mapped in two slots at once |
| AliasIndex.GetAliasHashValue | boaLib/alias.c:40-51 | the sum over the first character and the rest of the first component; some bucket for an empty name |
| AliasIndex.CoveredSharesBucket | boaLib/alias.c:134-166 | an alias other than "/" is in the bucket of every uri it covers |
| AliasIndex.FirstOfANameStays | boaLib/alias.c:77-97 | adding a name again changes the answer for no uri, although the test for duplicates passes over the last alias of the chain |
| AliasIndex.FindIsScan | boaLib/alias.c:134-169 | without "/" one bucket gives what a scan of the history gives |
| AliasIndex.RootIsMissed | boaLib/alias.c:40-51 | with "/" there is a uri it covers that the table does not find |
| AliasIndex.IndexAgreesWithScan | boaLib/alias.c:134-169 | the index agrees with the scan if and only if no alias is "/" |
| AliasIndex.MatchingIsCovering | boaLib/alias.c:147-163 | the test of find_alias is that the components of the alias come first in those of the uri |
| AliasIndex.FindsWhatCovers | boaLib/alias.c:134-169 | without "/" the earliest alias that covers the uri by its components is found, and none only if none does |
| AliasIndex.FoundBelow | boaLib/alias.c:147-163 | an alias without a slash at its end is found for its name and everything below it, and for no longer name, as far as the other aliases leave it to this one |
| AliasIndex.LastOf | boaLib/alias.c:81-87 | the walk ends at the last alias, or finds the name before it |
| AliasIndex.AliasTable.Append | boaLib/alias.c:89-121 | the new alias is the last of its chain and the other chains are unchanged |
| AliasIndex.AliasTable.AddAlias | boaLib/alias.c:60-122 | the chains follow the history, with a "./" real name normalised; empty names end the program |
| AliasIndex.ScanChain | boaLib/alias.c:145-168 | the first alias of a chain that covers the uri |
| AliasIndex.AliasTable.FindAlias | boaLib/alias.c:134-169 | the earliest alias of the history that covers the uri by its components, unless there is a "/"; none for the empty uri |
| ByteRing.WriteKeeps | streamLib/buffer_ring.c:201-232 | a contiguous write into the free room keeps what is pending; filling the ring makes its ends meet |
| ByteRing.Ring.Reset | streamLib/buffer_ring.c:30-34 | pending frames are discarded whole |
| ByteRing.Ring.RoomEnough | streamLib/buffer_ring.c:207-226 | the free size is room for a contiguous write |
| ByteRing.Ring.FreeSizeIsRoom | streamLib/buffer_ring.c:207-226 | the free size is exactly the room for a contiguous write that overwrites nothing pending, except that a ring empty anywhere but at its start counts as full |
| ByteRing.Ring.UsedIsPending | streamLib/buffer_ring.c:37-57 | while something is pending the used size is the pending bytes |
| ByteRing.Ring.RecvAll | privateLib/privateLib.c:473-516 | the frame is stored at the data end, in whatever pieces it arrives; what becomes of it is the function of recv's answers that the next rows speak of |
| ByteRing.OutcomeFits | privateLib/privateLib.c:461-516 | only a frame that is neither empty nor longer than the ring is stored, and only a longer one is written behind it |
| ByteRing.Retries | privateLib/privateLib.c:478-487 | fewer than 200 answers of EINTR or EAGAIN in a row change nothing, 200 end the receive |
| ByteRing.PromptOutcome | privateLib/privateLib.c:473-516 | with a peer that sends something at each call every frame that fits is stored |
| ByteRing.Ring.SetDataEnd | streamLib/buffer_ring.c:229-232 | the frame is pending, or the ring was filled and everything in it is lost |
| ByteRing.Ring.Receive | privateLib/privateLib.c:461-518 | which frames stay, which are discarded and which are lost, for every frame, and when the frame itself is stored |
| ByteRing.Ring.PopN | streamLib/buffer_ring.c:124-146 | a pending frame comes out intact, across the end of the buffer; otherwise nothing changes or what was asked for was not pending |
| ByteRing.ReceiveAndParse | privateLib/privateLib.c:461-549 | one turn of the loop, for every frame |
| ByteRing.Alternate | privateLib/privateLib.c:461-549 | a frame that is stored comes out if and only if it is shorter than the ring, and the loop goes on to the first that is not stored |
| AlarmRing.PositionsTell | streamLib/streamAlarmQueue.c:111-131 | what the positions of a reader at most one ring behind say, and when they mislead |
| AlarmRing.InOrderMeans | streamLib/streamAlarmQueue.c:128-143 | the test for lost alarms succeeds exactly when the writer has stopped between the reader's two positions, on whatever lap |
| AlarmRing.AlarmQueue.Insert | streamLib/streamAlarmQueue.c:82-98 | the ring holds the last alarms at their places |
| AlarmRing.Reader.Take | streamLib/streamAlarmQueue.c:128-143 | in step: the next alarm, never the "lost alarm" branch; otherwise the alarm at the cursor, or ten places skipped |
| AlarmRing.Overtaken | streamLib/streamAlarmQueue.c:128-143 | a reader behind by any number of rings is told so if and only if the writer is between its positions, and is otherwise given the newest alarm at its place, out of turn exactly if it is more than a ring behind |
| AlarmRing.Reader.Get | streamLib/streamAlarmQueue.c:101-148 | exactly when a call gives an alarm, with the writer inserting in between |
| AlarmRing.ReadsCatchUp | streamLib/streamAlarmQueue.c:101-148 | a reader that has joined, is not behind and does not take the ring for empty gets all that is waiting by as many reads |
| AlarmRing.FullRingLooksEmpty | streamLib/streamAlarmQueue.c:111-115 | for a ring of any size: a ring full of alarms that no number of reads gets, and that is overwritten next |
| AlarmRing.Run | streamLib/streamAlarmQueue.c:82-148 | every run of a reader at most a ring behind: exactly as many alarms as the count of its events says, the first ones written, each once and in order |
| YuvPool.BufList.Append | streamLib/streamYuvQueue.c:198-214 | the buffer is the last of the list, and the counter follows |
| YuvPool.BufList.TakeFirst | streamLib/streamYuvQueue.c:239-259 | the first buffer leaves, and the counter never disagrees with the list |
| YuvPool.YuvQueue.constructor | streamLib/streamYuvQueue.c:7-40 | three free buffers and nothing else |
| YuvPool.YuvQueue.GetWriteBuffer | streamLib/streamYuvQueue.c:121-188 | a free buffer, else the oldest frame is dropped; null only when every buffer is held |
| YuvPool.YuvQueue.Insert | streamLib/streamYuvQueue.c:191-219 | the frame joins the end of the queue |
| YuvPool.YuvQueue.GetUsedBuffer | streamLib/streamYuvQueue.c:222-265 | the oldest frame is delivered |
| YuvPool.YuvQueue.FreeUsedBuffer | streamLib/streamYuvQueue.c:268-293 | the buffer is free again |
| YuvPool.YuvQueue.CountersAddUp | streamLib/streamYuvQueue.c:165-214 | counters are list lengths and add up with the held buffers to the size of the pool |
| CleanPath.CleanIsKept | boaLib/util.c:38-66 | the result is the kept components joined |
| CleanPath.DroppedIsDots | boaLib/util.c:53-59 | what is skipped is an empty, "." or ".." component with its slash |
| CleanPath.CleanedIsClean | boaLib/util.c:38-66 | no //, /./ or /../ is left |
| CleanPath.CleanIsIdempotent | boaLib/util.c:38-66 | unchanged if and only if clean; cleaning twice is cleaning once |
| CleanPath.SkipAll | boaLib/util.c:52-62 | the inner loop stops behind everything dropped |
| CleanPath.CleanPathname | boaLib/util.c:45-69 | in place: the cleaned string, its terminator, and nothing behind it written |

## Left out

- Sockets, `fork`, `exec`, `mmap`, `stat`, signals, `longjmp`, logging and time: they are results an arbitrary environment gives.
- EventLoop assumes that ka_max is not negative, that the kernel never hands out an open descriptor, that descriptors 0 to 2 and the listening socket stay open, and that a descriptor field of 0 means "none".
- Handlers.ReqFlush: the bytes written and `buffer_start`, which the scheduler does not look at; ResponseStream models them.
- Handlers.RunHandler: the handlers are one arbitrary step that keeps to its own descriptors; what it does when it reports "blocked" is proved in BlockedCalls for the handlers that read requests and send files, and is an assumption about the CGI header reader.
- EventLoop: memory is never returned, `free_requests` at shutdown and the drain of unread input when a connection is closed are not modelled; accepted sockets from FD_SETSIZE on are refused, as in the source, which lets data descriptors have any number.
- RequestReader: the firmware-upgrade hook, which looks at the first packet only; URI handlers that answer a POST themselves; a POST line without an HTTP version, which keeps scanning after `process_header_end`; percent-decoding and the text of the lines.
- RequestReader.ServeConnection: a connection that is kept although a read of its headers failed; the next read of it fails too.
- ResponseStream: the text of the headers and error pages, which are assumed to fit the buffer; what `html_argument_parse` makes of a page; directories and `.gz` files; `release_mmap` as called from `free_request`, which happens only for requests without a log line.
- ResponseStream.Request.ProcessGet: the streaming branches, which go on with live audio and video at the end of the data.
- ResponseStream.Request.ReadFromPipe: the CGI_PARSE branches (`process_cgi_header`); the relay is modelled from CGI_BUFFER on.
- BoaGrammar: the scanner `lex.yy.c`; the parser is fed a token sequence. The value left by a rule with an empty right-hand side is never read, and is modelled as the scanner's last value.
- BitCodec.Ue: a shift by 31 or more is undefined in C and gives an arbitrary result; reading behind the buffer is undefined too and finds arbitrary bits.
- BitCodec: the fields of sequence parameter sets and `bits_align`.
- MmapCache: use counts are unbounded, and the statistics counters are not kept.
- AliasIndex: `normalize_path` is an arbitrary function; characters are unsigned, as on the ARM target.
- ByteRing.Ring.Receive: what a frame longer than the ring does to the memory behind the buffer is undefined, and nothing is stated of the ring after it.
- ByteRing: `ring_push_n` and `ring_free_size`, which treat an empty ring as having no room.
- AlarmRing.Run: runs with a reader that joins after the first wrap or falls more than a ring behind; what one call does for a reader that is behind is stated (`Overtaken`).
- YuvPool: the operations hold the queue's lock, so they are single steps; `pre` links are written and never read.
- CRC, bit and list code under `#if 0`; `Base64Encode2` and `MP4ToBase64`, byte-wise encoders; `linklist.c`, `hash.c` and `list.h`, general containers beside the lists modelled here; `myMalloc.c`, which wraps malloc with a message; the constant tables of `hs_miscLib.c`.
