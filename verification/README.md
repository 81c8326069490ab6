# Verified models of the libevent cores and of the Pareto ranking

This project models the hardest parts of the vendored libevent, and one ranking algorithm of the
benchmark suite, and proves what they promise. Everything is proved for all inputs, all states
that satisfy the stated invariants, or all runs.

- **evbuffer.** A byte queue kept as a linked list of partly filled chains. The model has the
  chains, their memories, `misalign`, `off`, `first`, `last`, `last_with_datap` and `total_len` on
  the heap; `last_with_datap` is the chain whose `next` field it points at, with null for
  `&buf->first`. A ghost view says which bytes each chain holds, and the contents of a buffer are
  their concatenation. Every operation keeps the list invariant and acts on the contents as a plain
  sequence operation: `EvbufferCore`, `EvbufferAppend`, `EvbufferPrepend`, `EvbufferDrain`,
  `EvbufferMove`, `EvbufferSplit`, `EvbufferPullup`, `EvbufferExpand`, `EvbufferReserve`,
  `EvbufferCommit`, `EvbufferSearch`, `EvbufferLine`, and `EvbufferRuns` for whole runs on two
  buffers. What the change callbacks are told is part of every operation: `Told` and `Silent` in
  `EvbufferCore` say it from the state before and the bytes added and deleted.
- **Domain names in DNS messages.** The encoder with its compression table (`DnsName`), the decoder
  that follows pointers (`DnsParse`), the round trip of section 4.1.4 of RFC 1035
  (`DnsRoundTrip`), and the packet of a request (`DnsRequest`).
- **The resolver.** Requests in flight in hashed circular lists, waiting requests in another, the
  counters beside the lists, the ring of nameservers, and the handles that stand for requests and
  wait for their callbacks: `DnsRing`, `DnsServers`, `DnsResolver`, `DnsTraffic`, `DnsSending`, `DnsPump`,
  `DnsRequests` (the lives of requests), `DnsEvents` (what happens from outside), `DnsAdmin`,
  `DnsFreeing` and `DnsSuspend` (dropping all servers), and `DnsRuns` for whole runs.
- **Tagged data.** Tags, nibble-packed integers and framed payloads over evbuffers: `TagCodec`,
  `TagStream`, `TagFrames`, `TagValues`. The format comment of the source calls tags and nibbles
  big-endian; the code puts the least significant group first, and the model follows the code.
- **The rate limiter.** Refilling without overflow, bandwidth over any span of ticks, and that no
  wakeup is lost, for single connections and groups: `TokenBucket`, `RateLimit`, `RateGroup`,
  `RateObjects`.
- **Paired bufferevents.** One direction of a pair as a flow-controlled queue (`PairChannel`), and
  the code with its nested callbacks, which refines it (`PairEnds`).
- **Two small cores.** Unbiased range reduction and the shuffled state of `arc4random`
  (`Arc4Random`), and the Pareto frontier of `create_pointset` (`ParetoFront`).

`Bytes`, `Arithmetic` and `Suspension` hold what several of these share.

## What was found

- `evbuffer_reserve_space` with two or more vectors and a size of zero runs into an assertion
  exactly when no chain from the last with data on has room
  (`EvbufferCommit.ReserveSpace`, `EvbufferCommit.ReserveNothing`).
- `evbuffer_prepend` of more than the room in front and one chain can hold fails with a part of the
  data in front already (`EvbufferPrepend.Prepend`).
- `evbuffer_strspn` leaves a position behind the last byte with its place in the list at the
  beginning of the last chain; nothing goes on from there (`EvbufferLine.StrspnEol`).
- The encoder of names checks the size it is given for everything but the final zero byte, so it can
  write that byte behind its memory. When it does is `DnsName.OverrunsExactlyWhen`, and
  `DnsRoundTrip.RunsOverExactlyWhen` for the responses of a server, which are formatted in memory
  of just that size (`DnsRoundTrip.ResponseRunsOver`). Requests always have room
  (`DnsName.RequestHasRoom`).
- A name with an empty label before its end does not come back from its encoding; the exact
  condition is `DnsRoundTrip.TextComesBack` and `DnsRoundTrip.EndsTogether`, and one such name is in
  `DnsRoundTrip.EmptyLabelIsLost`. A compression pointer reaches its target exactly when that is in
  the first 2^14 bytes (`DnsName.PointerReaches`).
- Dropping all nameservers frees them one by one and cancels their probes on the way. That can use a
  server that is freed already: the one that a probe's request was sent to, or, when cancelling makes
  room and a request waits, the head of the ring. Unless there is room already at the turn of the first
  server, a freed server is used exactly when there is room at some probe's turn and a request waits,
  or a probe's request is at a server with an earlier turn (`DnsSuspend.SuspendAll`); a run from a new
  resolver to such a state is `DnsSuspend.SuspendUsesFreed`.
- Dropping the nameservers while the callback of a probe is scheduled leaves that callback with a freed
  server. It leaves no such callback exactly when every probe was cancelled or still stands for a
  request as its server's probe (`DnsRuns.OnSuspend`, `DnsRuns.CallbackUsesFreed`).
- Reading a tag of more than five bytes can load a byte that was not pulled up
  (`TagStream.DecodeTag`, `TagCodec.BehindIsNoTag`).
- A string of INT_MAX bytes does not come back: the int sum that its memory is allocated by overflows.
  All shorter ones do (`TagValues.DataRoundTrip`).
- From a buffer whose start is frozen a tag is read without being taken off, so that its bytes are read
  again as the length, and the call still succeeds (`TagStream.UnmarshalHeader`,
  `TagFrames.FrozenTagIsLength`).
- `evtag_consume` and `evtag_peek_length` agree exactly when the payload length fits an int, or
  nothing follows the frame and its whole length fits 32 bits (`TagFrames.ConsumeMatchesPeek`,
  `TagFrames.ConsumeTakesTooMuch`).
- A limit above its maximum, which only refunds can bring about, is not refilled as intended; the
  exact condition is `TokenBucket.RefillIsExact` (see `TokenBucket.OverfullGrows`). A group without a
  minimal share can be resumed with nothing to spend (`RateGroup.RefillNeedsMinShare`,
  `RateGroup.ResumedOnNothing`).
- A pair can stall: enabling a writer that is suspended leaves its output waiting. That is the only
  way (`PairChannel.StallsExactlyWhen`, `PairChannel.SuspendedWriterStalls`).

## Model

| member | source | states |
|---|---|---|
| EvbufferCore.ChainNew | deps/3rd/libevent/buffer.c:156-193 | only requests over the maximum fail; a new chain is empty and has the memory that `Capacity` says |
| EvbufferCore.CapacityIsLeast | deps/3rd/libevent/buffer.c:165-183 | chain and header together take the least power-of-two multiple of the minimal size that holds the request |
| EvbufferCore.RunCallbacks | deps/3rd/libevent/buffer.c:455-511 | a run that clears the counters reports the length at the last clearing and what was added and deleted since; a deferred buffer keeps counting until its deferred run, and tells callbacks that are not deferred as much before |
| EvbufferCore.Evbuffer.constructor | deps/3rd/libevent/buffer.c:361-375 | a new buffer is valid and empty |
| EvbufferCore.FreeTrailingEmptyChains | deps/3rd/libevent/buffer.c:290-303 | just the chains behind the last with data are cut off, and the slot where a chain can be put is answered |
| EvbufferCore.ChainInsert | deps/3rd/libevent/buffer.c:308-327 | a chain put at the end replaces trailing empty chains, keeps the list invariant and appends its bytes |
| EvbufferAppend.AddSized | deps/3rd/libevent/buffer.c:1729-1824 | more bytes than one chain can hold are refused before any is read; a first chain is made just for the data; the callbacks are told of it |
| EvbufferAppend.Add | deps/3rd/libevent/buffer.c:1729-1824 | the data is appended, or nothing changes, and the answer says which, for data of any length; callbacks that are told at once are told of the old length and the bytes added, and for deferred ones they are added up |
| EvbufferPrepend.Prepend | deps/3rd/libevent/buffer.c:1826-1910 | the data is put in front, also where it is split over two chains, and the callbacks are told; if the part for the new chain is too large for one, the call fails with the other part in front already; else a refusal changes nothing |
| EvbufferDrain.Drain | deps/3rd/libevent/buffer.c:1100-1166 | the first bytes, up to the length asked for, are dropped, and the callbacks are told of so many; last_with_datap is repaired |
| EvbufferDrain.CopyoutFrom | deps/3rd/libevent/buffer.c:1189-1254 | the bytes from the position on are answered, as many as asked for and there are; nothing changes |
| EvbufferDrain.Remove | deps/3rd/libevent/buffer.c:1169-1181 | what is answered and what is left make up the old contents, and the callbacks are told of what is answered |
| EvbufferMove.AddBuffer | deps/3rd/libevent/buffer.c:965-1009 | the source's contents are appended to the destination and the source is empty, or nothing changes; the callbacks of both are told of the move; both lists stay valid and apart |
| EvbufferMove.PrependBuffer | deps/3rd/libevent/buffer.c:1054-1098 | the source's contents are put in front of the destination's, or nothing changes; the callbacks of both are told of the move; both lists stay valid and apart |
| EvbufferSplit.AdvanceLastWithData | deps/3rd/libevent/buffer.c:703-721 | last_with_datap is moved to the last chain with data, and the chains walked over are counted |
| EvbufferSplit.RemoveBuffer | deps/3rd/libevent/buffer.c:1259-1347 | exactly the first min(datlen, length) bytes move to the end of the destination, whether chains are spliced or a part is copied, and the callbacks of both are told of so many; both lists stay valid and apart |
| EvbufferPullup.Pullup | deps/3rd/libevent/buffer.c:1349-1461 | the contents are unchanged and the first bytes asked for lie in one piece in the first chain; there is no region exactly when none or too many are asked for |
| EvbufferExpand.ExpandSinglechain | deps/3rd/libevent/buffer.c:1938-2046 | the contents are unchanged and the chain answered is in the list with the room asked for |
| EvbufferExpand.Expand | deps/3rd/libevent/buffer.c:2160-2169 | on success some chain of the list has the room asked for; contents and counters are unchanged, and no callback is told |
| EvbufferReserve.ExpandFast | deps/3rd/libevent/buffer.c:2050-2158 | on success at most n chains from the last with data on have the room asked for together; the contents are unchanged |
| EvbufferCommit.ReserveSpace | deps/3rd/libevent/buffer.c:670-701 | the regions offered are at most n, have the room asked for together and lie behind the data; when it refuses and when it aborts; the contents are unchanged |
| EvbufferCommit.ReserveNothing | deps/3rd/libevent/buffer.c:670-701 | a run from a new buffer that ends in the failed assertion: fill the first chain, reserve nothing in two vectors |
| EvbufferCommit.ReadSetupVecs | deps/3rd/libevent/buffer.c:2224-2260 | the vectors set up are the free spaces of consecutive chains, as far as there are vectors, and of the last one only what is missing if it has to be exact; negative sizes are refused |
| EvbufferCommit.CommitSpace | deps/3rd/libevent/buffer.c:723-791 | vectors that begin the free spaces in order are accepted, append what is in them, and are told of; others change nothing |
| EvbufferCommit.StoreAndCommit | deps/3rd/libevent/buffer.c:670-791 | writing into the offered regions and committing any shortened prefix of them succeeds and appends exactly the bytes written |
| EvbufferSearch.PtrSet | deps/3rd/libevent/buffer.c:2622-2672 | a position up to the length is found in the chains, on a byte or at the end; others are not found |
| EvbufferSearch.PtrAdd | deps/3rd/libevent/buffer.c:2622-2672 | moving a position forward succeeds exactly up to the length |
| EvbufferSearch.CompareIs | deps/3rd/libevent/buffer.c:2678-2712 | the comparison is zero just for equal strings, is antisymmetric, and negative where the first byte that differs is smaller |
| EvbufferSearch.PtrMemcmp | deps/3rd/libevent/buffer.c:2678-2712 | the pattern is compared with the bytes at the position, across chains, with the order of the first bytes that differ; it answers 0 exactly where the pattern is |
| EvbufferSearch.SearchRange | deps/3rd/libevent/buffer.c:2720-2782 | the leftmost occurrence of the pattern that starts at or after the start and ends by the end is found, however the bytes are split into chains, and nothing is found exactly when there is none |
| EvbufferLine.PtrSubtract | deps/3rd/libevent/buffer.c:2602-2620 | any position is moved back exactly if that is not before zero, and else left where it is |
| EvbufferLine.FindEolIn | deps/3rd/libevent/buffer.c:1495-1520 | the chunked scan finds the first CR or LF |
| EvbufferLine.StrspnEol | deps/3rd/libevent/buffer.c:1544-1581 | the count is the whole run of line-end characters, across chains, and the position is behind it; of a run to the end of the buffer the place in the list is the beginning of the last chain |
| EvbufferLine.SearchEol | deps/3rd/libevent/buffer.c:1596-1684 | the leftmost terminator of each style and its length, or not found exactly when there is none |
| EvbufferLine.Readln | deps/3rd/libevent/buffer.c:1686-1723 | the old contents are the line, the leftmost terminator and the new contents, and the callbacks are told of both drains; without one nothing changes |
| EvbufferRuns.Run | deps/3rd/libevent/buffer.c:965-2169 | any run of operations on two buffers does to their contents what plain sequence operations do, and keeps both list invariants; callbacks that are told at once were told of just the changes, one by one and in order, with the length before each |
| EvbufferRuns.PipelineKeepsOrder | deps/3rd/libevent/buffer.c:965-1347 | whatever the chain splits, moves and freezes, bytes that enter one buffer and leave through the other come out in order, none lost or doubled |
| EvbufferRuns.ReportsAccountForLength | deps/3rd/libevent/buffer.c:455-511 | all reports to the change callbacks and the counters not reported yet add up to the length |
| EvbufferRuns.ToldOfEach | deps/3rd/libevent/buffer.c:455-511 | three bytes added to a new buffer and two drained are told as (0, 3, 0) and (3, 0, 2) |
| DnsName.LabelTable.GetPos | deps/3rd/libevent/evdns.c:1574-1583 | the position of the first entry for the name, or -1 |
| DnsName.LabelTable.Add | deps/3rd/libevent/evdns.c:1586-1601 | the entry is put behind the others, except into a full table, and the answer says which |
| DnsName.AddAndGet | deps/3rd/libevent/evdns.c:1574-1601 | a name that was not in the table is found where it was added, unless the table was full |
| DnsName.PointerReaches | deps/3rd/libevent/evdns.c:1644-1647 | a compression pointer reaches what it was made for exactly when that is below 2^14 |
| DnsName.DnsnameToLabels | deps/3rd/libevent/evdns.c:1614-1678 | in memory of no more than the size checked against: the answer, the table and the memory, which changes only where the encoding is, are those of the recursive encoding, also on errors, and when its last byte belongs behind the memory |
| DnsName.OverrunsExactlyWhen | deps/3rd/libevent/evdns.c:1646-1677 | the encoder writes past the size it was given, for all names, tables and places, exactly when a name without an end of its own, and without a tail in the table, fits but for its final zero byte; it is that byte alone |
| DnsName.LastNameOverruns | deps/3rd/libevent/evdns.c:1646-1677 | a name of three letters, four bytes before the end of any memory, does |
| DnsName.RequestHasRoom | deps/3rd/libevent/evdns.c:1683-1719 | in the memory of a request there is always room for the name, the type and the class; it fails only for a name or label that is too long |
| DnsName.TailsRemembered | deps/3rd/libevent/evdns.c:1614-1678 | the encoder leaves a table with the name and what follows each of its dots: each with its first entry from before, or with a new one for the place it was written at |
| DnsName.StaysClosed | deps/3rd/libevent/evdns.c:1614-1678 | a table in which each name has all its tails with it stays one |
| DnsName.WrittenAgain | deps/3rd/libevent/evdns.c:1644-1661 | compression: a name, or a tail of it, that is written again with the table it left, while that has room, takes exactly two bytes, a pointer to its first place, and no entry |
| DnsName.WriteTwice | deps/3rd/libevent/evdns.c:1614-1678 | the name `a` written at 12 and again at 15 ends at 15 and at 17, the second time as a pointer to 12 |
| DnsParse.NameParse | deps/3rd/libevent/evdns.c:976-1030 | it ends on every message; it succeeds exactly when there is a name readable with at most as many jumps as bytes that fits with its zero byte; the index strictly advances to the name's end within the message |
| DnsRoundTrip.EncodedReads | deps/3rd/libevent/evdns.c:1614-1678 | what the encoder wrote for the rest of a name reads as its labels, and every entry it made decodes to its own suffix with strictly backward jumps |
| DnsRoundTrip.MessageReadsBack | deps/3rd/libevent/evdns.c:1932-1982 | in any message of names and data written with one table, each name reads back at its place, ending where it was ended |
| DnsRoundTrip.RepeatsTakeTwoBytes | deps/3rd/libevent/evdns.c:1932-1982 | in any message whose table is not full in the end, a name that was in it before, as a whole or behind a dot, takes two bytes and no entry |
| DnsRoundTrip.TextComesBack | deps/3rd/libevent/evdns.c:1650-1677 | the text read back is the name without its final dot exactly when no label before the end is empty, or the name is one dot |
| DnsRoundTrip.EndsTogether | deps/3rd/libevent/evdns.c:1695-1719 | without a table the reader stops where the encoder did exactly when the name is well formed |
| DnsRoundTrip.EmptyLabelIsLost | deps/3rd/libevent/evdns.c:1646-1677 | of `a..b` only `a` is read, and the reader stops before the end |
| DnsRoundTrip.WriteMessage | deps/3rd/libevent/evdns.c:1932-1982 | names and data put one after another with a shared table make the message that the round trip is about, or run over the memory just when `RunsOver` says |
| DnsRoundTrip.RunsOverExactlyWhen | deps/3rd/libevent/evdns.c:1909-1982 | a message runs over memory of the size checked against exactly when some name in it does not fit by just its zero byte, and never over larger memory |
| DnsRoundTrip.ResponseRunsOver | deps/3rd/libevent/evdns.c:1911-1912 | a message that runs over the 1500 bytes of a response |
| DnsRoundTrip.ReadMessage | deps/3rd/libevent/evdns.c:976-1030 | name_parse, called where each piece of a written message ended, answers every well-formed name without its final dot, in 256 bytes of memory, and ends where the writer ended |
| DnsRoundTrip.WriteAndRead | deps/3rd/libevent/evdns.c:976-1982 | whatever names and data are written, all names are read back whenever all was written in at most 2^14 bytes; longer messages are not read here |
| DnsRequest.BuildRequest | deps/3rd/libevent/evdns.c:1690-1719 | the packet is header, encoded name, type and class, in memory of the length computed for it; it fails only for a name or label that is too long |
| DnsRequest.QuestionReadsBack | deps/3rd/libevent/evdns.c:1690-1719 | name_parse reads the name of a packet without its final dot, and stops at the type; the header before it and the type and class behind it, byte by byte |
| DnsRing.Insert | deps/3rd/libevent/evdns.c:2753-2768 | a request is put at the tail of a circular list |
| DnsRing.Remove | deps/3rd/libevent/evdns.c:2715-2751 | a request is taken out of a circular list, the others keep their order, and its links are cleared |
| DnsRing.ShiftedBack | deps/3rd/libevent/evdns.c:2457-2461 | moving the head back by one makes the last request the first |
| DnsRing.Find | deps/3rd/libevent/evdns.c:472-487 | one lap finds the first request with the id, or that there is none |
| DnsServers.Pick | deps/3rd/libevent/evdns.c:1349-1382 | within one lap the first good server is picked and the head moves behind it; without a good one the next is taken; the ring keeps its servers |
| DnsServers.PicksGoRound | deps/3rd/libevent/evdns.c:1349-1382 | picks one after another visit the good servers in ring order, round and round |
| DnsServers.PicksAreNth | deps/3rd/libevent/evdns.c:1349-1382 | picks told from which servers are up, as the pump makes them, are those that go round |
| DnsResolver.Base.constructor | deps/3rd/libevent/evdns.c:3956-3995 | a new resolver has nothing in flight, nothing waiting and no servers |
| DnsResolver.Base.SubmitFlying | deps/3rd/libevent/evdns.c:2857-2870 | a request with a server goes into the bucket of its id and is counted twice over |
| DnsResolver.Base.SubmitWaiting | deps/3rd/libevent/evdns.c:2870-2875 | a request without a server goes to the end of the queue and is counted |
| DnsResolver.Base.FinishFlying | deps/3rd/libevent/evdns.c:652-671 | a request leaves its bucket and both counts |
| DnsResolver.Base.FinishWaiting | deps/3rd/libevent/evdns.c:652-673 | a request leaves the queue and its count |
| DnsTraffic.SwapNs | deps/3rd/libevent/evdns.c:548-557 | a request changes servers and both servers' counts follow |
| DnsTraffic.NameserverFailed | deps/3rd/libevent/evdns.c:561-619 | the count of good servers follows the ring; with a good server left no unsent request stays with the failed one, and those that move go to good servers; requests that were sent, or are at other servers, keep theirs |
| DnsSending.Transmit | deps/3rd/libevent/evdns.c:2254-2303 | each outcome of an attempt: an untried or retriable one leaves the mark at a choked server, a sent or broken one counts and clears it; only a broken one marks the server down, only a retriable one chokes it; all invariants hold |
| DnsSending.TransmitAll | deps/3rd/libevent/evdns.c:2361-2383 | every marked request is tried once, and stays marked only if its server is choked; the others are left alone; the answer is whether there was a marked one |
| DnsPump.Pump | deps/3rd/libevent/evdns.c:741-774 | exactly as many waiting requests as there is room for go into flight, in order, if there is a server, and each is sent unless its server is choked; as long as no server fails they go to the good servers in turn; without room, or when nothing waits, no server is looked at |
| DnsRequests.RequestFinished | deps/3rd/libevent/evdns.c:648-710 | just the finished request is not outstanding any more, and its handle stands for nothing; the handle is freed unless its callback is scheduled; the others are in flight or waiting, and nothing waits while there is room and a server; which servers are used |
| DnsRequests.NewRequest | deps/3rd/libevent/evdns.c:2780-2875 | a request for a name that can be asked for flies if there is room and a server, and is sent to the server picked unless that is choked or fails, and else waits at the end, and the handle stands for it; for any other name nothing happens |
| DnsRequests.SendProbe | deps/3rd/libevent/evdns.c:2331-2356 | a probe flies at its server whatever the maximum, and is sent unless that is choked; the server holds its handle; of a server that is down, where the pick on the way leaves the ring |
| DnsRequests.CancelRequest | deps/3rd/libevent/evdns.c:2877-2911 | the request of the handle, in flight or waiting, is the only one gone, and its callback is scheduled; a handle without one, or with its callback pending, changes nothing |
| DnsRequests.CancelProbe | deps/3rd/libevent/evdns.c:2430-2433 | the probe's request, if it stands for one, is the only one gone; when it makes no room for a waiting request, only the server of that request is used, and else the head of the ring |
| DnsRequests.NameserverUp | deps/3rd/libevent/evdns.c:621-640 | the server is up, its failures are forgotten and its outstanding probe, if any, is the only request gone; a server that was up already is left alone |
| DnsRequests.Reissue | deps/3rd/libevent/evdns.c:711-739 | a request goes to the server that was picked, and is marked to be sent anew exactly when that is another one |
| DnsRequests.TimedOut | deps/3rd/libevent/evdns.c:2174-2212 | a request is given up after the retransmissions, its callback scheduled and its server marked down; else it stays outstanding and is sent again to the server picked, unless that fails, and one more timeout is counted for the server it is at, which is down if that was one too many |
| DnsEvents.SendMarked | deps/3rd/libevent/evdns.c:1509-1524 | a socket that takes packets again: every marked request is tried once and stays marked only if its server is choked, and all invariants hold |
| DnsEvents.ServerAnswered | deps/3rd/libevent/evdns.c:939-947 | the server of an answered request is up and holds no probe from when it was down, and no request but another probe of that server is gone |
| DnsEvents.ReplyHandle | deps/3rd/libevent/evdns.c:884-973 | whatever a reply says, all invariants hold and no request is gone but its own and a probe of its server; an answer, or an error of the name, ends the request, schedules its callback and forgets the failures of its server; a refusal of a request that was sent keeps it just if it may go on once more and there is another server to try; a failure counts as a timeout |
| DnsEvents.Reject | deps/3rd/libevent/evdns.c:915-924 | after a refusal the server is down if the request may go on; one that was sent goes to another server, a good one if there is any, exactly when it may and there is one to try, and else ends |
| DnsEvents.ProbeCallback | deps/3rd/libevent/evdns.c:2306-2330 | the server is up after a good answer, and else counts one more failure; no request is gone |
| DnsAdmin.FindInFlight | deps/3rd/libevent/evdns.c:472-487 | looking in the one bucket finds a request in flight with the id if there is any |
| DnsAdmin.AddServer | deps/3rd/libevent/evdns.c:2577-2590 | the server enters the ring behind its head, the others keep their order, and it is counted as good |
| DnsAdmin.Rehash | deps/3rd/libevent/evdns.c:3440-3450 | all requests of a table go to their buckets in a table of another size |
| DnsAdmin.SetMaxInflight | deps/3rd/libevent/evdns.c:3425-3454 | the same requests stay in flight; the table has a fifth of the maximum, rounded up |
| DnsFreeing.CancelProbes | deps/3rd/libevent/evdns.c:2425-2441 | the loop that frees the servers cancels just the probes that stand for requests; unless the queue is pumped at the first turn, no freed server is used exactly when the queue is never pumped and no probe's request is at a server freed before its turn |
| DnsSuspend.SuspendAll | deps/3rd/libevent/evdns.c:2412-2475 | on every state: the probes are gone, all other requests wait as if never sent, those in flight in front, the last of the last bucket first, if the queue was never pumped; or a freed server is used, with the condition of `DnsFreeing.CancelProbes`; without a probe that stands for a request none is |
| DnsSuspend.ReversedAt | deps/3rd/libevent/evdns.c:2451-2463 | the order the requests in flight wait in is the reverse of that of the buckets |
| DnsSuspend.SuspendUsesFreed | deps/3rd/libevent/evdns.c:2425-2441 | a run from a new resolver that ends in the use of a freed server: room for one request, the probe of the second server in the ring out, and a request waiting |
| DnsRuns.OnCallback | deps/3rd/libevent/evdns.c:788-831 | a callback that runs frees its handle and keeps all invariants; a probe's that was not cancelled uses its server, which is freed exactly when it left the ring |
| DnsRuns.OnSuspend | deps/3rd/libevent/evdns.c:2412-2475 | dropping the servers leaves no callback that will use a freed one exactly when every probe was cancelled or stood for a request as its server's probe |
| DnsRuns.CallbackUsesFreed | deps/3rd/libevent/evdns.c:2412-2441 | a run from a new resolver in which the servers are dropped while the callback of an answered probe is scheduled, which then uses a freed server |
| DnsRuns.Run | deps/3rd/libevent/evdns.c:472-3454 | any list of events from a new resolver: all invariants hold; each handle made is still there or its callback ran, once; the handles that are there stand for just the outstanding requests or have their callbacks scheduled; no freed server is used unless the servers are dropped |
| TagCodec.BuildTag | deps/3rd/libevent/event_tagging.c:177-198 | the bytes of a tag, seven bits at a time, lowest first |
| TagCodec.ReadTag | deps/3rd/libevent/event_tagging.c:214-246 | the 32-bit loop computes the tag, or refuses what does not fit 32 bits or has no end, and says whether it loads a byte that was not pulled up |
| TagCodec.BehindIsNoTag | deps/3rd/libevent/event_tagging.c:216-236 | where it does, there is no tag, whatever that byte is |
| TagCodec.TagComesBack | deps/3rd/libevent/event_tagging.c:177-246 | every 32-bit tag comes back, whatever follows it |
| TagCodec.TagReads | deps/3rd/libevent/event_tagging.c:214-246 | there is a tag just when one of the first five bytes ends it, a fifth with four bits at most; its value byte by byte, the lowest group first |
| TagCodec.TagExample | deps/3rd/libevent/event_tagging.c:118-198 | the tag 300 and the integer 0x1ab on the wire |
| TagCodec.EncodeInt | deps/3rd/libevent/event_tagging.c:118-154 | the nibble loop writes the count and nibbles of the number, for 32 and 64 bits |
| TagCodec.ReadInt | deps/3rd/libevent/event_tagging.c:319-377 | the nibble loop, on numbers of a fixed width, computes the number written |
| TagCodec.IntComesBack | deps/3rd/libevent/event_tagging.c:118-377 | every number of at most the allowed nibbles comes back at its place, and no larger one does |
| TagCodec.IntReads | deps/3rd/libevent/event_tagging.c:319-377 | any bytes: an integer is refused just when it has too many nibbles or they are not all there; else its size and each of its nibbles |
| TagStream.DecodeTag | deps/3rd/libevent/event_tagging.c:200-246 | the tag at the front and its size, and what is drained, which is nothing if the start is frozen; the byte behind the five pulled up is loaded exactly when there are at least six, the first five have the high bit set, and the fifth is at most 0x8f |
| TagStream.DecodeInt | deps/3rd/libevent/event_tagging.c:319-377 | the integer at the offset and its size, with nothing drained |
| TagStream.EvtagDecodeInt | deps/3rd/libevent/event_tagging.c:379-397 | the integer at the front is drained, or nothing is; with a frozen start it is read all the same |
| TagStream.EncodeTag | deps/3rd/libevent/event_tagging.c:177-198 | the bytes of the tag are appended and counted |
| TagStream.EvtagEncodeInt | deps/3rd/libevent/event_tagging.c:156-170 | the bytes of the integer are appended |
| TagStream.Marshal | deps/3rd/libevent/event_tagging.c:260-267 | tag, length and payload are appended |
| TagStream.MarshalBuffer | deps/3rd/libevent/event_tagging.c:269-277 | the other buffer's bytes are the payload; the length written is cut down to 32 bits |
| TagStream.MarshalInt | deps/3rd/libevent/event_tagging.c:280-301 | a frame with the encoded integer as payload is appended |
| TagStream.MarshalTimeval | deps/3rd/libevent/event_tagging.c:310-317 | a frame with both fields, cut down to 32 bits, is appended |
| TagStream.UnmarshalHeader | deps/3rd/libevent/event_tagging.c:441-455 | the payload length as an int, the tag, and how much of the header is drained in every case, frozen or not |
| TagFrames.HeaderComesBack | deps/3rd/libevent/event_tagging.c:260-455 | the header of a marshalled frame reads as its tag and payload length |
| TagFrames.FrozenTagIsLength | deps/3rd/libevent/event_tagging.c:236-455 | from a buffer with a frozen start a tag below 16 is read as the payload length, too |
| TagFrames.BadLengthLosesTag | deps/3rd/libevent/event_tagging.c:441-455 | behind a tag that is all there, a malformed length costs the tag |
| TagFrames.PrefixIsRefused | deps/3rd/libevent/event_tagging.c:441-455 | every proper prefix of a frame is refused; nothing is drained of a broken tag, the tag before a broken length, and the header before a broken payload |
| TagFrames.Unmarshal | deps/3rd/libevent/event_tagging.c:470-484 | the payload goes to the end of the destination and the rest stays; of a payload above INT_MAX, or one that does not fit, only the header is taken; from a frozen start nothing is taken; in every case |
| TagFrames.SendAll | deps/3rd/libevent/event_tagging.c:260-267 | frames marshalled one after another make a stream |
| TagFrames.ReceiveAll | deps/3rd/libevent/event_tagging.c:470-484 | all frames with payloads up to INT_MAX are recovered in order and the trailing bytes are left, if the start is not frozen |
| TagFrames.PeekLength | deps/3rd/libevent/event_tagging.c:405-437 | the payload length, or the frame's whole length in 32 bits, with nothing changed |
| TagFrames.Consume | deps/3rd/libevent/event_tagging.c:457-466 | the answer and what is left in every case, frozen or not |
| TagFrames.ConsumeMatchesPeek | deps/3rd/libevent/event_tagging.c:405-466 | for complete frames, exactly when as much is consumed as was announced |
| TagFrames.ConsumeTakesTooMuch | deps/3rd/libevent/event_tagging.c:405-466 | of a frame with 2^31 bytes and one more behind it, that one is consumed too |
| TagFrames.ConsumeTakesFrame | deps/3rd/libevent/event_tagging.c:405-466 | a marshalled frame with a payload up to INT_MAX is consumed exactly |
| TagFrames.ConsumeRefusesPrefix | deps/3rd/libevent/event_tagging.c:457-466 | a frame that is not all there is not consumed, and just what could be read of its header is gone |
| TagValues.UnmarshalInt | deps/3rd/libevent/event_tagging.c:488-538 | the answer and what is left in every case, for 32 and 64 bits, frozen or not |
| TagValues.IntRoundTrip | deps/3rd/libevent/event_tagging.c:280-538 | every 32-bit or 64-bit integer comes back from its frame |
| TagValues.IntOfFrame | deps/3rd/libevent/event_tagging.c:488-538 | any frame with the tag is taken off; the answer is the integer at the beginning of its payload, if that does not go on behind it |
| TagValues.OtherTagRefused | deps/3rd/libevent/event_tagging.c:488-609 | a frame with another tag is refused: for an integer just the tag is gone, for data the header, for a time value the frame |
| TagValues.PrefixHasNoValue | deps/3rd/libevent/event_tagging.c:488-609 | a frame that is not all there has no value of any kind |
| TagValues.UnmarshalFixed | deps/3rd/libevent/event_tagging.c:542-559 | the answer and what is left in every case; from a frozen start success without a byte copied |
| TagValues.UnmarshalString | deps/3rd/libevent/event_tagging.c:561-581 | the answer and what is left in every case, and that the length overflows exactly for a string of INT_MAX bytes |
| TagValues.DataRoundTrip | deps/3rd/libevent/event_tagging.c:260-581 | a string comes back exactly when it is shorter than INT_MAX, and data of a fixed size exactly when it has that size and at most INT_MAX |
| TagValues.UnmarshalTimeval | deps/3rd/libevent/event_tagging.c:583-609 | the answer and what is left in every case, frozen or not |
| TagValues.TimevalRoundTrip | deps/3rd/libevent/event_tagging.c:310-609 | a time value comes back exactly when both fields are in [0, 2^32) |
| TagValues.TimeOfFrame | deps/3rd/libevent/event_tagging.c:583-609 | any two integers at the beginning of a payload make a time value, if they do not go on behind it |
| TokenBucket.CfgNew | deps/3rd/libevent/bufferevent_ratelim.c:142-173 | a configuration is made exactly for 1 <= rate <= burst <= EV_RATE_LIMIT_MAX in both directions |
| TokenBucket.Bucket.Init | deps/3rd/libevent/bufferevent_ratelim.c:49-71 | the first set-up, and the clipping of a new configuration |
| TokenBucket.Bucket.Update | deps/3rd/libevent/bufferevent_ratelim.c:73-111 | both limits after the ticks passed, with 64-bit words, and whether any were |
| TokenBucket.RefillIsExact | deps/3rd/libevent/bufferevent_ratelim.c:87-105 | the refill is min(maximum, limit + ticks * rate) exactly when the limit is not above the maximum, or so much is due that it does not matter |
| TokenBucket.OverfullGrows | deps/3rd/libevent/bufferevent_ratelim.c:87-105 | a limit of twice its maximum grows further |
| TokenBucket.CreditGrows | deps/3rd/libevent/bufferevent_ratelim.c:78-85 | one more tick credits at most one more, also where the count wraps around |
| TokenBucket.CreditIsElapsed | deps/3rd/libevent/bufferevent_ratelim.c:78-85 | the credit is the time that has passed up to 2^31 - 1 ticks, wherever the count wraps around, and none beyond |
| TokenBucket.UpdateIsExact | deps/3rd/libevent/bufferevent_ratelim.c:73-111 | an update credits the ticks passed to both directions up to their maxima, and leaves none to credit; without any it changes nothing |
| RateLimit.WakeupNeverLost | deps/3rd/libevent/bufferevent_ratelim.c:272-439 | whatever charges, decrements, firings, reconfigurations and other suspensions happen: an exhausted direction is suspended, and a suspended one has the timer pending |
| RateLimit.StepKeepsWakeup | deps/3rd/libevent/bufferevent_ratelim.c:559-635 | each single event keeps that |
| RateLimit.FiringWakes | deps/3rd/libevent/bufferevent_ratelim.c:391-439 | the timer refills and wakes up just the directions that have something again, and is pending again just for the others |
| RateLimit.ChargeTells | deps/3rd/libevent/bufferevent_ratelim.c:272-293 | a charge takes the bytes from the one direction and suspends it just while it has nothing left; the timer stops with the last suspension |
| RateLimit.DecrementTells | deps/3rd/libevent/bufferevent_ratelim.c:968-1022 | a direct decrement does the same, but leaves a direction suspended that had something left already |
| RateLimit.ConfigureTells | deps/3rd/libevent/bufferevent_ratelim.c:559-635 | a new configuration starts with a tick's worth, or the old limits clipped, suspends just the directions with nothing, and starts the timer for them |
| RateLimit.SpendingIsBounded | deps/3rd/libevent/bufferevent_ratelim.c:197-293 | in any span of T ticks at most maximum + T * rate bytes are transferred, and no limit becomes negative |
| RateGroup.GroupSpendingIsBounded | deps/3rd/libevent/bufferevent_ratelim.c:228-305 | a group with a minimal share of at least one stays sound, and its members together stay below maximum + (T + what was not credited at the start) * rate + the minimal share |
| RateGroup.TransferSound | deps/3rd/libevent/bufferevent_ratelim.c:228-305 | transfers within the shares never bring the limit down to minus the minimal share, and suspend the group when it has nothing left |
| RateGroup.ShareIsFair | deps/3rd/libevent/bufferevent_ratelim.c:245-250 | in a sound group that is not suspended the share is an equal part of the limit, rounded down, or the minimal share where that is more |
| RateGroup.OneFairShare | deps/3rd/libevent/bufferevent_ratelim.c:245-250 | there is just one such share |
| RateGroup.GroupChargeTells | deps/3rd/libevent/bufferevent_ratelim.c:295-305 | a charge takes the bytes from the one direction and suspends it just while it has nothing left; a direct decrement but for a group that is suspended with something left |
| RateGroup.RefillTells | deps/3rd/libevent/bufferevent_ratelim.c:528-557 | the group's timer credits the ticks passed up to the maximum, and resumes just the directions that then have a minimal share |
| RateGroup.ResumedInTwoTicks | deps/3rd/libevent/bufferevent_ratelim.c:528-557 | a suspended group grants nothing and resumes within two refill ticks |
| RateGroup.RefillNeedsMinShare | deps/3rd/libevent/bufferevent_ratelim.c:528-557 | a refill resumes a group with nothing to spend exactly when it has no minimal share and the ticks that are due just make up for its debt |
| RateGroup.ResumedOnNothing | deps/3rd/libevent/bufferevent_ratelim.c:528-557 | such a group, one decrement after it was made |
| RateGroup.NeverRunsOnNothing | deps/3rd/libevent/bufferevent_ratelim.c:671-721 | direct decrements and new configurations leave no direction running on nothing; a new configuration clips both limits, and the configured share to the rates |
| RateObjects.Bufferevent.ChargeOwn | deps/3rd/libevent/bufferevent_ratelim.c:272-293 | limit, suspension and timer after a charge |
| RateObjects.Bufferevent.DecrementLimit | deps/3rd/libevent/bufferevent_ratelim.c:968-1022 | limit, suspension and timer after a direct decrement |
| RateObjects.Bufferevent.UpdateBuckets | deps/3rd/libevent/bufferevent_ratelim.c:113-124 | only the limits change, as an update says |
| RateObjects.Bufferevent.FireRefill | deps/3rd/libevent/bufferevent_ratelim.c:391-439 | limits, suspensions and timer after the refill timer fired |
| RateObjects.Bufferevent.SetRateLimit | deps/3rd/libevent/bufferevent_ratelim.c:559-635 | limits, suspensions and timer under a new configuration, or none |
| RateObjects.Bufferevent.GetRlimMax | deps/3rd/libevent/bufferevent_ratelim.c:197-258 | the least of the own limit and the share of the group, never negative; only the bucket is updated |
| RateObjects.AllowedIsLegal | deps/3rd/libevent/bufferevent_ratelim.c:197-258 | a transfer of what is allowed is one that the bandwidth of the connection and of a sound group are bounded for; a suspended group allows none |
| RateObjects.AllowedIsLeast | deps/3rd/libevent/bufferevent_ratelim.c:197-258 | what is allowed is the least of the own limit and the fair share, where there are such, and something as long as both are |
| RateObjects.ShareOfTwo | deps/3rd/libevent/bufferevent_ratelim.c:197-258 | in a new group with a thousand bytes a tick each of two members is allowed five hundred |
| RateObjects.DecrementBuckets | deps/3rd/libevent/bufferevent_ratelim.c:272-346 | the connection and its group are both charged; all members are suspended or resumed with the group and else unchanged |
| RateObjects.RateLimitGroup.constructor | deps/3rd/libevent/bufferevent_ratelim.c:637-669 | a new group has no members, one tick's worth, and a minimal share of 64 or a rate |
| RateObjects.RateLimitGroup.SetMinShare | deps/3rd/libevent/bufferevent_ratelim.c:702-721 | the share configured is capped by both rates |
| RateObjects.RateLimitGroup.SetCfg | deps/3rd/libevent/bufferevent_ratelim.c:671-700 | limits and minimal share under a new configuration |
| RateObjects.RateLimitGroup.SuspendAll | deps/3rd/libevent/bufferevent_ratelim.c:348-389 | the group and every member are suspended for it, and nothing else changes |
| RateObjects.RateLimitGroup.UnsuspendAll | deps/3rd/libevent/bufferevent_ratelim.c:487-523 | the group and every member are resumed, from whichever member it starts |
| RateObjects.RateLimitGroup.Refill | deps/3rd/libevent/bufferevent_ratelim.c:528-557 | limits and suspensions after the group's timer |
| RateObjects.RateLimitGroup.Decrement | deps/3rd/libevent/bufferevent_ratelim.c:1024-1062 | limits and suspensions after a direct decrement |
| RateObjects.AddToGroup | deps/3rd/libevent/bufferevent_ratelim.c:734-778 | the connection leaves its old group, is the first member of the new one, and is suspended just as that is |
| RateObjects.RemoveFromGroup | deps/3rd/libevent/bufferevent_ratelim.c:780-807 | the connection is in no group and not suspended for one; the other members keep their order |
| PairChannel.BytesArriveInOrder | deps/3rd/libevent/bufferevent_pair.c:152-250 | at any time the bytes taken, the reader's input and the writer's output are the bytes written, in order |
| PairChannel.NeverStalls | deps/3rd/libevent/bufferevent_pair.c:194-250 | nothing waits while both sides are on and neither is suspended, and the watermark suspension is in force exactly at or above the high watermark, after any run |
| PairChannel.TransferFills | deps/3rd/libevent/bufferevent_pair.c:152-192 | a transfer moves bytes in order just until the input is at its high watermark or the output is empty; above the watermark only a flush gets through, with everything |
| PairChannel.StepMoves | deps/3rd/libevent/bufferevent_pair.c:152-250 | every step but a flush moves nothing, or fills the reader up; and that only while both sides are on and no reason but one it lifts itself suspends the reader |
| PairChannel.StepSwitches | deps/3rd/libevent/bufferevent.c:67-638 | both switches, the watermark and all suspensions but that of the watermark are what the last operation for them made them |
| PairChannel.StepRespectsWatermark | deps/3rd/libevent/bufferevent_pair.c:160-175 | no step takes the input over its high watermark, or further over it, but a flush at or above it |
| PairChannel.InputStaysBounded | deps/3rd/libevent/bufferevent_pair.c:160-175 | over any run without a flush the input stays within any bound that the watermarks stay within |
| PairChannel.OffMeansStill | deps/3rd/libevent/bufferevent_pair.c:194-202 | while the reader stays off, or the writer, nothing goes over in any run without a flush |
| PairChannel.StallsExactlyWhen | deps/3rd/libevent/bufferevent.c:481-503 | the one operation that leaves output waiting for a reader that is on and not suspended |
| PairChannel.SuspendedWriterStalls | deps/3rd/libevent/bufferevent.c:481-503 | a run of five operations from a new pair that ends in such a stall |
| PairEnds.PairNew | deps/3rd/libevent/bufferevent_pair.c:114-150 | two linked ends with new channels both ways |
| PairEnds.PairEnd.Transfer | deps/3rd/libevent/bufferevent_pair.c:152-192 | with all callbacks it runs, a transfer moves what there is room for, once, and both buffers are frozen again |
| PairEnds.PairEnd.PairEnable | deps/3rd/libevent/bufferevent_pair.c:224-250 | enabling a direction settles it |
| PairEnds.PairEnd.OutputChanged | deps/3rd/libevent/bufferevent_pair.c:204-222 | more output settles the direction, less does nothing |
| PairEnds.PairEnd.WatermarkChanged | deps/3rd/libevent/bufferevent.c:133-149 | a changed input suspends at the high watermark and else resumes and settles |
| PairEnds.PairEnd.UnsuspendRead | deps/3rd/libevent/bufferevent.c:77-86 | taking a reason away settles the direction if none is left |
| PairEnds.PairEnd.WriteData | deps/3rd/libevent/bufferevent.c:451-458 | one step of the channel, and the other channel is unchanged |
| PairEnds.PairEnd.ReadData | deps/3rd/libevent/bufferevent.c:469-473 | one step of the channel; what it takes is the beginning of the input, as much as asked for and there is |
| PairEnds.PairEnd.Enable | deps/3rd/libevent/bufferevent.c:481-503 | one step of each channel that is enabled |
| PairEnds.PairEnd.Disable | deps/3rd/libevent/bufferevent.c:572-587 | one step of each channel that is disabled |
| PairEnds.PairEnd.SetWatermark | deps/3rd/libevent/bufferevent.c:593-638 | one step of the incoming channel |
| PairEnds.PairEnd.UnsuspendWriting | deps/3rd/libevent/bufferevent.c:99-108 | one step of the outgoing channel |
| PairEnds.PairEnd.FlushPair | deps/3rd/libevent/bufferevent_pair.c:304-334 | one step of each channel that is flushed, but none in normal mode; a finished flush tells the partner which of its directions ended; without a partner it fails |
| PairEnds.FillsToWatermark | deps/3rd/libevent/bufferevent_pair.c:160-166 | a new pair whose reader has a high watermark of four takes in four of ten bytes, and then of two more none |
| Arc4Random.StepIsReversible | deps/3rd/libevent/arc4random.c:415-427 | a step keeps the state a permutation, and the state before can be told from the state after |
| Arc4Random.MixingKeeps | deps/3rd/libevent/arc4random.c:110-125 | any number of mixing steps keeps the permutation; step number n mixes in the n-th byte of the data, over and over |
| Arc4Random.Arc4Stream.AddRandom | deps/3rd/libevent/arc4random.c:110-125 | 256 mixing steps from the index before; the state stays a permutation and both indices are equal |
| Arc4Random.Arc4Stream.GetByte | deps/3rd/libevent/arc4random.c:415-427 | both indices and the swap of one step, and the byte at the sum of the two swapped ones |
| Arc4Random.ThresholdIs | deps/3rd/libevent/arc4random.c:519-530 | both branches, in 32-bit arithmetic, compute 2^32 modulo the bound |
| Arc4Random.UniformIsUnbiased | deps/3rd/libevent/arc4random.c:500-545 | exactly floor(2^32 / bound) accepted words are reduced to each number below the bound |
| Arc4Random.Uniform | deps/3rd/libevent/arc4random.c:511-545 | the first word that is not rejected is reduced, and all before it were rejected |
| ParetoFront.KeptIsFrontier | ann-benchmarks/ann_benchmarks/plotting/utils.py:16-38 | in a sorted list the kept points are a Pareto frontier of the eligible ones |
| ParetoFront.SortIsStable | ann-benchmarks/ann_benchmarks/plotting/utils.py:16-38 | points with the same values stay in the order they were in |
| ParetoFront.EligibleIs | ann-benchmarks/ann_benchmarks/plotting/utils.py:16-38 | just the points with two nonzero values are looked at, each as often as it is there |
| ParetoFront.HigherAndLower | ann-benchmarks/ann_benchmarks/plotting/utils.py:16-24 | where higher values are better, and where lower ones are, the better of two points is kept |
| ParetoFront.CreatePointset | ann-benchmarks/ann_benchmarks/plotting/utils.py:16-38 | the data is sorted in place, stably; no kept point is dominated, every dropped one with two nonzero values is weakly dominated by a kept one, kept points are strictly monotone, and the columns are theirs |

## Left out

- evbuffer chains that are pinned, immutable, references, multicast or file segments; sendfile, readv and writev; they depend on the kernel or share memory between buffers.
- Failing allocation other than of requests over the maximum.
- Sizes are unbounded integers. Where two sums of sizes could wrap around, the members ask for contents of at most SIZE_MAX bytes together; memory cannot hold more. EvbufferRuns.Run prepends no more at a time than one chain can hold.
- Change callbacks of evbuffers are a log of what they are told; that they may call back into the buffer is modelled for pairs only. Callbacks, locks and reference counts of deferred runs are not modelled.
- EvbufferSplit.RemoveBuffer: total_len of the source is up to date at the callbacks in the middle of a partial copy, where the code updates it just after; nothing in the model can see the difference.
- EvbufferPullup.Pullup: the bytes of the chains that are gathered are copied from the list as it was, where the code copies and frees one chain after another.
- EvbufferCommit.ReserveSpace: with one vector it is only stated that the region is the free space of a chain at or behind the last with data; committing it need not succeed when that chain is neither the first with space nor the last.
- evbuffer_peek, evbuffer_add_printf and reading from and writing to descriptors; they add only easy members or the kernel.
- dnsname_to_labels on names with zero bytes, which C strings do not have; header fields, truncation to 512 bytes and the patched length fields of responses are plain data between names.
- Sockets, timers, parsing of resolv.conf and hosts files, getaddrinfo, freeing the resolver, and search lists. Whether a packet can be sent is an arbitrary choice in DnsSending.Transmit.
- DnsPump.PromoteFirst: transaction_id_pick tries ids until one is not in flight; the model takes any id but 0xffff.
- What callbacks of callers do, and search lists, with handles whose request changes. Callers cancel no probes, and no handle whose callback ran.
- DnsSuspend.SuspendAll: when the queue is first pumped at the turn of the first server, and more than one probe is cancelled, whether a freed server is used is not decided, as it depends on where the promoted requests were sent; it is stated what holds if none is.
- DnsRequests.RequestFinished: a handle without a callback scheduled is freed with its request, so it is asked that no server holds it as its probe; all modelled callers schedule one first.
- DnsRuns.Run: timers are not modelled, so a server may be probed, or a request time out, at any time.
- DnsServers.Pick: the ring of nameservers is a sequence from its head on, where the code relinks pointers.
- That requests in flight never exceed the maximum: probes and search lists exceed it on purpose.
- TagStream.DecodeTag: whether the byte behind the five pulled up is still in the memory of the first chain; it is not used.
- Reading tagged data from a buffer with more than SSIZE_MAX bytes.
- The length of ticks and the clock; ticks are numbers below 2^32. Time that rolls back is ignored by an update, and a span of ticks in the bounds runs forward.
- RateLimit.WakeupNeverLost: charges may be negative, but not beyond the maximum, and limits stay within 64 bits; event_add succeeds.
- RateObjects.RateLimitGroup.Refill: all members' locks are free, so no unsuspension is left pending. The random first member is a parameter.
- RateObjects.Bufferevent: read and write, which the source copies, are one method with a flag; a connection without rate limiting is one without configuration and group.
- PairEnds: unlinked pairs, timeouts, user callbacks and low watermarks; input and output are byte sequences, as the evbuffer part proves them to be.
- Seeding arc4random, and the stirring; the words that arc4random_uniform draws are a parameter, as drawing could go on forever.
- create_pointset on values that are not finite numbers; the sort is a stable insertion sort.
- The epoll and devpoll backends, OpenSSL, IOCP and filter bufferevents, the RPC generator, the memory tracer, the command-line tools and the rest of the benchmark suite.
