# Proofs about the core of this web server

This project models the parts of the repository that everything else stands on: the
server's own thread pool, and the event library libevent 2.0.21 that it ships. Each
module states what its component is for and proves that the code does it, on all inputs
and over all runs.

| files | component |
|---|---|
| `Bytes`, `Chunks`, `Evbuffer*` | the byte queue `evbuffer`: a linked list of chunks that behaves like one byte string |
| `Changelist` | which events are wanted on which descriptor, the log of changes, and epoll |
| `DnsNames` | domain names with the compression of section 4.1.4 of RFC 1035 |
| `DnsServers`, `DnsQueues` | the resolver's nameservers and request queues |
| `ByteQueue`, `Tagging`, `RpcGen` | the tagged wire format, and the schema compiler on top of it |
| `Timers` | timeouts: a heap, with lists of common timeouts in front of it |
| `RateLimit` | token buckets, and reading and writing that waits for them |
| `Pair` | two bufferevents connected to each other |
| `Arc4` | random numbers below a bound, without bias |
| `ThreadPool` | the thread pool, as the steps of its threads in any order |
| `Lists` | optional values and lists without repetitions |

`dafny verify dfyconfig.toml` checks everything.

## How it is modelled

The state of an evbuffer is a record of its fields with an explicit heap, a map from
addresses to chunks. A pointer to a freed chunk, or a chunk that nobody frees, can be
expressed there, and the proofs exclude both: the heap of a valid evbuffer holds exactly
the chunks of its list. The weak invariant (`Valid`) is the proper list with its cached
fields; the layout (`Layout`) is what `evbuffer-internal.h` documents: data chunks first,
then empty ones. The algorithms work on such records; the class `EvbufferRuns.Evbuffer`
is the object that they update. Addresses that the allocator gives out are arbitrary.
Where a call ends in a failing assertion of the C code, the outcome says so.

Bufferevents, event bases, resolver, cipher and nameserver ring are classes whose methods
change their fields. The thread pool is a state machine: a step is what a thread does
between taking and releasing the lock, and theorems are about every sequence of steps.
System calls, clocks, random draws and the results of `sendto` are arbitrary.

## Where the code is not what its documentation says

* `evbuffer_add`, `evbuffer_add_buffer`, `evbuffer_prepend_buffer`,
  `evbuffer_remove_buffer` and `evbuffer_commit_space` keep the documented layout only
  under conditions, which are stated exactly; `evbuffer_add` can trip its own assertion.
* Outside that layout, which reserving space and then adding leads to, assertions of
  `evbuffer_remove_buffer` and of the functions that reserve space can fail, and
  `evbuffer_commit_space` can put bytes before others; where is stated exactly.
* A single chunk that `evbuffer_reserve_space` handed out can be one that
  `evbuffer_commit_space` refuses.
* `name_parse` does not look whether a label ends inside the message before it copies it,
  and `dnsname_to_labels` does not look whether there is room for the final zero.
* A compression pointer to position 0x4000 or beyond leads elsewhere.
* `event_tagging.c` documents its integers and tags with the most significant part first;
  they are written, and read, the other way round.
* With a rate limit of its own a bufferevent is not held to 16384 bytes an operation. A
  bucket that a refund took above its maximum is not brought back by an update, and one
  near the largest number is emptied by it without suspending anything. A change to
  longer ticks can stall a bucket, and ticks of length zero are accepted although a
  division by the length follows.
* A new bufferevent has writing enabled, but its backend does not write until a call says
  so.
* Flushing a pair with the watermark ignored still stops at the watermark if the input
  was below it, and `be_pair_flush` returns in normal mode without unlocking.
* The resolver's pump needs a nameserver; after all were removed, finishing a waiting
  request makes it follow a null pointer.
* A second call of `threadpool_destroy` returns with the lock.

## Model

| member | source | states |
|---|---|---|
| `Chunks.ChainNew` | lib/libevent-2.0.21-stable/buffer.c:155-181 | a new chunk is empty, holds at least the asked size, and its allocation is the first power of two from 1024 on that fits |
| `Chunks.Chunk.Align` | lib/libevent-2.0.21-stable/buffer.c:1695-1701 | moving the data to the start of the memory keeps the data |
| `EvbufferCore.New` | lib/libevent-2.0.21-stable/buffer.c:340-353 | a new evbuffer is a valid empty list in the documented layout |
| `EvbufferCore.FindVictim` | lib/libevent-2.0.21-stable/buffer.c:265-277 | the walk from the last chunk with data stops at the first empty chunk, with the slot that leads to it |
| `EvbufferCore.FreeAllChains` | lib/libevent-2.0.21-stable/buffer.c:230-237 | frees exactly the chunks of the list from the given one on, none twice and none missed |
| `EvbufferCore.ChainInsert` | lib/libevent-2.0.21-stable/buffer.c:283-311 | appends the data of the new chunk in place of the empty tail; fails exactly if a chunk with data follows the first empty one; the last-with-data slot moves only if nothing was replaced |
| `EvbufferCore.Add` | lib/libevent-2.0.21-stable/buffer.c:1534-1617 | appends the bytes, in place, after realigning, or by splitting over a new chunk; trips its assertion exactly if a chunk has to be added while data follows an empty chunk; keeps the documented layout exactly under AddKeepsLayout |
| `EvbufferCore.AddTripsInLayout` | lib/libevent-2.0.21-stable/buffer.c:283-311 | a buffer in the documented layout for which evbuffer_add trips its assertion: two empty chunks at the end, and more data than the last one takes |
| `EvbufferCore.LayoutAfterWriteToLast` | lib/libevent-2.0.21-stable/buffer.c:1547-1568 | writing into the last chunk keeps the layout if and only if that is the last chunk with data or nothing is written |
| `EvbufferCore.FillAndInsert` | lib/libevent-2.0.21-stable/buffer.c:1576-1606 | when filling the last chunk and inserting another one trips the assertion, and when it keeps the layout |
| `EvbufferMove.Prepend` | lib/libevent-2.0.21-stable/buffer.c:1620-1691 | the bytes come in front of the content, before the data of the first chunk, in an empty first chunk, or in a new chunk, with the layout kept |
| `EvbufferMove.Drain` | lib/libevent-2.0.21-stable/buffer.c:951-1017 | drops exactly the first bytes (all of them if asked for more), frees the chunks that are used up, and keeps the layout |
| `EvbufferMove.CopyOut` | lib/libevent-2.0.21-stable/buffer.c:1035-1078 | copies exactly the first bytes of the content, across chunks, and changes nothing |
| `EvbufferMove.Remove` | lib/libevent-2.0.21-stable/buffer.c:1021-1032 | gives the first bytes and leaves the rest |
| `EvbufferTransfer.AddBuffer` | lib/libevent-2.0.21-stable/buffer.c:859-902 | the content of one evbuffer moves behind that of the other, or nothing changes; layout kept if and only if one of them had no data or the target has no empty tail |
| `EvbufferTransfer.PrependBuffer` | lib/libevent-2.0.21-stable/buffer.c:905-948 | the content of one evbuffer moves in front of that of the other; layout kept if and only if one of them had no data or the source has no empty tail |
| `EvbufferTransfer.LayoutAfterJoin` | lib/libevent-2.0.21-stable/buffer.c:827-838 | two joined chains with data are in the layout if and only if the first has no empty tail |
| `EvbufferTransfer.AdvanceLastWithData` | lib/libevent-2.0.21-stable/buffer.c:646-659 | the slot moves over the chunks with data that follow directly, and nothing else changes |
| `EvbufferTransfer.TakeChunks` | lib/libevent-2.0.21-stable/buffer.c:1117-1143 | walks over exactly the chunks that fit; the assertion in the loop fails exactly if the slot still leads to the first chunk and that fits; says when the slot has to be reset |
| `EvbufferTransfer.RemoveBuffer` | lib/libevent-2.0.21-stable/buffer.c:1084-1171 | for every two valid evbuffers: moves exactly the first n bytes, or all there are, in order, and says exactly when one of its assertions fails; in the documented layout that is only evbuffer_add at its end, and the layout is kept exactly as stated |
| `EvbufferTransfer.RemoveTripsInLayout` | lib/libevent-2.0.21-stable/buffer.c:1084-1171 | with both evbuffers in the documented layout only a read that stays inside the first chunk can trip, in evbuffer_add |
| `EvbufferTransfer.LoopAssertionFails` | lib/libevent-2.0.21-stable/buffer.c:1117-1121 | there is a source with a byte in each of two chunks and the slot at the first, for which the assertion of the loop fails |
| `EvbufferTransfer.AddBehindReserved` | lib/libevent-2.0.21-stable/buffer.c:1547-1568 | evbuffer_add leads to such a source, on a buffer in the documented layout |
| `EvbufferPullup.Pullup` | lib/libevent-2.0.21-stable/buffer.c:1174-1283 | for every valid evbuffer: fails exactly if there is less than asked for; otherwise the content stays, the first bytes are in one chunk, and the layout is kept if it was there |
| `EvbufferReserve.ExpandSingle` | lib/libevent-2.0.21-stable/buffer.c:1720-1826 | for every valid evbuffer: all the space in one chunk, by realigning, moving on, inserting or resizing, without changing the content, or the layout if it was there; says exactly when it trips an assertion, and when the chunk is neither the first with space nor the last |
| `EvbufferReserve.ExpandFast` | lib/libevent-2.0.21-stable/buffer.c:1831-1935 | for every valid evbuffer: at least datlen bytes of space in the first n writable chunks without changing the content, or the layout if it was there; says exactly when it trips an assertion |
| `EvbufferReserve.NoTripsInLayout` | lib/libevent-2.0.21-stable/buffer.c:1831-1935 | in the documented layout no assertion of evbuffer_expand fails |
| `EvbufferReserve.ReserveTripsHappens` | lib/libevent-2.0.21-stable/buffer.c:1720-1935 | there are buffers on which reserving several chunks, or one, trips an assertion |
| `EvbufferReserve.ReadSetupVecs` | lib/libevent-2.0.21-stable/buffer.c:2002-2035 | the vectors are the space of consecutive chunks in order, all of it except perhaps in the last, and no chunk more than needed; with exact they add up to the request |
| `EvbufferReserve.ReserveSpace` | lib/libevent-2.0.21-stable/buffer.c:613-643 | reserves at least the size in at most n vectors that are the whole space of consecutive chunks, from the first one with space on, except in one case that is stated exactly; refused without a change if the end is frozen or n is less than one |
| `EvbufferReserve.ReservesBehindHappens` | lib/libevent-2.0.21-stable/buffer.c:1774-1784 | the exceptional case in the documented layout |
| `EvbufferCommit.CommitSpace` | lib/libevent-2.0.21-stable/buffer.c:662-729 | for every valid evbuffer: either each chunk gets what was written into its vector, or it fails and changes nothing; it fails exactly if the end is frozen or a vector does not start at its chunk space or does not fit; every byte comes at the end, in order, if and only if no chunk behind one that gets bytes has data; layout kept if and only if no chunk stays empty before one that got data |
| `EvbufferCommit.WhereItComes` | lib/libevent-2.0.21-stable/buffer.c:708-718 | the position in the new content of what was written into a vector, and that it is the end if and only if no chunk behind has data |
| `EvbufferCommit.CommitInTheMiddle` | lib/libevent-2.0.21-stable/buffer.c:708-718 | there is a buffer and a vector that can be committed, with data behind it |
| `EvbufferCommit.AppendsInLayout` | lib/libevent-2.0.21-stable/buffer.c:662-729 | in the documented layout what is committed comes at the end |
| `EvbufferCommit.FillSpace` | lib/libevent-2.0.21-stable/buffer.c:613-729 | for every valid evbuffer, reserve space, fill it and commit what was filled: says exactly when an assertion fails, when it is refused, and appends if no data is behind the slot |
| `EvbufferCommit.AddThroughReserve` | lib/libevent-2.0.21-stable/buffer.c:613-729 | reserve space, fill it and commit what was filled: the data comes to the end of the content; refused exactly if a single chunk was asked for and the one handed out is behind one with space and before another |
| `EvbufferCommit.LayoutOfGrown` | lib/libevent-2.0.21-stable/buffer.c:710-718 | growing consecutive chunks keeps the layout if and only if no chunk left empty precedes one that grew |
| `EvbufferSearch.PtrSet` | lib/libevent-2.0.21-stable/buffer.c:2411-2450 | the position of byte number p, found exactly if there is such a byte |
| `EvbufferSearch.PtrAdd` | lib/libevent-2.0.21-stable/buffer.c:2411-2450 | advancing a position gives the position that counting from the start gives |
| `EvbufferSearch.PtrMemcmp` | lib/libevent-2.0.21-stable/buffer.c:2457-2488 | comparing chunk by chunk is memcmp on the content |
| `EvbufferSearch.SearchRange` | lib/libevent-2.0.21-stable/buffer.c:2497-2559 | the first match at or after start, wherever chunks divide it, if it ends by end; nowhere if and only if there is no match that does |
| `EvbufferRuns.Evbuffer.constructor` | lib/libevent-2.0.21-stable/buffer.c:340-353 | a new object with nothing in it and no chunk |
| `EvbufferRuns.Evbuffer.Add` | lib/libevent-2.0.21-stable/buffer.c:1534-1617 | in place: appends unless the end is frozen; says exactly when the assertion fails, which is never without an empty tail, and none appears then |
| `EvbufferRuns.Evbuffer.PrependBytes` | lib/libevent-2.0.21-stable/buffer.c:1620-1691 | the bytes come in front unless the start is frozen |
| `EvbufferRuns.Evbuffer.DrainBytes` | lib/libevent-2.0.21-stable/buffer.c:951-1017 | the first bytes go, unless the start is frozen and there are any |
| `EvbufferRuns.Evbuffer.RemoveBytes` | lib/libevent-2.0.21-stable/buffer.c:1021-1032 | the first bytes are given and go |
| `EvbufferRuns.Evbuffer.PullupBytes` | lib/libevent-2.0.21-stable/buffer.c:1174-1283 | the first bytes can be read from the first chunk afterwards, and nothing changes for a user |
| `EvbufferRuns.Evbuffer.SetFrozen` | lib/libevent-2.0.21-stable/buffer.c:2969-2990 | one end is frozen or not |
| `EvbufferRuns.Evbuffer.FillReserved` | lib/libevent-2.0.21-stable/buffer.c:613-729 | as EvbufferCommit.FillSpace, in place |
| `EvbufferRuns.Evbuffer.AddBuffer` | lib/libevent-2.0.21-stable/buffer.c:859-902 | as EvbufferTransfer.AddBuffer, in place; nothing happens to an evbuffer that is added to itself, frozen or not |
| `EvbufferRuns.Evbuffer.PrependBufferOf` | lib/libevent-2.0.21-stable/buffer.c:905-948 | as EvbufferTransfer.PrependBuffer, in place and with the same object on both sides |
| `EvbufferRuns.Evbuffer.RemoveBufferTo` | lib/libevent-2.0.21-stable/buffer.c:1084-1171 | as EvbufferTransfer.RemoveBuffer, in place and with the same object on both sides; no assertion fails if neither has an empty tail, and none appears then |
| `EvbufferRuns.ExecuteTwo` | lib/libevent-2.0.21-stable/buffer.c:859-1171 | an operation on two of any number of evbuffers does what it does to their byte strings, changes no other, and leaves each chunk with one owner; it stops exactly if it trips |
| `EvbufferRuns.Run` | lib/libevent-2.0.21-stable/buffer.c:859-1691 | every program on any number of evbuffers, also with reserved space and whatever addresses the allocator returns: every action up to the first that trips does what it is for, through states that are valid and share no chunk, and the program stops exactly there; without reserved space it never stops, and every evbuffer keeps its layout |
| `EvbufferRuns.BasicIsSteps` | lib/libevent-2.0.21-stable/buffer.c:859-1691 | a program without reserved space gives the replies and contents that byte strings give |
| `EvbufferRuns.Conserves` | lib/libevent-2.0.21-stable/buffer.c:859-1691 | over every program each byte value is held as often as it was, plus what went in, less what came out |
| `EvbufferRuns.Pipeline` | lib/libevent-2.0.21-stable/buffer.c:859-1171 | evbuffers in a line, with bytes appended to the first, handed on and taken from the last: what came out and what is inside is what went in, in order |
| `Changelist.EventBase.ApplyOneChange` | lib/libevent-2.0.21-stable/epoll.c:174-330 | whatever the kernel watched before, it watches exactly the target of the change afterwards; a change that changes nothing leaves the kernel alone |
| `Changelist.EventBase.ApplyChanges` | lib/libevent-2.0.21-stable/epoll.c:333-349 | every descriptor ends with the target of its one change, the others as they were |
| `Changelist.EventBase.GetOrConstruct` | lib/libevent-2.0.21-stable/evmap.c:616-644 | one change per descriptor, with idxplus1 and changes[] inverse to each other |
| `Changelist.EventBase.ChangelistAdd` | lib/libevent-2.0.21-stable/evmap.c:647-675 | an add replaces what was recorded for that direction |
| `Changelist.EventBase.ChangelistDel` | lib/libevent-2.0.21-stable/evmap.c:678-726 | a delete cancels an add of events that were not there, and is recorded otherwise |
| `Changelist.AfterLog` | lib/libevent-2.0.21-stable/evmap.c:616-726 | logging a right change keeps the back-indices, the correctness of all recorded changes, and their relation to the kernel |
| `Changelist.AfterImmediate` | lib/libevent-2.0.21-stable/epoll.c:352-383 | telling the kernel at once keeps it at what is wanted |
| `Changelist.EventBase.MakeSpace` | lib/libevent-2.0.21-stable/evmap.c:202-223 | room for the slot, old entries kept, new ones empty |
| `Changelist.EventBase.IoAdd` | lib/libevent-2.0.21-stable/evmap.c:263-331 | counts match the list of events; -1 and no change exactly if 65535 readers, or writers, are there and one more comes; otherwise 1 exactly if the event is the first that reads, or writes; the recorded changes and the kernel stay right |
| `Changelist.EventBase.IoDel` | lib/libevent-2.0.21-stable/evmap.c:336-387 | the event leaves its list; counts, recorded changes and kernel stay right; unknown descriptors are refused |
| `Changelist.EventBase.RemoveAll` | lib/libevent-2.0.21-stable/evmap.c:560-578 | no entry refers to a change any more, and the events stay |
| `Changelist.EventBase.Dispatch` | lib/libevent-2.0.21-stable/epoll.c:386-412 | afterwards the kernel watches for every descriptor exactly what its events ask for, for those with a real change even if it had dropped them |
| `Changelist.RunBoth` | lib/libevent-2.0.21-stable/evmap.c:263-387 | for every program: with and without the changelist the kernel ends up watching the same, {READ iff a reader, WRITE iff a writer}; for programs of at most 65535 steps against lists that never refuse |
| `Changelist.RoomForAll` | lib/libevent-2.0.21-stable/evmap.c:302-306 | a program of at most 65535 steps never has an event refused |
| `Changelist.NobodyCounts` | lib/libevent-2.0.21-stable/evmap.c:283-301 | a count is zero exactly if no event on the list reads (writes) |
| `DnsNames.TextOfLabels` | lib/libevent-2.0.21-stable/evdns.c:1566-1577 | the labels of a name join to the name if and only if no label is empty |
| `DnsNames.NameParse` | lib/libevent-2.0.21-stable/evdns.c:936-989 | ends on every message; succeeds exactly if the position reads as a name and the text fits; writes the text and a NUL inside the output; reads behind the message exactly if it meets a label that goes beyond the end while the text has room for it |
| `DnsNames.ReadsBeyond` | lib/libevent-2.0.21-stable/evdns.c:971-977 | a one-byte message for which the copy reads behind the message |
| `DnsNames.ParseMore` | lib/libevent-2.0.21-stable/evdns.c:936-989 | a name stays what it is when the message grows |
| `DnsNames.DnslabelTable.GetPos` | lib/libevent-2.0.21-stable/evdns.c:1538-1546 | the position of the first entry for the name, or -1 |
| `DnsNames.DnslabelTable.Add` | lib/libevent-2.0.21-stable/evdns.c:1550-1564 | remembers the name unless the table is full |
| `DnsNames.PointerReach` | lib/libevent-2.0.21-stable/evdns.c:1603-1607 | a compression pointer leads to its position if and only if that is below 0x4000 |
| `DnsNames.DnsnameToLabels` | lib/libevent-2.0.21-stable/evdns.c:1578-1641 | what was written reads as the name, and every table entry as its own string; the table gets an entry for every label written, up to its size; says exactly when a name goes in, with and without a known suffix, where it ends, and when the final zero lands behind the buffer |
| `DnsNames.OverrunHappens` | lib/libevent-2.0.21-stable/evdns.c:1634-1637 | a name of one byte in a buffer of two |
| `DnsNames.ReadBack` | lib/libevent-2.0.21-stable/evdns.c:936-989 | a written name is read back from the finished message, with the index behind it |
| `DnsNames.WriteAll` | lib/libevent-2.0.21-stable/evdns.c:1578-1641 | any names, with other data between them, written through one table: all of them read back if none starts behind what pointers can reach; each takes the bytes before the longest suffix that it shares with an earlier one, and two, while the names have at most 128 labels; names of at most 255 bytes without a long label go in whenever there is room for them without compression |
| `DnsNames.KnowsMore` | lib/libevent-2.0.21-stable/evdns.c:1550-1564 | after a name the table knows all suffixes of the names so far and nothing else, while there is room |
| `DnsNames.RepeatedName` | lib/libevent-2.0.21-stable/evdns.c:1603-1607 | a name that was written before, or a suffix of it, takes two bytes |
| `DnsNames.SharedSuffix` | lib/libevent-2.0.21-stable/evdns.c:1603-1607 | a name that shares a suffix takes what is before that and two bytes, exactly that if it shares no longer one |
| `DnsNames.RoundTrip` | lib/libevent-2.0.21-stable/evdns.c:936-1641 | well-formed names written with compression: name_parse succeeds on each where it starts, gives the name and the index of the data behind it, also with more bytes behind the message |
| `DnsServers.GoodRotate` | lib/libevent-2.0.21-stable/evdns.c:1313-1345 | passing a server that is not good keeps the order of the good ones; passing a good one makes it the last |
| `DnsServers.NameserverRing.Pick` | lib/libevent-2.0.21-stable/evdns.c:1313-1345 | ends on every ring, finds a good server whenever there is one (its assertion holds), takes the next good one, and keeps the ring |
| `DnsServers.PickMany` | lib/libevent-2.0.21-stable/evdns.c:1313-1345 | as many picks as there are good servers give each of them exactly once |
| `DnsServers.NameserverRing.MarkFailed` | lib/libevent-2.0.21-stable/evdns.c:557-584 | the count of good servers stays exact |
| `DnsServers.NameserverRing.Up` | lib/libevent-2.0.21-stable/evdns.c:617-635 | the count of good servers stays exact |
| `DnsServers.NameserverRing.Add` | lib/libevent-2.0.21-stable/evdns.c:2508-2525 | the new server goes behind the head, and the count of good servers stays exact |
| `DnsQueues.FoundInBucket` | lib/libevent-2.0.21-stable/evdns.c:479-493 | looking in one bucket finds every inflight request with the id |
| `DnsQueues.EvdnsBase.FindFromTransId` | lib/libevent-2.0.21-stable/evdns.c:479-493 | finds a request exactly if one inflight has the id |
| `DnsQueues.SomeIdFree` | lib/libevent-2.0.21-stable/evdns.c:1296-1307 | with fewer than 65535 requests inflight there is a free transaction id |
| `DnsQueues.EvdnsBase.TransactionIdPick` | lib/libevent-2.0.21-stable/evdns.c:1296-1307 | whatever draws are thrown away before, the id is not 0xffff and no inflight request has it |
| `DnsQueues.EvdnsBase.NameserverFailed` | lib/libevent-2.0.21-stable/evdns.c:557-614 | if a good server is left, every request that was not sent yet to the failed one gets another, and nothing else of any request changes; queues stay consistent |
| `DnsQueues.EvdnsBase.Transmit` | lib/libevent-2.0.21-stable/evdns.c:2182-2250 | a request that cannot be sent now stays to be sent, and its server is choked; one that was sent, or failed, is counted and not to be sent; only after a failure do others change, and only their server; the queues stay consistent |
| `DnsQueues.EvdnsBase.Pump` | lib/libevent-2.0.21-stable/evdns.c:731-751 | promotes from the front of the waiting queue, and stops only when the maximum is inflight or nothing waits; without any nameserver it cannot promote, which is where the C code follows a null pointer |
| `DnsQueues.NothingToPumpWith` | lib/libevent-2.0.21-stable/evdns.c:731-751 | a resolver that comes to the state in which the pump has no nameserver |
| `DnsQueues.EvdnsBase.Submit` | lib/libevent-2.0.21-stable/evdns.c:2682-2773 | the new request is inflight exactly if there is room and a nameserver, and else last in the waiting queue |
| `DnsQueues.EvdnsBase.Finished` | lib/libevent-2.0.21-stable/evdns.c:648-697 | the request is gone from its list, and the pump has run from the front of the waiting queue without it |
| `DnsQueues.EvdnsBase.Reissue` | lib/libevent-2.0.21-stable/evdns.c:706-726 | another server and a fresh start, or nothing changed exactly if the next pick is the same server |
| `DnsQueues.EvdnsBase.ClearAndSuspend` | lib/libevent-2.0.21-stable/evdns.c:2360-2422 | everything waits, what was inflight before what waited and as if it were new; without nameservers nothing changes |
| `DnsQueues.EvdnsBase.SetMaxInflight` | lib/libevent-2.0.21-stable/evdns.c:3315-3343 | all inflight requests are in the bucket of their id in the new table, and nothing else changes |
| `Tagging.IntRoundTrip` | lib/libevent-2.0.21-stable/event_tagging.c:115-137 | every 32-bit (64-bit) integer is read back from its code, whatever follows, and the code has at most five (nine) bytes |
| `Tagging.EncodeIntInternal` | lib/libevent-2.0.21-stable/event_tagging.c:115-137 | the bytes are the code: the number of digits less one, then the digits from the least significant on |
| `Tagging.DecodeIntInternal` | lib/libevent-2.0.21-stable/event_tagging.c:304-333 | reads the integer at the offset exactly if it is all there and not too wide |
| `Tagging.TagRoundTrip` | lib/libevent-2.0.21-stable/event_tagging.c:172-231 | every 32-bit tag is read back from its code, whatever follows, and the code has at most five bytes |
| `Tagging.EncodeTag` | lib/libevent-2.0.21-stable/event_tagging.c:172-192 | appends the code of the tag |
| `Tagging.DecodeTagInternal` | lib/libevent-2.0.21-stable/event_tagging.c:195-231 | reads the tag exactly if it ends within five bytes, and drains it if asked to; a longer one is where the C code reads what it did not pull up |
| `Tagging.RecordRoundTrip` | lib/libevent-2.0.21-stable/event_tagging.c:246-252 | the header of a record is read back inside any stream and leaves the payload and what follows |
| `Tagging.PeekIsConsumed` | lib/libevent-2.0.21-stable/event_tagging.c:387-447 | the peeked length is what is consumed, and consuming succeeds exactly if that much is there |
| `Tagging.Marshal` | lib/libevent-2.0.21-stable/event_tagging.c:246-252 | appends one record |
| `Tagging.MarshalBuffer` | lib/libevent-2.0.21-stable/event_tagging.c:255-262 | appends the content of the other buffer as one record and empties it |
| `Tagging.MarshalInt` | lib/libevent-2.0.21-stable/event_tagging.c:266-285 | appends the integer as one record |
| `Tagging.PeekLength` | lib/libevent-2.0.21-stable/event_tagging.c:387-402 | the length of the whole record, as a 32-bit number |
| `Tagging.PayloadLength` | lib/libevent-2.0.21-stable/event_tagging.c:405-418 | the announced length of the payload, also while the payload is incomplete |
| `Tagging.UnmarshalHeader` | lib/libevent-2.0.21-stable/event_tagging.c:423-436 | succeeds exactly on a record whose payload is there, and leaves the payload and what follows; lengths from 2^31 on come out negative |
| `Tagging.Consume` | lib/libevent-2.0.21-stable/event_tagging.c:439-447 | drops exactly one record; one with a negative length drops everything |
| `Tagging.Unmarshal` | lib/libevent-2.0.21-stable/event_tagging.c:452-465 | moves exactly the payload of one record |
| `Tagging.UnmarshalInt` | lib/libevent-2.0.21-stable/event_tagging.c:470-519 | reads the integer of a record with the needed tag |
| `Tagging.IntPayloadRoundTrip` | lib/libevent-2.0.21-stable/event_tagging.c:266-519 | a marshaled integer is unmarshaled inside any stream |
| `Tagging.UnmarshalFixed` | lib/libevent-2.0.21-stable/event_tagging.c:524-540 | the payload of a record with the needed tag and length |
| `Tagging.UnmarshalString` | lib/libevent-2.0.21-stable/event_tagging.c:543-562 | the payload of a record with the needed tag |
| `Tagging.MarshalTimeval` | lib/libevent-2.0.21-stable/event_tagging.c:296-302 | appends both parts, as 32-bit numbers, in one record |
| `Tagging.UnmarshalTimeval` | lib/libevent-2.0.21-stable/event_tagging.c:565-590 | reads both parts from one record |
| `Tagging.TimevalRoundTrip` | lib/libevent-2.0.21-stable/event_tagging.c:296-302 | a time is read back modulo 2^32 |
| `Tagging.SomeCodes` | lib/libevent-2.0.21-stable/event_tagging.c:115-192 | the bytes of a few integers, tags and a record |
| `RpcGen.Struct.ProcessEntry` | lib/libevent-2.0.21-stable/event_rpcgen.py:44-61 | an entry is accepted exactly if it is verified and its tag is new; accepted structs have distinct tags |
| `RpcGen.VerifiedKinds` | lib/libevent-2.0.21-stable/event_rpcgen.py:391-405 | every kind can be required or optional; exactly numbers, strings and structs can be arrays, which are not optional |
| `RpcGen.RoundTrip` | lib/libevent-2.0.21-stable/event_rpcgen.py:221-340 | for every accepted schema with nested structs, optional entries and arrays, and every complete message, unmarshal(marshal(m)) gives m |
| `RpcGen.AnyOrder` | lib/libevent-2.0.21-stable/event_rpcgen.py:243-279 | records of right values in any order are accepted if there is at most one for each entry that is no array and one for each required one, and each entry has its values in the order of the records |
| `RpcGen.OtherOrder` | lib/libevent-2.0.21-stable/event_rpcgen.py:243-279 | two required numbers written in the other order |
| `RpcGen.ValueRoundTrip` | lib/libevent-2.0.21-stable/event_rpcgen.py:559-906 | the code for each kind of entry reads back what it wrote, whatever follows |
| `RpcGen.Sound` | lib/libevent-2.0.21-stable/event_rpcgen.py:243-303 | what is accepted has the form of the struct, is complete, and has as many values of each entry as there are records for it |
| `RpcGen.NotAccepted` | lib/libevent-2.0.21-stable/event_rpcgen.py:255-303 | an unknown tag, a repeated tag of an entry that is no array, or a missing required one is never accepted |
| `RpcGen.MarshalStruct` | lib/libevent-2.0.21-stable/event_rpcgen.py:221-240 | the generated marshal writes the records of all entries in order |
| `RpcGen.UnmarshalValue` | lib/libevent-2.0.21-stable/event_rpcgen.py:559-1223 | the generated code for one entry does what the specification of reading says, also when it fails |
| `RpcGen.UnmarshalStruct` | lib/libevent-2.0.21-stable/event_rpcgen.py:243-279 | the generated unmarshal, loop and checks, does what the specification says on every input |
| `Timers.MarkRoundTrip` | lib/libevent-2.0.21-stable/event.c:1092-1119 | the mark, the list index and the microseconds in one 32-bit word do not disturb each other |
| `Timers.EventBase.InsertInOrder` | lib/libevent-2.0.21-stable/event.c:2543-2570 | the event goes behind the last one that is not later, and the others keep their order: the list stays sorted |
| `Timers.EventBase.RemoveTimeout` | lib/libevent-2.0.21-stable/event.c:2503-2539 | flag and queue change together, and no list loses its timer |
| `Timers.EventBase.Activate` | lib/libevent-2.0.21-stable/event.c:2289-2327 | exactly the active flag and the reason change, and an event that was not active goes to the end of the queue of its priority |
| `Timers.EventBase.Schedule` | lib/libevent-2.0.21-stable/event.c:1145-1151 | the timer of the list is in the heap at the deadline of its first event, whether it was active, pending or neither |
| `Timers.EventBase.AddCommon` | lib/libevent-2.0.21-stable/event.c:2081-2160 | a common timeout is queued in order, and its list stays armed |
| `Timers.EventBase.Add` | lib/libevent-2.0.21-stable/event.c:2027-2174 | the whole new event: its deadline in the right queue, no activation by an earlier one, and registered if asked to; -1 only if it was to be registered, and then nothing changes; no other event but the timer of its list changes |
| `Timers.EventBase.Del` | lib/libevent-2.0.21-stable/event.c:2197-2268 | the event has no flag and is in no queue, and no list loses its timer |
| `Timers.EventBase.TimeoutProcess` | lib/libevent-2.0.21-stable/event.c:2476-2499 | exactly the events that were due in the heap become active, all others stay as they were; every event that is still due is in a list whose timer is active or about to run |
| `Timers.EventBase.Take` | lib/libevent-2.0.21-stable/event.c:1312-1340 | an event leaves its active queue, and all its queues unless it is persistent; no other event changes, no deadline is lost, and the callback of a timer is about to run then |
| `Timers.EventBase.CommonCallback` | lib/libevent-2.0.21-stable/event.c:1157-1177 | exactly the due events of the list become active, none that is left is due, the timer has the deadline of the first of those, and all other events stay as they were |
| `Timers.EventBase.ProcessTimeouts` | lib/libevent-2.0.21-stable/event.c:2476-2499 | one round with the callbacks of the internal timers: a user event becomes active exactly if it was due, whether in the heap or in a list, and stays as it was if not |
| `Timers.EventBase.NewCommonList` | lib/libevent-2.0.21-stable/event.c:1220-1244 | a new list with its own timer |
| `Timers.EventBase.TimeoutCorrect` | lib/libevent-2.0.21-stable/event.c:2423-2472 | every pending deadline moves by the same amount, and heap, lists and timers stay right |
| `RateLimit.BucketLaw` | lib/libevent-2.0.21-stable/bufferevent_ratelim.c:73-110 | below the maximum the refill is min(maximum, limit + n * rate) and nothing overflows; above it the bucket grows further, until the number wraps around |
| `RateLimit.AboveMaximum` | lib/libevent-2.0.21-stable/bufferevent_ratelim.c:95-98 | a bucket above its maximum that grows further, and one that a refill empties |
| `RateLimit.EmptiedByRefill` | lib/libevent-2.0.21-stable/bufferevent_ratelim.c:95-98 | a refill empties a bucket exactly if it was above its maximum and the sum is over SSIZE_MAX and at most 2^64 |
| `RateLimit.UpdatesCompose` | lib/libevent-2.0.21-stable/bufferevent_ratelim.c:73-110 | two updates do what one does, across the wrap-around of the tick, while the whole time is at most INT_MAX ticks; also above the maximum while the sum is at most SSIZE_MAX |
| `RateLimit.DebtEnds` | lib/libevent-2.0.21-stable/bufferevent_ratelim.c:73-110 | a debt is paid exactly when the ticks are worth more than it |
| `RateLimit.StalledByLongerTicks` | lib/libevent-2.0.21-stable/bufferevent_ratelim.c:53-64 | with ticks of a second instead of a millisecond a bucket is not refilled for 31 years |
| `RateLimit.CreditAfterTickChange` | lib/libevent-2.0.21-stable/bufferevent_ratelim.c:124-139 | after a change of the tick length a bucket is credited again exactly when the new tick number has passed the old one |
| `RateLimit.CfgNew` | lib/libevent-2.0.21-stable/bufferevent_ratelim.c:142-172 | which configurations are accepted, and exactly which tick lengths give the zero that the tick computation divides by |
| `RateLimit.ZeroTicks` | lib/libevent-2.0.21-stable/bufferevent_ratelim.c:169-170 | three tick lengths that are accepted and give zero: below a millisecond, cut by the mask, and cut to 32 bits |
| `RateLimit.TokenBucket.Init` | lib/libevent-2.0.21-stable/bufferevent_ratelim.c:49-70 | a first use gives the rate, a later one only clips |
| `RateLimit.TokenBucket.Update` | lib/libevent-2.0.21-stable/bufferevent_ratelim.c:73-110 | both limits follow the law, below and above their maximum, together with the tick |
| `RateLimit.BandwidthBound` | lib/libevent-2.0.21-stable/bufferevent_ratelim.c:200-260 | over any run in which each charge is at most the allowed maximum, no more is charged than one maximum and the rate of every tick |
| `RateLimit.Bufferevent.Suspend` | lib/libevent-2.0.21-stable/bufferevent.c:66-76 | the reason is added, and from then on the backend reads (writes) exactly if that is enabled and not suspended |
| `RateLimit.Bufferevent.Unsuspend` | lib/libevent-2.0.21-stable/bufferevent.c:79-88 | the reason goes, and from then on the backend reads (writes) exactly if that is enabled and not suspended |
| `RateLimit.Bufferevent.Enable` | lib/libevent-2.0.21-stable/bufferevent.c:407-427 | from then on the backend reads (writes) exactly if that is enabled and not suspended |
| `RateLimit.Bufferevent.constructor` | lib/libevent-2.0.21-stable/bufferevent.c:300-306 | a new bufferevent has writing enabled without having told the backend |
| `RateLimit.Bufferevent.UpdateBuckets` | lib/libevent-2.0.21-stable/bufferevent_ratelim.c:112-122 | a bucket with something in it is emptied exactly if the number wraps around |
| `RateLimit.Bufferevent.GetMax` | lib/libevent-2.0.21-stable/bufferevent_ratelim.c:200-260 | exactly the limit after the update, or 16384 bytes without a limit of its own, cut to the share of the group; a suspended group gives nothing and suspends this side; a bucket becomes empty without suspending its side exactly if the number wraps around |
| `RateLimit.Bufferevent.Decrement` | lib/libevent-2.0.21-stable/bufferevent_ratelim.c:275-348 | for every charge and every refund the whole new side: bandwidth suspends it exactly if its bucket is empty then, and a refill is coming |
| `RateLimit.Bufferevent.DecrementLimit` | lib/libevent-2.0.21-stable/bufferevent_ratelim.c:901-954 | for every charge and every refill by the user the whole new side: suspended if the bucket goes to zero or below, released if it comes above, else as it was; a suspended side has a refill coming |
| `RateLimit.Bufferevent.RefillCallback` | lib/libevent-2.0.21-stable/bufferevent_ratelim.c:396-441 | a side stays suspended exactly if its bucket is still empty, and then another refill is coming; a bucket becomes empty without suspending its side exactly if the number wraps around |
| `RateLimit.Bufferevent.SetRateLimit` | lib/libevent-2.0.21-stable/bufferevent_ratelim.c:559-635 | after a change, also to an equal configuration in another object, a side is suspended exactly if there is a limit and its bucket is empty; the same object changes nothing |
| `RateLimit.Group.Suspend` | lib/libevent-2.0.21-stable/bufferevent_ratelim.c:352-373 | the group is suspended, and so is every member whose lock is free; no member is released |
| `RateLimit.Group.Unsuspend` | lib/libevent-2.0.21-stable/bufferevent_ratelim.c:487-503 | every member whose lock is free is released, and the group will try again exactly if there was another |
| `RateLimit.Group.Decrement` | lib/libevent-2.0.21-stable/bufferevent_ratelim.c:298-307 | the group is suspended exactly while its bucket is empty |
| `RateLimit.Group.Share` | lib/libevent-2.0.21-stable/bufferevent_ratelim.c:233-254 | a member of a suspended group finds out and gets nothing; otherwise exactly the truncated quotient, but at least the minimum share |
| `RateLimit.Group.RefillCallback` | lib/libevent-2.0.21-stable/bufferevent_ratelim.c:528-556 | members are released exactly if that was pending or a suspended group has the minimum share; otherwise nothing changes |
| `Pair.Transfer` | lib/libevent-2.0.21-stable/bufferevent_pair.c:150-204 | hands over all that the watermark allows; never takes the input above the watermark unless told to ignore it, and even then fills an input that is below only up to it |
| `Pair.HandOver` | lib/libevent-2.0.21-stable/bufferevent_pair.c:206-214 | nothing is left behind that the other side wants and may have |
| `Pair.Write` | lib/libevent-2.0.21-stable/bufferevent_pair.c:216-235 | what was written is in the stream, and handed over if the other side wants it and this side may write; otherwise nothing moves |
| `Pair.Read` | lib/libevent-2.0.21-stable/bufferevent.c:116-131 | gives the first bytes of the input, and more is handed over if the watermark held it back |
| `Pair.Enable` | lib/libevent-2.0.21-stable/bufferevent_pair.c:237-262 | what was waiting is handed over in both directions |
| `Pair.Flush` | lib/libevent-2.0.21-stable/bufferevent_pair.c:287-314 | leaves nothing behind exactly if there is no watermark, it is passed already, or everything fits below it; in normal mode it returns without releasing what it locked |
| `Pair.FlushWouldStop` | lib/libevent-2.0.21-stable/bufferevent_pair.c:150-204 | a pair that comes to a state in which a flush with the watermark ignored would leave something behind |
| `Pair.SetWatermark` | lib/libevent-2.0.21-stable/bufferevent.c:516-562 | reading is suspended for the watermark only while the input is that long, and nothing is left behind |
| `Pair.Run` | lib/libevent-2.0.21-stable/bufferevent_pair.c:150-314 | over every run of writes, reads, enabling, flushes and watermarks: read ++ input ++ output of the other side is what was written to the other side |
| `Arc4.Reversible` | lib/libevent-2.0.21-stable/arc4random.c:409-420 | every step of the cipher can be undone: different states never become equal |
| `Arc4.TurnIs` | lib/libevent-2.0.21-stable/arc4random.c:114-119 | one turn byte by byte: the index, the sum and the swap |
| `Arc4.MixedFacts` | lib/libevent-2.0.21-stable/arc4random.c:107-121 | mixing in data keeps the state a permutation and turns the index once around |
| `Arc4.EveryByteMatters` | lib/libevent-2.0.21-stable/arc4random.c:107-121 | data that differ in one byte lead to different states |
| `Arc4.Arc4Stream.constructor` | lib/libevent-2.0.21-stable/arc4random.c:95-104 | the initial state is a permutation |
| `Arc4.Arc4Stream.AddRandom` | lib/libevent-2.0.21-stable/arc4random.c:107-121 | the state after mixing in all the data, still a permutation |
| `Arc4.Arc4Stream.GetByte` | lib/libevent-2.0.21-stable/arc4random.c:409-420 | one reversible step that keeps the permutation |
| `Arc4.MinIsRemainder` | lib/libevent-2.0.21-stable/arc4random.c:511-523 | the 32-bit computation gives 2^32 modulo the bound, for every bound from 2 on, and less than half of the draws are thrown away |
| `Arc4.Unbiased` | lib/libevent-2.0.21-stable/arc4random.c:505-538 | every result below the bound has the same number of draws that lead to it |
| `Arc4.Uniform` | lib/libevent-2.0.21-stable/arc4random.c:505-538 | the first draw that is not below the minimum, modulo the bound |
| `ThreadPool.InitInv` | threadpool.c:25-72 | the new pool satisfies the invariant |
| `ThreadPool.TimesNext` | threadpool.c:87-261 | no step loses a task or runs it twice |
| `ThreadPool.WakeupNext` | threadpool.c:112-123 | no step loses a wakeup |
| `ThreadPool.InvNext` | threadpool.c:87-261 | every step of every thread keeps the invariant |
| `ThreadPool.Safety` | threadpool.c:87-261 | under every interleaving each accepted task is queued, running, done or thrown away exactly once; if a worker is blocked, as many workers are on their way as there are tasks; the count is the length of the queue |
| `ThreadPool.AfterShutdown` | threadpool.c:155-203 | a graceful shutdown that has ended has run every accepted task exactly once; an immediate one has run or thrown away each |
| `ThreadPool.ImmediateShutdown` | threadpool.c:155-261 | over every run with an immediate shutdown: what waited then stays where it is and is thrown away at the end, and only tasks that were running then become done |
| `ThreadPool.WorkerDoes` | threadpool.c:215-255 | in every reachable state a worker takes the latest task that waits, finishes or waits, exactly as the shutdown says |
| `ThreadPool.AddDoes` | threadpool.c:87-133 | a task is accepted exactly while the pool is open, in front of the others, and wakes a waiting worker |
| `ThreadPool.ShutdownProgress` | threadpool.c:186-192 | after the shutdown every step of a worker brings the end nearer and some worker can take one until all have finished, unless the lock was kept |
| `ThreadPool.SecondDestroyBlocks` | threadpool.c:167-172 | a second call returns with the lock: whatever follows, a worker that has not finished never does, and the first call never returns |
| `ThreadPool.SecondDestroyHappens` | threadpool.c:155-172 | a pool of one thread comes to a second call while its worker has not finished |

## Left out

- evbuffer in place: the algorithms work on the record of an evbuffer, with its chunks as values in a map, and not on chunk objects; sharing between objects is captured for whole evbuffers (EvbufferRuns), not for chunks
- EvbufferRuns.Run: for programs without search; and where filling reserved space puts bytes before data behind the slot, it only states how many there are (EvbufferCommit.WhereItComes states where they come)
- evbuffer flags and callbacks: immutable, pinned, reference, sendfile and mmap chunks, deferred callbacks, the counters of added and deleted bytes, and locks
- Chunks.ChainNew: for sizes that an allocation can have; within 48 bytes of 2^64 the C code wraps around, and above 2^63 its loop does not end
- EvbufferReserve.ExpandSingle: for the same sizes; one that wraps around in evbuffer_chain_new makes its last assertion fail
- EvbufferReserve.ReserveSpace: for sizes that are not negative; a negative one is taken as one near 2^64
- Allocation: succeeds everywhere; the branches for failing allocation are not modelled
- evbuffer_readln, evbuffer_find and reading from or writing to descriptors: uses of the operations that are modelled
- Changelist: edge-triggered flags, signals, errors of epoll_ctl other than EEXIST and ENOENT
- DnsNames.RoundTrip: for names that start within the first 0x4000 bytes, because pointers reach no further
- DnsQueues.EvdnsBase.TransactionIdPick: that a good draw comes, which only holds with probability one
- DnsQueues.EvdnsBase.ClearAndSuspend: with no probe of a nameserver under way
- Probes of nameservers, timeouts of requests, search domains, replies, hosts files and configuration of the resolver
- RpcGen: access functions of the generated structs, parsing of the schema text, marshaling of incomplete messages
- Tagging: payloads of 2^31 bytes and more are modelled only as far as the calls are defined
- Timers: threads other than the one that runs the loop, signals, counts of events, the order of the heap beyond its top
- RateLimit: the list of a group and its statistics; writing of a group, which repeats reading
- Pair: timeouts, the deferred user callbacks, and what happens after one side was freed
- Arc4: seeding, and reseeding after some output
- ThreadPool: failing pthread calls, threads that could not be created, and freeing the pool's own memory
- httpd.c, the CGI programs, MySQL and memcached wrappers, and the server's own epoll wrapper: sockets and libraries without visible code
- OpenSSL and filtering bufferevents, HTTP, RPC transport, and the backends for other systems
