# Verified model of the STOMP broker

This project models the core of stompbroker, a STOMP 1.2 broker over raw TCP and WebSocket, and proves what its
parts promise: the WebSocket byte stream and its buffer pool, the height-balanced header table, the frame parser and
printer, the queues and the writer threads around them, the broker's state machine, and the digests and the Base64 of
the handshake. `dafny verify dfyconfig.toml` checks all of it.

Where the original updates structures in place, so does the model: the tree items, the queue and list items, the slots
of the buffer pool, the words of the connected bitmap, the receive buffer that the parser cuts and restores, the SHA-1
and MD5 contexts. Each such method is proved against a function of the old state, and the promises are proved about that
function. Those functions are pinned down in turn by lemmas in plain terms, which do not name them: rotations bit by bit,
the write buffer octet by octet, replies by what a client reads, filters by which elements stay.
The writer threads are a transition system whose steps are what one thread does while it holds the lock.

## How the parts fit together

- Bytes to messages: `Frames`, `FrameCodec`, `WsBuffer`, `WsFilter`, `Splitting`, `Intake`, on `Bytes` and `Ntohl`.
- Frames and headers: `CString`, `AssocTree` (the tree as a value), `AssocArray` (the tree in place), `Parser`, `Messages`.
- Queues and threads: `Chain`, `Queue`, `GeneralList`, `ThreadSafeQueue`, `Batch`, `Writers`, `SessionFlags`, `Output`.
- The broker: `BitSets`, `Words`, `Division`, `Session`, `PubSub`, `Delivery`, `Diagnostics`, `Stale`, `RoundRobin`, `Distribution`,
  `Broker`, `Replies` (what clients see of a step).
- The digests and the handshake: `BlockHash`, `Sha1`, `Md5`, `SineTable`, `Base64`, `AcceptKey`.

## Conventions

- Text is `string` without NUL, compared as strcmp does; bytes are integers from 0 to 255. Words of 32 and 64 bits are
  integers below their limit, and the bitwise operators on them are defined bit by bit.
- The clock, the reads and writes of sockets, which waiting threads a signal wakes, and the sizes of what other threads
  keep (sessions, receive buffers, input and output queue), which diagnostic queries ask for, are parameters.
- The host is little-endian, as the conversions of the original assume.

## What the model shows that the documentation does not say

- A SEND without a body to a topic that somebody has subscribed to makes the broker follow a null pointer
  (`Broker.CrashesIff` is the exact condition, `Broker.CrashIsReachable` a run from the start); runs whose SENDs have
  bodies never do (`Broker.BodiesAreSafe`). What is promised of replies and deliveries is promised outside this case.
- Nothing ever waits. `pubsub.md` lines 48-51 promise that undeliverable messages go to the stale queue, but the
  insertion stands in a branch that is never taken (`Broker.NothingEverWaits`).
- A purge that has lost the encoded flag strands the subscriptions of an encoded client, so that messages are still sent
  to it (`Broker.PurgeWithoutFlagStrands`, a run from the start); `Broker.StepKeepsSafeIff` is the exact condition.
- The announced frame length is short by 2 and by 6 for encoded contents of 125 and 65535 bytes
  (`Output.AnnouncedLengthIsExactIff`), so that the write buffer can overflow by as much (`Output.ExceptionalOverflows`);
  without them it overflows exactly for a single oversized head (`Output.OverflowIff`).
- A frame with an empty payload is never taken off the buffer: the decode loop does not end exactly when one comes to the
  front with more than 16 bytes left (`FrameCodec.SpinsIff`, `FrameCodec.EmptyFrameSpins`). A frame whose length field is
  not minimal is not taken off as a whole (`FrameCodec.ConsumesFrameIffMinimal`).
- The search for the ':' of a last line without a line break leaves the text exactly if there is no ':' in it
  (`Parser.LeavesTextIff`); frames with a body are safe from this.
- The worker queues are fair across a wrap of the counter exactly when the number of subscribers divides 2 to the 32nd
  (`RoundRobin.FairIff`).
- Messages taken in the same batch as a pill are not written; `Output.PillDropsItsBatch` says for which queues this
  happens and which messages are lost.
- The connection mask has 14 bits, while 17 are announced (`SessionFlags.MaskCoversIff`).
- The stale rule and the live rule for wildcards differ, at exactly one topic (`PubSub.StaleRuleAgainstLiveRule`).
- Of repeated headers the last one is kept, and the special headers are recognised by prefix, so `identity` counts as `id`
  (`Parser.LatestIsLast`).
- Message ids are unsigned but printed as signed, so that from 2 to the 31st on they are negative (`Delivery.IdText`).
- A message to a topic that starts with DIAG gets additional headers when its body starts with a query
  (`Diagnostics.AnswerIsDelivered`).

## Model

| member | source | states |
|---|---|---|
| CString.Trichotomy | lib/associative_array.c:45-88 | strcmp, by which the tree is ordered, is a strict total order: exactly one of less, equal and greater holds |
| CString.LessIsFirstDifference | lib/associative_array.c:45-88 | one string comes before another exactly if it ends, or has the smaller character, where the two first differ |
| CString.LessTransitive | lib/associative_array.c:45-88 | the order by strcmp is transitive, so a subtree bounded by a key stays bounded |
| AssocTree.RebalanceMeaning | lib/associative_array.c:62-85 | each of the four rotation cases keeps the search order and the map of the subtree |
| AssocTree.RebalanceBalances | lib/associative_array.c:62-85 | each of the four rotation cases brings an insertion that tilted the subtree back into balance, with exact heights |
| AssocTree.PutCorrect | lib/associative_array.c:45-90 | inserting into any well-formed tree keeps strict order, exact heights and balance, denotes the old map with key:=value, reports a new key exactly if there was none, and grows the height by at most one and only for a new key |
| AssocTree.PutAllCorrect | lib/associative_array.c:11-17 | any run of insertions leaves a well-formed tree that denotes the same assignments made in order |
| AssocTree.MergeSteps | lib/associative_array.c:301-307 | merging is putting the root item, then merging the left and the right subtree |
| AssocTree.MergeIsUnion | lib/associative_array.c:301-307 | merging is right-biased union of the two maps and leaves a well-formed tree |
| AssocTree.LookupCorrect | lib/associative_array.c:217-247 | aa_get finds exactly what the map holds; aa_has gives the only depth at which the key occurs, 0 if there is none, and never more than the root height |
| AssocTree.SizeBound | lib/associative_array.c:24-36 | a tree of height h holds at least Fib(h+2)-1 keys |
| AssocTree.HeightOf1024 | lib/associative_array_test.c:180-194 | up to 1024 keys make a tree of at most 14 items in height, whatever the order of insertion |
| AssocTree.LookupIsLogarithmic | lib/associative_array.c:217-234 | after any insertions a key at depth 2k or deeper means at least 2^k - 1 keys, so lookups are logarithmic |
| AssocArray.Item.RotateRight | lib/associative_array.c:189-196 | rotating the linked items through the parent's pointer gives the rotated tree with the same items |
| AssocArray.Item.RotateLeft | lib/associative_array.c:198-205 | the mirrored rotation on the linked items |
| AssocArray.Item.RotateRightLeft | lib/associative_array.c:207-210 | the double rotation on the linked items |
| AssocArray.Item.RotateLeftRight | lib/associative_array.c:212-215 | the mirrored double rotation on the linked items |
| AssocArray.Item.SetOrPut | lib/associative_array.c:45-90 | the in-place insertion ends with the tree, and reports, what the insertion on values does; only the subtree's items and new ones change |
| AssocArray.AssociativeArray.Put | lib/associative_array.c:11-17 | aa_put on the whole table, the empty one included, refines the insertion on values |
| AssocArray.AssociativeArray.Merge | lib/associative_array.c:301-307 | aa_merge in place refines the merge on values |
| AssocArray.Has | lib/associative_array.c:217-234 | the recursion over the linked items gives the depth that the tree as a value gives |
| AssocArray.Get | lib/associative_array.c:236-247 | the recursion over the linked items finds the item with the value that the tree as a value holds |
| Parser.ParsedHeadersWellFormed | stomp/parser.c:9-31 | the header table of any received frame is a balanced search tree |
| Parser.CommandsPlainly | stomp/parser.c:107-116 | each command is recognised exactly by its word at the front of the frame, and no other word is one |
| Parser.SpecialsPlainly | stomp/parser.c:78-90 | receipt, topic and id of a parsed frame are the values of the last headers whose keys start with receipt, destination and id, and are missing exactly without such a header |
| Parser.CutLine | stomp/parser.c:76-92 | cutting a line with two NULs, reading both parts as C strings and restoring it gives key and value, and changes the line end to LF and nothing else |
| Parser.LatestIsLast | stomp/parser.c:78-90 | a special attribute has the value of the last header whose key has its name as a prefix, wherever that header stands, and is missing exactly if there is no such key |
| Parser.Remember | stomp/parser.c:77-90 | the branches over the prefixes keep the table and the three special attributes those of all headers so far |
| Parser.ParseHeadersInPlace | stomp/parser.c:65-101 | the loop that cuts and restores the buffer finds exactly the headers, the special attributes and the body of the text, and tells whether its search has left the text; it changes CRs to LFs at most, nothing of the body, and LF-only input comes back byte for byte |
| Parser.RunsOverIff | stomp/parser.c:70-73 | the search for a ':' runs behind the text exactly if no body is found and what follows the last line break holds no ':' |
| Parser.NoBodyIff | stomp/parser.c:65-101 | a frame has no body exactly if every line that has a line break is a header line |
| Parser.ParseMessageInPlace | stomp/parser.c:9-31 | parsing a received text in its buffer gives the command, table, special attributes and body that parsing the text as a value gives, and leaves the text exactly when that one would |
| Parser.LeavesTextIff | stomp/parser.c:9-31 | the exact condition on a received text: a known command, a second line, no body, and no ':' behind the last line break |
| Messages.StrBufIsLines | lib/associative_array.c:253-288 | the printed table is one key:value line per item, parents first, without the last line break |
| Messages.HeaderRoundTrip | stomp/messages/message.c:82-97 | for every non-empty table without CR, LF, NUL in keys and values and ':' in keys, and every body, parsing the printed frame gives the items in printing order, hence a well-formed table with the same map, and exactly the body |
| Messages.FrameIsRead | stomp/parser.c:9-31 | any command line, clean header lines and body that a client writes are read as these headers in order and exactly the body |
| Messages.CrLfFrameIsRead | stomp/parser.c:51-101 | a frame whose lines end with CR and LF is read alike |
| Messages.BrokenFrameIsRead | stomp/parser.c:65-101 | a frame that breaks off within a line is read as the lines before it, has no body, and is searched beyond exactly if that line has no ':' |
| Bytes.XorTwice | websocket/filter/dataframe.c:197-197 | masking a byte twice with the same mask byte gives it back |
| Words.MaskedBit | websocket/filter/dataframe.c:197-197 | masking is exclusive-or bit by bit |
| Ntohl.SwapTwice | websocket/ntohl.c:9-25 | swapping the octets of a word is its own inverse |
| Ntohl.LoadIsNetworkOrder | websocket/ntohl.c:9-25 | loading eight octets and converting gives their value in network order |
| Ntohl.StoreIsNetworkOrder | websocket/ntohl.c:9-25 | converting and storing writes the octets in network order |
| Frames.DrainAppend | websocket/filter/dataframe.c:141-160 | decoding a longer stream is decoding its front, then what was left followed by the rest |
| Frames.DrainRest | websocket/filter/dataframe.c:141-160 | the decode loop ends for the reason that its last test gives, with no more bytes than it had |
| Frames.SplitIndependence | websocket/filter/dataframe.c:109-181 | any two ways of cutting a stream into reads decode the same payloads, leave the same bytes and end alike |
| Frames.SpinsAtEmptyPayload | websocket/filter/dataframe.c:141-160 | the loop over any bytes fails to end exactly if what it comes to starts with an accepted frame of no payload, with more than 16 bytes left |
| Frames.RefusedPlainly | websocket/filter/dataframe.c:223-275 | close frames are refused with -4, other frames that are no text with -5, text of more than 1000000 bytes with -1, and nothing else is refused |
| FrameCodec.StreamThenRefused | websocket/filter/dataframe.c:141-160 | whole frames before a refused one all come out, then the loop ends with its status and leaves it in place |
| FrameCodec.UnmaskTwice | websocket/filter/dataframe.c:197-197 | unmasking what was masked gives the payload |
| FrameCodec.DecodeInvertsClientFrame | websocket/filter/dataframe.c:183-275 | for every payload of up to 1000000 bytes and every mask, decoding the minimal client frame of sections 5.2 and 5.3 of RFC 6455 followed by any bytes returns the payload and leaves exactly those bytes |
| FrameCodec.ConsumesFrameIffMinimal | websocket/filter/dataframe.c:187-191 | the decoder takes off the frame that its header announced exactly when the length field is minimal |
| FrameCodec.UnfinishedWaits | websocket/filter/dataframe.c:139-146 | bytes that do not yet hold a whole client frame leave the loop waiting |
| FrameCodec.StreamDecodes | websocket/filter/dataframe.c:141-160 | whole frames followed by an unfinished one give the payloads in order; what stays is the unfinished frame, a tail of at most 16 bytes, or everything from the first empty frame on, and then the loop does not end |
| FrameCodec.SpinsIff | websocket/filter/dataframe.c:141-160 | over client frames of any supported size the loop does not end exactly when an empty frame comes to the front with more than 16 bytes left |
| FrameCodec.EmptyFrameSpins | websocket/filter/dataframe.c:183-185 | an empty client frame with any mask and any 11 bytes behind it keep the loop going |
| FrameCodec.AnyCuttingDecodes | websocket/filter/dataframe.c:109-181 | however a stream of client frames is cut into reads, the same payloads come out in order and the same bytes stay |
| FrameCodec.EncodedFrameIsReceived | websocket/filter/dataframe.c:37-74 | every encoded frame is read by section 5.2 of RFC 6455 as one final unmasked text frame of minimal length form that holds the content and a NUL |
| WsBuffer.Pool.constructor | websocket/buffer.c:9-13 | the pool starts with free slots that hold nothing |
| WsBuffer.Pool.Find | websocket/buffer.c:15-24 | finds the first slot of a connection, or none |
| WsBuffer.Pool.Write | websocket/buffer.c:35-49 | resizing a slot changes that slot alone and keeps the pool sound: the allocated size is the sum over the slots and within its limit, a connection owns one slot, free slots hold nothing |
| WsBuffer.Pool.Free | websocket/buffer.c:26-32 | freeing empties one slot and keeps the pool sound; without a slot it does nothing |
| WsBuffer.Pool.Add | websocket/buffer.c:61-78 | the first free slot gets the bytes, or the pool is unchanged when there is none |
| WsFilter.ReadHeaders | websocket/filter/dataframe.c:223-275 | the branches over the opcode and the three length forms give what the header function says, refusals included |
| WsFilter.Decode | websocket/filter/dataframe.c:183-213 | the two loops unmask the payload and move the following bytes to the front |
| WsFilter.DrainSlot | websocket/filter/dataframe.c:141-160 | the decode loop on a slot returns the payloads and leaves the rest that the loop on values gives; other slots are untouched |
| WsFilter.InputFilter | websocket/filter/dataframe.c:109-181 | one read: status, decoded bytes and kept bytes in every case, with both limits; the pool stays sound and no other connection's bytes change |
| WsFilter.RefusalPlainly | websocket/filter/dataframe.c:117-135 | a read is refused exactly when more than ten million bytes would be held, or else when no slot is the connection's or free |
| WsFilter.StatusPlainly | websocket/filter/dataframe.c:162-175 | the status is that of the refused frame, else 1 if a frame has come out and 2 if none has |
| WsFilter.FilterAll | websocket/filter/dataframe.c:109-181 | the filter over the reads of many connections on one pool, interleaved in any way: until a limit refuses a read or the loop does not end, each connection decodes and keeps what it would alone |
| Intake.UseConnection | server/accept_epoll.c:177-197 | one read of a WebSocket connection: its status, what the pool keeps, and the texts of its frames queued under the flagged number up to the limit |
| Intake.UseAll | server/accept_epoll.c:150-197 | the reads of many connections through one pool into one queue: until a read ends its connection each decodes what it would alone, and unless the limit of the queue is reached exactly the arriving texts are queued, in order |
| Intake.FilledUnderLimit | server/accept_epoll.c:118-126 | a queue that is below its limit in the end has dropped nothing |
| Intake.ArrivalsAreTexts | server/accept_epoll.c:189-197 | under its flagged number a connection finds the texts of its own frames in order, whatever others queue in between |
| Intake.StreamIsQueued | server/accept_epoll.c:150-197 | end to end: a client whose frames carry whole texts has them queued in order, however its stream is cut into reads and interleaved with others, and the pool keeps the rest |
| Intake.TextsAreQueued | server/accept_epoll.c:108-197 | the same in terms of the texts that the client has closed with NULs and put into its frames |
| Splitting.PutMessagesOnQueue | server/accept_epoll.c:108-132 | the scan queues exactly the texts between NULs, in order, up to the limit of the queue, and writes the terminator only |
| Splitting.PiecesOfClosed | server/accept_epoll.c:113-130 | of texts without NUL, each closed by a NUL, the scan finds exactly these, in order |
| Splitting.FilledBelowLimit | server/accept_epoll.c:118-126 | while the limit is not reached no text is dropped |
| Splitting.FilledUpToLimit | server/accept_epoll.c:118-126 | of the texts of a read the first are queued, as many as the limit of the queue allows |
| Splitting.QueuedIsAllTexts | server/accept_epoll.c:108-132 | if each payload consists of non-empty NUL-terminated texts, the queued texts are those of the payloads in order |
| Splitting.MessagesSplitIndependent | server/accept_epoll.c:108-132 | for such payloads any two ways of cutting the stream queue the same texts |
| Queue.Queue.Enqueue | lib/queue.c:13-23 | appends, with size and both ends exact |
| Queue.Queue.PutHead | lib/queue.c:28-39 | prepends, with size and both ends exact |
| Queue.Queue.EnqueueLimited | lib/queue.c:42-51 | appends exactly below the limit |
| Queue.Queue.Dequeue | lib/queue.c:53-63 | takes the first element, or nothing from an empty queue |
| Queue.Queue.UnchainChild | lib/queue.c:68-76 | unlinking at head, middle or tail removes that element alone and keeps order, size and both ends |
| GeneralList.List.Add | lib/general_list.c:14-26 | appends, with size and both ends exact |
| GeneralList.List.UnchainAt | lib/general_list.c:121-145 | removes and returns the element at an index, or leaves the list alone for an index outside it |
| ThreadSafeQueue.TsQueue.Enqueue | lib/thread_safe_queue.c:7-12 | appends and signals once |
| ThreadSafeQueue.TsQueue.PutHead | lib/thread_safe_queue.c:14-19 | prepends and signals once |
| ThreadSafeQueue.TsQueue.EnqueueMultiple | lib/thread_safe_queue.c:21-32 | appends all elements in order under one signal, and signals exactly if there are any |
| ThreadSafeQueue.TsQueue.EnqueueLimited | lib/thread_safe_queue.c:34-48 | appends and signals below the limit, else neither |
| ThreadSafeQueue.TsQueue.Dequeue | lib/thread_safe_queue.c:50-56 | takes the first element, or waits on an empty queue |
| Batch.DequeueMultiple | server/threads/writer_thread.c:91-133 | the cursor loop that unlinks from the middle of the queue takes and leaves what the scan on values takes and leaves |
| Batch.PickTakesOwn | server/threads/writer_thread.c:108-126 | after its first message a batch takes only messages of the same connection, and at most a pill besides |
| Batch.PillIsLast | server/threads/writer_thread.c:111-115 | a pill ends its batch |
| Batch.PickSplitsOwn | server/threads/writer_thread.c:91-133 | a batch splits each connection's messages into a taken front and a kept rest, in order |
| Batch.BatchIsLongestPrefix | server/threads/writer_thread.c:91-133 | with no pill queued the batch is the longest prefix of the head connection's messages within 1000 items and the byte budget, everything else stays in order, and the budget is exceeded by one oversized head only |
| Batch.FifoPerConnection | server/threads/writer_thread.c:91-133 | over any run of insertions and batches each connection's messages come out in order, none lost and none twice |
| Writers.WritersCount | server/process.c:47-49 | two processors are kept for the other threads, but there is at least one writer |
| Writers.StepKeepsInv | server/threads/writer_thread.c:101-103 | every step of producers, writers, shutdown and spurious wakes keeps pills conserved and, while somebody waits, the awake writers ahead of the queued pills and messages |
| Writers.NoLostWakeUp | lib/thread_safe_queue.c:7-56 | in every interleaving a queue that is not empty has a writer that is not waiting, until all have ended; queued pills never exceed the awake writers; once all pills are posted nobody waits |
| Writers.ShutdownEnds | server/process.c:62-72 | once all pills are posted the writers take at most as many turns as messages are left or still produced, and when none can take a turn all have ended and no pill is left |
| Writers.FifoInEveryRun | server/threads/writer_thread.c:91-133 | in every interleaving each connection's messages are dequeued in the order of production, none lost and none twice |
| SessionFlags.FlagsAreIndependent | server/data/session_storage_simple.c:72-82 | the encoded flag can be set, read and taken off on connections of 14 bits |
| SessionFlags.PurgeRoundTrip | server/data/session_storage_simple.c:84-94 | the purge flag can be set, read and taken off independently of the encoded flag |
| SessionFlags.MaskCoversIff | server/data/session_storage.h:24-30 | taking the flags off gives the connection back exactly below 2 to the 14th, which is not all that the storage admits |
| SessionFlags.ConnectionsCollide | server/data/session_storage.h:24-30 | two admitted connections that the mask does not tell apart |
| Output.MessageWithFrameLen | server/data/message/with_payload_length.c:15-34 | the announced length of a new message |
| Output.EncodeWebsocketFrame | websocket/filter/dataframe.c:37-74 | the three branches with htons and ntohl64 write the frame of section 5.2 of RFC 6455 |
| Output.OutputFilter | websocket/filter/dataframe.c:20-35 | the bytes written for a message: an encoded frame, a handshake answer as it is, else the content and a NUL |
| Output.AnnouncedLengthIsExactIff | server/data/message/with_payload_length.c:15-34 | the announced length is the written one exactly unless the content is encoded and 125 or 65535 long, or is a handshake answer that is not encoded |
| Output.AnnouncedLengthIsShort | server/data/message/with_payload_length.c:19-27 | at the two exceptional lengths the announcement is short by 2 and by 6 |
| Output.FillBuffer | server/threads/writer_thread.c:40-65 | each live message of the batch stands in the write buffer at the sum of the lengths of the live ones before it, as octets that a receiver takes as its content, and nothing else is there; a pill ends the thread |
| Output.EmittedStandsFor | websocket/filter/dataframe.c:20-74 | what is written for a message: one final unmasked text frame of section 5.2 of RFC 6455 with the content and a NUL, a handshake answer as it is, or the content and a NUL |
| Output.PillDropsItsBatch | server/threads/writer_thread.c:108-126 | a writer gets the first queued pill exactly if all messages of the head's connection before it fit with one place and one byte to spare; it then takes just these with the pill, so that they are lost, and all others stay in order |
| Output.SendBuffer | server/threads/writer_thread.c:67-85 | whatever the socket accepts, a prefix of the buffer is written: as much as the writes found room for in all, up to the whole of it; the loop ends when all is written or after 200 refusals in a row |
| Output.BufferedLength | server/threads/writer_thread.c:45-65 | what is buffered for a batch is exactly the announced lengths of its live messages plus their excess |
| Output.BatchFitsBuffer | server/threads/writer_thread.c:26-65 | the bytes of a batch exceed the write buffer by at most the excess of its messages over their announced lengths, unless it is one oversized head |
| Output.OverflowIff | server/threads/writer_thread.c:26-65 | without encoded contents of 125 or 65535 bytes the write buffer overflows exactly if the batch is one message that is itself longer and whose client is there |
| Output.ExceptionalOverflows | server/threads/writer_thread.c:26-65 | an encoded content of 125 or 65535 bytes whose announced length fills the buffer overflows it by 2 or 6 bytes |
| BitSets.WordWritten | stomp/data_wrappers/session.c:36-42 | changing one bit of one word changes the membership of one client |
| Words.TestBit | stomp/data_wrappers/session.c:20-23 | masking with a power of two tests one bit |
| Words.UpperHalf | stomp/data_wrappers/session.c:51-56 | dividing by 2 to the 32nd moves the upper half down |
| Session.FindBit | stomp/data_wrappers/session.c:16-21 | the split construction of the mask gives the one bit of the client in its word |
| Session.MaskChangesOneBit | stomp/data_wrappers/session.c:36-42 | the or and the inverted and set and clear the client's bit and leave all others |
| Session.Sessions.constructor | stomp/data_wrappers/session.c:8-12 | nobody is connected at the start |
| Session.Sessions.IsConnected | stomp/data_wrappers/session.c:14-25 | answers membership in the set of connected clients |
| Session.Sessions.SetConnected | stomp/data_wrappers/session.c:27-43 | adds or removes one client and touches no other |
| Session.Sessions.ConnectedSize | stomp/data_wrappers/session.c:45-60 | counting the bits of both halves gives the cardinality of the set |
| PubSub.MaskIsBeforeStar | stomp/data_wrappers/pub_sub.c:132-149 | the length taken from strchr is that of the part before the first '*' |
| PubSub.LiveMatchIsPromised | stomp/data_wrappers/pub_sub.c:127-171 | for every topic without '*' a subscription matches exactly if it is equal or its part before the first '*' is a prefix |
| PubSub.RulesPlainly | stomp/data_wrappers/pub_sub.c:127-171 | the promised rule and the stale rule in plain terms: the pattern is the topic, or what stands before its first star is a prefix of the topic, for the stale rule a proper one |
| PubSub.MatchingIsPromised | stomp/data_wrappers/pub_sub.c:127-171 | for a topic without star the matching subscriptions are exactly those whose pattern covers it, in order |
| PubSub.StaleRuleAgainstLiveRule | stomp/messages/distribute_messages.c:143-147 | the stale rule implies the live rule and differs exactly where the topic is the wildcard's prefix itself |
| PubSub.Subscribe | stomp/data_wrappers/pub_sub.c:34-42 | appends the subscription |
| PubSub.Unsubscribe | stomp/data_wrappers/pub_sub.c:44-81 | of the subscriptions with that client, topic and id none stays, every other stays as often as before and in order |
| PubSub.RemoveClient | stomp/data_wrappers/pub_sub.c:83-117 | of the client's subscriptions none stays, every other stays in order |
| PubSub.FindMatching | stomp/data_wrappers/pub_sub.c:127-171 | appends exactly the matching subscriptions in order and returns the size of the list |
| Seqs.KeepIsFilter | stomp/data_wrappers/pub_sub.c:44-117 | what is kept is exactly what is not to be removed, as often as before |
| Seqs.KeepSelects | stomp/data_wrappers/pub_sub.c:44-117 | what is kept are the elements at ascending positions, exactly those that are not to be removed |
| Delivery.DigitsValue | stomp/messages/distribute_messages.c:189-192 | the printed digits have the number's value |
| Delivery.ItoaIsDecimal | stomp/messages/distribute_messages.c:189-192 | a number is printed in decimal without leading zeros, with a sign if it is negative |
| Delivery.IdText | stomp/messages/distribute_messages.c:199-205 | an id below 2 to the 31st is printed as it is, from there on as a negative number |
| Delivery.MessageIsAnnounced | server/data/message/with_payload_length.c:15-34 | every message is announced with its length, the NUL, and the header that its content alone would need if encoded |
| Delivery.LenOfInt | stomp/messages/message.c:12-18 | the loop counts the digits that are printed |
| Delivery.ErrorIsRead | stomp/messages/message.c:8-31 | an ERROR frame is read back as its two headers and the reason with a line break |
| Delivery.ParsedIsClean | stomp/parser.c:65-101 | headers, topic and id of any received frame can be printed without harm |
| Delivery.OutTableIsPrepared | stomp/messages/distribute_messages.c:55-64 | merging, two insertions and those of a diagnostic answer give the sender's headers with content type and length and then the answer over them |
| Delivery.AddressedIsDelivered | stomp/messages/distribute_messages.c:67-69 | addressing the table, however it was addressed before, gives exactly the headers to be delivered |
| Delivery.DeliveredPlainly | stomp/messages/distribute_messages.c:54-69 | the delivered headers in plain terms: the five that the broker sets, and all others as the sender has set them |
| Delivery.DeliveriesAreRead | stomp/messages/distribute_messages.c:65-78 | each subscription's frame is read as the prepared headers, its own address, the next message id and exactly the body |
| Diagnostics.AnswerIsDelivered | stomp/messages/create_diagnostic_message.c:85-142 | every header of the answer reaches the subscribers of a DIAG topic with its number, whatever headers the sender has set |
| Diagnostics.AnswerIsClean | stomp/messages/create_diagnostic_message.c:85-142 | the headers of every answer can be printed without harm |
| Diagnostics.AnswersPlainly | stomp/messages/create_diagnostic_message.c:85-142 | which headers each query gives, by the beginning of the body, and that only topics starting with DIAG get any |
| Diagnostics.ValuesPlainly | stomp/messages/create_diagnostic_message.c:15-76 | what each query is answered with in a DIAG frame, by the beginning of the body |
| Diagnostics.PubSubToStr | stomp/data_wrappers/pub_sub.c:177-194 | the list walk joins, in order and with commas, the patterns up to the first for which the buffer has no room, and the result with its NUL fits the buffer |
| Diagnostics.JoinedIsList | stomp/data_wrappers/pub_sub.c:177-194 | the list is made of the patterns from the front, each but the last with a comma behind it; empty ones at its front are passed over |
| Diagnostics.PatternListIsLongest | stomp/data_wrappers/pub_sub.c:177-194 | patterns are listed while one more, a comma and the NUL fit into 4000 octets, and the list ends before the first that does not fit |
| Diagnostics.DiagnosticIsRead | stomp/messages/message.c:99-113 | a DIAG frame is read back as its type and one header named after the query |
| Diagnostics.QueryIsAnswered | stomp/messages/create_diagnostic_message.c:15-76 | the answer to any known query that is a clean name is read back as a header of that name with the value asked for |
| Stale.CollectStale | stomp/messages/distribute_messages.c:128-177 | the walk drops what has expired, takes out what matches and leaves the rest linked in order |
| Stale.DrainStale | stomp/messages/distribute_messages.c:107-185 | one call keeps exactly the waiting messages in order and delivers each matching one once, in order, to the new subscriber |
| Stale.FatePlainly | stomp/messages/distribute_messages.c:131-147 | a waiting message with a time stamp expires exactly when it is older than a time to live that is set; of the others exactly those match that the pattern covers with something to spare behind a star |
| Stale.DrainedAreThose | stomp/messages/distribute_messages.c:128-177 | what a drain keeps and what it delivers are exactly the messages of these kinds, in order |
| Stale.FatesAddUp | stomp/messages/distribute_messages.c:128-177 | expired, matching and kept messages add up to the old size |
| Stale.FatesPartition | stomp/messages/distribute_messages.c:128-177 | each waiting message has exactly one of the three fates, as often as it occurs |
| Stale.DrainTwice | stomp/messages/distribute_messages.c:107-185 | draining again at the same time delivers nothing and keeps everything |
| Stale.DeliveredIsRead | stomp/messages/distribute_messages.c:151-165 | a drained message is read as the stored headers, the new address and the stored body |
| RoundRobin.FairWithoutWrap | stomp/messages/distribute_messages.c:208-223 | while the counter does not wrap, of any k consecutive messages each of n subscribers gets k/n rounded down or up |
| RoundRobin.UnfairAtWrap | stomp/messages/distribute_messages.c:208-213 | if n does not divide 2 to the 32nd, the first subscriber is served twice around the wrap |
| RoundRobin.FairIff | stomp/messages/distribute_messages.c:208-223 | all runs, wraps included, are fair exactly if n divides 2 to the 32nd |
| Distribution.PickNext | stomp/messages/distribute_messages.c:210-223 | leaves the one subscription at the counter modulo the number of matches |
| Distribution.DistributeMessages | stomp/messages/distribute_messages.c:29-100 | queues what the distribution on values sends, answers to diagnostic queries included, and counts as it does, or crashes exactly when it does; the stale queue is not touched |
| Distribution.SentExactlyTo | stomp/messages/distribute_messages.c:39-78 | a message without time stamp or no older than the time to live goes to every subscription that covers its topic, in order, or to one in turn for a '#' topic, and any other to nobody; the ids go on by one per message sent, the turn by one |
| Distribution.CrashIff | stomp/messages/distribute_messages.c:47-60 | the length of a missing body is asked for exactly if the message is not too old and somebody has subscribed to its topic |
| Distribution.SentToMatching | stomp/messages/distribute_messages.c:47-78 | everything sent goes to a matching subscription, one message to each in order, or to one in turn for a '#' topic |
| Distribution.SentIsRead | stomp/messages/distribute_messages.c:54-78 | end to end, from any received frame that is not the crashing one: each receiver reads the sender's headers, the diagnostic answer if the topic starts with DIAG, its own address and exactly the sender's body |
| Distribution.OneInTurn | stomp/messages/distribute_messages.c:48-51 | consecutive messages to a '#' topic go to exactly one subscriber each, the i-th to the one the counter points to |
| Distribution.DeliveredFairly | stomp/messages/distribute_messages.c:48-51 | of any k consecutive messages to a '#' topic a client with one of n matching subscriptions receives k/n rounded down or up, unless the counter wraps and n does not divide 2 to the 32nd |
| Broker.Broker.constructor | stomp/stomp.c:151-158 | the broker starts with nobody connected and nothing subscribed or waiting |
| Broker.Broker.Diagnose | stomp/messages/create_diagnostic_message.c:15-76 | a DIAG command is answered from the bitmap and the lists as the answer on values says |
| Broker.Broker.Apply | stomp/stomp.c:51-138 | the switch over the command changes the bitmap, the list and the queues as the transition on values says, with the same refusals and the same crash |
| Broker.Broker.Process | stomp/stomp.c:27-149 | one purge or frame is one step of the transition: state, queued messages, reply and result, or the crash |
| Broker.SentAreMessages | stomp/stomp.c:27-149 | apart from its reply a frame sends nothing but MESSAGEs |
| Broker.FrameRepliesOnce | stomp/stomp.c:140-144 | each frame that does not crash the broker has at most one reply, after its MESSAGEs and to its sender; a receipt is given when asked for unless there is another reply, so never with an ERROR |
| Broker.CrashesIff | stomp/stomp.c:106-126 | a step crashes the broker exactly at a SEND without a body of a connected client, not too old, to a topic without wildcard that matches a subscription |
| Broker.BodiesAreSafe | stomp/stomp.c:106-126 | no run in which every SEND has a body crashes the broker |
| Broker.CrashIsReachable | stomp/messages/distribute_messages.c:60-60 | from the start, CONNECT, SUBSCRIBE and a SEND that breaks off crash the broker, for any client, topic and id |
| Broker.StepKeepsOwned | stomp/stomp.c:27-149 | a step of consistently flagged clients keeps every subscription under the one name of a connected client |
| Broker.NoMessageToUnconnected | stomp/stomp.c:27-149 | after any frames and purges with consistent flags every subscription belongs to a connected client, and whatever comes next produces MESSAGEs for connected clients only |
| Broker.StepKeepsSafeIff | stomp/stomp.c:34-47 | whatever the flags, a step leaves every subscription with a connected client exactly unless a client departs whose connection has subscriptions under another name |
| Broker.PurgeWithoutFlagStrands | server/threads/writer_thread.c:135-145 | from the start, an encoded client that connects and subscribes and is purged without its flag leaves a subscription of an unconnected client that still matches |
| Broker.OthersUnchanged | stomp/stomp.c:27-149 | a client's step leaves the connections and subscriptions of all others as they are, in order |
| Replies.ConnectIsAnswered | stomp/stomp.c:53-60 | a client that is not connected and sends CONNECT gets exactly one CONNECTED frame, read as its five headers with the session in decimal, and is connected then |
| Replies.RefusalIsAnswered | stomp/stomp.c:51-138 | each refused command gets exactly one ERROR frame, read as its headers and the reason of that case, and changes nothing |
| Replies.ReceiptIsGiven | stomp/stomp.c:140-144 | a command that is carried out sends MESSAGEs only, followed by a RECEIPT that is read as exactly the id that was asked for, if one was |
| Replies.DiagnosisIsAnswered | stomp/stomp.c:126-135 | a DIAG command gets exactly one frame, read as a header named after the query with its value, or an ERROR |
| Replies.OwnSizesAreAnswered | stomp/messages/create_diagnostic_message.c:33-43 | the numbers of connected clients and of subscriptions are answered in decimal from the state |
| Replies.LeavingTakesOwn | stomp/stomp.c:34-80 | a purge or a DISCONNECT ends the connection and takes exactly the subscriptions under the name of the client, the others stay in order |
| Replies.UnsubscribingTakesOne | stomp/stomp.c:94-105 | an UNSUBSCRIBE takes exactly the client's subscriptions with this topic and id; all others, its own included, stay in order |
| Replies.SubscribingDrains | stomp/stomp.c:81-93 | a SUBSCRIBE appends the subscription; of the waiting messages those not too old that its pattern covers are delivered in order and read as stored, those too old are dropped, the rest stays in order |
| Replies.SendingReaches | stomp/stomp.c:106-125 | a SEND that is not too old reaches exactly the subscriptions that cover its topic, or one in turn, and changes nothing but the counters |
| Replies.OutIsAnnounced | server/data/message/with_payload_length.c:15-34 | every message of every step carries the length that the writers reckon with |
| Broker.NothingEverWaits | stomp/messages/distribute_messages.c:80-89 | from the start no run puts a message into the stale queue |
| BlockHash.BlocksOfPrefix | websocket/utils/sha1.c:143-185 | later octets do not change what the blocks before them give |
| BlockHash.HoldingMore | websocket/utils/md5.c:297-314 | octets copied into the block buffer extend the message that the state holds |
| BlockHash.HoldingFull | websocket/utils/sha1.c:178-181 | a full buffer is the next block of the message |
| Words.RotateLeftBit | websocket/utils/sha1.c:46-48 | a rotation by n moves bit k to bit k + n modulo 32 |
| Words.SameBits | websocket/utils/sha1.c:46-48 | words with the same bits are equal, so that the laws bit by bit determine the operators |
| Words.And32Bit | websocket/utils/sha1.c:243-286 | the conjunction of words is bit by bit |
| Words.Or32Bit | websocket/utils/sha1.c:243-286 | the disjunction of words is bit by bit |
| Words.Xor32Bit | websocket/utils/sha1.c:243-286 | the exclusive-or of words is bit by bit |
| Words.Not32Bit | websocket/utils/sha1.c:243-286 | the complement of a word is bit by bit |
| Sha1.FBit | websocket/utils/sha1.c:243-286 | bit by bit the round functions are the choice by B, the majority of the three, and their parity |
| Sha1.WBit | websocket/utils/sha1.c:232-235 | each later word of a block is the parity of four earlier ones, rotated by one |
| Sha1.AlternateIsSame | websocket/utils/sha1.c:224-286 | the method of section 7 of FIPS PUB 180-1 with 80 words and the one of section 8 with 16 go through the same registers |
| Sha1.PadPlainly | websocket/utils/sha1.c:326-371 | a padded message is whole blocks of the message, a one bit, zeros and its length in bits in network order |
| Sha1.WordsAreNetworkOrder | websocket/utils/sha1.c:224-230 | the first 16 words of a block are its octets in network order |
| Sha1.OneRound | websocket/utils/sha1.c:243-286 | the bodies of the four round loops are the steps of sections 5 to 7 of FIPS PUB 180-1 |
| Sha1.Context.Reset | websocket/utils/sha1.c:71-85 | starts an empty message whatever was fed before |
| Sha1.Context.ProcessBlock | websocket/utils/sha1.c:207-301 | the loops compress one block as section 7 of FIPS PUB 180-1 says |
| Sha1.CountBits | websocket/utils/sha1.c:162-175 | eight more bits carry into the upper word, and both words become zero exactly at 2 to the 64th bits |
| Sha1.Context.PadMessage | websocket/utils/sha1.c:326-371 | both padding branches leave the digest of the padded message of section 4 of FIPS PUB 180-1 |
| Sha1.Context.Input | websocket/utils/sha1.c:143-185 | further octets extend the message, with the length words at 8 times the octets, and the context is corrupted exactly after a result or at 2 to the 64th bits |
| Sha1.Context.Result | websocket/utils/sha1.c:104-119 | gives the digest of everything fed unless corrupted; asking again changes nothing |
| Sha1.HashAll | websocket/utils/sha1.c:71-185 | however a message is split over calls, the digest is that of the standard below 2 to the 61st octets, and none from there on |
| Md5.State.Init | websocket/utils/md5.c:269-277 | starts an empty message whatever was appended before |
| Md5.Process | websocket/utils/md5.c:111-267 | the 64 assignments are the four rounds of section 3.4 of RFC 1321 |
| Md5.AuxiliaryBits | websocket/utils/md5.c:159-237 | bit by bit F chooses by x, G by z, H is the parity and I compares y with "x or not z" |
| Md5.EachWordOnce | websocket/utils/md5.c:163-266 | each round takes every word of the block once |
| SineTable.TableIsSine | websocket/utils/md5.c:46-109 | each of the 64 constants is the integer part of 2 to the 32nd times the absolute value of the sine, which is computed from the power series at 1 by the addition theorems |
| SineTable.UnitAngle | websocket/utils/md5.c:46-109 | the sine and cosine of 1 that this starts from agree with the power series in all 18 decimals |
| Md5.WordsAreLowFirst | websocket/utils/md5.c:111-152 | words are read from and written to octets with the lowest octet first |
| Md5.PadPlainly | websocket/utils/md5.c:317-338 | a padded message is whole blocks of the message, a one bit, zeros and its length in bits |
| Md5.CountMore | websocket/utils/md5.c:288-295 | the two count words stay the bit total modulo 2 to the 64th |
| Md5.OffsetOfCount | websocket/utils/md5.c:285-285 | the low count word gives the position in the block, and the padding expression reaches 56 modulo 64 |
| Md5.State.Append | websocket/utils/md5.c:279-315 | the three phases extend the message by the octets, at every block offset |
| Md5.StateIsDetermined | websocket/utils/md5.c:279-315 | however octets are split over calls, equal octets leave equal counts, registers and live buffer |
| Md5.State.Finish | websocket/utils/md5.c:317-338 | gives the digest of sections 3.1 to 3.5 of RFC 1321 |
| Base64.EncodeInto | websocket/utils/base64.c:62-95 | writes the encoding of section 3 of RFC 3548, or its exact prefix when there is no room, and a NUL when there is room for one more; the rest of the buffer stays |
| Base64.EncodeIsEncoding | websocket/utils/base64.c:62-95 | an encoding has whole quanta, padding only in the last one, and the length that stands for the input's length |
| Base64.EncodedPlainly | websocket/utils/base64.c:62-95 | each four letters stand, by their places in the alphabet, for the 24 bits of three octets, with zeros behind the end of the input and padding where no octet reaches |
| Base64.AlphabetIs | websocket/utils/base64.c:63-64 | the letters in order are those of table 1 of RFC 3548 |
| Base64.DecodeInto | websocket/utils/base64.c:301-372 | answers true exactly for whole quanta of the alphabet with padding in the last one only, and then writes the decoded octets, or as many as there is room for |
| Base64.DecodeInvertsEncode | websocket/utils/base64.c:301-372 | decoding the encoding of any octets is accepted and gives them back |
| AcceptKey.EncodeAlloc | websocket/utils/base64.c:106-134 | the allocated encoding is the whole encoding |
| AcceptKey.AcceptPlainly | websocket/filter/handshake.c:41-72 | the key is the Base64 of the digest of key and GUID, its five words in network order |
| AcceptKey.CreateAcceptKey | websocket/filter/handshake.c:41-72 | the accept key of section 4.2.2 of RFC 6455: the 28 letters of the Base64 of the SHA-1 of key and GUID, its words in network order |

## Left out

- Sockets, epoll, system calls, signals, logging, configuration, memory exhaustion and freeing order; a failing allocation
  ends the original.
- `aa_remove_item` (lib/associative_array.c:100-142), which is unfinished and not exported.
- Filling the stale queue: the code that would do it is never reached, so the drain is proved for an arbitrary queue.
- The parser and the broker use the header table as a value; that the table in place refines it is proved in AssocArray.
- SessionFlags.WithoutFlags: the masks are written as remainders and quotients of non-negative numbers.
- Frames.SplitIndependence: the limits of the buffer pool are not part of this statement; WsFilter.InputFilter and
  WsFilter.FilterAll have them.
- FrameCodec.DecodeInvertsClientFrame: at least 14 bytes are present, because the decode loop reads a header only with more
  than 16; length fields that are not minimal are outside it, as shown above.
- WsFilter.InputFilter: at an empty payload the model reports a status of its own, because the loop of the original does
  not end; where reallocating to no bytes returns a null pointer and nothing has been decoded in the same read, the
  original exits instead (lib/emalloc.c). A connection's encoded flag is a parameter.
- Intake.UseAll: reads of encoded connections; the limit of sessions and the closing of a connection after a bad status
  are not part of it.
- Parser.ParseMessage: where the search for ':' leaves the text, which Parser.LeavesText tells, the model ends it there;
  what the original finds behind the text, or whether it may look there at all, is open. The comparison with command words, which may also look behind a shorter text, stops at its end.
- Broker.Step: after a crash there is no broker, and nothing is promised of what was shared with other threads.
- Distribution.OneInTurn: the time to live and the subscriptions are the same for all messages of the run.
- Stale.DrainStale: waiting messages have a topic and a body, as a SEND that could be stored would have.
- Writers.NoLostWakeUp: a writer's turn is atomic with its decision to end; writing to the socket happens outside the lock
  and is in Output. The reader thread with its own queue and pill is not part of this model.
- Output.FillBuffer: whether a client is still there is a parameter per message.
- Output.SendBuffer: a write that fails for another reason than a full socket counts as refused, as in the original.
- Md5.State.Append: the octets of one call fit an int with 63 to spare.
- Session.Sessions: client numbers are below 131072, which the mask of the connections guarantees.
- Order of the actual writes between writer threads; only the order of dequeuing is promised.
- Fragmentation, ping and pong frames, the scan of the HTTP request, counting hits and misses.
- `check_stomp_version` (stomp/stomp.c:174-180), which nothing calls.
