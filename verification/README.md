# UDP frames to shared memory: a verified model

The program receives UDP packets through a kernel-bypass network card, splits
each packet (a frame) into messages, and appends the messages to a lock-free log
in shared memory, where other processes read them.  One thread runs everything
in one polling loop:

    network -> receiver -> ring 0 -> parser -> ring 1 -> inserter -> shared memory -> consumers

This project models that data path, its run loop, and the reader of the JSON
configuration, and proves what the stages keep and what they amount to together.

| file | models | form |
|---|---|---|
| Bytes | byte order, concatenation | functions |
| RingQueue, RingFifoBuffer | RingFIFOBuffer.cpp: the record ring between two stages | functions on values; a class over a byte array proved to compute them |
| SharedLog | the data section of shared memory: one writer, any reader, every interleaving | step machine |
| Inserter | InserterImplementation.cpp | class over shared memory, proved to be a run of the step machine |
| FrameFormat, ParserModel, Parser | ParserImplementation.cpp | the frame format as an independent definition; functions; a class proved to compute them |
| Reassembly, EfviReceiver | NetworkReceiverImplementationEFVI.cpp | functions on events; a class with the linked buffer pool |
| CommonData | CommonData.h | class |
| Pipeline, PipelineProofs, PipelineTheorems, PipelineSequence | UDPJubmoFrameReceiverImplementation.cpp with all stages | a machine on values, its invariant, and theorems about every run |
| PipelineSteps, PipelineSessions | the same | single iterations; which messages stay in their session |
| PipelineLaws | the same | laws of runs stated from outside: the frames taken determine the session, the signal and failures the end |
| PipelineHangs | the same | runs of the machine in which a retry loop spins |
| RunLoop | UDPJubmoFrameReceiverImplementation.cpp | the objects and the loop body, proved to be one iteration of the machine |
| JsonModel, JsonRoundTrip, JsonTruncation, JsonFaults, JsonReader, InputArguments | mjson.cpp for flat tables, InputArguments.cpp | a step function and its theorems; a class with the two fixed buffers proved to take those steps |

How the parts fit.  Every class has a ghost value; its methods are proved to
compute a function of that value, and the theorems are about the functions.  The
environment is explicit: the network card's events, the memory beyond a received
frame, keys, the moment of the interrupt signal, and all consumers are inputs
that the theorems quantify over.

Three results close the chain.  `RunLoop.RunLoop.Iterate` shows that the objects
follow the machine, and that each stage's preconditions hold because of the
theorems about runs.  `RunLoop.RunLoop.DeliveredArePackets` shows what the frames
are: the payloads of whole packets, each put together from the hardware's events
for that packet alone, over any number of polls.
`RunLoop.RunLoop.ConsumersReadAcceptedMessages` shows that whatever a consumer
decodes after a successful check, however its copying is interleaved with the
inserter's stores, is a stretch of the messages of the accepted frames.

Retry loops.  The program repeats a refused ring write until it succeeds, in the
same thread as the only reader of that ring, and a refused write changes nothing.
So such a loop ends at its first attempt or never.  The model reports the second
case (`hung` in the machine, `spinning` in the methods); most theorems about runs speak
of runs that are not hung, and of what the inserter commits in an iteration that
then hangs.  `SafeTrafficNeverHangs` says which traffic never hangs;
`GateIsSafeIff` and `AlwaysAcceptedIff` say that its condition on frames and polls
is exact, and `PipelineHangs` gives runs that do hang.

Where the code differs from what is said about it:

- A read that skips the tail of the ring gives back the tail but not the record
  (RingFIFOBuffer.cpp:212-218), so the byte counter is not the number of occupied
  bytes; `RunAccounting` gives the exact difference.
- The parser's check at ParserImplementation.cpp:112 compares one message with the
  whole frame, since its running total stays 0; that an accepted frame is covered
  exactly comes only from the sum at ParserImplementation.cpp:154, as
  `AcceptsExactlyTiled` shows.
- The free space of 16384 bytes that the parser waits for covers the well-formed
  frames with bodies of up to 7680 bytes and no larger size (`GateCoversBodyIff`).
  With one frame of 299 messages in each iteration the program hangs in the 112th
  (`StreamHangs`).
- A frame that would be rejected can hang it too, since messages are written before
  the discard flag is looked at: 36 bytes with a length field of 0xFFFF do when
  fewer than 65600 bytes are free (`MalformedFrameSpins`, `MalformedFrameHangs`).
- While it scans a frame that it will reject, the parser may read outside its
  receive buffer: `StaysInsideIff` says for which frames and memory, and
  `CountTooHighStrays` gives such frames.  From a frame that it accepts it reads
  exactly the body (`KeptFrameIsReadOnce`).
- The ring refuses an empty record, and the receiver repeats a refused write, so a
  datagram of 42 bytes, the headers alone, hangs the program (`EmptyPacketHangs`,
  `BareHeaderHangs`).  The receiver counts the bytes of the Ethernet frame, not the
  UDP length: an empty datagram that was padded to 60 bytes gives a packet of 18.
- The receiver's wait for 16384 free bytes does not cover a poll: with 32 packets of
  957 to 1020 bytes in each poll its loop spins in the 81st iteration
  (`FullPollsHang`).
- "All valid messages have a nonzero sequence number" (InserterImplementation.cpp:213)
  is not enforced: `WalkBySequenceIff` says when a consumer may rely on it,
  `NumberedFramesNumberRecords` that it may if no accepted frame carries 0, and
  `ZeroFrameIsMissed` gives a run in which a record is missed.
- The equation checked at main_test.cpp:275 holds after an append exactly when the
  append needed no skip: `HandleSharedMemoryFrames`.
- Status 0 of the JSON reader does not mean that the object was complete:
  `PrintedCutIff` says where exactly a configuration may be cut and still be
  accepted, `CutConfigurationLosesPort` shows what is lost.
- A closing brace where an attribute name may stand does not end the object; it is
  passed over (mjson.cpp:303-304), so a text that begins with an empty object is
  read as if the brace were not there: `EmptyObjectIsSkipped`.
- A string as long as its field is accepted and loses its last character, and one
  that is one shorter depends on a byte that the reader never writes:
  `StringIsHeldIff`.
- In the parser's states Startup and Shutdown frames pass without a session check
  (ParserImplementation.cpp:215-223, 244-251), so a message need not carry the id of
  the session that it is committed under.  `SessionIsolation` says which session that
  is: the one open after its frame.
- The frame that finds ring 1 drained in state Shutdown closes the session, and its
  messages are written to ring 1 all the same (ParserImplementation.cpp:245-249,
  109-137).  The first of them is still committed under the session; the others may
  get the next session, and its sequence number, although the frame carries the id of
  the closed one (`SecondMessageCrosses`).  `FrameStaysIff` is the exact condition.
- A frame moves the session even when its body is then rejected, since only ring 1 is
  rolled back (ParserImplementation.cpp:93, 164-165): `BodyDoesNotMatter`.
- SessionIdPrevious never holds a previous id: it is set from an id that has been
  cleared (ParserImplementation.cpp:217, 246-247), as `FramesDetermineSession` shows.
- A quoted value for an attribute that is no string is measured against the limit of
  the last string attribute before it, or 0, before its type is looked at
  (mjson.cpp:351-352, 446): `FaultIsReported` has both cases.
- A numbered escape in a JSON string is truncated to its low byte, and a low byte of
  0 ends the string (mjson.cpp:486-499): `NumberedEscapeIff`.

## Model

| member | source | states |
|---|---|---|
| Bytes.BigEndianInverse | InserterImplementation.cpp:255-257 | a field stored in network order reads back as the number stored, for every width and every number that fits |
| Bytes.LittleEndianInverse | RingFIFOBuffer.cpp:184 | a length stored byte by byte reads back as the length |
| RingFifoBuffer.NextPow2IsLeast | RingFIFOBuffer.cpp:6-14 | the ring's size is the least power of two that holds the request, and a whole number of lines if and only if the request is over 32 bytes |
| RingQueue.WriteIsEnqueue | RingFIFOBuffer.cpp:152-198 | an accepted write appends exactly the data to the queue, a refused one changes nothing at all, and neither changes the slack |
| RingQueue.ReadIsDequeue | RingFIFOBuffer.cpp:201-237 | a read removes the head of the queue and keeps the ring well formed; on an empty ring it changes nothing |
| RingQueue.RunIsFifo | RingFIFOBuffer.cpp:152-237 | for every series of reads and writes, with any lengths and any number of wraps: what was accepted is what was read followed by what still waits. This is about the queue that the ring stands for; that the bytes in the array are this queue is in the contracts of the methods Write and Read below |
| RingQueue.ByteAccounting | RingFIFOBuffer.cpp:158-192 | the byte counter is at least 64 times the record counter and at most the size; one counter is 0 if and only if the other is; an empty ring has equal indices |
| RingQueue.RunAccounting | RingFIFOBuffer.cpp:206-233 | in every run the byte counter is the bytes really occupied plus exactly the sizes of the records read across a skipped tail since the ring was last empty |
| RingQueue.AllAcceptedIff | RingFIFOBuffer.cpp:162-165 | a series of writes succeeds at the first attempt throughout if and only if its layout, skipped tails included, fits the free bytes |
| RingQueue.AlwaysAcceptedIff | RingFIFOBuffer.cpp:162-165 | every ring that any series of reads and writes reaches and that has a given number of bytes free takes a series at the first attempt, if and only if no record is empty and the sum of the aligned sizes plus the largest less one line is at most that number |
| RingQueue.EmptyRecordIsRefused | RingFIFOBuffer.cpp:156 | a series with an empty record never succeeds, whatever the ring holds |
| RingQueue.OneJumpLayout | RingFIFOBuffer.cpp:176-182 | a series no larger than the ring skips at most one tail, which costs at most the largest record less one line |
| RingQueue.NoRetryBound | ParserImplementation.cpp:133-136 | with the sum of the aligned sizes, plus the largest of them less one line, free, no write of the series is refused and at most one wraps |
| RingQueue.EmptyRingAccepts | RingFIFOBuffer.cpp:162-165 | an empty ring takes a record wherever its indices stand if and only if the record's aligned size is at most half the ring |
| RingQueue.WriteAllAppends | ParserImplementation.cpp:109-137 | an accepted series appends all its messages in order and is charged exactly its layout |
| RingFifoBuffer.HoldsUnique | RingFIFOBuffer.cpp:210-235 | the bytes of the ring determine the records: the same memory cannot hold two different queues of the same length |
| RingFifoBuffer.HoldsFrame | RingFIFOBuffer.cpp:176-187 | changing any bytes outside the span of a queue leaves every record of it intact |
| RingFifoBuffer.WriteTouchesFreeBytes | RingFIFOBuffer.cpp:176-185 | no byte of a live record or of a pending tail is overwritten by an accepted write or its jump marker |
| RingFifoBuffer.EndIsAhead | RingFIFOBuffer.cpp:186-187 | the write index is the read index moved by the span of the queue, around the ring |
| RingFifoBuffer.RingFifoBuffer.constructor | RingFIFOBuffer.cpp:40-72 | the ring starts empty at the rounded size |
| RingFifoBuffer.RingFifoBuffer.Snap | RingFIFOBuffer.cpp:123-134 | remembers the queue and counters of this moment and changes nothing else |
| RingFifoBuffer.RingFifoBuffer.Discard | RingFIFOBuffer.cpp:137-149 | after any number of writes since the snapshot, wrapping or not, the queue and counters are those of the snapshot and memory still holds that queue, though its bytes have changed |
| RingFifoBuffer.RingFifoBuffer.Write | RingFIFOBuffer.cpp:152-198 | memory, indices and counters implement the queue's write; the result tells whether the data was taken; a snapshot stays good |
| RingFifoBuffer.RingFifoBuffer.PutRecord | RingFIFOBuffer.cpp:176-185 | after the stores memory holds the old queue and the new record behind it |
| RingFifoBuffer.RingFifoBuffer.MarkJump | RingFIFOBuffer.cpp:177 | the length field at the write index reads 0 and no other byte changes |
| RingFifoBuffer.RingFifoBuffer.StoreRecord | RingFIFOBuffer.cpp:184-185 | the length field and the data read back, and no other byte changes |
| RingFifoBuffer.RingFifoBuffer.Read | RingFIFOBuffer.cpp:201-237 | returns the first record of the queue byte for byte, or length 0 when there is none, and removes it |
| RingFifoBuffer.RingFifoBuffer.LocateHead | RingFIFOBuffer.cpp:207-218 | a zero length field is found exactly where the head record skipped the tail, and the record is then at the start |
| RingFifoBuffer.RingFifoBuffer.GetCapacity | RingFIFOBuffer.cpp:240-247 | the size less the counted bytes; the slip counter counts the answers below 16384 |
| SharedLog.LinesAreLeast | InserterImplementation.cpp:196 | a record takes the least number of 64-byte lines that covers its 12-byte header and payload, between 1 and 1025 |
| SharedLog.LapEnds | InserterImplementation.cpp:192-201 | after a skip the next line is the first one of the ring |
| SharedLog.StepKeepsInv | InserterImplementation.cpp:192-280 | every single store of the writer, also between reserve, header, payload bytes and commit, keeps the invariant: lines in the window from Reserve - N to Commit hold what was committed, records never run over the ring's end, a skip ends exactly there, and the stored part of the pending entry is right |
| SharedLog.RunKeepsInv | InserterImplementation.cpp:175-285 | the invariant holds in every state of every interleaving of the writer with a reader |
| SharedLog.RunKeepsOrder | InserterImplementation.cpp:201-280 | in every state of every run Commit is at most Reserve |
| SharedLog.RunGrows | InserterImplementation.cpp:203-280 | along every run both counters only go up and committed entries and bytes are only added to |
| SharedLog.RunAppends | InserterImplementation.cpp:190-280 | in every state of every run the log holds the messages whose append has begun, in order, less the one in progress |
| SharedLog.ImageDecodes | InserterImplementation.cpp:213-216 | the header fields of records and skips decode to lines, bytes and sequence number; those of a skip other than its lines are 0 |
| SharedLog.WalkRoundTrip | InserterImplementation.cpp:213-260 | from any record boundary to any later one, walking the committed lines by Total Lines yields the messages between them, in order, with the skips dropped |
| SharedLog.WalkBySequenceIff | InserterImplementation.cpp:213 | a consumer that takes sequence number 0 for a skip sees every message if and only if none was stamped with 0 |
| SharedLog.HeldCopyIsCommitted | InserterImplementation.cpp:201-280 | a copy taken one byte at a time between any writer steps, and followed by a look at Reserve that still allows it, holds the committed bytes, and decodes to exactly the messages appended between its boundaries |
| Inserter.InterleavingFollowsRun | InserterImplementation.cpp:175-285 | however a reader's actions are interleaved with the inserter's recorded stores, shared memory goes through the states of the recorded run |
| Inserter.WriterGrows | InserterImplementation.cpp:203-280 | what is committed at any point of the inserter's run is a beginning of what is committed at its end |
| Inserter.Inserter.constructor | InserterImplementation.cpp:305-348 | empty log, both counters 0, no flags and session id 0 published |
| Inserter.Inserter.PublishReserve | InserterImplementation.cpp:240-249 | announcing the lines is one enabled step of the log and adds exactly the pending entry's lines |
| Inserter.Inserter.PublishCommit | InserterImplementation.cpp:260-280 | publishing is one enabled step that adds exactly the pending entry to the history |
| Inserter.Inserter.WriteSkip | InserterImplementation.cpp:201-237 | the skip section is reserve, the number of lines, ten zero bytes one by one, and commit, in this order, and its lines end the lap; fewer than 1025, so its 16-bit field is exact |
| Inserter.Inserter.WriteHeader | InserterImplementation.cpp:250-257 | three stores, in this order, of exactly the first 12 bytes of the record's image |
| Inserter.Inserter.CopyPayload | InserterImplementation.cpp:258 | the payload goes out byte by byte behind the header and stays inside the announced lines |
| Inserter.Inserter.WriteRecord | InserterImplementation.cpp:240-280 | reserve, stores, commit: the history grows by exactly the record |
| Inserter.Inserter.HandleSharedMemoryFrames | InserterImplementation.cpp:175-285 | appends exactly the message, after a skip if and only if the lap has too few lines; its stores are the steps of the log in program order; the current line and the remaining lines add up to N exactly when there was no skip |
| Inserter.Inserter.UpdateWriterFlags | InserterImplementation.cpp:139-169 | flags (3 without, 5 with a shutdown) and session id are stored together, and only when the flags differ from the previous ones |
| Inserter.Inserter.Iterate | InserterImplementation.cpp:395-429 | takes the head of ring 1, publishes, then appends the record without its length field, stamped with the common sequence number; the recorded stores and states of all earlier iterations stay the beginning of the record |
| FrameFormat.ScanTiles | ParserImplementation.cpp:109-163 | when the loop keeps its messages they are whole messages that cover what it ran over, and the final sum is right |
| FrameFormat.AcceptsExactlyTiled | ParserImplementation.cpp:95-163 | the loop keeps a frame if and only if its body can be cut into as many whole messages as its header counts, and what it keeps is that cut |
| FrameFormat.TilingIsUnique | ParserImplementation.cpp:97-156 | there is at most one such cut |
| FrameFormat.BeyondDoesNotMatter | ParserImplementation.cpp:109-163 | neither the decision nor the kept messages depend on what memory holds behind the received bytes, although the loop may look there |
| FrameFormat.StaysInsideIff | ParserImplementation.cpp:109-150 | the scan, when no write is refused, reads nothing outside the 16384-byte receive buffer if and only if the messages that it takes, the rejected last one included, end within it |
| FrameFormat.KeptFrameIsReadOnce | ParserImplementation.cpp:109-150 | from a frame that it keeps the scan reads exactly the bytes of the body |
| FrameFormat.CountTooHighStrays | ParserImplementation.cpp:109-138 | a frame of whole messages, fewer than its header counts, is read beyond its end by the length that stands there, out of the buffer if that is long enough |
| ParserModel.UpdateKeepsSession | ParserImplementation.cpp:203-256 | a frame that opens or matches a session leaves that session open; one of type 1 opens none, and shuts down the session that it matches; an open session is left exactly in Shutdown with ring 1 drained, whatever the frame; with the filter on only frames of the open session pass in Session; the parser's id and the common id agree while a session is open |
| ParserModel.FrameIsAtomic | ParserImplementation.cpp:95-175 | a frame leaves ring 1 and the sequence number unchanged, or appends exactly the tiling of its whole body in order and sets its sequence number |
| ParserModel.AcceptedIff | ParserImplementation.cpp:75-175 | short of spinning, a frame is accepted if and only if it has at least 36 bytes, a header of 18 and a message count that is not 0, carries the open session's id in state Session unless the filter is off, and its body can be tiled |
| ParserModel.BodyDoesNotMatter | ParserImplementation.cpp:93-166 | two frames with the same first 20 bytes leave the same parser state and common data but for the sequence number, whether their bodies are taken or rejected |
| ParserModel.SpinsIff | ParserImplementation.cpp:133-136 | a retry loop spins on a frame if and only if the layout of the messages it takes does not fit ring 1 |
| ParserModel.GateCoversFrame | ParserImplementation.cpp:48 | behind the 16384-byte gate a well-formed frame with a body of up to 7680 bytes never spins and wraps at most once |
| ParserModel.GateCoversBodyIff | ParserImplementation.cpp:48 | 7680 is the exact bound: for each body size that a packet can carry, the gate protects the parser from every well-formed frame with it, in every ring that a run reaches, if and only if the size is at most 7680 |
| ParserModel.GateIsSafeIff | ParserImplementation.cpp:48-136 | for every frame, well-formed or not: no ring that a run reaches and that is behind the gate makes it spin, if and only if the messages that the loop takes from it need at most 16384 bytes in their worst layout |
| ParserModel.GateIsTooLow | ParserImplementation.cpp:48 | with a well-formed frame of 299 messages of 30 bytes next and at least 16384, but fewer than 19136, bytes free, the gate lets the parser start and it spins |
| ParserModel.MalformedFrameSpins | ParserImplementation.cpp:109-136 | a frame whose first length field is 0xFFFF would be rejected, but spins whenever fewer than 65600 bytes are free |
| ParserModel.SmallFrameIsTiled | ParserImplementation.cpp:48 | such frames exist, for every type, session and sequence number |
| Parser.Parser.UpdateParserState | ParserImplementation.cpp:203-256 | fields, common flags and the discard flag follow the session machine; outside a session a frame of type 1 changes nothing; ring 1 is only looked at |
| Parser.Parser.WriteMessage | ParserImplementation.cpp:133-136 | a write of the loop continues the accepted series or is refused and the loop spins |
| Parser.Parser.TakeMessages | ParserImplementation.cpp:104-166 | from snapshot to rollback: ring 1 gets all messages of the scan or is as before; spins if and only if one write of the series is refused |
| Parser.Parser.IterateInternal | ParserImplementation.cpp:55-201 | takes one frame from ring 0 and does to parser, flags and ring 1 what the frame's outcome says |
| Parser.Parser.Iterate | ParserImplementation.cpp:46-53 | one parser step of the machine, gate included |
| Reassembly.PayloadCount | NetworkReceiverImplementationEFVI.cpp:237-253 | after every event the byte count is the last cumulative count less 42 |
| Reassembly.PayloadLength | NetworkReceiverImplementationEFVI.cpp:240-252 | the payload of the first k fragments is as long as the k-th cumulative count says |
| Reassembly.WholePacket | NetworkReceiverImplementationEFVI.cpp:207-280 | the events of one packet put exactly its payload, the concatenation of its fragments, into the ring and leave no packet in progress |
| Reassembly.PacketsAreGroups | NetworkReceiverImplementationEFVI.cpp:207-280 | from any packet in progress, the k-th packet completed is the concatenation of the fragments of one packet, never of two |
| Reassembly.PollSplit | NetworkReceiverImplementationEFVI.cpp:456-475 | a packet may be spread over any number of polls: two polls do what one poll of all their events would |
| Reassembly.EndsInProgress | NetworkReceiverImplementationEFVI.cpp:237-280 | the fragments that no packet has taken at the end of a poll are exactly those of the packet then in progress |
| Reassembly.FailsIff | NetworkReceiverImplementationEFVI.cpp:222-233 | a poll fails if and only if some event of it is of another kind, names a buffer that is not in the pool, or is a start while a packet is in progress or a continuation while none is, as the fragment before it says |
| Reassembly.HandledPartPolls | NetworkReceiverImplementationEFVI.cpp:462-474 | what a failing poll completes is what its events before the failing one complete |
| Reassembly.PolledPacketsAreGroups | NetworkReceiverImplementationEFVI.cpp:456-475 | for every poll, failing or not, with discards anywhere and from any packet in progress: its packets are the payloads of the groups that the handled fragments fall into, and the rest is the packet in progress |
| Reassembly.GroupsCoverEvents | NetworkReceiverImplementationEFVI.cpp:237-280 | no fragment is lost: the packets and the packet in progress are all fragments, in order |
| Reassembly.DiscardsDoNotMatter | NetworkReceiverImplementationEFVI.cpp:312-348 | discard events between fragments change neither the packets nor the packet in progress |
| Reassembly.PacketsFit | NetworkReceiverImplementationEFVI.cpp:237-253 | no completed packet is larger than the 9000-byte buffer |
| EfviReceiver.ConservedCounts | NetworkReceiverImplementationEFVI.cpp:101-203 | conservation makes the pool duplicate-free and disjoint from the buffers in use, and gives its length |
| EfviReceiver.EfviReceiver.constructor | NetworkReceiverImplementationEFVI.cpp:124-143 | start-up partitions the packet memory into the pool and the posted buffers, with none in flight |
| EfviReceiver.EfviReceiver.InitPktsMemory | NetworkReceiverImplementationEFVI.cpp:138-140 | every id is in the free list exactly once |
| EfviReceiver.EfviReceiver.ConfigBuffer | NetworkReceiverImplementationEFVI.cpp:102-121 | an id within the pool size becomes the head of the list, any other is refused |
| EfviReceiver.EfviReceiver.PktBufFree | NetworkReceiverImplementationEFVI.cpp:198-203 | the buffer goes from in flight to the head of the list, which stays acyclic and of the counted length |
| EfviReceiver.EfviReceiver.PostOne | NetworkReceiverImplementationEFVI.cpp:177-180 | the head of a list that is not empty goes to the hardware |
| EfviReceiver.EfviReceiver.RefillRxRing | NetworkReceiverImplementationEFVI.cpp:168-184 | ends; never pops an empty list; never overfills the receive ring; leaves at most one batch missing; conserves the buffers |
| EfviReceiver.EfviReceiver.AddFragment | NetworkReceiverImplementationEFVI.cpp:237-253 | the packet in progress gets the fragment's own bytes behind those it has, within the jumbo buffer |
| EfviReceiver.EfviReceiver.HandleRxEventAccept | NetworkReceiverImplementationEFVI.cpp:207-309 | fails exactly on a foreign buffer id or a fragment out of step, and then changes nothing; otherwise takes the fragment, writes a completed packet to ring 0 and frees the buffer |
| EfviReceiver.EfviReceiver.HandleRxEventDiscard | NetworkReceiverImplementationEFVI.cpp:312-348 | only frees the buffer |
| EfviReceiver.EfviReceiver.IterateInternal | NetworkReceiverImplementationEFVI.cpp:456-481 | handles the events up to the first failure; ring 0 gets exactly the packets completed by then, in order; without failure every buffer is accounted for and the ring is refilled |
| EfviReceiver.EfviReceiver.Iterate | NetworkReceiverImplementationEFVI.cpp:448-454 | polls only when ring 0 has 16384 bytes free; a failure ends the program's run flag |
| PipelineProofs.FrameKeepsSession | ParserImplementation.cpp:203-256 | a frame leaves the session as it is, opens one, or closes one; while ring 1 holds records the open session stays |
| PipelineProofs.InserterKeepsInv | UDPJubmoFrameReceiverImplementation.cpp:118 | the inserter keeps the invariant of the whole program and publishes the current session |
| PipelineProofs.ReceiverKeepsInv | UDPJubmoFrameReceiverImplementation.cpp:119 | so does the receiver, which leaves what is published current |
| PipelineProofs.ParserKeepsInv | UDPJubmoFrameReceiverImplementation.cpp:120 | so does the parser, given that what is published is current and nothing of a closed session waits: one parser step between two inserter steps |
| PipelineProofs.RunKeepsInv | UDPJubmoFrameReceiverImplementation.cpp:92-127 | every run that is not hung keeps the invariant: session, stream, publication and data flow |
| PipelineTheorems.EndToEnd | UDPJubmoFrameReceiverImplementation.cpp:92-127 | between any two iterations of any run, and after the commit of an iteration that then hangs: packets delivered are the frames taken and those in ring 0; each frame was taken as the tiling of its body or not at all; payloads committed, then ring 1 without the length fields, are the accepted messages in order and byte for byte |
| PipelineTheorems.LengthStoreIsExact | InserterImplementation.cpp:256 | the 16-bit length store never truncates, at the same points: each committed payload is as long as its message's own length field |
| PipelineTheorems.SessionIsolation | UDPJubmoFrameReceiverImplementation.cpp:115-124 | in every run, hung or not, each committed message of a frame after which a session is open was committed while shared memory showed that session's id, and so was the first message of a frame that closes its session; nothing is said of the other messages of a closing frame and of frames that come and go without a session |
| PipelineSessions.FrameStaysIff | ParserImplementation.cpp:244-251 | for a frame accepted while a session is open, with its id or another one, and with nothing behind it in ring 0: all its messages are committed under that session in every continuation of the run, if and only if the frame does not close it (state Shutdown, ring 1 drained) or has one message |
| PipelineSessions.SecondMessageCrosses | ParserImplementation.cpp:109-137 | a run, for any two session ids and sequence numbers: the last frame of one session closes it, and its second message is committed under the next session with the number of that session's first frame |
| PipelineTheorems.FilteredFramesAreTagged | ParserImplementation.cpp:225-237 | with the session filter on, a frame accepted in session carries the open session's id, and that session is open after it |
| PipelineTheorems.SessionInvariants | ParserImplementation.cpp:214-252 | in every run the parser is outside Startup if and only if a session id counts as received; its id then is the common one and no shutdown is flagged; nothing is committed or published before a session was opened |
| PipelineTheorems.PublishedIsCurrent | InserterImplementation.cpp:139-169 | in every run, after every inserter iteration shared memory shows the current session id and the current flags, 3 if a session is open and 5 if not, although both are stored only when the flags change |
| PipelineTheorems.RecordsFitBuffers | NetworkReceiverImplementationEFVI.cpp:243-252 | in every run with packets of jumbo size no record of either ring is larger than a stage's buffer |
| PipelineLaws.FramesDetermineSession | ParserImplementation.cpp:75-93 | in every run, for every frame taken, rejected ones included: without the right header it leaves the session; outside a session it opens its own unless it is of type 1; in a session it closes it if a frame of type 1 with the session's id has come since it was opened and every message has been committed. Parser state, ids and flags are what these frames determine |
| PipelineLaws.FrameDoes | ParserImplementation.cpp:203-256 | what any one frame, taken or rejected, makes of the parser's state and the shared flags, case by case from its header, its type and its id |
| PipelineLaws.PublishedFollowsFrames | InserterImplementation.cpp:139-169 | in every run, whenever the inserter has run, shared memory shows 3 or 5 as the frames taken leave a session open or not, and the id of the session opened last |
| PipelineLaws.RunObeys | UDPJubmoFrameReceiverImplementation.cpp:92-127 | every iteration of every run changes the run flag, the filter and the stream exactly as the signal, the failure of a poll and the key say; one that does not get to the receiver does nothing else; one that is stopped before its parser takes no frame |
| PipelineLaws.RunsUntilStopped | UDPJubmoFrameReceiverImplementation.cpp:92-127 | the run flag is set if and only if no iteration so far was stopped by the signal or a failing poll |
| PipelineLaws.StoppedIsFinal | UDPJubmoFrameReceiverImplementation.cpp:92-127 | once the flag is cleared no further iteration takes, writes, commits or publishes anything |
| PipelineLaws.FilterIsToggled | UDPJubmoFrameReceiverImplementation.cpp:97 | in every run the session filter is off if and only if its key was handled an odd number of times |
| PipelineLaws.SkipsAreNeeded | InserterImplementation.cpp:192-237 | in every run a skip is written only where the next message with its 12 header bytes does not fit into the 64-byte lines that are left, and it covers exactly these |
| PipelineTheorems.SmallBodiesAreSafe | ParserImplementation.cpp:48 | packets that are no message frames, and well-formed frames with bodies of up to 7680 bytes, are safe |
| PipelineTheorems.SafeTrafficNeverHangs | ParserImplementation.cpp:133-136 | no retry loop ever spins, in any run, when no packet is empty, every frame is one that the gate protects from, and no poll brings more than the receiver's gate covers |
| PipelineHangs.EmptyPacketHangs | NetworkReceiverImplementationEFVI.cpp:268-276 | whenever the receiver polls and completes an empty packet, it never returns |
| PipelineHangs.BareHeaderHangs | NetworkReceiverImplementationEFVI.cpp:237-276 | the first datagram of a run makes the receiver spin if and only if it has no byte behind the 42 of the headers, and the first iteration then never ends |
| PipelineHangs.StreamHangs | ParserImplementation.cpp:48 | with 2 MiB rings and one well-formed frame of 299 messages in each iteration, of any session, the 112th iteration starts with 18304 bytes free and never ends, and no earlier one hangs |
| PipelineHangs.MalformedFrameHangs | ParserImplementation.cpp:109-136 | after 109 such iterations a malformed frame of 36 bytes hangs the program |
| PipelineHangs.FullPollsHang | NetworkReceiverImplementationEFVI.cpp:268-276 | with 32 packets of 957 to 1020 bytes in each poll, none a message frame, the 81st poll starts with the 16384 bytes free that the gate asks for and never ends, and no earlier iteration hangs |
| PipelineSequence.RunIsStamped | InserterImplementation.cpp:187 | in every run each committed record carries the number of the last frame accepted before its commit, which is its own frame or a later one; the common number is that of the last accepted frame |
| PipelineSequence.NumberedFramesNumberRecords | InserterImplementation.cpp:213 | in every run, if no accepted frame carries 0, no committed record does |
| PipelineSequence.FirstRecordIsStamped | InserterImplementation.cpp:187 | a run of four iterations that commits one record with the number of its frame, whatever it is |
| PipelineSequence.ZeroFrameIsMissed | InserterImplementation.cpp:213 | so with frames numbered 0 a committed record is missed by a consumer that takes 0 for a skip |
| RunLoop.RunLoop.Initialize | UDPJubmoFrameReceiverImplementation.cpp:19-90 | the objects start where the empty run of the machine is |
| RunLoop.RunLoop.RunInserter | UDPJubmoFrameReceiverImplementation.cpp:118 | the inserter object takes the machine's inserter stage |
| RunLoop.RunLoop.RunReceiver | UDPJubmoFrameReceiverImplementation.cpp:99 | the receiver object takes the machine's receiver stage on the packets that the events amount to |
| RunLoop.RunLoop.RunParser | UDPJubmoFrameReceiverImplementation.cpp:101 | the parser object takes the machine's parser stage |
| RunLoop.RunLoop.WaitForSessionIteration | UDPJubmoFrameReceiverImplementation.cpp:96-102 | keyboard, receiver, parser, with the signal anywhere between, is the machine's waiting iteration |
| RunLoop.RunLoop.InSessionIteration | UDPJubmoFrameReceiverImplementation.cpp:117-122 | inserter, receiver, parser, keyboard is the machine's iteration in session |
| RunLoop.RunLoop.Iterate | UDPJubmoFrameReceiverImplementation.cpp:92-127 | one call is one iteration of the machine and leads the objects from one run to the run one input longer, so every theorem about runs holds of the objects; no stage is ever called outside its precondition; the events handled grow by exactly those of the poll, if there is one; recorded stores stay recorded |
| RunLoop.RunLoop.DeliveredArePackets | NetworkReceiverImplementationEFVI.cpp:207-280 | at any time, over all polls: the packets delivered, which are the frames taken and those in ring 0, are the payloads of the groups that all handled fragments fall into, each of one packet only, and the rest is the packet in progress |
| RunLoop.RunLoop.SafeIterationEnds | ParserImplementation.cpp:133-136 | on safe traffic the next call ends |
| RunLoop.RunLoop.ConsumersReadAcceptedMessages | InserterImplementation.cpp:175-285 | whatever a consumer decodes from a checked copy, in any interleaving with the inserter's stores since the start, is a stretch of the accepted messages, in order, none missing, byte for byte |
| RunLoop.RunLoop.ConsumersMayTakeZeroForSkip | InserterImplementation.cpp:213 | as long as no accepted frame carries 0, a consumer that takes sequence number 0 for a skip decodes the same messages |
| JsonModel.Step | mjson.cpp:276-729 | every turn of the loop goes forward or un-reads a token's end once, keeps the name within 30 and the value within 512 characters, and keeps every target's type and size: the reader stops on every text |
| JsonModel.LastByteIsKept | mjson.cpp:661-674 | on every text, a string target is written in its first len - 1 bytes only |
| JsonRoundTrip.AtoiDecimal | mjson.cpp:630 | every 32-bit integer survives printing and conversion |
| JsonRoundTrip.NumberIsRead | mjson.cpp:630 | any sign, any digits, leading zeros included, and anything behind them: the value by place, or beyond 32 bits the low 32 bits of the 64-bit value |
| JsonRoundTrip.NumeralIsTrueIff | mjson.cpp:678-682 | a truth value written as a decimal, octal or hexadecimal number is false if and only if all its digits are 0 |
| JsonRoundTrip.RoundTrip | mjson.cpp:276-745 | a printed configuration, in any order and with any of the six white space characters between its parts, its characters spelled in any way and truth values written as words or numbers, is accepted if and only if every string fits the reader's limit, and is then stored as it is; numbered escapes are those below 256 |
| JsonRoundTrip.NumberedEscapeIff | mjson.cpp:486-499 | a numbered escape is read as its character if and only if the number is below 256; a low byte of 0 ends the string |
| JsonRoundTrip.FirstSuitable | mjson.cpp:554-585 | among adjacent entries of one name a value goes to the first that suits it (a number that is not negative also a truth value), or to the last |
| JsonRoundTrip.ConfigurationIsRead | InputArguments.cpp:31-58 | with no attribute named twice, each named target holds its value, number by number and byte by byte, and each other one 0, false or the empty string |
| JsonRoundTrip.StringIsHeldIff | mjson.cpp:668-672 | an accepted string reads back from its target if and only if it is shorter than the target and, when only one shorter, the target's last byte was NUL already |
| JsonTruncation.CutIff | mjson.cpp:730-744 | for every text and every cut: the cut text is accepted exactly when the reader had closed the object before the cut, or stands at the cut between two turns of its loop, and what the targets then hold |
| JsonTruncation.PrintedCutIff | mjson.cpp:730-744 | a configuration cut anywhere is accepted if and only if the cut is behind the opening brace and neither in white space after a value (one blank after a token does no harm) nor in a numbered escape behind its u; the targets hold the items that were complete and the defaults of the others |
| JsonTruncation.EmptyObjectIsSkipped | mjson.cpp:303-304 | a text that begins with an empty object is read exactly as if the closing braces and blanks were not there |
| JsonTruncation.TruncationIsSilent | mjson.cpp:730-733 | an accepted text without white space and reverse solidus is still accepted when cut anywhere after its first character |
| JsonFaults.FaultIsReported | mjson.cpp:296-727 | after any items that are right, each fault gives its own status, whatever follows: no name 2, unknown name 3, name over 30 characters 4, array or object 5, string too long 7, token over 512 characters 8, no comma or brace 9, broken numbered escape 15, quoted value for no string 19, bare value for a string 20; the targets hold the items before it |
| JsonFaults.NoObjectIsReported | mjson.cpp:281-294 | a text that does not begin with a brace gives 1, one of white space only 25, and both leave the defaults |
| JsonFaults.TextBehindIsIgnored | mjson.cpp:717-719 | what stands behind the closing brace changes nothing |
| JsonReader.JsonReader.StuffDefaults | mjson.cpp:220-271 | every target gets its default and keeps its size |
| JsonReader.JsonReader.FindAttr | mjson.cpp:325-339 | the first entry of the table with the collected name, or none |
| JsonReader.JsonReader.ReadHex | mjson.cpp:486-499 | four digits are found exactly when four stand there, and give the low byte of their value |
| JsonReader.JsonReader.OnInAttr | mjson.cpp:314-372 | collects, looks up or refuses a name without leaving the 32-byte buffer |
| JsonReader.JsonReader.OnInString | mjson.cpp:433-455 | collects or refuses a character without leaving the 513-byte buffer |
| JsonReader.JsonReader.OnInEscape | mjson.cpp:456-506 | so for escapes |
| JsonReader.JsonReader.OnInToken | mjson.cpp:507-531 | so for tokens; a comma or brace is looked at again |
| JsonReader.JsonReader.SeekType | mjson.cpp:554-585 | the next adjacent entry of the same name whose type fits |
| JsonReader.JsonReader.StoreValue | mjson.cpp:627-710 | only the target under the cursor changes, to the converted value |
| JsonReader.JsonReader.OnPostVal | mjson.cpp:532-727 | checks, stores, and goes on or ends as the character behind the value says |
| JsonReader.JsonReader.ReadObject | mjson.cpp:181-745 | the loop ends on every text, with the status and the targets that the step function gives |
| InputArguments.ArgumentsAreFlat | InputArguments.cpp:31-56 | the program's own table meets the conditions of the round trip |
| InputArguments.Resolved | InputArguments.cpp:59 | the dump as text is on if and only if it was and the one in hexadecimal is not; no other parameter changes |
| InputArguments.ArgumentsAreParameters | InputArguments.cpp:31-56 | the table has exactly the ten parameters, with their names, kinds and sizes |
| InputArguments.ParametersAreRead | InputArguments.cpp:11-59 | from the text to the program: each parameter that a configuration names has its value and each other one its default, only the dump as text gives way to the one in hexadecimal |
| InputArguments.CutConfigurationLosesPort | InputArguments.cpp:31-58 | for every port: a configuration of the port alone, without its closing brace, is accepted and leaves the port 0; with it the port is read |
| InputArguments.InputArguments.ReadParameters | InputArguments.cpp:11-68 | the parameters are those of the text, or their defaults |

## Left out

- The ef_vi library, sockets, multicast membership, DMA registration: replaced by the events it hands back and the multiset of posted buffers; a poll may hand back any number of events, not only 32.
- mmap, shmget, files, processor pinning, chown: foreign calls without effect on the properties.
- The timing flag (8 extra bytes per record, Tsc, Percentile): taken as clear.
- Logging, dumps, prints, statistics counters (processed, parsed, rejected, minima and maxima): no effect on behaviour; so frames of exactly 18 bytes and other short frames are both ignored.
- The heartbeat and MaxSequence fields of the control block: driven by the wall clock, and not initialised before the first message.
- Changes of the connected flag after start-up, initialization errors and teardown: only the successful start is modelled.
- Keys other than the one that toggles the session filter: they change only what is printed, or the timing flag.
- Weak memory: stores are sequentially consistent, as the code is for x86_64 with its seq_cst and release stores.
- SharedLog.Apply: Commit and Reserve are unbounded instead of 64 bits wide; N is any number of lines of at least 1025.
- Inserter.Inserter.UpdateWriterFlags: the flag store and the session id store are one step; a reader of the control block that looks between them sees the new flags with the old id.
- RingFifoBuffer.RingFifoBuffer.Write: data longer than 2^31 - 129 bytes, whose aligned length may leave the range of int.
- RingFifoBuffer.RingFifoBuffer.constructor: ring requests of at most 32 bytes or above 2^30 bytes; the program asks for 2 MiB.
- EfviReceiver.EfviReceiver.Iterate: the hardware keeps its limits (growing counts, at most 7 fragments, 9000 bytes) and hands back only buffers it holds; the code does not check either.
- EfviReceiver.EfviReceiver.IterateInternal: the same.
- EfviReceiver.EfviReceiver.HandleRxEventAccept: the same for its one event.
- EfviReceiver.EfviReceiver.AddFragment: a fragment beyond seven, or beyond 9000 bytes in all, which the code would store outside its arrays.
- EfviReceiver.EfviReceiver.HandleRxEventDiscard: an id that no buffer in flight has; for one outside the pool the code would use a null pointer.
- EfviReceiver.EfviReceiver.ConfigBuffer: a number that is in the list already, which would close the list into a cycle; start-up uses each number once.
- RunLoop.RunLoop.Initialize: start-ups in which a part fails to initialize; the loop then does nothing.
- PipelineTheorems.EndToEnd: speaks of runs that are not hung; that every run makes progress is not guaranteed by the code, and is shown only for safe traffic.
- PipelineSessions.FrameStaysIff: with frames waiting in ring 0 behind the one that closes a session, whether a message crosses depends on those frames; then only SessionIsolation speaks of it.
- mjson arrays, nested objects, enumerations, checks, reals, times, characters and unsigned or short integers: the program's table has none of them.
- JsonModel.Atoi: outside the range of int the C library leaves the result open; the model takes the common one, the 64-bit limit and then the low 32 bits.
- JsonReader.JsonReader.StoreValue: a target is a value in an array of targets, so two attributes that share memory are not modelled.
- InputArguments: reading the file (4095 bytes at most) and the command line; the text is a parameter, and the status goes to a caller that does not look at it (UDPJubmoFrameReceiverImplementation.cpp:29).
