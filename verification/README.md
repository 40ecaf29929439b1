# NCM driver data path: a verified model

The drivers in this repository move Ethernet frames over USB in NCM transfer blocks. This project
models, in Dafny, the code in which a mistake would lose, reorder or corrupt frames, and proves what
that code keeps. `dafny verify dfyconfig.toml` checks all of it.

The model has three layers.

* **The block codec** (`common/ntb.cpp`). `NtbFormat`, `NtbBuilder`, `NtbParser` and `NtbCursor` say what
  the builder and the parser compute, for both wire widths at once; `TransferBlocks.TransferBlock` is the
  object that does it in place, field by field, and is proved against them. `NtbRoundTrip` proves that a
  finished block decodes to its packets. `NtbWire` says what the bytes of a block are and which bytes the
  parser accepts. `NtbLimits` collects the inputs on which a promise fails,
  with the exact condition for each.
* **The data path over the rings** (`inc/ncmringiterator.h`, `adapter/txqueue.cpp`,
  `adapter/rxqueue.cpp`). `Rings` has the masked index arithmetic, the iterators and the gather copy.
  `TxQueues.TxQueue.Advance` packs a packet ring into blocks; `RxQueues.RxQueue.Advance` unpacks, filters and
  delivers, and picks up in the middle of a block on the next call; `TxQueues.TxQueue.Serve` and
  `RxQueues.RxQueue.Serve` run them under any schedule of arrivals, ring contents and calls. `TxLog` and
  `RxFrames` say what a call did, and `EndToEnd` joins the two driver objects.
* **Ownership and life cycle** (`common/buffers.cpp`, `function/device.cpp`, `adapter/rxqueue.h`).
  `Transmission` is the step system of requests, completions and rundown protection;
  `DeviceLifecycle` and `FunctionDevices.FunctionDevice` are the bus events and setup packets;
  `ReceiveNotification` is the wake-up exchange. `Mac` has the address text and number conversions.

## What the code needs from its surroundings

These are preconditions of the members below, or conditions in their statements.

* Divisor and table alignment are powers of two. `ALIGN_UP_BY` is not part of the repository; it is modelled
  as the masked form `(x + a - 1) & ~(a - 1)`. Ring sizes are powers of two, at most 2^32;
  `NetRingAdvanceIndex` and `NetRingGetRangeCount` are modelled as masked 32-bit sums and differences,
  like inc/ncmringiterator.h:77.
* `size_t` is wide enough for sums of offsets and lengths. Received buffers are shorter than
  2^32 - 2^16, so that the 32-bit sum at common/ntb.cpp:379 does not wrap.
* `SetNdp` can write one entry beyond the length the builder was told, and for 32-bit blocks the parser can
  read four bytes beyond the received length. The arrays of the model have that room, so that these
  accesses stay visible: `FinishedFitsIff` and `ScanStaysInTableIff` say when they do not happen.
* The packet decodes only if it is not empty, since a zero length reads as the terminator, and if the two
  length fields of its block can hold their values. Both are conditions in `RoundTrip`, `HandedDecodes` and
  `Legible`, where they are conditions on the sizes of the packets. The drivers' failing assertions stop
  the machine; the model has them as outcomes (`Halted`, `halted`) and says exactly when they occur
  (`HaltsIff`) instead of excluding them.
* A received block's table chain ends, and no table but the first is empty (`Tame`). Without the second the
  parser returns the terminator as a datagram and then reads on behind the table (`ReturnedSliceValidIff`,
  `CountKeptIff`, `AlwaysBoundedIff`, `PastTheCount`, `EmptyLaterTable`). Without the first the receive loop
  may never come to an end (`LoopNeverEnds`), and `LoopEndsIff` says when it does. Whether a chain ends is decided within as
  many tables as the block has bytes (`ChainEndsIff`).
* Received fragments can hold the largest frame, and there is a packet for every owned fragment.
* The USB stack completes a request once, and only one that it accepted. The adapter is destroyed after its
  queues were stopped and while Advance is not running.

## Where the code and its intentions differ

* The copy reserves room for the table without its terminator (common/ntb.cpp:191-192, 232):
  `FinishedBlockOverruns`, `FinishedFitsIff`.
* A host may choose an input size from 2048 bytes up (function/device.cpp:691), while the adapter offers datagrams of
  up to 9014 bytes (function/device.cpp:969): any packet that fits no empty block fails the assertion at
  common/ntb.cpp:218 and stops the machine (`SmallBufferHaltsIff`, `HaltsIff`).
* The block length is cast to the pointer width and the table length to 16 bits (common/ntb.cpp:236, 249). With the
  function driver's own defaults, 16-bit blocks of up to 64 KiB, eight packets can fill a block so that
  the stored length is zero, and the assertion at function/device.cpp:1159 fails (`BlockLengthVanishes`,
  `JumboPacketsHalt`). The host driver takes capacity and datagram limit from the device as they are
  (host/device.cpp:213-216), so longer blocks and longer tables occur as well (`TableLengthVanishes`). The
  transfer is the whole block exactly when neither field is truncated (`TransferWholeIff`); if one is, and the
  table's offset still fits its field, the receiver finds no datagram (`TransferDecodesIff`).
* A block that declares no length is meant to take the buffer's, at most the largest a pointer can hold, but the
  buffer's length is cast before the minimum is taken (common/ntb.cpp:315-317): `UndeclaredLengthIff`,
  `UndeclaredFullBuffer`.
* A 32-bit table length need only be a multiple of 4 (common/ntb.cpp:378), so what a block says can depend on
  the memory behind it: `ScanLeavesTable`, `ScanStaysInTableIff`.
* A buffer handed over by a continuous request target belongs to the adapter from then on (function/device.cpp:933), but
  when no record can be had for it nobody keeps it (common/buffers.cpp:191-227, adapter/adapter.cpp:294-299). It is
  released in the end if and only if it was stored: `Receive` and `Serve` record its claim exactly then, and only
  recorded claims are released (`GetNextFrame`, `ReturnBuffer`).
* A new input size chosen while an adapter is live is lost, the block format falls back to 16 bit, and the
  adapter runs at alternate setting 0 (function/device.cpp:694-702, 1017-1021): `SizeHonouredIff`,
  `FormatSurvivesIff`, `SizeChangeLosesFormat`. The next selection of setting 1 then fails an assertion (`SizeChangeThenSelectHalts`), and a
  change of the block format is accepted although the adapter keeps the old one (`FormatAgreesIff`,
  `SizeChangeThenFormatDisagrees`). The comment there says only that buffers have to be reallocated.

## Model

| member | source | states |
|---|---|---|
| Bits.AlignUpByIsRoundUp | common/ntb.cpp:175-185 | the masked alignment is the arithmetic round-up, for every power of two |
| Bits.MaskedIndexIsMod | inc/ncmringiterator.h:77 | a masked 32-bit index is the index modulo the ring size, even when the 32-bit sum wrapped |
| Rings.AdvanceIndex | inc/ncmringiterator.h:179-182 | the masked sum is the index n steps on around the ring |
| Rings.RangeCount | inc/ncmringiterator.h:194 | the masked difference is the number of steps from one index to the other |
| Rings.MaskedDifference | inc/ncmringiterator.h:77 | the same when the difference went below zero and wrapped around 2^32 |
| Rings.TilesSplits | inc/ncmringiterator.h:196-206 | packets whose fragment ranges tile the ring: dropping the first ones moves the start by exactly the sum of their counts, to where the last one's range ends, and the rest still tiles |
| Rings.PacketIterator.Set | inc/ncmringiterator.h:189-211 | the packet ring moves to the iterator, the fragment ring to the end of the last iterated packet's range, and nothing moves when nothing was iterated |
| Rings.PacketIterator.GetFragmentIterator | inc/ncmringiterator.h:174-185 | the iterator visits exactly the packet's fragments, across the end of the ring |
| Rings.PacketIterator.GetPacketDataLength | inc/ncmringiterator.h:257-270 | the length of the concatenation of the packet's valid bytes |
| Rings.PacketIterator.CopyPacketDataToBuffer | inc/ncmringiterator.h:274-299 | gather copy: writes the first min(length, total) bytes of that concatenation at the destination, nothing else, and returns their number |
| Rings.PacketByte | inc/ncmringiterator.h:274-299 | each byte of a packet, by number: byte k of fragment j is the one k places behind that fragment's offset in its memory, after all bytes of the fragments before it |
| Rings.OsQueue.ReturnAll | inc/ncmringiterator.h:238-253 | marks exactly the owned packets and gives both rings back |
| NtbFormat.NthReadsBack | inc/ncm.h:45-61 | the little-endian header fields read back what the casts left, both widths |
| NtbFormat.TableReadsBack | inc/ncm.h:63-73 | slot i of a table image reads back entry i, up to the casts |
| NtbBuilder.OffsetIsCongruent | common/ntb.cpp:168-178 | offset + 14 of a datagram is congruent to the remainder modulo the divisor |
| NtbBuilder.CopyKeeps | common/ntb.cpp:157-210 | an accepted copy keeps the place and bytes of every earlier datagram, adds its own after them, and the table still fits |
| NtbBuilder.FillHolds | common/ntb.cpp:157-210 | the layout invariant over any run of copies and any initial buffer: ordered, disjoint, aligned, behind the header, holding their packets |
| NtbBuilder.FillSizes | common/ntb.cpp:157-210 | whether a run of copies is accepted, and where it ends, is decided by the packets' sizes alone, copy by copy |
| NtbBuilder.FinishedSizeBound | common/ntb.cpp:191-232 | the finished block is one entry longer than what the copies reserved, so at most one entry longer than the buffer |
| NtbBuilder.FinishedFitsIff | common/ntb.cpp:191-232 | it fits the buffer if and only if the last check would have passed with one more entry |
| NtbRoundTrip.TransferWholeIff | common/ntb.cpp:232-252 | for every capacity: the transfer is the whole finished block if and only if neither length field is truncated |
| NtbRoundTrip.FinishWrites | common/ntb.cpp:214-253 | header, table header and table as SetNdp leaves them, each written over by none of the others |
| NtbRoundTrip.FinishKeepsDatagrams | common/ntb.cpp:214-253 | SetNdp keeps every datagram's bytes, all of which lie before the table |
| NtbRoundTrip.RoundTrip | common/ntb.cpp:155-421 | decoding the finished block gives exactly the packets in order, for any initial buffer and any bytes behind the block |
| NtbRoundTrip.ParserReturnsPackets | common/ntb.cpp:257-280 | the parser's k-th call on a finished block returns packet k, and every later call reports no more entries |
| NtbWire.HeaderBytes | common/ntb.cpp:244-248 | the first eight bytes of a block: NCMH or ncmh, the header length, and the sequence number low byte first |
| NtbWire.TableBytes16 | common/ntb.cpp:225-252 | the other header fields of a 16-bit block, and the table at the offset they name: NCM0, its length, no successor, aligned and the next such place behind the datagrams |
| NtbWire.TableBytes32 | common/ntb.cpp:225-252 | the same for a 32-bit block, ncm0 |
| NtbWire.EntryBytes | common/ntb.cpp:203-204 | entry i of the table is offset and length of datagram i in bytes, and zeros follow the last one |
| NtbWire.CopyIff | common/ntb.cpp:161-207 | in plain arithmetic: when a copy is accepted, and where the datagram goes |
| NtbWire.EndsAtLast | common/ntb.cpp:207 | the first datagram is placed behind the header's 12 or 16 bytes, each later one behind its predecessor |
| NtbWire.ParsedTableOffset | common/ntb.cpp:225-250 | the table offset a receiver parses is a multiple of the alignment, the next one behind the datagrams |
| NtbWire.WireBytes | common/ntb.cpp:246-248 | a transfer that went out whole starts with those eight bytes |
| NtbWire.WireNumbers | common/ntb.cpp:341 | bytes 6 and 7 of the transfers of a log are the consecutive sequence numbers |
| NtbWire.Header16Iff | common/ntb.cpp:296-320 | exactly which bytes are accepted as a 16-bit header, with which block length and table offset |
| NtbWire.Header32Iff | common/ntb.cpp:296-320 | the same for 32 bits |
| NtbWire.Table16Iff | common/ntb.cpp:364-416 | exactly which bytes are accepted as a 16-bit table, with which entries and successor; everything else, checksummed tables included, is rejected |
| NtbWire.Table32Iff | common/ntb.cpp:364-416 | the same for 32 bits |
| NtbParser.ScanIff | common/ntb.cpp:391-416 | the scan accepts exactly the tables whose entries up to the first null one are valid, and yields those |
| NtbParser.ScanReads | common/ntb.cpp:395-416 | how many slots the scan reads: one more than it finds entries when it accepts, else up to an entry outside the block or to the end of the table |
| NtbParser.ChainEndsIff | common/ntb.cpp:350-421 | a chain of tables ends if and only if it ends within as many tables as the block has bytes |
| NtbParser.NothingNew | common/ntb.cpp:401-405 | a chain that goes round has no datagrams but those of as many tables as the block has bytes |
| NtbParser.StreamUnrolls | common/ntb.cpp:401-405 | the datagrams of a chain are its first table's, then those of the rest |
| NtbCursor.CallsFollowStream | common/ntb.cpp:257-421 | parser refinement over any number of calls, also for cyclic chains: call k returns datagram k of the chain, or fails with the status of the place where the chain stops; a rejected table contributes nothing |
| NtbCursor.NextNdpEffects | common/ntb.cpp:350-421 | status and state after moving on, at the end of the chain, at a rejected table and at an accepted one |
| NtbCursor.FailureIsFinal | common/ntb.cpp:356-389 | once a call has failed every later call fails with the same status |
| NtbCursor.ReturnedSliceValidIff | common/ntb.cpp:262-277 | a returned slice is non-empty and inside the block if and only if the call did not just move to an empty table |
| NtbCursor.CountKeptIff | common/ntb.cpp:262-277 | a call that succeeds leaves the entry index within the count if and only if it did not just move to an empty table |
| NtbCursor.AlwaysBoundedIff | common/ntb.cpp:262-277 | over any number of calls the index stays within the count if and only if no table still ahead in the chain is empty |
| NtbCursor.PastTheCount | common/ntb.cpp:262-277 | past the count every call succeeds and returns the next bytes behind the table as an entry, until the memory ends |
| NtbLimits.FinishedBlockOverruns | common/ntb.cpp:191-232 | in a buffer of 2048 bytes, both widths: the longest packet that is accepted makes a block one entry longer than the buffer |
| NtbLimits.FitsIn2048Iff | common/ntb.cpp:161-197 | the longest packet that fits an empty block in that buffer |
| NtbLimits.SmallBufferHaltsIff | common/ntb.cpp:218 | with that buffer the first assertion fails on exactly the longer packets |
| NtbLimits.BlockLengthVanishes | common/ntb.cpp:249-252 | seven packets of 9014 bytes and one of 2366 fill a 16-bit block of 64 KiB, whose length is stored as 0 |
| NtbLimits.JumboPacketsHalt | function/device.cpp:1159 | on these packets the machine halts unless sending is cancelled, and that event can happen |
| NtbLimits.TableLengthVanishes | common/ntb.cpp:232-236 | 8189 packets of 62 bytes make a 32-bit table whose length is stored as 0, and the transfer ends where the table starts |
| NtbLimits.TransferDecodesIff | common/ntb.cpp:236-252 | for every capacity, while the table's offset fits its field: the transfer decodes to the packets if neither length field was truncated, and to nothing otherwise |
| NtbLimits.SmallBufferFields | common/ntb.cpp:236-252 | for buffers up to 64 KiB the offset always fits, and the fields hold if and only if the finished block is shorter than the length field can say |
| NtbLimits.UndeclaredLengthIff | common/ntb.cpp:309-318 | an undeclared length becomes the intended minimum if and only if the buffer's length survives the cast, or ends in ones |
| NtbLimits.UndeclaredFullBuffer | common/ntb.cpp:309-318 | an undeclared 16-bit block in a buffer of 64 KiB has no datagrams |
| NtbLimits.ScanStaysInTableIff | common/ntb.cpp:377-397 | the scan reads only bytes of its table if and only if the table length is a multiple of the entry size or a full entry stops it |
| NtbLimits.ScanLeavesTable | common/ntb.cpp:377-416 | a well-formed 32-bit block with a table of 36 bytes of which 40 are read: the same block has two datagrams or is rejected, depending on the bytes behind it |
| NtbLimits.EmptyLaterTable | common/ntb.cpp:262-277 | an accepted block with an empty second table: the terminator is returned as a datagram, the index passes the count, and the fourth call reads behind the block |
| NtbLimits.LoopNeverEnds | adapter/rxqueue.cpp:179-249 | a 28-byte block, accepted and with no empty table, whose table leads back to itself: the receive loop never ends on it, whatever the filter |
| TransferBlocks.TransferBlock.constructor | common/ntb.cpp:92-126 | the fixed parameters and a table of one entry more than the datagram limit, all terminators |
| TransferBlocks.TransferBlock.PrepareToConstruct | common/ntb.cpp:333-347 | an empty block over the given buffer, the next 16-bit sequence number, a cleared table |
| TransferBlocks.TransferBlock.CopyNextDatagram | common/ntb.cpp:157-210 | writes in place what Copy says, with the gathered packet data, or changes nothing and reports that the buffer is too small; behind the stored pointers the table stays terminators |
| TransferBlocks.TransferBlock.SetNdp | common/ntb.cpp:214-253 | the buffer becomes Finish of the state before, and the transfer length is the stored block length |
| TransferBlocks.TransferBlock.GetNextNdp | common/ntb.cpp:350-421 | status and parser state as NextNdp says, masked tests included |
| TransferBlocks.TransferBlock.ScanTable | common/ntb.cpp:391-420 | the loop accepts what Scan accepts, with its number of entries, and reads as many slots as SlotsRead says |
| TransferBlocks.TransferBlock.PrepareToParse | common/ntb.cpp:286-329 | the header checks, the block length (never above the buffer's; the cast buffer length if undeclared) and the first table |
| TransferBlocks.TransferBlock.ReInitializeBuffer | common/ntb.cpp:130-153 | both directions from a cleared state |
| TransferBlocks.TransferBlock.GetNextDatagram | common/ntb.cpp:257-280 | reply and parser state as NextDatagram says, in any state in which the slot to be read is in the memory, past the count as well |
| Buffers.RequestPool.GetBufferRequest | common/buffers.cpp:98-108 | first in first out; nothing when the pool is empty |
| Buffers.RequestPool.ReturnBufferRequest | common/buffers.cpp:112-130 | the request joins the queue with its transfer length reset |
| Buffers.PaddingAvoidsMultiples | host/device.cpp:902-914 | for packet sizes above 1 the padded transfer is no multiple, unless the buffer was full |
| Buffers.PaddedIff | host/device.cpp:902-914 | a transfer grows by one byte if and only if it is a multiple and the buffer has room |
| Buffers.UsbStack.TransmitFrames | host/device.cpp:892-943 | the transfer is the block, plus at most one zero byte; an accepted request belongs to the stack, a refused one stays with the caller |
| Buffers.UsbStack.RunCompletions | adapter/adapter.cpp:308-321 | any number of completions in any order move requests from the stack to the pool, each once and cleaned |
| TxLog.LogRestoresOrder | adapter/txqueue.cpp:96-153 | packed and dropped packets, put back together, are the ring's packets in ring order |
| TxLog.HandedDecodes | adapter/txqueue.cpp:113-136 | every block handed to the device, padding included, decodes to exactly its packets |
| TxLog.HaltsIff | common/ntb.cpp:218 | the packets' sizes decide how many go into a block and whether the machine halts: the first assertion fails if and only if the packet fits no empty block, the second if and only if the stored length is zero |
| TxLog.HaltHappens | common/ntb.cpp:218 | whenever the sizes fail an assertion, halting on them is an event of the transmit path |
| TxLog.FieldsFitIff | common/ntb.cpp:232-252 | whether a packed block's length fields hold is decided by the sizes of its packets |
| TxLog.RoomyNeverHalts | function/device.cpp:1159 | with settings that rule both out, neither assertion fails |
| TxLog.NumberedJoins | common/ntb.cpp:341 | the numbering of blocks goes on from one log to the next |
| TxQueues.TxQueue.PackBlock | adapter/txqueue.cpp:119-129 | greedy packing: copies packets in order until the ring is empty or the next copy is refused |
| TxQueues.TxQueue.FinishBlock | adapter/txqueue.cpp:131-143 | the block is finished and handed over, or cancelled while the queue is being stopped; a refused or cancelled request goes back to the pool |
| TxQueues.TxQueue.TakeRequest | adapter/txqueue.cpp:104-109 | a request that was idle, or none when every request is in flight |
| TxQueues.TxQueue.GiveBack | adapter/txqueue.cpp:151 | both rings move up to the iterator, the fragment ring by the sum of the fragment counts |
| TxQueues.TxQueue.Advance | adapter/txqueue.cpp:96-153 | terminates with the ring empty (unless the machine halts), every packet in exactly one block or dropped while all requests were in flight, in ring order; requests conserved when completions come before a block, between packing and sending it, and before the send returns; the fragment ring moved by the total count; blocks numbered consecutively modulo 2^16 |
| TxQueues.TxQueue.Serve | adapter/txqueue.cpp:96-153 | any number of calls, with the rings replenished in any way before each: what the calls find is what was posted, each accounts for all of it unless the machine halts, and the blocks of all calls carry consecutive sequence numbers |
| TxQueues.TxQueue.NeverHalts | adapter/txqueue.cpp:96-153 | no run of Advance halts when the packets fit alone and lengths cannot be truncated |
| RxFrames.OpenBuffer | adapter/rxqueue.cpp:181-216 | a buffer that opens has all its frames left, one that does not open has none |
| RxFrames.FilterDecides | adapter/rxqueue.cpp:143-165 | whether the next frame is kept, by its size, its first byte, the station address and the filter's flags, both directions |
| RxFrames.KeptAreWanted | adapter/rxqueue.cpp:220-237 | what is kept of a buffer's datagrams is exactly what a flag asks for |
| RxFrames.TakeDatagram | adapter/rxqueue.cpp:218-248 | one call takes the first datagram left, kept or skipped by size and filter, or finds none |
| RxFrames.LoopEndsIff | adapter/rxqueue.cpp:179-249 | the loop ends on a block if and only if the chain ends or has an acceptable datagram, both decided within as many tables as the block has bytes |
| RxFrames.ChunkingIsInvisible | adapter/rxqueue.cpp:94-252 | the steps that Receive and Advance are proved to take: over any run of them, delivered and waiting frames are those from before and the arrived ones, in order |
| RxFrames.DeliveriesAgree | adapter/rxqueue.cpp:94-252 | two such runs with the same arrivals deliver the same frames as far as they got |
| RxQueues.BufferQueue.EnqueueBuffer | common/buffers.cpp:178-228 | the buffer joins the end of the queue and its claim is recorded, or nothing changes when no record can be had |
| RxQueues.BufferQueue.DequeueBuffer | common/buffers.cpp:232-245 | first in first out |
| RxQueues.BufferQueue.ReturnBuffer | common/buffers.cpp:249-265 | the buffer's claim moves from the outstanding to the released ones, once |
| RxQueues.RxQueue.Receive | adapter/adapter.cpp:284-299 | an arriving buffer is one arrival step with its frames, and its claim is recorded if and only if it is stored |
| RxQueues.RxQueue.OpenNext | adapter/rxqueue.cpp:181-216 | opening a buffer keeps the backlog, also when the block is invalid and skipped; claims match the buffers held |
| RxQueues.RxQueue.TakeNext | adapter/rxqueue.cpp:218-248 | the backlog loses exactly the datagram taken, and an exhausted buffer is released |
| RxQueues.RxQueue.GetNextFrame | adapter/rxqueue.cpp:169-252 | terminates with the first frame of the backlog, of acceptable size and asked for by a flag for whom it is addressed to, or with no frame, nothing left and every claim ever recorded released |
| RxQueues.RxQueue.DeliverAll | adapter/rxqueue.cpp:101-128 | the loop, with any number of buffers arriving before each frame: frames go out in order of arrival until the ring is full or nothing waits |
| RxQueues.RxQueue.Deliver | adapter/rxqueue.cpp:111-119 | the frame is at the start of the fragment and described by the packet under the iterators; the packet's ignore flag, the memory behind the frame and everything else stay |
| RxQueues.RxQueue.Finish | adapter/rxqueue.cpp:130 | the fragment ring ends up at the local fragment iterator, which is never stored, and the bytes of the packets given back are the frames |
| RxQueues.RxQueue.Advance | adapter/rxqueue.cpp:94-131 | is one delivery step with the ring's space, after an arrival step for the buffers that came early enough while it ran: gives back min(owned fragments, waiting) frames from the front, each of them asked for by the filter, and keeps the rest |
| RxQueues.RxQueue.Serve | adapter/rxqueue.cpp:94-252 | independence of chunking for the driver object: over any list of arrivals and calls, with the rings replenished in any way before each call and buffers arriving while it runs, the bytes given back and the backlog grow by exactly the frames of the stored buffers, in order; a claim is recorded for each stored buffer and no other, and when nothing is held all of them have been released |
| RxQueues.DeliveredBytes | adapter/rxqueue.cpp:111-119 | reading a delivered packet through the rings gives the frame |
| EndToEnd.HandedIsDelivered | adapter/rxqueue.cpp:169-252 | a block that was handed over is parsed to its end, and exactly its acceptable packets are delivered from it |
| EndToEnd.ArrivalsBring | adapter/rxqueue.cpp:169-252 | transfers that arrive in buffers of their own bring the acceptable ones among the packets sent in them |
| EndToEnd.RoomyLegible | common/ntb.cpp:232-252 | settings that cannot truncate a length field make every transfer of a call of Advance legible |
| EndToEnd.Deliver | adapter/rxqueue.cpp:94-131 | the receiving driver over any schedule: given back and waiting grow by the acceptable ones among the packets sent in any number of calls, each once, in ring order |
| EndToEnd.SendAndDeliver | adapter/txqueue.cpp:96-153 | the same for both driver objects, with the calls of the sending one |
| Transmission.StepKeeps | function/device.cpp:1130-1202 | every single step of sender, completions and stop keeps conservation and the rundown count |
| Transmission.RunKeeps | function/device.cpp:1130-1202 | over every interleaving each request is in exactly one place, returned as often as taken unless it is out, clean in the pool, and the rundown count is the acquires not yet released |
| Transmission.EnabledIff | function/device.cpp:1079-1202 | when each step can happen; completions wait for nothing but a request in flight |
| Transmission.StepEffects | function/device.cpp:1130-1202 | where the requests are and what the rundown count is after each step |
| Transmission.ProtectionGrantedIff | function/device.cpp:1157-1199 | protection is granted, and counted, if and only if it is active; otherwise the sender has to take the request back |
| Transmission.StoppingOnlyDrains | function/device.cpp:1088 | from the start of the wait of StopTransmit until the next StartTransmit, over any run: the count never rises, and nothing comes to be in flight but a request that had protection before |
| Transmission.ActiveFromStartToStop | function/device.cpp:1066-1089 | protection is active exactly from StartTransmit to StopTransmit |
| Transmission.DrainedMeansQuiet | function/device.cpp:1079-1089 | when the wait of StopTransmit has ended nothing is in flight or completing, and all requests are in the pool if and only if Advance holds none |
| Transmission.PoolShortWhenDrained | function/device.cpp:1079-1089 | a run in which the wait ends while Advance holds the only request |
| Transmission.AdapterReadsAreSafe | function/device.cpp:1137-1144 | no completion can run while there is no adapter |
| Transmission.RunReadsLiveAdapter | function/device.cpp:1002-1015 | the same over whole runs from the start |
| DeviceLifecycle.InvariantKeptIff | function/device.cpp:802-871 | an event keeps the life-cycle invariant if and only if it is one of the permitted ones |
| DeviceLifecycle.EventEffects | function/device.cpp:802-871 | what each bus event does to the device, field by field |
| DeviceLifecycle.SettingEffects | function/device.cpp:844-868 | what selecting an alternate setting does, for every outcome of creating the adapter |
| DeviceLifecycle.RunKeeps | function/device.cpp:802-871 | over every permitted sequence: no assertion fails, adapter live exactly at setting 1 and only when configured, notices alternate, size in range, adapter parameters equal the device's |
| DeviceLifecycle.RunKeepsIff | function/device.cpp:802-871 | the invariant holds all along a sequence of events if and only if each one is permitted when it comes |
| DeviceLifecycle.SizeStaysInRange | function/device.cpp:689-695 | the chosen input size is one the device offers over every sequence of events, permitted or not |
| DeviceLifecycle.SizeHonouredIff | function/device.cpp:679-709 | a requested size takes effect if and only if no adapter was live or it is the default |
| DeviceLifecycle.FormatSurvivesIff | function/device.cpp:679-709 | the block format survives that request if and only if no adapter was live or it was 16-bit |
| DeviceLifecycle.SizeChangeLosesFormat | function/device.cpp:694-702 | three permitted events to a running 32-bit adapter, which a size request turns back to 16 bit |
| DeviceLifecycle.SizeChangeThenSelectHalts | function/device.cpp:952-956 | three events after which selecting setting 1 fails the no-adapter assertion |
| DeviceLifecycle.FormatAgreesIff | function/device.cpp:645-662 | with an adapter live at setting 0 a format request is accepted, and device and adapter agree afterwards if and only if it asks for the adapter's format |
| DeviceLifecycle.SizeChangeThenFormatDisagrees | function/device.cpp:645-662 | four events after which a 32-bit device has a 16-bit adapter |
| DeviceLifecycle.ReportsRunningAdapter | function/device.cpp:628-677 | the format and size a host reads are those the running adapter uses |
| FunctionDevices.FunctionDevice.constructor | function/device.cpp:22-47 | the initial device |
| FunctionDevices.FunctionDevice.CreateNetAdapter | function/device.cpp:952-997 | the assertion fails exactly when an adapter is live; a new adapter agrees with the device; notices keep alternating unless starting it fails |
| FunctionDevices.FunctionDevice.DestroyNetAdapter | function/device.cpp:1002-1023 | no adapter afterwards, notices keep alternating, and but for them and the bus state the device is as at power-up when an adapter was live |
| FunctionDevices.FunctionDevice.ProcessSetupPacket | function/device.cpp:574-723 | which packets are answered with the parameters, a number (and which) or a handshake, all others being stalled; which change the format or the size, with and without an adapter, all others changing nothing |
| FunctionDevices.FunctionDevice.BusEventNotificationRead | function/device.cpp:758-883 | the handler keeps the life-cycle invariant if and only if the event is permitted |
| FunctionDevices.FunctionDevice.HandleAll | function/device.cpp:758-883 | over any sequence of notifications the object's invariant never fails if and only if each is permitted when it comes |
| ReceiveNotification.NotificationFlag.NotifyReceive | adapter/rxqueue.h:99-108 | fires once if the flag was set and clears it; is the producer's exchange step and keeps the invariant |
| ReceiveNotification.NotificationFlag.SetNotificationEnabled | adapter/rxqueue.h:89-95 | sets the flag and fires nothing; is the system's arming step and keeps the invariant |
| ReceiveNotification.NotificationFlag.Interleave | adapter/rxqueue.h:89-108 | no wake-up is lost on the field itself, over any interleaving of producers and the system |
| ReceiveNotification.RunKeeps | adapter/adapter.cpp:294-301 | while the flag is set every buffer enqueued since arming belongs to a producer that has still to run its exchange |
| ReceiveNotification.NoLostWakeUp | adapter/adapter.cpp:294-301 | in every interleaving a buffer enqueued after arming leads to a notification, and none fires that was not armed |
| ReceiveNotification.WakeUpFires | adapter/rxqueue.h:89-108 | told from the steps alone: once armed, an exchange by whomever means that a notification has fired, unless the flag was switched off |
| ReceiveNotification.FiresIff | adapter/rxqueue.h:99-108 | between armings exactly the first exchange fires, and only if the flag was set |
| ReceiveNotification.BooksAreRight | adapter/adapter.cpp:294-301 | the model's books: who has stored a buffer since arming, whether it fired, whether it was switched off |
| ReceiveNotification.EnabledIff | adapter/adapter.cpp:294-301 | nothing but its own turn holds up a producer, and nothing the system |
| ReceiveNotification.ArmingComesTooLate | adapter/rxqueue.h:89-95 | a buffer whose producer finished before arming is not covered |
| Mac.ParseAfterPrint | inc/mac.h:123-206 | parsing printed bytes gives them back, any length |
| Mac.PrintAfterParse | inc/mac.h:123-206 | printing parsed text is the text in upper case |
| Mac.PrintedDigits | inc/mac.h:134-146 | of each byte the higher digit is printed first, in upper case |
| Mac.DigitsRead | inc/mac.h:149-176 | which characters are digits, in either case, and of which value |
| Mac.BytesToHexString | inc/mac.h:123-147 | writes the printed text and nothing beyond it |
| Mac.HexStringToBytes | inc/mac.h:180-206 | succeeds exactly when the terminated text is long enough and starts with hexadecimal digits, with the parsed bytes, and writes nothing beyond them |
| Mac.ConversionsAreInverse | inc/mac.h:5-19 | byte and number conversion are inverse on 48 bits |
| Mac.NumberInNetworkOrder | inc/mac.h:5-10 | the number is that of the six bytes, the first one highest |
| Mac.GetNextMacAddress | inc/mac.h:46-58 | the address becomes its successor |
| Mac.SuccessorIs | inc/mac.h:46-58 | past the end of the range its first address follows, everywhere else the next number |
| Mac.SuccessorsGoRound | inc/mac.h:46-58 | k successors of an address in the range are k steps around a circle of 2^24 |
| Mac.SuccessorDiffers | inc/mac.h:46-58 | the successor of any address is another address |

## Left out

- The framework, NetAdapterCx, DMF and USB library internals: the queues, the send and completion contract and the rundown calls are modelled by what they promise.
- Driver entry, power and PnP callbacks, device creation, endpoint-zero transfers, interrupt buffers and class information: plumbing; their outcomes are parameters of the events.
- Host descriptor scanning, pipe discovery and readers (`host/device.cpp` other than the padding rule and the send contract): mostly calls into code that is not part of this model.
- Link speed and state, receive capabilities and registry settings (`adapter/adapter.cpp`): no state the data path depends on.
- The loop that fills the request pool (common/buffers.cpp:65-89).
- The packet filter is fixed during a run; `SetPacketFilter` between two calls would change what the waiting frames are compared with.
- The packet's layout field, which receiving clears (adapter/rxqueue.cpp:119).
- The memory behind a ring fragment is a value in the fragment, so aliasing between fragments' memory is not captured. Bits of MAC numbers are combined by arithmetic instead of shifts and ors, on operands that do not overlap.
- TransmitFrames of the function driver inside `Advance` is reduced to cancelled, accepted or refused; its rundown steps are those of the step system, where they interleave with everything else.
- Completions inside the packing of one block, or inside the calls of the pool: they touch only the pool and the stack, which packing does not look at. Every interleaving of single steps is in `Transmission`.
- Bytes of requests in flight: that nothing writes to them follows from the exclusive places of the step system and is not stated over the buffers.
- NtbLimits.TransferDecodesIff: asks that the table's offset fits its field; see the next line.
- NtbRoundTrip.RoundTrip: asks that both length fields hold their values. `TransferDecodesIff` shows that nothing decodes otherwise as long as the table's offset fits its field; beyond that the receiver takes some bytes of the packets for a table, and what it finds is up to them.
- RxQueues.RxQueue.Receive: asks that a stored buffer's chain ends and has no empty later table (`Tame`). On others the driver may loop for ever or read behind the block; `LoopEndsIff`, `AlwaysBoundedIff` and `PastTheCount` say when, and the receive path is not followed any further there.
- RxQueues.RxQueue.Serve: asks the same of every buffer that is stored.
- TransferBlocks.TransferBlock.GetNextDatagram: the entry index has no width in the model, so that its wrap after 2^32 calls past the count, far behind any buffer, does not occur.
- Timeouts, statistics, tracing and the checksummed table signatures, which the code never uses.
