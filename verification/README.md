# A verified model of the SUPLA core

SUPLA connects devices, clients and a server over one binary protocol. This project models, in Dafny,
the parts of the system that carry state and are easy to get subtly wrong, and proves what they are
for. `dafny verify dfyconfig.toml` checks all of it.

**The wire stack** (`Bytes`, `Wire`, `Receiver`, `Builds`, `ByteBuffers`, `Proto`, `PacketQueues`,
`SrpcSpec`, `SrpcRuns`, `SrpcInput`, `SrpcOverflow`, `SrpcWindow`, `SrpcHandler`, `SrpcEnds`, `SrpcObject`, `Device`). A packet travels as an 18-byte header,
the payload and the tag `SUPLA`. `Wire` defines the frame and, independently, a parser of whole buffers
(`Pop`, `Drain`) that knows nothing of cached flags or reallocation. The classes `ByteBuffer`,
`ProtoData`, `PacketQueue`, `Srpc` and `DeviceSrpc` have the fields of the C structures and are proved
against functions of their abstract contents. `SrpcSpec` is the resulting state machine: one step for
each region the lock protects (a call, the incoming half of an iteration, its outgoing half, a pop from
the incoming queue, setting the version). Between the two halves of an iteration any other steps may
happen, so a run is any interleaving of calls, callbacks and iterations. An iteration that fails ends the
connection, except that a version error first calls the application's handler, if it has set one; the
server's (supla-server/src/conn/connection.cpp:83-91) answers and iterates 20 more times on the same object,
whatever those iterations come to, and version errors among them call it again. `Hooks` holds how often
the handler iterates. All sizes are parameters (`Config`); `Builds` holds the
values each build chooses.

**Codecs** (`CaptionPack`, `MultiValue`): lists of captioned items squeezed into a message and expanded
again, and the extended value that turns itself into a container when a second value is added.

**Smaller machines** (`Crc32`, `ScheduledAction`, `SafeArray`, `KeepAlive`, `Ini`): the table-driven
checksum, the scheduler's set/check/retry machine, the array that deletes by swapping, the client's
keep-alive, and the in-place parser of configuration files.

## Main results

- **End to end** (`SrpcEnds.EndToEnd`, `SrpcEnds.EndToEndDevice`, `Device.DeviceToQueue`): with a sender
  whose sizes conserve output and a receiver, each in any interleaving of its own, what the receiver takes
  is at every moment a prefix of what the sender accepted, in order and unaltered; when the bytes have
  arrived it is all of it. This covers queues to queues, queues to a device's receive loop, and a device's
  direct writes to queues. The exception is a call that overrides the version by one out of range, as
  `srpc_sdc_async_versionerror` may: everything before that packet arrives, and on it the receiver fails with
  a version error. A receiver is refused something *if and only if* such a packet was written
  (`SrpcEnds.VersionErrorIff`). Everything does arrive: as many idle iterations as packets are queued write
  it all, and a receiver can take it all (`SrpcEnds.SenderFlushes`, `SrpcEnds.ReceiverTakesAll`).
- **Behind a version error** the server's handler goes on reading with an empty buffer, so that a packet
  which arrives next is taken although the stream up to it cannot be parsed (`SrpcHandler.HandlerTakes`).
  What is taken is a prefix of what the stream holds, in every run, *if and only if* the handler's
  iterations cannot read as much as one packet; in particular without a handler
  (`SrpcHandler.AlwaysPrefixIff`). Up to the first failure it always is (`SrpcInput.InputConserved`). The
  answer that the handler sends, under the version it was told, is written (`SrpcEnds.VersionErrorAnswered`).
- **Chunking does not matter** (`Receiver.ChunkingIrrelevant`): for arbitrary bytes, packets, first error
  and residue of the device's receive loop do not depend on how the stream is cut.
- **Output conservation** (`SrpcRuns.OutputConservedIff`) holds over every interleaving *if and only if*
  the largest frame fits one block and is shorter than the buffer limit. The server's sizes meet that. Those
  of the queued small-RAM builds do not: there a concrete run loses output (`SrpcRuns.BurstsOverload`).
- **Input overflow of `srpc_iterate`** (`SrpcOverflow.IterateOverflowDeadIff`), the loop that server, client
  and supla-dev run: it takes one packet per block read, so it is free of overflow *if and only if* a
  block is no longer than the smallest packet, 23 bytes, and fits behind a frame that lacks one byte. No
  queued build has such sizes; in the server's a peer that sends small packets as fast as they are read
  ends the connection (`SrpcOverflow.StreamOverflows`).
- **Input overflow of `srpc_iterate_device`** (`Receiver.OverflowDeadIff`), which drains its buffer after each
  read, is impossible *if and only if* a block fits behind a frame that lacks one byte. All builds'
  sizes meet that except those of two that define `ESP32` or `__AVR__` but neither `ARDUINO` nor
  `SUPLA_DEVICE`, and so combine a 10240-byte payload limit with a small buffer.
- **No lost wake-up**, ids that never repeat within 2^32 - 1 calls and are never 0, and a packet
  queue that neither leaks nor shares a slot and never owns more cells than it counts.
- **The receive callback** reads its arguments after the lock is released. They are those of the packet
  just queued, in every run, *if and only if* nobody else calls before they are read, and nobody else
  fetches either unless the incoming queue has a single slot (`SrpcWindow.AlwaysToldIff`).
- **Chunked registration** writes the frame of the whole structure *if and only if* the callback supplies
  every channel (`Device.ChunkedIffMonolithic`): a NULL channel is skipped, but the announced size is not
  reduced, so the receiver waits.
- **CRC-32**: the table loop equals the bit-serial definition of RFC 1952, section 8, and any difference
  confined to 32 consecutive bits changes the checksum.
- **Scheduled actions** end within 2L executions and L actions, with exactly one result if the connection
  state is always one the code handles. For arbitrary hooks, the one way to end without a result and the
  exact conditions of every recorded code are given (`ScheduledAction.StuckIff`, `ScheduledAction.SuccessIff`,
  `ScheduledAction.ResultIff`): without a result it ends only for an unknown connection state, and a success
  without a true check is recorded only if a hook hands back the success code as its failure code. The
  program's own hooks do neither (`ScheduledAction.OwnHooksDecide`): with them no activation gets stuck, and
  a success is recorded *if and only if* the check of that execution answered so.
- **Keep-alive** (`KeepAlive.CallNeverTooOld`): once a registered client has been checked, its last call is always
  younger than max(T - 10, 2) + g. Between the result of the registration and the first check this is
  false of the code, because nothing is sent while the result is awaited (`KeepAlive.LateRegistration`); it
  holds from the registration on *if and only if* the last call was younger than max(T - 10, 2) when the
  result came (`KeepAlive.AlwaysYoungIff`).
- **INI files** are read back as printed, with either separator, comments behind values and in between, and
  continuation lines; on any text the returned number is that of the first faulty line (`Ini.ErrorIsFirst`).
  A comment behind an *empty* value is taken for the value (`Ini.EmptyValueTakesComment`).
- **Round trips** for caption packs, also in terms of the caption sizes (`CaptionPack.SentAndExpanded`), and the multi-value container over any series of adds
  (`MultiValue.AddAll`). A failed add leaves the container as it was, with one exception: a plain value
  added to itself may be left wrapped, though it still holds the same one value (`MultiValue.AddToItself`).

## Model

| member | source | states |
|---|---|---|
| Wire.FrameLayout | supla-common/proto.h:694-701 | every byte of a frame: tag, version, three little-endian words, payload, tag |
| Wire.PopFrame | supla-common/proto.c:275-332 | a frame at the front of a buffer, whatever follows, is recognised and removed exactly |
| Wire.PopFailsIff | supla-common/proto.c:282-321 | exactly when the parser gives up and how, in terms of the bytes: wrong tag in front, version out of range, payload too long, or no tag behind it |
| Wire.PopGotOnlyFrames | supla-common/proto.c:291-327 | the converse: whatever is popped was, byte for byte, the frame of a packet with version in range and payload within the limit |
| Wire.PopMonotone | supla-common/proto.c:275-332 | bytes that arrive later change neither a complete packet nor an error |
| Wire.DrainAppend | supla-common/srpc.c:433-443 | draining a longer stream is draining its first part and going on from the residue |
| Wire.ResidueShort | supla-common/proto.c:309-313 | what a drained buffer keeps is shorter than the largest frame |
| Wire.DrainFrames | supla-common/proto.c:162-180 | framing any packets and draining the bytes gives those packets back, then whatever follows them |
| Wire.DrainAccountsForEveryByte | supla-common/proto.c:275-332 | for arbitrary bytes, the frames of the packets taken followed by the residue are the bytes that came |
| Wire.PartialFrameWaits | supla-common/proto.c:293-313 | a proper prefix of a frame is taken neither for a packet nor for an error |
| Wire.DrainOfPrefix | supla-common/srpc.c:424-463 | any prefix of a well-formed stream parses without error to a prefix of the packets, and a packet is missing only while bytes of it are |
| Wire.PopUnsupported | supla-common/proto.c:293-302 | a packet with a version out of range is refused with its version once 23 bytes of it are there, and no sooner |
| Wire.DrainUnsupported | supla-common/proto.c:275-332 | of a stream with such a packet any prefix yields the packets before it, and fails on it exactly when its first 23 bytes have come |
| Receiver.ChunkingIrrelevant | supla-common/srpc.c:416-470 | for any bytes and any cut into reads, delivered packets, first error and residue are those of the uncut stream, with no overflow |
| Receiver.DeliversExactly | supla-common/srpc.c:416-470 | any cut of the frames of any packets delivers exactly those packets and leaves nothing |
| Receiver.OverflowDeadIff | supla-common/proto.c:125-129 | the overflow branch is unreachable for the draining loop if and only if a block fits behind a frame lacking one byte |
| Builds.WhichBuildsNeverOverflow | supla-common/srpc.c:416-470 | with the sizes of each build (supla-common/proto.c:30-61, supla-common/srpc.c:28-81, supla-common/proto.h:125-138): in which ones the draining loop of `srpc_iterate_device` never overflows and in which it can |
| ByteBuffers.Realloc | supla-common/proto.c:132-143 | the new block starts with the old bytes as far as both reach |
| ByteBuffers.ShiftLeft | supla-common/proto.c:249-254 | the in-place loop moves exactly the kept range to the front |
| ByteBuffers.ByteBuffer.constructor | supla-common/proto.c:91-100 | a new buffer is empty, with nothing allocated |
| ByteBuffers.ByteBuffer.Append | supla-common/proto.c:114-152 | appending is concatenation, or an overflow that changes nothing, decided by the allocated size; that size stays max(data size, minimum) and below the maximum |
| ByteBuffers.ByteBuffer.DropFront | supla-common/proto.c:249-272 | shift and reallocation together drop exactly a prefix and keep the size rule |
| Proto.ImageIsFrame | supla-common/proto.c:162-180 | the structure cut at the packet size, plus the tag, is the frame of the message |
| Proto.PopStep | supla-common/proto.c:275-332 | one pop takes the first packet of the stream into the structure and leaves the bytes behind its payload; or waits and changes nothing; or empties the buffer and reports the stream's error, leaving in the structure the version that was refused and nothing else |
| Proto.PopAfter | supla-common/proto.c:275-332 | packets already taken and the stream still buffered account for the whole stream, before and after a pop |
| Proto.ProtoData.constructor | supla-common/proto.c:91-100 | the protocol object starts with empty buffers, the current version and id counter 0 |
| Proto.ProtoData.SetVersion | supla-common/proto.c:334-341 | a version out of range is replaced by the current one |
| Proto.ProtoData.SdpInit | supla-common/proto.c:347-359 | the next id skips 0; the packet is blank, tagged, with id and version |
| Proto.ProtoData.InAppend | supla-common/proto.c:154-159 | input grows by the chunk or overflows; the cached flag stays right |
| Proto.ProtoData.OutAppend | supla-common/proto.c:162-180 | result and output contents in all four cases, including a body left without its tag |
| Proto.ProtoData.PopOut | supla-common/proto.c:182-222 | at most one block is taken off the front; the rest stays in order |
| Proto.ProtoData.ShrinkIn | supla-common/proto.c:240-273 | a prefix, at most everything, is dropped and the cached flag cleared |
| Proto.ProtoData.PopIn | supla-common/proto.c:275-332 | the incremental parser with its cached flag computes the same result, buffer and packet as the parser of whole buffers; the flag implies that the buffer starts with the tag |
| Proto.ProtoData.PopTagged | supla-common/proto.c:291-331 | the same once the tag is known; the unsigned subtraction of the tag size never wraps |
| PacketQueues.TakeFirstIsFirstMatch | supla-common/srpc.c:204-231 | a pop finds a packet exactly when one matches; it takes the first that does and keeps the order of the others |
| PacketQueues.RotatedOwns | supla-common/srpc.c:218-225 | closing the gap and keeping the cell behind the packets leaves no cell shared, dangling or leaked |
| PacketQueues.PacketQueue.constructor | supla-common/srpc.c:115-140 | a new queue holds nothing and owns no cell |
| PacketQueues.PacketQueue.Push | supla-common/srpc.c:181-202 | appends at the end unless the queue is full; every cell stays owned by one slot, and no more are allocated than counted, at most the packets and the configured spare ones |
| PacketQueues.PacketQueue.ProvideCell | supla-common/srpc.c:187-190 | the first free slot gets a cell that none of the packets is in, a kept one if there is one |
| PacketQueues.PacketQueue.Store | supla-common/srpc.c:192-199 | the packet is copied there and counted, the others unchanged |
| PacketQueues.PacketQueue.Pop | supla-common/srpc.c:204-231 | refines taking the first match, or the head for id 0, out of a list |
| PacketQueues.PacketQueue.RemoveSlot | supla-common/srpc.c:212-227 | removes one packet and keeps the ownership and count rules |
| PacketQueues.PacketQueue.ReleaseCell | supla-common/srpc.c:212-216 | the cell is freed exactly if more are counted than are to be kept |
| PacketQueues.PacketQueue.CloseGap | supla-common/srpc.c:218-225 | the list without the packet, every rule of the queue restored |
| PacketQueues.ShiftDown | supla-common/srpc.c:220-222 | the slots behind the hole move down by one, the others stay |
| SrpcSpec.TakeFirstKeepsReady | supla-common/srpc.c:204-231 | a pop neither loses, duplicates nor alters a queued packet |
| SrpcSpec.NextKeepsOk | supla-common/srpc.c:309-413 | every step of every party, version changes and iterations of a version-error handler included, keeps the queue bounds and the well-formedness of every queued packet |
| SrpcRuns.OutAppendedExact | supla-common/proto.c:162-180 | appending a packet takes its whole frame; or all but the tag, which is an error; or nothing, which is not reported as one |
| SrpcRuns.OutEffect | supla-common/srpc.c:381-412 | the whole effect of an outgoing half: what is appended, written, kept, dropped, and when it fails |
| SrpcRuns.FetchEffect | supla-common/srpc.c:824-828 | a fetch takes the first packet with the id asked for, or the head for id 0, and keeps the others in order; without one it changes nothing |
| SrpcRuns.VersionTakesEffect | supla-common/srpc.c:1944-1951 | a call without a version goes out under the one set last, or the current one if that was out of range |
| SrpcRuns.OutHalfConservesIff | supla-common/srpc.c:381-412 | an outgoing half keeps all bytes owed if and only if the head of the queue fits behind the buffered bytes |
| SrpcRuns.CallConserves | supla-common/srpc.c:1902-1920 | an accepted call adds exactly its frame to what is owed, a refused one nothing |
| SrpcRuns.OutConserves | supla-common/srpc.c:381-412 | the same for a step of the machine, with what stays buffered |
| SrpcRuns.NextKeepsOutputOk | supla-common/srpc.c:309-413 | with room for a frame every step keeps: written, buffered and queued bytes are the accepted frames in order, the buffer is empty between iterations, and no append ever fails |
| SrpcRuns.RunKeepsOutputOk | supla-common/srpc.c:309-413 | the same over every interleaving |
| SrpcRuns.BurstEffect | supla-common/srpc.c:381-394 | one largest call and one iteration: what stays buffered, or that output is lost |
| SrpcRuns.BurstsOverload | supla-common/srpc.c:381-394 | without room for a frame, a run that loses output, constructed |
| SrpcRuns.OutputConservedIff | supla-common/srpc.c:309-413 | output is conserved over every interleaving if and only if the largest frame fits one block and stays below the buffer limit |
| SrpcRuns.WhichQueuedBuildsConserve | supla-common/srpc.c:28-81 | the server's sizes conserve output, those of the queued ESP builds do not |
| SrpcRuns.ReadEffect | supla-common/srpc.c:318-379 | the whole effect of an iteration's read, closed and overflowing ones included, by what its buffer then starts with; how it ends, with and without a handler in progress |
| SrpcRuns.Arrive | supla-common/srpc.c:309-413 | bytes that complete nothing can arrive one at a time, and change nothing but the input buffer |
| SrpcRuns.IterationsFlush | supla-common/srpc.c:381-412 | progress: with room for a frame, as many idle iterations as packets are queued write everything accepted |
| SrpcInput.NextKeepsFailuresOk | supla-common/srpc.c:365-379 | only a handler goes on after a failure, and only a version error calls one |
| SrpcInput.NextKeepsInputOk | supla-common/srpc.c:318-379 | every step keeps: until a parse error, packets taken and bytes buffered are what the received bytes parse to; behind it, all packets in front of it have been taken; packets queued are fetched or still queued, and one is missing for each time the queue was full |
| SrpcInput.InputConserved | supla-common/srpc.c:318-379 | over every interleaving from the start: up to the first parse error what is taken is a prefix of what the stream holds, and at it all of it |
| SrpcInput.NoLostWakeUp | supla-common/srpc.c:335-412 | an iteration that returns TRUE has raised an event, or leaves no complete packet, no buffered output and no queued packet; and it raises one only if bytes or packets are left |
| SrpcInput.ClosedReadFails | supla-common/srpc.c:323-325 | a read of a closed connection fails the iteration and changes nothing else; without a handler in progress the connection ends |
| SrpcInput.ClosedReadsCounted | supla-common/srpc.c:323-325 | in every run the iterations that failed for a closed connection are exactly those that read one |
| SrpcInput.IdRounds | supla-common/proto.c:353-357 | how often the id counter has gone round |
| SrpcInput.IdClosedForm | supla-common/proto.c:353-357 | the n-th id is ((n - 1) mod (2^32 - 1)) + 1 |
| SrpcInput.IdsDistinct | supla-common/proto.c:353-357 | ids are never 0 and differ within any 2^32 - 1 consecutive ones |
| SrpcInput.AcceptedIdsDistinct | supla-common/srpc.c:1902-1920 | in every run, accepted packets have such ids: the result of an accepted call is never confused with failure |
| SrpcOverflow.NextKeepsShort | supla-common/srpc.c:318-379 | with such sizes every step keeps the input shorter than the largest frame |
| SrpcOverflow.RoundEffect | supla-common/srpc.c:309-413 | one iteration that reads a chunk, with its fetch: overflow, one packet less, more to wait for, or a parse error |
| SrpcOverflow.StreamOverflows | supla-common/srpc.c:318-333 | if a block is longer than the smallest packet, a run of small packets that overflows the input buffer, constructed |
| SrpcOverflow.LongPacketOverflows | supla-common/srpc.c:318-333 | without room for a block behind a frame, another such run |
| SrpcOverflow.IterateOverflowDeadIff | supla-common/srpc.c:309-413 | no interleaving overflows the input buffer of `srpc_iterate` if and only if a block is at most 23 bytes and fits behind a frame lacking one |
| SrpcOverflow.QueuedBuildsCanOverflow | supla-common/srpc.c:28-81 | in every build that runs `srpc_iterate` with its queues, some run overflows |
| SrpcWindow.WindowOpens | supla-common/srpc.c:335-357 | when the callback window opens, the shared packet is the one just queued |
| SrpcWindow.RunKeepsWindow | supla-common/srpc.c:352-355 | it stays so while others set the version, and fetch from a queue of one slot |
| SrpcWindow.MisledByFetch | supla-common/srpc.c:824-828 | with two slots, a run in which a fetch shows the callback an older packet |
| SrpcWindow.MisledByCall | supla-common/srpc.c:1902-1906 | a run in which a call shows the callback that call |
| SrpcWindow.AlwaysToldIff | supla-common/srpc.c:352-355 | in every run the callback is told of the packet just queued if and only if nobody else calls meanwhile, and nobody else fetches or the queue has one slot |
| SrpcHandler.NextKeepsTame | supla-server/src/conn/connection.cpp:83-91 | every step of a handler that cannot read a packet keeps: it reads less than one, is not called again, and takes none |
| SrpcHandler.PrefixKept | supla-common/srpc.c:365-373 | without a handler, or with such a one, what is taken is a prefix of what the stream holds in every run |
| SrpcHandler.CallHandler | supla-common/srpc.c:365-373 | 23 bytes of a packet with a version out of range call the handler, with an empty buffer, and with that version in the shared packet |
| SrpcHandler.HandlerReads | supla-server/src/conn/connection.cpp:90 | in its iterations the handler takes a packet that fits them, however it is cut |
| SrpcHandler.HandlerTakes | supla-server/src/conn/connection.cpp:83-91 | a run in which the handler takes a packet that is not among those the stream holds |
| SrpcHandler.AlwaysPrefixIff | supla-server/src/conn/connection.cpp:83-91 | what is taken is a prefix in every run if and only if the handler's iterations cannot read as much as one packet |
| SrpcHandler.ServerTakesMore | supla-server/src/conn/connection.cpp:90 | the server's 20 iterations can |
| SrpcHandler.HandlerRunsOut | supla-server/src/conn/connection.cpp:90 | the handler ignores how its iterations end and makes as many as it is set to; with the last the iteration that called it fails |
| SrpcEnds.CallAccepts | supla-common/srpc.c:1902-1920 | a call is accepted if and only if its payload fits and the queue has room; what is queued says what was asked, under the id returned |
| SrpcEnds.AcceptedFit | supla-common/srpc.c:1902-1920 | in every run all accepted packets have a payload within the limit |
| SrpcEnds.SupportedIsLongest | supla-common/proto.c:296-302 | accepted packets are all sendable up to the first whose version is out of range |
| SrpcEnds.StreamParses | supla-common/proto.c:275-332 | how any prefix of any accepted stream parses, whatever the versions |
| SrpcEnds.ReceiverSide | supla-common/srpc.c:318-379 | what a receiver in any run, with any handler, has taken of such a stream up to a refused packet, when it fails, and when it has taken everything; nothing more if no handler reads on |
| SrpcEnds.EndToEnd | supla-common/srpc.c:309-413 | sender and receiver under any interleavings: packets taken are a prefix of packets accepted, and all of them once all bytes have arrived, up to a version out of range, where and only where the receiver fails; behind it only a handler takes more |
| SrpcEnds.SenderFlushes | supla-common/srpc.c:381-412 | any idle sender can write everything it accepted |
| SrpcEnds.ReceiverTakesAll | supla-common/srpc.c:309-379 | any receiver can take all packets of a stream with versions in range, and keep no byte |
| SrpcEnds.EndToEndDevice | supla-common/srpc.c:416-470 | the same sender facing a device: any cut of its output delivers exactly the accepted packets, up to a version out of range |
| SrpcEnds.FeedBytes | supla-common/srpc.c:309-413 | a receiver that reads byte by byte gets through any stream or to its first error |
| SrpcEnds.RefusedIff | supla-common/srpc.c:365-379 | on any bytes, some run of some receiver meets a parse error if and only if the bytes have one |
| SrpcEnds.VersionErrorIff | supla-common/srpc.c:1902-1920 | no receiver is refused what a sender wrote if and only if every packet written carries a version in range, up to its first 23 bytes at least |
| SrpcEnds.HandlerAnswers | supla-common/srpc.c:1970-1979 | in its first iteration the handler writes the answer, under the version that the shared packet holds |
| SrpcEnds.VersionErrorAnswered | supla-server/src/conn/connection.cpp:83-91 | the run: 23 bytes of a peer's packet with a version out of range arrive, the iteration fails, the handler answers under that version, the answer is written; a receiver with the same range of versions is refused it |
| SrpcObject.Srpc.constructor | supla-common/srpc.c:115-140 | a new object is the start state of the machine |
| SrpcObject.Srpc.Prepare | supla-common/srpc.c:1904-1909 | the shared packet after a call was prepared: fresh id, version, payload if it fits |
| SrpcObject.Srpc.AsyncCall | supla-common/srpc.c:1902-1920 | refines the machine's call step, result and whole new state |
| SrpcObject.Srpc.SetProtoVersion | supla-common/srpc.c:1944-1951 | refines the machine's step that sets the version |
| SrpcObject.Srpc.GetPacket | supla-common/srpc.c:818-828 | refines the machine's fetch step |
| SrpcObject.Srpc.IterateIn | supla-common/srpc.c:318-379 | refines the incoming half |
| SrpcObject.Srpc.Take | supla-common/srpc.c:335-379 | the parser's outcome reaches the incoming queue or ends the iteration |
| SrpcObject.Srpc.Deliver | supla-common/srpc.c:350-379 | what each outcome does to queue and result |
| SrpcObject.Srpc.IterateOut | supla-common/srpc.c:381-412 | refines the outgoing half |
| SrpcObject.Srpc.Flush | supla-common/srpc.c:384-403 | one block leaves the buffer unless the append failed; when an event is raised |
| Device.SuppliedInOrder | supla-common/srpc.c:2224-2229 | channels are supplied in order, each that is not skipped once |
| Device.SuppliedSize | supla-common/srpc.c:2224-2229 | the channels supplied fill the announced space if and only if none is skipped |
| Device.ChunkedIffMonolithic | supla-common/srpc.c:2181-2319 | the chunked registration is the frame of the whole structure, and is received as that packet, if and only if every channel is supplied |
| Device.ChunkedIsFrameIff | supla-common/srpc.c:2181-2319 | the same for any size, without a receiver; the lengths agree in any case |
| Device.EmittedAllIff | supla-common/srpc.c:251-275 | what any series of device calls puts on the wire are the frames of the packets meant if and only if every registration sent has all its channels |
| Device.DeviceToQueue | supla-common/srpc.c:309-379 | a queued receiver in any run takes the first of those packets, in order and unaltered, and all of them in the end |
| Device.QueuedPathWritesFrame | supla-common/srpc.c:383-395 | the queued path emits for a packet what the direct one writes: its frame |
| Device.DeviceSrpc.constructor | supla-common/srpc.c:115-140 | a new device object has an empty input buffer |
| Device.DeviceSrpc.WriteNow | supla-common/srpc.c:251-275 | the direct path writes the packet's frame, in one piece or two |
| Device.DeviceSrpc.AsyncCall | supla-common/srpc.c:1902-1920 | without a queue, the frame of the call is on the wire if and only if an id is returned |
| Device.DeviceSrpc.RegisterInChunks | supla-common/srpc.c:2208-2235 | the concatenated writes of a registration in chunks, and its result |
| Device.ChannelWrites | supla-common/srpc.c:2224-2229 | one write for each channel supplied, in order |
| Device.DeviceSrpc.IterateDevice | supla-common/srpc.c:416-470 | one read hands on the packets, result and residue of the abstract receive loop, and to the handler the version that was refused |
| Device.DeviceSrpc.TakeAll | supla-common/srpc.c:433-463 | the inner loop hands on exactly the drain of the buffer, even though callbacks overwrite the shared packet |
| Device.DeviceSrpc.HandOn | supla-common/srpc.c:433-442 | a packet is handed on before the next is popped, whatever its callback leaves in the shared packet |
| Device.DeviceSrpc.PopNext | supla-common/srpc.c:433-434 | each pop continues the drain and shortens the buffer |
| Crc32.TableCorrect | supla-common/tools.c:58-101 | all 256 table entries are eight shift/xor steps of their index |
| Crc32.LookupIsEightSteps | supla-common/tools.c:713-714 | one table step equals eight bit steps on register xor byte |
| Crc32.Checksum | supla-common/tools.c:709-717 | the table loop computes the checksum of RFC 1952, section 8, with initial and final complement |
| Crc32.CheckValue | supla-common/tools.c:709-717 | the checksum of the digits 1 to 9 is the check value of CRC-32, cbf43926, and that of nothing is 0 |
| Crc32.RegisterIsBitRegister | supla-common/tools.c:709-717 | feeding bytes is feeding their bits, least significant first |
| Crc32.DifferenceEvolves | supla-common/tools.c:709-717 | the difference of two registers depends on the difference of the messages alone |
| Crc32.Cancelled | supla-common/tools.c:709-717 | the only bits that bring a register to 0 within a word are the register's own |
| Crc32.WindowDetected | supla-common/tools.c:709-717 | a non-zero difference confined to 32 consecutive bits never cancels |
| Crc32.BurstDetected | supla-common/tools.c:709-717 | two messages of one length that differ only within 32 consecutive bits have different checksums |
| Crc32.FourBytesDetected | supla-common/tools.c:709-717 | so have messages that differ only in four consecutive bytes |
| MultiValue.ExtendedValue.constructor | supla-common/proto.h:783-787 | a new value is empty |
| MultiValue.ExtendedValue.Add | supla-common/srpc.c:3759-3803 | an empty container becomes a copy of the source; any other is appended to if and only if the source is storable and the packed list fits, and otherwise is unchanged; adding a value to itself included, with its one exception |
| MultiValue.ExtendedValue.Append | supla-common/srpc.c:3777-3785 | the same for a container that is already packed |
| MultiValue.ExtendedValue.Put | supla-common/srpc.c:3782-3783 | an entry's bytes behind the packed ones make it the last of the list |
| MultiValue.ExtendedValue.Wrap | supla-common/srpc.c:3794-3800 | a plain value becomes a container that holds it |
| MultiValue.AddAll | supla-common/srpc.c:3759-3849 | after any series of adds to an empty value, get(i) is the i-th value kept, and get(count) fails |
| MultiValue.AddToItself | supla-common/srpc.c:3787-3802 | a plain value added to itself: exactly when that succeeds, and exactly when it is left wrapped although it fails |
| MultiValue.LeftWrapped | supla-common/srpc.c:3787-3802 | 507 bytes in a value with room for 1024 are such a case |
| MultiValue.ExtendedValue.Get | supla-common/srpc.c:3805-3849 | copies out what the lookup finds, or changes nothing |
| MultiValue.ExtendedValue.Walk | supla-common/srpc.c:3812-3841 | the offset loop finds what the recursive lookup finds |
| MultiValue.EntryLayout | supla-common/proto.h:783-787 | every byte of a packed entry: type, little-endian size, data |
| MultiValue.OversizeIsFull | supla-common/srpc.c:3816-3819 | a size beyond the value array counts as a full one |
| MultiValue.EncodeAppend | supla-common/srpc.c:3777-3785 | packing one list after another is packing both together |
| MultiValue.LookupEncoded | supla-common/srpc.c:3824-3840 | walking over packed entries meets them one by one, and nothing after them |
| MultiValue.RetrieveIsIndexing | supla-common/srpc.c:3805-3849 | get(i) is the i-th value added, get(count) fails, whether the value is empty, plain or packed |
| MultiValue.ContentsUnique | supla-common/srpc.c:3759-3849 | a container stands for one list only |
| CaptionPack.TakeConcat | supla-common/srpc.c:518-532 | items put one after another are taken apart again |
| CaptionPack.TakenSound | supla-common/srpc.c:518-532 | for arbitrary bytes, the items taken are well-formed and lie one after another at the front, inside the data |
| CaptionPack.ExpandedIff | supla-common/srpc.c:497-541 | expansion succeeds if and only if sizes and count are in range and that many well-formed items follow the header |
| CaptionPack.KeptWellFormed | supla-common/srpc.c:2735-2751 | every item sent is as long as its caption size says |
| CaptionPack.IndicesComplete | supla-common/srpc.c:2735-2751 | an item is kept if and only if its caption is within the limit |
| CaptionPack.KeptAt | supla-common/srpc.c:2735-2751 | the i-th item sent is the i-th kept one, header and caption bytes intact |
| CaptionPack.RoundTrip | supla-common/srpc.c:484-542 | expanding what was sent gives the kept items in order, the rest of the header, and their count |
| CaptionPack.StructureItemAt | supla-common/srpc.c:524-527 | slot j of the expanded structure is item j followed by zeros |
| CaptionPack.CaptionSizeIs | supla-common/srpc.c:3213 | an item's caption size is the little-endian value of its two or four bytes in front of the caption |
| CaptionPack.KeptFitting | supla-common/srpc.c:2735-2751 | in terms of those values: which items are kept and what is sent of each |
| CaptionPack.SentAndExpanded | supla-common/srpc.c:484-542 | in the same terms, what a pack is sent as, and what that expands to |
| CaptionPack.SentIff | supla-common/srpc.c:2724 | nothing is sent exactly for a count out of range |
| CaptionPack.SetPack | supla-common/srpc.c:2710-2759 | the message built: refused for a bad count, otherwise header, new count and the kept items |
| CaptionPack.GetPack | supla-common/srpc.c:484-542 | the expanded structure, or none |
| CaptionPack.FillPack | supla-common/srpc.c:507-532 | the filling loop produces the structure of the items taken, inside the allocated block |
| ScheduledAction.Worker.constructor | supla-scheduler/src/action.cpp:33-35 | a new execution has no retry, result or delay |
| ScheduledAction.Worker.SetResult | supla-scheduler/src/database.cpp:375-398 | a result is recorded and ends the activations |
| ScheduledAction.Worker.SetRetry | supla-scheduler/src/database.cpp:349-373 | the delay is stored, the retry counted and the row made available again |
| ScheduledAction.Worker.Execute | supla-scheduler/src/action.cpp:55-129 | the whole new state of the row after one activation, in all branches |
| ScheduledAction.ActivateProgress | supla-scheduler/src/action.cpp:55-129 | every activation either is one retry closer to the bound or is the last |
| ScheduledAction.StuckIff | supla-scheduler/src/action.cpp:110-128 | exactly when an activation leaves neither a retry nor a result |
| ScheduledAction.SuccessIff | supla-scheduler/src/action.cpp:59-112 | exactly when a success is recorded, in terms of the answers of that same execution, for arbitrary hooks |
| ScheduledAction.ResultIff | supla-scheduler/src/action.cpp:55-129 | for every result code, exactly when it is recorded, in terms of the answers |
| ScheduledAction.RetryIff | supla-scheduler/src/action.cpp:68-108 | exactly when an activation acts, and when and with what delay it asks for another |
| ScheduledAction.OwnHooksDecide | supla-scheduler/src/action.cpp:99-128 | with the codes the program's own hooks give (supla-scheduler/src/ipcclient.cpp:180-197, supla-scheduler/src/action_openclose.cpp:97-125): never stuck, and a success exactly on a true check |
| ScheduledAction.RunBounded | supla-scheduler/src/action.cpp:55-129 | from any point of a run: finished within the bounds, or as many retries as activations |
| ScheduledAction.WholeRun | supla-scheduler/src/action.cpp:55-133 | at most 2L executions, L actions, one result, and delays within (L-1)*R + c, which is within `get_max_time` |
| ScheduledAction.ExactlyOneResult | supla-scheduler/src/action.cpp:55-129 | with a handled connection state a complete run records exactly one result |
| SafeArray.SwapOutBag | supla-common/safearray.c:119-140 | deleting removes one element from the bag and leaves what lies before it |
| SafeArray.ScanAsksAll | supla-common/safearray.c:209-225 | the scan asks about each element exactly once, although deletion moves elements |
| SafeArray.ScanKeepsFront | supla-common/safearray.c:209-225 | the scan never touches what it has passed |
| SafeArray.ScanLeavesSpared | supla-common/safearray.c:209-225 | it leaves exactly the elements not answered by 1 |
| SafeArray.Fifo | supla-common/safearray.c:92-207 | with add and pop alone, what came out followed by what is inside is what went in, in order |
| SafeArray.SafeArray.constructor | supla-common/safearray.c:33-42 | a new array is empty |
| SafeArray.SafeArray.Add | supla-common/safearray.c:92-117 | appends and returns the index; a null pointer changes nothing |
| SafeArray.SafeArray.Delete | supla-common/safearray.c:119-140 | the last element takes the place of the deleted one, all others keep theirs; a bad index changes nothing |
| SafeArray.SafeArray.Get | supla-common/safearray.c:172-187 | the element, or null for a bad index |
| SafeArray.SafeArray.Pop | supla-common/safearray.c:189-207 | takes the first element and keeps the order of the others |
| SafeArray.SafeArray.MoveToBegin | supla-common/safearray.c:76-90 | puts one element first and keeps the order of the others |
| SafeArray.SafeArray.Clean | supla-common/safearray.c:209-225 | every element is asked about exactly once and exactly the spared ones remain |
| SafeArray.SafeArray.CleanLoop | supla-common/safearray.c:217-223 | the loop performs the scan, with its questions in order |
| KeepAlive.Client.constructor | supla-client/src/supla-client.c:1221-1240 | a new client is disconnected and unregistered |
| KeepAlive.Client.BeforeCall | supla-client/src/supla-client.c:84-88 | every call stamps the time of the last call |
| KeepAlive.Client.Ping | supla-client/src/supla-client.c:1477-1494 | pings exactly when one is due, and then stamps both times |
| KeepAlive.Client.Check | supla-client/src/supla-client.c:1500-1508 | registers, pings or does nothing |
| KeepAlive.Client.Disconnect | supla-client/src/supla-client.c:1293-1307 | a connected client loses connection and registration |
| KeepAlive.CheckDecides | supla-client/src/supla-client.c:1477-1508 | exactly when a check registers and when it pings, and what it leaves alone |
| KeepAlive.HappenKeepsAlive | supla-client/src/supla-client.c:1477-1521 | every event keeps: the last call is no older than the last ping, a check leaves it younger than the limit, and one that finds the server silent leaves a fresh ping |
| KeepAlive.CallNeverTooOld | supla-client/src/supla-client.c:1477-1521 | in every run with a monotone clock and iterations at most g apart, a registered client's last call is less than max(T-10, 2) + g old once checked, and before that at most g older than at registration; when nothing came in for that long, the last ping is less than 2 + g old; pings are at least 2 seconds apart |
| KeepAlive.AlwaysYoungIff | supla-client/src/supla-client.c:1500-1508 | the first of these bounds holds from a registration on if and only if the last call was younger than max(T-10, 2) then |
| KeepAlive.LateRegistration | supla-client/src/supla-client.c:137-144 | a run in which it does not |
| Ini.RStrip | supla-common/ini.c:26-30 | the string is trimmed at its end in place, nothing else is written |
| Ini.LSkip | supla-common/ini.c:33-36 | finds the trimmed start of a string |
| Ini.FindCharOrComment | supla-common/ini.c:41-48 | the first such character or comment, or the end |
| Ini.SectionLine | supla-common/ini.c:93-103 | the effect of a section line, section cut to 49 characters |
| Ini.PairLine | supla-common/ini.c:104-125 | the effect of a name/value line, or an error |
| Ini.Split | supla-common/ini.c:110-116 | name and value as cut apart in place |
| Ini.CutValue | supla-common/ini.c:113-116 | the value without padding and comment; what precedes it is untouched |
| Ini.ProcessLine | supla-common/ini.c:81-125 | the in-place processing of a line has the effect of reading it as a string |
| Ini.ParseFile | supla-common/ini.c:63-129 | handler calls in order and the number of the first bad line |
| Ini.LineEndIs | supla-common/ini.c:79 | a line ends behind the first line feed, at 199 characters, or at the end of the text |
| Ini.ErrorIsFirst | supla-common/ini.c:76-128 | on any text, what is returned is the number of the first line that is malformed or refused by the handler, or 0 |
| Ini.EmptyValueTakesComment | supla-common/ini.c:113-116 | behind a separator with nothing but white space, what looks like a comment is taken for the value |
| Ini.ReadItem | supla-common/ini.c:79-125 | every printable line has the effect it is meant to have: sections, pairs with either separator and a comment behind them, continuation lines, comments, malformed lines |
| Ini.ParsePrinted | supla-common/ini.c:63-129 | from any line on, a printed file is read back as its triples, with the number of the first fault |
| Ini.ParseOfPrint | supla-common/ini.c:63-129 | a printed file yields exactly its triples in order, for any padding, either separator, comments anywhere and continuation lines, and returns the number of the first malformed line or refused call, or 0 |

## Left out

- Allocation failure, and the branch on a stale `errno` (supla-common/proto.c:138-141): allocation always succeeds.
- `data_write` is taken to write everything; its result is ignored by the source (supla-common/srpc.c:394).
- A null payload pointer with a non-zero size in `sproto_set_data`; data and size are one sequence here.
- The permission check and the two callbacks before the lock in `srpc_async__call` (supla-common/srpc.c:1888-1900); the model starts at the lock.
- `srpc_iterate` in the builds compiled without queues, for which `srpc_iterate_device` is provided, and the switch of `srpc_getdata` that checks sizes call by call and copies fields.
- The byte order is little-endian, as on all targets the library is built for.
- A version-error handler under `srpc_iterate_device`; the one application that sets a handler, the server, runs `srpc_iterate`.
- MultiValue.ExtendedValue.Add: source sizes so close to 2^32 that the sums of sizes wrap around are excluded, and so is a destination that was not built by adding.
- MultiValue.ExtendedValue.Get: a lookup that would read outside the value is excluded; it needs a container shorter than one header, or an inner size for which the 32-bit bound check wraps around. Containers built by adding are never of this kind (`RetrieveIsIndexing`).
- MultiValue.ExtendedValue.Walk: the same lookups are excluded.
- ScheduledAction.WholeRun: the success check, the action and the connection state are answers from outside; whether a shutter or a colour is close enough is not modelled. A missing worker or database is left out.
- SafeArray.SafeArray.Clean: the predicate's answers are an arbitrary sequence; a predicate that itself changes the array is not modelled. `safe_array_find`, `safe_array_remove` and `safe_array_findcnd` only compose what is here.
- KeepAlive.CallNeverTooOld: whole seconds; the call permission of the ping, which holds in every protocol version, and the sockets are not modelled.
- Ini.ParseFile: section and last name are values instead of fixed arrays; white space is that of the C locale, so bytes from 128 on are none.
- Sockets, TLS, threads, the database, JSON and hardware access are foreign code; the one-line call wrappers, versions of the electricity-meter structures and copies between client structures only move fields; floating-point conversions of colours and temperatures are not modelled.
