# A verified model of the CSQTT engine's data plane

The engine (`examples/modulecsqtt/native/csqtt-engine/`, Rust) carries packets of a tunnel over many
TURN paths at once. This project models its data plane and its epoch protocols and proves, for all
inputs, all runs and all interleavings, the properties the engine depends on. `dafny verify
dfyconfig.toml` checks everything.

How the code is modelled:

* Code that updates its own state step by step is a class or a method with loops: the replay window,
  the packet buffer, the wrapper and its counters, the stream reader, the scheduler, worker selection,
  the worker table, the transport writer and its loop, the STUN walk, the DNS parser, the bounded log
  line. Each method is tied to a specification function, and lemmas prove what that function means.
* Code that many threads run at once is a state machine whose steps are the single atomic accesses of
  the source: the packet queue, repair, idle epochs, the packet pool, the logging pipeline and the
  shutdown leader. A run is an arbitrary list of steps, so a claim about every run is a claim about
  every interleaving, with any number of threads. Recorded events (`log`, `wins`) say what happened.
* Ciphers are parameters of which only laws are assumed: the keystream undoes itself, the tag is a
  function of the data, opening undoes sealing. Clocks, random draws, the kernel's answers, pool
  misses and packet arrivals are inputs, so the claims hold whatever they are.

| file | component |
|---|---|
| `ReplayWindow.dfy` | `session.rs`: replay bitmap, RTP sequence extension |
| `PacketBuffer.dfy`, `Obfuscation.dfy`, `ChannelData.dfy`, `DataPath.dfy` | `packet.rs`, `obfs.rs`, `turn.rs`: buffer, wrap and unwrap, framing, the way of one packet and of a run of packets |
| `TurnStream.dfy` | `turn_stream.rs`: incremental frame reader |
| `PacketQueue.dfy`, `Scheduler.dfy`, `Dispatch.dfy`, `TurnPaths.dfy` | `dispatcher.rs`: queue with epochs, scheduler, worker selection, worker table |
| `WriterPipeline.dfy`, `WriterLoop.dfy` | `session.rs`, `turn.rs`, `udp_batch.rs`: batching, partial sends, duplicates, the writer's rounds |
| `Shutdown.dfy` | `session.rs`: disconnect leader |
| `Repair.dfy`, `Protocol.dfy`, `Idle.dfy` | `repair.rs`, `protocol.rs`, `idle.rs` |
| `Logging.dfy` | `logging.rs` |
| `PacketPool.dfy` | `packet.rs`: buffer accounting |
| `StunCodec.dfy`, `Dns.dfy` | `stun_codec.rs`, `dns.rs` |
| `Bytes.dfy`, `Sums.dfy`, `Wrappers.dfy` | helpers |

## Findings

Where the code does less than a natural reading promises, the model follows the code, a lemma gives a
concrete run, and another says exactly when it happens.

* **Replay window.** After a packet from before the first arrival's block of 65536 numbers a duplicate
  can be accepted again (`ReplayProtection.EarlierBlockReadmitsDuplicate`). A run of arrivals recovers
  all sender indices if and only if each arrival is on or after that block and near enough to the
  greatest before it (`ReplayProtection.RtpRecoversIndices`).
* **Shutdown.** A stream can be offered DISCONNECT although a response has just completed the shutdown
  (`Shutdown.LateOfferHappens`): if and only if the leader then stands between its check of the flag
  and the offer (`Shutdown.LateOfferExactly`), and never a second one.
* **Packet pool.** An acquire can fail although no buffer is live (`PacketPool.InTransitAcquireFails`).
  In every reachable state it fails if and only if no buffer is retained and the live ones and those on
  their way back make up the limit (`PacketPool.AcquireFailsExactly`).

## Conditions

* The calls of one worker that join or lose an epoch follow one another: its sessions are awaited one
  by one (`worker.rs:603-723`). `Idle` takes that as given and lets all workers interleave.
* Stream incarnations are fresh (`session.rs:57`, `session.rs:837`), which `Shutdown` takes as given.
* `Dispatch.WorkerSet.DispatchPacket` speaks of eviction for equal capacities. The engine builds no
  others: the queues of a class have one constant capacity (`session.rs:862-864`). Spilling looks for
  the fewest packets, not for room, so the condition is needed.

## Model

| member | source | states |
|---|---|---|
| ReplayProtection.ReplayWindow.Accept | examples/modulecsqtt/native/csqtt-engine/session.rs:461-490 | Accepts a counter if and only if it is fresh with respect to the set of everything ever offered: different from all, and less than 16384 behind the highest; the ring bitmap keeps agreeing with that set |
| ReplayProtection.ReplayWindow.ClearRange | examples/modulecsqtt/native/csqtt-engine/session.rs:469-477 | Advancing by less than a window forgets exactly the counters that fall out of it |
| ReplayProtection.ReplayWindow.SetBit | examples/modulecsqtt/native/csqtt-engine/session.rs:492-495 | Sets the bit of every counter congruent modulo 16384 and no other |
| ReplayProtection.ReplayWindow.ClearBit | examples/modulecsqtt/native/csqtt-engine/session.rs:497-500 | Clears the bit of every counter congruent modulo 16384 and no other |
| Bits.SetBit | examples/modulecsqtt/native/csqtt-engine/session.rs:492-495 | On the 64-bit words of the ring, or-ing in a shifted one sets that position and leaves the others |
| Bits.ClearBit | examples/modulecsqtt/native/csqtt-engine/session.rs:497-500 | On the 64-bit words of the ring, and-ing the complement clears that position and leaves the others |
| ReplayProtection.ReplayWindow.AcceptRtp | examples/modulecsqtt/native/csqtt-engine/session.rs:507-519 | Offers the extended counter of a 16-bit sequence number and accepts it if and only if it is fresh |
| ReplayProtection.AcceptAll | examples/modulecsqtt/native/csqtt-engine/session.rs:461-505 | Over every sequence of counters each answer is that of the unbounded set model, so no counter is accepted twice |
| ReplayProtection.AcceptRtpAll | examples/modulecsqtt/native/csqtt-engine/session.rs:507-519 | The same for every sequence of 16-bit numbers and the counters recovered for them |
| ReplayProtection.RecoversExactly | examples/modulecsqtt/native/csqtt-engine/session.rs:507-519 | Sequence extension recovers the true counter if and only if it is strictly within half a block of the highest, or in one of the two listed boundary cases |
| ReplayProtection.PicksNearest | examples/modulecsqtt/native/csqtt-engine/session.rs:507-519 | Outside the first block the recovered counter is congruent and nearest to the highest |
| ReplayProtection.RtpRecoversIndices | examples/modulecsqtt/native/csqtt-engine/session.rs:507-519 | Across any number of wraps a run of arrivals recovers every sender index up to one constant if and only if each is on or after the first arrival's block and near enough to the greatest before it |
| ReplayProtection.PacedIsRecoverable | examples/modulecsqtt/native/csqtt-engine/session.rs:507-519 | Runs that stay strictly within half a block of their greatest index do |
| ReplayProtection.RtpAnswersByIndex | examples/modulecsqtt/native/csqtt-engine/session.rs:507-519 | In such a run an arrival is refused if and only if its index is a repetition or at least a window behind |
| ReplayProtection.EarlierBlockReadmitsDuplicate | examples/modulecsqtt/native/csqtt-engine/session.rs:507-519 | In a run that is not, a duplicate is accepted: three concrete arrivals |
| DataPath.SendRun | examples/modulecsqtt/native/csqtt-engine/obfs.rs:87-220 | Consecutive packets are wrapped and framed under consecutive sequence numbers modulo 2^16, each datagram opening to its own payload |
| DataPath.Inbound | examples/modulecsqtt/native/csqtt-engine/session.rs:522-533 | What opens goes through the replay window under its own sequence number, and is passed on if fresh; only what is whole and authentic is ever passed on, and what is not leaves the window alone |
| DataPath.ReceiveRun | examples/modulecsqtt/native/csqtt-engine/session.rs:522-533 | Over any recoverable order of arrivals, each is passed on with its exact payload if and only if it is fresh by its sender index |
| DataPath.SendAndReceiveRun | examples/modulecsqtt/native/csqtt-engine/session.rs:522-533 | Sender and receiver together: each payload is passed on exactly once, unchanged, whatever the order, losses and copies, unless a window behind |
| PacketBuffers.PacketBuffer.Receive | examples/modulecsqtt/native/csqtt-engine/packet.rs:139-150 | A datagram is taken if and only if it fits the read area, and then is the content; otherwise nothing changes |
| PacketBuffers.PacketBuffer.Prepend | examples/modulecsqtt/native/csqtt-engine/packet.rs:152-158 | Succeeds if and only if the headroom suffices; the range stays inside the 2304 bytes |
| PacketBuffers.PacketBuffer.ExtendTail | examples/modulecsqtt/native/csqtt-engine/packet.rs:160-170 | Succeeds if and only if the storage suffices; the range stays inside it |
| PacketBuffers.PacketBuffer.TrimFront | examples/modulecsqtt/native/csqtt-engine/packet.rs:172-178 | Succeeds if and only if the content is long enough |
| PacketBuffers.PacketBuffer.Truncate | examples/modulecsqtt/native/csqtt-engine/packet.rs:180-186 | Succeeds if and only if the content is long enough |
| PacketBuffers.PacketBuffer.SetRange | examples/modulecsqtt/native/csqtt-engine/packet.rs:210-216 | Succeeds if and only if the range is ordered and inside the storage |
| Obfuscation.ObfsState.Next | examples/modulecsqtt/native/csqtt-engine/obfs.rs:87-93 | The sequence number moves on by one modulo 2^16, also where the 64-bit count wraps, and so does the transport sequence |
| Obfuscation.ObfsState.Sequence | examples/modulecsqtt/native/csqtt-engine/obfs.rs:347-351 | The RTP sequence number is (initial + count) modulo 2^16 |
| Obfuscation.Wrap | examples/modulecsqtt/native/csqtt-engine/obfs.rs:116-220 | In place, for both modes: the content becomes header, protected payload, padding and tag; too large or empty packets are refused unchanged, and only an empty one leaves the counters |
| Obfuscation.Unwrap | examples/modulecsqtt/native/csqtt-engine/obfs.rs:222-303 | On arbitrary bytes: succeeds if and only if they are whole and authentic (in video mode the last ten bytes are the tag of all before them, in audio mode the cipher accepts what lies between header and padding, with the header as associated data), and then leaves exactly that payload; the exact error otherwise, never leaving the buffer |
| Obfuscation.OpensExactly | examples/modulecsqtt/native/csqtt-engine/obfs.rs:222-303 | On arbitrary bytes opening succeeds if and only if some header and payload bounds make them whole and authentic, and then yields that number and payload |
| Obfuscation.WrongTagFails | examples/modulecsqtt/native/csqtt-engine/obfs.rs:250-258 | A video packet whose last ten bytes are not the tag of what is before them fails as that, whatever else it says |
| Obfuscation.RefusedFails | examples/modulecsqtt/native/csqtt-engine/obfs.rs:278-303 | So does an audio packet that the cipher refuses |
| Obfuscation.WrongPaddingFails | examples/modulecsqtt/native/csqtt-engine/obfs.rs:278-303 | Padding that says zero, or more than there is, fails as that |
| Obfuscation.NoncesDiffer | examples/modulecsqtt/native/csqtt-engine/obfs.rs:353-367 | Two packets have the same nonce if and only if they have the same source, sequence number and time |
| Obfuscation.HeaderIsWritten | examples/modulecsqtt/native/csqtt-engine/obfs.rs:116-190 | What is written in front of a packet (section 5.1 of RFC 3550) carries version, payload type, sequence number, time and source where they belong |
| Obfuscation.ExtensionIsWritten | examples/modulecsqtt/native/csqtt-engine/obfs.rs:147-190 | The marker is set at most on video, and the extension carries the send time and the transport sequence number |
| Obfuscation.HeaderReadsBack | examples/modulecsqtt/native/csqtt-engine/obfs.rs:222-250 | Such a header reads back as RTP with padding bit, extension, length, sequence number and nonce |
| Obfuscation.PaddingReadsBack | examples/modulecsqtt/native/csqtt-engine/obfs.rs:250-303 | The padding of every draw is taken off exactly |
| Obfuscation.VideoOpens | examples/modulecsqtt/native/csqtt-engine/obfs.rs:250-277 | Bytes under a matching tag and with padding that reads back open to the payload whose keystream they hold |
| Obfuscation.AudioOpens | examples/modulecsqtt/native/csqtt-engine/obfs.rs:278-303 | Bytes that hold a sealed payload and padding that reads back open to it |
| Obfuscation.OpenUndoesWire | examples/modulecsqtt/native/csqtt-engine/obfs.rs:116-303 | For both modes, every non-empty payload, state and draw: opening undoes wrapping |
| ChannelData.Encode | examples/modulecsqtt/native/csqtt-engine/turn.rs:1524-1553 | Frames in place (section 11.4 of RFC 5766) if and only if the channel is valid and header and padding fit; otherwise the packet is untouched |
| ChannelData.Strip | examples/modulecsqtt/native/csqtt-engine/turn.rs:1434-1447 | Leaves exactly the payload announced by the header of a packet on the bound channel, any other packet untouched |
| ChannelData.HeaderOfFramed | examples/modulecsqtt/native/csqtt-engine/turn.rs:1502-1518 | The header of a framed payload reads back as its channel and length, whatever the padding |
| ChannelData.ChannelsAreMarked | examples/modulecsqtt/native/csqtt-engine/turn.rs:1502-1518 | Valid channel numbers are those whose frames start with the bits 01 |
| DataPath.Transmit | examples/modulecsqtt/native/csqtt-engine/obfs.rs:116-220 | Wrap and framing together put the framed wire form of the payload in the buffer, under the sender's sequence number |
| DataPath.Deliver | examples/modulecsqtt/native/csqtt-engine/turn.rs:1434-1447 | Receiving, stripping and unwrapping a framed datagram yields what opening its wire form yields, errors included |
| DataPath.SendAndReceive | examples/modulecsqtt/native/csqtt-engine/obfs.rs:116-303 | The whole way: every payload and draw whose datagram fits is received as the same payload under the sender's sequence number |
| TurnStream.TurnStreamReader.DecodeFrame | examples/modulecsqtt/native/csqtt-engine/turn_stream.rs:184-209 | Takes exactly the first frame off the buffer, if it is complete; pool misses turn data into DataDropped and still consume it |
| TurnStream.TurnStreamReader.ReadFrame | examples/modulecsqtt/native/csqtt-engine/turn_stream.rs:158-175 | Whatever the reads return, yields the first frame, or error, of the buffered and coming bytes; the buffer-limit error is unreachable |
| TurnStream.FullBufferDecodes | examples/modulecsqtt/native/csqtt-engine/turn_stream.rs:163-165 | A buffer of 4096 bytes always holds a frame or an error |
| TurnStream.ControlIsCut | examples/modulecsqtt/native/csqtt-engine/turn_stream.rs:222-259 | On arbitrary bytes a control frame is cut if and only if they start with a whole STUN message: leading bits 00, a length in words within the limit, the cookie |
| TurnStream.DataIsCut | examples/modulecsqtt/native/csqtt-engine/turn_stream.rs:222-259 | A data frame if and only if they start with whole ChannelData, padding included, that fits a packet |
| TurnStream.BadFramesFail | examples/modulecsqtt/native/csqtt-engine/turn_stream.rs:222-259 | Which bytes fail, and as what |
| TurnStream.DecodeIsStable | examples/modulecsqtt/native/csqtt-engine/turn_stream.rs:222-259 | More bytes never change a frame or error already decided |
| TurnStream.ReadFrames | examples/modulecsqtt/native/csqtt-engine/turn_stream.rs:158-268 | On any bytes cut into reads in any way: the frames of the whole stream, in order, and the same error |
| TurnStream.DecodeEncoded | examples/modulecsqtt/native/csqtt-engine/turn_stream.rs:222-259 | A well-formed frame (section 11.5 of RFC 5766) followed by anything decodes to itself |
| TurnStream.ParseEncoded | examples/modulecsqtt/native/csqtt-engine/turn_stream.rs:222-259 | A stream of well-formed frames parses to those frames with nothing left over |
| TurnStream.ReadMessages | examples/modulecsqtt/native/csqtt-engine/turn_stream.rs:158-268 | Every list of well-formed frames, under every cut into reads and every pattern of pool misses, is read back in order and in sync |
| PacketQueue.NoPacketOutlivesResume | examples/modulecsqtt/native/csqtt-engine/dispatcher.rs:235-341 | In every interleaving a packet delivered after a resume edge was stamped after it |
| PacketQueue.DeliveredExactly | examples/modulecsqtt/native/csqtt-engine/dispatcher.rs:235-341 | In every interleaving whatever the receiver takes off the queue was stamped, exactly once, and is delivered if and only if no resume started or ended since, and else discarded |
| PacketQueue.WordFollowsLog | examples/modulecsqtt/native/csqtt-engine/dispatcher.rs:306-341 | In every interleaving the queue is active exactly when the last resume has ended, or as it was made if there was none, and its epoch counts the resumes |
| PacketQueue.SendUndisturbed | examples/modulecsqtt/native/csqtt-engine/dispatcher.rs:235-275 | In every reachable state a send without interruption puts its packet last if the queue is open and active; only a forced one into a full queue makes room, by the oldest packet |
| PacketQueue.ReceiveUndisturbed | examples/modulecsqtt/native/csqtt-engine/dispatcher.rs:276-300 | In every reachable state a receive without interruption takes the oldest packet, and delivers it if and only if no resume edge has passed since its stamp |
| PacketQueue.StealUndisturbed | examples/modulecsqtt/native/csqtt-engine/dispatcher.rs:342-379 | Stealing hands over everything that waits, in order |
| PacketQueue.ResumeUndisturbed | examples/modulecsqtt/native/csqtt-engine/dispatcher.rs:306-341 | A resume empties the queue and leaves it active in the next epoch |
| PacketQueue.DeliveredInOrder | examples/modulecsqtt/native/csqtt-engine/dispatcher.rs:235-290 | Deliveries keep push order and the queue keeps its capacity, in every interleaving |
| PacketQueue.EveryPacketOnce | examples/modulecsqtt/native/csqtt-engine/dispatcher.rs:182-379 | Every pushed packet is exactly once delivered, discarded, purged, evicted, stolen or still waiting; nothing else leaves |
| PacketQueue.EpochInvHolds | examples/modulecsqtt/native/csqtt-engine/dispatcher.rs:235-341 | The epoch invariant of all interleavings: what waits or is being sent carries the epoch of the queue exactly as long as no resume edge has passed since its stamp |
| PacketQueue.InvHolds | examples/modulecsqtt/native/csqtt-engine/dispatcher.rs:182-379 | The order and conservation invariant of all interleavings |
| Scheduler.FastPathScheduler.SyncWorkerCount | examples/modulecsqtt/native/csqtt-engine/dispatcher.rs:174-179 | A changed worker count resets every cursor, an unchanged one nothing |
| Scheduler.FastPathScheduler.BeginForClass | examples/modulecsqtt/native/csqtt-engine/dispatcher.rs:142-166 | The next ticket of a class has the slot of its number and does not move the other classes |
| Scheduler.FastPathScheduler.Begin | examples/modulecsqtt/native/csqtt-engine/dispatcher.rs:122-132 | The worker set changes only between chunks, and slots stay below the length of the set held |
| Scheduler.SlotFormula | examples/modulecsqtt/native/csqtt-engine/dispatcher.rs:142-166 | The slot of ticket k is (k / chunk) mod n |
| Scheduler.Tickets | examples/modulecsqtt/native/csqtt-engine/dispatcher.rs:99-180 | The same for whole runs of the scheduler, whatever the classes interleave |
| Scheduler.ShareExact | examples/modulecsqtt/native/csqtt-engine/dispatcher.rs:142-166 | The exact number of tickets every worker has had after k tickets |
| Scheduler.Balanced | examples/modulecsqtt/native/csqtt-engine/dispatcher.rs:142-166 | Shares differ by at most one chunk in every prefix and not at all after full cycles |
| Dispatch.WorkerSet.EnqueueSelected | examples/modulecsqtt/native/csqtt-engine/dispatcher.rs:1469-1506 | First fit over exactly the slots searched: a clear queue if there is one, else one with room; None only if none of them has room, which from a healthy slot on means three slots and from any other means all |
| Dispatch.SelectedMeans | examples/modulecsqtt/native/csqtt-engine/dispatcher.rs:1469-1506 | What is selected has room; it is less than half full unless every queue with room that was searched is at least half full; and it is the first such queue, at most two slots on from a healthy one |
| Dispatch.NoneSelectedMeans | examples/modulecsqtt/native/csqtt-engine/dispatcher.rs:1469-1506 | Nothing is selected from a healthy slot on only if it and its next two have no room, and from any other only if nobody has |
| Dispatch.PlacedLast | examples/modulecsqtt/native/csqtt-engine/dispatcher.rs:1461-1467 | The packet is behind all others of its queue, of which at most the oldest is gone |
| Dispatch.WorkerSet.ReplaceOldest | examples/modulecsqtt/native/csqtt-engine/dispatcher.rs:1508-1525 | The first emptiest healthy queue takes the packet and loses its oldest only if full; without a healthy worker nothing changes |
| Dispatch.WorkerSet.DispatchPacket | examples/modulecsqtt/native/csqtt-engine/dispatcher.rs:990-1003 | Exactly one healthy worker gets the packet: the one the search selects, else the first emptiest; with equal capacities a packet is evicted if and only if no healthy worker has room |
| Dispatch.WorkerSet.DispatchNow | examples/modulecsqtt/native/csqtt-engine/dispatcher.rs:990-1013 | With the spare copy: it is placed by a search from half the workers away, never evicts anything, and goes to a second worker if both starting workers are clear |
| Dispatch.CapacitiesKept | examples/modulecsqtt/native/csqtt-engine/dispatcher.rs:1469-1525 | Placing a packet keeps equal capacities equal |
| Dispatch.SpillIsLastResort | examples/modulecsqtt/native/csqtt-engine/dispatcher.rs:1508-1525 | With equal capacities the emptiest healthy queue is full if and only if no healthy worker has room |
| Dispatch.WithPackets | examples/modulecsqtt/native/csqtt-engine/dispatcher.rs:1461-1467 | Only the queue of the packet's class changes |
| TurnPaths.InterleaveTurnPaths | examples/modulecsqtt/native/csqtt-engine/dispatcher.rs:409-440 | Terminates with the entries ordered by rank within their path and then path, each path keeping its sorted order, so that ids rise within each path |
| TurnPaths.SamePathsPermute | examples/modulecsqtt/native/csqtt-engine/dispatcher.rs:409-440 | That is a permutation of the workers |
| TurnPaths.PrefixesBalanced | examples/modulecsqtt/native/csqtt-engine/dispatcher.rs:409-440 | In every prefix two paths' counts differ by at most one unless the smaller is used up |
| TurnPaths.SortSorts | examples/modulecsqtt/native/csqtt-engine/dispatcher.rs:410-416 | The sort yields an ordered permutation |
| TurnPaths.GroupByPath | examples/modulecsqtt/native/csqtt-engine/dispatcher.rs:417-428 | One group for each path, in path order, holding exactly its entries |
| TurnPaths.DealRound | examples/modulecsqtt/native/csqtt-engine/dispatcher.rs:429-438 | One round deals the next entry of every group that has one |
| TurnPaths.WorkerTable.Register | examples/modulecsqtt/native/csqtt-engine/dispatcher.rs:641-650 | Ids stay unique: the new entry replaces what had its id and nothing else |
| TurnPaths.WorkerTable.Unregister | examples/modulecsqtt/native/csqtt-engine/dispatcher.rs:652-659 | Removes exactly that incarnation: a stale one never removes its replacement |
| WriterPipeline.TransportWriter.PreparePacket | examples/modulecsqtt/native/csqtt-engine/session.rs:603-613 | Numbers consecutive packets, takes no number for an empty one and one for a packet that is too large, and says which are to be duplicated |
| WriterPipeline.SequencesStep | examples/modulecsqtt/native/csqtt-engine/session.rs:603-613 | Sequence numbers start at the initial one, step by one and agree only at a distance of a multiple of 2^16 |
| WriterPipeline.TransportWriter.SendConnected | examples/modulecsqtt/native/csqtt-engine/udp_batch.rs:57-73 | Whatever the kernel takes per call, the datagrams leave in order and once; on failure a prefix of them has left; a kernel that recovers and keeps taking datagrams never makes it fail, unless there are more than 128 |
| WriterPipeline.TransportWriter.SendDataBatch | examples/modulecsqtt/native/csqtt-engine/turn.rs:520-571 | The same for a batch of any size, sent in chunks over UDP, or packet by packet over a stream, where it succeeds if and only if none of that many calls fails |
| WriterPipeline.TransportWriter.SendWithDuplicate | examples/modulecsqtt/native/csqtt-engine/turn.rs:485-513 | The primary leaves, and right after it, over UDP, the copy exactly if asked for and taken by the kernel |
| WriterPipeline.TransportWriter.SendBytes | examples/modulecsqtt/native/csqtt-engine/session.rs:657-670 | A writer command leaves as one more primary, or nothing leaves and at most one number is used up |
| WriterPipeline.TransportWriter.FlushMmsgData | examples/modulecsqtt/native/csqtt-engine/session.rs:645-655 | The whole batch leaves and is cleared, or a prefix of it leaves |
| WriterPipeline.TransportWriter.FlushQueuedData | examples/modulecsqtt/native/csqtt-engine/session.rs:620-655 | On success, which a kernel that keeps taking datagrams guarantees, the wire form of all queued packets is appended; on any failure that of some first of them. A batch leaves when it has reached its limit, a marked packet comes next or nothing does, and only then |
| WriterPipeline.PrimariesLeaveOnce | examples/modulecsqtt/native/csqtt-engine/session.rs:620-643 | In the wire form every primary is there once, in dequeue order, with consecutive sequence numbers |
| WriterPipeline.CopiesFollowPrimaries | examples/modulecsqtt/native/csqtt-engine/turn.rs:485-513 | In the wire form every copy immediately follows its own primary, and exactly the echoed ones have one |
| WriterLoop.WriterQueues.NextWriterPacket | examples/modulecsqtt/native/csqtt-engine/session.rs:1206-1229 | Takes the oldest packet of the most urgent queue, whatever arrives between the looks |
| WriterLoop.WriterQueues.Extend | examples/modulecsqtt/native/csqtt-engine/session.rs:1135-1180 | A batch is of one class, within its limit and in queue order; it ends when and only when the limit is reached, the queue is empty or something more urgent waits |
| WriterLoop.WriterQueues.OutrankedMeans | examples/modulecsqtt/native/csqtt-engine/session.rs:1170-1180 | More urgent means waiting in a queue of an earlier class |
| WriterLoop.SendWriterBatch | examples/modulecsqtt/native/csqtt-engine/session.rs:1135-1168 | The batch taken is what is put on the wire |
| WriterLoop.DataRound | examples/modulecsqtt/native/csqtt-engine/session.rs:1094-1132 | One round adds to the wire exactly the batch it takes, at least one packet if any waits, or, if sending fails, the first of it |
| WriterLoop.CommandRound | examples/modulecsqtt/native/csqtt-engine/session.rs:1089-1092 | A round with a command adds that command or nothing, and keeps the numbers in step |
| WriterLoop.RunWriter | examples/modulecsqtt/native/csqtt-engine/session.rs:1074-1133 | Over any rounds, arrivals and commands: the wire is the wire form of all packets in the order taken with the commands among them, numbers are consecutive but for failed commands, each class is taken in order of arrival, every round without a command takes a packet while any waits, and the loop ends early only if the kernel or a refused packet makes a batch fail |
| WriterLoop.OnWireConcat | examples/modulecsqtt/native/csqtt-engine/session.rs:620-643 | Consecutive batches put on the wire what one batch of all their packets would |
| Shutdown.OneLeader | examples/modulecsqtt/native/csqtt-engine/session.rs:305-319 | At most one caller ever becomes leader |
| Shutdown.RequestsLead | examples/modulecsqtt/native/csqtt-engine/session.rs:305-319 | As soon as anyone asks for shutdown there is one |
| Shutdown.OffersInOrder | examples/modulecsqtt/native/csqtt-engine/session.rs:322-389 | The streams offered are, each once and in strictly descending (activity, incarnation) order, the first of those live when the leader took its snapshot |
| Shutdown.MostRecentFirst | examples/modulecsqtt/native/csqtt-engine/session.rs:280-333 | The streams offered were live at the snapshot, and of two the one registered or marked active later comes first |
| Shutdown.ActivityHolds | examples/modulecsqtt/native/csqtt-engine/session.rs:280-304 | The list holds only live streams, with activity numbers that tell which was registered or marked active last |
| Shutdown.LiveIsListed | examples/modulecsqtt/native/csqtt-engine/session.rs:280-304 | Every stream that is registered before shutdown and not dropped is in the list |
| Shutdown.FiveGetAChance | examples/modulecsqtt/native/csqtt-engine/session.rs:321-389 | Unless completion is seen, the leader does not stop before every stream of its snapshot, or five, have been offered DISCONNECT |
| Shutdown.SilentStreamsAreAwaited | examples/modulecsqtt/native/csqtt-engine/session.rs:340-389 | After a stream took the offer no other is offered within 80 ms |
| Shutdown.RefusalGoesOn | examples/modulecsqtt/native/csqtt-engine/session.rs:340-389 | A stream may take up to 80 ms, within the budget, to refuse, and the leader then goes on at once |
| Shutdown.SilenceGoesOn | examples/modulecsqtt/native/csqtt-engine/session.rs:340-389 | A stream that takes the offer and stays silent is left after exactly 80 ms more, or at the deadline |
| Shutdown.CompletionStopsOffers | examples/modulecsqtt/native/csqtt-engine/session.rs:327-356 | No offer after completion is seen, and at most one after it happened |
| Shutdown.LateOfferExactly | examples/modulecsqtt/native/csqtt-engine/session.rs:327-370 | When a response has just completed the shutdown, some continuation offers another stream if and only if the leader stands between its check of the flag and the offer |
| Shutdown.LateOfferHappens | examples/modulecsqtt/native/csqtt-engine/session.rs:327-370 | A run in which that happens |
| Shutdown.LeaderWithinBudget | examples/modulecsqtt/native/csqtt-engine/session.rs:321-356 | The leader is done at most 700 ms after it was chosen and leaves the shutdown completed |
| Shutdown.LeaderWithinDeadline | examples/modulecsqtt/native/csqtt-engine/session.rs:321-356 | While it works, time stays within its deadline |
| Shutdown.InvHolds | examples/modulecsqtt/native/csqtt-engine/session.rs:280-416 | The invariants behind these, for every interleaving of requests, registrations, drops, responses and time |
| Repair.SequenceWinsOnce | examples/modulecsqtt/native/csqtt-engine/repair.rs:83-116 | On each worker the winning sequences rise strictly, so no sequence restarts it twice |
| Repair.LastIsMaximum | examples/modulecsqtt/native/csqtt-engine/repair.rs:83-116 | At quiescence a worker's last sequence is the maximum of those applied to it |
| Repair.RestartsAreWins | examples/modulecsqtt/native/csqtt-engine/repair.rs:83-116 | At quiescence a worker's restart generation is the number of won exchanges on it, and its credential generation the number of those that replaced an earlier sequence and then found the worker ready for less than that |
| Repair.RepairUndisturbed | examples/modulecsqtt/native/csqtt-engine/repair.rs:83-116 | In any state a repair command without interruption repairs each listed worker: a newer sequence restarts it, and resets its credentials if and only if it was repaired before and was not ready since |
| Repair.OneRepairUndisturbed | examples/modulecsqtt/native/csqtt-engine/repair.rs:83-116 | And it reports exactly the restart and the reset it made |
| Repair.RepairMeans | examples/modulecsqtt/native/csqtt-engine/repair.rs:83-116 | Listing a worker twice repairs it once, and no other worker changes |
| Repair.AliveUndisturbed | examples/modulecsqtt/native/csqtt-engine/repair.rs:75-82 | An alive notice raises what each listed worker is ready for to its sequence and changes nothing else |
| Repair.ReadyUndisturbed | examples/modulecsqtt/native/csqtt-engine/repair.rs:118-130 | A worker that becomes ready is ready for the last sequence it was repaired by |
| Repair.ReadinessDecides | examples/modulecsqtt/native/csqtt-engine/repair.rs:98-106 | So a worker ready since its last repair keeps its credentials at the next, and one that was not gets new ones |
| Repair.ReportsAddUp | examples/modulecsqtt/native/csqtt-engine/repair.rs:83-116 | At quiescence the restarts all calls reported add up to the won exchanges |
| Repair.ReportsAreGenerations | examples/modulecsqtt/native/csqtt-engine/repair.rs:83-116 | In every state the restarts and credential resets all calls report add up to the restart and credential generations of all workers |
| Repair.InvHolds | examples/modulecsqtt/native/csqtt-engine/repair.rs:75-136 | The sequence and counting invariants of all interleavings of repair, alive and ready calls |
| Protocol.ParseStreamCommand | examples/modulecsqtt/native/csqtt-engine/protocol.rs:110-139 | The loop accepts and rejects as the grammar says |
| Protocol.NumberOf8 | examples/modulecsqtt/native/csqtt-engine/protocol.rs:110-139 | The sequence is read with the most significant byte first |
| Protocol.ParseReadsBack | examples/modulecsqtt/native/csqtt-engine/protocol.rs:110-139 | Every well-formed command is understood as itself |
| Protocol.OnlyWellFormedParse | examples/modulecsqtt/native/csqtt-engine/protocol.rs:110-139 | Only byte-exact well-formed commands are understood: sequence above zero, ids in 1..desired, desired at most 126 |
| Idle.Parking | examples/modulecsqtt/native/csqtt-engine/idle.rs:188-238 | In every run: active exactly while fewer ids than the total are allowed, and exactly the ids above the declared count are parked |
| Idle.EnterKeeps | examples/modulecsqtt/native/csqtt-engine/idle.rs:205-226 | In every reachable state, entering idle with some, but fewer workers than there are, and not a second time, keeps exactly the ids up to that many, declares their number and opens one epoch; any other enter changes nothing |
| Idle.ExitUnparks | examples/modulecsqtt/native/csqtt-engine/idle.rs:228-238 | Leaving idle unparks and declares every worker and opens no epoch |
| Idle.LimitIsLastKeep | examples/modulecsqtt/native/csqtt-engine/idle.rs:205-238 | While idle, the ids allowed are those the last enter that took effect kept |
| Idle.EpochOpensOnce | examples/modulecsqtt/native/csqtt-engine/idle.rs:120-152 | Each epoch is moved on at most once, by losses and idling together |
| Idle.LossNeedsJoin | examples/modulecsqtt/native/csqtt-engine/idle.rs:105-152 | A loss only moves on an epoch its own worker joined before |
| Idle.LossesAtMostJoins | examples/modulecsqtt/native/csqtt-engine/idle.rs:105-152 | Losses open at most as many epochs as there were joins |
| Idle.DeathClosesEpochs | examples/modulecsqtt/native/csqtt-engine/idle.rs:115-152 | However the other workers' calls interleave, once the death of a worker that is not parked is dealt with, every epoch it had joined is closed |
| Idle.DeathOpensNext | examples/modulecsqtt/native/csqtt-engine/idle.rs:115-152 | In every reachable state the death of a worker opens the next epoch if and only if the worker is not parked and has joined the current one; so also after it re-joined |
| Idle.JoinThenDie | examples/modulecsqtt/native/csqtt-engine/idle.rs:105-152 | So a worker that joins and then dies, not parked, opens the next epoch, however often it has done so |
| Idle.SlotHolds | examples/modulecsqtt/native/csqtt-engine/idle.rs:105-152 | In every reachable state a worker's slot holds the current epoch if and only if the worker has joined it |
| Idle.EpochInvHolds | examples/modulecsqtt/native/csqtt-engine/idle.rs:105-152 | The epoch invariant of all interleavings |
| Logging.OutstandingIsExact | examples/modulecsqtt/native/csqtt-engine/logging.rs:142-162 | In every interleaving the outstanding counter is the lines queued, held by the writer and in the middle of a push |
| Logging.LinesConserved | examples/modulecsqtt/native/csqtt-engine/logging.rs:142-162 | At quiescence accepted = written (repetitions expanded) + dropped + queued, and outstanding = queued |
| Logging.LogUndisturbed | examples/modulecsqtt/native/csqtt-engine/logging.rs:142-162 | In every reachable state a line logged without interruption ends up last in its queue, behind all that was there, or if the queue was full, all but the oldest, which is dropped; nothing else changes |
| Logging.GivesUpAfterFour | examples/modulecsqtt/native/csqtt-engine/logging.rs:142-162 | In every interleaving a producer gives its own line up if and only if it found the queue full four times |
| Logging.WrittenInPushOrder | examples/modulecsqtt/native/csqtt-engine/logging.rs:387-464 | What is printed, with every (xN) written out, is the text of a subsequence of the pushed lines, in push order |
| Logging.PrintedIsTaken | examples/modulecsqtt/native/csqtt-engine/logging.rs:207-221 | Every printed value and count stands for exactly as many taken lines with that text |
| Logging.WriterKeepsPipe | examples/modulecsqtt/native/csqtt-engine/logging.rs:387-464 | No step of the writer reorders, loses or invents a line |
| Logging.BoundedBypass | examples/modulecsqtt/native/csqtt-engine/logging.rs:387-464 | While a diagnostic keeps waiting at most 32 protocol lines are written before one diagnostic is |
| Logging.TurnUndisturbed | examples/modulecsqtt/native/csqtt-engine/logging.rs:387-426 | The next turn of a writer left alone, in every reachable state: the oldest protocol line while the burst lasts or no diagnostic waits; else the oldest diagnostic with all its directly following repetitions, up to 64, after which protocol lines have a new burst |
| Logging.WriterDrains | examples/modulecsqtt/native/csqtt-engine/logging.rs:387-464 | Left alone in any reachable state, the writer writes everything held and queued, of each kind in order, and comes to rest |
| Logging.BooksHold | examples/modulecsqtt/native/csqtt-engine/logging.rs:142-162 | The counting invariants of all interleavings |
| Logging.BoundedLine.WriteStr | examples/modulecsqtt/native/csqtt-engine/logging.rs:37-54 | The line is the longest whole-character prefix of at most 4096 bytes of everything written |
| Logging.KeepsCut | examples/modulecsqtt/native/csqtt-engine/logging.rs:37-54 | Once text is cut off, more text does not change where |
| PacketPool.EveryBufferCounted | examples/modulecsqtt/native/csqtt-engine/packet.rs:35-113 | In every interleaving the counter is the live, retained and in-transit buffers, at most the limit; retained ones keep their own bound; no buffer has two owners |
| PacketPool.AcquireFailsExactly | examples/modulecsqtt/native/csqtt-engine/packet.rs:50-71 | In every reachable state an acquire fails if and only if no buffer is retained and the live and in-transit ones make up the limit; else one more buffer is live |
| PacketPool.AcquireFailsWhenFull | examples/modulecsqtt/native/csqtt-engine/packet.rs:50-71 | So on a quiescent pool it fails if and only if as many buffers are live as the limit allows |
| PacketPool.ReleaseUndisturbed | examples/modulecsqtt/native/csqtt-engine/packet.rs:73-113 | A buffer released without interruption is retained as long as there is room, and given up and counted off otherwise |
| PacketPool.AcquireReuses | examples/modulecsqtt/native/csqtt-engine/packet.rs:50-71 | A retained buffer is used again before a new one is made |
| PacketPool.DiscardUndisturbed | examples/modulecsqtt/native/csqtt-engine/packet.rs:73-113 | A buffer whose storage was resized is counted off and never used again |
| PacketPool.InTransitAcquireFails | examples/modulecsqtt/native/csqtt-engine/packet.rs:50-71 | A run after which it fails with no live buffer |
| PacketPool.InvHolds | examples/modulecsqtt/native/csqtt-engine/packet.rs:35-113 | The counting and ownership invariant of all interleavings |
| StunCodec.Decode | examples/modulecsqtt/native/csqtt-engine/stun_codec.rs:37-88 | Accepts exactly the well-headed messages whose attributes tile the bytes after the header, with the error of the first failed check otherwise; a cut-off attribute header is unreachable |
| StunCodec.Attributes.Next | examples/modulecsqtt/native/csqtt-engine/stun_codec.rs:144-165 | Yields the next attribute of the tiling and stops at the end |
| StunCodec.Collect | examples/modulecsqtt/native/csqtt-engine/stun_codec.rs:113-165 | The whole walk yields all of them |
| StunCodec.AttributesTile | examples/modulecsqtt/native/csqtt-engine/stun_codec.rs:113-165 | They lie back to back from byte 20 to the end, each followed by its padding |
| StunCodec.AttributesReadBack | examples/modulecsqtt/native/csqtt-engine/stun_codec.rs:144-165 | Encoded attributes (section 14 of RFC 8489) read back as themselves, apart from the 0x8020 alias |
| StunCodec.KindReadsBack | examples/modulecsqtt/native/csqtt-engine/stun_codec.rs:95-107 | Class and method read back from the interleaved type bits |
| StunCodec.ClassBitsExactly | examples/modulecsqtt/native/csqtt-engine/stun_codec.rs:95-107 | Each class by its two bits of the type |
| StunCodec.MethodBitsExactly | examples/modulecsqtt/native/csqtt-engine/stun_codec.rs:95-107 | The method is the other bits of the lower fourteen, in their order |
| StunCodec.HeaderDemands | examples/modulecsqtt/native/csqtt-engine/stun_codec.rs:37-88 | Which headers are accepted, exactly, and as what the others fail |
| StunCodec.HeaderReadsBack | examples/modulecsqtt/native/csqtt-engine/stun_codec.rs:37-88 | An encoded header (section 5 of RFC 8489) passes every check and reads back |
| StunCodec.EncodeThenDecode | examples/modulecsqtt/native/csqtt-engine/stun_codec.rs:37-165 | Decoding and walking an encoded message gives back type, transaction and attributes |
| Dns.BuildQuery | examples/modulecsqtt/native/csqtt-engine/dns.rs:213-237 | Succeeds if and only if the host is valid, with which error if not, and writes its labels as one question of class IN |
| Dns.HostsAreNames | examples/modulecsqtt/native/csqtt-engine/dns.rs:213-228 | The valid hosts are exactly the ASCII labels of 1 to 63 bytes with a dot between any two, at most 253 bytes, with any number of dots at the end; those labels are encoded |
| Dns.QuerySays | examples/modulecsqtt/native/csqtt-engine/dns.rs:219-237 | A query carries its id, asks for recursion and has one question of the record type and class IN |
| Dns.SkipName | examples/modulecsqtt/native/csqtt-engine/dns.rs:307-328 | Terminates on any bytes with the end of the name or an error |
| Dns.NameIsSkipped | examples/modulecsqtt/native/csqtt-engine/dns.rs:307-328 | Any name, with or without a compression pointer, is skipped to the byte right after it |
| Dns.BuildAndSkip | examples/modulecsqtt/native/csqtt-engine/dns.rs:213-328 | Skipping the name of any built query lands exactly on the question type |
| Dns.RecordReadsBack | examples/modulecsqtt/native/csqtt-engine/dns.rs:263-300 | Where an encoded resource record stands, reading it yields its address, exactly if it is one of class IN with the right type and length, and the offset right after it |
| Dns.CollectAddresses | examples/modulecsqtt/native/csqtt-engine/dns.rs:261-305 | Collects the addresses of the records without repetitions |
| Dns.ParseResponse | examples/modulecsqtt/native/csqtt-engine/dns.rs:239-305 | Terminates on arbitrary bytes without leaving them and returns what the specification does |
| Dns.OnlyAnswersAreRead | examples/modulecsqtt/native/csqtt-engine/dns.rs:239-256 | A response that is short, has another id, is no response, is truncated or reports an error fails as that, in this order |
| Dns.DedupIsDistinct | examples/modulecsqtt/native/csqtt-engine/dns.rs:281-303 | The result has the same addresses, none twice |
| Dns.DedupKeepsPrefixes | examples/modulecsqtt/native/csqtt-engine/dns.rs:281-303 | In the order of their first appearance |
| Dns.QuestionsSkipped | examples/modulecsqtt/native/csqtt-engine/dns.rs:239-262 | All questions of a well-formed response are skipped exactly |
| Dns.RecordsReadBack | examples/modulecsqtt/native/csqtt-engine/dns.rs:261-305 | The records of a well-formed response yield exactly their class-IN addresses |
| Dns.ParseReadsBack | examples/modulecsqtt/native/csqtt-engine/dns.rs:239-305 | A well-formed response (section 4.1 of RFC 1035) yields exactly the distinct class-IN A and AAAA addresses of its answers in first-appearance order |

## Left out

* Counters of 64 bits that the source lets wrap or saturate are unbounded in the state machines: queue
  epochs and pushes, repair generations, the idle offset, stream activity. Replay counters and the
  wrapper's counters keep their widths.
- ReplayProtection.RtpRecoversIndices: does not cover indices within 65536 of the 64-bit limit, where the extension saturates.
- Shutdown.LeaderWithinBudget: takes timers as exact and computation as taking no time.
- Shutdown.OffersInOrder: takes the activity loads of a snapshot as one step, and drawing and storing an activity number as one; followers, which only wait, do nothing.
- Idle.Parking: takes `enter` and `exit` as single calls; `reset` in the middle of a run, the announcement counter and the uplink window are not modelled.
- Logging.LinesConserved: does not cover flush and shutdown draining or the refusal of producers after shutdown; a sink that fails counts as written.
- PacketQueue.EveryPacketOnce: a push into a full queue without force returns the packet to its sender and is not counted as pushed.
- WriterPipeline.TransportWriter.FlushQueuedData: starts from an empty batch, and does not continue a writer after a failed batch, which ends its session; over a stream the wire is the order of the stream's data queue.
- WriterPipeline.TransportWriter.PreparePacket: the packets that are empty, too large or chosen for a duplicate are given; wrapping itself is in `Obfuscation.Wrap`.
- Dispatch.WorkerSet.DispatchNow: queues are values, active and open, so two workers never share one; which packets get a spare copy is given; redispatch is not modelled.
- Obfuscation.Unwrap: the bytes outside the payload range, and all bytes after a failed opening, are left unspecified.
* Wake-ups and liveness: `Notify`, `recv`, `parked`, `changed`.
* Sockets, TLS, what a stream does with its data queue, TUN devices, HTTP, authentication and browser profiles.
* Cipher internals and random generation; media ticks are inputs rather than computed from elapsed time.
* Packet classification, chunk sizes, batch limits and the FEC decision are parameters.
* Path names are numbers in the order of the names.
* STUN fingerprints, endpoint parsing, the DNS cache and transport.
* `try_duplicate`, batch-limit adaptation and the reordering of return packets: not hard.
