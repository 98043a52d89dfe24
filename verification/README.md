# badvpn, modelled and proved in Dafny

badvpn is an event-driven VPN stack in C: sources hand packets to queues, queues to encoders, encoders to
links, and every hand-over goes through a stack of pending jobs. This project models its state machines
and codecs, keeping the form of the source (a class with the object's fields where the C updates an
object in place, loops where it loops), and proves what the protocols are for.

Each component comes in two layers. A specification module says on plain values what one event does and
proves what holds over all runs; a class does the same work on arrays, lists and maps step by step, and
each of its methods is proved to do to its abstract state what the specification says.

| files | component |
|---|---|
| Chunks, AssemblerSpec, PacketParse, FragmentAssembler | rebuilding frames from chunks in a fixed pool of slots |
| PoolOrder | which frame a full pool gives up |
| Reassembly, Interleaving | the assembler against an ideal receiver; round trip under interleaving |
| SenderSpec, SenderRuns, FragmentDisassembler | cutting frames into packets; in-order round trip |
| CancelLoss, CancelSafety, CancelMixing | what cancelling half-way costs, and exactly when it costs no more than frames |
| FairQueueSpec, FairQueueRuns, FairQueueClipping, FairQueueFairness, FairQueueArrivals, FairQueueJobs, FairQueue | the virtual-time fair queue with clocks that are shifted on overflow |
| JobStack, PacketPass, PacketPassInterface | the job stack and the Send / RequestCancel / Done protocol on it |
| DataPlaneSpec, DataPlane | attaching, detaching and moving buffers between sinks while sends are in progress |
| RelaySpec, Client | links, relays and waiting peers, over the data plane |
| MulticastIndex, FrameDecider, FrameRouting | learned addresses, joined groups, and where a frame goes |
| PacketProto, PacketProtoCutting, PacketProtoCodec, LineBuffer | framing of byte streams |
| BProtoWire, BProtoParser | BProto messages, for any schema |
| SPProtoSpec, SPProto | protected packets: one-time passwords, hash, encryption |
| DhcpSpec, DhcpMessage, DhcpExchange, DhcpClient | the DHCP client |
| WireFormats | the wire formats of the protocols, byte by byte |
| Bytes, Options, Division | shared definitions |

`dafny verify dfyconfig.toml` checks the whole project.

Objects are named by numbers where the C has pointers (a flow's number stands for its address, which the
fair queue compares). Linked lists are sequences and search trees are maps or sorted sequences. Timers,
completions, received bytes and random numbers are parameters of the events. Hash and cipher are function
parameters: the cipher is a bijection on whole blocks for each key and IV, nothing more.

Where the code does not do what one would expect, the model follows the code and says so:

* A fragment frame cancelled after some of it was written leaves chunks at the receiver under an id that is
  used again: the next frame is lost exactly when the receiver holds anything under that id
  (`CancelLoss.ArrivesIffNothingHeld`). Frames are only lost, never mixed, exactly as long as the packets
  the receiver remembers have no room for a chunk of each id (`CancelMixing.MixesIffIdsComeBack`), which
  holds for the receiver of the program (`CancelMixing.FewFramesOutlast`).
* Moving all clocks back clips those of idle flows to 0, which shows once the fair queue has been idle
  altogether (`FairQueueClipping.ClippingIsSeen`), unless no flow that had sent before is left
  (`FairQueueClipping.UnseenIffNothingClipped`).
* A frame that arrives while a multicast decision is not drained is not decided at all
  (`FrameDeciders.DecidesRightIffDrained`).
* After an oversized PacketProto length, what else arrived in the same piece is lost, so the outcome
  depends on how the stream was cut (`PacketProtoCutting.ErrorsSeeChunking`), except where there is no room
  for anything else (`PacketProtoCutting.CuttingInvisibleIffSettled`).

## Model

| member | source | states |
|---|---|---|
| `Chunks.SumTestIsExact` | app/src/main/jni/badvpn/client/FragmentProtoAssembler.c:197-268 | For any pairwise disjoint chunks the lengths sum to at most the farthest end, and to exactly that end if and only if every byte below it is written. |
| `Chunks.SumDecidesCompleteness` | app/src/main/jni/badvpn/client/FragmentProtoAssembler.c:239-268 | `sum == length` holds exactly when every byte of the frame has been written: the length-sum test is a completeness test. |
| `Chunks.OneWriter` | app/src/main/jni/badvpn/client/FragmentProtoAssembler.c:197-204 | In accepted chunks each written byte has exactly one writer. |
| `Chunks.CutsComplete` | app/src/main/jni/badvpn/client/FragmentProtoAssembler.c:197-278 | Chunks cut from one frame, accepted without overlap, are complete exactly when they cover the frame, and then the content is the frame byte for byte. |
| `AssemblerSpec.ReceiveKeepsInv` | app/src/main/jni/badvpn/client/FragmentProtoAssembler.c:154-283 | Any chunk whatsoever, in any state, keeps at most num_frames frames, distinct ids, disjoint chunks within the length, frame time within the clock; a frame that is emitted is spelled out by the chunks stored under that id together with the new one, which are consistent and complete. |
| `AssemblerSpec.ReduceKeepsInv` | app/src/main/jni/badvpn/client/FragmentProtoAssembler.c:117-152 | Renormalisation keeps the invariant and strictly lowers the clock, by the time of the oldest surviving frame. |
| `AssemblerSpec.TickKeepsInv` | app/src/main/jni/badvpn/client/FragmentProtoAssembler.c:326-339 | The packet clock never passes FPA_MAX_TIME and every frame time stays within it. |
| `AssemblerSpec.TickAgesByOne` | app/src/main/jni/badvpn/client/FragmentProtoAssembler.c:110-152 | Across a clock step, renormalised or not, a surviving frame ages by exactly one; renormalisation frees exactly the frames that have timed out. |
| `PoolOrder.ReceiveMeans` | app/src/main/jni/badvpn/client/FragmentProtoAssembler.c:57-283 | All that a chunk does to the pool: out of bounds, nothing; beginning a frame while num_frames others are in use, it pushes out the first of them and only that; every other frame keeps place, chunks and time, and its own goes last, stays, or is gone when finished, refused or out of chunks. |
| `PoolOrder.HeldAreLatestBegun` | app/src/main/jni/badvpn/client/FragmentProtoAssembler.c:57-193 | Over any run the frames held are the latest begun of those not over (finished, refused or timed out), and one more of them is missing exactly when a frame begins while num_frames others are in use. |
| `PacketParse.AnyPacketsKeepInv` | app/src/main/jni/badvpn/client/FragmentProtoAssembler.c:285-346 | No sequence of carrier packets, however malformed, leads out of the invariant. |
| `FragmentAssemblers.ChecksDecideConsistency` | app/src/main/jni/badvpn/client/FragmentProtoAssembler.c:197-226 | The three checks of process_chunk accept a chunk exactly when the chunks of the frame stay consistent with it. |
| `FragmentAssemblers.FragmentAssembler.FreeFrame` | app/src/main/jni/badvpn/client/FragmentProtoAssembler.c:46-55 | Unlinks one frame: list, tree and free list keep partitioning the fixed slots (used + free = num_frames). |
| `FragmentAssemblers.FragmentAssembler.AllocateNewFrame` | app/src/main/jni/badvpn/client/FragmentProtoAssembler.c:57-103 | Takes a free slot; when there is none, the first frame of the used list is given up and all others stay. What that means for the pool is stated without it in PoolOrder.ReceiveMeans. |
| `FragmentAssemblers.FragmentAssembler.FindOrAllocate` | app/src/main/jni/badvpn/client/FragmentProtoAssembler.c:163-193 | The slot used is that of the live frame with this id, or a new one where there is none or it has timed out. |
| `FragmentAssemblers.FragmentAssembler.AnyOverlap` | app/src/main/jni/badvpn/client/FragmentProtoAssembler.c:105-204 | The scan finds an overlap exactly if some recorded chunk has a byte in common with the new one. |
| `FragmentAssemblers.FragmentAssembler.Acceptable` | app/src/main/jni/badvpn/client/FragmentProtoAssembler.c:197-226 | The checks on the slot accept exactly the chunks that pass. |
| `FragmentAssemblers.FragmentAssembler.AddChunk` | app/src/main/jni/badvpn/client/FragmentProtoAssembler.c:230-254 | Table entry, sum, lengths and buffer of the slot come to hold one more chunk. |
| `FragmentAssemblers.FragmentAssembler.SumDecides` | app/src/main/jni/badvpn/client/FragmentProtoAssembler.c:256-268 | The incompleteness test on the slot sums is exact. |
| `FragmentAssemblers.FragmentAssembler.RemoveTimedOut` | app/src/main/jni/badvpn/client/FragmentProtoAssembler.c:117-140 | The first walk keeps exactly the live frames and finds the least time among them. |
| `FragmentAssemblers.FragmentAssembler.SubtractTime` | app/src/main/jni/badvpn/client/FragmentProtoAssembler.c:142-147 | The second walk lowers the time of every frame by the least one. |
| `FragmentAssemblers.FragmentAssembler.InputHandlerSend` | app/src/main/jni/badvpn/client/FragmentProtoAssembler.c:348-360 | Only while nothing is being sent; what is sent now and what the rest of the packet will send are together the frames of the packet. |
| `FragmentAssemblers.FragmentAssembler.OutputHandlerDone` | app/src/main/jni/badvpn/client/FragmentProtoAssembler.c:362-368 | The only handler that ends a send; goes on with the packet where it stopped. |
| `FragmentAssemblers.FragmentAssembler.ReduceTimes` | app/src/main/jni/badvpn/client/FragmentProtoAssembler.c:117-152 | The two list walks free exactly the timed-out frames and subtract the minimum from the others. |
| `FragmentAssemblers.FragmentAssembler.ProcessChunk` | app/src/main/jni/badvpn/client/FragmentProtoAssembler.c:154-283 | On arrays and slots: the chunk is placed or refused as the abstract receiver says, and a frame is sent exactly when it says so; the place handed out, in a slot already free again, holds the bytes of that frame. |
| `FragmentAssemblers.FragmentAssembler.ProcessInput` | app/src/main/jni/badvpn/client/FragmentProtoAssembler.c:285-346 | Reads until a frame completes or the packet ends; while the frame is being sent the buffer it is read from keeps its bytes. |
| `FragmentAssemblers.ReceivePacket` | app/src/main/jni/badvpn/client/FragmentProtoAssembler.c:348-368 | A packet taken to its end, one send at a time, emits exactly the frames of the packet in order, although each is read from its freed slot only at the end of its send. |
| `Reassembly.AssemblerIsIdeal` | app/src/main/jni/badvpn/client/FragmentProtoAssembler.c:154-346 | Refinement: over any run of pieces and packet ends within the pool and time bounds, the assembler emits exactly what a receiver with unbounded memory and time would, in the same order. |
| `Interleaving.InterleavedRoundTrip` | app/src/main/jni/badvpn/client/FragmentProtoAssembler.c:154-346 | Frames with distinct ids, cut anyhow and shuffled anyhow over any packets, come out exactly once each, byte for byte, as long as at most num_frames are unfinished at a time and no gap exceeds the tolerance. |
| `SenderSpec.PutStory` | app/src/main/jni/badvpn/client/FragmentProtoDisassembler.c:39-102 | Writing a chunk goes on with the tiling whatever was cancelled before: the chunks of each frame follow each other from 0 without gap, only the final one is flagged last. |
| `SenderSpec.PutKeeps` | app/src/main/jni/badvpn/client/FragmentProtoDisassembler.c:39-102 | Without a half-written cancel before it, it also keeps the whole history intact. |
| `SenderSpec.PieceCount` | app/src/main/jni/badvpn/client/FragmentProtoDisassembler.c:39-102 | From any fill of the packet in progress, the chunks written for a frame and those still to come stay within the exact worst case. |
| `SenderSpec.UnlimitedBound` | app/src/main/jni/badvpn/protocol/fragmentproto.h:92-98 | Without a limit on the chunk length that worst case is at most 1 + ceil(L / room), what the protocol header computes. |
| `SenderSpec.LimitedBound` | app/src/main/jni/badvpn/client/FragmentProtoDisassembler.c:39-102 | With chunk_mtu > 0 it is at most 1 + 2 * ceil(L / min(chunk_mtu, room)). |
| `SenderSpec.AcceptKeeps` | app/src/main/jni/badvpn/client/FragmentProtoDisassembler.c:104-120 | Taking the next frame keeps the whole history straight. |
| `SenderSpec.CloseKeeps` | app/src/main/jni/badvpn/client/FragmentProtoDisassembler.c:84-97 | Ending a packet keeps it too. |
| `SenderSpec.CancelKeeps` | app/src/main/jni/badvpn/client/FragmentProtoDisassembler.c:122-132 | A frame taken back before anything was written leaves no trace. |
| `SenderSpec.PacketsAreLog` | app/src/main/jni/badvpn/client/FragmentProtoAssembler.c:285-346 | Reading the packets' bytes does to the assembler what the recorded chunks say. |
| `SenderSpec.PacketReads` | app/src/main/jni/badvpn/client/FragmentProtoAssembler.c:285-320 | A packet of chunks parses back into exactly those chunks. |
| `SenderSpec.ChunkLen` | app/src/main/jni/badvpn/client/FragmentProtoDisassembler.c:53-56 | A chunk is the longest that the packet, the frame and chunk_mtu allow. |
| `WireFormats.WrittenChunk` | app/src/main/jni/badvpn/client/FragmentProtoDisassembler.c:58-66 | A chunk is written as frame id, start and length in 16 bits each, low byte first, the last flag, and the data. |
| `WireFormats.ReadChunk` | app/src/main/jni/badvpn/client/FragmentProtoAssembler.c:285-320 | A chunk is read at a position exactly if those bytes of it stand there; otherwise the rest of the packet is ignored. |
| `SenderSpec.PacketsFit` | app/src/main/jni/badvpn/client/FragmentProtoDisassembler.c:39-102 | No output packet exceeds output_mtu. |
| `SenderSpec.InOrderRoundTrip` | app/src/main/jni/badvpn/client/FragmentProtoDisassembler.c:39-162 | Over any number of frames, so also when the 16-bit ids wrap: a fresh receiver that gets the packets emits exactly the frames sent, in order. |
| `FragmentDisassemblers.FragmentDisassembler.FillPacket` | app/src/main/jni/badvpn/client/FragmentProtoDisassembler.c:48-70 | The do/while loop leaves the frame finished or the packet full, and what it wrote extends the story by whole chunks. |
| `FragmentDisassemblers.FragmentDisassembler.WriteChunk` | app/src/main/jni/badvpn/client/FragmentProtoDisassembler.c:49-70 | Header and payload in the buffer are the wire form of the chunk. |
| `FragmentDisassemblers.FragmentDisassembler.WriteChunks` | app/src/main/jni/badvpn/client/FragmentProtoDisassembler.c:39-102 | Finishes the frame, the packet or both. The packet goes out exactly if no header and further byte fit behind its bytes, or latency < 0; otherwise it stays open and the timer runs from its first chunk, not restarted by later ones. What is handed out is the wire form of the chunks recorded. |
| `FragmentDisassemblers.FragmentDisassembler.InputHandlerSend` | app/src/main/jni/badvpn/client/FragmentProtoDisassembler.c:104-120 | A frame enters; with a buffer there it is written and the packet ends by the same condition. Relation of bytes and history kept, and with it: the packets that went out although another chunk would have fitted are exactly those the timer ended (with latency >= 0). |
| `FragmentDisassemblers.FragmentDisassembler.OutputHandlerRecv` | app/src/main/jni/badvpn/client/FragmentProtoDisassembler.c:134-149 | A buffer arrives; a waiting frame goes on from where it was, and the packet ends by the same condition. |
| `FragmentDisassemblers.FragmentDisassembler.TimerHandler` | app/src/main/jni/badvpn/client/FragmentProtoDisassembler.c:151-162 | The timer ends the packet being filled, which still had room, and is recorded as having ended it. |
| `FragmentDisassemblers.FragmentDisassembler.RequestCancel` | app/src/main/jni/badvpn/client/FragmentProtoDisassembler.c:122-132 | Cancelling a frame of which nothing was written is as if it had never come. The frame id is not advanced either way. |
| `CancelLoss.ArrivesIffNothingHeld` | app/src/main/jni/badvpn/client/FragmentProtoDisassembler.c:122-132 | The exact condition: when the receiver holds either nothing under an id or some bytes and no last chunk, which NextAfterAnyHistory shows it does, the next frame under that id, cut and packed anyhow, arrives if and only if it is nothing. |
| `CancelLoss.HarmlessIffNothingWritten` | app/src/main/jni/badvpn/client/FragmentProtoDisassembler.c:122-132 | In the sender's terms: if no frame before it was cancelled half written, the frame after a cancelled one, cut and packed anyhow, arrives if and only if nothing of the cancelled one had been written (in_used == 0). |
| `SenderRuns.ReachedStory` | app/src/main/jni/badvpn/client/FragmentProtoDisassembler.c:39-162 | Whatever course of frames, chunks, packet ends and cancels the handlers allow: the packets are the wire form of chunks that tile the frames, and each chunk was begun where a header and another byte fitted. |
| `CancelSafety.NeverMixes` | app/src/main/jni/badvpn/client/FragmentProtoAssembler.c:154-346 | For every delivery of chunks cut front to back, with frames given up anywhere and packet ends anywhere: as long as, since an id last carried bytes, more packets have ended than the receiver remembers, what it emits is a subsequence of the finished frames, byte for byte. |
| `CancelSafety.SenderNeverMixes` | app/src/main/jni/badvpn/client/FragmentProtoDisassembler.c:122-132 | Safety of cancelling: for whatever the disassembler can get to, with any number of cancels at any time, and (mtu - 9) / 7 + num_frames * ((mtu - 1) / 7) < 65536 or num_chunks = 1, the frames that come out are a subsequence of those it finished; cancels only lose frames and never mix them. |
| `CancelSafety.NextAfterAnyHistory` | app/src/main/jni/badvpn/client/FragmentProtoDisassembler.c:122-132 | After any history of cancels the next frame arrives if and only if the receiver holds nothing under its id. |
| `CancelMixing.MixesIffIdsComeBack` | app/src/main/jni/badvpn/client/FragmentProtoDisassembler.c:39-162 | That bound is exact: with chunk_mtu = -1 and latency >= 0, as in the program, and a receiver for frames of mtu + 1 bytes, the disassembler can be driven so that the receiver emits something else than finished frames in order if and only if num_chunks >= 2 and (mtu - 9) / 7 + num_frames * ((mtu - 1) / 7) >= 65536. |
| `CancelMixing.MixedOutput` | app/src/main/jni/badvpn/client/FragmentProtoDisassembler.c:39-162 | The failing course, for every mtu and num_frames past the bound, through the steps of the disassembler: a half-written cancel, one or two rounds of frames without bytes that fill the packets, and a frame that comes out with a byte of another. |
| `CancelMixing.FewFramesOutlast` | app/src/main/jni/badvpn/client/client.h:69 | With the 4 frames of the program, and up to 6, no packet length below 65536 reaches the bound. |
| `FairQueueSpec.OverflowLandsInRange` | app/src/main/jni/badvpn/flow/PacketPassFairQueue.c:79-116 | Even when the sent flow is first pushed below zero by the shift, its clock lands within 0..MAX. |
| `FairQueueSpec.StepKeepsInv` | app/src/main/jni/badvpn/flow/PacketPassFairQueue.c:118-217 | Every event keeps clocks in range, the tree sorted although its keys are shifted in place, and a send or a job pending whenever a flow waits. |
| `FairQueueRuns.ShiftsCannotBeSeen` | app/src/main/jni/badvpn/flow/PacketPassFairQueue.c:52-116 | Refinement: while some flow is always active, the finite clocks choose the same packets in the same order as unbounded integer clocks, across any number of shifts. |
| `FairQueueSpec.ScheduledIsLeast` | app/src/main/jni/badvpn/flow/PacketPassFairQueue.c:118-137 | The flow that schedule sends comes before every other queued flow, by clock and then by address, and all the others stay queued. |
| `FairQueueSpec.CurrentTimeIsLeast` | app/src/main/jni/badvpn/flow/PacketPassFairQueue.c:52-77 | The current time is the least clock of the active flows, and 0 if there are none. |
| `FairQueueArrivals.RaisedToLeastActive` | app/src/main/jni/badvpn/flow/PacketPassFairQueue.c:153-180 | When an idle flow sends, its clock becomes the larger of its own and the least of the active flows' clocks, and stays if no flow is active; one that has just sent keeps its clock, and so do all others. |
| `FairQueueArrivals.NewFlowAtZero` | app/src/main/jni/badvpn/flow/PacketPassFairQueue.c:296-321 | A new flow begins at 0 behind the others in the list, inactive, and changes nothing else. |
| `FairQueueArrivals.NewcomerWaits` | app/src/main/jni/badvpn/flow/PacketPassFairQueue.c:153-217 | While a newly queued flow waits, n sends of any other flow end with (n - 1) * packet_weight at most the lead its clock had on the least active one: at most one send each if it had no lead. |
| `FairQueueArrivals.SentAtOnceIffIdle` | app/src/main/jni/badvpn/flow/PacketPassFairQueue.c:175-179 | A packet is sent at once exactly if nothing is being sent and the schedule job is not set; otherwise it joins those waiting. |
| `FairQueueArrivals.SentAsHandedIn` | app/src/main/jni/badvpn/flow/PacketPassFairQueue.c:118-217 | Over any run, the packets of a flow that went out, and the one still held, are those its source handed in, in order. |
| `FairQueueSpec.ShiftIsLarge` | app/src/main/jni/badvpn/flow/PacketPassFairQueue.c:79-116 | The clocks move back only when one more packet of full size would not have fitted. |
| `FairQueueSpec.AllFreed` | app/src/main/jni/badvpn/flow/PacketPassFairQueue.c:270-279 | Once all flows are freed, also during a teardown in the middle of a send, nothing is queued, sent or remembered, as PacketPassFairQueue_Free asserts. |
| `FairQueueClipping.PlainAgrees` | app/src/main/jni/badvpn/flow/PacketPassFairQueue.c:52-217 | From any state, up to the first time the queue is idle after an overflow, the packets sent are those that unbounded clocks send. |
| `FairQueueClipping.AgreeIffSameClocks` | app/src/main/jni/badvpn/flow/PacketPassFairQueue.c:52-217 | Exactly when it stays so: an idle queue and the same queue with unbounded clocks send the same packets in every such future if and only if no clock differs. |
| `FairQueueClipping.UnseenIffNothingClipped` | app/src/main/jni/badvpn/flow/PacketPassFairQueue.c:52-217 | In terms of the run from the empty queue to an idle moment: the moves back stay unseen if and only if there were none, or every flow that ever had a packet sent is gone. |
| `FairQueueClipping.ClippingIsSeen` | app/src/main/jni/badvpn/flow/PacketPassFairQueue.c:52-217 | In every configuration there is an allowed run from the empty queue whose last packet is another flow's than with unbounded clocks. |
| `FairQueueFairness.DebtFalls` | app/src/main/jni/badvpn/flow/PacketPassFairQueue.c:79-217 | While flow j waits, the sum over others of max(0, time_j - time_k + 1) never rises and falls with every completed send. |
| `FairQueueFairness.NoStarvation` | app/src/main/jni/badvpn/flow/PacketPassFairQueue.c:79-217 | Over any run, shifts included, a queued flow sees at most its initial debt many sends of others complete. |
| `FairQueueFairness.FairShares` | app/src/main/jni/badvpn/flow/PacketPassFairQueue.c:118-217 | While two flows stay backlogged their clock gap is at most max(starting gap, packet_weight + MTU), and the service they get differs by exactly the change of the gap. |
| `FairQueueFairness.BackloggedIffKeepingUp` | app/src/main/jni/badvpn/flow/PacketPassFairQueue.c:139-217 | Two flows stay backlogged exactly as long as each, whenever its packet is done, sends again before the schedule job runs. |
| `FairQueueJobs.StepKeepsInv` | app/src/main/jni/badvpn/flow/PacketPassFairQueue.c:139-217 | The queue on the job stack, with its inputs as interfaces: whatever its sources and others on the stack do, an input is busy exactly while the queue has its packet, and the queue is only called as it asserts. |
| `FairQueueJobs.ResendingKeepsUp` | app/src/main/jni/badvpn/flow/PacketPassFairQueue.c:182-217 | A source that sends again from its done handler keeps up: the schedule job never runs while its flow is the one just sent. |
| `FairQueueJobs.ResendersShareEvenly` | app/src/main/jni/badvpn/flow/PacketPassFairQueue.c:139-217 | Two such sources get even shares: their service differs by at most packet_weight + MTU from equal clocks on. |
| `FairQueues.UnderflowThenOverflow` | app/src/main/jni/badvpn/flow/PacketPassFairQueue.c:88-115 | The unsigned subtraction that wraps below zero and the addition after it cancel exactly. |
| `FairQueues.FairQueue.GetCurrentTime` | app/src/main/jni/badvpn/flow/PacketPassFairQueue.c:52-77 | Computes the current time that CurrentTimeIsLeast characterises. |
| `FairQueues.FairQueue.IncrementSentFlow` | app/src/main/jni/badvpn/flow/PacketPassFairQueue.c:79-116 | The loop over all flows with wrapping arithmetic computes the shifted clocks. |
| `FairQueues.FairQueue.ScheduleJobHandler` | app/src/main/jni/badvpn/flow/PacketPassFairQueue.c:139-151 | Forgets the previous flow and sends the first queued one. |
| `FairQueues.FairQueue.InputHandlerSend` | app/src/main/jni/badvpn/flow/PacketPassFairQueue.c:153-180 | Raises the clock unless the flow was just sent, queues, and schedules at once only if nothing else will; FairQueueArrivals.RaisedToLeastActive and SentAtOnceIffIdle say what this comes to. |
| `FairQueues.FairQueue.OutputHandlerDone` | app/src/main/jni/badvpn/flow/PacketPassFairQueue.c:182-217 | Charges the sent flow and leaves the schedule job pending. |
| `FairQueues.FairQueue.PrepareFree` | app/src/main/jni/badvpn/flow/PacketPassFairQueue.c:281-287 | From then on flows may be freed while being sent. |
| `FairQueues.FairQueue.FlowFree` | app/src/main/jni/badvpn/flow/PacketPassFairQueue.c:323-351 | A flow leaves the queue, the tree and the previous slot, and after PrepareFree also the send in progress. |
| `FairQueues.FairQueue.FlowInit` | app/src/main/jni/badvpn/flow/PacketPassFairQueue.c:296-321 | A new flow starts at time 0, idle, and changes no other (FairQueueArrivals.NewFlowAtZero). |
| `JobStack.Lifo` | app/src/main/jni/badvpn/base/BPending.c:66-171 | LIFO discipline: when a waiting job comes up, everything that was above it or was set since, directly or by handlers of such jobs, has run or was unset. |
| `JobStack.WaitingKeepsBelow` | app/src/main/jni/badvpn/base/BPending.c:66-171 | Nothing is ever slipped in below a waiting job. |
| `JobStack.BPendingGroup.Set` | app/src/main/jni/badvpn/base/BPending.c:137-154 | A job set again moves to the front. |
| `JobStack.BPendingGroup.Unset` | app/src/main/jni/badvpn/base/BPending.c:156-171 | The job leaves the list, a job not set changes nothing. |
| `JobStack.BPendingGroup.TakeJob` | app/src/main/jni/badvpn/base/BPending.c:66-88 | The job set last is taken first. |
| `PacketPass.JobsMeetTheirAssertions` | app/src/main/jni/badvpn/flow/PacketPassInterface.c:32-68 | Whenever a job of an interface runs, the state its body asserts holds. |
| `PacketPass.StepKeepsInv` | app/src/main/jni/badvpn/flow/PacketPassInterface.h:149-227 | A job is set exactly in the state that waits for it, for any number of interfaces on one stack and under any calls. |
| `PacketPass.OneDonePerSend` | app/src/main/jni/badvpn/flow/PacketPassInterface.h:149-227 | Over any run each Send gets exactly one done callback and at most one cancel callback, and reaches the provider unless it is withdrawn first, whatever the timing of cancels; with no job left, only the provider is being waited for. |
| `PacketPass.SendIsHeard` | app/src/main/jni/badvpn/flow/PacketPassInterface.h:181-198 | A Send that is not cancelled reaches the provider, at the latest when no job is left. |
| `PacketPass.CancelMeans` | app/src/main/jni/badvpn/flow/PacketPassInterface.h:200-227 | A request to cancel withdraws a packet the provider has not heard of and makes it done, sets the cancel job for a provider at work, and is ignored when repeated or when the packet is done. |
| `PacketPass.CancelIsHeard` | app/src/main/jni/badvpn/flow/PacketPassInterface.h:200-227 | A provider at work hears of the request exactly once unless it is done first: the callback was made or its job is set, and with no job left it was made. |
| `PacketPass.ResendComesFirst` | app/src/main/jni/badvpn/flow/PacketPassFairQueue.c:182-217 | Set the schedule job, then call Done: when the schedule job comes up, the done callback has been made since, and every Send made since has had its operation job run or was withdrawn by a cancel. |
| `PacketPassInterfaces.PacketPassInterface.Send` | app/src/main/jni/badvpn/flow/PacketPassInterface.h:181-198 | From idle, sets the operation job and forgets an earlier cancel. |
| `PacketPassInterfaces.PacketPassInterface.RequestCancel` | app/src/main/jni/badvpn/flow/PacketPassInterface.h:200-227 | A pending operation is taken back, a running one asked to stop, a repeated request ignored. |
| `PacketPassInterfaces.PacketPassInterface.Done` | app/src/main/jni/badvpn/flow/PacketPassInterface.h:149-162 | From busy, takes back a cancel job and sets the done job. |
| `PacketPassInterfaces.PacketPassInterface.Free` | app/src/main/jni/badvpn/flow/PacketPassInterface.h:131-139 | Freed, it leaves no job of its own on the stack, and all others in place. |
| `PacketPassInterfaces.PacketPassInterface.RunJob` | app/src/main/jni/badvpn/flow/PacketPassInterface.c:32-68 | The three job bodies up to the handler call. |
| `DataPlaneSpec.StepKeepsInv` | app/src/main/jni/badvpn/client/DataProto.c:146-225 | Over all runs: a buffer whose sink is not what its flow wants, or whose flow is gone, is the detaching buffer and the busy flow of that sink. |
| `DataPlaneSpec.SendOverInPlace` | app/src/main/jni/badvpn/client/DataProto.c:200-225 | When the send ends, that buffer moves to the sink its flow now wants, or is freed; no other buffer changes. |
| `DataPlaneSpec.SendHolds` | app/src/main/jni/badvpn/client/DataProto.c:180-225 | From the start of a send until it ends or the sink is freed, whatever is attached, detached or freed: the buffer stays with the sink, which stays busy with it, no other send starts there nor of this buffer elsewhere, and the send can end. |
| `DataPlaneSpec.FreedSinkForgotten` | app/src/main/jni/badvpn/client/DataProto.c:297-310 | After DataProtoSink_Free no buffer refers to the sink. |
| `DataPlaneSpec.QuietMeansInPlace` | app/src/main/jni/badvpn/client/DataProto.c:516-566 | While nothing is sent every buffer is where its flow wants it and no stray buffer is left. |
| `DataPlaneSpec.DesiringHasSink` | app/src/main/jni/badvpn/client/DataProto.c:545-566 | What DataProtoFlow_Detach asserts: a flow that wants a sink has its buffer with one. |
| `DataPlaneSpec.LeftoverIsBusy` | app/src/main/jni/badvpn/client/DataProto.c:545-566 | A buffer that still has a sink although its flow wants none is in the middle of a send. |
| `DataPlaneSpec.WishesAfter` | app/src/main/jni/badvpn/client/DataProto.c:516-566 | Exactly how each event changes what the flows desire and which sinks there are. |
| `DataPlaneSpec.EventuallyInPlace` | app/src/main/jni/badvpn/client/DataProto.c:516-566 | Over any run, once no send is in progress, each flow's buffer is with the sink of the flow's last attach or detach, whatever was in progress when it was moved. |
| `DataPlanes.DataPlane.BufferFinishDetach` | app/src/main/jni/badvpn/client/DataProto.c:200-216 | Detaches and then frees, attaches elsewhere or leaves the buffer, as its flow wants by now. |
| `DataPlanes.DataPlane.BufferScheduleDetach` | app/src/main/jni/badvpn/client/DataProto.c:180-198 | A busy buffer becomes the detaching buffer of its sink. |
| `DataPlanes.DataPlane.SinkInit` | app/src/main/jni/badvpn/client/DataProto.c:227-295 | A sink starts without buffers. |
| `DataPlanes.DataPlane.FlowInit` | app/src/main/jni/badvpn/client/DataProto.c:396-456 | A flow starts with a buffer and no sink. |
| `DataPlanes.DataPlane.SendStarted` | app/src/main/jni/badvpn/flow/PacketPassFairQueue.c:118-137 | The buffer is the one its sink is busy with from then on, and nothing else changes. |
| `DataPlanes.DataPlane.SendEnded` | app/src/main/jni/badvpn/client/DataProto.c:218-225 | The busy buffer is done; if its detaching was scheduled it is finished now. |
| `DataPlanes.DataPlane.SinkFree` | app/src/main/jni/badvpn/client/DataProto.c:297-310 | Its queue stops, and the buffer it held moves on at once. |
| `DataPlanes.DataPlane.FlowFree` | app/src/main/jni/badvpn/client/DataProto.c:458-484 | The step: a busy buffer outlives its flow until the send ends. |
| `DataPlanes.DataPlane.Attach` | app/src/main/jni/badvpn/client/DataProto.c:516-543 | The step: at once, or scheduled when the buffer is busy elsewhere. |
| `DataPlanes.DataPlane.Detach` | app/src/main/jni/badvpn/client/DataProto.c:545-566 | Detached at once, or scheduled when the buffer is busy. |
| `RelaySpec.StepKeepsInv` | app/src/main/jni/badvpn/client/client.c:1606-1898 | After every event each peer is in at most one of have_link, relaying, waiting_relay; only linked peers relay; relay_users of r is exactly the peers relayed by r; nobody waits while there is a relay. |
| `RelaySpec.AssignMeans` | app/src/main/jni/badvpn/client/client.c:2684-2709 | The loop of assign_relays in one statement: everybody waiting is relayed by the first relay, nothing else changes. |
| `RelaySpec.EvictMeans` | app/src/main/jni/badvpn/client/client.c:1771-1800 | Disabling a provider turns exactly its users into waiting peers. |
| `RelaySpec.RelayedIffPossible` | app/src/main/jni/badvpn/client/client.c:1847-1898 | A peer that needs a relay has one exactly if there is any. |
| `RelaySpec.NobodyForgotten` | app/src/main/jni/badvpn/client/client.c:1729-1898 | Events about other peers never change whether a peer needs a relay, has a link or is a relay. |
| `RelaySpec.OwnPeerAfter` | app/src/main/jni/badvpn/client/client.c:1606-2440 | What each event leaves its own peer with, in all fields: one that cannot be bound to has no link, and the first relay if there is one, else it waits; one that connects has a link or nothing; link up makes it a relay exactly if the server allows, behind the others; link down unmakes it; the order of the other relays is kept. |
| `RelaySpec.OthersFollow` | app/src/main/jni/badvpn/client/client.c:1750-1845 | Through which relay every other peer goes after an event: its own as long as that is a relay, otherwise the first there is. |
| `Clients.Client.InitLink` | app/src/main/jni/badvpn/client/client.c:1606-1693 | Link up: sink and relayed flows are wired as the new state says. |
| `Clients.Client.FreeLink` | app/src/main/jni/badvpn/client/client.c:1695-1727 | Link down: no flow keeps desiring the sink. |
| `Clients.Client.CleanupConnections` | app/src/main/jni/badvpn/client/client.c:1729-1748 | Whatever way the peer was reached is undone. |
| `Clients.Client.EnableRelayProvider` | app/src/main/jni/badvpn/client/client.c:1750-1769 | The peer becomes a relay and the waiting peers get it. |
| `Clients.Client.DisableRelayProvider` | app/src/main/jni/badvpn/client/client.c:1771-1800 | All its users wait, or move to another relay. |
| `Clients.Client.InstallRelaying` | app/src/main/jni/badvpn/client/client.c:1802-1822 | The local flow desires the relay's sink. |
| `Clients.Client.FreeRelaying` | app/src/main/jni/badvpn/client/client.c:1824-1845 | The peer leaves its relay's users and its flow desires no sink. |
| `Clients.Client.RegisterNeedRelay` | app/src/main/jni/badvpn/client/client.c:1870-1883 | The peer joins the waiting list at its end. |
| `Clients.Client.UnregisterNeedRelay` | app/src/main/jni/badvpn/client/client.c:1885-1898 | The peer leaves the waiting list. |
| `Clients.Client.EvictUsers` | app/src/main/jni/badvpn/client/client.c:1771-1800 | The loop over relay_users turns each user into a waiting peer. |
| `Clients.Client.Connect` | app/src/main/jni/badvpn/client/client.c:2405-2440 | A new link replaces whatever there was; when it fails the peer is reset. |
| `Clients.Client.Reset` | app/src/main/jni/badvpn/client/client.c:1900-1914 | Connections go, and with them relaying and waiting. |
| `Clients.Client.BindFailed` | app/src/main/jni/badvpn/client/client.c:2301-2340 | A peer that cannot be bound to needs a relay; RelaySpec.OwnPeerAfter says what it is left with. |
| `Clients.Client.PeerAdd` | app/src/main/jni/badvpn/client/client.c:1324-1507 | A peer starts with no link, no relay and one local flow. |
| `Clients.Client.NeedRelay` | app/src/main/jni/badvpn/client/client.c:1847-1868 | The peer has no link afterwards, is relayed exactly if there is a relay and waits otherwise; the whole state is that of the specification. |
| `Clients.Client.AssignRelays` | app/src/main/jni/badvpn/client/client.c:2684-2709 | The while loop over the waiting list computes the assignment, flows included. |
| `Clients.Client.DataProtoHandler` | app/src/main/jni/badvpn/client/client.c:2626-2645 | A link report enables or disables the relay provider. |
| `Clients.Client.PeerRemove` | app/src/main/jni/badvpn/client/client.c:1509-1568 | A peer goes with its flows; others are rewired. |
| `Clients.Client.CreateRelayFlow` | app/src/main/jni/badvpn/client/DPRelay.c:42-82 | A relay flow is in both lists and attached to the sink if the destination has a link. |
| `Clients.Client.FreeRelayFlow` | app/src/main/jni/badvpn/client/DPRelay.c:84-107 | The flow leaves both lists and the plane. |
| `Clients.SendsKeepWiring` | app/src/main/jni/badvpn/client/client.c:1606-1898 | Starting and ending sends does not change which sink each flow desires, so the wiring holds between handlers as well: local_dpflow always desires the sink the relay state names. |
| `MulticastIndex.FrameForGroupHasItsSig` | app/src/main/jni/badvpn/client/FrameDecider.c:120-131 | The signature of a group equals that of the Ethernet address used for the group (section 6.4 of RFC 1112). |
| `MulticastIndex.AddKeeps` | app/src/main/jni/badvpn/client/FrameDecider.c:133-164 | Joining adds the entry to its class, which keeps exactly one master, the tree entry. |
| `MulticastIndex.RemoveKeeps` | app/src/main/jni/badvpn/client/FrameDecider.c:166-197 | Leaving removes exactly the entry; another of the class becomes master if it was the master. |
| `FrameDeciders.LearnKeeps` | app/src/main/jni/badvpn/client/FrameDecider.c:69-118 | Learning an address makes it the peer's newest; other peers lose nothing but that address; the peer loses at most its oldest, and only when full. |
| `FrameDeciders.LearnTreeFollows` | app/src/main/jni/badvpn/client/FrameDecider.c:69-118 | The tree stays exactly the union of the peers' lists, each address with one owner. |
| `FrameDeciders.JoinAgain` | app/src/main/jni/badvpn/client/FrameDecider.c:199-206 | Joining again only renews the entry. |
| `FrameDeciders.JoinFree` | app/src/main/jni/badvpn/client/FrameDecider.c:207-245 | Joining with a free entry adds exactly one membership to relation and index. |
| `FrameDeciders.CursorAddKeeps` | app/src/main/jni/badvpn/client/FrameDecider.c:133-164 | A cursor over the list being extended still refers only to entries in use, each once. |
| `FrameDeciders.CursorRemoveKeeps` | app/src/main/jni/badvpn/client/FrameDecider.c:166-197 | The same when an entry is unlinked under it. |
| `FrameDeciders.JoinFull` | app/src/main/jni/badvpn/client/FrameDecider.c:199-252 | Joining with all entries in use evicts the earliest, in list, tree and index alike. |
| `FrameDeciders.LeaveKeeps` | app/src/main/jni/badvpn/client/FrameDecider.c:254-279 | Leaving a group keeps index and plain relation in agreement. |
| `FrameDeciders.IndexIsScan` | app/src/main/jni/badvpn/client/FrameDecider.c:481-497 | The entries found through the index are, each once, exactly those a scan of all joined groups by low 23 bits finds. |
| `FrameRouting.GoesWhere` | app/src/main/jni/badvpn/client/FrameDecider.c:361-510 | Where a frame goes, by its bytes and who was heard: to all for IGMP, broadcast and addresses nobody has; for 01:00:5e exactly to the peers in a group with the same low 23 bits; otherwise to the one peer heard with the address. |
| `FrameRouting.TablesInOrderOfSighting` | app/src/main/jni/badvpn/client/FrameDecider.c:69-118 | Whatever frames came, each peer's addresses stand in the order they were last heard, so the one a full table gives up is the one not heard for longest. |
| `FrameRouting.RecordsJoin` | app/src/main/jni/badvpn/client/FrameDecider.c:741-790 | Exactly the report records that exclude sources, or include at least one, join their group, in order. |
| `FrameRouting.JoinsTheLatest` | app/src/main/jni/badvpn/client/FrameDecider.c:199-252 | After any joins a peer is in the groups it joined last: one is missing only if the list is full of groups joined since. |
| `FrameRouting.CursorFollows` | app/src/main/jni/badvpn/client/FrameDecider.c:166-197 | Removing an entry takes exactly that entry out of a decision in progress, the rest in order. |
| `FrameRouting.QueryLowers` | app/src/main/jni/badvpn/client/FrameDecider.c:281-314 | A group-specific query leaves the timers of the group at the earlier of their time and the limit, and all others alone. |
| `FrameDeciders.GroupFrameReachesMembers` | app/src/main/jni/badvpn/client/FrameDecider.c:361-510 | A frame to a group's address goes to exactly the peers that joined a group with the same low 23 bits, so to every member. |
| `FrameDeciders.OncePerPeer` | app/src/main/jni/badvpn/client/FrameDecider.c:512-556 | Each peer is sent a multicast frame at most once if and only if no peer joined two groups with the same low 23 bits. |
| `FrameDeciders.DecidesRightIffDrained` | app/src/main/jni/badvpn/client/FrameDecider.c:366-379 | All frames are decided as the tables say if and only if the decision before was not an undrained multicast one. |
| `FrameDeciders.UndrainedSwallowsFrame` | app/src/main/jni/badvpn/client/FrameDecider.c:366-379 | A run of the decider: two peers join a group, a frame to the group is decided and one of its two destinations taken; the broadcast after it goes to one peer instead of two. |
| `FrameDeciders.FrameDecider.AddMac` | app/src/main/jni/badvpn/client/FrameDecider.c:69-118 | The moves between lists and tree come to learning the address. |
| `FrameDeciders.FrameDecider.AddToMulticast` | app/src/main/jni/badvpn/client/FrameDecider.c:133-164 | List, flag and tree change as the index says, and so does a cursor running over the list. |
| `FrameDeciders.FrameDecider.RemoveFromMulticast` | app/src/main/jni/badvpn/client/FrameDecider.c:166-197 | The same for removal; the cursor never keeps an entry that is gone. |
| `FrameDeciders.FrameDecider.AddGroup` | app/src/main/jni/badvpn/client/FrameDecider.c:199-252 | Joins in the plain relation, with the timer set and that of an evicted entry gone. |
| `FrameDeciders.FrameDecider.RemoveGroupEntry` | app/src/main/jni/badvpn/client/FrameDecider.c:254-321 | Leaves in the plain relation, with its timer. |
| `FrameDeciders.FrameDecider.LowerTimers` | app/src/main/jni/badvpn/client/FrameDecider.c:281-314 | Exactly the timers of this group that are later than the query time are lowered to it, although the walk covers the whole class. |
| `FrameDeciders.FrameDecider.AnalyzeAndDecide` | app/src/main/jni/badvpn/client/FrameDecider.c:361-510 | The decision for a frame; an undrained multicast decision leaves the frame undecided. |
| `FrameDeciders.FrameDecider.NextDestination` | app/src/main/jni/badvpn/client/FrameDecider.c:512-556 | Returns the pending destinations one by one, then none, and only peers that still exist. |
| `FrameDeciders.FrameDecider.RouteFrame` | app/src/main/jni/badvpn/client/client.c:2666-2682 | The loop of the device handler gives the frame to each destination once, in order, with `more` false only for the last. |
| `FrameDeciders.FrameDecider.PeerFree` | app/src/main/jni/badvpn/client/FrameDecider.c:626-669 | All entries, timers and addresses of the peer go, nothing else does, and no cursor refers to it. |
| `FrameDeciders.FrameDecider.PeerInit` | app/src/main/jni/badvpn/client/FrameDecider.c:558-624 | A new peer has no entries; a flood that has not reached the end of the list will reach it. |
| `FrameDeciders.FrameDecider.PeerAnalyze` | app/src/main/jni/badvpn/client/FrameDecider.c:671-795 | The source address is learned and each reported group joined, in order. |
| `PacketProtoCutting.CuttingInvisibleIffSettled` | app/src/main/jni/badvpn/flow/PacketProtoDecoder.c:46-128 | All runs on a stream, in any pieces that fit the space offered and with sends ending at any time, end in the same state if and only if every length over the MTU is the last thing in the stream or ends exactly where the decoder's memory does. |
| `PacketProtoCutting.SettledReads` | app/src/main/jni/badvpn/flow/PacketProtoDecoder.c:46-128 | And then that state is the reading in which an error loses nothing but the length itself. |
| `PacketProtoCutting.ChunkingInvisible` | app/src/main/jni/badvpn/flow/PacketProtoDecoder.c:46-128 | In particular, two runs on the same clean stream are in the same state, memory position included, whenever both wait for data. |
| `PacketProto.ErrorIffNotClean` | app/src/main/jni/badvpn/flow/PacketProtoDecoder.c:46-128 | While the decoder waits, an error has been reported exactly if the stream contains an oversized length at a packet boundary. |
| `PacketProtoCutting.ErrorsSeeChunking` | app/src/main/jni/badvpn/flow/PacketProtoDecoder.c:86-90 | A concrete case at an MTU of 2: a length of 3 and an empty packet, in one piece and in two. |
| `PacketProto.SentIsPrefix` | app/src/main/jni/badvpn/flow/PacketProtoDecoder.c:46-128 | At any moment the packets sent on are a prefix of the packets encoded. |
| `PacketProto.RoundTrip` | app/src/main/jni/badvpn/flow/PacketProtoDecoder.c:46-128 | Once a whole encoding has arrived in any pieces, exactly the encoded packets have been sent on, in order. |
| `WireFormats.PacketBytes` | app/src/main/jni/badvpn/flow/PacketProtoEncoder.c:51-64 | A packet stands behind its length in 16 bits, low byte first. |
| `PacketProtoCodecs.PacketProtoDecoder.ProcessData` | app/src/main/jni/badvpn/flow/PacketProtoDecoder.c:46-105 | In place: sends the next packet, resets on error, or moves the rest down; it never asks for zero bytes. |
| `PacketProtoCodecs.PacketProtoDecoder.InputHandlerDone` | app/src/main/jni/badvpn/flow/PacketProtoDecoder.c:107-119 | Data only arrives while nothing is being sent, so the bytes in flight are not overwritten. |
| `PacketProtoCodecs.PacketProtoDecoder.OutputHandlerDone` | app/src/main/jni/badvpn/flow/PacketProtoDecoder.c:121-128 | The next packet already buffered is sent at once. |
| `PacketProtoCodecs.PacketProtoDecoder.Reset` | app/src/main/jni/badvpn/flow/PacketProtoDecoder.c:176-182 | Forgets what is buffered, keeps the space offered and a packet on its way. |
| `PacketProtoCodecs.PacketProtoEncoder.InputHandlerDone` | app/src/main/jni/badvpn/flow/PacketProtoEncoder.c:51-64 | The buffer becomes the encoding of the payload that was written into it. |
| `LineBuffers.LinesAppend` | app/src/main/jni/badvpn/flow/LineBuffer.c:39-96 | Lines read from a prefix of a stream stay as they are when more arrives. |
| `LineBuffers.LinesAreGreedy` | app/src/main/jni/badvpn/flow/LineBuffer.c:39-96 | Each line ends at its only newline or is full; less than a line is left. |
| `LineBuffers.LinesLoseNothing` | app/src/main/jni/badvpn/flow/LineBuffer.c:39-96 | Lines and rest put together are the stream. |
| `LineBuffers.LineBuffer.InputHandlerDone` | app/src/main/jni/badvpn/flow/LineBuffer.c:39-68 | Searching only the new bytes finds the first newline. |
| `LineBuffers.LineBuffer.OutputHandlerDone` | app/src/main/jni/badvpn/flow/LineBuffer.c:70-96 | The rest is searched again before more is received. |
| `LineBuffers.LineBuffer.SentIsGreedy` | app/src/main/jni/badvpn/flow/LineBuffer.c:39-96 | While waiting, exactly the greedy lines of everything received have been sent, whatever the receive sizes. |
| `BProtoWire.DecodeInvertsEncode` | app/src/main/jni/badvpn/bproto_generator/bproto_functions.php:457-580 | Bytes are read as a list of entries if and only if they are the encoding of that list: nothing else is accepted and nothing is read two ways. |
| `WireFormats.EntryBytes` | app/src/main/jni/badvpn/bproto/BProto.h:41-85 | An entry is field id and type code in 16 bits each, then the number, or a 32-bit length and the data, all low byte first. |
| `BProtoWire.ConformsMeans` | app/src/main/jni/badvpn/bproto_generator/bproto_functions.php:422-610 | Conforming means: each entry fits a field of the schema in id, size or length; no two entries of an optional field, exactly one of a required one, at least one where required and repeated. |
| `BProtoWire.ValuesAre` | app/src/main/jni/badvpn/bproto_generator/bproto_functions.php:641-759 | The values of a field are those of the entries with its id and no others, in the order of the message. |
| `BProtoCodecs.EntryHere` | app/src/main/jni/badvpn/bproto_generator/bproto_functions.php:652-755 | Before the end of a field's span a whole entry stands at the position: what Parser_Get asserts. |
| `BProtoCodecs.AtEndIffRead` | app/src/main/jni/badvpn/bproto_generator/bproto_functions.php:612-654 | A position never passes its span, and is at its end exactly when no value is left. |
| `BProtoCodecs.BProtoParser.Init` | app/src/main/jni/badvpn/bproto_generator/bproto_functions.php:422-610 | Accepts exactly the encodings of messages that conform to the schema, and then every field has all its values to read. |
| `BProtoCodecs.BProtoParser.Get` | app/src/main/jni/badvpn/bproto_generator/bproto_functions.php:641-759 | Returns the next value of the field, or nothing when all were read, whatever entries of other fields stand between; other fields are not moved. |
| `BProtoCodecs.BProtoParser.Reset` | app/src/main/jni/badvpn/bproto_generator/bproto_functions.php:761-764 | All values of the field are to be read again. |
| `BProtoCodecs.BProtoParser.Forward` | app/src/main/jni/badvpn/bproto_generator/bproto_functions.php:766-769 | No value of the field is left. |
| `BProtoCodecs.BProtoParser.GotEverything` | app/src/main/jni/badvpn/bproto_generator/bproto_functions.php:612-638 | True exactly if no field has a value left. |
| `BProtoCodecs.BProtoWriter.AddNumber` | app/src/main/jni/badvpn/bproto_generator/bproto_functions.php:342-419 | Appends the encoding of the entry. |
| `BProtoCodecs.BProtoWriter.AddBlob` | app/src/main/jni/badvpn/bproto_generator/bproto_functions.php:342-419 | Appends the encoding of the entry, with the data its caller supplies. |
| `BProtoCodecs.BProtoWriter.Finish` | app/src/main/jni/badvpn/bproto_generator/bproto_functions.php:320-339 | With the cardinalities met the message conforms, and reads back as the entries added. |
| `BProtoCodecs.Transfer` | app/src/main/jni/badvpn/bproto_generator/bproto_functions.php:303-759 | Round trip: the parser accepts what the writer finished, and the k-th Get of a field is the k-th value added to it. |
| `SPProtoSpec.DecodeInvertsEncode` | app/src/main/jni/badvpn/client/SPProtoDecoder.c:42-155 | For every combination of OTP, hash and encryption: a packet is decoded to a payload exactly when it is an encoding of that payload. |
| `SPProtoSpec.RoundTrip` | app/src/main/jni/badvpn/client/SPProtoEncoder.c:87-152 | Decoding an encoded packet returns payload, seed id and password. |
| `WireFormats.TextBytes` | app/src/main/jni/badvpn/client/SPProtoEncoder.c:95-120 | The text of a packet: seed id, low byte first, and password; the hash of the text with zeros in its place; the payload. |
| `WireFormats.SealedBytes` | app/src/main/jni/badvpn/client/SPProtoEncoder.c:124-146 | The packet is that text, or the IV followed by the encryption of the text, a 1 and as few zeros as make whole blocks. |
| `SPProtoSpec.PadThenScan` | app/src/main/jni/badvpn/client/SPProtoDecoder.c:88-107 | The padding scan always finds its 1 byte within the last block. |
| `SPProtoSpec.ScanThenPad` | app/src/main/jni/badvpn/client/SPProtoDecoder.c:88-107 | A text in which the scan succeeds is the padding of what precedes the 1 byte. |
| `SPProtoSpec.EncodedLength` | app/src/main/jni/badvpn/protocol/spproto.h:173-193 | An encoded packet is exactly as long as the carrier MTU computed for its payload. |
| `SPProtoSpec.SizesAgree` | app/src/main/jni/badvpn/protocol/spproto.h:152-193 | The two MTU functions are adjoint: a payload's packet fits a carrier exactly if the payload is within the payload MTU computed from it. |
| `SPProtos.SPProtoEncoder.InputHandlerDone` | app/src/main/jni/badvpn/client/SPProtoEncoder.c:195-211 | A packet that can be encoded is being encoded; otherwise it waits. |
| `SPProtos.SPProtoEncoder.OtpGeneratorHandler` | app/src/main/jni/badvpn/client/SPProtoEncoder.c:224-234 | New passwords restart a waiting packet; no password is used twice (uses strictly increase). |
| `SPProtos.SPProtoEncoder.SetEncryptionKey` | app/src/main/jni/badvpn/client/SPProtoEncoder.c:369-390 | A packet in work is encoded anew under the new key, with another password. |
| `SPProtos.SPProtoEncoder.RemoveEncryptionKey` | app/src/main/jni/badvpn/client/SPProtoEncoder.c:392-407 | Work stops, and the packet stays waiting. |
| `SPProtos.SPProtoEncoder.EncodePacket` | app/src/main/jni/badvpn/client/SPProtoEncoder.c:64-85 | Takes the next password of the seed, never one taken before. |
| `SPProtos.SPProtoEncoder.RemoveOTPSeed` | app/src/main/jni/badvpn/client/SPProtoEncoder.c:421-428 | Nothing more can be encoded until a new seed is ready. |
| `SPProtos.SPProtoDecoder.CheckHash` | app/src/main/jni/badvpn/client/SPProtoDecoder.c:129-147 | Compares the hash with that of the packet with zeros in its place, and restores the field. |
| `SPProtos.SPProtoEncoder.EncodeWork` | app/src/main/jni/badvpn/client/SPProtoEncoder.c:87-168 | In place on its buffers: the output is the encoding of the payload the input had written. |
| `SPProtos.SPProtoDecoder.DecodeWork` | app/src/main/jni/badvpn/client/SPProtoDecoder.c:42-155 | In place: finds the payload exactly as the specification does, and leaves the input packet as it was (the hash field is restored). |
| `DhcpSpec.AddressIsLeased` | app/src/main/jni/badvpn/dhcpclient/BDHCPClientCore.c:208-678 | From the start, over any run: up and down reports alternate, up exactly in FINISHED or RENEWING, the address is that of the last accepted ACK, and is not held longer than its lease plus the lateness of two timers. |
| `DhcpSpec.XidsAndTimers` | app/src/main/jni/badvpn/dhcpclient/BDHCPClientCore.c:565-678 | The running timers are a function of the state, there is always one, and one xid serves at most 8 discovers. |
| `DhcpSpec.RepliesWhileUp` | app/src/main/jni/badvpn/dhcpclient/BDHCPClientCore.c:400-562 | While an address is held, exactly two kinds of replies change anything: a refusal from the server that gave it takes it away, and while renewing a whole ACK of the same address from that server restarts the lease without a report. |
| `DhcpExchange.RepliesWhileDown` | app/src/main/jni/badvpn/dhcpclient/BDHCPClientCore.c:400-562 | Without an address exactly three kinds of replies change anything: a whole offer is taken up and requested, the whole ACK of that address from that server brings it up with the renew timer at half the lease, and its refusal resets. |
| `DhcpExchange.OfferAndAckBringUp` | app/src/main/jni/badvpn/dhcpclient/BDHCPClientCore.c:400-562 | A whole offer, and its ACK within the request timeout, lead to FINISHED with the offered address reported up. |
| `DhcpExchange.AsksThenGivesUp` | app/src/main/jni/badvpn/dhcpclient/BDHCPClientCore.c:601-626 | An unanswered request is repeated every 3 s up to MAX_REQUESTS in all, and then a discover starts over. |
| `DhcpExchange.TimersWhileDown` | app/src/main/jni/badvpn/dhcpclient/BDHCPClientCore.c:565-626 | After a reset there is a new xid; an unanswered discover keeps it unless it served eight. |
| `DhcpExchange.TimersWhileUp` | app/src/main/jni/badvpn/dhcpclient/BDHCPClientCore.c:628-678 | At half the lease it renews, asking every 20 s; when the other half is over it is down with a new xid. |
| `DhcpSpec.StepKeepsInv` | app/src/main/jni/badvpn/dhcpclient/BDHCPClientCore.c:208-678 | What every timer and every reply keeps. |
| `DhcpMessage.LayoutParses` | app/src/main/jni/badvpn/dhcpclient/BDHCPClientCore.c:258-388 | Options are read in order, the last of a type counting, wherever padding stands between them. |
| `DhcpMessage.ParsedIsLayout` | app/src/main/jni/badvpn/dhcpclient/BDHCPClientCore.c:258-388 | Nothing but options and padding up to one end option, and padding after it, is accepted. |
| `DhcpMessage.ParseOptions` | app/src/main/jni/badvpn/dhcpclient/BDHCPClientCore.c:258-388 | The option loop computes that reading. |
| `DhcpMessage.ReadReply` | app/src/main/jni/badvpn/dhcpclient/BDHCPClientCore.c:208-400 | Header checks, options and message type of a reply. |
| `DhcpExchange.BuiltReplyReads` | app/src/main/jni/badvpn/dhcpclient/BDHCPClientCore.c:208-400 | The bytes a server writes (xid at 4, address at 16, hardware address at 28, magic at 236, options 53, 54, 51 and 1 in network byte order) are read as that reply. |
| `DhcpExchange.LastOptionCounts` | app/src/main/jni/badvpn/dhcpclient/BDHCPClientCore.c:258-388 | Whatever options there are and in whatever order, a reply is dropped exactly if one that is read has the wrong length, and of each type the last counts. |
| `DhcpClients.BDHCPClientCore.RecvHandlerDone` | app/src/main/jni/badvpn/dhcpclient/BDHCPClientCore.c:208-563 | A received packet is a step of the state machine or changes nothing. |
| `DhcpClients.BDHCPClientCore.StartProcess` | app/src/main/jni/badvpn/dhcpclient/BDHCPClientCore.c:565-589 | A new xid when forced or used up, a discover, the reset timer. |
| `DhcpClients.BDHCPClientCore.ResetTimerHandler` | app/src/main/jni/badvpn/dhcpclient/BDHCPClientCore.c:591-599 | Starts over, with a new xid only after a reset. |
| `DhcpClients.BDHCPClientCore.RequestTimerHandler` | app/src/main/jni/badvpn/dhcpclient/BDHCPClientCore.c:601-626 | Retries, and starts again after MAX_REQUESTS. |
| `DhcpClients.BDHCPClientCore.RenewTimerHandler` | app/src/main/jni/badvpn/dhcpclient/BDHCPClientCore.c:628-646 | The lease timer gets the rest of the lease. |
| `DhcpClients.BDHCPClientCore.RenewRequestTimerHandler` | app/src/main/jni/badvpn/dhcpclient/BDHCPClientCore.c:648-660 | Asks again, without touching the lease timer. |
| `DhcpClients.BDHCPClientCore.LeaseTimerHandler` | app/src/main/jni/badvpn/dhcpclient/BDHCPClientCore.c:662-678 | Starts over with a new xid and reports down. |
| `DhcpClients.BDHCPClientCore.GetClientIP` | app/src/main/jni/badvpn/dhcpclient/BDHCPClientCore.c:814-820 | While up, the address is the acknowledged one and within its lease. |

## Left out

- Sockets, reactor, TUN device, threads, TLS, logging, option parsing and the server connection: foreign calls.
- Memory allocation failures and the clean-up ladders that follow them.
- The pointer structure inside structure/LinkedList1.h, LinkedList3.h, SAvl.h and ChunkBuffer2.h: lists are sequences and trees maps or sorted sequences, with the operations those headers document (append, insertion after a node, lookup and least element by key).
- PacketRouter and RouteBuffer: DataProtoFlow_Route is represented by when a send starts and ends, not by the packets in a flow's buffer.
- Flow inactivity timers, keep-alives and the up/down detection of DataProtoSink (only its reports enter the relay model).
- DPRelay: which flow a frame is routed to (source_find_flow, SubmitFrame) is not modelled, only creation, freeing, attaching and detaching of its flows.
- client.c: binding, connecting and the peer messages only enter as events that succeed or fail; chat, certificates and addresses are left out.
- PacketPassFairQueue: cancelling the flow that is being sent enters only as the OutputDone event that follows.
- CancelMixing.MixesIffIdsComeBack: takes a latency >= 0 (the program's default is 0; without one packets are not shared by frames, which is part of the safe direction only), chunk_mtu as without effect and mtu + 1 < 65536, frame lengths being 16 bits; for a receiver of shorter frames, or a chunk_mtu below the packet's room, only the safe direction is shown (CancelSafety.SenderNeverMixes, for all).
- FairQueueClipping.AgreeIffSameClocks: needs a move back of at least packet_weight; UnseenIffNothingClipped gets it from 2 * packet_weight + MTU <= FAIRQUEUE_MAX_TIME + 1 (the source has UINT64_MAX), below which two clocks can differ by less than any packet charges.
- FrameDeciders.FrameDecider.AnalyzeAndDecide: takes what the headers say (destination, IGMP, group of a query); parsing Ethernet, IPv4 and IGMP headers is not modelled, nor is that in PeerAnalyze.
- FrameDeciders.FrameDecider.NextDestination: after the early return of AnalyzeAndDecide the C code goes on with an iterator it has freed; the model goes on with the old cursor.
- Interleaving.InterleavedRoundTrip: assumes enough chunks per frame (num_chunks) and no cancelled frame, as the source's own limits do.
- SPProtos.SPProtoEncoder.EncodeWork: runs at the completion of the work; that the C code runs it in another thread on buffers nobody else touches meanwhile is not modelled. The warning handler for running out of passwords is left out.
- SPProtos.SPProtoDecoder.DecodeWork: the decoder's one-packet-at-a-time states and the check of the password against the known seeds are left out. OTP generation is a parameter.
- BProtoCodecs.BProtoWriter.AddBlob: gets the data with the call, where the C returns the place for it. The 31-bit range of lengths and positions is not modelled; the output buffer's length bounds them.
- BProto: tokenizer and schema grammar of the generator; the model takes the schema as data.
- DhcpClients: building the DISCOVER and REQUEST messages, the `sending` flag that drops a message while one is on its way, and the stored mask, router and name servers.
- PacketPassFifoQueue and PacketPassPriorityQueue: they serve the server, the connection to it, keep-alives and NCD, which are left out.
- The connectors, notifiers, blockers and copiers of flow/: each passes its one packet on by the Send / Done protocol that PacketPass covers.
- BArpProbe, PasswordListener, StreamPeerIO, PeerChat and the dostest StreamBuffer: they work on sockets, ARP traffic and TLS, which are not modelled.
