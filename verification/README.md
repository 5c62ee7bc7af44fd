# mlxnicd: a verified model of the polled datapath and its tools

mlxnicd is a user-space driver for a ConnectX network card and a set of small
tools on top of it.  This project models its hard parts in Dafny and proves
what they promise.

- **Rings.** `CompletionQueue`, `SendQueue` and `RecvQueue` are the three
  rings shared with the device, as classes over the bytes in memory and the
  16-, 24- and 32-bit counters of driver and device.  Device steps (fetch a
  request, write a completion, receive into a buffer) are methods that run
  between any two steps of the driver, any number of times and in any order.
  `SendFifo` and `RecvFifo` say the same without bytes and wrap-around; the
  predicate `Refines` ties the two, and every step of driver and device keeps
  it.  `SendClient` and `RecvClient` are whole runs of API calls;
  `Overrun` asks when the completion queues are too short.
- **Commands.** `Mailbox` and `CommandPath`: a command scattered over a chain
  of signed blocks, the descriptor, the tokens, and the answer, which may come
  late.
- **Bringing a device up and down.** `Lifecycle` treats the firmware as a set of
  live objects that refer to each other, and the IOMMU as a set of mapped
  regions; `AddressSpace` says where those regions are.
- **Tools.** `Frames`, `Checksum` and `Echo` are the benchmark frames, their
  builders, their parser and the echo rewrite; `BenchWindow` and `BenchSingle`
  the benchmark loops; `Workers`, `Flood` and `ParallelBench` the threaded ones.
  These three and `EchoLoop` run on the ring models themselves.

`Words`, `Modular`, `Optional` and `QueuePair` hold byte layouts, in-place
copies, facts about remainders, and the like.

## What the proofs found

Where a property one would expect is false of the code, the model keeps the
code and states exactly when the property holds.

- A burst with a frame of unsupported length after its first leaves the frames
  before it in the ring, uncounted; a later burst sends them.
  `SendClient.MidBatchFailureSendsUncounted` is such a case, and the contract of
  `SendQueue.Sq.TxBurst` says when frames are left behind.
- The driver lets the firmware ask for 8192 pages; from the 4097th on they
  would overlap the transmit completion rings (`AddressSpace.DisjointIff`).
- A UAR, PD or memory key of id 0 is never destroyed, nor is an object whose
  create command was carried out but answered too late.  With reliable firmware
  exactly such objects keep a cleanup from leaving nothing behind
  (`Lifecycle.Device.Start`, `Lifecycle.IdZeroIsLeft`,
  `Lifecycle.UnansweredIsLeft`), and whatever they refer to stays as well
  (`Lifecycle.LeftOverPinsUar`).
- The driver never compares the token of a command.  After a command it gave up,
  a late answer is taken for that of the next one; a command is sure of its own
  answer exactly if no older one is pending (`CommandPath.OwnAnswerIff`,
  `CommandPath.StaleAnswerIsTaken`).  Comparing tokens would help exactly if the
  two commands are not a multiple of 255 apart (`CommandPath.TokensTellApartIff`).
- A burst counts frames before the device has sent them, and a flush that succeeds
  after an earlier call failed does not mean that all of them were sent.  They were
  exactly if no completion was an error (`SendClient.Run`).
- A completion queue has 2048 entries.  A receive queue in which every posted slot
  is announced and the packets accounted for are given back can overrun it exactly
  if more than 2048 slots were granted or leaked; a transmit queue exactly if
  more than 2048 completions are requested and not consumed, which 2049 bursts
  of one frame bring about (`Overrun`).
- Releasing receive buffers is safe even when page allocation fails half-way,
  because it can only fail on the first pass over the ring
  (`RecvFifo.UndoKeeps`); giving packets back out of order is safe only within
  the slots never granted (`RecvFifo.OutOfOrderSlack`).
- With a window of one the benchmark does not compare numbers: a duplicated
  reply answers two frames, and a stray one of an earlier run answers the wrong
  frame (`BenchSingle`).
- The threaded benchmark compares only totals, so a worker that sees one reflection
  too many fails a run in which every frame was answered (`ParallelBench.Run`).

Comments and documents that speak of 256 or 2048 send blocks or of a benchmark
window of at most 128 are older than the code, which has 8192 blocks
(4096 frames) and a window of at most 4096; the model follows the code.

## Hypotheses

- A device writes a completion only while the doorbell record shows room for
  it, and holds it back otherwise.  `Overrun` proves when there always is room
  and shows when there need not be.
- The device completes the requests of a queue in order, and decides what a
  completion says when it fetches the request or fills the buffer.
- A frame whose completion is an error was not sent; one without a completion of
  its own is sent when the device takes it.
- Frame lengths are 60 to 98 and the doorbell register is mapped where a client
  promises that what it counts is what it posts (`SendClient.Run`, `EchoLoop.Run`,
  `Workers`, `Flood`, `ParallelBench`).
- Packets received are at most as long as a receive buffer, and each queue is
  used by one thread.
- A device that answers a command given up earlier writes the reply where the
  output blocks of that command were, and leaves the rest of the cleared mailbox
  as it is.  It answers each command at most once.
- In `Lifecycle` each command gets its own answer or none in time, although
  after one given up `CommandPath` shows that it might get another's; a destroy
  not answered in time counts as refused, and its object as live.

## Model

| member | source | states |
|---|---|---|
| `CompletionQueue.OwnerBitIsExact` | `src/mlx5.c:2063-2076` | With at most one ring of entries outstanding, the slot of completion n shows the owner bit of its pass if and only if the device has written completion n; the initial 0xff fill and every stale entry of an earlier pass are rejected, over any number of passes. |
| `CompletionQueue.WriteKeepsRing` | `src/mlx5.c:1237` | A device write keeps every other completion of the last 2048 and the untouched rest of the 0xff fill in place. |
| `CompletionQueue.ReadsBack` | `src/mlx5.c:2077-2104` | Read from its slot, a completion is an error iff the device meant one (13 or 14 in the upper half of byte 0x3f), with the byte count and request counter the device decided. |
| `CompletionQueue.WrapKeepsSlot` | `src/mlx5.c:2063-2072` | Slot number and expected owner bit survive the 32-bit wrap of the consumer index. |
| `CompletionQueue.StampKeepsFields` | `src/mlx5.c:2070-2104` | Choosing the owner bit leaves the fields the driver reads alone. |
| `CompletionQueue.Cq.DeviceWrite` | `src/mlx5.c:2050-2054` | The device, seeing only the 24-bit doorbell record, writes exactly while it is less than 2048 entries past the published consumer; the queue invariant is kept. |
| `CompletionQueue.Cq.UpdateConsumer` | `src/mlx5.c:2050-2054` | The doorbell record catches up with the consumer index, low 24 bits. |
| `CompletionQueue.Cq.PollOnceMode` | `src/mlx5.c:2056-2105` | Reports nothing iff everything written was consumed; otherwise consumes exactly the oldest unconsumed entry, -1 iff the upper half of its byte 0x3f is 13 or 14, else 1 with its byte count and counter, and publishes only if asked. |
| `CompletionQueue.Cq.Poll` | `src/mlx5.c:2113-2146` | Consumes at most one entry, and one for sure if one was written; a wait that consumes none leaves none written and unconsumed, after exactly (timeout + 1) * 1,000,001 probes, one for timeout 0 and none for a negative one. |
| `Overrun.ReceiveOwes` | `src/mlx5.c:1470-1516` | A receive queue never owes more entries than were granted and leaked slots: up to 2048 of them the completion queue cannot overrun. |
| `Overrun.ReceiveWorstCase` | `src/mlx5.c:1463-1516` | The bound is reached: wherever all posted slots are announced and the doorbell record covers no more than the packets given back, the device can make the queue overrun before the driver looks again exactly if more than 2048 slots were granted or leaked. |
| `Overrun.StartedWorstCase` | `src/mlx5.c:1463-1516` | Such a state exists for every count: a queue just started with n buffers, n from 1 to 4096, can be made to overrun exactly if n is more than 2048, as with the default of 4096. |
| `Overrun.LeakedWorstCase` | `src/mlx5.c:1477-1483` | Leaks alone reach it too: a queue started with two buffers overruns after 2047 releases that got memory for one of two slots. |
| `Overrun.SendOwes` | `src/mlx5.c:3011-3029` | A transmit queue never owes more entries than completions requested and not consumed: up to 2048 of them it cannot overrun. |
| `Overrun.SendWorstCase` | `src/mlx5.c:3011-3029` | The bound is reached: with everything announced the device can make the queue overrun exactly if more than 2048 completions are requested. |
| `Overrun.SingleFrameBursts` | `src/mlx5.c:3011-3047` | n bursts of one frame, n up to 4096, request n completions without one look at the queue, so it can overrun exactly if n is more than 2048. |
| `Overrun.SparseRequestsFit` | `src/mlx5.c:3035-3045` | If no two neighbouring frames in flight request a completion, at most 2048 are requested. |
| `SendWqe.DecodeEncode` | `src/mlx5.c:2411-2452` | From the 128 bytes of a request the device recovers a send opcode, queue, transport object, index, frame, and completion flag; the segment count in byte 7 is the least that covers the frame, for every frame of 60 to 98 bytes, and makes two blocks. |
| `SendWqe.WrittenIsEncode` | `src/mlx5.c:2429-2449` | The field-by-field writes into the cleared blocks give exactly that encoding. |
| `SendWqe.TwoBlocks` | `src/mlx5.c:2411-2424` | A frame of supported length takes exactly two 64-byte blocks. |
| `SendCounters.ReclaimedAhead` | `src/mlx5.c:2481-2493` | The reconstruction yields the nearest index at or ahead of the consumer with the reported low half, plus 2. |
| `SendCounters.ReclaimIsExact` | `src/mlx5.c:2481-2493` | The 32-bit index rebuilt from the 16-bit counter is the true one if and only if the completed request is less than 65536 blocks ahead of the consumer, modulo 2^32. |
| `SendCounters.ReclaimStep` | `src/mlx5.c:2481-2493` | With at most 4096 frames in flight the condition always holds: the consumer moves just past the completed frame. |
| `SendCounters.BlockOffset` | `src/mlx5.c:2411-2426` | Behind 32-bit and 16-bit counters lies the same ring offset, and no request straddles the end of the ring. |
| `SendCounters.UsedBlocks` | `src/mlx5.c:3015-3021` | The wrapped distance of the indices is the number of blocks in flight; equal indices mean an empty ring. |
| `SendFifo.SignalsAre` | `src/mlx5.c:3035-3045` | The signalled positions are listed once each and in order. |
| `SendFifo.PostKeeps` | `src/mlx5.c:2448-2451` | Posting within the room left keeps the queue valid and frees nothing. |
| `SendFifo.FetchKeeps` | `src/mlx5.c:2455-2479` | The device owes a completion exactly for a signalled frame, and it is the next one in order; the frames not sent are those whose completion is an error. |
| `SendFifo.ConsumeKeeps` | `src/mlx5.c:2481-2516` | A success frees at least one more frame and none the device has not sent; an error frees none. |
| `SendFifo.KeptAllIff` | `src/mlx5.c:2455-2479` | What the device sends of the first n frames is all of them iff none of them is lost. |
| `SendFifo.NothingLostIff` | `src/mlx5.c:2495-2516` | Nothing is lost iff every completion the device decided is a success. |
| `SendFifo.SettledAwaitsCompletion` | `src/mlx5.c:3064-3084` | While a settled queue is not drained, its last frame is signalled and still unreclaimed: a flush has something to wait for. |
| `SendFifo.DrainedIsSettled` | `src/mlx5.c:3064-3084` | Indices can only meet if the last frame posted was signalled, announced and sent. |
| `SendFifo.DrainedHasConsumed` | `src/mlx5.c:3064-3084` | In a drained queue every completion requested was written and consumed, the last with success. |
| `SendFifo.ReadyDrains` | `src/mlx5.c:3064-3084` | A settled queue whose completions are all written and successful cannot stall before it is drained. |
| `SendQueue.PostKeepsRing` | `src/mlx5.c:2405-2453` | Writing the next request leaves every request in flight byte for byte intact. |
| `SendQueue.PostRefines` | `src/mlx5.c:2405-2453` | Bytes, wrapped indices and doorbell after a write are those of the FIFO with one frame appended. |
| `SendQueue.DoorbellIsExact` | `src/mlx5.c:2455-2479` | Comparing 16-bit counters the device sees exactly the number of announced frames not yet fetched. |
| `SendQueue.UsedIsExact` | `src/mlx5.c:3015-3021` | The 32-bit subtraction is exactly the blocks in flight and never exceeds 8192: the branch that rejects more is unreachable. |
| `SendQueue.DeviceReads` | `src/mlx5.c:2405-2479` | What the device decodes from the ring, taking no more than the segments claimed, is a send request of this queue with the next frame of the FIFO, its index, two blocks and its completion flag. |
| `SendQueue.FetchRefines` | `src/mlx5.c:2455-2479` | A device step on the bytes is a fetch step of the FIFO. |
| `SendQueue.ConsumeRefines` | `src/mlx5.c:2481-2493` | Consuming a completion moves the concrete consumer index as the FIFO says, success or error. |
| `SendQueue.DrainedRefines` | `src/mlx5.c:3064-3084` | Equal indices imply a settled queue from which the device has taken everything ever posted. |
| `SendQueue.Sq.PrepareSendRaw` | `src/mlx5.c:2405-2453` | Succeeds iff the length is 60 to 98; then one frame is appended, else nothing changes. |
| `SendQueue.Sq.RingSend` | `src/mlx5.c:2455-2479` | Announces all that was written iff the doorbell register is inside the mapped BAR. |
| `SendQueue.Sq.ReclaimCqe` | `src/mlx5.c:2481-2493` | Strictly more ring space is free afterwards, and the byte-level state still refines the FIFO. |
| `SendQueue.Sq.PollTxCq` | `src/mlx5.c:2495-2516` | Consumes one completion at most, an error included, which ends the call; 1 iff space was reclaimed, by a success; 0 only without waiting and with none left, -1 only on an error completion or with none left. Without waiting it looks once, a wait in vain 1001 * 1,000,001 times. |
| `SendQueue.Sq.PostBatch` | `src/mlx5.c:3035-3045` | Writes the batch up to the first frame of unsupported length, announcing nothing; exactly the last frame of the batch, if it is reached, is signalled. |
| `SendQueue.Sq.TxBurst` | `src/mlx5.c:2988-3057` | Frames counted as sent are posted and announced, in order. Every completion it consumes is a success, unless it ends with the ring full on an error completion or with none left after a full wait; a burst that counts all its frames consumed successes only, and one that posts less than the frames of supported length found such a ring. Which frames are posted without being counted is exact: with the doorbell unmapped as many as fit, otherwise only those before the first bad length, and with room for the whole burst none iff no frame or the very first one is bad. Terminates on (unsent frames, frames in flight). |
| `SendQueue.Sq.TxFlush` | `src/mlx5.c:3064-3084` | Succeeds iff the indices meet, iff the queue is settled, the device has written every completion and the last one was a success; it then has consumed all of them and met no error on the way. It gives up only on an error completion or with none left after a full wait, and never on a settled queue whose completions are all written and successful. Terminates on the frames not yet reclaimed. |
| `SendQueue.Sq.DeviceFetch` | `src/mlx5.c:2455-2479` | The device takes the next announced frame, if any, whatever the doorbell has wrapped to, and sends it unless its completion is an error. |
| `SendClient.Run` | `src/mlx5.c:2988-3084` | For every run of legal bursts and flushes, the device interleaving freely: the frames posted are, call by call, the first ones of the burst that it counts as sent; the wire carries, in order and once each, those the device has taken, without the ones whose completion is an error. After a successful last flush the wire is all of them iff no completion was an error, as when every call succeeds. Each call that fails has a cause. |
| `SendClient.Send` | `src/mlx5.c:2988-3057` | What one burst leaves posted is a prefix of its frames, all of them iff it reports success; with supported lengths it fails only with the ring full and no success to wait for. |
| `SendClient.MidBatchFailureSendsUncounted` | `src/mlx5.c:3035-3045` | A concrete case: a burst whose second frame is too short counts nothing, yet the next burst puts its first frame on the wire. |
| `RecvFifo.PostSparesHeld` | `src/mlx5.c:1470-1516` | The slot posted next is never one whose packet the application holds, nor one still posted, modulo 4096. |
| `RecvFifo.UndoKeeps` | `src/mlx5.c:1477-1483` | A release cut short by a failed page allocation leaks slots, but only during the first pass, so the ring is never exhausted by leaks. |
| `RecvFifo.ReusedIff` | `src/mlx5.c:1470-1516` | A slot is posted again iff more than 4096 slots have been posted behind it. |
| `RecvFifo.OutOfOrderSlack` | `src/mlx5.c:3159-3183` | A packet delivered survives any order of release iff the releases so far do not exceed the number of its slot by more than the slots never granted. |
| `RecvFifo.ConsumeKeeps` | `src/mlx5.c:2171-2184` | Delivered packets are exactly the successful arrivals consumed, in arrival order. |
| `RecvQueue.MissingBuffer` | `src/mlx5.c:1470-1483` | A buffer is missing iff the slot has never been posted, so allocation can fail only then. |
| `RecvQueue.PostRefines` | `src/mlx5.c:1470-1508` | Writing the next receive request touches no request in flight and no buffer in use. |
| `RecvQueue.DoorbellIsExact` | `src/mlx5.c:1510-1516` | From 24-bit indices the device sees exactly the slots announced and not yet filled. |
| `RecvQueue.DeviceReads` | `src/mlx5.c:1485-1500` | The request the device reads names the buffer of its own slot, with the posted size. |
| `RecvQueue.ReceiveRefines` | `src/mlx5.c:1485-1516` | A packet the device writes lands in its slot and disturbs no packet held. |
| `RecvQueue.ConsumeRefines` | `src/mlx5.c:2171-2184` | The 16-bit counter of the next completion, masked to 12 bits, names an allocated slot holding the next arrival, with its length. |
| `RecvQueue.ReceivedCount` | `src/mlx5.c:3135-3149` | The 16-bit count of packets held equals received minus released, never exceeds the slots granted and leaked (at most 4096) and never wraps. |
| `RecvQueue.HeldIsIntact` | `src/mlx5.c:3093-3152` | Each held packet reads as the device wrote it. |
| `RecvQueue.Rq.PostBuffers` | `src/mlx5.c:1455-1523` | Posts and announces exactly the count iff it is 1 to 4096 and memory can be had for the slots that need it, which are those of the first pass; otherwise it stops where the memory ends, with nothing announced. |
| `RecvQueue.Rq.RxPollOne` | `src/mlx5.c:2148-2185` | Consumes at most one completion, and none only if none is left after the full wait (or the timeout is negative); a success is the next arrival. |
| `RecvQueue.Rq.RxBurst` | `src/mlx5.c:3093-3152` | Returns the next successful arrivals in order, at most as many as asked; a burst that falls short ended at its first error completion or with none left, and one that consumed nothing has waited for as long as it was asked to. A burst that returns packets leaves doorbell record and consumer index equal in their low 24 bits. |
| `RecvQueue.Rq.RxRelease` | `src/mlx5.c:3159-3183` | Refused iff more is given back than held; fails iff more of the slots need memory than can be had, and then leaks exactly the slots posted before; success reposts and announces as many slots. Packets held stay intact. |
| `RecvClient.Run` | `src/mlx5.c:3093-3183` | For every run of bursts and releases with any errors and failed allocations, each step of which is accounted for: packets are read in arrival order, none skipped, those still held read the same at the end; posted slots = granted + released + leaked, and no more packets are held than slots granted and leaked. |
| `Mailbox.Xor8` | `src/mlx5.c:381-387` | The loop computes the XOR of the stretch. |
| `Mailbox.BlockIsSigned` | `src/mlx5.c:600-606` | The whole block, and its control part through the signature byte, XOR to 0xff. |
| `Mailbox.BlockFields` | `src/mlx5.c:592-598` | Data, next pointer, number and token read back from a signed block. |
| `Mailbox.SetupBlock` | `src/mlx5.c:592-598` | The in-place writes give the unsigned block, padded with zeros. |
| `Mailbox.SignBlock` | `src/mlx5.c:600-606` | Signing in place gives the signed block and nothing else changes. |
| `Mailbox.SetupChain` | `src/mlx5.c:612-636` | Succeeds iff at most 256 blocks are needed; then the region holds the chain of the bytes, else it is unchanged. |
| `Mailbox.WalkVisits` | `src/mlx5.c:612-636` | Following next pointers from any block visits exactly the remaining blocks in order and stops. |
| `Mailbox.CollectChain` | `src/mlx5.c:612-636` | The data parts of the visited blocks, cut to length, are the source bytes. |
| `Mailbox.CopyFromChain` | `src/mlx5.c:638-650` | The destination receives the payload of the blocks in order; bytes before it stay. |
| `Mailbox.GatherChain` | `src/mlx5.c:638-650` | On a chain that carries a byte string, gathering returns it. |
| `CommandPath.TokensDistinct` | `src/mlx5.c:659-665` | Any 255 consecutive commands carry distinct nonzero tokens, through every wrap. |
| `CommandPath.CmdCtx.TakeToken` | `src/mlx5.c:659-665` | The n-th command gets the n-th token of that sequence. |
| `CommandPath.DescriptorReads` | `src/mlx5.c:667-711` | The descriptor XORs to 0xff and all its fields read back. |
| `CommandPath.CmdCtx.WriteDescriptor` | `src/mlx5.c:667-711` | The in-place writes give exactly that descriptor. |
| `CommandPath.DeviceAccepts` | `src/mlx5.c:673-711` | From descriptor and mailbox the device reassembles the input although it accepts only what is signed: the descriptor, and exactly ceil((n - 16) / 512) blocks, numbered from 0, all with the token of the descriptor. |
| `CommandPath.ReplyStep` | `src/mlx5.c:685-698` | Filling one output block leaves the pointers of the blocks to come intact. |
| `CommandPath.CmdCtx.Submit` | `src/mlx5.c:673-716` | When the doorbell rings the device reads back the input given, and the output chain is laid out for the answer. |
| `CommandPath.CmdCtx.Await` | `src/mlx5.c:717-731` | The driver sees an answer iff the device answers any pending command before the last of a million and one looks; what lies in descriptor and mailbox is then that command's reply, cut or filled up to the length expected. |
| `CommandPath.CmdCtx.ReadReply` | `src/mlx5.c:733-739` | The output is what descriptor and mailbox hold, inline bytes first, then the payload of the blocks. |
| `CommandPath.CmdCtx.Exec` | `src/mlx5.c:652-753` | End to end, for every behaviour of the device: it sees the input iff both directions are at most 16 + 256 * 512 bytes; the caller gets, byte for byte, the reply of whichever pending command the device answered in time, resized; success is such an answer with status 0; the commands given up stay pending. |
| `CommandPath.OwnAnswerIff` | `src/mlx5.c:711-753` | Whichever pending command a device answers and whatever the replies, the driver gets the command's own reply iff no older command is pending. |
| `CommandPath.TokensTellApartIff` | `src/mlx5.c:659-731` | Comparing the token, which the driver does not do, would tell an older command from the current one iff their numbers do not differ by a multiple of 255. |
| `CommandPath.Run` | `src/mlx5.c:652-753` | For every run of commands: what each caller gets is determined by the replies and by which pending command was answered when; a command of at most 16 + 256 * 512 bytes in both directions, answered in time while no older one is pending, gets its own reply, with code 0 iff its status is 0. |
| `CommandPath.NonePending` | `src/mlx5.c:717-753` | While every command that was sent is answered in time, none is ever pending. |
| `CommandPath.StaleAnswerIsTaken` | `src/mlx5.c:717-753` | A concrete case: after a command given up, the next one gets the late reply as its own, with success, whatever its own would have been. |
| `AddressSpace.DisjointIff` | `src/mlx5.c:183-188` | All mappable regions are pairwise disjoint iff the device does not transmit or the firmware has at most 4096 pages; the coded cap of 8192 is too high. |
| `AddressSpace.FirmwarePageHitsRing` | `src/mlx5.c:806-841` | The concrete overlap: firmware page 4096 lies on the completion ring of transmit queue 0. |
| `AddressSpace.PairDisjoint` | `src/mlx5.c:2921-2934` | Two different mappable regions are disjoint under that condition. |
| `AddressSpace.PageAligned` | `src/mlx5.c:2921-2934` | Every region starts on a page and is a whole number of pages. |
| `AddressSpace.FillPas` | `src/mlx5.c:492-498` | Writes the consecutive page addresses and nothing else. |
| `AddressSpace.PasCoversRing` | `src/mlx5.c:1300-1302` | The page list fills the create command of a ring exactly (but for 128 bytes of a receive ring), and a page lies in the ring iff it is listed. |
| `Lifecycle.CleanupFollowsReferences` | `src/mlx5.c:2537-2639` | The cleanup routine has one place per object and takes every object down before anything it refers to. |
| `Lifecycle.PermitsIff` | `src/mlx5.c:2799-2972` | All steps of a start succeed iff every command its flags and queues need works, the pages asked for are at most 8192 and map, every object is created and its memory maps, and the receive buffers map. |
| `Lifecycle.StartHas` | `src/mlx5.c:2799-2972` | A step is taken in a start iff its flags and queues call for it. |
| `Lifecycle.UsesAre` | `src/mlx5.c:2921-2934` | What the steps map is exactly the memory of the objects, the firmware pages, and the receive buffers posted. |
| `Lifecycle.Device.CreateById` | `src/mlx5.c:2882-2890` | UAR, PD and memory key: succeeds iff answered; the id is recorded, and the object looks absent to the driver from then on iff its id is 0 or the answer came too late. |
| `Lifecycle.Device.CreateBacked` | `src/mlx5.c:1168-1236` | Memory is mapped first; succeeds iff all of it maps and the create is answered; otherwise nothing of it stays mapped. |
| `Lifecycle.Device.OpenContext` | `src/mlx5.c:538-590` | Succeeds iff the three regions map, and then exactly they are mapped; otherwise none is. |
| `Lifecycle.Device.GivePages` | `src/mlx5.c:806-852` | Succeeds iff none are asked for, or all pages asked for fit the cap of 8192, all map and the firmware takes them; pages of a failed attempt stay on record for the cleanup. |
| `Lifecycle.Device.DropHeld` | `src/mlx5.c:2551-2600` | An object the driver knows gets its one destroy command, and its memory is given back even if the firmware refuses. |
| `Lifecycle.Device.InitFirmware` | `src/mlx5.c:2799-2875` | The commands before the first object are issued in the order of the code up to the first that fails; success means all of them worked and the firmware has the pages it asked for, in both phases. |
| `Lifecycle.Device.Cleanup` | `src/mlx5.c:2537-2639` | From every point of failure: exactly one destroy per object the driver can see, nothing mapped, left over are exactly the refused and the unseen; reliable firmware refuses exactly what an object left over refers to; the result is 0 iff none was refused. |
| `Lifecycle.Device.Start` | `src/mlx5.c:2766-2986` | Succeeds iff everything works that flags and queues call for; then exactly the objects exist and exactly their memory is mapped, all firmware pages and receive buffers included. A failed one has created the objects of the steps up to the first that fails, in the order of the code; it is cleaned up, and with reliable firmware leaves an object iff one came with id 0 where the driver goes by the id, or was created without an answer in time. Starting twice changes nothing. |
| `Lifecycle.Device.Stop` | `src/mlx5.c:2716-2731` | A started device is cleaned up once, with the same condition for what is left; stopping a stopped one destroys nothing. |
| `Lifecycle.Device.Repost` | `src/mlx5.c:1477-1483` | A release maps the one receive page of its slot iff the device is started, receives, has that slot, and the page can be mapped; else nothing changes. |
| `Lifecycle.Device.MappedDisjoint` | `src/mlx5.c:2921-2934` | Whatever is mapped at one time is pairwise disjoint, given at most 4096 firmware pages or no transmit side. |
| `Lifecycle.Run` | `src/mlx5.c:2716-2986` | For every sequence of starts, stops and reposts: a start succeeds iff the device is started already or everything works that it needs; the lives of the device are exactly those the calls and their results ask for. Each life that is over created all objects or those of the steps up to the first that failed, and issued exactly one destroy per object the driver could see; with reliable firmware and no unseen object none was refused and none left; nothing stays mapped. |
| `Lifecycle.IdZeroIsLeft` | `src/mlx5.c:2605-2634` | A concrete case: a UAR of id 0 on an otherwise perfect device outlives a start and a stop that report no failure. |
| `Lifecycle.UnansweredIsLeft` | `src/mlx5.c:717-731` | A concrete case: a UAR created but answered too late outlives the failed start and its cleanup. |
| `Lifecycle.LeftOverPinsUar` | `src/mlx5.c:2605-2634` | A concrete case: an event queue created but answered too late keeps the UAR it refers to from being destroyed; both outlive the failed start. |
| `Checksum.FoldIsRemainder` | `src/sample.c:260-270` | The folded sum is the remainder modulo 65535, with 0 only for 0: the one's-complement sum of section 1 of RFC 1071. |
| `Checksum.ChecksumVerifies` | `src/sample.c:260-270` | Storing the checksum in a cleared 16-bit field, anywhere in an even-length header, makes the checksum of the whole header 0. |
| `Checksum.Compute` | `src/sample.c:260-270` | For every even-length header whose word sum fits 32 bits the two loops end with that checksum. |
| `Frames.BuildFrame` | `src/sample.c:272-358` | Succeeds iff the buffer has 98 bytes and the options fit; then the buffer holds exactly the frame of the options, number, time and flags, with zeros behind. |
| `Frames.FrameFields` | `src/sample.c:272-358` | Every field of a built frame reads back at its place: addresses, EtherType, magic, version, flags, number, time, payload length and payload, zeros behind; with IP and UDP also version, lengths, id, addresses and ports. |
| `Frames.PatchedIsFrame` | `src/sample.c:361-381` | Patching the frame of any stamp gives byte for byte the frame of the new stamp, IP id, checksum and UDP port included. |
| `Frames.BuildFromTemplate` | `src/sample.c:361-381` | The template builder writes that same frame, for every option set, and leaves the buffer behind it alone. |
| `Frames.HeaderChecksumVerifies` | `src/sample.c:328-345` | The IP header of every built frame, full or from a template, checks to 0. |
| `Echo.ParsesBack` | `src/sample.c:643-676` | A built frame parses back to its number, time and flags, with or without IP and UDP headers. |
| `Echo.ParseIff` | `src/sample.c:643-676` | A packet is parsed iff it has the EtherType and carries a benchmark header where the options put it, and then to the stamp of that header; every other packet is rejected. |
| `Echo.Reflect` | `src/sample.c:1109-1133` | The in-place rewrite does exactly what the echo rule says, filtered and already answered frames included. |
| `Echo.RewrittenParts` | `src/sample.c:1126-1131` | Addresses trade places, the flags gain the reply bit, every other byte stays. |
| `Echo.EchoedOnce` | `src/sample.c:1109-1121` | For every packet: its echo is recognised as a reply and never echoed again. |
| `Echo.EchoParses` | `src/sample.c:1109-1133` | For every packet: its echo parses iff it did, to the same number and time with the reply bit, and is a reflection iff it went from src to dst. |
| `Echo.EchoOfFrame` | `src/sample.c:1109-1133` | The echo of a built frame is the frame built in the opposite direction with the reply bit set; it parses back and is recognised as a reflection. |
| `Echo.RssIsFiltered` | `src/sample.c:1109-1115` | Frames with IP and UDP headers are never echoed, since the magic number is looked for behind the Ethernet header. |
| `EchoLoop.Run` | `src/sample.c:1099-1155` | On top of the modelled driver, for any number of rounds: each round takes the next packet; the frames posted are exactly the echoes of the packets received, once each and in arrival order (one whose echo cannot be sent ends the run); the wire carries those the device took and did not fail; every packet is given back before the next. A run ends early only with enough echoes, without a packet, with a full transmit ring, or without memory. |
| `BenchWindow.EnterKeeps` | `src/sample.c:718-730` | Entering the next number in its free slot keeps table and set in agreement and newest minus oldest below the window. |
| `BenchWindow.BusyIff` | `src/sample.c:718-730` | A slot is taken iff the number one window earlier is unanswered. |
| `BenchWindow.FindIff` | `src/sample.c:704-716` | The lookup finds a number iff it is unanswered, with its send time. |
| `BenchWindow.LeaveKeeps` | `src/sample.c:1476-1478` | Clearing a slot removes exactly that number from the set. |
| `BenchWindow.AgreesCount` | `src/sample.c:1313-1505` | Unanswered plus credited is everything sent; active slots = unanswered numbers, at most the window, all within one window of the next number. |
| `BenchWindow.CreditAgrees` | `src/sample.c:1476-1478` | A credit moves one number from unanswered to credited, which no second reply can do. |
| `BenchWindow.CreditedIff` | `src/sample.c:1409-1478` | A packet is credited iff it carries the benchmark header of a reply to an unanswered number and the clock agrees. |
| `BenchWindow.ReturnJudged` | `src/sample.c:1409-1478` | What becomes of a built frame that comes back, reply bit or not: credited iff its number is unanswered and at least the minimum round trip has passed; unmatched or local otherwise, exactly when. |
| `BenchWindow.FillToEnters` | `src/sample.c:1322-1345` | Filling enters consecutive numbers, each with the time it is stamped with, until nothing more can be sent, and changes nothing else. |
| `BenchWindow.Bench.LookUp` | `src/sample.c:1409-1499` | The verdict from the table is the one defined on the set, and the set changes as that verdict says. |
| `BenchWindow.Bench.Enter` | `src/sample.c:1324-1343` | Refuses iff the number one window earlier is unanswered; otherwise the number is entered. |
| `BenchWindow.Bench.FillBatch` | `src/sample.c:1322-1345` | The table is filled as far as the set-level rule allows: numbers without a gap until all are sent, the window is full or the number one window earlier is unanswered; each frame is that of its number and recorded time. |
| `BenchWindow.Bench.Fill` | `src/sample.c:1314-1370` | All batches together are what the set-level rule enters, handed over in order; it fails only if sending fails, and with replies missing something is in flight afterwards. |
| `BenchWindow.Bench.Poll` | `src/sample.c:1373-1399` | Takes the packets of the first queue, in cyclic order from the cursor on, that has any, asking none twice and all of them if none has; the cursor moves behind the queue that answered. |
| `BenchWindow.Bench.Receive` | `src/sample.c:1409-1499` | Credits a packet iff it carries the header of a reply to an unanswered number and the clock agrees; then that number moves from unanswered to credited, otherwise nothing changes. |
| `BenchWindow.Bench.DoRound` | `src/sample.c:1313-1505` | One round on slots and counters has the outcome and the effect of a round on the set of unanswered numbers. |
| `BenchWindow.Bench.Run` | `src/sample.c:1313-1505` | For every list of rounds and every stream of packets, reordered, duplicated or lost: progress and outcome are those of the set-level rounds, in flight = sent - received at most the window throughout, no number is credited twice, all frames handed to the driver are those of their numbers in order, and a successful run has credited every number below the count. |
| `BenchSingle.Run` | `src/sample.c:1237-1311` | The k-th acceptable reply, carried by a later packet than the one before, is taken for the answer to frame k; a run fails exactly at the first frame the driver does not take or packet that cannot be given back, and otherwise ends well iff there are enough replies. As long as replies follow what they answer, every frame got its own answer iff no number was accepted twice. |
| `BenchSingle.AcceptedIff` | `src/sample.c:1262-1303` | A packet is taken for an answer iff it carries a benchmark header, is a reply or comes back from the destination, and arrives late enough. |
| `BenchSingle.DuplicateAnswersTwice` | `src/sample.c:1262-1303` | A concrete case: one reply delivered twice ends a run of two frames, the second never answered. |
| `BenchSingle.OwnIffDistinct` | `src/sample.c:1262-1303` | For answers none of which carries the number of a frame not sent yet: every one is the frame's own iff they are distinct. |
| `BenchSingle.StrayAnswersFirst` | `src/sample.c:1262-1303` | A concrete case: a stray reply of an earlier run carries the number of a frame not sent yet; all numbers are distinct, yet the first frame gets the wrong answer. |
| `Workers.Partition` | `src/sample.c:467-476` | The ranges cover exactly the numbers below the count and no number lies in two of them. |
| `Workers.BoundIsFair` | `src/sample.c:467-474` | A range begins at the fair part of the count, rounded down. |
| `Workers.RangeSize` | `src/sample.c:467-476` | Range sizes differ by at most one. |
| `Workers.SharesFit` | `src/sample.c:475-476` | The shares sum to at most the larger of window and queue count, and one more each would exceed the window. |
| `Workers.AllSent` | `src/sample.c:484-502` | The workers sent the count in total iff each sent its whole range. |
| `Workers.BenchWorker` | `src/sample.c:390-442` | Frames sent exceed replies by at most the share, and are not fewer than the full batches of the rounds done allow; each number is posted at most once and in order; replies are exactly the reflections among the packets read, all of which are given back. It is done iff it has a reply per number; it stops at the first round that sees the failure flag, gives up as idle iff more than 100,000,000 rounds since the last packet had nothing to send, and fails otherwise only for a full ring or lack of memory. |
| `Workers.FloodWorker` | `src/sample.c:506-554` | Each number of the range is posted at most once and in order; success means the queue drained with the whole range on the wire. Failure has its cause: no buffers, the failure flag seen set, or a ring that is full or does not drain for lack of a success to wait for. |
| `Flood.AssignedOnce` | `src/sample.c:603-612` | The frame of every number below the count is assigned to exactly one worker, at exactly one position. |
| `Flood.Run` | `src/sample.c:603-635` | For any number of independent queues: the flood succeeds iff every queue drains, and has then put exactly the range of each worker on its wire and counted the packet count; otherwise each worker has posted a prefix, and one that failed has a cause. |
| `ParallelBench.LeadFits` | `src/sample.c:475-486` | Frames sent exceed replies, in total, by at most the sum of the shares. |
| `ParallelBench.RepliesFit` | `src/sample.c:484-502` | Once all workers are done the replies are as many as the frames in total iff every worker got exactly one per number of its range. |
| `ParallelBench.Run` | `src/sample.c:446-504` | For any number of independent queue pairs: each worker posts a prefix of its range; in total frames are at most the larger of window and queue count ahead of replies; the run succeeds iff every worker is done and frames and replies both number the count, and then each worker got exactly one reply per number: one surplus reflection fails the run. |

## Left out

- Operating system: VFIO, PCI, sysfs, memory mapping, threads, the clock, the
  command line; mapping a region is a step that may fail, and unmapping always
  works.
- Guards of the API functions against null pointers, wrong states and queue
  numbers, the last-error codes, and log output: no hard property.
- Field offsets in the firmware contexts (CQC, SQC, RQC, TIRC, flow context):
  creating an object is a step that fails or succeeds with an id.
- Memory barriers: each store of the driver is visible to the device at its next
  step.  The copy of the control segment into the BlueFlame register is left
  out, and both words of a doorbell record are one step.
- Liveness of the device: waits are bounded, but nothing says that the device
  answers in time.
- CompletionQueue.Cq.DeviceWrite: the device holds a completion back when there is
  no room; what it does on a real overrun is not modelled.
- CompletionQueue.Cq.Poll: does not model the overflow of the millisecond
  counter for a timeout of INT_MAX, which never ends in the code.
- Lifecycle.Device.CreateBacked: the records of the driver are maps from objects
  to what the driver knows of them, where the code has one struct field per
  object; the bytes of the create commands are left out.
- Lifecycle.Device.Stop: an object whose destroy was refused stays live while
  its memory is unmapped, as in the code; what the device might then do is not
  modelled.
- Lifecycle.Device.Cleanup: pages given to the firmware are unmapped without
  asking for them back, as in the code.
- Frames.BuildFrame: addresses, EtherType and payload are values; parsing them
  from text is left out.
- BenchWindow.Bench.Run: exactly the rounds given, for every list of rounds, since
  nothing bounds how many foreign packets arrive; sending and receiving may fail
  in any of them and are not the ring models here.
- EchoLoop.Run: exactly the rounds given, unless it ends before.
- Workers.BenchWorker: exactly the rounds given, unless it ends before; the failure
  flag shared by the workers can be seen set in any of them.  Reply counters do
  not wrap: a surplus of 2^32 reflections is not modelled.
- Flood.Run: workers run one after the other, which is the same since they share
  only the failure flag, whose values seen are arbitrary.
- ParallelBench.Run: as for `Flood.Run`; the 32-bit totals do not wrap.
- Statistics, rates and latencies; the DPDK peer, the Python helper, the older
  single-packet test programs, and driver functions the API does not reach.
