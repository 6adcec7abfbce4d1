# Properties of the imgsys, CCD and sensor drivers

A Dafny model of the stateful kernels of a MediaTek camera driver set, and proofs about them.

* **The imgsys GCE task engine.** `GceCommands` is the command parser, `GcePacking` the cutting of
  blocks into packets, `GceSend` the send loop over frames and blocks with its array, counters and
  failure paths, `GceProgram` what a send amounts to, `GceFlush` where it flushes and how far it
  gets, `GceMeaning` what its packets do when they run, `GceErrors` the attribution of a failed
  packet to a frame, `GceCompletion` the asynchronous completion side as a transition system over
  the sender, the GCE and the work queue. `ReqNotify` is the callback counting that decides when a
  request is notified.
* **The iova cache and the dma-buf references.** `IovaCache` is an abstract dma-buf service with
  reference counts, a file table and live mappings, and the cache over it (list and hash).
  `DescRefs` is the descriptor tree of single-device requests: filled, mapped, unmapped.
* **The CCD rpmsg protocol.** `CcdMailbox`, `CcdFifo` and `CcdLifetime` are transition systems
  whose steps are lock, unlock, wait, counter and field-copy operations of the threads.
* **Supporting engines.** `BufferPool`, `WorkPool`, `RunnerQueue`, `AdaptorI2c`, `Dvfs`, `CcdMem`,
  `CameraFormat`. `Tally`, `Traces` (runs of a step function) and `Options` hold what several
  modules share.

Code that updates objects is modelled by classes whose methods are proved against functions of the
old state; code whose interleavings matter by states, enabled actions and invariants over every run.
Choices of the environment (failing allocations, attach and map results, transfer results, order of
completion, interrupted waits) are parameters or actions, so the theorems hold for all of them.

What the proofs bring out:

* A request whose last frame announces no block is sent without ever publishing its task total, and
  may leave a packet unflushed (`GceProgram.PublishedIff`, `GceProgram.NothingLeftOver`,
  `GceProgram.EmptyLastFrame`).
* A packet of more than 64 blocks runs past `pkt_ofst` (`GceProgram.FitsIff`, `GceProgram.PlainFits`),
  and a frame with fewer STOPs than blocks past its commands (`GceCommands.FrameOutcome`,
  `GceProgram.TooFewStops`); nothing else takes a send past either (`GceSend.EndedIff`).
* An empty first block leaves a wrapped-around offset that misattributes every later error
  (`GceErrors.EmptyFirstMisleads`); several blocks in a packed frame misattribute, or wrap, the frame
  index (`GceErrors.FormulaWraps`). The offset itself is fixed at 0 in the driver, so it always names
  the packet's first frame.
* With several GCE threads completing in any order among each other, a request sent whole still gets
  its final callback (`GceCompletion.WholeSendCompletes`): a thread is chosen per packet, so a task
  that is not the last of its frame is always followed by one on its own thread.
* `put_gce_work` would block on its own lock if it dropped the last reference, which the shutdown
  order rules out; but works still queued when the runner is stopped, or taken later, keep the pool
  from ever being freed (`WorkPool.NeverStuck`, `WorkPool.ReleasedIff`, `WorkPool.PinnedRun`).
* The mailbox loses no event exactly when there is at most one producer (`CcdMailbox.LosslessIff`).
* Destroying an endpoint while its reader is past its last check of the state, on the way to a message
  the drain can still take, can make a consumer pop an empty list (`CcdFifo.EmptyPopRun`); at any
  other moment it cannot, and the drain ends (`CcdFifo.DestroyClashIff`, `CcdFifo.DestroyedSafely`).
  It leaves the message of a sender that gets the lock only afterwards (`CcdFifo.DrainsIff`,
  `CcdFifo.LeftMessageRun`).
* `adaptor_i2c_rd_p8` accepts a transfer whose read never happened (`AdaptorI2c.StaleRead`). At lengths
  of 2^31 and more `wr_p8`, `wr_p16` and `wr_seq_p8` transfer nothing and report success, and the
  read, as at length 0, returns an uninitialised value (the contracts of `AdaptorI2c.Bus`).
* Taking an SMVR request off leaves its clock floor in place although nothing needs it, and a plain
  call beside an active SMVR request sets the clock to zero (`Dvfs.FreqOkIff`, `Dvfs.FloorStays`,
  `Dvfs.StopTheClock`).

## Model

| member | source | states |
|---|---|---|
| `GceCommands.Recorder.Step` | drivers/media/platform/mtk-isp/isp_70/imgsys/mtk_imgsys-cmdq.c:1038-1190 | one command: its refusals, the instruction it appends with the aliasing of the command's union, and the change to one history counter, the others untouched |
| `GceCommands.Recorder.ParseBlock` | drivers/media/platform/mtk-isp/isp_70/imgsys/mtk_imgsys-cmdq.c:1024-1196 | one parser call: where it stops, and that packet, READ slots and event counters hold exactly the accepted commands' translation, also when it is refused half-way |
| `GceCommands.ParsedIsBlock` | drivers/media/platform/mtk-isp/isp_70/imgsys/mtk_imgsys-cmdq.c:1037-1196 | a successful call accepts a run without refused commands up to its first STOP, or the whole frame; a refused or overrun call is pinned to its place |
| `GceCommands.StreamSplit` | drivers/media/platform/mtk-isp/isp_70/imgsys/mtk_imgsys-cmdq.c:850-897 | `n` calls with `cmd_idx += ret` consume a frame exactly if and only if it holds `n` STOPs and ends with one (or, for one call, holds no STOP) |
| `GceCommands.TailSplit` | drivers/media/platform/mtk-isp/isp_70/imgsys/mtk_imgsys-cmdq.c:887-897 | the same from any later `cmd_idx`, where the loop bound of the call is out of reach and only STOPs end it |
| `GceCommands.FrameOutcome` | drivers/media/platform/mtk-isp/isp_70/imgsys/mtk_imgsys-cmdq.c:850-897 | how a frame of `n` blocks comes out for any commands: translated if and only if `n` STOPs precede the first refused command (or it is one block without one); otherwise refused, or, with no refused command, read past its end |
| `GceCommands.StaysInside` | drivers/media/platform/mtk-isp/isp_70/imgsys/mtk_imgsys-cmdq.c:887-897 | without refused commands `n` calls stay within the frame if and only if it holds `n` STOPs, or one call is made on a frame not empty |
| `GceCommands.TranslateConcat` | drivers/media/platform/mtk-isp/isp_70/imgsys/mtk_imgsys-cmdq.c:1038-1190 | translating a concatenation is concatenating the translations, READ results numbered on |
| `GceCommands.ProgramIgnoresSlots` | drivers/media/platform/mtk-isp/isp_70/imgsys/mtk_imgsys-cmdq.c:1048-1052 | where READ results are numbered from changes nothing else |
| `GceMeaning.PacketMeans` | drivers/media/platform/mtk-isp/isp_70/imgsys/mtk_imgsys-cmdq.c:1038-1190 | running the packet a run of commands is translated to, on a machine of registers, events and values read, does what the words of each command say: the masked write of the low half of `source`, the poll, the wait that clears its event or not, set, clear, acquire, and the reads in order |
| `GceMeaning.BlockMeans` | drivers/media/platform/mtk-isp/isp_70/imgsys/mtk_imgsys-cmdq.c:1024-1196 | the same for what a parser call adds to a packet under way |
| `GceMeaning.InstructionAt` | drivers/media/platform/mtk-isp/isp_70/imgsys/mtk_imgsys-cmdq.c:1041-1166 | the place of every accepted command in its packet, right after those before it, and the fields of its instruction from the command's words, with the slot of a READ being the number of READs before it |
| `GceMeaning.WriteExample` | drivers/media/platform/mtk-isp/isp_70/imgsys/mtk_imgsys-cmdq.c:1061-1074 | a write of 2 under the mask 3 turns 0xABCD into 0xABCE |
| `GceMeaning.FailsIff` | drivers/media/platform/mtk-isp/isp_70/imgsys/mtk_imgsys-cmdq.c:1041-1190 | the register range, the event bound and the opcodes outside which a command is refused |
| `GceMeaning.CountersMove` | drivers/media/platform/mtk-isp/isp_70/imgsys/mtk_imgsys-cmdq.c:1104-1146 | the counter of a pool event moves by the number of action-1 WAITs on it less that of action-1 UPDATEs |
| `GcePacking.GroupingIsPacking` | drivers/media/platform/mtk-isp/isp_70/imgsys/mtk_imgsys-cmdq.c:851-1016 | the packets closed, then the open one, are the units in order, cut after every closing unit |
| `GcePacking.PackingIsUnique` | drivers/media/platform/mtk-isp/isp_70/imgsys/mtk_imgsys-cmdq.c:851-1016 | no other cut is one: each unit has exactly one packet |
| `GcePacking.LogFlushesAll` | drivers/media/platform/mtk-isp/isp_70/imgsys/mtk_imgsys-cmdq.c:918-1016 | the effects of a send hand over every task, in order |
| `GcePacking.PacketsConcat` | drivers/media/platform/mtk-isp/isp_70/imgsys/mtk_imgsys-cmdq.c:887-1010 | the flushed packets concatenated are the in-order translation of all their units; the task_cnt values add up to the number of units |
| `GceSend.Sender.ChooseThread` | drivers/media/platform/mtk-isp/isp_70/imgsys/mtk_imgsys-cmdq.c:789-832 | thread 0 for a request with a sync id, else its group's, else DIP's, else the lowest engine's; the previous choice without an engine; none exactly when the group is out of range or nothing names a thread |
| `GceSend.Sender.SendBlock` | drivers/media/platform/mtk-isp/isp_70/imgsys/mtk_imgsys-cmdq.c:851-1016 | one turn of the block loop takes the sender from its state after some units to its state after one more, or fails for exactly the stated reason, having flushed and published nothing |
| `GceSend.Sender.SendTask` | drivers/media/platform/mtk-isp/isp_70/imgsys/mtk_imgsys-cmdq.c:673-1022 | the whole send, for any request and any allocation results: what has been flushed and published is exactly the tasks of a prefix of the request's units; every allocation made for them succeeded; and it stops where the next block finds no memory, or succeeds, is refused, or leaves an array exactly as the request's first untranslatable block and its offset table decide |
| `GceSend.EndedIff` | drivers/media/platform/mtk-isp/isp_70/imgsys/mtk_imgsys-cmdq.c:886-905 | sent if and only if everything translates and fits; refused if and only if it fits and a header, a thread or a command stops it; out of bounds if and only if a parse runs off its frame or an offset past the table's 64 entries would be written |
| `GceFlush.SendDetermined` | drivers/media/platform/mtk-isp/isp_70/imgsys/mtk_imgsys-cmdq.c:851-925 | the contract of `SendTask` leaves one outcome: for given allocation results there is one status and one prefix packed |
| `GceFlush.SentIff` | drivers/media/platform/mtk-isp/isp_70/imgsys/mtk_imgsys-cmdq.c:766-1022 | it is `Sent` if and only if the request is translatable, fits the offset table, and every allocation made for it succeeds |
| `GceFlush.TranslatableIff` | drivers/media/platform/mtk-isp/isp_70/imgsys/mtk_imgsys-cmdq.c:766-842 | translatable if and only if every frame has its guard words, an offset within its limit and enough STOPs before any refused command, the group is in range, and the first frame names an engine or the request a group or sync id |
| `GceFlush.StopsAt` | drivers/media/platform/mtk-isp/isp_70/imgsys/mtk_imgsys-cmdq.c:766-897 | otherwise a send packs every block of the frames before some frame, and of that frame nothing (wrong header, no thread) or the blocks before the first not accepted |
| `GceFlush.FlushPoints` | drivers/media/platform/mtk-isp/isp_70/imgsys/mtk_imgsys-cmdq.c:910-913 | however far a send gets, a unit ends its packet if and only if its frame is time-shared, secure or early-callback, or the request's last |
| `GceFlush.FlushedBlocks` | drivers/media/platform/mtk-isp/isp_70/imgsys/mtk_imgsys-cmdq.c:906-1016 | of the blocks packed, exactly those have a task of their own in the log |
| `GceFlush.SenderFlushes` | drivers/media/platform/mtk-isp/isp_70/imgsys/mtk_imgsys-cmdq.c:906-1016 | the same for the log the sender holds after `SendTask`; on success all blocks are packed |
| `GceFlush.TaskParams` | drivers/media/platform/mtk-isp/isp_70/imgsys/mtk_imgsys-cmdq.c:926-966 | every callback parameter of every task in terms of the request: frame, block, last-flags, early callback, numbering, how many blocks since the task before, and the thread |
| `GceFlush.PacketThread` | drivers/media/platform/mtk-isp/isp_70/imgsys/mtk_imgsys-cmdq.c:787-838 | a packet that starts with the first block of a frame goes to the thread that frame calls for |
| `GceProgram.UnitAt` | drivers/media/platform/mtk-isp/isp_70/imgsys/mtk_imgsys-cmdq.c:766-897 | the k-th unit is the k-th block counted frame by frame, with the commands the parser cuts for it: no block twice |
| `GceProgram.BlockHasUnit` | drivers/media/platform/mtk-isp/isp_70/imgsys/mtk_imgsys-cmdq.c:766-897 | every block of a translatable request has a unit, at its place |
| `GceProgram.PackingPreservesProgram` | drivers/media/platform/mtk-isp/isp_70/imgsys/mtk_imgsys-cmdq.c:765-1018 | flushed packets, then any open one, are the in-order translation of every block of every frame; task counts cover every block once |
| `GceMeaning.SendMeans` | drivers/media/platform/mtk-isp/isp_70/imgsys/mtk_imgsys-cmdq.c:765-1018 | running the flushed packets one after the other, then any open one, does what the commands of every block of every frame say, in order |
| `GceMeaning.SentMeans` | drivers/media/platform/mtk-isp/isp_70/imgsys/mtk_imgsys-cmdq.c:765-1018 | the same for the tasks in the log the sender holds |
| `GceProgram.NothingLeftOver` | drivers/media/platform/mtk-isp/isp_70/imgsys/mtk_imgsys-cmdq.c:906-912 | nothing stays unflushed if and only if the last frame with a block closes its packet (always, if the last frame has one) |
| `GceProgram.FitsIff` | drivers/media/platform/mtk-isp/isp_70/imgsys/mtk_imgsys-cmdq.c:904-912 | a translatable request stays within the offset table if and only if each frame finds room for its blocks behind those waiting in the open packet |
| `GceProgram.PlainFits` | drivers/media/platform/mtk-isp/isp_70/imgsys/mtk_imgsys-cmdq.c:904-912 | one-block frames packed together fit up to 64 of them; a 65th runs past the table |
| `GceProgram.TooFewStops` | drivers/media/platform/mtk-isp/isp_70/imgsys/mtk_imgsys-cmdq.c:887-897 | a frame that announces two blocks and holds one STOP runs off its commands |
| `GceProgram.PublishedOnce` | drivers/media/platform/mtk-isp/isp_70/imgsys/mtk_imgsys-cmdq.c:957-966 | however far a send gets, total_taskcnt is written at most once: right before the last flush, by the final block, with the number of tasks |
| `GceProgram.PublishedIff` | drivers/media/platform/mtk-isp/isp_70/imgsys/mtk_imgsys-cmdq.c:957-966 | a whole send writes it if and only if the last frame has a block |
| `GceProgram.EmptyLastFrame` | drivers/media/platform/mtk-isp/isp_70/imgsys/mtk_imgsys-cmdq.c:957-966 | a request of a frame with one block and a last frame with none: translated whole, nothing published, a packet left open |
| `GceProgram.OneThreadPerPacket` | drivers/media/platform/mtk-isp/isp_70/imgsys/mtk_imgsys-cmdq.c:787-838 | all units of a packet were meant for one GCE thread |
| `GceProgram.NextGroup` | drivers/media/platform/mtk-isp/isp_70/imgsys/mtk_imgsys-cmdq.c:787-912 | a packet that ends inside a frame is followed by a packet with the frame's next block, for the same thread |
| `GceErrors.FindUnit` | drivers/media/platform/mtk-isp/isp_70/imgsys/mtk_imgsys-cmdq.c:558-576 | the pkt_ofst search with its clamp |
| `GceErrors.MeasureExists` | drivers/media/platform/mtk-isp/isp_70/imgsys/mtk_imgsys-cmdq.c:903-903 | a packet measure as the offsets assume exists |
| `GceErrors.SearchFindsOwner` | drivers/media/platform/mtk-isp/isp_70/imgsys/mtk_imgsys-cmdq.c:558-576 | the search finds the unit whose instructions contain the offset if and only if the packet has one unit, or its first unit emits something and the offset starts an instruction |
| `GceErrors.EmptyFirstMisleads` | drivers/media/platform/mtk-isp/isp_70/imgsys/mtk_imgsys-cmdq.c:558-577 | a packet of a block that emits nothing and one that emits an instruction: an error at any offset is found in the first and blamed on its frame |
| `GceErrors.FrameFormula` | drivers/media/platform/mtk-isp/isp_70/imgsys/mtk_imgsys-cmdq.c:577-577 | the frame formula is right for every unit of a packet if and only if its frames but the last have one block each |
| `GceErrors.FrameInRange` | drivers/media/platform/mtk-isp/isp_70/imgsys/mtk_imgsys-cmdq.c:577-577 | then the index stays between the packet's first and last frame |
| `GceErrors.BlamesTheRightFrame` | drivers/media/platform/mtk-isp/isp_70/imgsys/mtk_imgsys-cmdq.c:558-577 | in a packet of one-block frames the formula always names the frame of the unit found, and that unit owns the offset if and only if the packet is one unit or its first frame emits something; on the task the sender built |
| `GceErrors.FormulaWraps` | drivers/media/platform/mtk-isp/isp_70/imgsys/mtk_imgsys-cmdq.c:577-577 | two blocks of one frame packed before the next: the packet ends in frame 1 and the formula for its first unit wraps around |
| `GceErrors.OffsetZeroIsFirst` | drivers/media/platform/mtk-isp/isp_70/imgsys/mtk_imgsys-cmdq.c:558-564 | the offset 0 the driver puts in always gives the packet's first frame |
| `GceCompletion.LastIsFinal` | drivers/media/platform/mtk-isp/isp_70/imgsys/mtk_imgsys-cmdq.c:386-485 | in every interleaving at most one callback has isLastTaskInReq; it is the final one and nothing can happen after it |
| `GceCompletion.CompletionIff` | drivers/media/platform/mtk-isp/isp_70/imgsys/mtk_imgsys-cmdq.c:386-485 | a run come to rest has had it if and only if the total was published, no flush failed, and the last task completed is block-last |
| `GceCompletion.CalledBackOnce` | drivers/media/platform/mtk-isp/isp_70/imgsys/mtk_imgsys-cmdq.c:425-485 | a run come to rest has called a task back exactly once if its work was done, it is block-last, and it is early or the last begun of a published request without failed flush; every other task never; the callbacks come in the order the works began |
| `GceCompletion.OneThreadCompletes` | drivers/media/platform/mtk-isp/isp_70/imgsys/mtk_imgsys-cmdq.c:425-485 | completion in flush order always gives it |
| `GceCompletion.ChainEndsBlkLast` | drivers/media/platform/mtk-isp/isp_70/imgsys/mtk_imgsys-cmdq.c:386-485 | where a task that is not block-last is followed by one of its thread, the task completed last is block-last, however the threads overtake each other |
| `GceCompletion.SendIsChained` | drivers/media/platform/mtk-isp/isp_70/imgsys/mtk_imgsys-cmdq.c:787-966 | and a request sent whole is like that |
| `GceCompletion.SendIsWellFormed` | drivers/media/platform/mtk-isp/isp_70/imgsys/mtk_imgsys-cmdq.c:918-1016 | any prefix of a request is a send the above applies to; a partial one publishes nothing |
| `GceCompletion.WholeSendCompletes` | drivers/media/platform/mtk-isp/isp_70/imgsys/mtk_imgsys-cmdq.c:425-485 | a request sent whole, over any number of threads each completing its packets in flush order, gets the callback if and only if its last frame has a block and no flush failed; then exactly one, as its final callback |
| `GceCompletion.WholeSendCallsBack` | drivers/media/platform/mtk-isp/isp_70/imgsys/mtk_imgsys-cmdq.c:432-485 | the same for a request sent whole, by its frames: last block of an early-callback frame, or last task of a request whose last frame has a block |
| `GceCompletion.EarlyFrameCalledBack` | drivers/media/platform/mtk-isp/isp_70/imgsys/mtk_imgsys-cmdq.c:432-485 | without failed flushes every early-callback frame with a block is called back once, whatever order the threads complete in |
| `GceCompletion.PartialSendNeverCompletes` | drivers/media/platform/mtk-isp/isp_70/imgsys/mtk_imgsys-cmdq.c:890-896 | a send that stopped early never leads to one |
| `ReqNotify.RecordList.Count` | drivers/media/platform/mtk-isp/isp_70/imgsys/mtk_imgsys-sys.c:890-906 | the list walk of a callback: every record of the descriptor counts up, full ones go, and whether one was full |
| `ReqNotify.RecordList.Create` | drivers/media/platform/mtk-isp/isp_70/imgsys/mtk_imgsys-sys.c:1573-1589 | a record is made for the first package, if callbacks are expected |
| `ReqNotify.CountIsLocal` | drivers/media/platform/mtk-isp/isp_70/imgsys/mtk_imgsys-sys.c:890-906 | with one record per descriptor the list is a map, and a callback touches its own record only |
| `ReqNotify.NotifiedAtTheExpectedCallback` | drivers/media/platform/mtk-isp/isp_70/imgsys/mtk_imgsys-sys.c:890-1039 | in every interleaving of grouped requests, notified at exactly the expected callback and never again; num_composing is the sent and not notified |
| `ReqNotify.AllDone` | drivers/media/platform/mtk-isp/isp_70/imgsys/mtk_imgsys-sys.c:504-539 | when all callbacks have come nothing is composing and no record is left |
| `IovaCache.Pipe.Lookup` | drivers/media/platform/mtk-isp/isp_70/imgsys/mtk_imgsys-dev.c:574-591 | the bucket search finds an entry with this descriptor and this dma-buf if and only if the list has one |
| `IovaCache.Pipe.AddIova` | drivers/media/platform/mtk-isp/isp_70/imgsys/mtk_imgsys-v4l2.c:1688-1756 | an attempt for each descriptor that resolves, numbered in order, and for each that succeeds an entry with descriptor, dma-buf and address at the place the successes before it leave, with a new mapping and a reference; nothing else; references of others unchanged; refused as a whole above 32 |
| `IovaCache.AddedExactly` | drivers/media/platform/mtk-isp/isp_70/imgsys/mtk_imgsys-v4l2.c:1706-1754 | that this is what the turns of the loop add up to |
| `DescRefs.AddThenGet` | drivers/media/platform/mtk-isp/isp_70/imgsys/mtk_imgsys-dev.c:574-596 | a descriptor added with attach and map succeeding is found by the next lookup: the address is a listed entry's, and nothing is mapped for the request |
| `IovaCache.Pipe.DelIova` | drivers/media/platform/mtk-isp/isp_70/imgsys/mtk_imgsys-v4l2.c:1783-1838 | keeps exactly the entries of `KeepAll`, unmapping and putting only the others |
| `IovaCache.KeepAllHas` | drivers/media/platform/mtk-isp/isp_70/imgsys/mtk_imgsys-v4l2.c:1802-1838 | an entry stays if and only if it shares neither descriptor nor dma-buf with any descriptor that resolves |
| `IovaCache.Pipe.StreamOff` | drivers/media/platform/mtk-isp/isp_70/imgsys/mtk_imgsys-sys.c:2188-2198 | the purge empties list and hash and gives every reference back |
| `IovaCache.Pipe.Drop` | drivers/media/platform/mtk-isp/isp_70/imgsys/mtk_imgsys-v4l2.c:1819-1829 | one entry leaves list and hash, its mapping and its reference with it |
| `IovaCache.BucketsWithout` | drivers/media/platform/mtk-isp/isp_70/imgsys/mtk_imgsys-v4l2.c:1824-1827 | list_del and hash_del keep the hash the list's entries, bucket by bucket |
| `IovaCache.WithoutRefs` | drivers/media/platform/mtk-isp/isp_70/imgsys/mtk_imgsys-v4l2.c:1819-1829 | dropping an entry gives up exactly its reference |
| `DescRefs.DevBuf.GetIova` | drivers/media/platform/mtk-isp/isp_70/imgsys/mtk_imgsys-dev.c:562-650 | hit: the address of a listed entry, nothing mapped; miss: an address if and only if attach and map succeed, that attempt's, and the table grows by exactly its entry; the reference is put or becomes the entry's; a non-error address is that of a live mapping of exactly this dma-buf |
| `DescRefs.DevBuf.FillFrame` | drivers/media/platform/mtk-isp/isp_70/imgsys/mtk_imgsys-dev.c:767-802 | what is written to each plane, and that the references taken are those the planes hold |
| `DescRefs.DevBuf.FillHeader` | drivers/media/platform/mtk-isp/isp_70/imgsys/mtk_imgsys-dev.c:1529-1583 | only enabled frames up to the clamped count are filled |
| `DescRefs.FilledAt` | drivers/media/platform/mtk-isp/isp_70/imgsys/mtk_imgsys-dev.c:1529-1583 | plane by plane: in an enabled frame before the announced number, a plane naming a descriptor gets the dma-buf it resolves to, or the error mark; every other keeps its own |
| `DescRefs.MetaAt` | drivers/media/platform/mtk-isp/isp_70/imgsys/mtk_imgsys-dev.c:1586-1664 | and in the control metadata in every frame before the announced number |
| `DescRefs.DevBuf.Configure` | drivers/media/platform/mtk-isp/isp_70/imgsys/mtk_imgsys-dev.c:1586-1664 | the whole fill, in its order; the control metadata keeps no reference |
| `DescRefs.DevBuf.MapHeader` | drivers/media/platform/mtk-isp/isp_70/imgsys/mtk_imgsys-dev.c:1103-1175 | the mapping walk settles every held reference of the header |
| `DescRefs.DevBuf.MapIova` | drivers/media/platform/mtk-isp/isp_70/imgsys/mtk_imgsys-dev.c:1230-1306 | an attempt for exactly the held planes the cache does not list, in walk order; if all succeed every held plane gets a live mapping's address and the table grows by exactly their entries; otherwise the error value may stand for the failed ones; every plane's reference is put or becomes a table entry's |
| `DescRefs.TakesMisses` | drivers/media/platform/mtk-isp/isp_70/imgsys/mtk_imgsys-dev.c:562-650 | lookups in order use up one attempt a miss, and add one entry a miss if all succeed |
| `DescRefs.DevBuf.Unmap` | drivers/media/platform/mtk-isp/isp_70/imgsys/mtk_imgsys-sys.c:374-402 | every table entry is unmapped and put, no other mapping touched |
| `DescRefs.FilledIsWalkable` | drivers/media/platform/mtk-isp/isp_70/imgsys/mtk_imgsys-dev.c:1529-1583 | what filling leaves, the mapping walk passes: no held plane is skipped |
| `DescRefs.Serve` | drivers/media/platform/mtk-isp/isp_70/imgsys/mtk_imgsys-dev.c:1230-1306 | fill, map, unmap leave every reference count as found, whatever cache and descriptor operations come between; in between the extra references are the table's |
| `DescRefs.ServeAll` | drivers/media/platform/mtk-isp/isp_70/imgsys/mtk_imgsys-dev.c:1586-1664 | any number of requests filled, mapped and unmapped in any interleaving with each other and with the cache and descriptor operations: at every moment the extra references are those the requests hold, every running request has live mappings of its own, and when all are over the references found are left |
| `CcdMailbox.NothingLost` | drivers/rpmsg/mtk_ccd_rpmsg_ipi.c:163-200 | with one producer call at a time and one listener, the received events are a prefix of the published ones, at most one outstanding |
| `CcdMailbox.ProducerKeeps` | drivers/rpmsg/mtk_ccd_rpmsg.c:384-408 | each producer step, field copy by field copy, keeps the mailbox invariant |
| `CcdMailbox.ListenerKeeps` | drivers/rpmsg/mtk_ccd_rpmsg_ipi.c:163-196 | each listener step keeps it |
| `CcdMailbox.TwoProducersLose` | drivers/rpmsg/mtk_ccd_rpmsg.c:255-281 | for any number of producers from two on, a run that loses an event |
| `CcdMailbox.LosslessIff` | drivers/rpmsg/mtk_ccd_rpmsg.c:255-281 | every run of `n` producers and the listener is lossless if and only if there is at most one producer |
| `CcdFifo.Endpoint.Drain` | drivers/rpmsg/mtk_ccd_rpmsg.c:121-146 | alone, the drain ends and hands back every message in order |
| `CcdFifo.Conserved` | drivers/rpmsg/mtk_ccd_rpmsg_ipi.c:68-75 | in every run in which no empty list was popped: popped then queued messages are the sent ones, in order, and with the lock free the count is the length |
| `CcdFifo.OneInside` | drivers/rpmsg/mtk_ccd_rpmsg_ipi.c:260-272 | in every run with at most one consumer between its look at the count and its update of it, no pop meets an empty list and there is a message for every consumer waiting |
| `CcdFifo.DestroyClashIff` | drivers/rpmsg/mtk_ccd_rpmsg.c:121-136 | when destruction begins, some continuation of calls and schedule pops an empty list if and only if the reader is past its check of the state with the lock still to take, or pops the only message, or has popped it and not counted it off |
| `CcdFifo.ClashIff` | drivers/rpmsg/mtk_ccd_rpmsg.c:125-136 | the exact condition at any moment after that |
| `CcdFifo.DestroyedSafely` | drivers/rpmsg/mtk_ccd_rpmsg.c:121-146 | in every run with destruction begun otherwise: no empty pop, messages conserved in order, the count right, a bounded number of steps without new calls, and the drain done when nothing can go on |
| `CcdFifo.ShortfallClashes` | drivers/rpmsg/mtk_ccd_rpmsg_ipi.c:260-272 | once more consumers wait than messages are queued or being appended, the run can be continued to a pop from an empty list |
| `CcdFifo.NoLostWakeUp` | drivers/rpmsg/mtk_ccd_rpmsg_ipi.c:238-253 | a reader asleep with a message waiting, or the endpoint being destroyed, is about to be woken |
| `CcdFifo.EmptyPopRun` | drivers/rpmsg/mtk_ccd_rpmsg.c:125-136 | a run from the start, with one message, one reader and the drain, that pops an empty list |
| `CcdFifo.DrainEnds` | drivers/rpmsg/mtk_ccd_rpmsg.c:121-146 | once no call is begun any more, a run of drain, reader and senders has a bounded number of steps left, and one that cannot go on has the drain done |
| `CcdFifo.DrainsIff` | drivers/rpmsg/mtk_ccd_rpmsg.c:121-146 | the drain leaves the queue empty, however the calls begun go on, if and only if no sender can still append after its last look at the count |
| `CcdFifo.SafeDrainsIff` | drivers/rpmsg/mtk_ccd_rpmsg.c:121-146 | if destruction begins so that no pop can meet an empty list, the drain leaves the queue empty, however the calls begun go on, if and only if no sender can still append after its last look |
| `CcdFifo.LeftMessageRun` | drivers/rpmsg/mtk_ccd_rpmsg.c:121-146 | a run from the start in which a sender past its call gets the lock after the drain's last look, and its message is left |
| `CcdFifo.SendWhole` | drivers/rpmsg/mtk_ccd_rpmsg_ipi.c:68-75 | an undisturbed send is the one of `CcdFifo.Endpoint` |
| `CcdFifo.ReadWhole` | drivers/rpmsg/mtk_ccd_rpmsg_ipi.c:266-272 | and so is an undisturbed read |
| `CcdLifetime.RefcountIsHolders` | drivers/rpmsg/mtk_ccd_rpmsg_ipi.c:217-232 | refcount is the first reference until dropped plus the calls holding one; reachable through the idr means alive |
| `CcdLifetime.ReleasedOnceAndLast` | drivers/rpmsg/mtk_ccd_rpmsg.c:22-35 | __ept_release runs at most once, exactly when the first reference is dropped and no call holds one, after idr removal; likewise the device behind it |
| `CcdLifetime.NeverFromZero` | drivers/rpmsg/mtk_ccd_rpmsg_ipi.c:276-279 | no call takes or gives back a reference to something gone |
| `CcdLifetime.CallWhole` | drivers/rpmsg/mtk_ccd_rpmsg_ipi.c:217-279 | an undisturbed call finds the endpoint, holds one reference to it and one to the device, and gives both back |
| `CcdLifetime.DestroyKeeps` | drivers/rpmsg/mtk_ccd_rpmsg.c:148-153 | each destruction step keeps the counts |
| `BufferPool.Pool.Reinit` | drivers/media/platform/mtk-isp/isp_70/imgsys/mtk_imgsys-sys.c:80-107 | 24 free buffers in order, none used |
| `BufferPool.Pool.Alloc` | drivers/media/platform/mtk-isp/isp_70/imgsys/mtk_imgsys-sys.c:316-341 | the first free buffer moves to the used list, or none is returned |
| `BufferPool.Pool.Free` | drivers/media/platform/mtk-isp/isp_70/imgsys/mtk_imgsys-sys.c:293-314 | the buffer moves back to the end of the free list |
| `BufferPool.AllocWhole` | drivers/media/platform/mtk-isp/isp_70/imgsys/mtk_imgsys-sys.c:316-341 | both lock sections of an alloc, undisturbed, are `Pool.Alloc` |
| `BufferPool.FreeWhole` | drivers/media/platform/mtk-isp/isp_70/imgsys/mtk_imgsys-sys.c:293-314 | and those of a free are `Pool.Free` |
| `BufferPool.EachBufferOnce` | drivers/media/platform/mtk-isp/isp_70/imgsys/mtk_imgsys-sys.c:293-341 | across interleaved lock sections every buffer is in exactly one of free, used, in transit; counts are list lengths; used is what requests hold |
| `WorkPool.Pool.Put` | drivers/media/platform/mtk-isp/isp_70/imgsys/mtk_imgsys-sys.c:1318-1329 | gives the work back; as written it would block on its own lock exactly if it dropped the last reference |
| `WorkPool.Pool.Uninit` | drivers/media/platform/mtk-isp/isp_70/imgsys/mtk_imgsys-sys.c:1270-1277 | frees the pool at once if and only if no work is out |
| `WorkPool.Pool.Release` | drivers/media/platform/mtk-isp/isp_70/imgsys/mtk_imgsys-sys.c:1242-1268 | empties both lists and counts them off |
| `WorkPool.PoolConserved` | drivers/media/platform/mtk-isp/isp_70/imgsys/mtk_imgsys-sys.c:1215-1329 | 128 works until release, kref is the used ones plus the pool's own, zero only after uninit with none used; no take meets an empty list |
| `WorkPool.FirstQueuedFirst` | drivers/media/platform/mtk-isp/isp_70/imgsys/mtk_imgsys-worker.c:46-85 | works run in the order they were queued |
| `WorkPool.NeverStuck` | drivers/media/platform/mtk-isp/isp_70/imgsys/mtk_imgsys-sys.c:1318-1329 | no put drops the last reference: the runner, which alone puts, is stopped before uninit |
| `WorkPool.LeftBehind` | drivers/media/platform/mtk-isp/isp_70/imgsys/mtk_imgsys-sys.c:2049-2095 | a work out when the runner stops is out for good, and the pool is never freed |
| `WorkPool.ReleasedIff` | drivers/media/platform/mtk-isp/isp_70/imgsys/mtk_imgsys-sys.c:2075-2095 | uninit frees the pool if and only if no work was out when the runner was stopped and none was taken since; otherwise it is never freed |
| `WorkPool.PinnedRun` | drivers/media/platform/mtk-isp/isp_70/imgsys/mtk_imgsys-sys.c:2075-2095 | a run from the start, with one work queued when the runner is stopped, that leaves the pool allocated |
| `RunnerQueue.Queue.Add` | drivers/media/platform/mtk-isp/isp_70/imgsys/mtk_imgsys-worker.c:166-171 | append, count and peak |
| `RunnerQueue.Queue.TakeNext` | drivers/media/platform/mtk-isp/isp_70/imgsys/mtk_imgsys-worker.c:59-72 | takes the first work unless disabled or empty |
| `RunnerQueue.AddWhole` | drivers/media/platform/mtk-isp/isp_70/imgsys/mtk_imgsys-worker.c:166-171 | an undisturbed add is `Queue.Add` |
| `RunnerQueue.TakeWhole` | drivers/media/platform/mtk-isp/isp_70/imgsys/mtk_imgsys-worker.c:59-72 | an undisturbed take is `Queue.TakeNext` |
| `RunnerQueue.QueueConserved` | drivers/media/platform/mtk-isp/isp_70/imgsys/mtk_imgsys-worker.c:46-85 | works run, in hand and queued are the works added, in order; count and peak exact with the lock free |
| `RunnerQueue.LongestIsGreatest` | drivers/media/platform/mtk-isp/isp_70/imgsys/mtk_imgsys-worker.c:168-170 | the peak is the greatest length the queue ever had |
| `RunnerQueue.DisableStops` | drivers/media/platform/mtk-isp/isp_70/imgsys/mtk_imgsys-worker.c:116-137 | after disable at most the work already taken runs |
| `AdaptorI2c.Bus.WrSeqP8` | drivers/misc/mediatek/imgsensor/src-v4l2/adaptor-i2c.c:288-340 | the chunks, with their wrapped register, are handed over one to a transfer and together are the byte-wise writes of a whole-chunk prefix, all of it on success; those whose transfer got a message through are written, which is all of them if and only if no result is 0; every message fits the buffer; it succeeds if and only if its memory is there and no transfer returns an error, with the number of transfers and of values before a failing one exact; a length of 2^31 or more writes nothing and succeeds |
| `AdaptorI2c.Bus.WrP8` | drivers/misc/mediatek/imgsensor/src-v4l2/adaptor-i2c.c:182-230 | every message is for the same register and together they carry the prefix handed over; what is written and when it succeeds as for `WrSeqP8` |
| `AdaptorI2c.Bus.WrP16` | drivers/misc/mediatek/imgsensor/src-v4l2/adaptor-i2c.c:232-286 | the same with big-endian words |
| `AdaptorI2c.Bus.WrRegs` | drivers/misc/mediatek/imgsensor/src-v4l2/adaptor-i2c.c:342-459 | batches equal the in-order single register writes; a failure leaves an exact prefix of messages; it succeeds if and only if every batch got all its messages through |
| `AdaptorI2c.Bus.LayOut` | drivers/misc/mediatek/imgsensor/src-v4l2/adaptor-i2c.c:370-386 | a batch laid out in the 255-byte buffer is the messages of its pairs |
| `AdaptorI2c.RegOnTheWire` | drivers/misc/mediatek/imgsensor/src-v4l2/adaptor-i2c.c:370-434 | the bytes of a register message: address high byte first, then the value's two bytes high byte first, or its low byte |
| `AdaptorI2c.SeqOnTheWire` | drivers/misc/mediatek/imgsensor/src-v4l2/adaptor-i2c.c:303-334 | the bytes of message `k` of a sequential write: the address 253 `k` on, modulo 2^16, and the next up to 253 values |
| `AdaptorI2c.WordsOnTheWire` | drivers/misc/mediatek/imgsensor/src-v4l2/adaptor-i2c.c:262-268 | words go high byte first |
| `AdaptorI2c.Bus.RdP8` | drivers/misc/mediatek/imgsensor/src-v4l2/adaptor-i2c.c:87-133 | byte by byte what the caller's buffer holds, also where a transfer stopped after its address message; it returns the last transfer's result if none returned an error, and otherwise the error after exactly the chunks before; with nothing to read, an uninitialised value |
| `AdaptorI2c.StaleRead` | drivers/misc/mediatek/imgsensor/src-v4l2/adaptor-i2c.c:107-132 | on a bus that never gets a read through, a read of any length reports success and leaves the caller's bytes |
| `AdaptorI2c.SeriesIff` | drivers/misc/mediatek/imgsensor/src-v4l2/adaptor-i2c.c:200-229 | whether a series of transfers succeeds is decided by the results the bus would give |
| `AdaptorI2c.GotAll` | drivers/misc/mediatek/imgsensor/src-v4l2/adaptor-i2c.c:207-221 | all the messages handed over get through if and only if every transfer's result is at least 1 |
| `AdaptorI2c.Bus.WriteThenRead` | drivers/misc/mediatek/imgsensor/src-v4l2/adaptor-i2c.c:87-133 | what was written is read back, up to 65536 bytes, if both calls succeed and every message gets through |
| `AdaptorI2c.WriteConcat` | drivers/misc/mediatek/imgsensor/src-v4l2/adaptor-i2c.c:288-340 | writing a concatenation continues where the first part ended |
| `AdaptorI2c.ReadBack` | drivers/misc/mediatek/imgsensor/src-v4l2/adaptor-i2c.c:288-340 | sequential writes are read back wherever not overwritten 65536 later |
| `AdaptorI2c.Untouched` | drivers/misc/mediatek/imgsensor/src-v4l2/adaptor-i2c.c:288-340 | a register no value lands in keeps its own |
| `Dvfs.Info.LocalLoads` | drivers/media/platform/mtk-isp/isp_70/imgsys/mtk_imgsys-cmdq.c:1665-1673 | the load of a request on each group |
| `Dvfs.OneEngine` | drivers/media/platform/mtk-isp/isp_70/imgsys/mtk_imgsys-cmdq.c:1665-1673 | which group each engine loads |
| `Dvfs.Info.Set` | drivers/media/platform/mtk-isp/isp_70/imgsys/mtk_imgsys-cmdq.c:1685-1712 | adding a request keeps loads and counters those of the active requests, and the frequency it leaves in every case |
| `Dvfs.Info.Unset` | drivers/media/platform/mtk-isp/isp_70/imgsys/mtk_imgsys-cmdq.c:1713-1748 | removing any active request likewise |
| `Dvfs.Info.Play` | drivers/media/platform/mtk-isp/isp_70/imgsys/mtk_imgsys-cmdq.c:1665-1748 | over any run of paired calls: loads and counters are those of the active requests, and the frequency is at least the VSS floor or what the last call leaves |
| `Dvfs.FreqOkIff` | drivers/media/platform/mtk-isp/isp_70/imgsys/mtk_imgsys-cmdq.c:1695-1747 | it is right -- the greatest load, or at least the floor under VSS -- if and only if a VSS request is active or the last call was neither an SMVR call with the load below its floor nor a plain call, beside an active SMVR request, with a load |
| `Dvfs.PlainBesideSmvr` | drivers/media/platform/mtk-isp/isp_70/imgsys/mtk_imgsys-cmdq.c:1695-1705 | a plain request set beside an SMVR one leaves frequency zero |
| `Dvfs.StopTheClock` | drivers/media/platform/mtk-isp/isp_70/imgsys/mtk_imgsys-cmdq.c:1685-1705 | two calls after which 30000 pixels a second are to be processed at frequency zero |
| `Dvfs.PlainIsRight` | drivers/media/platform/mtk-isp/isp_70/imgsys/mtk_imgsys-cmdq.c:1695-1747 | without SMVR requests, always |
| `Dvfs.FloorStays` | drivers/media/platform/mtk-isp/isp_70/imgsys/mtk_imgsys-cmdq.c:1722-1732 | an SMVR request set and unset leaves its floor with nothing active |
| `Dvfs.ExactLoads` | drivers/media/platform/mtk-isp/isp_70/imgsys/mtk_imgsys-cmdq.c:1686-1692 | loads are exact while they stay below 2^64 |
| `Dvfs.GreatestIsMax` | drivers/media/platform/mtk-isp/isp_70/imgsys/mtk_imgsys-cmdq.c:1690-1692 | the running maximum is an upper bound that is attained |
| `Dvfs.PickLevel` | drivers/media/platform/mtk-isp/isp_70/imgsys/mtk_imgsys-cmdq.c:1353-1360 | the least sufficient level, else the top |
| `CcdMem.Memory.GetBuffer` | drivers/remoteproc/mtk_ccd_mem.c:407-455 | inserts into the map from address to size, or fails for a stated reason changing nothing |
| `CcdMem.Memory.PutBuffer` | drivers/remoteproc/mtk_ccd_mem.c:458-506 | deletes exactly that address, if and only if it is there with that size |
| `CcdMem.RemoveSlot` | drivers/remoteproc/mtk_ccd_mem.c:482-493 | moving the last entry into the hole keeps the table the map without the removed address |
| `CcdMem.Memory.GetDmabuf` | drivers/remoteproc/mtk_ccd_mem.c:343-368 | an export takes a reference |
| `CcdMem.Memory.ReleaseDmabuf` | drivers/remoteproc/mtk_ccd_mem.c:285-288 | its release drops it |
| `CcdMem.Memory.VmOpen` | drivers/remoteproc/mtk_ccd_mem.c:56-65 | a mapping takes a reference |
| `CcdMem.Memory.VmClose` | drivers/remoteproc/mtk_ccd_mem.c:67-76 | and its close drops it |
| `CcdMem.Memory.FreedOnceAndLast` | drivers/remoteproc/mtk_ccd_mem.c:101-114 | memory is given back at most once, exactly when table, exports and mappings are gone; at most 128 entries |
| `CameraFormat.PixFormat.Find` | drivers/media/platform/mtk-camera/mtk_camera_drv.c:342-364 | the first entry with the code; the table's length if there is none |
| `CameraFormat.PixFormat.FindSize` | drivers/media/platform/mtk-camera/mtk_camera_drv.c:366-377 | whether the size is listed |
| `CameraFormat.PixFormat.TryFmt` | drivers/media/platform/mtk-camera/mtk_camera_drv.c:379-477 | the whole in-place rewrite is the function `Tried` |
| `CameraFormat.TryIsIdempotent` | drivers/media/platform/mtk-camera/mtk_camera_drv.c:379-477 | trying the result again changes nothing |
| `CameraFormat.ResultIsListed` | drivers/media/platform/mtk-camera/mtk_camera_drv.c:391-416 | the result names a listed format at a listed size |
| `CameraFormat.ListedIsKept` | drivers/media/platform/mtk-camera/mtk_camera_drv.c:380-477 | a listed code and a listed size are kept; others become the first of the table, of the entry; the entry is the first with its code; every field userspace does not choose is reset |
| `CameraFormat.JpegPlanes` | drivers/media/platform/mtk-camera/mtk_camera_drv.c:443-452 | a JPEG keeps the size asked for, rounded up to a multiple of 128, or takes the default where that is 0; the other planes stay |
| `CameraFormat.NothingWraps` | drivers/media/platform/mtk-camera/mtk_camera_drv.c:424-461 | no 32-bit product wraps, with the alignment |

## Left out

- Probe and remove, device tree, V4L2 and media registration, ioctl dispatch, sysfs, tracing, timestamps, log text: plumbing without an invariant.
- Hardware and kernel libraries (cmdq mailbox, HCP, idr, dma-buf core, vb2, regulators): present only as the effect a property needs.
- The alternative builds (batch mode V3, CM4, secure engine, cmdq time stamps, kernel ION buffers).
- GceSend.Sender: the commands of a frame are those found at its offset; that the original takes their number from `curr_length` unchecked against the size of the software buffer is not modelled; the size of a packet in bytes is a function parameter, constrained only where `GceErrors.Measure` is required, because the encoding of instructions belongs to the cmdq library.
- GceCommands.Emit: READ results are numbered per packet; the address arithmetic around the time-stamp buffer is not modelled.
- GceCommands.Recorder: of the event history only the `st` counters, not the who-and-when records beside them.
- GceMeaning.SendMeans: the machine runs one packet after the other, a poll or wait that is not met ends the run, and what the instructions do is stated from their names, the cmdq library not being part of this model; packets on different GCE threads also run side by side.
- GceCompletion.WholeSendCompletes: each GCE thread completes its own packets in the order they were flushed, as the cmdq mailbox does; without any order, `GceCompletion.CompletionIff` is what holds.
- GceCompletion: time-outs and errors reported by the GCE count as completions, as in the code; the DVFS calls made with the last callback are in `Dvfs`.
- GceErrors.SearchFindsOwner: offsets above 2^64 - 8 are excluded, since an instruction cannot start there.
- ReqNotify.NotifiedAtTheExpectedCallback: grouped requests on a streaming pipe, with distinct descriptors in flight and no callback of a finished request once its descriptor is in use again; ungrouped ones, which are also notified by their last-frame flag, stream-off with requests in flight, and a failed record allocation (which returns with the list mutex held) are not modelled.
- IovaCache.Pipe: each ioctl, lookup or purge is one step; the window in which del_iova has put a buffer and not yet unlinked its entry is not modelled, nor are the descriptor tables sent to the firmware.
- DescRefs.ServeAll: each phase of a request is one step.
- DescRefs.DevBuf: the descriptor is not rewritten by userspace between filling and mapping, and a buffer node is filled again only after it was unmapped; the copy of the mapped descriptor into the frame parameters is not modelled. The copies a walk makes of a header stand for its writes in place.
- DescRefs.DevBuf.GetIova: the address is good at return; a later del_iova may unmap a cached one, which the request then holds no reference to.
- CcdMailbox.NothingLost: one listener.
- CcdFifo.Conserved: one reader per endpoint; what the original does after popping an empty list is undefined and not followed further.
- CcdLifetime: one destruction per endpoint; `ccd_master_destroy` and `ccd_msgdev_cb`, which reach endpoints by other ways, are not modelled.
- BufferPool.Pool.Alloc: the two lock sections are one step in the method and two in the interleavings; the reinitialisation at stream start happens with no request in flight.
- WorkPool: one getter at a time, and none once the pool is uninitialised; the runner thread finishes the work in hand before it stops.
- RunnerQueue: enabling again after a disable, and the refusal of adds once the disable has dropped the thread, are not modelled; works added after the flag is set are accepted and never run.
- AdaptorI2c.Bus: a failed transfer leaves no partial message on the device; `adaptor_i2c_wr_regs_u8` and `_u16`, which differ in width only, are one method.
- AdaptorI2c: the register address of `adaptor_i2c_rd_p8` is not followed past 2^31.
- Dvfs: the accounting is modelled from its text, the build switch being off; QoS bandwidth is not modelled.
- CcdMem.Memory.GetBuffer: the allocators return an object and an address not in use by a buffer still alive.
- CameraFormat.TryIsIdempotent: for tables whose sizes lie between 2 and 8192 and whose depths are at most 32.
- The composer semaphore, working-buffer accounting of failed sends, sensor controls and power sequences: no balance to state, or one-branch forwarding.
