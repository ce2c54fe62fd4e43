# Verified core of the Flinstone kernel

A Dafny model of the parts of Flinstone whose correctness is not visible from one function body:
the in-place data structures (priority queue, heaps, frame bitmap, ring buffers, claim table), the
protocols that run over many steps (close and drain, thread pool, system calls, driver binding), the
emulated CPU with its run loop and checkpoints, and the text disk. `dafny verify dfyconfig.toml`
checks everything.

The layout follows the program. For each structure there is a specification on plain values
(`QueueSpec`, `HeapSpec`, `ArenaSpec`, `FrameSpec`, `DriverSpec`, `SyscallSpec`, `DiskText`), the
theorems about it, and a class that works as the source does, on arrays, words in memory, or fields
changed in place. Each method of such a class is proved to have exactly the specified effect on the abstract
value, which the class keeps as a ghost view or computes from its fields. Protocols are state
machines over the steps of all threads, and the theorems quantify over every run.

| file | models |
|---|---|
| `QueueSpec`, `QueueFifo`, `PriorityQueue` | `kernel/core/sched/priority_queue.c`: four FIFO layers with generation-tagged handles, and the link arrays, free stack and bitmap that hold them |
| `ScanQueue`, `QueueRefinement` | `src/priority_queue.c` and the proof that the linked queue refines it |
| `ThreadPool` | `kernel/core/sched/threadpool.c` as a state machine over submitters and workers |
| `AsmHeap` | `malloc_nolock` and `free` of the x86-64 assembly heap |
| `DomainArena` | the bare-metal arenas of `kernel/core/mm/mem_domain.c`, byte for byte |
| `Pmm` | the frame bitmap of `kernel/core/mm/pmm.c` |
| `IpcProtocol`, `IpcRings` | `kernel/core/sys/ipc.c`: close and drain, and the data paths |
| `Syscalls` | `kernel/core/sys/syscall.c` and `kernel/core/sys/vrt.c` |
| `DriverModel` | claims, binding and teardown of `kernel/drivers/driver_model.c` |
| `VmDecode`, `VmMachine`, `VmLaws`, `VmReplay`, `VmRun`, `VmLoop` | decoder, interpreter and the laws of its instructions, checkpoints, replay and run loop under `VM/devices` |
| `DiskText` | `kernel/core/vfs/disk.c` and the host part of `disk_asm.c` |

Inputs the program does not control are parameters: what `brk` answers, the addresses an
allocator returns, the answers of drivers and emulated devices, whether a file can be opened or renamed and how much of it
can be stored. Where such an answer is a family of values it is a record of functions (`Oracle`), and every theorem holds for all of them.

## Where the code falls short of its promise

Each of these is a theorem, and each comes with the exact condition under which the code is right.

- Handles carry sixteen bits of the push number. When the top one is set the handle is negative and refused although its
  task is queued, and after 65536 pushes a stale handle can be accepted for another task in the same slot
  (`QueueSpec.HandleAcceptedIff` and `StaleAcceptedIff` are the equivalences, `StaleHandleAcceptedAgain` the run).
- The scan queue orders tasks by an unsigned counter. Across its wrap it pops a younger task before an older one of the
  same priority (`QueueRefinement.WrapPopsYounger`); a pop takes the task that the linked queue takes if and only if the
  oldest task of the first non-empty layer has the lowest number there (`PopAgreesIff`).
- `malloc` rounds the last fifteen sizes below 2^64 to nothing, and does not notice that the break it asks for wraps. A
  wrapped break is never above the old one, so the comparison passes even when the kernel refuses, and a block beyond the
  break is handed out (`HeapSpec.RefusedAndHandedOut`). `HeapSpec.MallocGoodIff` gives the exact condition for every
  answer of the kernel, and `BrkGoodIff` that of a caller: up to the largest size, a free block fits or the new break lies
  below 2^64.
- The alignment mask of the arenas is an `unsigned int`, so the space of a request above 2^32 - 16 bytes is cut to its
  low half: 2^32 bytes are granted in a chunk of 8 (`ArenaSpec.FourGigabytesAreGranted`). `ArenaSpec.AllocSoundIff`: a
  request keeps the arena sound if and only if it is at most 2^32 - 16 bytes, or its cut space does not fit anyway.
- The destroyer gives the mutex back before it frees, and the `waiters` counter covers only readers that sleep. A reader
  or writer that is on its way to the mutex, or that holds it, uses the object after it was freed
  (`IpcProtocol.LateCallersAreNotProtected` has the four runs). Over every run that happens if and only if such a thread
  exists at the free, or a call starts afterwards (`UseAfterFreeIff`, `RunIsSafeIff`).
- `msgq_create` allocates the product of slot count and slot size modulo 2^64. When it wraps, the queue takes exactly as
  many messages as the allocation has whole slots and stores the next one behind it (`SyscallSpec.OverrunAfterExactly`;
  `WrappedQueueOverruns` is such a run, `RunOverrunsIff` the equivalence for every run). A caller that keeps the product
  below 2^64 is safe (`FittingRunsStayInside`).
- Replay from a checkpoint can differ when a reset is pending at one of the two starts, because the
  reset latch is not part of the checkpoint (`VmRun.ResetLatchBreaksReplay`, with a loaded image of one byte;
  `ReplayIffSameResetLine`). The built-in guest replays from its start in any case (`BootedReplays`).
- The run loop steps over every instruction but `JMP`, also over one that has just set the instruction pointer. A
  conditional jump goes where it should if and only if it is not taken (`VmLaws.ConditionalJumpRightIff`); a handler always
  starts two bytes behind its vector, and `RET` and `IRET` always resume one byte behind the stacked address
  (`InterruptSkips`, `ReturnsSkip`).
- A claimed range that wraps around the address space is not recognised as overlapping
  (`DriverSpec.OverlapsExactIff`: the test is right against every other range if and only if the range does not wrap).
- `pmm_reserve_range` reserves nothing when base plus length wraps (`FrameSpec.ReserveIsExactIff`).
- A disk line of more than 254 characters is not read back as one line (`DiskText.LinesComeBackIff`).
- No result of writing the temporary disk file is looked at, so a short one is renamed over the disk all the same. The
  disk then holds the new text or the old if and only if all of the new text fitted, or the old text is the beginning of
  the new and exactly that much fitted (`DiskText.NewOrOldIff`; `FullFileSystemLosesTheDisk` is the extreme). And
  `disk_asm_write_cluster` reports success whether or not the file was replaced (`DiskFile.Disk.Write`).

The code is followed where its documentation differs: `docs/CONCURRENCY_AUDIT.md` says that workers pop by
priority, while the worker loop takes one task from each layer in turn, and that scan is what `ThreadPool` models.

## Model

| member | source | states |
|---|---|---|
| QueueSpec.PushInv | kernel/core/sched/priority_queue.c:78-92 | every push keeps the slots split into free stack and four duplicate-free lists, with each queued slot tagged by the push that filled it |
| QueueSpec.ReleaseInv | kernel/core/sched/priority_queue.c:94-103 | taking any queued slot out keeps that split |
| QueueSpec.MoveInv | kernel/core/sched/priority_queue.c:128-140 | a change of priority keeps it |
| QueueSpec.FirstLayer | kernel/core/sched/priority_queue.c:105-112 | the lowest-numbered layer that holds a task |
| QueueSpec.Run | kernel/core/sched/priority_queue.c:63-157 | after every run of operations the invariant holds |
| QueueSpec.HandleFields | kernel/core/sched/priority_queue.c:10-20 | slot and generation are recovered from every handle, including negative ones |
| QueueSpec.HandleAcceptedIff | kernel/core/sched/priority_queue.c:10-20 | for any number of pushes, a handle is accepted iff its slot is queued with a function that is not null, the task there has the same 16-bit generation, and that generation is below 0x8000 |
| QueueSpec.HandleNamesItsTask | kernel/core/sched/priority_queue.c:10-20 | up to 65536 pushes that means: its own task is still queued, the function is not null and the push number is below 32768 |
| QueueSpec.StaleAcceptedIff | kernel/core/sched/priority_queue.c:10-20 | a handle is accepted for a task that is not its own iff a later push repeated both slot and generation |
| QueueSpec.StaleHandleAcceptedAgain | kernel/core/sched/priority_queue.c:10-20 | after 65536 tasks have passed through one slot, the handle of the first is accepted for the next one |
| QueueSpec.QueuedAfter | kernel/core/sched/priority_queue.c:78-157 | each operation takes exactly one named task out of the queue, or none |
| QueueSpec.StillQueuedAfterRun | kernel/core/sched/priority_queue.c:78-157 | over a run a task stays queued iff no operation of the run takes it out |
| QueueSpec.StaleHandlesAreRefused | kernel/core/sched/priority_queue.c:78-157 | across any slot reuse a handle is accepted exactly until its task has left, and a refused handle changes nothing |
| QueueSpec.RefusedHandle | kernel/core/sched/priority_queue.c:128-157 | update, remove and set-quantum ignore an invalid handle |
| QueueSpec.PushIssues | kernel/core/sched/priority_queue.c:78-92 | an accepted push returns the handle of its own number and queues its task |
| QueueFifo.PushAppends | kernel/core/sched/priority_queue.c:78-92 | a push appends to its layer unless the queue is full or the priority is out of range |
| QueueFifo.PopTakesOldest | kernel/core/sched/priority_queue.c:94-120 | a pop takes the oldest task of the layer and leaves every other order alone |
| QueueFifo.ReleaseDeletes | kernel/core/sched/priority_queue.c:142-150 | a removal deletes in place |
| QueueFifo.MoveRequeues | kernel/core/sched/priority_queue.c:128-140 | a change of priority deletes in place and appends to the new layer |
| QueueFifo.UpdateRequeues | kernel/core/sched/priority_queue.c:128-140 | on an accepted handle and another priority, exactly the task it names leaves its place and goes to the end of the new layer with everything but its priority kept; every other task keeps its place, and the same priority changes nothing |
| QueueFifo.RemoveDeletes | kernel/core/sched/priority_queue.c:142-150 | on a valid handle, exactly the task it names is deleted and all others keep their order |
| QueueFifo.SetQuantumSets | kernel/core/sched/priority_queue.c:152-157 | on a valid handle, the quantum of the task it names changes, where it stands, and nothing else |
| QueueFifo.HandleValidIff | kernel/core/sched/priority_queue.c:10-20 | a handle is valid iff it is not negative and its low byte and high half are slot and push number, modulo 2^16, of a queued task with a function |
| IntrusiveLists.UnlinkRepresents | kernel/core/sched/priority_queue.c:29-43 | the link stores of unlink turn a representation of four lists into one without the slot |
| IntrusiveLists.AppendRepresents | kernel/core/sched/priority_queue.c:45-56 | the link stores of append turn it into one with the slot at the tail |
| LayerMask.OneBit | kernel/core/sched/priority_queue.c:22-27 | setting or clearing a layer's bit changes that layer's answer alone |
| LayerMask.TrailingZeros | kernel/core/sched/priority_queue.c:105-112 | the lowest set bit of a non-zero mask |
| PriorityQueue.MaskFindsFirst | kernel/core/sched/priority_queue.c:105-112 | the lowest set bit of the bitmap is the first non-empty layer, and the bitmap is zero iff all are empty |
| PriorityQueue.MultiLevelQueue.constructor | kernel/core/sched/priority_queue.c:63-76 | fresh arrays hold the empty queue |
| PriorityQueue.MultiLevelQueue.Init | kernel/core/sched/priority_queue.c:63-76 | re-initialisation in place forgets whatever was queued |
| PriorityQueue.MultiLevelQueue.UnlinkSlot | kernel/core/sched/priority_queue.c:29-43 | links and bitmap then hold the lists without the slot |
| PriorityQueue.MultiLevelQueue.AppendToLayer | kernel/core/sched/priority_queue.c:45-56 | links and bitmap then hold the lists with the slot appended |
| PriorityQueue.MultiLevelQueue.FreeSlot | kernel/core/sched/priority_queue.c:58-61 | the slot is cleared and pushed on the free stack |
| PriorityQueue.MultiLevelQueue.Push | kernel/core/sched/priority_queue.c:78-92 | arrays and result are those of the specified push, refusals included |
| PriorityQueue.MultiLevelQueue.PopLayerHead | kernel/core/sched/priority_queue.c:94-103 | returns and removes the layer's oldest task |
| PriorityQueue.MultiLevelQueue.ReleaseSlot | kernel/core/sched/priority_queue.c:94-103 | unlinking and freeing a queued slot is the specified release |
| PriorityQueue.MultiLevelQueue.Pop | kernel/core/sched/priority_queue.c:105-112 | returns and removes the oldest task of the first non-empty layer, or nothing iff all are empty |
| PriorityQueue.MultiLevelQueue.PopFromLayer | kernel/core/sched/priority_queue.c:114-120 | the same for a given layer, and nothing for one out of range |
| PriorityQueue.MultiLevelQueue.HasTasks | kernel/core/sched/priority_queue.c:122-126 | the bitmap answers whether the layer's list is non-empty |
| PriorityQueue.MultiLevelQueue.IsValidHandle | kernel/core/sched/priority_queue.c:14-20 | the test on the arrays is handle validity |
| PriorityQueue.MultiLevelQueue.Update | kernel/core/sched/priority_queue.c:128-140 | moves the task to the tail of its new layer, or refuses and changes nothing |
| PriorityQueue.MultiLevelQueue.MoveSlot | kernel/core/sched/priority_queue.c:134-139 | unlink and append move the slot to the tail of the other layer |
| PriorityQueue.MultiLevelQueue.Remove | kernel/core/sched/priority_queue.c:142-150 | deletes the task, or refuses and changes nothing |
| PriorityQueue.MultiLevelQueue.SetQuantum | kernel/core/sched/priority_queue.c:152-157 | changes one task's quantum, or nothing |
| PriorityQueue.MultiLevelQueue.CountAll | kernel/core/sched/priority_queue.c:159-165 | the size field is the number of queued tasks |
| PriorityQueue.MultiLevelQueue.CountLayer | kernel/core/sched/priority_queue.c:167-174 | walking the links counts the layer |
| ScanQueue.BestPlace | src/priority_queue.c:30-46 | the place a pop takes: best priority, then earliest sequence number, -1 iff all places are empty |
| ScanQueue.ItemQueue.Count | src/priority_queue.c:48-63 | counts the taken places |
| ScanQueue.ItemQueue.Push | src/priority_queue.c:11-28 | fills the first empty place and counts up, or refuses |
| ScanQueue.ItemQueue.Pop | src/priority_queue.c:30-46 | returns and clears the best place |
| QueueRefinement.PushRelated | kernel/core/sched/priority_queue.c:78-92 | a push on both queues keeps a bijection between slots and places under which the tasks agree |
| QueueRefinement.PopRelated | kernel/core/sched/priority_queue.c:105-112 | so does a pop |
| QueueRefinement.PopAgreesIff | src/priority_queue.c:30-46 | the scan takes the task that the linked queue takes iff that task is ahead, by number and then by place, of every other task of the first non-empty layer |
| QueueRefinement.SameReplies | src/priority_queue.c:11-46 | from related states every sequence of pushes and pops gets the same replies, for as long as each pop finds the lowest number of its layer on the oldest task |
| QueueRefinement.LinkedQueueRefinesScanQueue | src/priority_queue.c:6-46 | fresh queues accept and refuse the same pushes and pop the same tasks in the same order, for as long as the counter does not wrap |
| QueueRefinement.RefinesAcrossTheWrap | src/priority_queue.c:6-46 | across the wrap they do so while every pop finds the lowest number of its layer on the oldest task |
| QueueRefinement.WrapPopsYounger | src/priority_queue.c:11-46 | a run of two pushes and a pop at the last value of the counter, in which the scan queue pops the younger task |
| QueueRefinement.ServeMultiLevel | kernel/core/sched/priority_queue.c:63-112 | running the linked queue on a command sequence produces its specified replies |
| QueueRefinement.ServeScan | src/priority_queue.c:6-46 | running the scan queue produces its specified replies |
| ThreadPool.NextInv | kernel/core/sched/threadpool.c:10-106 | every step of every thread keeps: a job is in one layer, with one worker, finished or not queued; its mutex and done flag agree with that |
| ThreadPool.PoolIsSafe | kernel/core/sched/threadpool.c:43-106 | in every interleaving a command runs at most once, a returning submitter's command has run, a submitter sleeps only while its job is not done, and no worker touches a freed job |
| ThreadPool.FinishedReturns | kernel/core/sched/threadpool.c:43-80 | once its job is finished a submitter is at most three steps from returning, the next of them is always enabled, and no other thread sets it back |
| ThreadPool.WorkerScans | kernel/core/sched/threadpool.c:83-104 | a worker begins at layer 0 when there is work, takes the oldest job of each layer or goes on, and ends the round after the last layer |
| ThreadPool.WorkerServes | kernel/core/sched/threadpool.c:10-17 | with a job in hand a worker runs it once, takes its mutex, marks it done and wakes its submitter, gives the mutex back and goes on one layer up |
| ThreadPool.NoStarvation | kernel/core/sched/threadpool.c:83-104 | a job with k ahead of it in its layer is dispatched once k + 1 rounds begun later are complete, for any arrivals and any number of workers |
| PoolQueue.EnqueueIsPush | kernel/core/sched/threadpool.c:43-61 | the step of the state machine that enqueues a job changes its layers as the push of the multi-level queue does with the job's own priority; the job is in that layer, or, when the push is refused, in none |
| PoolQueue.PopIsPopLayer | kernel/core/sched/threadpool.c:96-99 | its pop step changes the layers as the pop from one layer of the queue does, and the worker gets exactly the job of the task popped |
| PoolQueue.PoolRunsOnTheQueue | kernel/core/sched/threadpool.c:43-104 | along every run of the pool the layers are those of the multi-level queue after the corresponding pushes and pops |
| HeapSpec.BytesConserved | arch/x86_64/gas/alloc/alloc_core.s:86-147 | headers and payloads account for every byte up to the break |
| HeapSpec.LiveDisjoint | arch/x86_64/gas/alloc/alloc_core.s:86-147 | live payloads are 16-aligned, inside the heap and disjoint |
| HeapSpec.MallocCorrect | arch/x86_64/gas/alloc/alloc_core.s:86-147 | one new live block large enough, all others unchanged; null iff size zero or nothing fits and the kernel answers with less than was asked for; growth only when nothing fits, up to heap_end |
| HeapSpec.MallocTakesFirstFit | arch/x86_64/gas/alloc/alloc_core.s:86-147 | the block comes from the first entry of the free list that fits; it is cut in two iff a header and 16 bytes are left over, the rest then heads the list; no other block or entry changes |
| HeapSpec.MallocGoodIff | arch/x86_64/gas/alloc/alloc_core.s:86-147 | for every answer of the kernel, the blocks tile the heap up to heap_end and the result is null or a live block as large as asked for iff the size is zero or the guard holds |
| HeapSpec.BrkGoodIff | arch/x86_64/gas/alloc/alloc_core.s:131-139 | with brk as the kernel defines it, granting or refusing, that is: a free block fits or the new break lies below 2^64; or, for the last fifteen sizes, nothing is free, the kernel refuses and the request does not wrap |
| HeapSpec.WrappedIsNotAbove | arch/x86_64/gas/alloc/alloc_core.s:131-137 | a break that wraps is never above the old one, so the comparison with a refusing answer passes |
| HeapSpec.RefusedAndHandedOut | arch/x86_64/gas/alloc/alloc_core.s:131-144 | a heap, a size and a refusing kernel for which a pointer beyond the break is returned |
| HeapSpec.TooLargeIsBad | arch/x86_64/gas/alloc/alloc_core.s:86-147 | one of the last fifteen sizes that gets something gets too little, or breaks the heap |
| HeapSpec.WrongBreakIsBad | arch/x86_64/gas/alloc/alloc_core.s:131-139 | when the break has to move, any passing answer but the break asked for, below 2^64, leaves blocks and heap_end apart |
| HeapSpec.FreeCorrect | arch/x86_64/gas/alloc/alloc_free.s:17-68 | exactly the freed block stops being live, the extent stays, a free successor is merged |
| HeapSpec.FreePlaces | arch/x86_64/gas/alloc/alloc_free.s:17-68 | the freed block heads the list, takes in the block after it iff that one is free, and nothing else changes |
| HeapSpec.FreeUndoesSplit | arch/x86_64/gas/alloc/alloc_free.s:17-68 | freeing a block that was cut off gives back the blocks before malloc |
| HeapSpec.FreedIsReused | arch/x86_64/gas/alloc/alloc_free.s:17-68 | the block freed last is the next one handed out, if it is large enough |
| HeapSpec.RunsStaySound | arch/x86_64/gas/alloc/alloc_core.s:56-147 | after every legal run from an empty heap: exact tiling, and aligned, disjoint, contained live payloads |
| HeapWords.WholeTaken | arch/x86_64/gas/alloc/alloc_core.s:120-124 | the stores that hand out a whole block leave words representing it as taken |
| HeapWords.BlockSplit | arch/x86_64/gas/alloc/alloc_core.s:101-118 | the stores of a split leave words representing the two parts and the list |
| HeapWords.Grown | arch/x86_64/gas/alloc/alloc_core.s:131-139 | the store of growth represents one more block |
| HeapWords.FlaggedAndPushed | arch/x86_64/gas/alloc/alloc_free.s:24-30 | flagging and pushing a block represents it as free |
| HeapWords.Joined | arch/x86_64/gas/alloc/alloc_free.s:51-62 | unlinking the successor and widening the header represents the merged block |
| HeapWords.FreeJoined | arch/x86_64/gas/alloc/alloc_free.s:24-62 | both halves of free together represent the specified heap |
| HeapWords.ClientStoreIsHarmless | arch/x86_64/gas/alloc/alloc_core.s:1-5 | an aligned store of a word into a live payload disturbs neither headers nor free list |
| HeapWords.UnlinkChain | arch/x86_64/gas/alloc/alloc_core.s:67-76 | redirecting the link before an entry, or the head, leaves a chain of exactly the other entries |
| HeapWords.PushChain | arch/x86_64/gas/alloc/alloc_core.s:79-83 | storing the head in the link of a block makes a chain with that block in front |
| AsmHeap.Allocator.UnlinkFree | arch/x86_64/gas/alloc/alloc_core.s:67-76 | the links in memory then hold the list without the entry, and every header still holds its word |
| AsmHeap.Allocator.FindFit | arch/x86_64/gas/alloc/alloc_core.s:94-129 | walking the links stops at the first block that fits |
| AsmHeap.Allocator.MallocNolock | arch/x86_64/gas/alloc/alloc_core.s:86-147 | memory words, break and result are those of the specified malloc, for every request and answer that `HeapSpec.MallocGoodIff` does not exclude |
| AsmHeap.Allocator.GrowTo | arch/x86_64/gas/alloc/alloc_core.s:138-144 | the header stored at the old break represents one more block, up to the new one |
| AsmHeap.Allocator.ServeFrom | arch/x86_64/gas/alloc/alloc_core.s:101-124 | splits when header and 16 bytes remain, otherwise hands out the whole block |
| AsmHeap.Allocator.Free | arch/x86_64/gas/alloc/alloc_free.s:17-68 | memory words are those of the specified free; null is ignored |
| AsmHeap.Allocator.FindEntry | arch/x86_64/gas/alloc/alloc_free.s:41-50 | finds the successor's list entry and the one before it |
| AsmHeap.Allocator.JoinWithNext | arch/x86_64/gas/alloc/alloc_free.s:31-62 | completes the specified free, merging iff the next block is free |
| HeapWords.JoinStored | arch/x86_64/gas/alloc/alloc_free.s:51-62 | the header computed from the two headers read after the unlinking represents the merged block |
| AsmHeap.Allocator.constructor | arch/x86_64/gas/alloc/alloc_core.s:56-64 | a heap that has not grown, at the break |
| ArenaSpec.NeedCoversRequest | kernel/core/mm/mem_domain.c:68-76 | the space set aside, cut to 32 bits by the mask, covers header and payload iff the request is at most 2^32 - 16 bytes |
| ArenaSpec.ChunksDisjoint | kernel/core/mm/mem_domain.c:73-99 | distinct chunks share no byte, and header, payload and free node of each stay inside it |
| ArenaSpec.AllocCorrect | kernel/core/mm/mem_domain.c:73-99 | fails, changing nothing, iff zero bytes or nothing fits and the arena is exhausted; otherwise one unused chunk recorded with the size asked for, all others unchanged; the arena stays sound iff the guard holds |
| ArenaSpec.AllocTakesFirstFit | kernel/core/mm/mem_domain.c:79-90 | the first node of the free list with a sufficient recorded size is taken whole and leaves the list |
| ArenaSpec.AllocCarves | kernel/core/mm/mem_domain.c:91-97 | with nothing to reuse, a chunk of header and payload rounded up to 8 is carved at bump iff it fits |
| ArenaSpec.AllocSoundIff | kernel/core/mm/mem_domain.c:68-99 | a request keeps the arena sound iff it is at most 2^32 - 16 bytes, or the sum of bump and the cut space, modulo 2^64, exceeds the capacity |
| ArenaSpec.FourGigabytesAreGranted | kernel/core/mm/mem_domain.c:68-99 | every arena of at least 8 bytes grants 2^32 bytes in a chunk of 8 and is then unsound |
| ArenaSpec.FreeCorrect | kernel/core/mm/mem_domain.c:119-138 | only the freed chunk changes, and heads the free list |
| ArenaSpec.AllocUndoesFree | kernel/core/mm/mem_domain.c:73-138 | asking for as much as was freed last restores the arena exactly |
| ArenaSpec.RunsStaySound | kernel/core/mm/mem_domain.c:73-164 | after any legal run chunks are disjoint, aligned, inside [0, bump), with recorded sizes inside their extents |
| ArenaWords.ReuseWords | kernel/core/mm/mem_domain.c:79-88 | unlinking a node and rewriting its header represents the reused chunk and keeps every live byte |
| ArenaWords.CarveWords | kernel/core/mm/mem_domain.c:91-97 | a bump allocation represents one more chunk and keeps every live byte |
| ArenaWords.FreeWords | kernel/core/mm/mem_domain.c:132-137 | overlaying the free node on header and payload represents the freed chunk and keeps every live byte |
| ArenaWords.PayloadIsTheOwners | kernel/core/mm/mem_domain.c:73-138 | whatever an owner writes to its payload, allocator data and other chunks are untouched |
| DomainArena.ArenaAllocator.FindFit | kernel/core/mm/mem_domain.c:79-90 | the walk stops at the first node that fits |
| DomainArena.ArenaAllocator.TakeNode | kernel/core/mm/mem_domain.c:82-87 | the found node becomes the caller's chunk and every live byte is kept |
| DomainArena.ArenaAllocator.UnlinkNode | kernel/core/mm/mem_domain.c:83 | the pointer before the node, or the head, skips it |
| DomainArena.ArenaAllocator.AllocNolock | kernel/core/mm/mem_domain.c:73-99 | for every size, result and recorded chunks are those of the specified allocation; within the guard the arena bytes represent it and live bytes are kept; outside, the header is stored at the old bump, out of the arena iff it does not fit there |
| DomainArena.ArenaAllocator.BumpBy | kernel/core/mm/mem_domain.c:91-97 | the same for the bump allocation |
| DomainArena.ArenaAllocator.FreeNolock | kernel/core/mm/mem_domain.c:119-138 | arena bytes are those of the specified free; the panic is taken iff the pointer is foreign |
| DomainArena.ArenaAllocator.Realloc | kernel/core/mm/mem_domain.c:140-157 | the new chunk differs from the old and holds its first min(old, new) bytes; all other live bytes are kept |
| DomainArena.ArenaAllocator.Resize | kernel/core/mm/mem_domain.c:144-156 | allocate, copy without overlap, give back; on failure nothing changes |
| DomainArena.ArenaAllocator.MoveInto | kernel/core/mm/mem_domain.c:152-155 | the bytes move to the new chunk, the old one becomes free, and no other live chunk changes |
| DomainArena.ArenaAllocator.Calloc | kernel/core/mm/mem_domain.c:109-116 | refuses a wrapping product, otherwise hands out zeroed bytes and keeps the others; stores outside the arena iff the product is outside the guard and the zeroed bytes do not fit behind the old bump |
| DomainArena.ArenaAllocator.ZeroedAlloc | kernel/core/mm/mem_domain.c:112-115 | the same after the test of the product |
| DomainArena.ArenaAllocator.CopyBytes | kernel/core/mm/mem_domain.c:152-153 | copies between places that do not overlap and changes nothing else |
| DomainArena.ArenaAllocator.ZeroBytes | kernel/core/mm/mem_domain.c:114 | zeroes a stretch and changes nothing else |
| IpcProtocol.NextInv | kernel/core/sys/ipc.c:90-178 | every step of readers, writers and destroyer, taking the mutex and giving it back apart, before and after the free, keeps the protocol invariant, for pipes and message queues |
| IpcProtocol.RunInv | kernel/core/sys/ipc.c:90-342 | so does every run |
| IpcProtocol.DrainIsSafe | kernel/core/sys/ipc.c:90-178 | in every interleaving at most one thread holds the mutex, the counter is the number of waiting readers, no reader sleeps while there is something to read or the object is closing, the object is freed only at zero, the destroyer never sleeps at zero, and nothing is lost or duplicated |
| IpcProtocol.WriteStores | kernel/core/sys/ipc.c:112-139 | a write stores what there is room for, or nothing when the object is closing, behind what is there, gives the mutex back, and wakes every sleeping reader iff it stored anything |
| IpcProtocol.EnterReads | kernel/core/sys/ipc.c:141-178 | a read takes the oldest items, as many as it asks for and there are; on an empty buffer it sleeps iff nothing is closing and it may wait, and a receiver on a closing queue takes nothing |
| IpcProtocol.ResumeReads | kernel/core/sys/ipc.c:152-178 | so does a reader that was woken, which leaves the counter unless it sleeps again and wakes the destroyer |
| IpcProtocol.DestroyerWaits | kernel/core/sys/ipc.c:90-110 | closing wakes every sleeper and loses nothing, and the destroyer sleeps iff there are waiters |
| IpcProtocol.NobodyParksWhileClosing | kernel/core/sys/ipc.c:141-163 | once closing is set no step puts a reader to sleep and the counter only falls |
| IpcProtocol.ShutdownAdvances | kernel/core/sys/ipc.c:90-110 | until the free, the owner of the mutex can give it back, and when nobody has it a waiting reader or the destroyer can go on |
| IpcProtocol.DrainTakesOneStepPerWaiter | kernel/core/sys/ipc.c:90-110 | the free comes after exactly as many resumptions as there were waiters |
| IpcProtocol.LateCallersAreNotProtected | kernel/core/sys/ipc.c:90-178 | four runs in which the freed object is used: by a reader or a writer, that takes the mutex after the free or holds it during the free |
| IpcProtocol.HazardMeans | kernel/core/sys/ipc.c:90-178 | the object is at risk exactly when it has been used after the free or one step of some thread does so |
| IpcProtocol.UseAfterFreeIff | kernel/core/sys/ipc.c:90-178 | over every run, the freed object is used or about to be iff at the free some reader or writer was in a call, on its way to the mutex or holding it, or a call started afterwards |
| IpcProtocol.RunIsSafeIff | kernel/core/sys/ipc.c:90-342 | the same from the creation of a pipe or message queue, for any number of readers and writers |
| PipeRing.Pipe.constructor | kernel/core/sys/ipc.c:68-88 | an empty ring of the given size |
| PipeRing.Pipe.Write | kernel/core/sys/ipc.c:112-139 | accepts the leading bytes that fit; read bytes plus buffered bytes stay all bytes accepted |
| PipeRing.Pipe.PutByte | kernel/core/sys/ipc.c:127-131 | storing at the tail appends one byte, with tail = (head + len) mod cap |
| PipeRing.Pipe.Read | kernel/core/sys/ipc.c:164-178 | returns the oldest bytes; the same conservation |
| PipeRing.Pipe.LoadBytes | kernel/core/sys/ipc.c:164-170 | what the loop takes and what it leaves together are what was buffered |
| PipeRing.Pipe.GetByte | kernel/core/sys/ipc.c:166-170 | taking from the head removes the front byte |
| MessageRing.InsideIff | kernel/core/sys/ipc.c:180-190 | a slot lies inside the allocation iff the product of slot count and size does not wrap or the slot is one of the first whole ones, which are then fewer than the slots |
| MessageRing.QueuedPut | kernel/core/sys/ipc.c:267-272 | rewriting the slot at the tail alone appends one message |
| MessageRing.QueuedGet | kernel/core/sys/ipc.c:329-333 | moving the head on takes the oldest message away and leaves the others in order |
| MessageRing.MessageQueue.Send | kernel/core/sys/ipc.c:243-280 | queues the message zero-padded to its slot, or refuses; reports a store outside the allocation iff the message is acceptable and the slot does not lie inside |
| MessageRing.MessageQueue.FillSlot | kernel/core/sys/ipc.c:267-270 | zeroing and copying rewrite that slot alone |
| MessageRing.MessageQueue.Receive | kernel/core/sys/ipc.c:322-342 | takes the oldest message, cut to the receiver's size, in send order |
| MessageRing.MessageQueue.CopyOut | kernel/core/sys/ipc.c:329-331 | the bytes copied out are the first of the oldest message |
| MessageRing.MessageQueue.constructor | kernel/core/sys/ipc.c:180-219 | an empty ring of slots over the product of the sizes modulo 2^64 |
| SyscallSpec.StepInv | kernel/core/sys/syscall.c:15-99 | every call keeps live handles and live resources one to one with the right type and within capacity, destroys no resource twice, and never reaches a destroyed or wrongly typed one; a store outside a wrapped allocation is the separate reply `Overrun` |
| SyscallSpec.CreateInv | kernel/core/sys/syscall.c:32-41 | creating keeps that, also when the table is full and the resource is destroyed again |
| SyscallSpec.PipeIsCreated | kernel/core/sys/syscall.c:31-41 | a pipe is created iff its size is not zero and there are memory and a free handle; the lowest free handle then names an empty pipe of that capacity, and otherwise table and resources stay as they are |
| SyscallSpec.QueueIsCreated | kernel/core/sys/syscall.c:56-67 | the same for a queue with its slot count and slot size |
| SyscallSpec.CloseInv | kernel/core/sys/syscall.c:80-93 | so does closing a live handle |
| SyscallSpec.RunInv | kernel/core/sys/syscall.c:15-99 | so does every run |
| SyscallSpec.FromBoot | kernel/core/sys/syscall.c:7-99 | after bootstrap no call of any run reaches a destroyed or wrongly typed resource |
| SyscallSpec.CloseFrees | kernel/core/sys/syscall.c:80-93 | closing destroys exactly the handle's resource and frees the handle |
| SyscallSpec.ClosedUntilReissued | kernel/core/sys/vrt.c:36-47 | after any run that does not reissue it, a closed handle refuses every call and nothing changes |
| SyscallSpec.OthersLeaveIt | kernel/core/sys/syscall.c:15-99 | a call on another handle changes neither where a handle points nor what is there |
| SyscallSpec.ClosedHandleRefuses | kernel/core/sys/vrt.c:41-46 | a call on a closed handle is refused and changes nothing, and only a create that returns it brings it back |
| SyscallSpec.PipeConserves | kernel/core/sys/syscall.c:42-55 | over any run without an overrun, bytes written through a handle are the bytes read through it followed by those left |
| SyscallSpec.PipeReplies | kernel/core/sys/syscall.c:42-55 | a write takes as many bytes as there is room for and replies their number, a read replies as many from the front as it asked for or all there are, and calls for queues are refused |
| SyscallSpec.PipeFromCreation | kernel/core/sys/syscall.c:31-55 | from creation on, what was read is the beginning of what was written, short by at most the size asked for |
| SyscallSpec.MsgqStep | kernel/core/sys/syscall.c:68-79 | a receive returns the oldest message cut to the size asked for, and a send appends one padded slot |
| SyscallSpec.MsgqConserves | kernel/core/sys/syscall.c:56-79 | over any run without an overrun, messages leave in the order sent, none lost and none twice, whatever happens on other handles |
| SyscallSpec.QueueReplies | kernel/core/sys/syscall.c:68-79 | a message is stored iff it fits a slot and one is free, a receive replies the oldest up to the size asked for, and calls for pipes are refused |
| SyscallSpec.QueueFromCreation | kernel/core/sys/syscall.c:56-79 | from creation on, the messages received are the first of those sent, short by at most the slots asked for |
| SyscallSpec.SendThenReceive | kernel/core/sys/ipc.c:243-342 | a message sent to an empty queue comes back whole with zeros up to the slot size, and the queue is empty again |
| SyscallSpec.OverrunIff | kernel/core/sys/ipc.c:243-280 | a send stores outside the allocation iff it is acceptable, the byte count of its queue wraps and the tail has reached the last whole slot |
| SyscallSpec.StepOverrunIff | kernel/core/sys/syscall.c:15-99 | no other call of any kind does |
| SyscallSpec.RunOverrunsIff | kernel/core/sys/syscall.c:15-99 | over every run, a store leaves its allocation iff some queue is sent to past it |
| SyscallSpec.FittingRunsStayInside | kernel/core/sys/syscall.c:56-79 | no run overruns in which every queue is created with a product below 2^64 |
| SyscallSpec.OverrunAfterExactly | kernel/core/sys/ipc.c:180-280 | a fresh queue with a wrapping product overruns exactly at the acceptable send that follows as many accepted messages as there are whole slots, whatever was received in between |
| SyscallSpec.WrappedQueueOverruns | kernel/core/sys/ipc.c:180-280 | after bootstrap, a queue of 2^61 + 1 slots of 8 bytes overruns at its second message |
| Syscalls.HandleTable.Alloc | kernel/core/sys/vrt.c:20-34 | takes the first free entry, or fails iff there is none |
| Syscalls.Kernel.GetEntry | kernel/core/sys/vrt.c:41-46 | the entry of a live handle |
| Syscalls.Kernel.Enter | kernel/core/sys/syscall.c:32-41 | the in-place create is the specified one |
| Syscalls.UsePipe | kernel/core/sys/ipc.c:112-178 | reading and writing the ring buffer of bytes is reading and writing the specified pipe, replies included |
| Syscalls.UseQueue | kernel/core/sys/ipc.c:243-342 | sending to and receiving from the ring of slots is what the specified queue does, overruns included |
| Syscalls.UseOne | kernel/core/sys/syscall.c:42-79 | a call on one ring buffer leaves every other one holding what it held |
| Syscalls.Kernel.UseHandle | kernel/core/sys/syscall.c:42-79 | reads, writes, sends and receives on the ring buffers behind the handles are the specified ones |
| Syscalls.Kernel.CreatePipe | kernel/core/sys/syscall.c:31-41 | a new ring buffer behind a new handle is the specified create |
| Syscalls.Kernel.CreateQueue | kernel/core/sys/syscall.c:56-67 | the same for a ring of slots |
| Syscalls.Kernel.CloseEntry | kernel/core/sys/syscall.c:80-93 | the in-place close is the specified one |
| Syscalls.Kernel.Dispatch | kernel/core/sys/syscall.c:15-99 | table, ring buffers and reply are those of the specified step; never a fault |
| DriverSpec.OverlapsIffMeet | kernel/drivers/driver_model.c:217-227 | for ranges that do not wrap the test holds iff they share an address or interrupt line |
| DriverSpec.WrappedRangeIsMissed | kernel/drivers/driver_model.c:217-227 | every wrapping range misses some range inside it |
| DriverSpec.OverlapsExactIff | kernel/drivers/driver_model.c:217-227 | the test is right against every range that does not wrap iff the range itself does not |
| DriverSpec.TakenIffFits | kernel/drivers/driver_model.c:229-300 | claiming one by one succeeds iff there is room and nothing overlaps |
| DriverSpec.ReleaseDropsExactly | kernel/drivers/driver_model.c:255-266 | swap-with-last removal drops every claim of the device and keeps the multiset of the others |
| DriverSpec.ReleaseRestores | kernel/drivers/driver_model.c:255-266 | it restores the table, order included, when the device's claims came last |
| DriverSpec.FirstWilling | kernel/drivers/driver_model.c:385-411 | the first driver that matches, probes and attaches |
| DriverSpec.MatchesByBus | kernel/drivers/driver_model.c:124-139 | a driver matches a synthetic or device-tree device iff it names it, a PCI device iff class and subclass agree or are 0 and not both are 0, and nothing else |
| DriverSpec.BindDecides | kernel/drivers/driver_model.c:381-414 | a device is bound iff it was created, its resources fit and some driver is willing; it then comes last, started, with the first willing driver and its own claims appended |
| DriverSpec.BindAllOffersEach | kernel/drivers/driver_model.c:374-416 | init offers every enumerated device in its turn while there is room |
| DriverSpec.BindDeviceInv | kernel/drivers/driver_model.c:381-414 | binding one device keeps the tables sound |
| DriverSpec.BindAllInv | kernel/drivers/driver_model.c:374-416 | so does all of init, for every enumeration and every driver behaviour |
| DriverSpec.Ownership | kernel/drivers/driver_model.c:374-416 | a bound device is started and owns exactly its descriptor's resources, any other owns none |
| DriverSpec.NothingIsShared | kernel/drivers/driver_model.c:229-239 | no address and no interrupt line belongs to two claims |
| DriverSpec.LastDeviceReleased | kernel/drivers/driver_model.c:418-429 | taking the last device down leaves the claims as before it was bound |
| DriverSpec.TeardownReverses | kernel/drivers/driver_model.c:418-429 | every device is destroyed once, in reverse order of binding |
| DriverSpec.DownCalls | kernel/drivers/driver_model.c:420-429 | stop is called first iff the device is started and the driver has it, then detach iff the driver has it, destroy last, and nothing else |
| DriverSpec.TeardownAround | kernel/drivers/driver_model.c:420-429 | the calls for one device lie together, between those for all later and all earlier devices |
| DriverModel.Model.ClaimResource | kernel/drivers/driver_model.c:229-239 | appends the claim iff there is room and no overlap |
| DriverModel.Model.ReleaseAll | kernel/drivers/driver_model.c:255-266 | the in-place loop is the specified removal |
| DriverModel.Model.ClaimDeviceResources | kernel/drivers/driver_model.c:291-300 | succeeds iff all fits, and otherwise leaves only claims of the device behind |
| DriverModel.Model.TryDriver | kernel/drivers/driver_model.c:385-411 | a failed attempt restores both tables exactly |
| DriverModel.Model.Bind | kernel/drivers/driver_model.c:385-411 | the loop over drivers binds to the first willing one iff the resources fit |
| DriverModel.Model.CreateAndBind | kernel/drivers/driver_model.c:382-414 | creating and binding one enumerated device is the specified step |
| DriverModel.Model.Init | kernel/drivers/driver_model.c:374-416 | the tables are those of the specified init and sound; a second call does nothing |
| DriverModel.Model.Shutdown | kernel/drivers/driver_model.c:418-442 | every device is stopped, detached and destroyed in reverse order and all tables end empty |
| DriverModel.Model.TakeDown | kernel/drivers/driver_model.c:420-429 | one device is taken down and its claims are removed exactly |
| VmDecode.DecodeModRM | VM/devices/vm_decode.c:18-57 | the fields reassemble to the byte, and one to six bytes are read |
| VmDecode.Decode | VM/devices/vm_decode.c:59-271 | sixteen bytes suffice, and a decoded instruction is one to five bytes long |
| VmDecode.DecodeInvertsEncode | VM/devices/vm_decode.c:59-271 | every supported instruction, encoded and followed by anything, decodes to itself |
| VmDecode.DecodedIsSupported | VM/devices/vm_decode.c:59-271 | whatever decodes is in the instruction table |
| VmDecode.DecodeIsLocal | VM/devices/vm_decode.c:59-271 | a decoded instruction depends on its own bytes alone |
| VmDecode.DecodeInside | VM/devices/vm_decode.c:16-19 | the 32-bit bounds tests, and the second byte taken as 0 outside, change nothing where sixteen bytes lie inside the memory |
| VmReplay.FetchInside | VM/devices/vm.c:271-275 | a fetch inside RAM decodes the sixteen bytes that are there |
| VmLaws.Directions | VM/devices/vm_decode.c:59-271 | opcodes 01 and 29 work on the r/m register, 03 and 2B on the other one |
| VmLaws.MoveLoads | VM/devices/vm.c:89-92 | MOV sets its register and nothing else |
| VmLaws.AddsAndSubtracts | VM/devices/vm.c:207-224 | ADD and SUB give sum and difference modulo 2^32, set the zero flag iff the result is zero, and change nothing else |
| VmLaws.SubUndoesAdd | VM/devices/vm.c:207-224 | SUB after ADD of the same operand restores the register |
| VmLaws.DecUndoesInc | VM/devices/vm.c:167-180 | INC and DEC undo each other and leave the flags alone |
| VmLaws.JumpGoes | VM/devices/vm.c:110-112 | a jump goes to the next instruction plus its signed displacement |
| VmLaws.CompareDecides | VM/devices/vm.c:181-206 | after CMP exactly one of JZ and JNZ jumps, JZ iff AL is the immediate |
| VmLaws.TestDecides | VM/devices/vm.c:190-198 | TEST sets the zero flag iff AL and the immediate have no common bit |
| VmLaws.ControlComesBack | VM/devices/vm.c:225-234 | what is moved into CR0 or CR3 comes back out and the other is untouched |
| VmLaws.OtherControls | VM/devices/vm.c:225-234 | other control registers ignore writes and read as 0 |
| VmLaws.PushStacks | VM/devices/vm.c:93-100 | PUSH stores the register low byte first below the stack pointer and nothing else; of ESP it stores the new value |
| VmLaws.PopTakes | VM/devices/vm.c:101-109 | POP loads the four bytes at the stack pointer and moves it up |
| VmLaws.PopAfterPush | VM/devices/vm.c:93-109 | POP after PUSH moves the value to the other register and restores the stack pointer |
| VmLaws.ReturnGoes | VM/devices/vm.c:113-121 | RET takes the instruction pointer from the top of the stack |
| VmLaws.InterruptGoes | VM/devices/vm.c:122-141 | INT stacks instruction pointer, segment and flags and goes to the address in its vector |
| VmLaws.InterruptReturns | VM/devices/vm.c:142-158 | IRET takes them back in this order and keeps the high half of the flags |
| VmLaws.ReturnUndoesInterrupt | VM/devices/vm.c:122-158 | IRET after INT restores stack pointer, flags and registers, and segment and instruction pointer up to 2^16; of RAM only the six bytes below the stack pointer differ |
| VmLaws.StoreStringStores | VM/devices/vm.c:159-166 | STOSB stores AL at es:di and moves DI within its sixteen bits |
| VmLaws.InFills | VM/devices/vm.c:72-83 | IN fills AL, or all of EAX, from its port and changes no other register |
| VmLaws.OutSends | VM/devices/vm.c:75-88 | OUT sends AL or EAX to its port; the serial port records the byte |
| VmLaws.HaltStops | VM/devices/vm.c:67-71 | HLT stops the machine for good |
| VmLaws.StepRuns | VM/devices/vm.c:267-281 | without paging, one round decodes and executes the sixteen bytes at the instruction pointer |
| VmLaws.QuantaCompose | VM/devices/vm.c:267-281 | running a and then b instructions is running a + b, and running one is one step |
| VmLaws.ConditionalJumpOvershoots | VM/devices/vm.c:199-206 | a conditional jump that is taken lands two bytes behind where JMP lands |
| VmLaws.ConditionalJumpRightIff | VM/devices/vm.c:267-281 | a conditional jump goes where it should iff it is not taken |
| VmLaws.InterruptSkips | VM/devices/vm.c:267-281 | a handler starts two bytes behind its vector |
| VmLaws.ReturnsSkip | VM/devices/vm.c:267-281 | RET and IRET resume one byte behind the stacked address |
| VmLaws.WalkFinds | VM/devices/vm_cpu.c:24-42 | with present entries for its directory and table digits an address goes to the page they name, offset kept |
| VmLaws.NoWalk | VM/devices/vm_cpu.c:24-42 | without paging, or with an absent directory entry, it stays as it is |
| VmMachine.WriteMem | VM/devices/vm_mem.c:43-48 | writes all bytes or none and nothing outside the range |
| VmMachine.RunStepKeeps | VM/devices/vm.c:267-281 | no instruction changes the clock, the size of RAM or the keyboard queue beyond its head |
| VmReplay.SameTranslate | VM/devices/vm_cpu.c:24-42 | a walk inside RAM does not depend on what lies outside |
| VmReplay.SameExec | VM/devices/vm.c:65-237 | a tame instruction has the same effect on the host whatever the devices hold; what that effect is stands in `VmLaws` |
| VmReplay.SameQuantum | VM/devices/vm.c:267-281 | so does a quantum of tame instructions |
| VmSnapshot.RestoreInvertsSave | VM/devices/vm_snapshot.c:19-59 | a checkpoint brings the host back exactly, whatever happened since |
| VmRun.RoundCounts | VM/devices/vm.c:283-302 | a round halts and counts nothing, or counts one cycle and one tick and saves a checkpoint iff the count is a multiple of 500 |
| VmRun.RoundRuns | VM/devices/vm.c:283-302 | what a round does to the machine, the clock aside, is 64 instructions |
| VmRun.TicksCountCycles | VM/devices/vm.c:360-395 | ticks advance by the cycles run, and the loop ends halted or at the limit, never beyond it |
| VmRun.ShortRunKeepsCheckpoint | VM/devices/vm.c:360-395 | fewer than 500 cycles leave the checkpoint alone |
| VmRun.RunKeepsRamSize | VM/devices/vm.c:360-395 | no run changes the size of guest RAM |
| VmRun.SameRun | VM/devices/vm.c:360-395 | hosts that agree run a tame guest alike |
| VmRun.Replay | VM/devices/vm_snapshot.c:19-59 | save, run fewer than 500 cycles, restore, run again: CPU, RAM, keyboard queue and clock end the same |
| VmRun.GuestIsTame | VM/devices/vm_host.c:10-17 | a guest that prints a text as the built-in one does reads no device and stays inside its RAM, from any of its instructions on |
| VmRun.GuestHalts | VM/devices/vm_host.c:10-17 | and halts after two instructions for each byte left and one more |
| VmRun.GuestPrints | VM/devices/vm_host.c:10-17 | whatever the devices do, it sends the rest of its text to the serial port, in order, and halts |
| VmRun.BootPrints | VM/devices/vm.c:360-395 | a machine just booted, or with a reset pending, prints the greeting and halts with no cycle counted; checkpoint and clock stay as they are |
| VmRun.BootRun | VM/devices/vm_host.c:24-40 | a host that has just booted halts within its first quantum |
| VmRun.ResetLatchBreaksReplay | VM/devices/vm.c:369-375 | a booted host with an image of one byte loaded, which goes on when no reset is pending and halts when one is |
| VmRun.ReplayIffSameResetLine | VM/devices/vm.c:369-375 | all tame guests on machines of the real sizes replay iff the reset line is the same at both starts |
| VmRun.BootedReplays | VM/devices/vm.c:369-375 | the built-in guest replays from its start whatever the reset lines are |
| VmLoop.NextLayer | VM/devices/vm.c:378-391 | serving the head of the next layer is the next step of the round |
| VmLoop.LeftNext | VM/devices/vm.c:378-391 | what is then queued: at most four tasks, and one CPU task after the last layer |
| VmLoop.RunLoop.RunStep | VM/devices/vm.c:267-281 | the instruction loop computes the specified quantum |
| VmLoop.RunLoop.Enqueue | VM/devices/vm.c:385-389 | no push of the loop fails |
| VmLoop.RunLoop.Restart | VM/devices/vm.c:366-367 | the queue holds exactly one CPU task |
| VmLoop.RunLoop.Requeue | VM/devices/vm.c:385-389 | after a quantum one CPU, display and timer task are queued, and a checkpoint task iff the count is a multiple of 500 |
| VmLoop.RunLoop.TakeTask | VM/devices/vm.c:379-380 | takes the oldest task of the layer |
| VmLoop.RunLoop.RunTask | VM/devices/vm.c:283-302 | each task function has its specified effect |
| VmLoop.RunLoop.ServeLayer | VM/devices/vm.c:378-391 | pop, run and requeue for one layer reach the next state of the round |
| VmLoop.RunLoop.ServeRound | VM/devices/vm.c:378-391 | a round computes the specified round and leaves exactly one CPU task, or an empty queue on HLT |
| VmLoop.RunLoop.RunCycles | VM/devices/vm.c:360-395 | terminates for every limit and computes the specified run; the queue is one CPU task at every loop head that is not halted |
| HexText.UnhexInvertsHex | disk_asm.c:106-130 | reading back the digits written for some bytes gives those bytes |
| HexText.LabelNumbers | kernel/core/vfs/disk.c:109-130 | a label is the cluster's number in hexadecimal, with one leading zero below 16 and none above |
| DiskText.LinesComeBackIff | kernel/core/vfs/disk.c:96-108 | the lines of a text are read back as they are iff each fits its buffer with its newline |
| DiskText.ReadIsDecode | disk_asm.c:85-119 | on a well-formed disk a cluster read decodes its own row |
| DiskText.GeometryIs | kernel/core/vfs/disk.c:10-41 | the geometry found in a well-formed disk is its own |
| DiskText.UpdateReplaces | kernel/core/vfs/disk.c:93-166 | a write rewrites the ruler and one row and nothing else |
| DiskText.WriteThenRead | kernel/core/vfs/disk.c:93-166 | the written cluster holds the bytes, every other what it held, and the geometry is unchanged |
| DiskText.WriteFillsUp | kernel/core/vfs/disk.c:93-166 | whatever number of lines the disk has, after a write each cluster holds the bytes written, what its line held, or, without a line, zeros |
| DiskText.WritesThenRead | disk_asm.c:85-133 | after any run of writes that arrive whole, every cluster reads as the last bytes written to it |
| DiskText.NewOrOldIff | kernel/core/vfs/disk.c:150-165 | what is renamed over the disk is the new text or the old iff all of it arrived, or the old text is the beginning of the new and exactly that much arrived |
| DiskText.FullFileSystemLosesTheDisk | kernel/core/vfs/disk.c:150-165 | on a full file system the disk ends empty and no cluster can be read |
| DiskFile.Disk.ReadHeader | kernel/core/vfs/disk.c:10-41 | the scan sets the geometry found, or leaves it when no cluster line is found |
| DiskFile.Disk.LoadLines | kernel/core/vfs/disk.c:94-124 | the lines of the file after the first, then clusters of zeros |
| DiskFile.Disk.ReadLines | kernel/core/vfs/disk.c:96-108 | stores the lines after the first, at most as many as there are clusters |
| DiskFile.Disk.PrintAll | kernel/core/vfs/disk.c:142-156 | the temporary file ends as what fits of ruler and lines, while the disk keeps its text |
| DiskFile.Disk.UpdateClusterLine | kernel/core/vfs/disk.c:93-166 | the file is replaced in one step by what fitted of the specified text, or not at all, and a crash after any file operation leaves the old text or that |
| DiskFile.Disk.Read | disk_asm.c:85-119 | the scan and conversion loops are the specified read |
| DiskFile.Disk.FindLine | disk_asm.c:91-104 | finds the text after the colon of the k-th cluster line |
| DiskFile.Disk.Write | disk_asm.c:122-133 | the same for the write; success is reported for every cluster in range once the digits have found memory |
| DiskFile.Disk.Zero | disk_asm.c:136-145 | writes zeros |
| WordBits.BitsAsNumbers | kernel/core/mm/pmm.c:23-33 | setting a bit adds the shifted one iff it was clear, clearing it takes that away iff it was set |
| WordBits.WithBitHas | kernel/core/mm/pmm.c:23-27 | setting a bit changes that bit alone |
| WordBits.WithoutBitHas | kernel/core/mm/pmm.c:29-33 | clearing a bit changes that bit alone |
| WordBits.PopCountIs | kernel/core/mm/pmm.c:94-108 | halving the word away counts each of its bits once |
| WordBits.TrailingZeros | kernel/core/mm/pmm.c:64-65 | the lowest set bit |
| FrameSpec.MarkedFree | kernel/core/mm/pmm.c:23-33 | setting a bit removes one frame from the free set, clearing one adds it |
| Pmm.FrameMap.Mark | kernel/core/mm/pmm.c:23-27 | takes one frame out of the free set |
| Pmm.FrameMap.Unmark | kernel/core/mm/pmm.c:29-33 | puts one frame into it |
| FrameSpec.WordCount | kernel/core/mm/pmm.c:94-108 | the clear bits of a word are its free frames |
| FrameSpec.ReservesWhatItMeets | kernel/core/mm/pmm.c:37-56 | a range that does not wrap reserves exactly the tracked frames it meets |
| FrameSpec.ReserveIsExactIff | kernel/core/mm/pmm.c:37-56 | the exact condition on base and length for that |
| FrameSpec.WrappedReservesNothing | kernel/core/mm/pmm.c:37-47 | a range that wraps reserves nothing |
| FrameSpec.NotHandedOutTwice | kernel/core/mm/pmm.c:58-92 | over every run a frame is handed out again only if in between an address inside that frame was freed |
| FrameSpec.FrameAtIff | kernel/core/mm/pmm.c:83-92 | the frame of an address is the one whose bytes contain it, and it has none iff it lies outside the tracked region |
| FrameSpec.ReservedStaysOut | kernel/core/mm/pmm.c:37-92 | a reserved frame is not handed out until an address inside it is freed |
| FrameSpec.FreeUndoesAlloc | kernel/core/mm/pmm.c:58-92 | freeing the address just handed out restores the free set |
| Pmm.FrameMap.ReserveRange | kernel/core/mm/pmm.c:37-56 | the marking loop takes exactly the frames of the computed span out of the free set |
| Pmm.FrameMap.AllocFrame | kernel/core/mm/pmm.c:58-81 | returns the address of the lowest free frame and takes it out of the free set, or 0 and no change iff none is free |
| Pmm.FrameMap.FindBit | kernel/core/mm/pmm.c:60-66 | the lowest free frame of a word that has one |
| Pmm.FrameMap.FreeFrame | kernel/core/mm/pmm.c:83-92 | adds exactly the frame that contains the address, and changes nothing when none does |
| Pmm.FrameMap.FreeCount | kernel/core/mm/pmm.c:94-108 | the sum of population counts is the size of the free set |

## Left out

- AsmHeap.Allocator.MallocNolock: requires the guard `Sane`, outside which `HeapSpec.MallocGoodIff` shows the result to be wrong.
- HeapWords.ClientStoreIsHarmless: memory is aligned words, so stores of single bytes are not modelled.
- AsmHeap.Allocator.Free: takes null or a live pointer, as the caller of `free` must.
- DomainArena.ArenaAllocator.Realloc: requires the guard `Safe` of the new size, outside which `ArenaSpec.AllocSoundIff` shows the arena to be unsound before the old chunk is given back.
- DomainArena.ArenaAllocator.Resize: requires the same.
- DomainArena.ArenaAllocator.Calloc: says nothing about memory after a store outside the arena.
- SyscallSpec.MsgqConserves: ends at an overrun, and so does `PipeConserves`, because the store lands in memory that may belong to anything.
- Syscalls.Kernel.Dispatch: says nothing about memory after the reply `Overrun`, whose store lands outside every modelled object.
- PipeRing.Pipe.Read: is the part of a read after waiting; waiting is in `IpcProtocol`.
- VmLoop.RunLoop.RunStep: guest RAM, registers and checkpoints are values that the fields of the class hold, so writing RAM byte by byte in place is not modelled.
- VmLaws.PushStacks: is stated without paging, with room on the stack and no wrapping address, and so are `PopTakes`, `ReturnGoes`, `InterruptGoes`, `InterruptReturns`, `StoreStringStores` and `StepRuns`; page walks are `WalkFinds` and `NoWalk`, and with all of it `VmReplay.SameExec`.
- VmDecode.Decode: is a function of the sixteen bytes; the source fills its result field by field.
- ThreadPool.PoolIsSafe: the pool mutex is left out, so the steps allow more interleavings than the code; a job refused by a full queue leaves its submitter waiting, as in the code, so nothing is claimed about its return.
- DriverModel.Model.TryDriver: probe, attach and start do not themselves claim or release resources.
- Assembly `calloc` and `realloc`: `malloc_nolock` overwrites registers that they keep live values in.
- Agreement of the interpreter with x86 hardware: the code is the definition.
- VM devices, display, keyboard, timer and disk ports: their answers are parameters, and their state is one opaque number.
- `vm_run` with SDL, and the disk image kept beside a checkpoint.
- The branches of `pmm.c` for a frame count that is not a multiple of the word size, which the constants exclude.
- Memory failures inside `update_cluster_line`, text with null characters, and losses after `fclose`: what has not reached the temporary file by then never does.
- Spinlocks around the allocators, the bitmap and the queues: each operation is one step.
- The console calls of `syscall.c`, and table entries of types that no modelled call creates.
- Device files, interrupts and DMA records of the driver model: smaller tables of the same kind.
- Shell, interpreter, file system providers, terminal and hardware setup: host calls, user interface or hardware.
