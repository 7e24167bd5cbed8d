# ZeOS kernel model

A Dafny model of the ZeOS teaching kernel: process management, round-robin scheduling, paging,
the boot loader that brings the kernel into memory, and the arithmetic and copy routines they use.

The process lifecycle is one state machine. Its state (`Kernel.Sys`) is the ten task slots, the
free, ready and block queues, the current task, the quantum counter and the PID counter, together
with the frame bytemap, one page table per slot, the contents of every frame, cr3 and the TLB. Its
steps (`Kernel.Step`) are the atomic kernel entries: clock tick, yield, block, unblock, fork, exit,
the statistics calls, plus stores of user programs wherever paging lets them, and a TLB that may
cache or forget present mappings at any time. A run (`Runs.IsRun`) starts in a state boot builds and
takes enabled steps in any order.

A store of a user program to one of the kernel's own pages is the step `KernelStore`, after which
anything may follow, because those pages hold all the structures of this model. Paging prevents that
step for task 1 and for no process made by fork (`Protection.KernelIsOpen`). So every theorem about
runs assumes `Runs.KeepsOut`: no user program makes it. `Protection.Task1StaysOut` says when paging
alone gives this assumption. `Protection.IsolationEnds` says exactly where isolation ends without it;
there the outcome of the kernel store is not left open, but is the change of one page table entry.
"Run" below means a run with this assumption, unless the row says otherwise.

There are two layers:

- **Specification**: pure functions in `Scheduler`, `Paging` and `Kernel`. The theorems about steps
  and about whole runs are lemmas over them (`Ownership`, `BootState`, `Runs`, `Fairness`,
  `Isolation`, `Protection`, `ForkFailure`, `TickAccounting`), and `Effects` says for every event what
  each queue, counter, task field, page table entry and byte of memory is afterwards.
- **Implementation**: the C functions as methods that update state in place. `Lists.NodeHeap` is
  `list.c` on a heap of `next`/`prev` pointers, `TaskQueues.Queues` is the three kernel queues on
  that heap, `MemoryManager.Memory` is `mm.c` and the memory loops of `sys.c`, and
  `KernelMachine.Machine` puts them together. Each entry is proved to leave exactly the state
  `Kernel.Step` gives, and the constructor of `Machine` to build the boot state, so what is proved
  of runs is true of the linked-list-and-array program (`Machine.Perform` for one entry,
  `Machine.PerformAll` for whole runs).

The second core is the boot loader: `BootLoader.RealMode` runs the 16-bit loop of `read_it` on
sread, head, track, es, bx and a carry flag, and `ImageBuilder` writes the size field it reads.
`Division`, `DataCopy` and `Libc` are the 64-by-32-bit division behind the clock, the word-and-byte
copy with `sys_write` on top, and `itoa`.

Points where the code decides, against a comment or an expectation:

- `alloc_frame` looks at every second frame only, so 384 frames are usable.
- `free_frame` compares with `>`, so frame 256 can never be freed. Rollback of a failed fork is
  therefore an undo if and only if frame 256 was in use or nothing was allocated
  (`Paging.RollbackRestores`). Frame 256 is the first code frame, so it always is.
- Fork's temporary pages are `pag + NUM_PAG_DATA`, pages 284 to 303; the comment at sys.c:115 about
  `TOTAL_PAGES-1` is stale.
- A fork that fails with `-EAGAIN` leaves the parent's PID in the freed slot
  (`ForkFailure.FailedForkLeavesParentPid`). That "free slots have PID -1" holds in every run rests
  on that path being unreachable, which `Runs.ForkOutcome` proves from the frame count.
- The idle task does enter the ready queue, once it has been preempted; "idle runs only when
  nothing is ready" is false (`Fairness.IdleRunsAheadOfOthers`), and `Fairness.IdleAhead` says
  exactly when it fails. What holds is `Fairness.FallbackAtMostOnce`.
- `set_ss_pag` sets the user and write bits for the kernel and code pages of a forked child, so "the
  kernel's pages are closed to user programs" and "code stays read-only" hold of task 1 only
  (`Protection.KernelIsOpen`), and code pages are shared (`Isolation.CodeStoreReachesAll`).
- The loader brings in the whole image and stops before it overwrites itself if and only if the
  image has at most 0x7fff0 bytes, that is an im_size under 0x8000 (`ImageBuilder.BootFrom`); the
  image builder does not check this. From 0x8000 on the loop comes to 0x90000, where it is running,
  with its test still passing; from 0xf000 on its test never fails.
- `copy_data` is a correct copy if and only if the ranges do not overlap or the destination is not
  above the source (`DataCopy.ForwardIsExact`).

## Model

| member | source | states |
|---|---|---|
| Lists.InsertIntoList | list.c:18-26 | linking a node between two neighbours of a circular list gives the list with that node at that position, `next` and `prev` still mutually inverse |
| Lists.DeleteFromList | list.c:62-79 | relinking an entry's two neighbours gives the list without it, and the entry's own links name those neighbours, so no list head is needed |
| Lists.OthersKept | list.c:18-79 | every list that shares no cell with the changed one is still the same list |
| Lists.SameList | list.c:6-10 | the pointers determine the list: no head spells two sequences |
| Lists.NodeHeap.InitListHead | list.c:6-10 | a self-linked head is the empty list |
| Lists.NodeHeap.ListAdd | list.c:36-39 | prepends; disjoint lists are unchanged |
| Lists.NodeHeap.ListAddTail | list.c:50-53 | appends; disjoint lists are unchanged |
| Lists.NodeHeap.ListDel | list.c:62-79 | removes the entry from whichever list holds it and clears its links; disjoint lists are unchanged |
| Lists.NodeHeap.ListIsLast | list.c:86-90 | true exactly for the last entry of its list |
| Lists.NodeHeap.ListEmpty | list.c:96-99 | true exactly for the empty list |
| Lists.NodeHeap.FirstInFirstOut | list.c:50-79 | nodes put in with `list_add_tail` and taken out with first and `list_del`, in any interleaving and coming back as often as they were taken out, leave in the order in which they were put in: taken out and left together are the old contents and what was added |
| TaskQueues.Queues.AddTail | list.c:50-53 | on the three kernel queues sharing one heap: appends to the named queue and leaves the other two as they were |
| TaskQueues.Queues.Del | list.c:62-79 | unlinks a slot without being told its queue, and only that slot |
| TaskQueues.Queues.CopyLink | sys.c:74 | copying the parent's task structure over an unlinked child, link words included, disturbs no queue |
| Scheduler.ParkCurrent | sched.c:111-125 | putting the running task on a queue keeps slots partitioned, states matching queues and PIDs distinct, with the processor empty |
| Scheduler.DispatchKeepsInv | sched.c:127-149 | from an empty processor `sched_next_rr` restores the full scheduling invariant, quantum between 1 and 10 included |
| Scheduler.UpdateMoves | sched.c:111-125 | for each destination: the task leaves the queue it was on, the others keeping their order, is at the tail of its destination or on none, has the state that goes with it, is charged system ticks only towards the ready queue, and nothing else changes |
| Scheduler.UnblockKeepsCore | sched.c:290-295 | moving a blocked task to the ready queue keeps the scheduling invariant |
| Scheduler.ExitParks | sys.c:203-209 | an exiting task's slot goes to the tail of the free queue with PID -1, no other queue and no other task changes, and the invariant holds with the processor empty |
| Scheduler.ForkKeepsCore | sys.c:65-151 | a successful fork admits a ready task with a PID no live task has |
| Paging.FirstFree | mm.c:214-227 | the lowest free usable frame, or -1 exactly when every usable frame is in use |
| Paging.AllocManyFrames | sys.c:82-88 | repeated allocation yields distinct, previously free frames, marks exactly those, and falls short only when no usable frame is left |
| Paging.RollbackRestores | sys.c:92-96 | freeing what was just allocated restores the bytemap if and only if frame 256 was in use or nothing was allocated |
| Paging.CopiedPages | sys.c:116-122 | page-by-page copying to distinct frames outside the source copies every page and touches no other frame |
| Ownership.UsedFrameCount | mm.c:198-246 | the frames in use number 8 plus 20 per process |
| Ownership.AllocCount | mm.c:214-227 | asking for n frames yields the smaller of n and the number of free usable frames |
| Ownership.ForkGetsItsPages | sys.c:82-103 | whichever of the ten slots own pages, 20 more frames are always available |
| Ownership.ForkCopies | sys.c:116-122 | each new frame equals the parent's corresponding data frame and every other frame is unchanged |
| Ownership.ForkKeepsMemInv | sys.c:82-124 | exact ownership, shared code, identity-mapped kernel pages and TLB coherence hold again with the child among the owners |
| Ownership.ReleaseKeepsOwnInv | sys.c:197-201 | exit gives back exactly its own data frames, and ownership stays exact without it |
| BootState.BootInv | system.c:85-97 | the state boot builds satisfies the kernel invariant |
| BootState.BootFields | sched.c:166-237 | the boot state field by field: idle with PID 0 and task 1 running, both with a quantum of 10 and empty statistics, slots 2 to 9 free in order with PID -1, empty queues, PID counter 1000 |
| BootState.BootMemory | mm.c:55-106 | the boot memory entry by entry: every table maps pages 1 to 255 to themselves for the kernel only, with the two guard pages and page 0 absent; task 1 has 8 read-only code and 20 writable data pages; 28 user frames are in use |
| Kernel.FindPid | sys.c:228-236 | the lowest slot with that PID, or -1 exactly when no slot has it |
| Kernel.UnblockKeepsInv | sched.c:290-300 | unblocking keeps the kernel invariant and never preempts |
| Kernel.SlotCount | sys.c:65-69 | processes and free slots always number 9 |
| Kernel.ForkAllocates | sys.c:82-103 | in every invariant state with a free slot, fork obtains all its pages |
| Kernel.StepKeepsInv | sched.c:99-300 | every enabled step other than a user store to a kernel page keeps the whole kernel invariant: partition, states, PIDs, quantum, exact frame ownership, TLB coherence, cr3 on the current task |
| Runs.RunInv | system.c:85-97 | every state of every run without user stores to kernel pages satisfies the kernel invariant |
| Runs.SlotPartition | sched.c:111-149 | in every run each slot is in exactly one of current, ready, free, blocked, or idle not yet run, and a live slot's state field is READY, BLOCKED or RUN exactly according to which |
| Runs.FrameOwnership | mm.c:198-246 | in every run a user frame is in use iff it is one of the 8 code frames or a data frame of a live process; used frames are even; no two data pages share a frame; kernel page p maps to frame p in every slot |
| Runs.Capacity | mm.c:214-227 | in every run the used user frames number 8 + 20 x processes, at most 188 of 384, and the processes number 9 minus the free slots |
| Runs.ForkOutcome | sys.c:65-103 | in every run fork fails only with -ENOMEM, exactly when the free queue is empty, and otherwise returns a PID above every live one |
| Runs.PidsIdentify | sys.c:227-237 | in every run live PIDs are distinct, a slot has PID -1 iff it is free, and the scan finds the unique live slot with a PID or there is none |
| Runs.PidsAreFresh | sys.c:126-150 | of two successful forks of a run the later one returns the greater PID, so that no PID is used twice |
| Runs.QuantumSafety | sched.c:99-109 | at every boundary the quantum is between 1 and 10; unblock never preempts; a tick preempts iff the quantum is 1 and some task is ready, and then switches to the head of the ready queue, which is not the preempted task |
| Effects.QueuesAfter | sched.c:99-300 | after every event, exactly: ready queue, free queue and block queue in order, current task, quantum (10 after every switch and on expiry with nobody ready, one less on other ticks, else unchanged), PID counter; joiners go to the tail, an unblocked task leaves the others in order |
| Effects.TasksAfter | sched.c:111-149 | after every event, for every slot: exact PID, page directory, quantum and state, unchanged wherever the event is not about the slot |
| Effects.StatsAfterQuiet | p_stats.c:3-13 | after an event without a switch, for every slot, all seven statistics: one counter charged on entering or leaving the system, two on being unblocked, all zero with two clock reads for a new child, the quantum recorded by get_stats, and no other change |
| Effects.StatsAfterSwitch | sched.c:141-149 | after an event with a switch, for every slot, all seven statistics: the task that gives up the processor is charged system ticks up to the first clock read of the dispatch, the next one ready ticks up to the second and one transition, and no other task is charged |
| Effects.GetStatsRecords | sys.c:228-236 | get_stats records the running quantum in the one task with that PID and changes no other task |
| Effects.MemoryAfterQuiet | sched.c:252-264 | events other than fork, exit and stores change no frame, no entry and no byte; a switch loads the new directory and empties the TLB |
| Effects.MemoryAfterStore | mm.c:108-112 | a user store changes the one byte at its offset in the frame its page translates to, and nothing else |
| Effects.MemoryAfterExit | sys.c:197-201 | exit frees exactly the frames of its data pages and empties exactly its data entries; no other entry, frame or byte changes |
| Effects.MemoryAfterFork | sys.c:82-124 | after fork the frames in use are the old ones and the child's, every entry of the child's table is as stated, every other table is unchanged and the TLB is empty; without a free slot nothing changes |
| Fairness.WaitStep | sched.c:99-164 | no step raises the bound 10 x position + quantum of a ready task, every tick lowers it, and the task stays ready until dispatched |
| Fairness.BoundedWait | sched.c:151-164 | a task at position k of the ready queue runs within 10 x k + quantum ticks, however other steps interleave |
| Fairness.WaitIsAtMost90 | sched.c:127-149 | that bound never exceeds 90 |
| Fairness.NoStarvation | sched.c:151-164 | in every run a ready task is current at some point within any stretch of 90 ticks |
| Fairness.IdleStays | sched.c:111-125 | once idle has run it is current or in the ready queue for ever |
| Fairness.FallbackAtMostOnce | sched.c:132-139 | the idle fallback of `sched_next_rr` is taken at most once in a run |
| Fairness.IdleAhead | sched.c:127-164 | whenever a step of a run reaches `sched_next_rr`, idle gets the processor with some task ready iff it was at the head of the ready queue and another task was behind it or goes behind it, on a tick or a yield |
| Fairness.IdleRunsAheadOfOthers | sched.c:127-164 | a run in which a yield dispatches idle while two other tasks are ready |
| Isolation.AccessReachesOwnFrame | mm.c:108-112 | in every run, through any TLB state that can arise, a data page of the current process translates to its own frame and to no other |
| Isolation.StoreIsPrivate | mm.c:249-257 | a store of a user program to any of its user pages, code pages included, changes no byte of another process's data pages, and of its own only the one addressed |
| Isolation.CodeStoreReachesAll | sys.c:111-114 | what one process stores to a code page every process finds in that code page |
| Isolation.ForkPreservesMemory | sys.c:82-124 | after fork the child's 20 data pages equal the parent's, every other process's pages, page tables and every frame not newly the child's are unchanged, and the TLB holds nothing stale |
| Isolation.StepIsolation | sys.c:190-210 | if no user program stores to a kernel page, no step other than a process's own store or exit changes its data pages |
| Isolation.MemoryIsPrivate | sys.c:116-124 | over any stretch of a run in which no user program stores to a kernel page, a process that neither stores nor exits keeps its data pages byte for byte |
| Protection.ForkOpens | sys.c:106-114 | after fork the child can store to every kernel page and every code page, whatever the parent could |
| Protection.KernelIsOpen | mm.c:249-257 | in every run, exactly the processes other than task 1 can store to each kernel and each code page |
| Protection.NullPageStaysAbsent | mm.c:64-74 | in every run: page 0 and the two guard pages stay absent, and every other kernel page present, for task 1 and idle, and every kernel page is present for every other process |
| Protection.Task1StaysOut | mm.c:55-106 | a run, with no assumption on its stores, in which only task 1 and idle get the processor has no user store to a kernel page |
| Protection.ChildReachesKernel | sys.c:106-109 | a run of a fork and a yield after which the child may store to any kernel page |
| Protection.IsolationEnds | sys.c:106-114 | in every state of a run, the stores of the running process, to its user pages and to entries of its own page table, can change another process's data pages iff the running process is not task 1 |
| Protection.RemapReaches | mm.c:249-257 | in any state where the process may store to the kernel page with its table: mapping its first data page to another process's frame is enabled and changes nothing the other sees, and the next store there does iff it stores a different byte |
| Protection.PagingDoesNotIsolate | sys.c:106-114 | a run of a fork, a yield, and three steps of the child, a change of an entry of its own table, a TLB change and a store to its own data page, after which task 1's data has changed |
| ForkFailure.FailsForWantOfFrames | sys.c:89-101 | with a free slot, fork returns -EAGAIN iff fewer than 20 usable frames are free, in any state |
| ForkFailure.RollbackUndoes | sys.c:89-101 | a failed fork leaves frames, TLB, cr3, ready and block queues, every other task and page table as they were, clears as many of the child's data entries as there were free frames, rotates the free queue by one, and restores the bytemap iff frame 256 was in use |
| ForkFailure.RollbackEmptiesEntries | sys.c:92-96 | after a failed fork the child's data entries are all empty iff those the allocation did not reach were empty before |
| ForkFailure.RollbackRestoresTables | sys.c:92-96 | every page table is as before iff the child's data entries that the allocation reached were empty |
| ForkFailure.FailedForkLeavesParentPid | sys.c:74-101 | a failed fork leaves the parent's task, PID included, in a slot of the free queue; so from a state where every free slot holds -1 they all still do after fork iff at least 20 usable frames were free |
| TickAccounting.ChargeKeepsBalance | p_stats.c:3-13 | one update keeps the conservation equation modulo 2^32, up to the ticks between two separate clock reads |
| TickAccounting.StepBalance | sched.c:282-300 | every step keeps the equation for every live task, with the unrecorded ticks of block and unblock accounted for |
| TickAccounting.TicksConserved | p_stats.c:3-13 | in every run, for every live task, user + system + blocked + ready + birth + unrecorded ticks equals the last clock read modulo 2^32, where birth and unrecorded ticks are computed from the run |
| TickAccounting.Attribution | sched.c:141-146 | which counter grows by how much: user only on entry, blocked only when that task is unblocked, ready and the transition count only on being dispatched; a task that yields to itself gets the time between the two clock reads of the dispatch as ready time |
| TickAccounting.ChargedUpTo | sched.c:282-295 | the clock read up to which each affected task has been charged after a step |
| MemoryManager.BootAlloc | mm.c:81-106 | from the fresh bytemap the n-th allocation gives frame 256 + 2n |
| MemoryManager.Memory.InitFrames | mm.c:198-210 | a frame is used iff it is below 256 |
| MemoryManager.Memory.AllocFrame | mm.c:214-227 | returns and marks the lowest free usable frame, or returns -1 and changes nothing |
| MemoryManager.Memory.FreeFrame | mm.c:242-246 | frees the frame if it lies strictly above 256 and below the total, otherwise changes nothing |
| MemoryManager.Memory.InitTablePages | mm.c:55-76 | every entry of every table: pages 1 to 255 map to themselves, closed to user programs, present unless a guard page; page 0 and all pages from 256 on are empty |
| MemoryManager.Memory.SetUserPages | mm.c:81-106 | task 1 gets the first 8 usable frames as read-only code and the next 20 as writable data |
| MemoryManager.Memory.AllocateData | sys.c:82-103 | either all 20 data pages are mapped to fresh frames, or what was taken is freed and unmapped |
| MemoryManager.Memory.Translate | mm.c:108-112 | through a TLB that may answer from any cached entry, a coherent page reaches the frame of the current table |
| MemoryManager.Memory.CopyToChild | sys.c:116-122 | copying through temporary mappings never uses a stale translation, copies every data page, and leaves the parent's table as it was |
| MemoryManager.Memory.ForkMemory | sys.c:82-124 | the whole memory half of fork, in place, computes exactly what `Paging.ForkMem` gives |
| MemoryManager.Memory.ReleaseData | sys.c:197-201 | frees and unmaps every data page of a slot |
| KernelMachine.Machine.constructor | system.c:85-97 | the boot sequence builds exactly the boot state, which satisfies the kernel invariant |
| KernelMachine.Machine.InitFreequeue | sched.c:218-230 | all ten slots in order on the free queue, with PID -1 and otherwise zero |
| KernelMachine.Machine.InitIdle | sched.c:166-187 | idle takes the first free slot with PID 0, a quantum of 10 and empty statistics, and keeps its initial state |
| KernelMachine.Machine.InitTask1 | sched.c:191-216 | task 1 takes the next slot, runs with PID 1, a full quantum and empty statistics, and owns its 28 frames |
| KernelMachine.Machine.UpdateProcessState | sched.c:111-125 | on linked slots, refines the queue transition; only really linked slots are unlinked |
| KernelMachine.Machine.SchedNext | sched.c:127-149 | dispatches the head of the ready queue, or idle, charges both tasks and loads the new page directory |
| KernelMachine.Machine.Schedule | sched.c:151-164 | refines the tick step, whose effect on every field is given in `Effects` |
| KernelMachine.Machine.SysYield | sys.c:213-217 | refines the yield step, whose effect on every field is given in `Effects` |
| KernelMachine.Machine.BlockProcess | sched.c:282-289 | refines the block step, whose effect on every field is given in `Effects` |
| KernelMachine.Machine.UnblockProcess | sched.c:290-300 | refines the unblock step, whose effect on every field is given in `Effects` |
| KernelMachine.Machine.SysExit | sys.c:190-210 | refines the exit step, whose effect on every field is given in `Effects` |
| KernelMachine.Machine.SysFork | sys.c:59-151 | refines the fork step and returns its result, on success and on both failures |
| KernelMachine.Machine.CrossBoundary | sys.c:32-40 | refines entry to and exit from the kernel |
| KernelMachine.Machine.SysGetStats | sys.c:221-238 | the four return codes; on success the found slot's statistics with the running quantum as remaining ticks, stored and returned, and no other task changed |
| KernelMachine.Machine.InvIsEnough | sched.c:111-149 | the kernel invariant implies what every entry requires of the pointers and tables |
| KernelMachine.Machine.Perform | sched.c:151-300 | any enabled event other than a user store to a kernel page, performed on pointers and arrays, gives the state of the state machine and keeps the kernel invariant |
| KernelMachine.Machine.PerformAll | sched.c:151-300 | from boot the machine performs the events of any run and ends in that run's last state up to the TLB; the states it goes through are a run of the same events with TLB changes in between |
| BootLoader.ReadAtIsRight | bootsect.S:225-234 | the largest read at linear sector L starts at that sector, goes to 0x10000 + (L-1)*512, and crosses neither a track end nor a 64 KB boundary |
| BootLoader.PlanIsRight | bootsect.S:210-257 | the whole sequence of reads covers its sectors once each, in order, each one doable and at its address |
| BootLoader.ArgumentsDecode | bootsect.S:267-274 | the packed registers handed to the BIOS decode to the intended cylinder, head, sector and count |
| BootLoader.BlockTest | bootsect.S:219-222 | at any of the sixteen block boundaries es can be at, and for any size field, the end test passes iff the block is among the floor(im_size/0x1000)+1 the field asks for |
| BootLoader.TestNeverFails | bootsect.S:219-222 | the end test passes at every block boundary iff the size field is at least 0xf000, because es wraps around |
| BootLoader.RealMode.ReadTrack | bootsect.S:259-284 | performs the one disk read that sread, head, track, ax and es:bx describe |
| BootLoader.RealMode.SectorsToRead | bootsect.S:225-234 | the carry arithmetic picks the smaller of the rest of the track and the rest of the 64 KB block |
| BootLoader.RealMode.AdvanceDisk | bootsect.S:238-249 | moves to the next sector, head or track |
| BootLoader.RealMode.AdvanceMemory | bootsect.S:250-256 | moves bx on, and es to the next 64 KB block when bx wraps |
| BootLoader.RealMode.ReadIt | bootsect.S:210-257 | for every size field: comes to the end of floor(im_size/0x1000)+1 blocks of 64 KB, or after eight to 0x90000 where the loop itself is, with the test still passing iff the field is at least 0x8000; the reads made are exactly the plan, and memory is the old one with the planned sectors in place and no other byte changed |
| ImageBuilder.ImSizeRoundsUp | build.c:167-167 | im_size is the image size in 16-byte units, rounded up, iff the size plus 15 does not wrap in 32 bits |
| ImageBuilder.WriteSizes | build.c:165-199 | the little-endian fields decode to im_size modulo 2^16, both sizes modulo 2^24 and the last constant; no other byte of the image changes |
| ImageBuilder.LoaderCoversImage | build.c:167-171 | for all sizes: the field is one the loader stops for and its blocks cover the image iff the image has at most 0x7fff0 bytes, that is iff im_size is under 0x8000 |
| ImageBuilder.SmallestUnloadable | bootsect.S:218-234 | an image of 0x7fff1 bytes: the test still passes after eight blocks and the next read goes to the boot sector |
| ImageBuilder.WrappedFieldLosesTail | build.c:167-171 | for every image of 0x10000 or more 16-byte units, wrapping in 32 bits or not, the two-byte field wraps, and the image bytes from the loaded blocks on, of which there is a stated minimum, are missing |
| ImageBuilder.ImageLoaded | bootsect.S:210-257 | memory after the load is the old one with the loaded bytes of the disk at 0x10000; nothing below it or from 0x90000 on changes |
| ImageBuilder.BootFrom | bootsect.S:210-257 | on a disk with the builder's field, `read_it` returns with the whole image in memory iff the image has at most 0x7fff0 bytes; in every case memory is as `ImageLoaded` says |
| ImageBuilder.BuildAndBoot | build.c:165-199 | builder and loader together: the fields written into the image bring all of it into memory byte for byte, with both sizes readable at 0x10000 and no memory below it or from 0x90000 on changed |
| Division.SecondQuotientFits | utils.c:108-112 | the second division's quotient fits 32 bits, so `divl` does not fault |
| Division.LongDivision | utils.c:103-115 | the two partial quotients and the last remainder make up the 64-bit quotient and remainder |
| Division.DoDiv | utils.c:103-115 | for every 64-bit n and 32-bit base above 0, quotient and remainder are exact |
| Division.GetTicks | utils.c:121-132 | the time stamp divided by 109000, modulo 2^32 |
| DataCopy.ForwardIsExact | utils.c:6-20 | the word-then-byte copy equals the simultaneous byte copy for every memory iff the ranges do not overlap or the destination is not above the source |
| DataCopy.ForwardIsRight | utils.c:6-20 | the word-then-byte copy leaves the original source bytes at the destination and every other byte unchanged |
| DataCopy.OverlapCorrupts | utils.c:6-20 | for every destination inside the source range, a memory on which the copy is wrong |
| DataCopy.ForwardOverlap | utils.c:6-20 | for a destination after the source, every byte of the result: byte c repeats the one copied before it by the distance of the ranges if an earlier turn of the loops had overwritten its source, and is the original otherwise |
| DataCopy.ForwardOutside | utils.c:6-20 | no byte outside the destination changes |
| DataCopy.Ram.CopyData | utils.c:6-54 | the two loops compute that copy, for any size and any overlap |
| DataCopy.Console.SysWriteConsole | devices.c:8-16 | shows every byte in order and returns the size |
| DataCopy.Console.SysWrite | sys.c:155-180 | the three error codes; otherwise shows exactly the user's nbytes bytes in order, whatever the 512-byte chunks, and returns nbytes |
| Libc.BackwardsDigits | libc.c:18-24 | the digit loop yields decimal digits, no leading zero, whose reversal has value a |
| Libc.DecimalRoundTrip | libc.c:11-33 | the digits parse back to a, with a leading zero only for zero |
| Libc.RoundTripIsExact | libc.c:11-33 | for every int the digits parse back to it iff it is not negative; a negative int has no digits |
| Libc.IntFitsTenDigits | libc.c:11-33 | an int never needs more than ten digits |
| Libc.Itoa | libc.c:11-33 | the buffer holds the decimal digits and a terminating zero, and nothing beyond it changes |
| Libc.ReverseInPlace | libc.c:26-31 | the swap loop reverses the first n bytes |
| Libc.Strlen | libc.c:35-44 | the index of the first zero byte |
| Libc.ItoaThenStrlen | libc.c:11-44 | strlen of the result is the digit count, and those digits parse back to a |

## Left out

- Stack and register switching (`switch_stack`, `task_switch`, the child's stack frame, `current()` by masking the stack pointer): a switch is the assignment of the current task and of cr3, and nothing is said about resuming the right instruction. In particular a yield with an empty ready queue selects the yielding task itself, and that its resumption works is not claimed.
- The kernel stack contents that fork copies with the task structure; only the task structure's fields are modelled.
- What a user store to a kernel page does to the kernel's structures, other than the change of an entry of the process's own page table; after one, anything may follow, and the theorems about runs assume there is none. Page faults are not modelled: a store that paging forbids does not happen. The TLB caches frame numbers, and the permission bits are those of the table.
- The copy of `sys_get_stats` into the caller's buffer; it is a store of the caller, as a step of its own.
- The round-robin functions are called directly; the policy pointers, `sys_set_sched_policy` and the FCFS policy, which lives in a library, are not part of this model.
- `sys_read`, the keyboard, console emulation and `interrupt.c`: blocking and unblocking are steps that may happen at any time, on one block queue.
- The bounds check `access_ok`: its verdict is a parameter. That an accepted buffer lies in memory and apart from the kernel's local buffer is a precondition of `SysWrite`.
- `set_quantum`, which has no caller, so every quantum is the default, and `free_user_pages`, which has no caller.
- A PID counter that overflows: fork is enabled while the counter is below its maximum.
- Clock readings are parameters of each step, arbitrary 32-bit words; no step assumes that time advances.
- `pagusr_table` and frame contents are arrays of values: one row per slot, one byte sequence per frame. Page directories, each with one entry for its slot's table, are the slot number.
- GDT, IDT, TSS and MSR set-up, port input and output, A20, BIOS calls other than a disk read without errors, and screen drawing.
- What the loader does once it overwrites itself at 0x90000; `ReadIt` ends there. Disk geometries other than two heads, at most 256 cylinders and 2 to 63 sectors a track (with one sector a track the first call would ask for no sectors), and disks shorter than the blocks read.
- File copying and error exits of `build.c`; only the size fields are written.
- The move of user code after boot (system.c:101), `user.c`, SOCKETS and the scheduling measurements.
- Itoa: negative numbers give the empty string followed by a zero byte, as in the code; the round trip is stated for a >= 0.
