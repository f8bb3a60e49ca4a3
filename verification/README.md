# Verification of the Bikeshed kernel

A Dafny model of the parts of Bikeshed, a small x86 teaching kernel, whose correctness does not depend on hardware,
with proofs of what they promise. `dafny verify dfyconfig.toml` checks everything.

**Memory.** `HeapSpec` describes the kernel heap by its live blocks and its free list; `KernelHeap` is the allocator
itself, relinking intrusive nodes in a memory of words, and is proved to do what `HeapSpec` says. `FrameAllocator` is
the bitmap of frames with its roving index. `PageTables` says what storing a table or directory entry means,
`Cloning` what a copy of a directory is, and `Paging` is the code over a memory of frames. `Spaces` proves, for all
runs of that code on any number of directories, that address spaces stay apart.

**Processes.** `QueueSpec` and `Queues` are the queue as a sequence and as linked nodes. `Processes` has one step
function for each system call and interrupt, where a missing result is a kernel panic. `SchedulerState` holds the
kernel's globals and performs the steps in place. `Semaphores`, `Locks` and `Messages` add the wait lists, each with a
class over its own globals (`SemaphoreTable`, `LockTable`, `MessageTable`). `ProcessSafety`, `Dispatching`, `Wakeups`
and `Fairness` prove what the steps keep, `ProcessEffects`, `SemaphoreEffects`, `LockEffects` and `MessageEffects`
what each of them does to the whole state, `Fates` what they do to the mark of a killed process, and `KernelRuns` puts
everything into one state and proves it for all runs. `Histories` says what the calls of a run have come to. `Kills`
says when a kill is forgotten and whom it does not find. `Counting` says when the counts of semaphores and locks go
wrong. `ReadyQueues` has the ready queues as linked queues. `Types` has the constants and statuses that several parts
share.

**ext2.** `Ext2Layout` says where a file's bytes are, `Ext2Files` reads them and writes them in place. The format is
the i_block field in section "Inode Table" of "The Second Extended File System: Internal Layout".

Each class method is proved against a function on values; the properties are lemmas about those functions. The
history of a semaphore (`Log`), of a mailbox (`History`) and of a lock (`Held`) is ghost state beside the code's own.

## What the code does not do

Eight properties that comments suggest or callers may expect fail, and the model keeps the code as it is:

- The heap can end one page past its bound. `HeapSpec.BoundIsOnePageLate` gives the exact case, and
  `HeapSpec.BoundIsPassed` a request.
- Readers and writers of a lock are kept apart only if a read-unlock with a writer queued happens at readerCount 1
  (`Locks.ExclusionHoldsIffPatient`, with a failing run in `Locks.ExclusionFails`).
- A read or write of less than a block that crosses a block boundary goes on into the next block of the disk. Call an
  access straight if it does not do that, or if that block is the file's next one too. Exactly straight accesses read
  and write the file (`Ext2Layout.ReadsTheFileIffStraight`, `Ext2Files.WritesTheFileIffStraight`);
  `Ext2Layout.StraddlingHappens` is one that is not, and `Ext2Files.StraddlingWriteOverwrites` says what it overwrites.
- A killed process can run. One that kills itself runs on until it gives up the processor (`Kills.SelfKilledRunsOn`).
  And `_sched` and `_sys_read` overwrite KILLED, so the mark is lost when a sleeping, reading or waiting process is
  woken, and when the current process is scheduled at the end of its quantum or by msleep(0), or blocks in a read
  (`Kills.KilledProcessRuns`). `Kills.KilledNeverRunsIff` says that a killed process never runs exactly when it is not
  current and none of this happens to it before it is cleaned up; `Kills.KillIsForgottenIffRescheduled` says it for a
  step. A killed process that is ready never runs, and is cleaned up in bounded time (`Kills.KilledReadyIsCleanedUp`,
  `Kills.BoundedKill`).
- A kill of the initial process can miss it. `_init` never sets its state, so it runs as FREE until it is first
  scheduled, and `_sys_kill` takes FREE for dead (`Kills.FirstKillMisses`). It is the only such process, and a kill
  finds every other (`Kills.UnstartedIsInitial`, `Kills.KillFindsAllButTheInitial`).

- A semaphore forgets its posts when one finds its value at 0xFFFFFFFF, and only then
  (`Counting.PostsCountIffNoneIsFull`, with a failing run in `Counting.PostsAreForgotten`).
- A lock counts its waiting writers only if nobody waits with a mode word that is neither LOCK_READ nor LOCK_WRITE,
  which is not checked (`Counting.LocksCountIffNoneIsOther`, `Locks.AcquireKeepsOk`). Such a process can wait for a lock
  that is free (`Locks.OtherModeIsLeftBehind`) and close it to readers (`Locks.OtherModeIsCountedOut`).
- A read or write that ends at a block boundary goes round once more with nothing to copy and may load a block number
  from outside the disk. `Ext2Files.Context.ReadFile` says exactly when, and `Ext2Layout.LoadsOffDiskHappen` is a case.

`_lock_destroy` refuses every lock it finds, and `_message_send` returns no status when it queues the message; both are
modelled as they are.

## Model

| member | source | states |
|---|---|---|
| `KernelHeap.KernelHeap.constructor` | src/kernel/memory/kmalloc.c:41-59 | The heap starts as one free node over its two initial pages, with the links and the size in memory as the invariant wants them. |
| `KernelHeap.KernelHeap.KMalloc` | src/kernel/memory/kmalloc.c:87-207 | On the words of the heap, with the list walked and relinked in place: the call panics exactly when the abstract allocation does, and otherwise returns its address and leaves its heap; node links, sizes and block headers in memory agree with the abstract free list and live blocks. |
| `KernelHeap.KernelHeap.KFree` | src/kernel/memory/kmalloc.c:217-328 | A valid free leaves exactly the abstract heap without the block. "Bad size!", "Fell off the free list" and a null `current_node->prev` cannot happen; an address outside the heap is ignored. |
| `KernelHeap.KernelHeap.Search` | src/kernel/memory/kmalloc.c:109-113 | The walk stops at the first node in address order larger than need + 12, or else at the last. |
| `KernelHeap.KernelHeap.Grow` | src/kernel/memory/kmalloc.c:119-166 | The tail node grows by the computed pages, and the panic is raised exactly when the end is past the bound before some page. |
| `KernelHeap.KernelHeap.Split` | src/kernel/memory/kmalloc.c:169-206 | The node is cut in two, the rest takes its place in the list, and every other node and header keeps its words. |
| `KernelHeap.KernelHeap.LinkFirst` | src/kernel/memory/kmalloc.c:244-268 | A block below the first node becomes the first node, joined with it when they touch. |
| `KernelHeap.KernelHeap.LinkLater` | src/kernel/memory/kmalloc.c:270-328 | A block above the first node is linked in address order and joined with the neighbours it touches. |
| `KernelHeap.KernelHeap.OwnerStore` | src/kernel/memory/kmalloc.c:202-206 | Whatever the owner of a block writes behind its header leaves the allocator's state valid. |
| `KernelHeap.LinkSplice` | src/kernel/memory/kmalloc.c:288-325 | Replacing a run of nodes by one node, with four link words updated, gives a consistent doubly linked list again. |
| `KernelHeap.InsertInSteps` | src/kernel/memory/kmalloc.c:287-325 | Linking in, joining with the previous node and joining with the next one, in that order, is one insertion with coalescing. |
| `HeapSpec.FreeListIsCanonical` | src/kernel/memory/kmalloc.c:168-206 | In every valid heap the free list is determined by the live blocks and the end: it is the list of maximal gaps. |
| `HeapSpec.ReachableHeapsAreCanonical` | src/kernel/memory/kmalloc.c:217-328 | Two runs of any valid calls that end with the same live blocks and the same end have the same free list. |
| `HeapSpec.RunKeepsInv` | src/kernel/memory/kmalloc.c:87-328 | In every reachable state live and free blocks tile the heap without overlap; free blocks are sorted, apart, 4-aligned and at least 12 bytes, and the last one ends at the end of the heap. |
| `HeapSpec.AllocKeepsInv` | src/kernel/memory/kmalloc.c:87-207 | An allocation keeps the tiling of the heap by free and live blocks, and returns a block that was not live. |
| `HeapSpec.AllocEnd` | src/kernel/memory/kmalloc.c:108-166 | The heap stays as long if some free block is larger than need + 12 or the last one at least as large. Otherwise it grows by the least number of pages that makes the last block larger than need + 12, and the panic comes exactly when it would end more than a page past the bound. |
| `HeapSpec.AllocTakes` | src/kernel/memory/kmalloc.c:108-113 | The block given out is the beginning of the first free block in address order that is larger than need + 12, or else of the last one; it becomes live with the rounded size. |
| `HeapSpec.ReleaseKeepsInv` | src/kernel/memory/kmalloc.c:242-325 | A free of a live block keeps the tiling of the heap and the order, distance and alignment of free blocks. |
| `HeapSpec.FreeEffect` | src/kernel/memory/kmalloc.c:217-242 | A free of an address that was given out takes exactly that block from the live ones and leaves the end where it was; one outside the heap changes nothing. |
| `HeapSpec.FreeUndoesAlloc` | src/kernel/memory/kmalloc.c:217-328 | A free right after an allocation that did not grow the heap restores the heap exactly. |
| `HeapSpec.FreeOrderIsIrrelevant` | src/kernel/memory/kmalloc.c:217-328 | Freeing the same blocks in any two orders gives the same heap. |
| `HeapSpec.EmptyHeapIsOneBlock` | src/kernel/memory/kmalloc.c:217-328 | With nothing live, one block covers the whole heap. |
| `HeapSpec.GrowthIsLeast` | src/kernel/memory/kmalloc.c:124 | For all sizes the 32-bit expression gives the least number of pages that makes the tail larger than need + 12. |
| `HeapSpec.RemainderIsBlock` | src/kernel/memory/kmalloc.c:169-171 | The node used leaves a rest of at least 12 bytes. |
| `HeapSpec.BoundIsOnePageLate` | src/kernel/memory/kmalloc.c:135-140 | The bound of the heap is not kept: a growing call that should fail succeeds exactly when it would end one page past the bound. |
| `HeapSpec.BoundIsPassed` | src/kernel/memory/kmalloc.c:135-140 | A first request of 0xFFFFFF0 bytes is answered although the heap then ends at 0xE0001000, a page past the bound. |
| `FrameAllocator.FrameAllocator.GetFree4k` | src/kernel/memory/physical.c:154-192 | Fails exactly when no frame is free. Otherwise it returns the page-aligned address of a frame that was free and takes that one only: the lowest clear bit of the first word that is not full, going round from the last one used. The impossible-condition panic is unreachable. |
| `FrameAllocator.FrameAllocator.FindWord` | src/kernel/memory/physical.c:159-168 | The circular search from the roving index ends, at the first word with a clear bit if there is one anywhere. |
| `FrameAllocator.FrameAllocator.SetBit` | src/kernel/memory/physical.c:114-125 | Exactly the frame of the address is taken, or nothing beyond the bitmap. |
| `FrameAllocator.FrameAllocator.UnsetBit` | src/kernel/memory/physical.c:140-152 | Exactly the frame of the address is free afterwards, flag bits in the address or not; nothing beyond the bitmap. |
| `FrameAllocator.FrameAllocator.GetFreePageCount` | src/kernel/memory/physical.c:96-112 | The sum is the number of free frames. |
| `FrameAllocator.AddressRoundTrip` | src/kernel/memory/physical.c:22-23 | The index and offset of an address made from word and bit give word and bit back, with any low flag bits set. |
| `FrameAllocator.UpdateIsArithmetic` | src/kernel/memory/physical.c:123-151 | Setting a clear bit adds its power of two, clearing a set one subtracts it, and otherwise the word stays. |
| `FrameAllocator.TakeFrame` | src/kernel/memory/physical.c:188 | Setting a bit of the bitmap removes that one frame from the free ones. |
| `FrameAllocator.ReturnFrame` | src/kernel/memory/physical.c:150-151 | Clearing a bit of the bitmap adds that one frame to the free ones. |
| `Paging.Mmu.GetPhysAddr` | src/kernel/memory/paging.c:132-150 | The frame of the page with the offset carried through, or 0xFFFFFFFF exactly when the page is not mapped. |
| `Paging.AddressIsInPage` | src/kernel/memory/paging.c:134-135 | For every 32-bit address, aligned or not, the two indices are below 1024 and name the page that the address lies in. |
| `Paging.Mmu.MapPage` | src/kernel/memory/paging.c:341-392 | Panics exactly when the page of the address is mapped already or no frame is left for a table. Otherwise that page only is mapped, to the frame with the flags; a frame is taken exactly when the table is new, whose entry gets the read-write and present flags; nothing outside the directory and that table changes. |
| `Paging.Mmu.MapFresh` | src/kernel/elf/elf.c:133 | Maps a page to a frame that was free; panics exactly when no frame is free, the page is mapped already, or its table is missing and the frame was the last one. |
| `Paging.Mmu.UnmapPage` | src/kernel/memory/paging.c:282-339 | Refuses exactly the reserved addresses. Otherwise the page's frame is given back, and the table's exactly when no present entry is left. |
| `Paging.Mmu.ClearPage` | src/kernel/memory/paging.c:243-280 | The page's entry goes, and its table when no entry is left, without giving a frame back; refused exactly outside the user range and the scratch pages. |
| `Paging.Mmu.ResetPageDirectory` | src/kernel/memory/paging.c:152-158 | No user page is left mapped, no other entry has changed, and exactly the frames of the user pages and their tables are given back. |
| `Paging.Mmu.DeallocPageDirectory` | src/kernel/memory/paging.c:160-167 | No user page is left mapped, and exactly the frames of the user pages, of their tables and of the directory itself are given back. |
| `Paging.Mmu.CloneDirectory` | src/kernel/memory/paging.c:169-241 | The result is an isolated copy: each user page is mapped in both or neither, with equal bytes and flags; entry 0 and the kernel entries are shared, entry 1023 maps the copy to itself; all its frames were free, each has one use, and every other frame of memory is unchanged. The panic comes exactly when fewer frames are free than 1 + the present user tables + the mapped user pages. |
| `Paging.Mmu.CloneAndDealloc` | src/kernel/memory/paging.c:152-241 | Cloning and then releasing the clone succeeds exactly when 1 + present user tables + mapped user pages frames are free; it then returns the set of free frames to exactly what it was and changes no frame that is in use. |
| `PageTables.UnmapEffect` | src/kernel/memory/paging.c:289-329 | Unmapping changes the lookup of one page only, and the directory entry exactly when the table is left without a present entry. |
| `PageTables.UnmapSettled` | src/kernel/memory/paging.c:304-329 | The frames it gives back are in use by no table that remains. |
| `PageTables.ClearEffect` | src/kernel/memory/paging.c:251-275 | Clearing changes the lookup of one page only, and the directory entry exactly when a page is cleared that was the table's last; the directory stays well formed. |
| `PageTables.SetPteEffect` | src/kernel/memory/paging.c:384 | A store into a table changes the lookup of that page only, in that directory only. |
| `PageTables.WalkStep` | src/kernel/memory/paging.c:154-157 | One step of the reset takes one more page away, and its table when that was the last page. |
| `PageTables.GivenBackStep` | src/kernel/memory/paging.c:154-157 | One step of the reset gives back exactly the frame of that page and the frame of the table it leaves empty. |
| `Cloning.FinishedIsCopy` | src/kernel/memory/paging.c:195-233 | The finished clone is an isolated copy. |
| `Cloning.FinishedOwns` | src/kernel/memory/paging.c:195-233 | The finished clone owns each of its frames for one use. |
| `Cloning.FinishedIsWellFormed` | src/kernel/memory/paging.c:183-233 | The finished clone is a well-formed directory itself. |
| `Cloning.DeallocGivesBackOwned` | src/kernel/memory/paging.c:152-167 | Releasing a directory gives back exactly the frames it owns: never a kernel table's or another directory's. |
| `Cloning.OwnsWhatItNeeds` | src/kernel/memory/paging.c:174-227 | A directory owns exactly 1 + present user tables + mapped user pages frames, however the tables and pages are laid out. |
| `Cloning.RunsOut` | src/kernel/memory/paging.c:174-227 | If the copy has taken every free frame and some table or page is still to be copied, then fewer frames were free than the copy needs. |
| `Spaces.StepKeepsOk` | src/kernel/memory/paging.c:152-392 | A clone, a fresh mapping, an unmapping, a reset, a release or a write by its owner keeps this: each directory is well formed and owns its frames, each for one use; no frame has two owners or is both owned and free; kernel tables are neither. No frame gets lost or made. |
| `Spaces.RunKeepsOk` | src/kernel/memory/paging.c:152-392 | Over every run of such steps, in any order and on any directories, each managed frame is free or owned by one directory, and the frames managed stay the same. |
| `Spaces.ReleaseKeepsOk` | src/kernel/memory/paging.c:160-167 | Whatever has happened to a directory since it was cloned, releasing it frees exactly what it owns. |
| `Spaces.FramesAreNotShared` | src/kernel/memory/paging.c:169-241 | In every state of every run no frame of a user page is free, or mapped by two directories, or twice by one. |
| `Spaces.SpacesAreIsolated` | src/kernel/memory/paging.c:169-241 | Over every run in which a process does nothing but fork, its user pages stay mapped as they were and keep their bytes, whatever all others do. |
| `Spaces.StartIsOk` | src/kernel/system.c:315-330 | A directory without user pages meets the invariant, given that it and the kernel tables are not free. |
| `Spaces.CallsAreAllowed` | src/kernel/memory/paging.c:152-392 | In every such state what the paging functions ask of their callers holds for every directory. |
| `Queues.Queue.Insert` | src/kernel/queues.c:329-383 | On linked nodes: the contents become those of the sorted, stable insertion, or the item goes last without a comparison routine; head, tail and all links agree with the contents. |
| `Queues.Queue.Remove` | src/kernel/queues.c:394-417 | The first item leaves; an empty queue is reported. |
| `Queues.Queue.DeleteNode` | src/kernel/queues.c:155-174 | Exactly that node leaves and its neighbours are linked to each other. |
| `Queues.Queue.RemoveByKey` | src/kernel/queues.c:428-452 | The first item of the key leaves, the others keep their order; empty and not found are told apart. |
| `Queues.Queue.RemoveSelected` | src/kernel/queues.c:501-528 | The first item that the selection routine picks leaves, and nothing else: the contents lose exactly that item and the others keep their order; empty and not found are told apart. |
| `Queues.Queue.GetByKey` | src/kernel/queues.c:464-488 | The first item of the key, and the queue unchanged. |
| `Queues.Queue.Peek` | src/kernel/queues.c:263-275 | The key of the first item, and the queue unchanged. |
| `QueueSpec.InsertKeepsSorted` | src/kernel/queues.c:191-212 | Insertion with either comparison routine keeps a sorted queue sorted, signed keys as signed. |
| `QueueSpec.InsertIsStable` | src/kernel/queues.c:329-383 | A new item goes behind all earlier ones of its key, and no other key's items move against each other. |
| `QueueSpec.InsertIsPermutation` | src/kernel/queues.c:329-383 | Insertion adds one item and loses none. |
| `QueueSpec.WithoutKeepsSorted` | src/kernel/queues.c:501-528 | Removing an item from anywhere in a sorted queue leaves it sorted. |
| `QueueSpec.WithoutIsPermutation` | src/kernel/queues.c:501-528 | Removing an item loses that one item and no other. |
| `QueueSpec.SortedStableIsUnique` | src/kernel/queues.c:329-383 | A sorted queue with given items of each key in order is unique, so the two properties leave insertion no choice. |
| `ReadyQueues.Ready.constructor` | src/kernel/scheduler.c:55-76 | Four empty linked queues that share no node. |
| `ReadyQueues.Ready.Add` | src/kernel/scheduler.c:87-107 | On linked queues that share no node, scheduling a process leaves the queues that the step function gives, and they still share none. |
| `ReadyQueues.Ready.TakeFirst` | src/kernel/scheduler.c:116-131 | On linked queues, taking the first process of one gives the process and the queues that the step function gives, or reports exactly an empty one. |
| `SchedulerState.Scheduler.constructor` | src/kernel/pcbs.c:106-131 | After initialisation PCB 0 is current with pid 1 and state FREE, and the others are in the pool in order. |
| `SchedulerState.Scheduler.PcbAlloc` | src/kernel/pcbs.c:64-76 | The first PCB leaves the pool; the panic is a PCB that is not FREE. |
| `SchedulerState.Scheduler.PcbDealloc` | src/kernel/pcbs.c:86-98 | The PCB becomes FREE and goes to the end of the pool. |
| `SchedulerState.Scheduler.Cleanup` | src/kernel/system.c:80-105 | The cleaned-up PCB becomes FREE and goes to the end of the pool, so the process can be forked again. |
| `SchedulerState.Scheduler.Sched` | src/kernel/scheduler.c:87-107 | READY and at the end of the queue of its priority, or BAD_PRIO and unchanged. |
| `SchedulerState.Scheduler.Dispatch` | src/kernel/scheduler.c:116-158 | The nested loops, cleaning up killed processes in place, do what the step function says; the panic is an empty result. |
| `SchedulerState.Scheduler.Fork` | src/kernel/syscalls.c:85-142 | The in-place handler does what the fork step says: PCB taken, copied, scheduled, the parent told the child's pid and the child told 0. |
| `SchedulerState.Scheduler.Exit` | src/kernel/syscalls.c:152-162 | The in-place handler cleans up the caller and dispatches, as the exit step says. |
| `SchedulerState.Scheduler.Read` | src/kernel/syscalls.c:176-215 | The character goes through the info pointer when one is available; otherwise the caller is blocked at the end of the readers and another is dispatched. |
| `SchedulerState.Scheduler.Sleep` | src/kernel/syscalls.c:252-297 | The in-place handler queues the caller by its wake-up time cut to 32 bits, or schedules it for 0, and dispatches, as the msleep step says. |
| `SchedulerState.Scheduler.Kill` | src/kernel/syscalls.c:308-338 | The scan of the PCB array marks the first PCB of the pid that is not FREE. |
| `SchedulerState.Scheduler.SetPriority` | src/kernel/syscalls.c:434-451 | The argument cut to 8 bits, or BAD_PARAM. |
| `SchedulerState.Scheduler.SerialInput` | src/serial/sio.c:158-169 | The first reader, if any, gets the character, a carriage return as a line feed, and is scheduled. |
| `SchedulerState.Scheduler.WakeSleepers` | src/kernel/clock.c:130-156 | The wake loop in place does what its step function says, and ends. |
| `SchedulerState.Scheduler.Clock` | src/kernel/clock.c:106-190 | The whole interrupt does what the tick step says. |
| `Dispatching.DispatchChooses` | src/kernel/scheduler.c:116-158 | The chosen process is the first ready one, by priority and then by arrival, that has not been killed, RUNNING with a full quantum; the killed ones before it become FREE and go to the pool in that order, the others keep their order, and nothing else changes. The panic comes exactly when all are killed. |
| `ProcessSafety.DispatchSound` | src/kernel/scheduler.c:116-158 | Dispatching keeps the process invariant, and everyone's number of places once the last current process has been put somewhere. |
| `ProcessSafety.ForkEffect` | src/kernel/syscalls.c:85-142 | The child takes the first PCB of the pool and differs from its parent in pid, parent and the pid it is told only, which is 0 for the child and the child's for the parent; it is ready behind the others, the parent goes on, and nothing else changes. |
| `ProcessSafety.ForkIs` | src/kernel/syscalls.c:85-142 | The panic on a PCB that is not FREE and the branch that cannot schedule the child are unreachable. |
| `ProcessEffects.ExitEffect` | src/kernel/syscalls.c:152-162 | The caller becomes FREE and goes to the end of the pool, and the first live ready process is chosen from what is left: the caller is not current any more. |
| `Histories.ExitedStaysAway` | src/kernel/syscalls.c:152-162 | In every run whoever exits is FREE, in the pool and not current in every state until a fork takes the PCB. |
| `ProcessEffects.ReadEffect` | src/kernel/syscalls.c:176-215 | With a character there, it is stored through the info pointer with SUCCESS and nothing else changes; without one the caller is BLOCKED, last among the readers, and the next process is chosen. |
| `ProcessEffects.SleepEffect` | src/kernel/syscalls.c:252-297 | msleep(0) puts the caller behind the ready processes of its priority; otherwise it goes into the sleep queue by the 32-bit sum of the time and ms. The answer is SUCCESS and the next process is chosen. |
| `ProcessEffects.KillEffect` | src/kernel/syscalls.c:308-338 | The first PCB of the pid that is not FREE becomes KILLED with SUCCESS for the caller, or nothing changes but NOT_FOUND for the caller. |
| `ProcessEffects.SetPriorityEffect` | src/kernel/syscalls.c:434-451 | The low byte of the argument becomes the priority of the caller with SUCCESS, or nothing but BAD_PARAM. |
| `ProcessEffects.SetTimeEffect` | src/kernel/syscalls.c:462-469 | The system time becomes the argument, with SUCCESS, and nothing else changes. |
| `ProcessEffects.SerialInputEffect` | src/serial/sio.c:158-169 | The first reader leaves the readers, READY, with the low byte of the character or a line feed for a carriage return; without readers nothing changes. |
| `ProcessEffects.TickEffect` | src/kernel/clock.c:106-190 | The time goes up by one in 32 bits, exactly the due sleepers wake, and the current process loses one tick of its quantum, or goes behind the ready processes of its priority if none was left and the next is chosen. |
| `Histories.TimeIsTheRun` | src/kernel/clock.c:106-125 | In every run the system time is the last one set and the ticks since, in 32 bits, whatever else happens. |
| `Histories.PidsAreTheRun` | src/kernel/syscalls.c:85-142 | In every run the next pid goes up by one with every fork and with nothing else. |
| `ProcessEffects.SchedEffect` | src/kernel/scheduler.c:87-107 | Scheduling makes a process READY behind the others of its priority, or answers BAD_PRIO and changes nothing. |
| `ProcessEffects.SchedAllEffect` | src/kernel/scheduler.c:87-107 | Scheduling several processes makes exactly these READY, each behind the others of its priority and in the given order, with the return value if there is one. |
| `ProcessSafety.KillSound` | src/kernel/syscalls.c:308-338 | Exactly the one live process of the pid is marked, and no PCB of the pool. |
| `ProcessSafety.SleepSound` | src/kernel/syscalls.c:252-297 | Sleeping keeps the sleep queue sorted and everyone in as many places. |
| `ProcessSafety.SerialInputSound` | src/serial/sio.c:158-169 | Handing a character to a reader keeps the process invariant and everyone in as many places. |
| `ProcessSafety.TickSound` | src/kernel/clock.c:106-190 | A clock tick keeps the process invariant and everyone in as many places, whatever it wakes and dispatches. |
| `ProcessSafety.BootedSound` | src/kernel/system.c:210-365 | The state in which the system starts meets the invariant, each PCB in one place. |
| `Wakeups.WakeAllIs` | src/kernel/clock.c:130-156 | For any sleep queue: the loop takes the sleepers up to the first later key, appends them by priority and in order to the ready queues, and changes nothing else but their state. |
| `Wakeups.TickWakesTheDue` | src/kernel/clock.c:122-156 | In every reachable state, whatever the time was set to, exactly the sleepers whose time has come leave, in order of time and arrival, and all who stay have a later time. |
| `Kills.KillIsForgottenIffRescheduled` | src/kernel/scheduler.c:104 | For every system call and interrupt from any reachable state: a killed process is afterwards still killed, or in the pool, exactly when the step does not reschedule it. Rescheduled are, by the state before: a sleeper whose time has come at a tick; the current process with its quantum used up at a tick, on msleep(0), or on a read with nothing to read; the first reader at serial input; the first waiter of a posted and all waiters of a destroyed semaphore; those an unlock lets in; the first process waiting for a message sent to it. |
| `Kills.KillHoldsIffNeverRescheduled` | src/kernel/scheduler.c:104 | Over every run: a killed process stays killed until it is cleaned up if and only if no step before that reschedules it. |
| `Kills.KilledNeverRunsIff` | src/kernel/scheduler.c:104 | Over every run from a state with x killed: x is killed and not current in every state until it is cleaned up, if and only if it is not current to begin with and no step before its cleanup reschedules it. |
| `Kills.SelfKilledRunsOn` | src/kernel/syscalls.c:308-338 | From the start, msleep(0), a kill of the initial process by itself and sem_new: the killed process is still current and has made the semaphore, although no step after the kill reschedules it. |
| `Kills.KilledIsDispatchedOnlyIfRescheduled` | src/kernel/scheduler.c:116-158 | No step makes a killed process current except one that reschedules it. |
| `Kills.ReadyIsNotRescheduled` | src/kernel/scheduler.c:87-107 | No step reschedules a process that is ready. |
| `Kills.KilledReadyIsCleanedUp` | src/kernel/scheduler.c:125-140 | In every run a killed process that is ready stays killed, ready and not current until it is cleaned up. |
| `Kills.BoundedKill` | src/kernel/scheduler.c:116-158 | While no process of higher priority is current or ready, a killed process at position k of its ready queue is cleaned up within (k + 1) * 11 ticks. |
| `Kills.KilledProcessRuns` | src/kernel/syscalls.c:252-297 | From the start, msleep(0), a kill of the initial process and another msleep(0) leave the killed process current and RUNNING. |
| `Kills.FirstKillMisses` | src/kernel/syscalls.c:308-338 | A kill of the initial process in the state the system starts in answers NOT_FOUND and leaves that PCB FREE, outside the pool. |
| `Kills.UnstartedIsInitial` | src/kernel/system.c:210-365 | In every run from the start a PCB that is FREE outside the pool is PCB 0 with pid 1, and has been so in every earlier state. |
| `Kills.KillFindsAllButTheInitial` | src/kernel/syscalls.c:308-338 | In every run from the start a kill finds a victim if and only if a PCB outside the pool has the pid and is not PCB 0 still FREE. |
| `SemaphoreTable.Table.constructor` | src/kernel/semaphores.c:80-101 | All ten records are available and none is live. |
| `SemaphoreTable.Table.New` | src/kernel/semaphores.c:109-122 | The first available record becomes live under the next id, or -1. |
| `SemaphoreTable.Table.SchedWaiting` | src/kernel/semaphores.c:64-74 | The loop in place lets waiters through while the value lasts, as its step function says. |
| `SemaphoreTable.Table.Post` | src/kernel/semaphores.c:177-191 | The post in place raises the value, a 32-bit word that goes from its greatest to 0, lets waiters through and answers with the status of the lookup, as its step function says. |
| `SemaphoreTable.Table.Wait` | src/kernel/semaphores.c:193-212 | The wait in place takes one from the value, or queues the caller and dispatches another, as its step function says. |
| `SemaphoreTable.Table.TryWait` | src/kernel/semaphores.c:161-175 | The try_wait in place takes one from the value or answers FAILURE, or the status of a lookup that fails. |
| `SemaphoreTable.Table.Destroy` | src/kernel/semaphores.c:132-159 | The destroy in place wakes all waiters with FAILURE in the order they came, and the record goes from the live to the available ones. |
| `Semaphores.ServiceIsFirstComeFirstServed` | src/kernel/semaphores.c:64-212 | Arrivals are let through in order and the others wait in order. If and only if the value has never wrapped, the history decides everything: the first posts-many arrivals have been let through, and the value is what the posts exceed the arrivals by. |
| `Semaphores.PostIs` | src/kernel/semaphores.c:177-191 | A post wakes the one who has waited longest, and no one else, or is kept in the value. |
| `Semaphores.PostWrapsIffFull` | src/kernel/semaphores.c:184 | A post makes the value wrap to 0, with nobody let through, exactly when it finds the value at 0xFFFFFFFF; no other semaphore is affected. |
| `Counting.StepWrapsIffFull` | src/kernel/semaphores.c:184 | A step of any kind makes a semaphore wrap exactly when it is a post to a full one. |
| `Counting.PostsCountIffNoneIsFull` | src/kernel/semaphores.c:177-191 | Over every run no semaphore has wrapped since it was made, in any state, if and only if no step posts to one whose value is 0xFFFFFFFF. |
| `Counting.PostsAreForgotten` | src/kernel/semaphores.c:184 | From the start, a new semaphore and 2^32 posts leave its value 0 with nobody let through. |
| `Semaphores.PostKeeps` | src/kernel/semaphores.c:177-191 | A post keeps the semaphore invariant, that of processes, and everyone in as many places. |
| `Semaphores.WaitKeeps` | src/kernel/semaphores.c:193-212 | A wait that does not panic keeps the semaphore invariant, that of processes, and everyone in as many places. |
| `Semaphores.TryWaitKeeps` | src/kernel/semaphores.c:161-175 | A try_wait keeps the semaphore invariant, that of processes, and everyone in as many places. |
| `Semaphores.DestroyKeeps` | src/kernel/semaphores.c:132-159 | A destroy keeps the semaphore invariant, that of processes, and everyone in as many places; the id finds nothing afterwards. |
| `Semaphores.NewKeeps` | src/kernel/semaphores.c:109-122 | A new semaphore keeps the semaphore invariant and who waits where, and has an id no live one has. |
| `Semaphores.LiveIsFound` | src/kernel/semaphores.c:132-134 | A live semaphore is found by its id. |
| `SemaphoreEffects.WaitEffect` | src/kernel/semaphores.c:193-212 | A wait on a positive value takes one from it and the caller goes on; on 0 the caller waits behind the others and the next process is chosen. The arrival is entered, no other semaphore changes. |
| `SemaphoreEffects.TryWaitEffect` | src/kernel/semaphores.c:161-175 | A try_wait takes one from a positive value with SUCCESS, and otherwise changes nothing with FAILURE. |
| `SemaphoreEffects.PostEffect` | src/kernel/semaphores.c:177-191 | A post makes the first waiter READY and lets it through, or without one adds one to the 32-bit value. The post is entered, no other semaphore changes. |
| `SemaphoreEffects.NewEffect` | src/kernel/semaphores.c:109-122 | A new semaphore takes the first available record with the next id and value 0; without a record the answer is -1 and nothing changes. |
| `SemaphoreEffects.DestroyEffect` | src/kernel/semaphores.c:132-159 | All waiters become READY with FAILURE in the order they came, and the record goes to the end of the available ones. |
| `SemaphoreEffects.UnknownEffect` | src/kernel/semaphores.c:132-212 | An id that no live semaphore has changes nothing and is answered EMPTY_QUEUE or NOT_FOUND. |
| `Histories.PostsLetArrivalsThrough` | src/kernel/semaphores.c:161-212 | In every run from the start, for a semaphore that has not wrapped since it was made: of the processes that the calls on it have brought, as many as were posted have been let through, in order; the others wait, in order; the value is what is left of the posts. |
| `LockTable.Table.New` | src/kernel/locks.c:122-151 | The new lock goes into the list under the next id. |
| `LockTable.Table.InsertWaiter` | src/kernel/locks.c:69-94 | The process waits, readers behind all others, counted exactly if its mode is LOCK_WRITE, and another is dispatched. |
| `LockTable.Table.Lock` | src/kernel/locks.c:173-208 | The branches in place do what the lock step says. |
| `LockTable.Table.Flush` | src/kernel/locks.c:239-248 | The loop lets everyone who is left on the queue in as a reader. |
| `LockTable.Table.Unlock` | src/kernel/locks.c:215-271 | The branches in place do what the unlock step says, with its statuses. |
| `LockTable.Table.Destroy` | src/kernel/locks.c:158-166 | FAILURE for a lock that is found, the status of the lookup otherwise. |
| `Locks.AcquireKeepsOk` | src/kernel/locks.c:173-208 | From a lock that counts its waiting writers, with writers ahead of readers and a holding or waiting writer while the queue is not empty: locking keeps this if and only if the process is let in, or asks to read, or asks to write and the count is not the greatest word. Any other mode word is queued as a writer and not counted. |
| `Locks.ReleaseKeepsOk` | src/kernel/locks.c:215-271 | An unlock, by whomever, keeps writerWaitingCount the number of queued writers, writers ahead of readers, and a holder or waiting writer while the queue is not empty. |
| `Locks.AcquireKeepsQueue` | src/kernel/locks.c:69-94 | With any mode word, the queue of a lock stays sorted with readers behind all others. |
| `Locks.OtherModeIsLeftBehind` | src/kernel/locks.c:75-87 | A process that waits with a word that is neither mode still waits when the only reader has left the lock free. |
| `Locks.OtherModeIsCountedOut` | src/kernel/locks.c:250-253 | When such a process is let in, writerWaitingCount goes from 0 to 0xFFFFFFFF, and after its own unlock with that word no reader is admitted. |
| `Counting.LocksCountIffNoneIsOther` | src/kernel/locks.c:173-271 | Over every run all locks count their waiting writers in every state, if and only if no process has to wait with a mode word that is neither LOCK_READ nor LOCK_WRITE. |
| `Counting.WaitersAreFew` | src/kernel/locks.c:69-94 | In every reachable state fewer processes wait for a lock than there are PCBs, so the count of waiting writers cannot wrap from above. |
| `Locks.ReadersYieldToWriters` | src/kernel/locks.c:225-256 | No reader is let in while a writer waits, and the flush wakes no writer; a woken writer is the one that has waited longest and comes alone. |
| `LockEffects.LockEffect` | src/kernel/locks.c:173-208 | A lock without a holding or counted writer lets a reader in, and a writer if it has no readers; anyone else waits, readers behind the others, and the next process is chosen. No other lock changes. |
| `LockEffects.UnlockEffect` | src/kernel/locks.c:215-271 | An unlock to read takes one off the readers first. Then the first waiter gets the lock, with all others if it is a reader, if a writer holds it or is counted; if nobody waits a writer gives it up and anyone else gets EMPTY_QUEUE. Those who get it become READY in order. |
| `LockEffects.NewEffect` | src/kernel/locks.c:122-151 | A new lock goes to the end of the list, free, under the next id. |
| `LockEffects.UnknownEffect` | src/kernel/locks.c:158-271 | An id that no lock has changes nothing and is answered EMPTY_QUEUE or NOT_FOUND; destroying a lock that is found answers FAILURE. |
| `Locks.StepIsExclusive` | src/kernel/locks.c:173-271 | A matched step from a state in order leaves readers and writers apart exactly when it is not a read-unlock with a queued writer at a readerCount other than 1, and then the fields still say who has the lock and someone has it while anyone waits. |
| `Locks.ExclusionHoldsIffPatient` | src/kernel/locks.c:173-271 | Over all matched runs on a lock: exclusion holds in every state exactly when no step is such a read-unlock. |
| `Locks.ExclusionFails` | src/kernel/locks.c:221-253 | Two readers, a waiting writer and one read-unlock break it. |
| `Histories.LocksAreTheRun` | src/kernel/locks.c:173-271 | In every run from the start each lock is in the state that the lock and unlock calls on it, in order, lead to from a free lock. |
| `Histories.LocksExclude` | src/kernel/locks.c:173-271 | So if only holders unlock, in their mode, readers and writers of each lock have been apart throughout the run exactly when no unlock on it was a read-unlock with a queued writer at a readerCount other than 1. |
| `Locks.LockLockKeeps` | src/kernel/locks.c:173-208 | Locking keeps the invariants and everyone in as many places. |
| `Locks.LockUnlockKeeps` | src/kernel/locks.c:215-271 | Unlocking keeps the lock and process invariants and everyone in as many places. |
| `Locks.NewKeeps` | src/kernel/locks.c:122-151 | A new lock has an id of its own. |
| `MessageTable.Table.Send` | src/kernel/messages.c:128-177 | The message is given to the process waiting for it, which holds it and is scheduled, or goes to the end of the mailbox, made when missing; no status in the second case. |
| `MessageTable.Table.Receive` | src/kernel/messages.c:184-203 | The caller is given the oldest message, or waits under its pid and another is dispatched. |
| `MessageTable.Table.TryReceive` | src/kernel/messages.c:210-227 | The caller is given the oldest message, or the answer is NOT_FOUND. |
| `MessageTable.Table.HasMessage` | src/kernel/messages.c:234-246 | SUCCESS exactly when more messages were sent to the pid than have been received for it. |
| `Messages.SendKeeps` | src/kernel/messages.c:128-177 | For each pid the messages received followed by those queued remain the sequence sent; nobody waits who has a message; the waiting processes stay sorted by pid; everyone stays in as many places. |
| `Messages.ReceiveKeeps` | src/kernel/messages.c:184-203 | A receive keeps received plus queued equal to sent for each pid, nobody waiting who has a message, and everyone in as many places. |
| `Messages.TryReceiveKeeps` | src/kernel/messages.c:210-227 | A try_receive keeps received plus queued equal to sent for each pid, and who waits. |
| `Messages.HasMessageIffUndelivered` | src/kernel/messages.c:234-246 | In every state that keeps this, has_message answers SUCCESS exactly when some message sent to the pid has not been received. |
| `Messages.GivenTo` | src/kernel/messages.c:128-203 | When a message is received for a process, by hand-off or by its own call, every process still holds the last message received for its pid. |
| `MessageEffects.SendIsKept` | src/kernel/messages.c:156-176 | With nobody waiting for it the message goes behind those in the mailbox of the pid, and nothing else changes; no status. |
| `MessageEffects.SendIsHanded` | src/kernel/messages.c:128-155 | The first process waiting under the pid is given the message, leaves the waiting ones and is READY with SUCCESS; the mailboxes stay. |
| `MessageEffects.ReceiveEffect` | src/kernel/messages.c:184-203 | The oldest message of the mailbox leaves it for the caller; without one the caller waits under its pid, behind those of the same, and the next process is chosen. |
| `MessageEffects.TryReceiveEffect` | src/kernel/messages.c:210-227 | The oldest message leaves the mailbox for the caller with SUCCESS, or nothing changes with NOT_FOUND. |
| `Histories.SentIsDeliveredOrQueued` | src/kernel/messages.c:128-227 | In every run from the start, for each pid: the messages that the steps deliver, followed by those in the mailbox, are the messages that the steps send, in order. None is lost, made up, doubled or overtaken. |
| `KernelRuns.StepKeepsInv` | src/kernel/syscalls.c:85-338 | Every system call and interrupt keeps the invariant of the whole kernel. |
| `KernelRuns.RunKeepsInv` | src/kernel/syscalls.c:636-696 | Every state of every run of system calls and interrupts, in any order, keeps the invariant of the whole kernel. |
| `KernelRuns.BootRunsAreSafe` | src/kernel/pcbs.c:64-98 | In every state of every run from the start each PCB is in exactly one place, pool members are FREE, every message is delivered once and in order, every process holds the last message received for its pid, and a process blocked in receive has no message. |
| `KernelRuns.BootInv` | src/kernel/system.c:210-365 | The state in which the system starts meets the invariant. |
| `KernelRuns.ForkNeverPanics` | src/kernel/pcbs.c:64-76 | In every such state a fork finds a FREE PCB. |
| `KernelRuns.BoundedWaiting` | src/kernel/scheduler.c:87-158 | While no process of higher priority is current or ready and x has not been killed, x at position k of its ready queue becomes current within (k + 1) * 11 ticks, whatever other calls and interrupts happen between them. |
| `KernelRuns.BoundedService` | src/kernel/scheduler.c:87-158 | While no process of higher priority is current or ready, x at position k of its ready queue becomes current, or is cleaned up if it has been killed, within (k + 1) * 11 ticks. |
| `Fairness.TickAdvances` | src/kernel/clock.c:175-184 | A tick reduces by at least one what is left of a ready process's wait, counted in quanta of those ahead of it, unless it cleans the process up because it has been killed. |
| `Fairness.MovedAdvances` | src/kernel/scheduler.c:116-158 | No handler other than the tick increases what is left of a ready process's wait, unless it cleans the process up because it has been killed. |
| `Ext2Files.Context.ReadFile` | src/fs/ext2/read_ext2.c:393-527 | The length returned is what was asked for, cut to what the file has from start on, and 0 past its end; that many bytes of the buffer come from where the loop reaches, in order, and the rest of the buffer stays. The loop ends, although it steps its counter back, and never meets the double indirect block. All block numbers it loads are on the disk exactly unless an idle last pass loads one from outside. |
| `Ext2Files.Context.FollowBlock` | src/fs/ext2/read_ext2.c:475-501 | The address of the next logical block, direct or through the indirect block, and the word loaded for it; holding the counter still counts on in the indirect block. |
| `Ext2Files.Context.ReadBlocks` | src/fs/ext2/read_ext2.c:449-522 | The loop fills the buffer with the bytes it reaches and ends, though it holds its counter still in the indirect block. |
| `Ext2Files.Context.WriteBlocks` | src/fs/ext2/write_ext2.c:222-293 | The loop of the write: exactly the bytes it reaches are replaced by the buffer's. All block numbers it loads are on the disk exactly unless an idle last pass loads one from outside. |
| `Ext2Files.Context.WriteFile` | src/fs/ext2/write_ext2.c:169-296 | In place the count is the length asked for; past the end of the file it is EXT2_WRITE_NON_CONTIGUOUS and the disk stays. |
| `Ext2Layout.ReachesTheBytesIffStraight` | src/fs/ext2/read_ext2.c:504-521 | The loops reach exactly the bytes of the range if and only if the range is a block or longer, or does not cross a block boundary, or the next block of the file is the next block of the disk. |
| `Ext2Layout.ReadsTheFileIffStraight` | src/fs/ext2/read_ext2.c:504-521 | On all disks with the same block numbers the bytes read are the file's if and only if the range is a block or longer, or crosses no block boundary, or goes on into the next block of the disk. |
| `Ext2Layout.StraddlingHappens` | src/fs/ext2/read_ext2.c:504-521 | A file in blocks 1 and 3 and an access of 100 bytes at 1000 is a possible request that is not straight. |
| `Ext2Layout.IndexIsQuotient` | src/fs/ext2/read_ext2.c:426-446 | The block and the offset of a byte are the quotient and the remainder the code computes. |
| `Ext2Layout.OffsetIsAddress` | src/fs/ext2/common_ext2.h:18-26 | The offset of a block is 0x400 + (number - 1) * block size. |
| `Ext2Layout.BlockSizeIsShifted` | src/fs/ext2/common_ext2.h:13-16 | The block size is 1024 shifted left by the logarithmic block size. |
| `Ext2Layout.BlockNumberIsStored` | src/fs/ext2/read_ext2.c:475-497 | The numbers of the first twelve blocks are in the inode; those of the others are the four bytes each, lowest first, of the block that entry 12 names. |
| `Ext2Layout.UsedFits` | src/fs/ext2/common_ext2.h:63-67 | A file within the capacity uses no block beyond the single indirect ones. |
| `Ext2Layout.UsedLoadIsOnDisk` | src/fs/ext2/read_ext2.c:481-497 | The block number of a block that the file uses is loaded from the disk. |
| `Ext2Files.PassLoad` | src/fs/ext2/read_ext2.c:449-522 | A pass with something left to copy loads from the disk; one with nothing left happens only if nothing is asked for, or at least a block up to a block boundary, and then its load is for the block after the range. |
| `Ext2Layout.LoadsOffDiskHappen` | src/fs/ext2/read_ext2.c:475-501 | Reading a file of exactly twelve blocks of 2048 bytes as a whole is possible and straight, and loads a block number from before the start of the disk. |
| `Ext2Files.ReadGivesTheFile` | src/fs/ext2/read_ext2.c:393-527 | A read that is straight returns bytes [start, start + n) of the file and leaves the rest of the buffer. |
| `Ext2Files.WriteSplices` | src/fs/ext2/write_ext2.c:169-296 | A write that is straight splices the buffer into the file's bytes and changes no other byte of it. |
| `Ext2Files.WriteKeepsLayout` | src/fs/ext2/write_ext2.c:222-293 | A write that is straight leaves the block numbers of the file alone. |
| `Ext2Files.ReadAfterWrite` | src/fs/ext2/write_ext2.c:169-296 | A read of the range after a straight write returns the buffer. |
| `Ext2Files.OtherFilesStay` | src/fs/ext2/write_ext2.c:222-293 | A straight write changes no byte of a file with disjoint blocks. |
| `Ext2Files.StraddlingWriteMisses` | src/fs/ext2/write_ext2.c:276-289 | A write that is not straight leaves the part of its range in the second block as it was. |
| `Ext2Files.StraddlingWriteOverwrites` | src/fs/ext2/write_ext2.c:276-289 | It puts that part of the buffer at the beginning of the next block of the disk instead, whoever owns that. |
| `Ext2Files.WritesTheFileIffStraight` | src/fs/ext2/write_ext2.c:276-289 | For all disks with the same block numbers and all buffers the file after the write is the splice, if and only if the access is straight. |

## Left out

- `KernelHeap.KernelHeap.constructor`: the frames taken and mapped for the two initial pages.
- `KernelHeap.KernelHeap.Grow`: mapping the new pages and copying the directory entries while the heap grows (kmalloc.c:132-162).
- `KernelHeap.KernelHeap.KMalloc`: requests whose rounding wraps 32 bits are excluded by a precondition.
- Wrap-around of 32-bit ids and of 16-bit pids: preconditions of the steps that count them up. readerCount is unbounded above and wraps below.
- Null pointers and failed allocations inside queues, locks and messages: the BAD_PARAM and ALLOC_FAILED branches.
- `FrameAllocator.FrameAllocator.constructor`: starts from any bitmap; sizing and filling it from the memory map is not modelled, nor is `__phys_check_bit`.
- `Paging.Mmu.CloneDirectory`: the recursive mapping, the scratch windows, cr3 and invlpg are direct access to frames; the mapping and clearing of the windows around the copy is not modelled.
- `SchedulerState.Scheduler.Fork`: the clone of the page directory; a PCB has none. `Paging.Mmu.CloneDirectory` models it on its own.
- `SchedulerState.Scheduler.Cleanup`: the release of the page directory, which `Paging.Mmu.DeallocPageDirectory` models. Dispatch does not switch directories.
- Return values: a status and the word behind the info pointer are stored in the PCB. The code stores it through the process's context, after a dispatch under another page directory; the `_sys_sem_*`, `_sys_lock_*` and `_sys_message_*` wrappers, which do only this, are left out.
- The queues held by `SchedulerState` and the three tables are sequences. `Queues.Queue` implements each, and `ReadyQueues` the four ready queues together; the other queues are not put together. Mailboxes are a map from pid.
- `_pcb_alloc` on an empty pool, which writes through a null pointer: a fork needs a non-empty pool.
- Pages below 4 MiB, whose table all directories share, and mappings of frames that are not fresh, in `Spaces`.
- Kernel threads, exec, ELF loading, the system calls that only read a field or write a character, and the SIO buffers: the character that a read finds is a parameter.
- Message contents: a message is delivered as a value to the receiver's entry in `given`, which stands for its memory; the copy into the receiver's memory, one page at a fixed place, is not modelled.
- `Ext2Files.Context.ReadFile`: needs a file of at most 12 + block size / 4 blocks, all on the disk, and a range whose end does not wrap 32 bits; a straddling access must not run off the disk. `get_inode`, directories and the inode's own place on the disk are taken as given. Block addresses are not cut to 32 bits.
- `Ext2Files.Context.WriteFile`: the path that makes the file grow (`increase_inode_size`) and block allocation.
- Drivers, the desktop, the console, printf conversions, `linkedlist.c` and user programs.
