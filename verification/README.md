# x64HK: memory, scheduling and synchronisation, in Dafny

x64HK is a small kernel for several x86-64 cores. This project models its memory managers and its
synchronisation core and proves what the rest of the kernel relies on.

- **Buddy heap.** `Heap` is the allocator over a byte array with headers inside the region and one free
  list per order. `Tiling` says which arrangements of blocks are possible, `HeapMemory` what the bytes have
  to say about them, `HeapSteps` what each step of the code does to both. `Powers` is the arithmetic of
  sizes and buddies.
- **Frames, page tables, stacks.** `Frames` is the bitmap allocator with its boot-time placement, `Paging`
  the four-level tables built on it. `PageTables` shows that the tables are a tree and what rewriting one
  entry does to every walk; `PageRights` what the processor grants on a walk. `BootMap` is the address space
  built at boot, `Stacks` places kernel and user stacks with guard pages. `Bitmap` is the bit arithmetic.
- **Guard.** The prologue/epilogue protocol and the ticket lock as steps of all cores, freely interleaved;
  `GuardInterrupts` is about the interrupt flag and the threads that pass through.
- **Threads.** `Threads` has the scheduler and the semaphore as classes. `Runs` is the state machine of
  whole runs, whose steps do what the methods of these classes promise (`Appends.StepIsCall`).
  `ThreadPlaces`, `ReadyOrder`, `GateOrder`, `Appends`, `WakeUps` and `KeyTokens` prove properties of every run.
- **Bells, queues, buffers, numbers.** `Bellringer` is timed sleep on delta-encoded bells, `Queue` the
  intrusive list, `RingBuffer` the single-producer single-consumer buffer, `OutputStream` the printing of
  integers.

Code that changes state is modelled by classes with the source's fields and loops. Protocols in which
several cores take part are state machines: a state, the steps that are enabled in it, and theorems about
every state that any sequence of steps can reach.

`dafny verify dfyconfig.toml` checks everything.

Words are natural numbers with their bits taken one at a time, and 64-bit wrap-around is written out where
the code can meet it (the heap's request size, the loop of Map, the printed magnitude, the tickets).

## Model

| member | source | states |
|---|---|---|
| `Tiling.TiledExactly` | Kernel/Memory/Heap.cpp:88-193 | In a tiled region every byte belongs to one and only one block |
| `Tiling.BuddyFacts` | Kernel/Memory/Heap.cpp:174-178 | The address Free computes by exclusive or is the other half of the pair, inside the heap, and gives the block back when applied twice |
| `Tiling.BuddyIsBlock` | Kernel/Memory/Heap.cpp:174-186 | What Free probes is always the start of a real block, never payload, and never of a larger block |
| `Tiling.SplitTiled` | Kernel/Memory/Heap.cpp:139-144 | Splitting keeps the region exactly tiled by aligned powers of two |
| `Tiling.MergeTiled` | Kernel/Memory/Heap.cpp:186-190 | Merging a pair keeps the region exactly tiled |
| `Tiling.SplitCoalesced` | Kernel/Memory/Heap.cpp:139-144 | Splitting never leaves two free buddies of one size |
| `Tiling.ReleaseCoalesced` | Kernel/Memory/Heap.cpp:181-192 | Releasing a block whose buddy is not free of the same size leaves no two free buddies |
| `Tiling.AllFreeIsWhole` | Kernel/Memory/Heap.cpp:174-192 | If no two free buddies remain and every block is free, the heap is one block of the largest order |
| `Tiling.UsedPlusFree` | Kernel/Memory/Heap.cpp:139-192 | From any block on, used and free bytes add up to the rest of the heap |
| `Tiling.SplitBytes` | Kernel/Memory/Heap.cpp:139-150 | What a split takes out of the bytes in use is exactly the half put back |
| `Tiling.MergeBytes` | Kernel/Memory/Heap.cpp:172-190 | Merging a block in use with its free buddy adds exactly the buddy's size to the bytes in use |
| `HeapMemory.DecodeEncode` | Kernel/Memory/Heap.cpp:64-70 | A header written to memory reads back unchanged |
| `HeapMemory.HeaderLayout` | Kernel/Memory/Heap.cpp:27-34 | Which of the sixteen bytes of a header hold which field, lowest byte first |
| `HeapMemory.HeaderElsewhere` | Kernel/Memory/Heap.cpp:64-70 | Writing a header changes no header that does not overlap it |
| `HeapMemory.PushRepresents` | Kernel/Memory/Heap.cpp:64-70 | Pushing a block keeps memory and free lists true to the blocks: each free block on exactly its own order's list, once |
| `HeapMemory.RemoveRepresents` | Kernel/Memory/Heap.cpp:74-86 | Unlinking a block anywhere on its list keeps memory and lists true to the blocks |
| `HeapMemory.SplitRepresents` | Kernel/Memory/Heap.cpp:139-144 | The block structure after a split is the one the bytes show |
| `HeapMemory.MergeRepresents` | Kernel/Memory/Heap.cpp:184-190 | Two blocks in use are one larger block without any byte changing |
| `HeapSteps.ProbeStep` | Kernel/Memory/Heap.cpp:178-183 | The three header tests of Free succeed exactly when the buddy is a free block of the same order |
| `HeapSteps.NothingLargeEnough` | Kernel/Memory/Heap.cpp:127-134 | All lists from the wanted order up are empty only if no free block is large enough |
| `Heap.Heap.constructor` | Kernel/Memory/Heap.cpp:88-105 | A heap of one free block of the largest order, nothing in use |
| `Heap.Heap.PushFree` | Kernel/Memory/Heap.cpp:64-70 | Writes one header and one list head and nothing else |
| `Heap.Heap.RemoveFree` | Kernel/Memory/Heap.cpp:74-86 | Finds the block exactly when it is free with that order, unlinks it alone and keeps every live payload |
| `Heap.Heap.OrderFor` | Kernel/Memory/Heap.cpp:56-62 | The least order whose block holds the bytes, capped at the largest |
| `Heap.Heap.FindOrder` | Kernel/Memory/Heap.cpp:127-134 | Runs past the last list if and only if no free block is large enough, and never past a smaller free block that is |
| `Heap.Heap.SplitOnce` | Kernel/Memory/Heap.cpp:139-144 | One halving: the structure stays sound and nothing outside the block is written |
| `Heap.Heap.Allocate` | Kernel/Memory/Heap.cpp:107-153 | Null if and only if the request is empty or no free block is large enough; otherwise a new 16-aligned block of the least order, cut from the smallest free block that is large enough, accounted for, every live payload unchanged, and the payload large enough if and only if size + 16 does not wrap |
| `Heap.WrappedRequest` | Kernel/Memory/Heap.cpp:121-144 | A fresh heap on which a wrapped request succeeds with a block of the least order |
| `Heap.Heap.MergeOnce` | Kernel/Memory/Heap.cpp:178-190 | Merges exactly when the buddy is free with the same order; removing it from its list always succeeds |
| `Heap.Heap.MergeUp` | Kernel/Memory/Heap.cpp:174-190 | Merges until no free buddy of the same order is left; live payloads unchanged |
| `Heap.Heap.Free` | Kernel/Memory/Heap.cpp:155-193 | Removes exactly this block from the live ones, returns exactly its bytes, keeps every other payload; null, and a block that is free already, change nothing |
| `Heap.Heap.Reallocate` | Kernel/Memory/Heap.cpp:195-219 | Each of the cases: allocate, free, stay in place exactly when the order stays the same, fail with the old block untouched exactly when nothing fits, or move with every byte of the old payload below the new size copied and all other payloads unchanged; 64-bit wrap written out |
| `Heap.CopyFits` | Kernel/Memory/Heap.cpp:208-217 | The copy stays inside the new block if and only if size + 16 does not wrap or the old block is of the least order |
| `Heap.Unconfined` | Kernel/Memory/Heap.cpp:208-217 | A reachable heap and a wrapped size for which the copy would not stay inside |
| `Heap.Heap.Store` | Kernel/Memory/Heap.cpp:146-153 | A client writing inside its own payload leaves the heap sound and all other payloads alone |
| `Heap.Heap.FreeAll` | Kernel/Memory/Heap.cpp:155-193 | Freeing everything that is live in any order leaves the single block the heap began with |
| `Heap.NothingLiveIsWhole` | Kernel/Memory/Heap.cpp:174-192 | A sound heap with nothing live is one free block with no bytes in use |
| `Heap.PayloadsDisjoint` | Kernel/Memory/Heap.cpp:107-153 | Payloads of different live blocks do not overlap and lie in the heap |
| `Heap.Accounting` | Kernel/Memory/Heap.cpp:150-172 | Bytes in use are the sum of the live blocks, and with the free ones they make the whole heap |
| `Bitmap.IsTakenBit` | Kernel/Memory/Frame.cpp:35-37 | The mask test reads the bit of the frame |
| `Bitmap.TakeBit` | Kernel/Memory/Frame.cpp:39-41 | Taking a frame sets its bit and no other |
| `Bitmap.ReleaseBit` | Kernel/Memory/Frame.cpp:43-45 | Releasing a frame clears its bit and no other |
| `Bitmap.TakeWord` | Kernel/Memory/Frame.cpp:39-41 | Taking a frame keeps every word of the bitmap within 64 bits |
| `Bitmap.ReleaseWord` | Kernel/Memory/Frame.cpp:43-45 | Releasing a frame keeps every word of the bitmap within 64 bits |
| `Frames.OverlapsMeans` | Kernel/Memory/Frame.cpp:101-103 | Ranges that are not empty overlap if and only if some address lies in both |
| `Frames.IsBlocked` | Kernel/Memory/Frame.cpp:105-128 | True if and only if the range overlaps an obstacle, and then where to try again without missing a fit |
| `Frames.FirstFit` | Kernel/Memory/Frame.cpp:130-142 | The lowest page-aligned place in the range that touches no obstacle, or 0 exactly when there is none |
| `Frames.ChooseBitmapLocation` | Kernel/Memory/Frame.cpp:144-164 | The lowest page-aligned place of the first available region that has one between 1 MiB and 4 GiB, clear of everything known; 0 exactly when no region has one |
| `Frames.HighestAvailableAddress` | Kernel/Memory/Frame.cpp:88-99 | The largest end of an available region |
| `Frames.FrameAllocator.Take` | Kernel/Memory/Frame.cpp:39-41 | Marks one frame |
| `Frames.FrameAllocator.Release` | Kernel/Memory/Frame.cpp:43-45 | Clears one frame |
| `Frames.FrameAllocator.Add` | Kernel/Memory/Frame.cpp:48-59 | Frees exactly the frames that lie wholly in the range, counting each once |
| `Frames.FrameAllocator.Reserve` | Kernel/Memory/Frame.cpp:62-76 | Takes exactly the frames the range touches, counting each once |
| `Frames.FrameAllocator.AddAvailableMemory` | Kernel/Memory/Frame.cpp:166-173 | Frees exactly the frames inside some available region |
| `Frames.FrameAllocator.ReserveKnownUsers` | Kernel/Memory/Frame.cpp:175-192 | Takes exactly the frames that low memory, kernel, loader data or modules touch |
| `Frames.FrameAllocator.Initialize` | Kernel/Memory/Frame.cpp:194-220 | Fails if and only if no region has a place for the bitmap, whose size is the least that reaches the end of RAM, or no frame is left to hand out; otherwise a frame is free if and only if it lies in available memory and touches none of the known users or the bitmap. The total counts the frames in available memory, the limit is 4 GiB or the end of RAM, and the search starts at frame 0 |
| `Frames.FrameAllocator.FindRun` | Kernel/Memory/Frame.cpp:229-243 | The lowest run of free frames from a start below the limit, or none exactly when there is none |
| `Frames.FrameAllocator.Allocate` | Kernel/Memory/Frame.cpp:245-268 | Fails if and only if no run of that length is free below the limit; otherwise the next-fit run, disjoint from all live ones, with the counter and the bits in step |
| `Frames.FrameAllocator.HandOut` | Kernel/Memory/Frame.cpp:261-267 | Takes the run, moves the next-fit mark behind it and keeps the counter equal to the clear bits |
| `Frames.FrameAllocator.Free` | Kernel/Memory/Frame.cpp:270-287 | Clears exactly the run's bits and adds exactly its length to the counter |
| `Frames.FrameAllocator.SetReachableLimit` | Kernel/Memory/Frame.cpp:222-227 | Moves the limit, never past the last frame |
| `PageTables.UniqueParent` | Kernel/Memory/Paging.cpp:76-102 | No two entries lead to the same table: the tables are a tree |
| `PageTables.WalkPlace` | Kernel/Memory/Paging.cpp:76-102 | A walk for a page arrives at the table responsible for that page |
| `PageTables.RewriteWalk` | Kernel/Memory/Paging.cpp:96-98 | Rewriting one entry without changing its target leaves every walk as it was |
| `PageTables.LinkWalk` | Kernel/Memory/Paging.cpp:82-90 | Hooking in an empty table changes only walks that come through that entry |
| `PageTables.RewriteTree` | Kernel/Memory/Paging.cpp:96-98 | The tables remain a tree when an entry is rewritten |
| `PageTables.LinkTree` | Kernel/Memory/Paging.cpp:82-90 | The tables remain a tree when a table is hooked in |
| `PageRights.EffectiveIsAsked` | Kernel/Memory/Paging.cpp:126-148 | What the processor grants on the whole walk is exactly what the leaf asks for |
| `PageRights.LinkStep` | Kernel/Memory/Paging.cpp:82-90 | Adding a table changes no leaf and no right |
| `PageRights.FlagStep` | Kernel/Memory/Paging.cpp:92-98 | Opening a table to user code changes no leaf, hence no other address's rights |
| `PageRights.LeafStep` | Kernel/Memory/Paging.cpp:163-169 | Writing a leaf changes that page and no other |
| `Paging.FlagsForBits` | Kernel/Memory/Paging.cpp:104-121 | Bit for bit which flags a request gets |
| `Paging.IndexAtIsIndex` | Kernel/Memory/Paging.cpp:56-58 | The shift and mask select the nine bits of the page number for that level |
| `Paging.CanonicalPages` | Kernel/Memory/Paging.cpp:56-58 | Canonical addresses that select the same entries lie on the same page |
| `Paging.PageMap.constructor` | Kernel/Memory/Paging.cpp:279-282 | A tree of one empty table that maps nothing |
| `Paging.PageMap.AllocateTable` | Kernel/Memory/Paging.cpp:65-73 | A zeroed table in a frame of its own, or 0 exactly when no frame is free |
| `Paging.PageMap.Descend` | Kernel/Memory/Paging.cpp:76-102 | Reaches the leaf table of the page, adding and opening tables without changing any leaf; 0 only without memory |
| `Paging.PageMap.MapPage` | Kernel/Memory/Paging.cpp:163-169 | One page gets its entry and no other page changes |
| `Paging.PageMap.Map` | Kernel/Memory/Paging.cpp:150-173 | Every page of the range gets the requested frame and flags and no other page changes; the processor then grants exactly the requested frame and rights there and what it granted before elsewhere; without memory this holds of a prefix. A request for the kernel opens no table to user code |
| `Paging.LoopEnds` | Kernel/Memory/Paging.cpp:158-170 | In 64-bit arithmetic the loop ends exactly after the pages of the range if and only if the range ends at least a page below the top of the address space |
| `Paging.LoopRunsOn` | Kernel/Memory/Paging.cpp:158-170 | The last byte of the address space: the loop goes on at page zero instead of ending |
| `Paging.MapGrants` | Kernel/Memory/Paging.cpp:126-173 | After Map the processor grants exactly the requested frame and rights in the range and exactly the old ones elsewhere |
| `Paging.PageMap.EffectiveRights` | Kernel/Memory/Paging.cpp:126-148 | The walk computes the rights and the frame of the flat map, 0 where a level is missing |
| `Paging.PageMap.Translate` | Kernel/Memory/Paging.cpp:175-181 | The frame with the offset within the page, or 0 when unmapped |
| `Paging.PageMap.IsWritableAt` | Kernel/Memory/Paging.cpp:183-185 | True exactly for pages mapped writable |
| `Paging.PageMap.IsExecutableAt` | Kernel/Memory/Paging.cpp:187-190 | True exactly for pages mapped without no-execute; with it available no page is both writable and executable |
| `Paging.PageMap.IsUserReadable` | Kernel/Memory/Paging.cpp:192-194 | True exactly for pages mapped for user code |
| `Paging.UserHalfExactly` | Kernel/User/Task.cpp:63-66 | The wrapping test accepts a range if and only if its end, not wrapped, is within the user half and its start is not in the first page |
| `Paging.PageMap.CopyIn` | Kernel/User/Task.cpp:178-197 | Succeeds if and only if the request is empty, or starts at 0x1000 or above, ends within the user half without wrapping, and every page it touches is readable by user code; then the copy is byte for byte what the processor reads there, otherwise nothing is copied |
| `Stacks.Allocator.constructor` | Kernel/Memory/KernelStack.cpp:14-16 | Both areas empty |
| `Stacks.Allocator.Allocate` | Kernel/Memory/KernelStack.cpp:18-36 | The next slot: its stack pages are mapped for the kernel, each in a frame no other stack has, all guards stay unmapped, and every page outside the slot keeps its frame and rights; fails only when no run of frames for a stack is left |
| `Stacks.Allocator.IsGuardPage` | Kernel/Memory/KernelStack.cpp:38-43 | Within the slots handed out, true exactly for the addresses that are not mapped; all others can be written by the kernel |
| `Stacks.Allocator.AllocateStack` | Kernel/User/Task.cpp:27-51 | On success all pages of the slot are writable by user code, each in a frame no other stack has; even when memory runs out half way guards stay unmapped and every page outside the slot keeps its frame and rights; fails only when no run of frames for a stack is left |
| `Stacks.NoSharedFrame` | Kernel/Memory/KernelStack.cpp:25-33 | Two mapped pages of stacks, kernel or user, never share a frame |
| `BootMap.Initialize` | Kernel/Memory/Paging.cpp:273-302 | After boot every page has what the last request for it asked for, the stack areas are unmapped, all of RAM is reachable and nothing past its end is; fails only when no frame is left |
| `BootMap.MapIdentity` | Kernel/Memory/Paging.cpp:200-208 | Adds one request that maps the range to itself, or none when it is empty |
| `BootMap.MapDeviceRegisters` | Kernel/Memory/Paging.cpp:251-259 | Adds uncached requests for the local controller and, if there is one, the shared one |
| `BootMap.MapDirectMap` | Kernel/Memory/Paging.cpp:212-224 | Adds a request at the offset for every available region, in order, and finds where RAM ends |
| `BootMap.MapKernelImage` | Kernel/Memory/Paging.cpp:228-249 | Adds boot code, text, constants and data last, each with its own access |
| `BootMap.DirectMap` | Kernel/Memory/Paging.cpp:210-224 | Every byte of available RAM is mapped at the constant offset, cached, writable, for the kernel only, and with no-execute not executable |
| `BootMap.LowMap` | Kernel/Memory/Paging.cpp:200-288 | Below 4 GiB exactly low memory, the device registers and the boot code are mapped, each page to itself and for the kernel only; boot code can be run and not written, the rest the other way round, and exactly the device registers bypass the cache |
| `BootMap.ImageRights` | Kernel/Memory/Paging.cpp:226-249 | In the image only text is executable and only data writable, and every byte is cached and at the link offset |
| `BootMap.StacksFree` | Kernel/Memory/Paging.cpp:200-259 | Nothing mapped at boot reaches into the areas for stacks |
| `Guard.LocalKeepsCore` | Kernel/Interrupt/Guard.cpp:26-86 | Every step of a core keeps level flag, masked points, queue and history consistent |
| `Guard.StepKeepsInv` | Kernel/Sync/TicketLock.h:16-23 | Drawing, spinning, unlocking and switching threads keep the line of tickets in order, across 32-bit wrap |
| `Guard.MutualExclusion` | Kernel/Interrupt/Guard.cpp:26-86 | In every reachable state at most one core is between Lock and Unlock |
| `Guard.LevelCoversLock` | Kernel/Interrupt/Guard.cpp:26-86 | A core that holds or awaits the lock has its level flag set and exactly one ticket, whatever thread it runs |
| `Guard.GrantsAreFifo` | Kernel/Sync/TicketLock.h:16-23 | The lock is granted in the order tickets were drawn, and no more draws are outstanding than there are cores |
| `Guard.LockProgress` | Kernel/Sync/TicketLock.h:16-23 | Whenever cores are in line, the first holds the lock or waits with the ticket being served |
| `Guard.NoStrandedEpilogue` | Kernel/Interrupt/Guard.cpp:38-86 | A core off the level and outside a prologue's decision has an empty queue and has started all it ever queued |
| `Guard.StartedInOrder` | Kernel/Interrupt/Guard.cpp:43-57 | What a core has started is a prefix of what it queued: each once, in order |
| `Guard.RelayTakesFreeLevel` | Kernel/Interrupt/Guard.cpp:65-86 | A prologue that finds the level free interrupted code outside the level, with interrupts off |
| `GuardInterrupts.InterruptsStayOn` | Kernel/Interrupt/Guard.cpp:26-86 | Where no other code switches interrupts, they are on in every reachable state outside the level, in the caller of Enter and in every epilogue |
| `GuardInterrupts.EnterPutsBack` | Kernel/Interrupt/Guard.cpp:26-36 | In every run, with interrupts switched at will, Enter goes on with the interrupt state of its caller |
| `GuardInterrupts.LeavePutsBack` | Kernel/Interrupt/Guard.cpp:38-63 | In every run, with interrupts switched at will, Leave returns with the interrupt state it found when it was called, or with interrupts on when it returns from an interrupt |
| `GuardInterrupts.NewThreadLeaves` | Kernel/Thread/Thread.cpp:30-33 | A thread that has never been off the level is somewhere in Leave: the first thing it does is to leave the level it was switched to on |
| `GuardInterrupts.OnePoint` | Kernel/Thread/Dispatcher.cpp:24-36 | In every reachable state a thread, running or switched away from, is at one point |
| `GuardInterrupts.SwitchMovesNobody` | Kernel/Thread/Dispatcher.cpp:24-36 | A context switch leaves every thread at the point where it was |
| `RingBuffer.Buffer.Produce` | Kernel/Lib/RingBuffer.h:20-28 | Refuses exactly when full, else appends to the contents |
| `RingBuffer.Buffer.Consume` | Kernel/Lib/RingBuffer.h:31-38 | Refuses exactly when empty, else takes the first of the contents |
| `RingBuffer.Buffer.Count` | Kernel/Lib/RingBuffer.h:42-46 | The number of values in the buffer |
| `RingBuffer.Interleaved` | Kernel/Lib/RingBuffer.h:20-38 | With loads and stores of one producer and one consumer interleaved in any way, what is consumed is a prefix of what was offered and accepted, every accepted value not yet consumed is still in its slot and not where the producer stores, and one slot always stays free |
| `RingBuffer.RefusedOnlyWhenFull` | Kernel/Lib/RingBuffer.h:20-38 | In any interleaving a value is refused exactly when all but one slot hold values not yet consumed, and nothing is found exactly when everything accepted has been consumed |
| `Queue.Queue.Contains` | Kernel/Lib/Queue.h:28-30 | True for every queued item, and exact if and only if the item is queued here, this queue is empty, or the item has no link |
| `Queue.Mistaken` | Kernel/Lib/Queue.h:28-30 | A queue that takes an item of another queue for its own |
| `Queue.Queue.Append` | Kernel/Lib/Queue.h:33-45 | The list of items grows at the back by exactly this item, or nothing changes |
| `Queue.Queue.Prepend` | Kernel/Lib/Queue.h:48-58 | The list grows at the front by exactly this item, or nothing changes |
| `Queue.Queue.InsertAfter` | Kernel/Lib/Queue.h:61-71 | The item stands directly behind the given one and all others keep their order; behind an item of another queue it goes in there and this queue is unchanged |
| `Queue.Queue.Dequeue` | Kernel/Lib/Queue.h:74-84 | Takes the first item and leaves the rest in order |
| `Queue.Queue.Remove` | Kernel/Lib/Queue.h:87-106 | True if and only if the item is in this queue, even when it hangs in another; takes out that item alone, otherwise changes nothing |
| `Appends.NeverRefused` | Kernel/Lib/Queue.h:28-45 | In every run, every thread appended to the ready queue or a semaphore has no link and is not in that queue, so no append is refused |
| `Appends.StepIsCall` | Kernel/Thread/Scheduler.cpp:51-115 | Every step of a run changes the scheduler's data and the semaphores exactly as the contracts of the methods it stands for say |
| `Threads.FirstLiving` | Kernel/Thread/Scheduler.cpp:41-49 | The first queued thread that is not dying |
| `Threads.Scheduler.constructor` | Kernel/Thread/Scheduler.h:13-15 | Nothing queued, nothing running |
| `Threads.Scheduler.GetNext` | Kernel/Thread/Scheduler.cpp:41-49 | The first thread that is not dying, with everything up to it off the queue, or this core's idle thread |
| `Threads.Scheduler.Schedule` | Kernel/Thread/Scheduler.cpp:51-56 | The core runs the thread picked |
| `Threads.Scheduler.Ready` | Kernel/Thread/Scheduler.cpp:58-79 | The thread is last in the queue unless it was queued already, and the core to poke is the lowest idle one other than the caller, if any |
| `Threads.Scheduler.Resume` | Kernel/Thread/Scheduler.cpp:81-91 | With requeue a living ordinary thread goes to the back; then the core runs the thread picked |
| `Threads.Scheduler.Exit` | Kernel/Thread/Scheduler.cpp:93-95 | The core runs the thread picked and the old one is not queued again |
| `Threads.Scheduler.Kill` | Kernel/Thread/Scheduler.cpp:97-115 | Marked and off the queue; a core is interrupted exactly when the thread was not queued and runs there |
| `Threads.DropAt` | Kernel/Thread/Scheduler.cpp:101-104 | Taking a thread off the queue removes one occurrence and keeps the order of the rest |
| `Threads.Semaphore.P` | Kernel/Sync/Semaphore.cpp:8-21 | Takes a token, or parks the running thread behind the waiters and dispatches; the order is the subject of `GateOrder` |
| `Threads.Semaphore.V` | Kernel/Sync/Semaphore.cpp:23-30 | Makes the first waiter ready, or keeps the token when nobody waits |
| `ThreadPlaces.DispatchHeld` | Kernel/Thread/Dispatcher.cpp:24-36 | A dispatch takes the running thread off the core and loses no living thread |
| `ThreadPlaces.StepPlaces` | Kernel/Thread/Scheduler.cpp:41-119 | No step puts a thread in one more place except its creation, and none loses a thread that neither ends nor is dying |
| `ThreadPlaces.StepHomes` | Kernel/Thread/Scheduler.cpp:81-91 | No step queues an idle thread or runs it on another core |
| `ThreadPlaces.OnePlace` | Kernel/Thread/Thread.h:56-59 | In every state of every run each thread is in at most one place, and a core's idle thread is nowhere but on it |
| `ThreadPlaces.NotLost` | Kernel/Thread/Scheduler.cpp:81-91 | Over any run a thread that is neither killed nor ends stays in exactly one place |
| `ThreadPlaces.DyingLeaves` | Kernel/Thread/Scheduler.cpp:81-91 | A dying thread that is switched away from is in no place afterwards |
| `ThreadPlaces.NeverAgain` | Kernel/Thread/Scheduler.cpp:41-49 | A dying thread that no core runs never runs again, whatever steps follow |
| `ReadyOrder.StepForward` | Kernel/Thread/Scheduler.cpp:41-91 | Nobody overtakes: no step moves a queued thread back, and every dispatch moves it forward |
| `ReadyOrder.BoundedWait` | Kernel/Thread/Scheduler.cpp:41-91 | A thread at position k is out of the queue after at most k+1 dispatches in the system |
| `GateOrder.WaiterForward` | Kernel/Sync/Semaphore.cpp:8-30 | No step moves a waiter back, and a release moves every waiter behind the first forward by one |
| `GateOrder.WaitsInTurn` | Kernel/Sync/Semaphore.cpp:8-30 | Over any run a waiter at position k is at position k - n after n releases, whatever else happens |
| `GateOrder.ReadiedInTurn` | Kernel/Sync/Semaphore.cpp:23-30 | In every run the (k+1)-th release of a semaphore puts the waiter that stood at position k last in the ready queue |
| `GateOrder.TokensConserved` | Kernel/Sync/Semaphore.cpp:8-30 | Over any run, tokens left and threads let through add up to the tokens at first and those released |
| `GateOrder.NoneWaitsInVain` | Kernel/Sync/Semaphore.cpp:8-30 | In every run nobody waits at a semaphore with a token left |
| `WakeUps.StepInv` | Kernel/Thread/Scheduler.cpp:13-91 | Every step, including the idle loop's unguarded look and halt, keeps work attended to and pokes alive |
| `WakeUps.NoStrandedWork` | Kernel/Thread/Scheduler.cpp:13-36 | In every state of every run after boot, queued work means a core runs a thread, or an idle core is awake, or a wake-up is on its way |
| `WakeUps.PokeIsHeard` | Kernel/Thread/Scheduler.cpp:62-78 | After a core has made a thread ready and until one is taken, if another core is idle then some other idle core is awake or has a wake-up coming |
| `KeyTokens.StepBalanced` | Kernel/Interrupt/Epilogue.cpp:9-29 | Every step keeps buffered keys equal to free tokens plus tokens handed out |
| `KeyTokens.KeysAreTokens` | Kernel/Sync/Semaphore.cpp:8-30 | In every run, kills included, keys are free tokens plus tokens handed out, and nobody waits beside a free token |
| `KeyTokens.OnePass` | Kernel/Arch/Syscall.cpp:101-111 | Whoever gets past the semaphore finds a key, so the loop in GetKey never repeats |
| `KeyTokens.StepSafe` | Kernel/Sync/Semaphore.cpp:23-30 | Where all keys serve living threads, a step keeps it so if and only if it does not kill a thread with a key coming and does not hand a key to a dying waiter |
| `KeyTokens.KeysServeLiving` | Kernel/Arch/Syscall.cpp:101-111 | All along a run every key is free or on its way to a living thread, if and only if every step passes that test before it is taken |
| `KeyTokens.DeadWaiterTakesTheKey` | Kernel/Sync/Semaphore.cpp:23-30 | A run that fails the test: a killed waiter takes the token and a reader blocks beside a buffered key |
| `Bellringer.Ticks` | Kernel/Sync/Bellringer.cpp:38-41 | Milliseconds rounded down to ticks, and one tick below ten milliseconds |
| `Bellringer.Bellringer.constructor` | Kernel/Sync/Bellringer.h:14-16 | Nobody asleep |
| `Bellringer.Bellringer.HasPendingBells` | Kernel/Sync/Bellringer.h:28-28 | True exactly when some request has not been served |
| `Bellringer.Bellringer.Check` | Kernel/Sync/Bellringer.cpp:9-25 | One tick: appends exactly the sleepers due at it to the ready queue, in the order they went to sleep, with the pokes that go with it, and moves no other due time |
| `Bellringer.Bellringer.Sleep` | Kernel/Sync/Bellringer.cpp:27-74 | The running thread stands behind all due no later and before all due later, every other due time is unchanged, its core runs the next thread, and core 0 is poked exactly when it idles and nothing was pending |
| `Bellringer.OrderSorted` | Kernel/Sync/Bellringer.cpp:44-51 | The serving order is sorted by due time |
| `Bellringer.OrderStable` | Kernel/Sync/Bellringer.cpp:44-51 | Requests due at one tick are served in the order they were made |
| `Bellringer.Punctual` | Kernel/Sync/Bellringer.cpp:9-74 | After any calls, the threads due by now have been woken, in order, and all others are still asleep |
| `OutputStream.Stream.PutUnsigned` | Kernel/Lib/OutputStream.cpp:62-84 | In any base: the prefix, then the characters of digits below the base that read as the number, with no leading zero; in bases 2, 8, 10 and 16 the text alone gives back both base and number, and a base below 2 prints as 16 |
| `OutputStream.Stream.TopDivisor` | Kernel/Lib/OutputStream.cpp:73-76 | The largest power of the base not above the number; the product never leaves 64 bits |
| `OutputStream.Stream.PutSigned` | Kernel/Lib/OutputStream.cpp:50-60 | A sign and the magnitude in decimal, down to the most negative number; the machine word in other bases |
| `OutputStream.Stream.PutPointer` | Kernel/Lib/OutputStream.cpp:86-92 | Base 16, and the base set before is set again |
| `OutputStream.NotationUnique` | Kernel/Lib/OutputStream.cpp:62-84 | A number has one proper notation, so the digits printed are determined |
| `OutputStream.Legible` | Kernel/Lib/OutputStream.cpp:78-82 | Different digits get different characters if and only if the base is at most 217 |
| `OutputStream.ReadsBack` | Kernel/Lib/OutputStream.cpp:62-84 | In such a base, so in all four the kernel sets, the text printed reads back to the number |
| `OutputStream.PrefixTellsBase` | Kernel/Lib/OutputStream.cpp:65-71 | A reader that takes the base from the prefix gets the number back in bases 2, 8, 10 and 16 |

## Left out

- Heap.Heap.Reallocate: requires that the copy stays inside the new block, which `CopyFits` reduces to a test before the call; what memory holds after a copy that does not is not described.
- Heap.Heap.Allocate: a request whose size + 16 wraps is answered with a block that is too small; the contract says so rather than excluding it.
- Heap.Heap.Free: requires a pointer to the start of a block; what the code does with any other depends on stale bytes.
- Frames.FrameAllocator.Initialize: regions, loader data and modules are lists with sums that do not wrap; parsing what the loader passes is not modelled.
- Frames.FrameAllocator.Free: requires that the frames are live; the code only asserts it.
- Paging.PageMap.Map: requires a range within one canonical half that `LoopEnds` says the loop ends on; beyond it the loop variable wraps and the call does not map the range it was given.
- Paging.PageMap.Translate: 0 stands for unmapped and for physical address 0 alike, as in the code; results about mappings are stated on the entries.
- Stacks.Allocator.Allocate: requires a slot below the kernel image; the code counts on memory running out first. False stands for its panic.
- Stacks.Allocator.AllocateStack: requires a slot above the first four gigabytes, and program segments mapped into the area are not modelled; nor is clearing the frames.
- Threads.Scheduler.Ready: laying out the first stack of a thread is not modelled.
- BootMap.Initialize: RAM ends below the stacks, devices and boot code lie in the first four gigabytes and the image above its link address; the code takes this for granted.
- Threads.Semaphore.V: the counter does not wrap.
- Guard.StartedInOrder: the epilogue queue is taken to have room, as the code asserts.
- ThreadPlaces.OnePlace: a switch of registers and stacks is one atomic change of the thread a core runs.
- WakeUps.NoStrandedWork: no claim about preemption or about how long anything takes; which interrupts arrive, and when the timer is masked, is left open.
- Bellringer.Bellringer.Sleep: bells are a list of values, not linked through the sleepers' stacks.
- Memory ordering: shared accesses are sequentially consistent; the acquire and release annotations are not modelled.
- The spin locks around heap, frames and page tables: each call is one atomic operation.
- Program loading, the checks of program images, and argument checks of system calls other than the copy from user memory.
- Keyboard decoding, text windows, serial output, string helpers.
- Interrupt controllers, timers, descriptor tables, control registers and assembly.
