# A model of the WrmOS kernel core

WrmOS is an L4 microkernel with its own allocators, page tables, scheduler and IPC. This project
models the parts of it whose correctness rests on an argument rather than on a glance at the code,
and proves those arguments. `dafny verify dfyconfig.toml` checks everything.

| files | what they model |
|---|---|
| `BuddySpec`, `BuddyChain`, `BuddyLists`, `Buddy` | `Memory_pool_t`, the buddy allocator with descriptors inside the managed memory |
| `RegionSpec`, `AddressSpace`, `Kmem` | `Address_space_t`, the sorted region list, and the kernel memory pool on top of it |
| `PageTable`, `AddressSpaceTables` | `Ptable`, the radix table of any number of levels, and `Aspace`, which keeps list and table in agreement |
| `NodeList` | `list_t`, two doubly linked chains over one pool of nodes |
| `Queues`, `Threads`, `Ipc` | thread states, scheduler queues, ready bits, timeouts and the IPC rendezvous |
| `Handover` | the memory dialogue between sigma0 and alpha at start-up |
| `DescriptorRing` | the GRETH descriptor rings shared by driver and device |
| `Checksum` | the Internet checksum |
| `Arith`, `Options` | powers of two, alignment, rounding; optional values |

Code that updates state in place is a class with `modifies` clauses; each method is tied to a
function or a predicate on values, and the hard properties are lemmas and invariants about those.

How the main models are built:

- **Buddy allocator.** Memory is a map from addresses to descriptors with explicit links; the ghost
  view is the set of blocks those descriptors describe. `insert_region_after` does not repair the
  back link of the old successor, so back links may be stale. The invariant (`BackLink`, `Reach` in
  `BuddySpec`) says how stale: a back link leads to a live block at a power-of-two distance that
  divides the target's address. That is enough for `combine`, because a stale link never leads to a
  block of the same size. Descriptor fields of a live buffer belong to its owner; `UserWrite` lets the
  owner overwrite everything behind the header.
- **Page tables.** A table is a tree of cells `Inv | Dir | Map`; its meaning is a flat map from
  virtual addresses to entries. Shapes are arbitrary (number of cells and page size per level, frame
  alignment), so the sparc, arm, x86 and x86_64 hierarchies are instances.
- **Threads.** A queue is the value that `NodeList.List` implements: busy nodes in order, free nodes,
  data. Node addresses are the iterators that threads store. Every queue has room for
  `Threads_max` = 128 entries. `Line` is the queue as its threads stand in it, first to last; what the
  operations do to the order of threads is stated about lines.
- **IPC.** Steps of one CPU. A thread whose send phase has blocked carries the parameters of its
  receive phase, and runs it when it is resumed. A message transfer is one step.
- **Where a property fails.** Each failure has its exact condition and a run or an input that shows it.
  - A sender names its destination by number and version, but the send phase finds it by number only,
    while the receive phase compares the whole id: a sender with a stale version waits forever beside a
    willing receiver (`MissedOnlyByVersion`, `StaleVersionRun`), and modifying a live thread can produce
    such a pair (`Modify`, `ModifyRun`).
  - The receive phase looks for pending interrupts only when it is given the id of one, so a handler that
    waits for anything misses an interrupt that is pending (`MissedOnlyByAny`, `AnyMissesInterrupt`).
  - `find_free` skips regions that begin before the space and can return a place inside one of them
    (`Overlooked`, `FindFree`, `OverlookedIsReturned`).
  - `Aspace::unmap` over several regions updates the table only (`Unmap`, `TwoRegionsRun`).
  - The 32-bit sum in `Memory_pool_t::alloc` wraps for sizes near 2^32 (`Alloc`, `WrappingAlloc`).
  - A received frame of length zero makes its descriptor look idle (`CompleteOk`, `ZeroLengthIsStuck`).
  - The 32-bit sum of `inet_checksum` can wrap for messages of more than 65537 words
    (`WrappedChecksum`, `LongMessageFails`); a stored checksum still verifies (`StoredInFirst`).

## Model

| member | source | states |
|---|---|---|
| `BuddySpec.SplitTiles` | lib/containers/memory_pool.h:126-155 | cutting a block keeps the arena tiled by blocks aligned to their own size |
| `BuddySpec.MergeTiles` | lib/containers/memory_pool.h:158-192 | joining two buddies keeps the arena tiled by blocks aligned to their own size |
| `BuddySpec.FreeRangeIsOneBlock` | lib/containers/memory_pool.h:158-192 | without free buddies of equal size, every free aligned range of 2^k bytes lies inside one free block |
| `BuddySpec.BusyDecides` | lib/containers/memory_pool.h:158-192 | two decompositions of one arena without mergeable buddies are equal whenever their busy blocks are: the busy blocks decide where every free block lies |
| `BuddySpec.AllFreeIsUnique` | lib/containers/memory_pool.h:158-192 | two decompositions of one arena into free blocks without mergeable buddies are the same |
| `BuddySpec.GreedyCoalesced` | lib/containers/memory_pool.h:195-205 | taking the largest fitting block at every address leaves no two mergeable buddies |
| `BuddySpec.BackLinkExact` | lib/containers/memory_pool.h:74-79 | the back link of an upper half whose lower half is a live block of the same size leads exactly to it |
| `BuddyChain.SplitChain` | lib/containers/memory_pool.h:126-155 | the link writes of `split` keep the region chain in address order and all back links within reach |
| `BuddyChain.MergeChain` | lib/containers/memory_pool.h:158-180 | the link writes of `combine` keep the chain in order, and no live back link leads to the removed descriptor |
| `BuddyChain.BackLinkIsBuddy` | lib/containers/memory_pool.h:163-165 | a back link that leads to a block of the same size leads to the adjacent lower buddy |
| `BuddyLists.PushOk` | lib/containers/memory_pool.h:95-103 | `add_block` puts a block at the head of its list and leaves all other lists alone |
| `BuddyLists.PullOk` | lib/containers/memory_pool.h:105-117 | `remove_block` takes a block out of its list and leaves all other lists alone |
| `Buddy.CombineChoice` | lib/containers/memory_pool.h:163-165 | whatever block `combine` picks by alignment and link, it passes the test exactly when it is the free adjacent buddy |
| `Buddy.MergeStep` | lib/containers/memory_pool.h:158-192 | one merge keeps chain, size lists and links of the whole pool and writes nothing outside descriptors |
| `Buddy.SplitStep` | lib/containers/memory_pool.h:126-155 | one split keeps chain, size lists and links of the whole pool |
| `Buddy.NoBlockNoRange` | lib/containers/memory_pool.h:323-352 | if no free block is large enough, there is no free aligned range of that size at all |
| `Buddy.SuppliedAgain` | lib/containers/memory_pool.h:142-154 | cutting the upper half again and again changes only one block of the original partition and leaves a free block at its end |
| `Buddy.SuppliedTaken` | lib/containers/memory_pool.h:341-350 | taking the first block of the list uses up a smallest sufficient block, and takes a block of just the right size whole |
| `Buddy.AppendChain` | lib/containers/memory_pool.h:295-317 | a block inserted behind the last one keeps the chain in address order and every back link within reach |
| `Buddy.BehindHeader` | lib/containers/memory_pool.h:25-37 | memory behind the header of a block and before its end meets no header of any block, since the smallest block has room for a header |
| `Buddy.FindMaxBlock` | lib/containers/memory_pool.h:195-205 | the largest block that is aligned and fits, or 0 |
| `Buddy.GetLog2Top` | lib/sys/sys_utils.h:83-104 | the least exponent whose power of two is not below the size |
| `Buddy.AllocFits` | lib/containers/memory_pool.h:355-364 | the block that `alloc` asks for holds header and buffer exactly when the 32-bit sum did not wrap |
| `Buddy.Pool.RemoveRegion` | lib/containers/memory_pool.h:81-93 | unlinks through the stored links |
| `Buddy.Pool.Split` | lib/containers/memory_pool.h:126-155 | makes a block of the wanted size if any larger one is free, at the end of a smallest such block, the first of its list, and cuts no other block; busy blocks and free bytes stay; terminates |
| `Buddy.Pool.Combine` | lib/containers/memory_pool.h:158-192 | merges until no free buddies are left; busy blocks and free bytes stay; terminates |
| `Buddy.Pool.Add` | lib/containers/memory_pool.h:277-321 | an empty pool becomes the coalesced decomposition of the rounded arena; -1 exactly if that is empty or passes the end of the address space |
| `Buddy.Pool.AllocBlock` | lib/containers/memory_pool.h:323-352 | one new busy block of the asked size, or 0 only if no free aligned range of that size exists; a free block of just that size is taken whole and nothing is cut; otherwise the block is the end of a smallest larger free block, first of its list, and all other blocks are unchanged |
| `Buddy.Pool.Alloc` | lib/containers/memory_pool.h:355-364 | a new buffer, cut from a smallest sufficient block, large enough exactly when size and header do not wrap in 32 bits; 0 only if no free range of the wrapped size exists |
| `Buddy.WrappingAlloc` | lib/containers/memory_pool.h:355-364 | a run in which a request for nearly 2^32 bytes gets a block of 32 |
| `Buddy.Pool.FreeBlock` | lib/containers/memory_pool.h:366-383 | the block is no longer busy, its size is returned and added to the pool size, the pool is coalesced again |
| `Buddy.Pool.Free` | lib/containers/memory_pool.h:385-390 | null is ignored, any live buffer is given back |
| `Buddy.Pool.UserWrite` | lib/containers/memory_pool.h:25-37 | the owner of a buffer may write anywhere in it: what is written meets no header and the pool stays sound |
| `Buddy.Pool.FreedPoolIsInitial` | lib/containers/memory_pool.h:366-383 | when everything is freed, the pool is exactly the decomposition that `add` produced |
| `Buddy.Pool.FreeUndoesAlloc` | lib/containers/memory_pool.h:355-390 | freeing a buffer gives back exactly the partition from before its allocation, whatever else was allocated |
| `Buddy.Pool.BuffersDisjoint` | lib/containers/memory_pool.h:355-364 | live buffers lie in the arena and do not overlap |
| `RegionSpec.AddAt` | krn/kmem.h:86-138 | the private `add` gives exactly the range its type, in both modes |
| `RegionSpec.AddCoarsest` | krn/kmem.h:102-137 | in Combine mode no two neighbours remain that could be one region |
| `RegionSpec.RemoveAt` | krn/kmem.h:142-172 | the private `remove` clears exactly the range |
| `RegionSpec.RemoveCoarsest` | krn/kmem.h:142-172 | `remove` keeps the coarsest form |
| `AddressSpace.UniformIsInside` | krn/kmem.h:285-300 | in coarsest form, a range lies in one region exactly when it has one uniform type |
| `AddressSpace.SkippedDoNotMatter` | krn/kmem.h:226-229 | the answer is the first fit among all regions if and only if no region before the space is overlooked |
| `AddressSpace.OverlookedIsReturned` | krn/kmem.h:226-252 | with an overlooked region, the answer is a place inside that region |
| `AddressSpace.NoStraddle` | krn/kmem.h:226-229 | without a region across the start of the space none is overlooked |
| `AddressSpace.FreeUndoesAdd` | krn/kmem.h:256-308 | clearing what `add` has entered gives every address its old type |
| `AddressSpace.AddIsInside` | krn/kmem.h:285-300 | what `add` has entered lies in one region, so `free` finds it |
| `AddressSpace.AllocThenFree` | krn/kmem.h:256-308 | after `alloc` and `free` every address has its old type |
| `AddressSpace.Space.AddBefore` | krn/kmem.h:86-138 | the list is the specified splice for every case of neighbours |
| `AddressSpace.Space.RemovePiece` | krn/kmem.h:142-172 | the list is the specified splice, and the returned position follows the gap |
| `AddressSpace.Space.SetType` | krn/kmem.h:319-338 | exactly the range changes its type |
| `AddressSpace.Space.Add` | krn/kmem.h:179-193 | exactly the range gets the type; order and coarsest form are kept; in NotCombine mode the range is a region of its own |
| `AddressSpace.Space.Insert` | krn/kmem.h:197-220 | exactly the range gets the result type: the new one, or joined with that of the region around it; in NotCombine mode it is a region of its own |
| `AddressSpace.Space.Find` | krn/kmem.h:268-282 | the region that starts at the address, if there is one |
| `AddressSpace.Space.FindRange` | krn/kmem.h:285-300 | the region that holds the whole range, if there is one |
| `AddressSpace.Space.Free` | krn/kmem.h:303-308 | clears a range inside one region, does nothing otherwise |
| `AddressSpace.Space.FindFree` | krn/kmem.h:223-253 | the lowest aligned free place in the space, 0 only if there is none, if and only if no region before the space is overlooked |
| `AddressSpace.Space.Alloc` | krn/kmem.h:256-265 | first fit, entered in the list |
| `Kmem.AllocKeeps` | krn/kmem.h:904-931 | an allocation keeps Free and Busy regions a gapless tiling and adds exactly one Busy region |
| `Kmem.FreeKeeps` | krn/kmem.h:935-943 | a release keeps the tiling, merges Free neighbours and removes exactly one Busy region |
| `Kmem.FreedIsOneRegion` | krn/kmem.h:935-943 | with no allocation left the pool is one Free region |
| `Kmem.Kmem.Alloc` | krn/kmem.h:904-931 | the lowest aligned place in a Free region; 0, the panic of the source, exactly if there is none |
| `Kmem.Kmem.FreeMem` | krn/kmem.h:935-943 | the allocation is gone and its size is back in `pool_sz` |
| `PageTable.MapCell` | krn/ptable.h:202-247 | one cell: a whole page exactly if the range covers it, else the part of the range in the child table, created when missing; never below the leaf level |
| `PageTable.LargestGoesOn` | krn/ptable.h:202-247 | each turn of the loop leaves whole cells as pages and splits a cell only where the range ends in it |
| `PageTable.MapRange` | krn/ptable.h:183-251 | exactly the addresses of the range change, to `paddr + (va - vaddr)` with the given attributes, and at every level with the largest pages that fit |
| `PageTable.UnmapRange` | krn/ptable.h:256-299 | exactly the pages of the range are gone, at all levels |
| `PageTable.FlexpageIsNatural` | krn/ptable.h:256-299 | on power-of-two levels every naturally aligned flexpage is a range that `unmap` handles |
| `PageTable.WalkRange` | krn/ptable.h:305-355 | non-zero exactly if the range is not empty and every page is mapped, then the translation of its start |
| `AddressSpaceTables.Aspace.Map` | krn/kmem.h:733-752 | list and table change on exactly the range and still agree; every address has the rights asked for, those it had before and, for write access on sparc, read, and no others |
| `AddressSpaceTables.RightsEverywhere` | krn/kmem.h:745-751 | the exact rights in the list and in the table, address by address |
| `AddressSpaceTables.RightsGrow` | krn/kmem.h:357 | mapping never takes a right away |
| `AddressSpaceTables.Aspace.Unmap` | krn/kmem.h:755-766 | the table loses exactly the range; list and table still agree if and only if the range lies in one region or outside all |
| `AddressSpaceTables.UnmapIncoherent` | krn/kmem.h:303-308 | a range that meets regions without lying in one leaves pages in the list that the table has lost |
| `AddressSpaceTables.TwoRegionsRun` | krn/kmem.h:755-766 | a run in which one call unmaps two regions and list and table part |
| `AddressSpaceTables.Aspace.Walk` | krn/kmem.h:768-779 | non-zero exactly if every page of the range is in the region list |
| `AddressSpaceTables.Aspace.IsInsideAcc` | krn/kmem.h:781-795 | true exactly if the flexpage has one type throughout and that type allows the access |
| `AddressSpaceTables.Aspace.Cached` | krn/kmem.h:797-811 | the cache attribute, -1 if the flexpage has no single type, -2 if the access is not allowed |
| `NodeList.InsertedOk` | lib/containers/list.h:444-473 | an insertion puts the value at its place and keeps all nodes distinct |
| `NodeList.ErasedOk` | lib/containers/list.h:494-508 | an erasure removes one value and keeps all nodes distinct |
| `NodeList.NodesConserved` | lib/containers/list.h:429-508 | busy and free chain together always hold the same nodes |
| `NodeList.IdentityKept` | lib/containers/list.h:494-508 | every other node keeps its identity and its data |
| `NodeList.InsertSortSorted` | lib/containers/list.h:476-492 | sorted insertion keeps a sorted list sorted |
| `NodeList.List.CheckForAlloc` | lib/containers/list.h:223-235 | a list without free nodes cuts the allocator's memory into nodes |
| `NodeList.UnlinkOk` | lib/containers/list.h:105-124 | the pointer writes of `Xlist::remove` take one node out of a well-formed chain |
| `NodeList.LinkNextOk` | lib/containers/list.h:140-149 | the pointer writes of `Xlist::add` after a node keep the chain well-formed |
| `NodeList.LinkPrevOk` | lib/containers/list.h:151-160 | the pointer writes of `Xlist::add` before a node keep the chain well-formed |
| `NodeList.List.PushBack` | lib/containers/list.h:429-442 | implements the sequence operation on both chains |
| `NodeList.List.InsertBefore` | lib/containers/list.h:444-459 | implements the sequence operation and returns the new node |
| `NodeList.List.InsertAfter` | lib/containers/list.h:461-474 | implements the sequence operation and returns the new node |
| `NodeList.List.FindPos` | lib/containers/list.h:170-183 | the first node whose value is not less |
| `NodeList.List.InsertSort` | lib/containers/list.h:476-492 | inserts before the first value that is not less |
| `NodeList.List.Erase` | lib/containers/list.h:494-508 | implements the sequence operation and returns the following node |
| `NodeList.List.Clear` | lib/containers/list.h:511-520 | all nodes go to the front of the free chain, in reverse order |
| `NodeList.List.AddMem` | lib/containers/list.h:196-221 | every whole node of the memory goes to the end of the free chain, in address order |
| `Queues.OncePerThread` | krn/thread.h:556-602 | a thread is in one queue only, and there only once |
| `Queues.LineMembers` | krn/thread.h:556-602 | the line of a queue holds exactly the threads that belong there, each once |
| `Queues.MovedOk` | krn/thread.h:556-602 | leaving one queue and entering another keeps every thread in the queue fixed by its state, deadline and priority, with its own iterator |
| `Queues.MovedLine` | krn/thread.h:556-602 | seen from every queue: the thread leaves its line, joins the new one at the end or where its deadline puts it, and all others keep their order |
| `Queues.EnteredLine` | krn/threads.h:401-503 | a thread enters a ready queue and the send queue at the end, and a waiting list before the first thread with a later deadline, or an equal one and lower priority |
| `Queues.Room` | krn/thread.h:23 | a queue always has a free node for a thread that is in no queue |
| `Queues.RotatedContents` | krn/threads.h:427-443 | a rotation moves one entry to the end of its queue and permutes nothing else |
| `Queues.RotatedOk` | krn/threads.h:427-443 | a rotation keeps the partition and touches no other queue |
| `Queues.RotatedLine` | krn/threads.h:427-443 | in the line of its queue the thread goes from its place to the end; the others keep their order, and other queues are as before |
| `Queues.FullQueue` | krn/threads.h:435-441 | a ready queue lacks a free node if and only if all threads are Ready at its priority |
| `Queues.InsertedOrdered` | krn/threads.h:489-503 | a waiting list stays in order of deadlines, although priorities may have changed since |
| `Queues.SetBitAt` | krn/threads.h:407-408 | setting a ready bit sets that bit and no other |
| `Queues.ClearBitAt` | krn/threads.h:418-422 | clearing a ready bit clears that bit and no other |
| `Threads.BitMeans` | krn/threads.h:449-457 | a ready bit is set exactly if a thread is Ready at that priority |
| `Threads.Threads.AddReady` | krn/threads.h:401-410 | the thread comes last in the line of its priority, and the bit is set |
| `Threads.Threads.DelReady` | krn/threads.h:412-424 | the thread has left its queue, and the bit is cleared if the queue is empty |
| `Threads.Threads.AddWaiting` | krn/threads.h:489-503 | the thread stands before the first one with a later deadline, or an equal one and lower priority; the others keep their order |
| `Threads.Threads.State` | krn/thread.h:556-602 | the thread changes state and queue, in every queue the others keep their order, no other thread changes; a thread that becomes Ready has a full timeslice, no deadline and no partner |
| `Threads.Threads.Prio` | krn/thread.h:336-348 | a Ready thread goes to the end of the line of its new priority, any other stays where it is; the partition is kept |
| `Threads.Threads.SaveSndPhase` | krn/thread.h:400-408 | destination and queue of a blocking sender; a timeout scan finds it due exactly when its time is over, never without a limit |
| `Threads.Threads.SaveRcvPhase` | krn/thread.h:390-398 | from-specifier and queue of a blocking receiver; a timeout scan finds it due exactly when its time is over, never without a limit |
| `Threads.Threads.Create` | krn/threads.h:187-202 | an idle slot becomes an inactive thread, the partition is kept |
| `Threads.Threads.Remove` | krn/threads.h:205-211 | in whatever state, the thread leaves its queue |
| `Threads.Threads.TimesliceExpired` | krn/threads.h:427-443 | a new timeslice; from place `i` of its line the thread goes to the end, `c[..i] + c[i + 1..] + [t]`, and all other queues are as before |
| `Threads.Threads.TopBit` | krn/threads.h:446-457 | the two-level scan finds the highest priority at which a thread is Ready |
| `Threads.Threads.HighestReady` | krn/threads.h:446-470 | a Ready thread of maximal priority: the first of its line, or the second if the first had used up its timeslice and goes to the end |
| `Threads.FirstIsEarliest` | krn/threads.h:516-522 | the first of a waiting list has the earliest deadline of all threads that belong there |
| `Threads.Threads.CheckList` | krn/threads.h:513-548 | wakes exactly the threads with deadline <= now, touches no other thread and no other waiting list; answers the first of the list, which had the earliest deadline, and nobody exactly if no thread was due |
| `Threads.Threads.CheckTimeouts` | krn/threads.h:577-588 | the same for both lists; nobody is answered exactly if no thread was due, and of two answers the sender exactly if its priority is higher |
| `Ipc.Find` | krn/threads.h:224-232 | the live thread with that number, whatever its version; none exactly if that slot is idle |
| `Ipc.SenderIsQueued` | krn/threads.h:362-363 | every blocked sender is in one of the two lists that a receiver searches |
| `Ipc.Kernel.FindHighest` | krn/threads.h:317-332 | the first good sender of highest priority in the list, or none if there is none |
| `Ipc.Kernel.FindSender` | krn/threads.h:338-388 | finds a good sender of highest priority whenever any thread is one; among equals the first of its list, and the list with timeouts before the other |
| `Ipc.Kernel.Fault` | krn/ipc.cpp:439-506 | the message is taken at once by a receiving handler, otherwise the thread blocks sending; nobody is lost |
| `Ipc.Kernel.SendNormal` | krn/ipc.cpp:707-773 | a willing receiver goes on at once, else the sender fails or blocks; nobody is lost |
| `Ipc.Kernel.SendPhase` | krn/ipc.cpp:526-775 | the outcome of every branch of the send phase; nobody is lost |
| `Ipc.Kernel.Reenable` | krn/ipc.cpp:529-559 | only the handler may re-enable, and a pending interrupt is remembered |
| `Ipc.Kernel.Signal` | krn/ipc.cpp:690-706 | a software interrupt wakes a thread that waits for one or is remembered |
| `Ipc.Kernel.ReceiveNormal` | krn/ipc.cpp:829-907 | a good sender is served if there is one, else the receiver fails or blocks; nobody is lost |
| `Ipc.Kernel.ReceivePhase` | krn/ipc.cpp:778-909 | the outcome of every branch of the receive phase; nobody is lost |
| `Ipc.Kernel.DoIpc` | krn/ipc.cpp:508-927 | the outcomes of both phases in sequence, the second one only if the first did not block or fail; nobody is lost |
| `Ipc.Kernel.Irq` | krn/kentry.cpp:202-249 | wakes a handler that awaits the interrupt, else the interrupt is remembered |
| `Ipc.Kernel.Tick` | krn/kentry.cpp:40 | the timeout scan loses nobody and answers the thread to prefer, as for `CheckTimeouts` |
| `Ipc.Kernel.TimerTick` | krn/kentry.cpp:40-49 | the switch to a timed-out thread exactly if its priority is above that of the running one, else to the first of the line once a used-up thread has gone to its end, else none; nobody is lost |
| `Ipc.Kernel.Schedule` | krn/sched.h:34-38 | the Ready thread of maximal priority whose turn it is; nobody is lost |
| `Ipc.Kernel.Execute` | krn/ipc.cpp:508-927 | each step has the outcome of its operation, and changes nothing exactly if the kernel is in no state for it; soundness is kept |
| `Ipc.Kernel.Run` | krn/ipc.cpp:508-927 | in every run of IPC, resumption, fault, interrupt, timeout, scheduling, creation, removal and priority steps, each state follows from the one before by the outcome of its step, and in every state no thread is blocked sending to a receiver that is blocked and would take its message, and no handler waits by name for an interrupt that is pending |
| `Ipc.ReceiverFirst` | krn/ipc.cpp:707-907 | when the receiver waits and then the sender sends, both go on if the receiver waits for anybody, for its own address space with the sender in it, or for the sender; otherwise both wait |
| `Ipc.SenderFirst` | krn/ipc.cpp:707-907 | the other order has the same outcome |
| `Ipc.Served` | krn/ipc.cpp:857-887 | a served sender goes on, or waits for just the reply that ends its kind of fault |
| `Ipc.Kernel.Modify` | krn/syscalls.cpp:257-310 | changing version and address space of a live thread keeps that exactly if the new identity meets no waiting partner and no pending interrupt; always if the thread is in no IPC |
| `Ipc.ModifyStep` | krn/syscalls.cpp:286-302 | the same on thread tables, in both directions |
| `Ipc.MissedOnlyByVersion` | krn/threads.h:224-232 | a blocked sender whose destination, found by number, would take its message has used a version the destination does not have |
| `Ipc.StaleVersionRun` | krn/threads.h:280-282 | a run after which a sender and a receiver that would serve each other wait forever because of a stale version |
| `Ipc.ModifyRun` | krn/syscalls.cpp:286 | giving the receiver the version that the sender used leaves both waiting with matching ids |
| `Ipc.MissedOnlyByAny` | krn/ipc.cpp:805-826 | a pending interrupt whose waiting handler would take it is missed only by a handler that waits for anything |
| `Ipc.AnyMissesInterrupt` | krn/ipc.cpp:829-907 | a run after which a handler waits for anything beside its pending interrupt |
| `Handover.CarvedSum` | app/sigma0/main.cpp:288-311 | in all four cases of carving, the list loses exactly the weight of the granted piece |
| `Handover.FitsMeans` | app/sigma0/main.cpp:277-286 | the computed place is the lowest aligned one in the region, and the test fails exactly if there is none |
| `Handover.CarvedNoRoom` | app/sigma0/main.cpp:288-311 | carving makes no room for a larger flexpage |
| `Handover.GrantMeaning` | app/sigma0/main.cpp:277-313 | a grant is aligned to its size, and address by address it moves from the list to the grant |
| `Handover.Sigma0.Request` | app/sigma0/main.cpp:273-317 | the first region with an aligned place is carved, rejection only if no region has one, `conv_mem_size` is the bytes left |
| `Handover.GetMemory` | app/alpha/main.cpp:887-957 | the dialogue terminates, each grant is of the largest size up to 2 GB that any region has room for at that moment, grants and rest are the initial memory address by address, no page is left ungranted, page-aligned memory is handed over completely |
| `Handover.GrantsDisjoint` | app/alpha/main.cpp:887-957 | no two grants overlap |
| `DescriptorRing.FullIsBusy` | lib/greth/greth.c:315-316 | the descriptor at WR is idle exactly when the ring is not full |
| `DescriptorRing.SubmitOk` | lib/greth/greth.c:318-331 | a submission keeps the order WAIT, running, IDLE from RD on |
| `DescriptorRing.FreeOk` | lib/greth/greth.c:388-397 | freeing the oldest buffer keeps the order |
| `DescriptorRing.CompleteOk` | lib/greth/greth.c:404-412 | a completion keeps the order, for received frames exactly if their length is not zero |
| `DescriptorRing.ZeroLengthIsStuck` | lib/greth/greth.c:516-517 | a received frame of length zero, at whatever position: the frames before it can be freed, then every call to free it fails |
| `DescriptorRing.Ring.Init` | lib/greth/greth.c:142-174 | a table of 1 to 128 descriptors becomes an empty ring, other sizes are refused |
| `DescriptorRing.Ring.Transmit` | lib/greth/greth.c:292-340 | every error code, busy exactly if the ring is full, else the buffer is submitted |
| `DescriptorRing.Ring.Receive` | lib/greth/greth.c:423-466 | every error code, busy exactly if the ring is full, else the buffer is submitted |
| `DescriptorRing.Ring.ReadStatus` | lib/greth/greth.c:343-374 | the oldest buffer not yet freed and what the device reported about it |
| `DescriptorRing.Ring.FreeOldest` | lib/greth/greth.c:378-398 | buffers come back in submission order, failure exactly if none is done |
| `DescriptorRing.Ring.DeviceStep` | lib/greth/greth.c:318-331 | the device completes the submitted buffers in order, following the wrap bit |
| `Checksum.Folded` | app/tcpip/helpers.h:109-111 | folding terminates, keeps the sum modulo 65535, and gives zero only for zero |
| `Checksum.OddIsPadded` | app/tcpip/helpers.h:94-106 | an odd last byte counts as if a zero byte followed it |
| `Checksum.SelfCheck` | app/tcpip/helpers.h:84-115 | adding the checksum to the sum makes the checksum zero |
| `Checksum.StoreField` | app/tcpip/helpers.h:90-96 | storing a value in a zeroed aligned field adds it to the sum |
| `Checksum.StoredInFirst` | app/tcpip/helpers.h:84-115 | with the checksum stored in an aligned field of the first buffer, recomputation gives zero, for messages of every length, odd or wrapping |
| `Checksum.StoredInSecond` | app/tcpip/helpers.h:84-115 | the same for the second buffer |
| `Checksum.InetChecksum` | app/tcpip/helpers.h:86-115 | the checksum of any message with the sum taken in 32 bits; of at most 65537 words, the complement of the folded sum |
| `Checksum.WrappedChecksum` | app/tcpip/helpers.h:88-111 | the 32-bit sum gives the checksum of the true sum if and only if it has wrapped a multiple of 65535 times and not to zero |
| `Checksum.LongMessageFails` | app/tcpip/helpers.h:88-92 | messages of 65538 to 131074 words of ones get a wrong checksum |

## Left out

- Buddy.Pool.Add: only on an empty pool, because `combine` does not test adjacency of separate chunks; buffers that begin in the last 31 bytes of the address space are excluded, because rounding their start wraps to address 0.
- PageTable.UnmapRange: only for naturally aligned ranges that no larger page contains; on other ranges the loop skips or removes neighbouring pages.
- PageTable.WalkRange: only for ranges with no page at physical address 0, which `Aspace::map` refuses to map.
- AddressSpaceTables.Aspace.Unmap: only for naturally aligned ranges that no larger page contains, as for the table.
- AddressSpace.Space.Alloc: an overlooked region is excluded, because `add` then fails its assertion.
- The 64-bit descriptor layout of `Memory_pool_t`, whose header does not fit the smallest block.
- Wrap-around of addresses at 2^32 in `Address_space_t` and `Ptable`; ranges are taken to end inside the address space. `round_up` is taken at its meaning, the least multiple, which the macro computes for powers of two.
- Capacities of region lists (512, 1024 and 16 entries, panic when full). The capacity of scheduler queues is modelled.
- `Ptable` in memory: tables are values, so aliasing of kernel tables between address spaces, the cost of creating tables and their release are not captured; `kmap` and `kunmap` are not modelled. `acc2mmuacc` is an arbitrary function.
- Conditions that the source checks with `wassert` or answers with `panic` are preconditions: over-mapping a directory, unmapping a part of a larger page, a node pool that is exhausted and has no allocator, no ready thread.
- Priority inheritance: `state()` withdraws the inherited entry in the transition that prepared it.
- Propagated messages, local ids and the outputs `propagated` and `use_local_id`.
- Page faults inside a message transfer, typed items and copying of messages; a reply to a page fault is one step.
- Secondary order of waiting lists by priority: `prio()` does not reposition waiting threads.
- The roottask page-fault branch of sigma0 and its IO requests, which only look up regions.
- Null and misaligned descriptor tables in `greth_init`, cache maintenance and interrupt status of the GRETH driver.
- Timeslice accounting, floating-point context and the switch to another kernel stack.
- Bootstrap, entry code, MMU bit encodings, device drivers, console, shell, logging, ELF loader, configuration parser, TCP and UDP state handling.
