# Kernel core: memory manager, scheduler, timers, archive reader, number text

A Dafny model of the parts of a small AArch64 teaching kernel that carry state or arithmetic worth
proving something about, and proofs of what those parts guarantee over every input and every run.

| modules | what they model |
|---|---|
| `Bits`, `Seqs` | C's bitwise operators by recursion on binary digits; removal and counting in sequences |
| `Buddy`, `BuddyInvariant`, `BuddyRuns`, `BuddyTheorems` | the buddy page allocator: operations as functions of a state, its invariant, all runs, the guarantees |
| `Slab`, `SlabInvariant`, `SlabRuns`, `KmallocRuns`, `SlabEffects` | object allocators and `kmalloc`/`kfree` over the same page table, call by call |
| `KmallocGrants` | all runs of client calls from `mm_init`, with the addresses and sizes that clients hold |
| `SlabLiteral`, `LiteralRuns` | the same runs with src/mm.c:258 as it stands: one page as a machine, then every page of every run |
| `MemoryManager` | the globals of `src/mm.c` as a class whose methods update arrays in place, proved against `Buddy` and `Slab` |
| `Lists`, `ListTable` | the intrusive lists of `include/list.h` on the heap, refining sequences |
| `ListTraces`, `SlabTraces` | the `list_add_tail` and `list_del` calls of each operation of `src/mm.c`, and the linked lists they maintain over whole runs |
| `Sched`, `SchedTheorems`, `SchedEffects`, `SchedFairness`, `Scheduler` | task table, counter scheduler, preemption count and wait queue as a transition system; the class that runs it in place |
| `Timer`, `TimerTheorems`, `TimerRequests`, `TimerQueue` | many timer events over one hardware timer |
| `NumberText` | `ui2a`, `i2a`, `a2d`, `a2i`, `putchw` |
| `Cpio` | the New ASCII Format archive reader (cpio(5)), with a writer as its partner |
| `ForkMemory`, `ProcessStack` | the allocation in `copy_process`; user stacks across fork and exec, on the kernel's own heap |

The main results:

- **Buddy allocator.** In every state reached from boot the blocks tile the page frames exactly, each
  aligned; the coalescing test never reads a stale page entry; the free lists are *exactly* the maximal
  untaken aligned runs, so they depend on the taken pages alone and not on history; allocation fails
  exactly when no aligned run of the wanted size is free; and allocating and freeing again restores
  every list. The coalescing loop refines an algorithm that consults no page entry at all.
- **Object allocators and kmalloc.** In every run each slab page is in exactly one place, all counters
  are sums over pages, and `kfree` always reaches the issuing layer and page. With the free list popped,
  any two outstanding grants, of any mix of sizes, have different addresses and disjoint ranges; with
  line 258 as it stands they stay so *if and only if* on every page, after the first release, no two
  allocations follow each other. The exact condition under which `kmalloc` would use a null page is given.
- **Linked lists.** In every run each `list_add_tail` meets a page that is linked nowhere and each `list_del`
  a page that is linked in exactly one list, so the doubly linked lists on the heap stand for the
  model's sequences throughout.
- **Scheduler.** The `while (1)` of `_schedule` ends within two passes and picks the lowest-indexed runnable
  task of maximal counter; a runnable task, a new one included, waits for at most 2 * NR_TASKS - 2
  reschedules (plus one per fork), whatever the others do; a time slice ends exactly when as many ticks have
  passed as the counter said; a task woken after a refill is chosen before the next; preemption counts always
  equal the open sections (plus one while switched out); zombies and killed slots stay out; a task waits if
  and only if it has exactly one queue entry.
- **Timers.** With interrupts at the programmed tick no 64-bit subtraction wraps, every event fires exactly
  at its deadline, in order of deadline and then of registration, and none is lost or fires twice; each
  delivery is that of a call of `add_timer`, with its duration.
- **Archive and numbers.** `cpio_get_file` finds the first file of a name in every archive the format can
  express, or returns NULL; `ui2a` writes the unique numeral, and it is read back under exact conditions.

## Where the code departs from its documentation

- src/mm.c:258 advances a local variable and never stores it, although the comment at src/mm.c:303-309
  describes a list that is popped. The step is a parameter `writeBack` of the model: false is the code
  as it stands, true the pop. The bookkeeping invariant holds both ways (`KmallocGrants.EveryRunConsistent`),
  and both ways two grants are the same piece of memory or disjoint (`KmallocGrants.EveryGrantBacked`). That no
  two grants are the same piece is proved for the pop (`KmallocGrants.EveryRunDisjoint`). For the code as it
  stands `LiteralRuns.SameAddressTwice` gives a failing run from `mm_init` for every size up to 2048, and
  `LiteralRuns.NeverClashedIff` the exact condition on the calls.
- src/fork.c:21-24 handles a NULL from kmalloc and would leave `preempt_disable` open, but kmalloc never
  returns NULL for one page: when memory runs out it uses a null page at src/mm.c:430 instead.
  `ForkMemory.CopyProcessMemory` gives the condition.
- src/printf.c:99 tests `digit > base`, so `a2i` reads the letter for the base itself as a digit:
  `NumberText.ReadBackIff`.
- src/cpio.c:17 multiplies before it looks at the character, so a numeral shorter than its field is read as sixteen
  times its value: `Cpio.HexReadBack`.
- The number of page frames is any multiple of 2^MAX_ORDER below 2^31, not only 4096.

## Model

| member | source | states |
|---|---|---|
| `Bits.BuddyInvolution` | include/mm.h:16-16 | the buddy macro maps an aligned block to a different aligned block and back |
| `Bits.LeftBuddy` | include/mm.h:16-17 | on the left half of an enclosing block, flipping the bit moves right and clearing it stays |
| `Bits.RightBuddy` | include/mm.h:16-17 | on the right half both macros move to the start of the enclosing block |
| `BuddyInvariant.BuddyIsHead` | src/mm.c:112-115 | the buddy of any block below MAX_ORDER lies in the page table and heads a block of at most the same order, although interior entries go stale |
| `BuddyInvariant.MergeTestReadsHeads` | src/mm.c:114-115 | the coalescing test holds if and only if the buddy is on the free list of the same order |
| `BuddyInvariant.SplitOnceKeeps` | src/mm.c:71-76 | one cut keeps the exact tiling, the list contents, the record of live blocks and canonical form |
| `BuddyInvariant.TakeKeeps` | src/mm.c:65-67 | unlinking a free block and handing it out keeps the invariant |
| `BuddyInvariant.MergeOnceKeeps` | src/mm.c:120-127 | one merge, with both halves replaced by the joined block, keeps the invariant |
| `BuddyInvariant.ReleaseKeeps` | src/mm.c:134-134 | the final push keeps the invariant, canonical form included, when the coalescing test fails |
| `BuddyRuns.AllocKeeps` | src/mm.c:54-99 | buddy_block_alloc keeps the invariant, returns a block that was not live and records exactly it, or changes nothing |
| `BuddyRuns.FreeKeeps` | src/mm.c:112-134 | buddy_block_free of a live block keeps the invariant and strikes exactly that block off |
| `BuddyRuns.FreeIsByLists` | src/mm.c:112-134 | the free areas afterwards are those of an algorithm that looks at lists only and never at page entries |
| `BuddyRuns.RunsKeepInv` | src/mm.c:46-143 | every run of legal allocations and frees keeps the invariant |
| `BuddyTheorems.LiveBlocksDisjoint` | src/mm.c:61-95 | live blocks are aligned to their size, in range and pairwise disjoint |
| `BuddyTheorems.FreeRunInOneBlock` | src/mm.c:112-134 | in canonical form an aligned run of untaken pages lies inside one free block |
| `BuddyTheorems.FreeListsAreMaximalRuns` | src/mm.c:21-134 | a block is on a free list if and only if it is a maximal aligned run of untaken pages |
| `BuddyTheorems.HistoryIndependent` | src/mm.c:61-134 | two valid states with the same taken pages have the same free blocks and counts |
| `BuddyTheorems.AllocComplete` | src/mm.c:54-99 | allocation returns 0 if and only if the order is invalid or no aligned run of 2^order untaken pages exists |
| `BuddyTheorems.AllocEffect` | src/mm.c:61-93 | success takes the first block of the smallest sufficient order, pushes one upper half per order in between and touches no other list |
| `BuddyTheorems.AllocTakesItsBlock` | src/mm.c:61-93 | the pages of the returned block, all untaken before, become taken; no other page changes status |
| `BuddyTheorems.FreeReturnsItsBlock` | src/mm.c:102-134 | the pages of the freed block become untaken; no other page changes status |
| `BuddyTheorems.AllocFreeRoundTrip` | src/mm.c:46-134 | freeing what was just allocated restores the live blocks, every free list and every count |
| `BuddyTheorems.BootInv` | src/mm.c:11-30 | the state after page_init and free_area_init satisfies the invariant, for any number of maximal blocks |
| `BuddyTheorems.EveryRunTiles` | src/mm.c:11-134 | every state reached from boot is tiled, exactly listed and canonical |
| `BuddyTheorems.RunsAgree` | src/mm.c:46-134 | any two runs from boot that leave the same pages taken leave the same free lists |
| `BuddyTheorems.AllFreedIsBoot` | src/mm.c:21-30 | when everything has been given back the free areas are those of boot |
| `Slab.SizeClass` | src/mm.c:415-426 | the smallest object order that holds the request, or none |
| `Slab.PageOrder` | src/mm.c:428-439 | the smallest page order that holds the request, or none |
| `SlabInvariant.ReusePartial` | src/mm.c:234-237 | a partial page becomes current: placement, list meanings and counters stay right |
| `SlabInvariant.ReuseEmpty` | src/mm.c:238-241 | the same for an empty page |
| `SlabInvariant.AdoptPage` | src/mm.c:242-250 | the same for a page fresh from the buddy allocator, with page_used |
| `SlabInvariant.TakeStays` | src/mm.c:266-270 | one more object on a current page with room left |
| `SlabInvariant.TakeFills` | src/mm.c:266-273 | the current page becomes full and no page is current |
| `SlabInvariant.GiveStays` | src/mm.c:314-325 | one object less on a page that stays where it is |
| `SlabInvariant.FullToPartial` | src/mm.c:314-321 | a full page moves to the partial list, and was not current |
| `SlabInvariant.PartialToEmpty` | src/mm.c:325-343 | a page without objects moves to the empty list |
| `SlabInvariant.PartialToBuddy` | src/mm.c:325-339 | a page handed back leaves all lists and both counters of its allocator |
| `SlabRuns.TakeSlot` | src/mm.c:254-267 | with the list popped, the address offered is a slot of the page that is not live; high-water mark = live objects + free-list length is kept |
| `SlabRuns.PutSlot` | src/mm.c:310-315 | a released object heads the free list and the high-water mark is kept |
| `SlabRuns.FrameToPfn` | include/mm.h:26-27 | PHY_ADDR_TO_PFN maps every address inside a frame to that frame |
| `SlabRuns.ProvideKeeps` | src/mm.c:232-251 | obtaining a current page keeps the invariant |
| `SlabRuns.TakeObjectKeeps` | src/mm.c:253-273 | handing out an object keeps the invariant, stays inside the frame and, with the pop, gives an object that was not live |
| `SlabRuns.ObjFreeKeeps` | src/mm.c:289-344 | releasing a live object keeps the invariant, through the partial, empty and hand-back paths, and removes that object only |
| `KmallocRuns.LivePiecesApart` | src/mm.c:406-460 | two different live pieces, objects or blocks of any sizes, share no byte, with or without the pop |
| `KmallocRuns.HeldOnce` | src/mm.c:253-267 | with the pop nothing is handed out twice |
| `KmallocRuns.PageLinkedOnce` | src/mm.c:236-342 | a page's single list node is in at most one free or slab list |
| `KmallocRuns.ObjAllocateGains` | src/mm.c:217-287 | obj_allocate hands out one object of its allocator's size once more; everything else held keeps its address and length |
| `KmallocRuns.ObjAllocateFaults` | src/mm.c:232-246 | obj_allocate uses a null page if and only if its allocator has no page at hand and no page frame is untaken |
| `KmallocRuns.KmallocGains` | src/mm.c:406-443 | a successful kmalloc hands out one piece of at least the requested size, at the returned address; everything else held keeps its address and length |
| `KmallocRuns.KmallocFaults` | src/mm.c:415-442 | kmalloc returns NULL if and only if the size exceeds 2 MB, and uses a null page exactly under the stated exhaustion |
| `KmallocRuns.KfreeDispatches` | src/mm.c:451-460 | kfree of a live range goes to the layer and page that issued it |
| `KmallocRuns.KfreeLoses` | src/mm.c:445-465 | kfree takes that piece back once, with or without the pop; everything else held keeps its address and length |
| `KmallocRuns.PokeKeeps` | src/mm.c:303-312 | a client's write anywhere into what it holds disturbs no free list |
| `KmallocRuns.RegisterKeeps` | src/mm.c:187-215 | registering another allocator keeps the invariant |
| `KmallocRuns.BootedOk` | src/mm.c:399-471 | mm_init establishes the invariant and the nine kmalloc allocators |
| `SlabEffects.RegisterEffect` | src/mm.c:166-215 | the first free slot gets an empty allocator for the size limited to 8 .. 2048 bytes; a full pool is left alone |
| `SlabEffects.ObjAllocateEffect` | src/mm.c:232-284 | every field after obj_allocate: which page it takes from, the address, the three lists, the current page, both counters |
| `SlabEffects.ObjFreeEffect` | src/mm.c:289-344 | every field after obj_free; the page goes back to the buddy layer exactly when it is empty, not current and the allocator has ten pages or more |
| `SlabEffects.LastOutFirstIn` | src/mm.c:254-315 | on the current page obj_allocate right after obj_free returns the object just released and, with the pop, restores the page |
| `SlabEffects.KmallocSize` | src/mm.c:415-439 | a request gets the least power of two of at least 8 bytes that holds it, as an object up to 2048 bytes and as pages above |
| `KmallocGrants.ServeKeeps` | src/mm.c:187-465 | every legal call keeps the heap consistent and every outstanding grant backed by a piece of its own address and at least its size, counted with multiplicity |
| `KmallocGrants.EveryRunConsistent` | src/mm.c:187-471 | over every run of client calls pages, lists and counters are consistent, with or without the pop |
| `KmallocGrants.EveryGrantBacked` | src/mm.c:187-471 | over every run, with or without the pop, each grant is a live piece of at least the size asked for, and two grants clash if and only if they are the same piece |
| `KmallocGrants.ClashFreeIffHeldOnce` | src/mm.c:406-460 | outstanding grants have different addresses and disjoint ranges if and only if nothing is handed out twice |
| `KmallocGrants.EveryRunDisjoint` | src/mm.c:187-471 | over every run, with the pop, any two outstanding grants have different addresses and disjoint ranges of the sizes asked for |
| `SlabLiteral.FreshIffAlternating` | src/mm.c:254-264 | on one page, the code as it stands keeps live objects distinct if and only if, after the first release, no two allocations follow each other |
| `LiteralRuns.RunAgrees` | src/mm.c:217-344 | in every run with the code as it stands each slab page is in the state of the page machine run on the calls to it since its adoption |
| `LiteralRuns.NeverClashedIff` | src/mm.c:187-471 | with the code as it stands, grants never clash during a run if and only if on every page, after the first release, no two allocations follow each other |
| `LiteralRuns.SameAddressTwice` | src/mm.c:258-258 | allocate, free, allocate, allocate from mm_init, for every size up to 2048: the last two calls return the same address, which is then held twice |
| `MemoryManager.Manager.constructor` | src/mm.c:467-471 | mm_init on zeroed memory leaves the booted state |
| `MemoryManager.Manager.PageInit` | src/mm.c:11-19 | every entry is numbered, free, of order -1 and has its address |
| `MemoryManager.Manager.FreeAreaInit` | src/mm.c:21-30 | the free areas and entries are those of the boot state |
| `MemoryManager.Manager.PushBlock` | src/mm.c:32-38 | new page table and areas after a push |
| `MemoryManager.Manager.PopBlock` | src/mm.c:40-44 | new page table and areas after a pop |
| `MemoryManager.Manager.SplitHalf` | src/mm.c:71-76 | one turn of the splitting loop in place keeps its goal |
| `MemoryManager.Manager.SplitBlock` | src/mm.c:71-82 | the splitting loop in place computes Split |
| `MemoryManager.Manager.BuddyBlockAlloc` | src/mm.c:46-100 | the loops in place compute Alloc and keep the invariant |
| `MemoryManager.Manager.MergeBuddy` | src/mm.c:120-127 | one turn of the coalescing loop in place computes Merge |
| `MemoryManager.Manager.BuddyBlockFree` | src/mm.c:102-134 | the coalescing loop in place terminates, never leaves the table, computes FreeBlock and keeps the invariant |
| `MemoryManager.Manager.InitKmalloc` | src/mm.c:399-404 | the registration loop computes the pool of the booted state |
| `MemoryManager.Manager.RegisterObjAllocator` | src/mm.c:187-215 | the search loop computes Register, or returns -1 on a full pool |
| `MemoryManager.Manager.ObtainPage` | src/mm.c:232-251 | computes ProvidePage, or reports that there is no page |
| `MemoryManager.Manager.TakeFromPage` | src/mm.c:254-273 | computes TakeObject on the current page |
| `MemoryManager.Manager.ObjAllocate` | src/mm.c:217-287 | computes ObjAllocate and keeps the invariant |
| `MemoryManager.Manager.LinkObject` | src/mm.c:310-321 | computes GiveBack |
| `MemoryManager.Manager.HandBackPage` | src/mm.c:335-339 | clears the slab fields of the page, counts it off and frees it to the buddy layer |
| `MemoryManager.Manager.UnlinkPage` | src/mm.c:326-342 | takes the page out of the lists of its allocator and, if it stays, puts it at the end of the empty list |
| `MemoryManager.Manager.SettlePage` | src/mm.c:325-344 | computes Settle, including the hand-back |
| `MemoryManager.Manager.ObjFree` | src/mm.c:289-351 | computes ObjFree on a live object and keeps the invariant |
| `MemoryManager.Manager.Kmalloc` | src/mm.c:406-443 | computes Kmalloc and keeps the invariant |
| `MemoryManager.Manager.Kfree` | src/mm.c:445-465 | computes Kfree on a live range and keeps the invariant |
| `Lists.InitListHead` | include/list.h:24-28 | the node becomes the head of an empty list |
| `Lists.LinkBetween` | include/list.h:37-46 | inserts at the given position of the sequence and changes no other node |
| `Lists.ListAdd` | include/list.h:56-59 | inserts after the given node |
| `Lists.ListAddTail` | include/list.h:69-72 | appends to the sequence |
| `Lists.ListDel` | include/list.h:81-90 | removes the entry from the sequence; the entry's own links stay |
| `Lists.ListEmpty` | include/list.h:104-107 | true if and only if the sequence is empty |
| `Lists.RingsDisjoint` | include/list.h:5-7 | lists with different heads share no node |
| `Lists.RingUnique` | include/list.h:5-7 | the links determine the sequence |
| `Lists.Walk` | include/list.h:97-98 | list_for_each visits the entries in order |
| `Lists.Drain` | src/wait.c:41-45 | the loop that deletes the node it stands on visits every entry once, in order, and empties the list |
| `ListTable.LinkedOnce` | include/mm.h:50-53 | one embedded node per page: in at most one list, at most once |
| `ListTable.AddTail` | src/mm.c:34-34 | appending an unlinked page changes one sequence of the table and no other |
| `ListTable.Del` | src/mm.c:41-41 | list_del without a head removes the page from the list that links it |
| `ListTable.DelIsRemove` | src/mm.c:41-41 | on represented lists this is the removal the allocator model uses |
| `ListTraces.AllocLeads` | src/mm.c:61-93 | the list calls of an allocation are possible one after the other, lead to the new free lists and touch no live page |
| `ListTraces.FreeLeads` | src/mm.c:112-134 | the list calls of a release are possible one after the other, lead to the new free lists and touch no other live page |
| `SlabTraces.KmallocLeads` | src/mm.c:232-273 | the same for kmalloc, over the free, full, partial and empty lists together |
| `SlabTraces.KfreeLeads` | src/mm.c:318-342 | the same for kfree, through the full-to-partial, empty and hand-back paths |
| `SlabTraces.EveryRunLists` | src/mm.c:21-471 | in every run from mm_init each list_add_tail meets a page linked nowhere and each list_del a page linked in exactly one list, and they lead to the lists of the model |
| `SlabTraces.Replay` | include/list.h:69-90 | performing such calls turns linked lists that stand for the table before into linked lists that stand for the table after |
| `SlabTraces.LinkedListsOf` | src/mm.c:21-471 | heads set up by INIT_LIST_HEAD and changed by the list calls of any run are linked lists that stand for the model's lists at its end |
| `SchedTheorems.SelectBest` | src/sched.c:30-38 | one pass finds the lowest-indexed runnable task of maximal counter, or none above -1 |
| `SchedTheorems.TwoPasses` | src/sched.c:29-48 | after one refill some runnable counter is positive |
| `SchedTheorems.PickRunnableIff` | src/sched.c:29-51 | the chosen slot is runnable if and only if slot 0 is, or some runnable task has a counter that is not negative |
| `SchedTheorems.RescheduleChoice` | src/sched.c:23-54 | control passes to the lowest-indexed runnable task of maximal counter, which has time left |
| `SchedTheorems.WakeAllIs` | src/wait.c:37-48 | exactly the queued tasks become runnable and nothing else changes |
| `SchedEffects.TickEffect` | src/sched.c:82-85 | one less on the counter of the current task; nothing else changes |
| `SchedEffects.OpenEffect` | src/sched.c:13-16 | one more on the preemption count of the current task; nothing else changes |
| `SchedEffects.CloseEffect` | src/sched.c:18-21 | one less on the preemption count of the current task; nothing else changes |
| `SchedEffects.TimeSlice` | src/sched.c:82-97 | while a task runs undisturbed and outside every section, task_preemption calls _schedule exactly from the tick on that uses up its counter |
| `SchedEffects.SliceBound` | src/sched.c:42-47 | that is after at most 2 * priority - 1 ticks |
| `SchedEffects.PreemptEffect` | src/sched.c:87-97 | task_preemption calls _schedule if and only if the counter is used up and no section is open, and else does nothing |
| `SchedEffects.RescheduleEffect` | src/sched.c:23-74 | every field of every slot across a reschedule; a refill gives every occupied slot, waiting and zombie included, counter / 2 + priority |
| `SchedEffects.RefillsIff` | src/sched.c:39-47 | counters are refilled if and only if no other runnable task has time left |
| `SchedEffects.WokenBeforeRefill` | src/sched.c:42-47 | a task that waits during a refill and is woken afterwards is chosen before the next refill, unless it is killed |
| `SchedEffects.WakeEffect` | src/wait.c:37-48 | every waiting task becomes runnable, the queue is empty, and nothing else changes |
| `SchedEffects.ForkEffect` | src/fork.c:44-62 | the lowest free slot gets a runnable task of the parent's priority, full counter, preemption count 1 and its slot as pid; nothing else changes but the count |
| `SchedEffects.ChildIsChosen` | src/fork.c:44-62 | a new task that is never chosen has seen at most 2 * NR_TASKS - 2 reschedules plus one per later fork |
| `SchedEffects.KillEffect` | src/sys.c:160-176 | the slot is emptied and counted off, except for task 0 and the caller; nothing else changes |
| `SchedEffects.KilledNotChosen` | src/sys.c:168-174 | over every run a killed slot stays empty and is not chosen until a fork fills it |
| `SchedTheorems.StepKeeps` | src/sched.c:13-110 | every step keeps: pid = slot, counter bounds, preemption counts, one queue entry per waiting task, task 0 runnable, nr_tasks = occupied slots |
| `SchedTheorems.EveryRunSafe` | src/sched.c:6-9 | that invariant holds after every run from start-up |
| `ForkMemory.CopyProcessMemory` | src/fork.c:15-63 | the failure return at lines 21-24 is never taken; the call uses a null page if and only if no page frame is left, and otherwise keeps the preemption counts balanced |
| `SchedFairness.BoundedWaiting` | src/sched.c:23-97 | a runnable task that is never chosen has seen at most 2 * NR_TASKS - 2 reschedules plus one per fork |
| `SchedFairness.PickedOnce` | src/sched.c:23-60 | between refills no slot is chosen twice |
| `SchedFairness.NoPreemptionInsideSection` | src/sched.c:87-97 | task_preemption does nothing while the task is inside a disable section |
| `SchedFairness.ZombieForever` | src/sched.c:99-110 | over every run a zombie that is not killed stays one and is never current |
| `Scheduler.TaskTable.constructor` | src/sched.c:6-9 | the table at start-up: task 0 of priority 1, 63 empty slots |
| `Scheduler.TaskTable.AddToPreemptCount` | src/sched.c:13-21 | changes the preemption count of the current task only |
| `Scheduler.TaskTable.SelectTask` | src/sched.c:30-38 | the selection loop computes Select, the best runnable slot |
| `Scheduler.TaskTable.RefillCounters` | src/sched.c:42-47 | the refill loop gives every occupied slot half its counter plus its priority, whatever its state |
| `Scheduler.TaskTable.PickTask` | src/sched.c:29-48 | the endless loop ends within two passes, with the table and slot of Pick |
| `Scheduler.TaskTable.RescheduleNow` | src/sched.c:23-74 | the new state is Reschedule, and the invariant is kept |
| `Scheduler.TaskTable.Schedule` | src/sched.c:56-60 | computes Yield and keeps the invariant |
| `Scheduler.TaskTable.TimerTick` | src/sched.c:82-85 | the counter of the current task falls by one; computes Tick and keeps the invariant |
| `Scheduler.TaskTable.TaskPreemption` | src/sched.c:87-97 | computes Preempt and keeps the invariant |
| `Scheduler.TaskTable.CopyProcess` | src/fork.c:44-62 | fills the lowest free slot with a runnable child of the parent's priority, counts it and keeps the invariant |
| `Scheduler.TaskTable.Wait` | src/wait.c:19-34 | computes Wait and keeps the invariant |
| `Scheduler.TaskTable.WakeUp` | src/wait.c:37-48 | computes Wake, empties the queue and keeps the invariant |
| `Scheduler.TaskTable.ExitProcess` | src/sched.c:99-110 | computes Exit and keeps the invariant |
| `Scheduler.TaskTable.SysKill` | src/sys.c:160-176 | empties the slot and counts it off, refuses the caller itself and task 0, and keeps the invariant unless the task was waiting |
| `TimerTheorems.WholeSeconds` | src/timer.c:211-223 | floor((n + F * r) / F) = floor(n / F) + r |
| `TimerTheorems.UpdateKeepsModulo` | src/timer.c:114-119 | last update + remaining time is kept modulo 2^64, however late the update |
| `TimerTheorems.EveryRunDueModulo` | src/timer.c:86-151 | over every run, interrupts late, early or lost, registerTime + duration = prevUpdatedTime + remainingTime modulo 2^64 for every event |
| `TimerTheorems.UpdateExactIff` | src/timer.c:114-119 | the update is exact if and only if it comes no later than the event is due |
| `TimerTheorems.LateInterruptWraps` | src/timer.c:114-119 | one second late, the remaining time of the event that was due becomes 2^64 - 1 |
| `TimerTheorems.InsertSorted` | src/timer.c:127-155 | inserting by remaining time keeps the order by deadline and then by registration |
| `TimerTheorems.ArmIsExact` | src/timer.c:157-170 | within the range of the timer value the programmed tick is freq * remaining from now |
| `TimerTheorems.FiresAtZero` | src/timer.c:32-38 | when the interrupt arrives the head has exactly no time left and is due now |
| `TimerTheorems.AddKeeps` | src/timer.c:59-84 | add_timer keeps the invariant |
| `TimerTheorems.FireKeeps` | src/timer.c:32-50 | the interrupt handler keeps the invariant |
| `TimerTheorems.EveryRunExact` | src/timer.c:32-170 | over every run events fire at their deadlines, in order, each exactly once or still pending |
| `TimerTheorems.EveryRunOnTime` | src/timer.c:157-223 | over every exact run an event fires less than freq ticks away from its registration tick + freq * duration |
| `TimerRequests.ArmExactIff` | src/timer.c:157-170 | the programmed tick is exact if and only if freq * remaining is below 2^31; from there to 2^32 it lies in the past |
| `TimerRequests.EveryRunServes` | src/timer.c:59-103 | over every run, late ones included, the events pending and delivered are the calls of add_timer, with their durations and times |
| `TimerRequests.RequestsOnTime` | src/timer.c:32-170 | over every exact run request x is delivered at the second in which it was made plus the duration asked for |
| `TimerRequests.EachRequestOnce` | src/timer.c:32-170 | over every exact run each call of add_timer is pending or has been delivered once |
| `TimerQueue.Queue.constructor` | src/timer.c:25-25 | the empty queue satisfies the invariant |
| `TimerQueue.Queue.UpdateTimerEvents` | src/timer.c:109-120 | the loop updates every event |
| `TimerQueue.Queue.AddNewTimerEvents` | src/timer.c:127-155 | the search loop inserts before the first event with more time left |
| `TimerQueue.Queue.SetNextTimerEventInterrupt` | src/timer.c:157-170 | programs the tick for the head of the list |
| `TimerQueue.Queue.Register` | src/timer.c:59-103 | computes AddTimer, for any duration, and keeps the invariant under exact delivery |
| `TimerQueue.Queue.IrqHandler` | src/timer.c:32-50 | computes Fire, early or late; on time it delivers an event that is due exactly now and keeps the invariant |
| `NumberText.A2dIff` | src/printf.c:82-91 | a2d gives 0 to 9 for the decimal digits, 10 to 15 for the letters a to f of either case, and -1 for everything else |
| `NumberText.Digit` | src/printf.c:66-66 | a decimal digit or a letter of the wanted case, which a2d reads back |
| `NumberText.NumeralUnique` | src/printf.c:55-71 | a number has one numeral without leading zeros in a base |
| `NumberText.TextUnique` | src/printf.c:55-71 | a number has one text in a base and case |
| `NumberText.LeadingPower` | src/printf.c:58-60 | the divisor loop reaches the leading power without 32-bit overflow |
| `NumberText.Ui2a` | src/printf.c:55-71 | for every 32-bit value and base 10 or 16 the buffer holds the numeral, in the wanted case, and a NUL |
| `NumberText.I2a` | src/printf.c:73-80 | every 32-bit integer, the minimum included, fits the 12-byte buffer with sign and NUL |
| `NumberText.A2i` | src/printf.c:93-106 | the value of the accepted prefix, where it stops and the character it returns |
| `NumberText.ReadBackIff` | src/printf.c:93-106 | a numeral is read back if and only if the next character is neither a digit nor the letter for the base |
| `NumberText.Putchw` | src/printf.c:108-119 | the string right-aligned in its field, padded with zeros or blanks |
| `Cpio.AlignUp4IsRound4` | src/cpio.c:5-8 | the mask rounds up to a multiple of 4 |
| `Cpio.ParseHexStr` | src/cpio.c:11-30 | the loop computes the recursive reading of a field |
| `Cpio.ParseHexIsValue` | src/cpio.c:11-30 | on hexadecimal digits it is the value of the numeral |
| `Cpio.HexReadBack` | src/cpio.c:16-29 | a numeral that fills its field is read back, a shorter one as sixteen times its value |
| `Cpio.CpioStrncmp` | src/cpio.c:38-50 | 0 if and only if the two strings are equal |
| `Cpio.MagicMatches` | src/cpio.c:77-79 | true if and only if the six bytes are the header magic |
| `Cpio.CpioParseHeader` | src/cpio.c:71-99 | invalid and end of archive exactly where the format says so, else name, size, data address and next header of the entry |
| `Cpio.WalkHeaders` | src/cpio.c:114-128 | the loop terminates at the first header of that name, or at the trailer |
| `Cpio.CpioGetFile` | src/cpio.c:109-129 | on every archive at a 4-aligned base it ends with address and size of the first file of that name, or NULL if and only if there is none |
| `Cpio.EncodeIsArchive` | include/cpio.h:5-9 | every list of files that the format can express, written out by its rules, is such an archive |
| `ProcessStack.CopyUp` | src/mm.S:1-7 | the post-indexed loop copies upwards, also onto an overlapping lower range, and changes no other word |
| `ProcessStack.Memcpy` | src/mm.S:1-7 | the same on addresses and byte counts |
| `ProcessStack.ForkStack` | src/sys.c:60-68 | the child's page equals the parent's, which is unchanged, and its sp has the parent's offset |
| `ProcessStack.ForkOnHeap` | src/sys.c:56-68 | the same with the child's page from kmalloc and the parent's a live page, their separation derived |
| `ProcessStack.CountArgv` | src/sys.c:98-101 | counts the pointers before the terminating NULL |
| `ProcessStack.CopyWords` | src/sys.c:107-109 | copies between separate ranges and changes nothing else |
| `ProcessStack.ExecSpAligned` | src/sys.c:110-111 | sp is 16-byte aligned, leaves at most one spare word, and is inside the page if and only if there are at most 512 arguments |
| `ProcessStack.ExecArgv` | src/sys.c:97-116 | argv arrives intact at the new sp even when source and destination overlap |
| `ProcessStack.ExecOnHeap` | src/sys.c:97-116 | the same with the backup page from kmalloc, its separation from stack and argv derived |
| `ProcessStack.PageFromKmalloc` | src/mm.c:428-437 | kmalloc(PAGE_SIZE) gives a page-aligned page that nobody held before |

## Left out

- `MemoryManager.Manager` keeps its lists as sequences; the linked lists on the heap are joined to the same functions in `SlabTraces`, not inside the class.
- `KmallocGrants.EveryRunDisjoint`: is about the pop described at src/mm.c:303-309, because for line 258 as it stands it is false: `LiteralRuns.SameAddressTwice` is the run, `LiteralRuns.NeverClashedIff` the exact condition.
- `KmallocGrants.EveryRunConsistent`: covers runs in which no allocation uses a null page (src/mm.c:244 and src/mm.c:430 do not check); `KmallocRuns.KmallocFaults` and `KmallocRuns.ObjAllocateFaults` give the exact condition for that.
- `KmallocRuns.PokeKeeps`: memory is a map from word addresses, so a write that straddles two words is not modelled.
- `NumberText.A2i`: does not model overflow of the 32-bit accumulator, which C leaves undefined.
- `Cpio.CpioGetFile`: reports no size on NULL, where C leaves the size of the last header read in `*size`; and images that are not archives of the format are covered only header by header, in `Cpio.CpioParseHeader`.
- `Scheduler.TaskTable.SysKill`: names an occupied slot, since C dereferences an empty one; after the kill of a waiting task, whose queue entry stays behind, the invariant is not promised.
- `Scheduler.TaskTable.CopyProcess`: needs a free slot; `assignPID` returns -1 on a full table and the caller writes before it.
- `Scheduler.TaskTable.Wait`: the current task is not task 0; the kernel's idle task does not wait.
- `Scheduler.TaskTable.ExitProcess`: the current task is not task 0; the kernel's idle task does not exit.
- `TimerTheorems.EveryRunExact`: assumes interrupts at the programmed tick, calls that take no time and freq * duration below 2^31; `TimerTheorems.EveryRunDueModulo`, `TimerTheorems.UpdateExactIff` and `TimerTheorems.LateInterruptWraps` say what holds otherwise.
- `TimerQueue.Queue.Register`: leaves out the callback, the message text and the allocation of the event.
- `TimerQueue.Queue.IrqHandler`: needs a pending event; on an empty list C would treat the list head as an event.
- `ProcessStack.Memcpy`: a destination that starts inside the source, which would repeat words, is not covered; the kernel copies between whole pages.
- `ProcessStack.ExecArgv`: at most 512 arguments; `ProcessStack.ExecSpAligned` shows that with more the stack pointer leaves the page.
- Interrupts in the middle of a C function: each function is one step, except that `_schedule` resumes in another task.
- `cpu_switch_to`, register frames (`pt_regs`, `cpu_context`), `move_to_user_mode` and `task_pt_regs`: only the effect on the task table and the user stack is modelled.
- Counters and preemption counts are unbounded integers; C uses `long`.
- Running `mm_init` a second time from the shell, which rebuilds the buddy layer under live slabs.
- Reclaiming a killed task's stack: src/sys.c:169 assigns where it means to compare. `kill_zombies` has an empty body and dereferences empty slots.
- Freeing the user stack in `exit_process` and the leak of the backup page in `sys_exec` (src/sys.c:116).
- `cpio_move_file`, `cpio_ls` and all diagnostics printed by any function.
- The format dispatch of `tfp_format`, and the long variants that are compiled out.
- UART, mailbox, GPIO, boot code, exception vectors, the shell, the test threads, the bootloader and user programs.
- `src/string.c` and `src/math.c`: they would add easy members only.
