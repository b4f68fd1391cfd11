# Verified models of the kernels' schedulers, memory managers and drivers

A Dafny model of the state machines and algorithms in these kernels, with proofs of what they keep over every
run. `dafny verify dfyconfig.toml` checks the whole project.

## What is modelled

**The SMP run queues** (`side_project/SMPScheduler.cpp`), three times over.
`RunQueues.dfy` has one CPU's queue as the code has it: an array of list heads, doubly linked threads on the heap,
four bitmap words and a counter, each operation proved against the value-level lists of `RunLists.dfy`.
`SmpProtocol.dfy` and `SmpSafety.dfy` have all CPUs together, each call split into the steps between which another
CPU can run (before a lock is taken, inside it, after it is released), with the threads a CPU carries in its local
variables; `SmpWakers.dfy` has runs to the two calls that leave a thread in two places. `Balancing.dfy` and `SmpScheduler.dfy`
have placement and work stealing with calls taken as atomic. `SmpLaws.dfy` says what each step does for threads and
their priorities, and `SmpRefinement.dfy` that the steps inside a lock are what the pointer code does.

**Physical frames and paging** (`pmm.c`, `vmm.c`). `PhysicalMemory.dfy` is the bitmap allocator and the boot walk
over the Multiboot memory map (section 3.3 of the Multiboot Specification 0.6.96). `PageTables.dfy` states what two
levels of tables in a memory of frames mean and when they are well formed; `VirtualMemory.dfy` is the code over an
array of words. Physical addresses are used as indices into that array.

**Processes** (`process.c`, `scheduler.c`). `ProcessManager.dfy` is the table of 32 slots and the loops over it,
proved against `ProcessTable.dfy`; `ProcessForest.dfy` has the invariant of every run, `ProcessSlices.dfy` what the
timer leaves a running process, `ProcessFairness.dfy` the waiting bound for aligned slots, and `ProcessTraps.dfy`, over the walks of `Routes.dfy`, the exact condition under
which a ready process is passed over for ever.

**Drivers and small algorithms.** The line of `graphics.c` (`Line.dfy`), the text screen of `vga.c`
(`Terminal.dfy`), the event ring (`Events.dfy`) and the mouse decoder in front of it (`Mice.dfy`), the RAM file
system (`RamFs.dfy`), and number formatting and parsing (`Decimal.dfy`). `Bits.dfy` has the word operations that
the bitmaps and masks share.

## Where the code and its promises part

Each of these is proved.

- `SMPScheduler.cpp:368-372` enqueues a READY thread a second time. Afterwards no lists fit the links at all;
  they do if and only if the thread was not READY (`RunQueues.RunQueue.SetPriority`).  Among the steps of all CPUs,
  a change of priority keeps every thread in one place under the same condition (`SmpSafety.PriorityOnlyAtRest`), and
  a run from boot breaks it (`SmpWakers.PriorityDoubles`).
- `side_project/OSFree.md:89` promises round-robin within a priority. Queues push and pop at the head, so the
  thread put back last is the first one out (`RunLists.PushedIsNext`): a thread that yields is the next one picked
  unless a strictly higher priority is queued, and the rotation promised happens if and only if the thread is alone
  in its list (`RunLists.RotatesOnlyAlone`).
- `sched_unblock` leaves `state` at BLOCKED until the enqueue, so a second waker is not stopped: waking keeps every
  thread in one place if and only if no other CPU has the thread in hand (`SmpSafety.WakersMustBeAlone`), and a run
  from boot ends with the thread in two hands (`SmpWakers.SecondWakerDoubles`).
- `scheduler.c:43-48` uses a PID as a table index, so each slot leads the search to one next slot. A ready process
  is passed over by every later schedule if and only if some slots that include the running one and not its own are
  closed under that step (`ProcessTraps.PassedOverIffTrapped`, and `PassedOverExactly` for any current process);
  otherwise it runs by the 31st schedule and the 310th tick. Slots equal to their PIDs modulo 32 make no such trap;
  a run from boot leads into one (`ProcessTraps.CanStarve`).
- `process.c:99` counts the child before memory is allocated for it. A create keeps exact counts exact if and only
  if memory suffices, the idle process calls it, or the table is full (`ProcessForest.CreateCountsExactly`); over any
  run a process's count is the number of its children plus the creates it made that failed there
  (`ProcessForest.CountsOnRun`).
- `process.c:187` lets PID 0 exit, which frees slot 0; every other exit keeps the table's invariant
  (`ProcessForest.ExitKeepsFamily`).
- `vmm.c:140` shares entry 0 between directories, and `vmm.c:154` frees what entry 0 maps: destroying a directory
  leaves the others well formed if and only if it frees none of their frames (`PageTables.DestroyBreaks`). Booting,
  making a directory and destroying it leaves the kernel's directory broken (`VirtualMemory.CreateThenDestroy`).
- `vmm_map_range` fails if and only if the range needs more new page tables than there are free frames, at the first
  page whose table is one too many. It then rolls back by unmapping, which restores the earlier translation if and
  only if no page before that one was mapped before the call (`VirtualMemory.AddressSpaces.MapRange`). With no free
  frame, a range of two pages from 0x3FF000 loses the identity mapping of the first
  (`VirtualMemory.FailedRangeLosesPage`).
- `ramfs.c` cuts a long name when storing it and not when looking for it. Creating keeps names unique if and only if
  the name fits, its beginning is not taken, or nothing is created (`RamFs.LongNames`); writing uses a null pointer if
  and only if the name does not fit and there is a free slot (`RamFs.WriteFaults`).

## Model

| member | source | states |
|---|---|---|
| Bits.SetClear | side_project/SMPScheduler.cpp:233-274 | setting or clearing one bit of a word changes the answer for that bit and for no other |
| Bits.SetValue | simpleos-main/simpleos/pmm.c:23-34 | `\|=` and `&= ~` with a one-bit mask change the word's value by that power of two or not at all |
| RunQueues.CalculatePriority | side_project/SMPScheduler.cpp:122-159 | the effective priority stays in the band of its class, moves by delta from the band's middle, and is cut only at the band's ends |
| RunQueues.PriorityBands | side_project/SMPScheduler.cpp:122-159 | idle time has 0..31, regular and unknown classes 32..63, foreground server 64..95, time critical 96..127, with delta added to 16, 48, 80 and 112 and cut at the ends |
| RunQueues.ClassesApart | side_project/SMPScheduler.cpp:122-159 | whatever the deltas, a higher class has a higher priority |
| RunQueues.RunQueue.BestHasBestClass | side_project/SMPScheduler.cpp:238-280 | the thread of highest priority queued has the highest class queued, so a time-critical thread is dequeued before any other |
| RunLists.PushedIsNext | side_project/SMPScheduler.cpp:212-280 | the thread pushed last is the next one taken unless a strictly higher priority is queued |
| RunLists.RotatesOnlyAlone | side_project/OSFree.md:89 | a running thread put back leaves its list as it was, so the thread behind it comes next, as round-robin asks, if and only if there is no other |
| RunLists.HighestExists | side_project/SMPScheduler.cpp:238-280 | a highest non-empty priority exists exactly when not all lists are empty |
| RunLists.PushCounts | side_project/SMPScheduler.cpp:212-236 | a push adds one occurrence of the one thread and one to the total length |
| RunLists.RemoveCounts | side_project/SMPScheduler.cpp:238-280 | taking a position out removes one occurrence of its thread and one from the total length |
| RunQueues.RunQueue.constructor | side_project/SMPScheduler.cpp:287-312 | a fresh run queue is consistent, empty and unlocked |
| RunQueues.RunQueue.Enqueue | side_project/SMPScheduler.cpp:212-236 | heads, links, bitmap and counter represent the old lists with the thread pushed at the head of its priority, and it is READY |
| RunQueues.RunQueue.Dequeue | side_project/SMPScheduler.cpp:238-280 | takes the head of the highest non-empty list, a thread that none queued exceeds in priority, and keeps links, bitmap and counter consistent; NULL if and only if every list is empty |
| RunQueues.RunQueue.Unlink | side_project/SMPScheduler.cpp:253-270 | taking any position out of a doubly linked list leaves every list acyclic and linked both ways |
| RunQueues.RunQueue.SetPriority | side_project/SMPScheduler.cpp:356-375 | afterwards some lists fit the links if and only if the thread was not READY |
| RunQueues.RunQueue.QueuedTwice | side_project/SMPScheduler.cpp:368-372 | no lists whatever fit the links once a queued thread is pushed again |
| RunQueues.RunQueue.Schedule | side_project/SMPScheduler.cpp:378-404 | puts a running thread back with a full slice and runs the first of the highest list; the same thread runs on unless a strictly higher priority was queued |
| RunQueues.RunQueue.Yield | side_project/SMPScheduler.cpp:407-415 | the running thread becomes READY at the head of its list and the CPU has no current thread; without one nothing changes |
| RunQueues.RunQueue.Block | side_project/SMPScheduler.cpp:418-425 | the running thread becomes BLOCKED, the CPU has no current thread, and no list changes |
| RunQueues.RunQueue.StealFrom | side_project/SMPScheduler.cpp:455-491 | takes the first thread allowed on the thief, of the lowest priority that has one, and keeps links, bitmap and counter consistent; NULL if and only if no queued thread is allowed |
| RunQueues.StealAcross | side_project/SMPScheduler.cpp:452-506 | for two CPUs' queues on one heap that share nothing, the stolen thread leaves the victim's lists and stands at the head of the thief's, and both stay consistent and share nothing |
| Balancing.StealBalances | side_project/SMPScheduler.cpp:437-508 | a steal keeps every thread, arrives where it is allowed, and lowers the sum of squared queue lengths by at least two |
| Balancing.BalancingComesToRest | side_project/SMPScheduler.cpp:497-508 | in any run of balancing alone, steals number at most half of the sum of squares lost, and no thread is lost or doubled |
| SmpScheduler.Scheduler.FindBestCpu | side_project/SMPScheduler.cpp:169-194 | finds the first allowed CPU of least NUMA-weighted load, CPU 0 when none is allowed; the CPU is in the mask if and only if the mask meets the CPUs; in plain loads, one on another node holds at most three quarters of any allowed CPU on the thread's node, one on that node less than four thirds of any elsewhere plus one, and on equal terms it holds the least |
| SmpScheduler.Scheduler.StealThread | side_project/SMPScheduler.cpp:437-494 | steals the first allowed thread of the first CPU at least two longer that has one; NULL if and only if no CPU with at least two threads more holds an allowed one |
| SmpScheduler.Scheduler.BalanceLoad | side_project/SMPScheduler.cpp:497-508 | steals exactly when the CPU holds fewer than two threads and a CPU at least two longer has an allowed one, and then moves that thread |
| SmpSafety.RunKeeps | side_project/SMPScheduler.cpp:199-508 | one invariant holds at every moment of every interleaving of the CPUs' steps |
| SmpLaws.PopTakesBest | side_project/SMPScheduler.cpp:238-280 | among all CPUs' steps, a dequeue carries off the first thread queued on its CPU of a priority that none queued there exceeds, and none exactly when none is queued there |
| SmpLaws.PopTakesOne | side_project/SMPScheduler.cpp:238-280 | it takes that thread out of the queue and no other |
| SmpLaws.PushPutsFirst | side_project/SMPScheduler.cpp:212-236 | an enqueue makes the thread READY and puts it in front of those of its priority; nothing else queued changes place |
| SmpLaws.StealTakesLowest | side_project/SMPScheduler.cpp:452-491 | a theft takes the first thread the thief may run of the lowest priority that has one, and goes on exactly when there is none |
| SmpLaws.BalanceLooksForLonger | side_project/SMPScheduler.cpp:437-501 | balancing begins exactly with fewer than two threads queued and locks exactly the other CPUs with at least two more |
| SmpLaws.CreateMakes | side_project/SMPScheduler.cpp:315-353 | a created thread is new, has the priority and mask asked for or all CPUs, and goes to a CPU it is allowed on if there is one |
| SmpLaws.WakeSends | side_project/SMPScheduler.cpp:428-434 | a woken thread was BLOCKED and goes to a CPU it is allowed on if there is one |
| SmpLaws.LeavingEnds | side_project/SMPScheduler.cpp:407-425 | whatever the other CPUs do, yield and block end with no current thread |
| SmpLaws.DispatchingEnds | side_project/SMPScheduler.cpp:378-404 | schedule ends with the thread it dequeued RUNNING on the CPU, or with none |
| SmpLaws.DeliveringEnds | side_project/SMPScheduler.cpp:350-434 | create, unblock and a theft end with the thread at the head of its list on the CPU chosen |
| SmpLaws.CallsBegin | side_project/SMPScheduler.cpp:378-425 | schedule and yield begin by sending a running thread, READY, to its own CPU's queue, block by making it BLOCKED |
| SmpRefinement.EnqueueIsFinishPush | side_project/SMPScheduler.cpp:212-236 | the lists the pointer code leaves after an enqueue are those of the protocol's step |
| SmpRefinement.DequeueIsFinishPop | side_project/SMPScheduler.cpp:238-280 | the thread and lists of a pointer-level dequeue are those of the protocol's step |
| SmpRefinement.StealIsFinishSteal | side_project/SMPScheduler.cpp:454-491 | the thread and lists of a pointer-level theft are those of the protocol's step |
| SmpSafety.ThreadsNeverLost | side_project/SMPScheduler.cpp:315-508 | in every reachable state each thread is in exactly one place: one position of one queue, current of one CPU, one CPU's local, or asleep, with the matching state field |
| SmpSafety.MasksRespected | side_project/SMPScheduler.cpp:164-194 | in every reachable state a thread whose mask meets the CPUs is queued, running or bound only where its mask allows |
| SmpSafety.NoDeadlock | side_project/SMPScheduler.cpp:199-210 | in every reachable state a CPU owns at most one lock and whoever is waited for waits for nobody |
| SmpSafety.NeverStuck | side_project/SMPScheduler.cpp:199-508 | while any call is in progress some CPU can take a step |
| SmpSafety.AdvanceShortens | side_project/SMPScheduler.cpp:378-508 | every step of a call lowers the number of steps that all calls in progress can still take |
| SmpSafety.DrainIsShort | side_project/SMPScheduler.cpp:378-508 | without new calls, the steps still possible are bounded by that number |
| SmpSafety.WakersMustBeAlone | side_project/SMPScheduler.cpp:428-434 | a wake-up keeps every thread in one place if and only if no CPU has the thread in hand already |
| SmpWakers.SecondWakerDoubles | side_project/SMPScheduler.cpp:428-434 | a run from boot reaches a state in which a second wake-up of a thread leaves it in two places |
| SmpSafety.PriorityOnlyAtRest | side_project/SMPScheduler.cpp:356-375 | a change of priority by any CPU keeps every thread in one place if and only if the thread is not READY |
| SmpWakers.PriorityDoubles | side_project/SMPScheduler.cpp:367-372 | a run from boot reaches a state in which a change of priority leaves a thread in two places |
| SmpSafety.StealKeeps | side_project/SMPScheduler.cpp:455-494 | the end of a scan under the victim's lock keeps the invariant, with the stolen thread in the thief's local |
| SmpSafety.PopKeeps | side_project/SMPScheduler.cpp:238-280 | the end of a dequeue keeps the invariant, with the thread in flight while `current` is stale |
| PhysicalMemory.RunRoundTrip | simpleos-main/simpleos/pmm.c:180-219 | taking a free run adds its length to the count, and releasing it restores the exact earlier frames |
| PhysicalMemory.FrameAllocator.BitmapSet | simpleos-main/simpleos/pmm.c:23-27 | marks the one frame used and changes no other |
| PhysicalMemory.FrameAllocator.FindFreePages | simpleos-main/simpleos/pmm.c:55-73 | finds the lowest run of that many free frames from 1 MB up, or none exists |
| PhysicalMemory.FrameAllocator.AllocPage | simpleos-main/simpleos/pmm.c:164-177 | allocates the lowest free frame from 1 MB up; 0 if and only if there is none; used_pages stays exact |
| PhysicalMemory.FrameAllocator.AllocPages | simpleos-main/simpleos/pmm.c:180-197 | allocates the lowest free run and marks exactly it; 0 if and only if the count is 0 or no run exists |
| PhysicalMemory.FrameAllocator.FreePage | simpleos-main/simpleos/pmm.c:200-207 | releases exactly that frame when it is managed, and used_pages stays exact |
| PhysicalMemory.FrameAllocator.FreePages | simpleos-main/simpleos/pmm.c:210-219 | releases exactly the managed frames of the run, and used_pages stays exact |
| PhysicalMemory.FrameAllocator.ReleaseRegion | simpleos-main/simpleos/pmm.c:100-127 | clears exactly the bits of the frames wholly inside the region and below 256 MB |
| PhysicalMemory.FrameAllocator.ParseMap | simpleos-main/simpleos/pmm.c:85-131 | the walk by size+4 ends, a frame is left used exactly when no available region holds it wholly, and the lengths are summed modulo 2^32 |
| PhysicalMemory.FrameAllocator.Init | simpleos-main/simpleos/pmm.c:76-161 | after boot a frame below 256 MB is free if and only if it lies wholly in an available region above the kernel image, and used_pages is exact |
| PhysicalMemory.AvailableIs | simpleos-main/simpleos/pmm.c:93-125 | a frame is available when its 4096 bytes lie inside one record of type 1 |
| PageTables.Sharing | simpleos-main/simpleos/vmm.c:120-143 | two directories reach one table through an index below 768 if and only if they are the same directory or the index is 0 |
| PageTables.WalkIs | simpleos-main/simpleos/vmm.c:250-262 | a translation takes ten bits of the address for the directory and ten for the table, at the frames in the upper twenty bits of present words |
| PageTables.PageDecides | simpleos-main/simpleos/vmm.c:70-71 | user mode may read or write a page exactly as bits 0, 1 and 2 of the page's own entry say, because every directory entry the kernel makes has bits 1 and 2 |
| PageTables.BootAccess | simpleos-main/simpleos/vmm.c:92-101 | after boot user mode may read and write the first 4 MB and nothing else |
| PageTables.UpdateRefinesMap | simpleos-main/simpleos/vmm.c:189-220 | a page write is one update of the partial map of every directory that shares the table and of no other: of that directory alone from 4 MB to 3 GB, of all alike below 4 MB |
| PageTables.NewTable | simpleos-main/simpleos/vmm.c:59-72 | entering an empty table in an unused frame changes no translation and keeps the structures well formed |
| PageTables.SetEntry | simpleos-main/simpleos/vmm.c:189-220 | writing a table entry changes that page for every directory sharing the table and nothing else |
| PageTables.NewDirectory | simpleos-main/simpleos/vmm.c:120-143 | a new directory in an unused frame keeps the structures well formed and shares what the kernel's entries reach |
| PageTables.ClearedRange | simpleos-main/simpleos/vmm.c:223-247 | unmapping a range restores every translation if and only if no page of it was mapped |
| PageTables.DataWrite | simpleos-main/simpleos/vmm.c:42-47 | writing a frame that is no directory or table changes no translation |
| PageTables.AllocationUndone | simpleos-main/simpleos/vmm.c:276-300 | unmapping a freshly allocated page and releasing its frame brings back every translation and, but for at most one page table, the used frames |
| PageTables.ReleaseOne | simpleos-main/simpleos/vmm.c:294-300 | releasing a frame keeps the structures well formed if and only if it is unmanaged or no directory or table |
| PageTables.DestroyBreaks | simpleos-main/simpleos/vmm.c:146-173 | the directories left are well formed if and only if destroying freed none of their frames; it always does when the table of the first 4 MB is managed |
| VirtualMemory.AddressSpaces.constructor | simpleos-main/simpleos/vmm.c:79-117 | after vmm_init the first 4 MB are identity-mapped and open to user mode, nothing else is mapped, and the structures are well formed |
| VirtualMemory.AddressSpaces.GetPageTable | simpleos-main/simpleos/vmm.c:50-76 | finds or makes the page table; no translation changes; it fails only when the table is missing and creation is not asked for or no frame is left |
| VirtualMemory.AddressSpaces.MapPage | simpleos-main/simpleos/vmm.c:189-207 | success updates that page alone; failure, only for want of a frame, changes nothing; at most one frame is taken, never a live table; user mode may then read and write the page exactly as bits 2 and 1 of the flags ask |
| VirtualMemory.AddressSpaces.UnmapPage | simpleos-main/simpleos/vmm.c:210-220 | clears that page alone and gives no frame back |
| VirtualMemory.AddressSpaces.GetPhysical | simpleos-main/simpleos/vmm.c:250-262 | the mapped frame's address plus the offset when the page is present, and 0 when it is not |
| VirtualMemory.AddressSpaces.IsMapped | simpleos-main/simpleos/vmm.c:265-273 | true exactly when the page's entry is present |
| VirtualMemory.AddressSpaces.MapRange | simpleos-main/simpleos/vmm.c:223-238 | succeeds if and only if the range's missing page tables number no more than the free frames, and then maps page i to phys + 4096 i for every page and no other address; a failure stops at the first page whose table is one too many and restores the earlier translation if and only if none before it was mapped before the call; only page tables stay |
| VirtualMemory.FailedRangeLosesPage | simpleos-main/simpleos/vmm.c:223-238 | after boot with no free frame, mapping two pages from 0x3FF000 fails and leaves the first, identity-mapped before, unmapped |
| PageTables.MappableIs | simpleos-main/simpleos/vmm.c:226-235 | the pages that can be mapped end exactly where the missing tables outnumber the free frames |
| VirtualMemory.AddressSpaces.UnmapRange | simpleos-main/simpleos/vmm.c:241-247 | clears exactly the pages of the range, their number computed in 32 bits |
| VirtualMemory.AddressSpaces.CreatePageDirectory | simpleos-main/simpleos/vmm.c:120-143 | a new directory has the kernel's entries 0 and 768..1023 and no others, others are unchanged, and 0 is returned only when no frame is left |
| VirtualMemory.AddressSpaces.SwitchPageDirectory | simpleos-main/simpleos/vmm.c:176-181 | the current directory becomes the given one, and no translation changes |
| VirtualMemory.AddressSpaces.AllocPage | simpleos-main/simpleos/vmm.c:276-291 | success maps a zeroed frame that was free and is no live table; it fails if and only if no frame is free, or one is and the page table is missing; failure changes neither bitmap nor translation |
| VirtualMemory.AddressSpaces.FreePage | simpleos-main/simpleos/vmm.c:294-300 | unmaps the page and releases its frame; the structures stay well formed if and only if the frame was not one of theirs |
| VirtualMemory.AddressSpaces.AllocThenFree | simpleos-main/simpleos/vmm.c:276-300 | allocating an unmapped page and freeing it restores every translation and the used frames up to one page table |
| VirtualMemory.CreateThenDestroy | simpleos-main/simpleos/vmm.c:79-173 | booting, making a directory and destroying it leaves the kernel's directory without a used first table, whenever a frame was free |
| VirtualMemory.AddressSpaces.DestroyPageDirectory | simpleos-main/simpleos/vmm.c:146-173 | releases exactly the managed frames among the directory, its present tables 0..767 and what they map; the kernel's directory and 0 are refused |
| ProcessTable.FindPid | simpleos-main/simpleos/process.c:251-258 | the first used slot with the PID, none exactly when no slot has it |
| ProcessManager.Manager.CreateProcess | simpleos-main/simpleos/process.c:73-184 | creates in the first unused slot with the next PID and the current process as parent; 0 when the table is full or memory runs out, with the child counted in the latter case unless PID 0 calls |
| ProcessManager.Manager.ExitWithCode | simpleos-main/simpleos/process.c:187-233 | frees the slot, keeps the exit code, discounts it at its parent and gives its children to PID 0; an unknown PID changes nothing |
| ProcessForest.ProbeIsFirst | simpleos-main/simpleos/scheduler.c:42-54 | the search takes the first ready slot counting round the table twice from its start, and slot 0 when it meets none |
| ProcessForest.IdleWhenNoneReady | simpleos-main/simpleos/scheduler.c:37-57 | the idle process is chosen if and only if no process is ready |
| ProcessManager.Manager.FindNextProcess | simpleos-main/simpleos/scheduler.c:37-57 | the loop returns the slot that the two lemmas above describe |
| ProcessManager.Manager.RunScheduler | simpleos-main/simpleos/scheduler.c:60-98 | the slots and the current process become those of the scheduling step, which ScheduleKeeps and ScheduleNears are about |
| ProcessManager.Manager.TimerTick | simpleos-main/simpleos/scheduler.c:101-120 | the slots and the current process become those of the tick step, which TickKeeps and TickNears are about |
| ProcessManager.Manager.ListChildren | simpleos-main/simpleos/process.c:326-335 | writes the PIDs of the first children in slot order, as many as fit |
| ProcessForest.CreateShape | simpleos-main/simpleos/process.c:73-184 | a create changes the one free slot, next_pid, and the child_count of the one parent, and nothing else |
| ProcessForest.CreateAnswer | simpleos-main/simpleos/process.c:73-184 | 0 is returned exactly when the table is full or memory runs out, and then no process is new; otherwise the PID, unused before, of one new READY process with a slice of ten |
| ProcessForest.ExitShape | simpleos-main/simpleos/process.c:187-233 | the guard on child_count skips no child: after an exit every other slot is as before but for its parent's discount and reparenting to 0 |
| ProcessForest.ExitLeaves | simpleos-main/simpleos/process.c:187-227 | the slot keeps the exit code and loses its PID, and an exit of a PID that no process has changes nothing |
| ProcessForest.CreateKeeps | simpleos-main/simpleos/process.c:73-184 | a create, successful or not, keeps unique PIDs below next_pid, the forest and the counts, exact ones exact unless it miscounts |
| ProcessForest.ExitKeeps | simpleos-main/simpleos/process.c:187-233 | an exit of another PID than 0 keeps them too, and the current slot stays used unless it is the one that exits |
| ProcessForest.ScheduleKeeps | simpleos-main/simpleos/scheduler.c:60-98 | a schedule keeps them, also from a current slot that an exit has just vacated, and leaves at most the current process RUNNING |
| ProcessForest.TickKeeps | simpleos-main/simpleos/scheduler.c:101-120 | a tick keeps them |
| ProcessForest.SetStateKeeps | simpleos-main/simpleos/scheduler.c:123-134 | making a process ready or blocked keeps them |
| ProcessForest.RunKeeps | simpleos-main/simpleos/process.c:35-258 | over any run from boot PIDs are unique and below next_pid, parents are 0 or a live smaller PID, child_count is at least the number of children and equal while no create of a non-idle caller with a free slot runs out of memory, and at most the current process is RUNNING |
| ProcessForest.CountsOnRun | simpleos-main/simpleos/process.c:73-233 | over any run from boot a live process's child_count is its live children plus the creates it ever made that ran out of memory after counting |
| ProcessForest.CreateCountsExactly | simpleos-main/simpleos/process.c:73-137 | a create keeps exact counts exact if and only if memory suffices, PID 0 calls it, or the table is full |
| ProcessForest.FailedCreateOvercounts | simpleos-main/simpleos/process.c:95-137 | with another caller and a free slot, a create that runs out of memory leaves its caller's count one above its children |
| ProcessForest.ExitKeepsFamily | simpleos-main/simpleos/process.c:187-233 | an exit keeps unique PIDs, the forest and the counts if and only if it is not that of PID 0 |
| ProcessForest.ListingFitsCount | simpleos-main/simpleos/process.c:320-335 | process_list_children has at most child_count entries to list, and exactly that many while counts are exact |
| ProcessForest.ChildrenAre | simpleos-main/simpleos/process.c:326-335 | the PIDs listed are those of the live processes with that parent, and no others |
| ProcessForest.AddedAndRemoved | simpleos-main/simpleos/scheduler.c:123-134 | adding makes a process READY, removing makes it BLOCKED, and no other changes |
| ProcessSlices.ScheduleIs | simpleos-main/simpleos/scheduler.c:60-98 | the process dispatched is RUNNING with a slice of ten, the one before READY if it was RUNNING, and nothing else changes |
| ProcessSlices.TickIs | simpleos-main/simpleos/scheduler.c:101-120 | a tick takes one off a slice of two or more and does nothing else; the last tick of a slice is a schedule |
| ProcessSlices.TenTicks | simpleos-main/simpleos/scheduler.c:80-120 | a process just dispatched runs through nine ticks, and the tenth is a schedule |
| ProcessSlices.TenTicksASwitch | simpleos-main/simpleos/scheduler.c:101-120 | under ticks alone the process changes k times in no fewer than 10 (k - 1) ticks |
| ProcessFairness.ScheduleNears | simpleos-main/simpleos/scheduler.c:37-98 | with aligned slots a schedule dispatches a waiting process or strictly lowers its cyclic distance |
| ProcessFairness.TickNears | simpleos-main/simpleos/scheduler.c:101-120 | with aligned slots a tick dispatches it or strictly lowers the ticks left |
| ProcessFairness.BoundedWaiting | simpleos-main/simpleos/scheduler.c:37-120 | a process that stays READY while the running one does not exit waits through at most 30 schedules and 309 ticks |
| Routes.ReachedOrTrapped | simpleos-main/simpleos/scheduler.c:37-57 | a walk in which every slot leads to one other reaches a slot within as many steps as there are others, or is trapped away from it |
| ProcessTraps.PassedOverIffTrapped | simpleos-main/simpleos/scheduler.c:37-98 | a process is passed over by every later schedule if and only if slots with the running one and without its own are closed under the search |
| ProcessTraps.PassedOverExactly | simpleos-main/simpleos/scheduler.c:37-98 | the same condition for a current process in any state |
| ProcessTraps.RunsSoon | simpleos-main/simpleos/scheduler.c:37-98 | a process that is not trapped away from runs within 31 schedules |
| ProcessTraps.ClockKeepsTrap | simpleos-main/simpleos/scheduler.c:60-120 | a trap also holds under any mixture of schedules and ticks |
| ProcessTraps.ClockDispatches | simpleos-main/simpleos/scheduler.c:60-120 | without a trap the process waits through at most 30 schedules and 309 ticks, in any mixture |
| ProcessTraps.AlignedMakesNoTrap | simpleos-main/simpleos/scheduler.c:43-48 | slots equal to their PIDs modulo 32 make no trap for a ready process |
| ProcessTraps.CanStarve | simpleos-main/simpleos/scheduler.c:43-48 | a run from boot reaches a state with a READY process that is trapped away from and so passed over by every later schedule |
| Line.RoundedIs | simpleos-main/simpleos/graphics.c:120-149 | the rounded share of a side is the only number with error at most one half, a half only downwards |
| Line.StepDecision | simpleos-main/simpleos/graphics.c:139-146 | the test on twice the error steps the shorter side exactly when its rounded share grows |
| Line.Endpoints | simpleos-main/simpleos/graphics.c:132-137 | the points begin at the first end and reach the second after max(\|dx\|,\|dy\|) steps, and no earlier |
| Line.HalfPixel | simpleos-main/simpleos/graphics.c:120-149 | every point is within half a pixel of the ideal line |
| Line.CellIs | simpleos-main/simpleos/graphics.c:92-97 | pixel (x, y) of the 320x200 screen is cell 320 y + x, and other points, coordinates cut to 16 bits, have none |
| Line.DrawnPixels | simpleos-main/simpleos/graphics.c:92-149 | for a line within 16 bits a pixel has the colour exactly when it is a point of the line, and is otherwise unchanged |
| Line.Screen.DrawLine | simpleos-main/simpleos/graphics.c:120-149 | for all endpoints the loop ends after max(\|dx\|,\|dy\|) steps having coloured exactly the cells of the rounded line; nothing when graphics are off |
| Line.Screen.PutPixel | simpleos-main/simpleos/graphics.c:92-97 | writes the one cell of a point on the screen after its coordinates are cut to 16 bits, and nothing for any other |
| Terminal.PutFacts | simpleos-main/simpleos/vga.c:76-101 | the cursor stays in the last 25 lines, at most one line is added, and lines but the cursor's never change |
| Terminal.PlainText | simpleos-main/simpleos/vga.c:89-97 | printable text from a cleared screen stands in reading order, character i in line i/80, column i%80, in its own colour |
| Terminal.ControlCharacters | simpleos-main/simpleos/vga.c:77-97 | newline, carriage return, tab and backspace move the cursor as a terminal does, a tab to the next multiple of eight or past column 71 to the next line, and change no cell but the one erased |
| Terminal.PrintedCharacter | simpleos-main/simpleos/vga.c:89-97 | any other character is written at the cursor, which goes on by one or after column 79 to the next line |
| Terminal.EntryIs | simpleos-main/simpleos/vga.c:17-19 | the low byte of a glyph is the character and the high byte the colours |
| Terminal.Screen.ScreenIs | simpleos-main/simpleos/vga.c:37-101 | cell 80 r + c of the buffer is column c of the r-th of the last 25 lines, and the cursor is on the screen |
| Terminal.BackspaceErases | simpleos-main/simpleos/vga.c:84-97 | backspace takes back a character if and only if it did not end its line |
| Terminal.Screen.Putchar | simpleos-main/simpleos/vga.c:76-101 | the 80x25 buffer equals the last 25 lines of the transcript with the character added, and the cursor is its cursor |
| Terminal.Screen.Puts | simpleos-main/simpleos/vga.c:104-108 | the same for a whole string |
| Terminal.Screen.Clear | simpleos-main/simpleos/vga.c:66-73 | the screen shows a cleared transcript in the current colours |
| Terminal.Screen.MoveUp | simpleos-main/simpleos/vga.c:37-51 | every line moves up by one and the last becomes blank |
| Events.NewestSurvive | simpleos-main/simpleos/events.c:13-24 | pushing events one by one leaves the newest 255 of all of them in order |
| Events.NewestAre | simpleos-main/simpleos/events.c:7-20 | what survives is the last 255 events |
| Events.EventQueue.Push | simpleos-main/simpleos/events.c:13-24 | adds the event behind those outstanding and drops the oldest one exactly when 255 are outstanding |
| Events.EventQueue.Pop | simpleos-main/simpleos/events.c:27-40 | delivers the oldest outstanding event and leaves the others in order; none if and only if none is outstanding |
| Events.EventQueue.Pending | simpleos-main/simpleos/events.c:43-45 | true exactly when an event is outstanding |
| Mice.DecodesWhatIsSent | simpleos-main/simpleos/mouse.c:74-90 | decoding gives back the packets sent, whatever bytes without bit 3 stand between them |
| Mice.EveryStreamIsFrames | simpleos-main/simpleos/mouse.c:74-90 | every byte stream is such frames, skipped bytes and the beginning of a packet, so decoding loses nothing else |
| Mice.PositionAfter | simpleos-main/simpleos/mouse.c:104-112 | after any packets the position is on the 1024x768 screen |
| Mice.BitsAre | simpleos-main/simpleos/mouse.c:78-117 | bits 0 to 2 of the first byte are the buttons, 4 and 5 the signs and 6 and 7 the overflows, and a movement is its byte less 256 when negative and 0 when overflowed |
| Mice.PointerMoves | simpleos-main/simpleos/mouse.c:25-112 | the pointer starts at (512, 384), moves right by x and up by y, and stops at the edges |
| Mice.EventsAre | simpleos-main/simpleos/mouse.c:119-158 | a packet gives clicks for the buttons it presses, left, right, middle, and then a move if it moved, all at the position after it |
| Mice.ClicksArePresses | simpleos-main/simpleos/mouse.c:114-147 | for each button, click events number exactly the packets in which it goes down |
| Mice.EventsOnScreen | simpleos-main/simpleos/mouse.c:119-158 | every event reports a position on the screen |
| Mice.Mouse.Callback | simpleos-main/simpleos/mouse.c:62-161 | after any bytes, position, buttons and half-read packet are those of the packet decoder, and the events of each completed packet join the ring in order |
| Mice.Mouse.ButtonPressed | simpleos-main/simpleos/mouse.c:203-208 | true exactly when the last packet has the button down |
| RamFs.CreateRefines | simpleos-main/simpleos/ramfs.c:83-102 | create of a name that fits or whose beginning is free is create on a map of at most 32 names, with the same result code |
| RamFs.WriteRefines | simpleos-main/simpleos/ramfs.c:105-125 | write of a name that fits, or with a full table, replaces the contents, cut at 4096 bytes, creating the file if there is room |
| RamFs.WriteFaults | simpleos-main/simpleos/ramfs.c:105-125 | write uses a null pointer, after filling a slot, if and only if the name has 32 or more characters and there is a free slot |
| RamFs.OpRefines | simpleos-main/simpleos/ramfs.c:83-182 | an operation ends without a fault and leaves one slot for a name if and only if its name is harmless, and then it is the operation on the map |
| RamFs.AppendRefines | simpleos-main/simpleos/ramfs.c:128-149 | append adds what fits below 4096 bytes and returns how much |
| RamFs.DeleteRefines | simpleos-main/simpleos/ramfs.c:171-182 | delete removes the one name |
| RamFs.RunRefines | simpleos-main/simpleos/ramfs.c:54-182 | over any run of harmless operations, which all with names of fewer than 32 characters are, the slots hold each name once and stand for the map of at most 32 files |
| RamFs.FilesInNumbers | simpleos-main/simpleos/ramfs.c:83-182 | create, write and delete on at most 32 files, with the first 4096 bytes and the first 31 characters kept |
| RamFs.AppendInNumbers | simpleos-main/simpleos/ramfs.c:128-149 | append adds what fits below 4096 bytes and returns how much that is |
| RamFs.FileLaws | simpleos-main/simpleos/ramfs.c:83-182 | no operation touches another file, append after write concatenates up to 4096 bytes, and delete undoes create |
| RamFs.LongNames | simpleos-main/simpleos/ramfs.c:54-102 | a name of 32 or more characters is never found, and create keeps names unique if and only if the name fits, its first 31 characters are not taken, or nothing is created |
| RamFs.CountIsSize | simpleos-main/simpleos/ramfs.c:208-227 | used slots number the files, and a slot is free exactly when there are fewer than 32 |
| RamFs.FileSystem.Create | simpleos-main/simpleos/ramfs.c:83-102 | the byte arrays go on standing for the map after the create if and only if the name could be created |
| RamFs.FileSystem.Write | simpleos-main/simpleos/ramfs.c:105-125 | the byte arrays hold the map after the write, but for the null pointer on exactly the names that fault |
| RamFs.FileSystem.Append | simpleos-main/simpleos/ramfs.c:128-149 | the byte arrays hold the map after the append |
| RamFs.FileSystem.Read | simpleos-main/simpleos/ramfs.c:152-168 | the buffer gets the first bytes of the file, as many as exist and are asked for, and is otherwise unchanged; -1 if and only if there is no such file |
| RamFs.FileSystem.Delete | simpleos-main/simpleos/ramfs.c:171-182 | the arrays hold the map without the name |
| RamFs.FileSystem.Count | simpleos-main/simpleos/ramfs.c:208-216 | the number of files |
| RamFs.FileSystem.FreeSpace | simpleos-main/simpleos/ramfs.c:219-227 | 4096 bytes for every file that can still be made, so with the count always 32 slots |
| Decimal.ValueOfDigits | OPUS4.5/kernel/string.cpp:128-132 | in every base from 2 to 16 the digits of a number evaluate back to it |
| Decimal.OnlyDigits | OPUS4.5/kernel/string.cpp:128-132 | they are the only digits without a leading zero that do |
| Decimal.ReadsNumber | OPUS4.5/kernel/string.cpp:95-114 | atoi reads spaces, at most one sign, digits and anything after them as the digits' signed value |
| Decimal.RoundTrip | OPUS4.5/kernel/string.cpp:95-141 | atoi gives back every number that itoa wrote in base ten |
| Decimal.RoundTripBack | OPUS4.5/kernel/string.cpp:95-141 | itoa gives back the string that atoi read if and only if it was a canonical number |
| Decimal.SameDecimal | simpleos-main/simpleos/printf.c:8-38 | in base ten printf's itoa writes the same string as the library's |
| Decimal.PrintedValue | simpleos-main/simpleos/printf.c:8-38 | in another base than ten the digits are worth the number modulo 2^32 |
| Decimal.DigitIs | OPUS4.5/kernel/string.cpp:131 | digits are 0 to 9 and then upper-case letters in the library, lower-case ones in printf |
| Decimal.Itoa | OPUS4.5/kernel/string.cpp:116-141 | the buffer holds the numeral and its NUL after emission and in-place reversal, and nothing after it changes |
| Decimal.Atoi | OPUS4.5/kernel/string.cpp:95-114 | returns the number the string starts with, whenever it fits an int |
| Decimal.PrintfItoa | simpleos-main/simpleos/printf.c:8-38 | the buffer holds the signed decimal numeral (that of INT_MIN where its negation wraps), or in another base the digits of the number modulo 2^32 |
| Decimal.Utoa | simpleos-main/simpleos/printf.c:41-64 | the buffer holds the digits of the number and its NUL |

## Left out

- Port I/O, control registers, the TLB, CR3, interrupt and descriptor tables, context switches and all assembly: hardware effects.
- Shells, keyboard tables, banners, printf's format dispatch, draw_rect, and the OS/2 loader, emulator and analyzers: easy lookups or library plumbing.
- SmpSafety.RunKeeps: `sched_set_priority` is taken only of a thread that is not READY and `sched_unblock` only of one that no CPU has in hand, the exact conditions of `PriorityOnlyAtRest` and `WakersMustBeAlone`; taking a lock is one step that waits until it is free instead of a spin loop.
- RunQueues.RunQueue.SetPriority: on one queue, with nothing running beside it.
- RunQueues.StealAcross: two queues; the choice of the victim among all CPUs is in `SmpScheduler.dfy`, on values.
- FIFO order within a priority, since the code does not keep it.
- Counters and PIDs that pass their machine width (`num_threads`, `total_switches`, `next_pid`), and more than 31 CPUs.
- PhysicalMemory.FrameAllocator.Init: memory maps with an available region that passes 4 GB, and pmm_mark_region_used and pmm_mark_region_free, whose loops run past total_pages while the counter follows.
- VirtualMemory.AddressSpaces.AllocPage: addresses that are not page-aligned; zero_page then runs on into the next page.
- VirtualMemory.AddressSpaces.DestroyPageDirectory: the frames freed, exactly; the invariant is not claimed afterwards, because it then fails whenever `PageTables.DestroyBreaks` says so.
- The limits of the identity map through which physical addresses are used as pointers.
- ProcessManager.Manager.CreateProcess: the code page, register contexts and names; the two allocations are one boolean that says whether memory sufficed.
- ProcessManager.Manager.ExitWithCode: the destruction of the page directory; `DestroyPageDirectory` has its effect on frames.
- ProcessManager.Manager.RunScheduler: the switch of page directory and context.
- ProcessFairness.BoundedWaiting: it allows creates, exits and state changes in between, and for them gives the sufficient condition of aligned slots only, since whether one of them opens a trap depends on the PIDs to come; `ProcessTraps` has the exact condition for schedules and ticks.
- Line.Screen.DrawLine: coordinates whose differences or error terms pass 32 bits.
- Terminal.Screen.Puts: the string is the characters before its NUL; the hardware cursor is not modelled.
- Mice.Mouse.Callback: interrupts that arrive during a queue operation, and the event bytes the driver leaves unset.
- RamFs.FileSystem.Write: what happens after a null pointer is used.
- Decimal.PrintfItoa: a compiler for which negating INT_MIN does not wrap.
- Decimal.Itoa: INT_MIN in base ten and negative numbers in other bases, which overflow or index before the digit table.
