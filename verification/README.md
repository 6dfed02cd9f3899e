# Pintos in Dafny

This project models the parts of the Pintos kernel (i386, one processor) where
correctness is hardest to see, and proves what they promise.

| part | files | main results |
|---|---|---|
| scheduler, semaphores, locks, condition variables | `Kernel*.dfy` | a transition system over every interleaving of threads and timer interrupts; scheduler safety, no lost wakeup, token conservation, mutual exclusion, no lost signal, semaphores and signals first come first served, what each call returns with, bounded wait; every step as code over linked lists that share one element per thread |
| lists and `list_sort` | `List*.dfy` | pointer-level natural merge sort: a sorted, stable permutation of the same nodes, with halving runs as its measure |
| `malloc`, `free`, `realloc` | `Malloc*.dfy` | the arena invariant over every call sequence; blocks are disjoint, large enough and keep their bytes; addresses lead back to their arenas |
| hash tables | `Hash*.dfy`, `Bits.dfy` | a resizing table refines a finite map for any compatible hash; iteration visits each element once |
| 64-bit division | `Arithmetic.dfy`, `DivMod.dfy` | exact floor and truncated division out of a 64/32-bit divide that never traps |
| page allocator and bitmaps | `Palloc*.dfy`, `Bitmap.dfy` | packed words refine a sequence of bits; no page has two owners although frees take no lock; an allocation finds the first fitting group and fails only for marks it saw |
| file system ownership | `Fs*.dfy`, `FileSystem.dfy` | who owns each sector, over create, open, remove, close and their failures |
| page directories | `Pte.dfy`, `PageDir.dfy` | a two-level table refines a map, with the rights user code has; destroying it frees each frame once |
| program loading | `UserMemory.dfy`, `Loader.dfy`, `Argv.dfy`, `Exec.dfy` | segments and stack in one memory, read through the page tables; exactly when `load` returns true, and exactly when the segments are then as the ELF specification says; argv reads back as the words of the command line |
| archives, sorting, printing | `Ustar.dfy`, `Heapsort.dfy`, `Print.dfy` | exact text of numbers, names and headers, round trips, and a sorted permutation |

State that the code updates in place is a class whose methods are proved against
functions or predicates on values; the properties are lemmas about those. Where
memory, a page or a disk write may be lacking, the outcome is a parameter. Sizes
and addresses are 32 bits wide where that can be felt.

## Where the code falls short of its comments

Each of these is stated together with the exact condition under which the promise holds
and, where it is not in the condition itself, an input at which it fails.

- `malloc` and the size: a block has at least the bytes asked for if and only if the
  size plus the 12-byte header fits in 32 bits (`Malloc.SizeHonoured`); the largest
  request gets a single page (`Malloc.HugeRequest`). The comment speaks of blocks up
  to 2 kB, the largest descriptor has 1 kB blocks.
- `realloc` for that reason copies past the end of the new block when the size plus the
  header does not fit and the old block has more than 4084 bytes, and only then
  (`Malloc.CopyFitsExactly`, `Malloc.OverrunExample`).
- `umod64` and `smod64` return 32 bits: they are exact for all dividends if and only
  if the divisor is small enough (`Arithmetic.UModExact`, `Arithmetic.SModExact`).
- `bitmap_scan_and_flip` of zero bits returns START, not 0 (`Bitmap.Bitmap.Scan`).
- `hash_clear` keeps the number of buckets, so that afterwards it is the best one if
  and only if it was four (`Hash.HashTable.Clear`).
- `filesys_create`: a failure restores the free map if and only if the file has no data
  or was not allocated; when the file was allocated and its name is bad, taken or
  cannot be written, its data sectors stay marked and owned by nothing
  (`FileSystem.FailedCreate`, `FileSystem.OutcomeExact`, `FileSystem.LeakExample`), in
  every state that later calls lead to (`FileSystem.LeakedForGood`).
- `setup_stack` returns true without a stack when it has no memory to copy the command
  line. With the copy made it writes the arguments whether or not it could map the
  stack page: it stays within a new stack page if and only if there was no copy, or
  the page was mapped and the arguments are at most 128 and fit it
  (`Argv.ContainedExactly`). Without a page its first store faults
  (`Argv.NoPageFaults`); with a segment there it overwrites the segment and returns
  false (`Argv.SegmentOverwritten`).
- `load` may return true over a segment that is no longer as it was loaded: arguments
  that do not fit the stack page go on into the page below it. On a true result the
  segments are in memory if and only if the command line was not copied or every
  segment byte that the arguments reach below the stack page happens to be the byte
  stored there (`Exec.Load`, `Exec.Spared`); no segment byte there is enough
  (`Exec.ClearIsSpared`), but not needed (`Exec.OverlapHarmless`). `Exec.SegmentLost` is
  a segment that is lost.
- `format_integer` renders the digits a precision asks for if and only if the value has
  them, or they fit 63 characters and there are no commas, or only the leading zero of
  `#` octal is missing (`Print.PrecisionReached`, `Print.PrecisionCut`,
  `Print.CommasCounted`).
- `atoi` overflows if and only if the text does not stand for an int (`Print.Atoi`).

## Model

| member | source | states |
|---|---|---|
| `KernelRuns.ReachableInv` | src/threads/thread.c:106-592 | every state reached by any interleaving satisfies the scheduler, wakeup and monitor invariants |
| `KernelRuns.SchedulerSafety` | src/threads/thread.c:213-243 | after any run exactly one thread is RUNNING, the run queue holds exactly the READY threads other than idle, once each, and a sleeping thread is on one wait list only and never on the run queue, so the shared list element is safe |
| `KernelRuns.NeverStuck` | src/threads/synch.c:60-338 | in every reachable state the statement the running thread comes to next is enabled: no assertion on its way can fail |
| `KernelRuns.WakeupsNotLost` | src/threads/synch.c:60-121 | whenever threads wait on a semaphore its value is at most the number of popped threads that have yet to test it again, all of them running or ready, even if others steal tokens |
| `KernelRuns.TokensConserved` | src/threads/synch.c:60-121 | along any run, for any semaphore, initial value plus ups equals final value plus completed downs plus the tokens cond_wait discards when it initialises its private semaphore again, which are none for all other semaphores |
| `KernelRuns.LockExclusion` | src/threads/synch.c:192-237 | the value of a lock's semaphore plus its owners is one, and a non-null holder is that owner |
| `KernelRuns.FreeLockHasTaker` | src/threads/synch.c:192-237 | a free lock with waiters has a woken thread, running or ready, ahead of them |
| `KernelRuns.RecordsAreLive` | src/threads/synch.c:287-338 | a record on a condition's list belongs to a cond_wait that has not returned, once, on one list |
| `KernelRuns.SignalledAwake` | src/threads/synch.c:287-321 | a thread whose private semaphore was upped is not asleep, also when the signal came before its sema_down |
| `KernelRuns.SignalUps` | src/threads/synch.c:311-322 | the up of a signal reaches the semaphore of the popped record and no other, and moves no record |
| `KernelRuns.SignalDelivers` | src/threads/synch.c:311-321 | after a signal its receiver is not blocked |
| `KernelRuns.SignalStays` | src/threads/synch.c:287-303 | no step of any thread but the receiver's own sema_down consumes a signal |
| `KernelRuns.SignalNeverLost` | src/threads/synch.c:287-321 | along any run a signalled thread keeps its signal, awake, until it has left the sema_down of its cond_wait |
| `KernelRuns.RunsAfterSwitches` | src/threads/thread.c:516-592 | the thread at position i of the run queue runs no later than the (i+1)-th call of schedule |
| `KernelRuns.RunsExactlyAfter` | src/threads/thread.c:516-592 | and no earlier: in a run of any length it has run if and only if schedule was called more than i times |
| `KernelRuns.RunsWithinTicks` | src/threads/interrupt.c:345-389 | and within 4(i+1) timer ticks, however the running threads behave |
| `KernelWaits.SleepersServedInOrder` | src/threads/synch.c:60-121 | along any run and for any semaphore, the threads that stop being blocked in its sema_down, followed by the waiters left, are the waiters there were, followed by the threads that became blocked in it, in order |
| `KernelWaits.WokenInTurn` | src/threads/synch.c:60-121 | the thread at position i of a wait list is the (i+1)-th to wake, and waits until then |
| `KernelWaits.WhoSleeps` | src/threads/synch.c:60-121 | in one step only the running thread falls asleep on a semaphore, and goes to the back of its list, and only the front of the list wakes |
| `KernelCalls.DownCalled` | src/threads/synch.c:60-79 | a call of sema_down takes one token at once if there is one, else its thread is asleep on the semaphore |
| `KernelCalls.DownTakesOne` | src/threads/synch.c:60-79 | along any run a sema_down that had to wait returns with exactly one token taken by its thread |
| `KernelCalls.AcquireReturnsHolding` | src/threads/synch.c:192-222 | along any run a thread is in lock_acquire until it is out of it with the lock |
| `KernelCalls.WaitReturnsSignalled` | src/threads/synch.c:287-302 | along any run a cond_wait that returns has let the lock go, has taken exactly one signal of its own, and holds the lock again |
| `KernelCalls.WholeSlice` | src/threads/thread.c:123-140 | a thread that does not give the processor up runs on while fewer than four ticks are charged to it |
| `KernelCalls.SliceOver` | src/threads/interrupt.c:345-389 | the fourth tick puts it at the back of the run queue, unless it is idle, and the front runs with a new slice |
| `KernelOrder.DeadStayDead` | src/threads/thread.c:541-592 | along any run a thread that is dying or freed is never again running, on the run queue or idle, until thread_create reuses its page |
| `KernelOrder.DeadStep` | src/threads/thread.c:541-592 | no step brings a dying or freed thread back |
| `KernelOrder.FirstComeFirstServed` | src/threads/synch.c:287-338 | along any run, records that left a condition's list followed by those on it are those that were there followed by those that came |
| `KernelOrder.OneUpPerPop` | src/threads/synch.c:311-322 | along any run, the records upped are the records popped, in order, but for one that is pending |
| `KernelOrder.SignalledInTurn` | src/threads/synch.c:287-322 | with n records popped but not yet upped, none or one, the record at index i of a condition's list is the (n+i+1)-th to be signalled and by none of the signals before; until then it is on the list or pending |
| `KernelOrder.SignalReleasesOne` | src/threads/synch.c:311-322 | a call of cond_signal, however interleaved, ups exactly the front record, which leaves the list |
| `KernelOrder.BroadcastSignalsAll` | src/threads/synch.c:330-338 | a call of cond_broadcast, however interleaved, ups every record it found, first to last, and leaves the list empty |
| `KernelSched.StepKeepsSched` | src/threads/thread.c:166-339 | every step keeps the scheduler invariant |
| `KernelSched.SomeoneToRun` | src/threads/thread.c:516-523 | whenever schedule may be called there is a thread to run |
| `KernelSched.FrontIsBlocked` | src/threads/thread.c:225-243 | the assertion of thread_unblock holds for every thread sema_up pops |
| `KernelWake.StepKeepsWake` | src/threads/synch.c:60-121 | every step keeps the no-lost-wakeup invariant |
| `KernelSteps.StepKeepsMonitor` | src/threads/synch.c:192-338 | every step keeps the invariant of locks, program counters and condition lists |
| `KernelEvents.ValStep` | src/threads/synch.c:60-121 | a step changes a semaphore's value by its up and down and nothing else |
| `KernelEvents.QueueStep` | src/threads/thread.c:325-339 | a step moves a queued thread forward exactly when it switches |
| `KernelCode.Machine.NextThreadToRun` | src/threads/thread.c:516-523 | unlinks the first node of the run queue and returns the thread it is part of, or idle when there is none |
| `KernelCode.Machine.Schedule` | src/threads/thread.c:578-592 | computes the switch of the transition system |
| `KernelCode.Machine.ThreadBlock` | src/threads/thread.c:213-221 | blocks the running thread and switches |
| `KernelCode.Machine.ThreadUnblock` | src/threads/thread.c:231-243 | links the thread's one list element into the run queue, given that it is on no list, and keeps all lists sound |
| `KernelCode.Machine.ThreadYield` | src/threads/thread.c:325-339 | relinks the running thread's element at the back of the run queue, unless it is idle, and switches |
| `KernelCode.Machine.ThreadExit` | src/threads/thread.c:299-321 | the running thread is dying and another one runs |
| `KernelCode.Machine.TimerInterrupt` | src/threads/interrupt.c:345-389 | the timer interrupt is the Tick transition, with the interrupt flags clear again at the end |
| `KernelCode.Machine.SemaUp` | src/threads/synch.c:108-121 | moves the element of the first waiter, which is blocked, from the wait list to the run queue, and increments |
| `KernelCode.Machine.SemaDownTrip` | src/threads/synch.c:60-79 | one trip through the waiting loop: the element is on the wait list and the thread asleep, or the value is decremented |
| `KernelCode.Machine.constructor` | src/threads/thread.c:87-118 | the kernel as the idle thread is created, with its lists linked, is an initial state of the transition system |
| `KernelCode.ElemIsFree` | src/threads/thread.h:78-83 | the element of a thread neither READY nor BLOCKED in a sema_down is on no list: the mutual exclusion that lets the run queue and the wait lists share it |
| `KernelCode.CalmBetweenSteps` | src/threads/thread.h:78-83 | the invariant of all runs gives every step the free elements it is going to link |
| `KernelCode.Machine.Perform` | src/threads/synch.c:60-338 | each of the 21 steps, from thread_yield to cond_broadcast, is done by code on the linked lists: it computes the transition, keeps every link sound and the invariant true |
| `KernelCode.Machine.PerformAll` | src/threads/synch.c:60-338 | so every run of the transition system is a run of that code |
| `KernelQueues.Queues.PushBack` | src/threads/thread.h:78-99 | appends a thread that is on no list; every other list keeps its nodes and links |
| `KernelQueues.Queues.RemoveFront` | src/lib/kernel/list.c:248-265 | unlinks the first node of one list and touches no other list |
| `KernelQueues.Queues.PopFront` | src/lib/kernel/list.c:259-265 | returns the thread of the first node, which is then on no list at all |
| `KernelQueues.Queues.Alone` | src/threads/thread.h:78-83 | a thread at the front of a list is on no other list, and on this one once |
| `KernelQueues.Queues.NotOnList` | src/threads/thread.h:78-83 | a thread's element is a node of no list that the thread is not on |
| `List.List.constructor` | src/lib/kernel/list.c:60-68 | an empty list with both sentinels linked |
| `List.List.Insert` | src/lib/kernel/list.c:168-178 | links a node in front of another and keeps all links well formed |
| `List.List.Remove` | src/lib/kernel/list.c:248-255 | unlinks a node |
| `List.List.Splice` | src/lib/kernel/list.c:183-204 | moves a range in front of a node of the same list outside it, in order, touching no other node |
| `List.List.SpliceFrom` | src/lib/kernel/list.c:183-204 | moves a range out of another list in front of a node of this one; both lists stay sound |
| `List.List.FindEndOfRun` | src/lib/kernel/list.c:357-375 | the end of the maximal run that starts here |
| `List.List.InplaceMerge` | src/lib/kernel/list.c:379-399 | splices two adjacent runs into their merge |
| `List.List.SortPass` | src/lib/kernel/list.c:411-438 | one pass of list_sort: merges pairs of runs and counts the runs it leaves |
| `List.List.Sort` | src/lib/kernel/list.c:404-440 | for any strict weak order: the same nodes, sorted, equivalent ones in the order they had |
| `ListSpec.MergeSorts` | src/lib/kernel/list.c:379-399 | the merge of two sorted runs is sorted |
| `ListSpec.MergeStable` | src/lib/kernel/list.c:379-399 | and keeps the order of equivalent nodes |
| `ListSpec.MergePermutes` | src/lib/kernel/list.c:379-399 | and consists of the same nodes |
| `ListSpec.PassHalves` | src/lib/kernel/list.c:411-438 | a pass takes r natural runs to at most ceil(r/2), and that is the count it returns |
| `ListSpec.PassStable` | src/lib/kernel/list.c:411-438 | a pass keeps the order of equivalent nodes |
| `ListSpec.PassPermutes` | src/lib/kernel/list.c:411-438 | a pass keeps the nodes |
| `ListOrder.WeightsExist` | src/lib/kernel/list.c:404-410 | every strict weak order is the order of integer weights on finitely many nodes |
| `Malloc.Allocator.constructor` | src/threads/malloc.c:71-85 | the seven descriptors with their block sizes and counts |
| `Malloc.Allocator.FindDesc` | src/threads/malloc.c:100-104 | the smallest descriptor that holds the size |
| `Malloc.Allocator.AddArena` | src/threads/malloc.c:137-145 | a new page becomes an arena with all its blocks queued |
| `Malloc.Allocator.Malloc` | src/threads/malloc.c:89-154 | when it succeeds and fails; the address leads back to a block that was not handed out, of the smallest kind that holds the size; a page is taken exactly when no such block is free; every other block stays where it is, and the arena invariant is kept |
| `Malloc.Allocator.MallocBig` | src/threads/malloc.c:105-120 | the same for blocks of whole pages |
| `Malloc.Allocator.MallocSmall` | src/threads/malloc.c:122-153 | the same for blocks of a page |
| `Malloc.Allocator.Free` | src/threads/malloc.c:218-264 | the arena is found by rounding the address; exactly this block is no longer handed out, all others keep their place and their bytes |
| `Malloc.Allocator.UnlinkAll` | src/threads/malloc.c:247-251 | takes exactly the blocks of one arena off the free list |
| `Malloc.Allocator.Requeue` | src/threads/malloc.c:238-253 | the block is queued in front, and the arena goes back exactly when all of it is free, with its blocks unlinked and the assertion on its count holding |
| `Malloc.Allocator.Realloc` | src/threads/malloc.c:194-214 | when it succeeds; null is malloc, zero is free, else the new block starts with the old contents up to the smaller size and all other blocks keep their bytes; and when the copy would leave the new block |
| `Malloc.Allocator.BlockToArena` | src/threads/malloc.c:267-282 | rounding the address of a block down gives its arena, and the assertions on it hold |
| `Malloc.Allocator.SizeOf` | src/threads/malloc.c:178-186 | the capacity of the block at an address |
| `Malloc.BlockAtLinear` | src/threads/malloc.c:267-294 | the address of a block handed out leads back to it, so no two blocks share one, and is aligned as block_to_arena asserts |
| `Malloc.CopyFitsExactly` | src/threads/malloc.c:204-211 | realloc's copy stays inside the new block if and only if size plus header fits in 32 bits or the old block has at most 4084 bytes |
| `Malloc.OverrunExample` | src/threads/malloc.c:204-211 | a heap in which growing 5000 bytes to 2^32 - 1 copies 8180 bytes into 4084 |
| `Malloc.LiveDisjoint` | src/threads/malloc.c:285-294 | blocks handed out do not overlap each other |
| `Malloc.LiveOffHeaders` | src/threads/malloc.c:285-294 | nor any arena header |
| `Malloc.InsideArena` | src/threads/malloc.c:285-294 | a block lies inside its arena, behind the header |
| `Malloc.SizeHonoured` | src/threads/malloc.c:87-120 | a block has the bytes asked for if and only if size plus header fits in 32 bits |
| `Malloc.HugeRequest` | src/threads/malloc.c:105-120 | the largest request gets one page |
| `Malloc.PopFacts` | src/threads/malloc.c:148-153 | taking the front block keeps the invariant and gives out a new block |
| `Malloc.FreedKeeps` | src/threads/malloc.c:238-253 | giving a block back keeps the invariant: every arena retained has a block handed out |
| `MallocInv.ArenasInUse` | src/threads/malloc.c:238-263 | nothing leaks: between calls, the arenas are exactly those of the blocks handed out |
| `MallocSteps.TakeKeeps` | src/threads/malloc.c:148-153 | free_cnt stays the number of an arena's blocks on the free list when one is taken |
| `MallocSteps.GrowKeeps` | src/threads/malloc.c:137-145 | a new arena keeps the invariant but for having no block handed out yet |
| `MallocFree.GiveKeeps` | src/threads/malloc.c:238-242 | free_cnt stays exact when a block is queued |
| `MallocFree.DropKeeps` | src/threads/malloc.c:241-253 | returning a full arena leaves no trace of it |
| `MallocLayout.AddressInverts` | src/threads/malloc.c:267-294 | block_to_arena and its assertions invert arena_to_block |
| `MallocLayout.OffsetsApart` | src/threads/malloc.c:285-294 | distinct blocks of an arena do not overlap and stay in its page |
| `MallocLayout.PagesForEnough` | src/threads/malloc.c:105-109 | when the computed page count holds the request, that it is the least such, and what it is when the size wraps |
| `MallocLayout.SizesDouble` | src/threads/malloc.c:71-85 | block sizes double from 16 bytes and are all those below half a page |
| `MallocLayout.PerArenaFits` | src/threads/malloc.c:76-84 | as many blocks as fit in a page behind the header |
| `Bits.MaskIsMod` | src/lib/kernel/hash.c:305-310 | masking with a power of two less one is the remainder |
| `Bits.PowerOfTwoTest` | src/lib/kernel/hash.c:329-341 | x & (x - 1) is zero exactly for powers of two |
| `Bits.TurnOffKeepsTop` | src/lib/kernel/hash.c:329-334 | turning off the lowest bit of another number keeps it above the same power of two |
| `HashSpec.MatchUnique` | src/lib/kernel/hash.c:314-327 | a lookup has only one answer |
| `HashSpec.MatchInBucket` | src/lib/kernel/hash.c:305-327 | an element is found in the bucket its hash selects or nowhere |
| `Hash.BestCountExists` | src/lib/kernel/hash.c:364-372 | there is exactly one largest power of two not above max(4, n/2) |
| `Hash.HashTable.constructor` | src/lib/kernel/hash.c:24-43 | an empty table with the best bucket count |
| `Hash.HashTable.FindBucket` | src/lib/kernel/hash.c:305-310 | the bucket is hash mod bucket_cnt |
| `Hash.HashTable.FindElem` | src/lib/kernel/hash.c:314-327 | finds the same element in a bucket exactly when there is one |
| `Hash.HashTable.Find` | src/lib/kernel/hash.c:131-135 | the answer of the map |
| `Hash.HashTable.Insert` | src/lib/kernel/hash.c:98-110 | adds the element exactly when none is the same, and returns the one that is |
| `Hash.HashTable.Replace` | src/lib/kernel/hash.c:114-127 | adds the element in place of the one that is the same |
| `Hash.HashTable.Delete` | src/lib/kernel/hash.c:144-154 | removes exactly the element that is the same; the bucket count stays the best |
| `Hash.HashTable.IdealCount` | src/lib/kernel/hash.c:364-372 | the loop over the low bits ends at the best count |
| `Hash.HashTable.Rehash` | src/lib/kernel/hash.c:351-413 | contents are the same whether or not the allocation succeeds; with it the count is the best |
| `Hash.HashTable.MoveAll` | src/lib/kernel/hash.c:395-410 | every element moves to the bucket its hash selects |
| `Hash.HashTable.InsertElem` | src/lib/kernel/hash.c:416-421 | one more element, counted |
| `Hash.HashTable.RemoveElem` | src/lib/kernel/hash.c:424-429 | one element less, counted |
| `Hash.HashTable.Clear` | src/lib/kernel/hash.c:53-75 | the destructor is called on every element once; afterwards the bucket count is the best if and only if it was four |
| `Hash.HashIterator.constructor` | src/lib/kernel/hash.c:199-207 | nothing visited yet |
| `Hash.HashIterator.Next` | src/lib/kernel/hash.c:218-235 | an element not returned before, or null exactly when all have been |
| `Hash.Iterate` | src/lib/kernel/hash.c:180-198 | the iteration idiom lists every element exactly once, elem_cnt in all |
| `Arithmetic.Nlz` | src/lib/arithmetic.c:41-73 | the number of leading zeros |
| `Arithmetic.SmallDivisor` | src/lib/arithmetic.c:80-112 | both divides of the small case stay below the trap and give the quotient |
| `Arithmetic.Estimate` | src/lib/arithmetic.c:113-126 | the normalised estimate is exact or one too big |
| `Arithmetic.LargeDivisor` | src/lib/arithmetic.c:113-126 | the divide of the large case does not trap and the correction gives the quotient |
| `Arithmetic.UDiv64` | src/lib/arithmetic.c:77-127 | floor division for all n and all d > 0 |
| `Arithmetic.UMod64` | src/lib/arithmetic.c:131-135 | the remainder cut to 32 bits |
| `Arithmetic.UModExact` | src/lib/arithmetic.c:131-135 | exact for every dividend if and only if the divisor is at most 2^32 |
| `Arithmetic.SDiv64` | src/lib/arithmetic.c:139-146 | division truncated toward zero, but for INT64_MIN / -1 |
| `Arithmetic.TruncatedDivision` | src/lib/arithmetic.c:139-154 | the quotient and remainder are those of truncated division |
| `Arithmetic.SMod64` | src/lib/arithmetic.c:150-154 | the truncated remainder cut to 32 bits |
| `Arithmetic.SModExact` | src/lib/arithmetic.c:150-154 | exact for every dividend if and only if the divisor is at most 2^31 in absolute value |
| `Bitmap.Bitmap.constructor` | src/lib/kernel/bitmap.c:99-110 | all bits clear, whatever the storage held |
| `Bitmap.Bitmap.Mark` | src/lib/kernel/bitmap.c:156-165 | sets exactly one bit of the sequence |
| `Bitmap.Bitmap.Reset` | src/lib/kernel/bitmap.c:169-178 | clears exactly one bit |
| `Bitmap.Bitmap.Flip` | src/lib/kernel/bitmap.c:184-193 | toggles exactly one bit |
| `Bitmap.Bitmap.Test` | src/lib/kernel/bitmap.c:197-203 | reads a bit |
| `Bitmap.Bitmap.TrimLast` | src/lib/kernel/bitmap.c:340-352 | clears the storage past the last bit and no bit in use |
| `Bitmap.Bitmap.SetMultiple` | src/lib/kernel/bitmap.c:217-228 | sets exactly a range |
| `Bitmap.Bitmap.Count` | src/lib/kernel/bitmap.c:232-246 | the size of the set of places in a range where the bit has the value |
| `Bitmap.Bitmap.Contains` | src/lib/kernel/bitmap.c:250-263 | whether a range has a bit of a value |
| `Bitmap.Bitmap.Scan` | src/lib/kernel/bitmap.c:295-310 | the least index with a fitting group, and failure only if there is none |
| `Bitmap.Bitmap.ScanAndFlip` | src/lib/kernel/bitmap.c:319-326 | the same, with exactly that group flipped |
| `Bits.BitwiseOps` | src/lib/kernel/bitmap.c:156-193 | and, or and exclusive or work bit by bit |
| `Bits.TestBit` | src/lib/kernel/bitmap.c:197-203 | a one-bit mask reads the bit |
| `Palloc.Reachable` | src/threads/palloc.c:70-142 | the ownership invariant holds after every interleaving of allocations and frees, bit by bit |
| `Palloc.NeverHandedTwice` | src/threads/palloc.c:70-142 | a page a thread holds stays its own until it gives it up, and no step grants it again |
| `Palloc.GrantFresh` | src/threads/palloc.c:80-87 | a page being handed out belonged to nobody |
| `Palloc.FreeAssertion` | src/threads/palloc.c:140-141 | the bitmap_all assertion of a free holds at each of its tests |
| `Palloc.QuietPool` | src/threads/palloc.c:117-142 | with no call at work, the marked pages are exactly the held ones |
| `PallocRuns.AllocAlone` | src/threads/palloc.c:70-103 | alone, an allocation ends with exactly the pages at the least place where enough bits were clear, all else unchanged, and with nothing only if there is no such place |
| `PallocRuns.AllocEnds` | src/threads/palloc.c:70-103 | and it ends |
| `PallocRuns.PassedForAMark` | src/threads/palloc.c:80-82 | with any frees at work beside it, it saw a mark in every group it has passed over since it began |
| `PallocRuns.EndsForAMark` | src/threads/palloc.c:80-87 | so it ends with a group having seen a mark in each before it, or with nothing having seen one in every group there is |
| `PallocRuns.FreeAlone` | src/threads/palloc.c:117-142 | alone, a free ends with exactly its pages clear and nobody's |
| `PallocInit.PoolsApart` | src/threads/palloc.c:45-62 | the pools and their bitmaps share no page, fill free memory, and the bitmaps fit; the user pool has half of it, rounded down, or what the limit allows |
| `PallocInit.OnePool` | src/threads/palloc.c:153-170 | the bitmap in front of a pool is large enough for its pages and takes no page too many |
| `PallocInit.PanicsExactly` | src/threads/palloc.c:153-162 | gives up if and only if a bitmap for the pages is larger than the pages |
| `PallocInit.FreeFindsPool` | src/threads/palloc.c:117-182 | a page is found in the pool it came from, at its index, and in no other |
| `FsModel.ExtentsDisjoint` | src/filesys/inode.c:73-107 | extents of files that can be reached share no sector and are marked |
| `FsModel.NamedAndOpenLive` | src/filesys/inode.c:112-143 | named and open inodes are marked |
| `FsModel.MarkedHasReason` | src/filesys/free-map.c:27-50 | nothing else is marked, but for sectors lost in a failed creation |
| `FsModel.NamesApart` | src/filesys/filesys.c:45-59 | two names are two files |
| `FsModel.BytesStayInside` | src/filesys/inode.c:47-55 | every byte of an open file is on a sector of its own |
| `FsModel.BlocksInOrder` | src/filesys/inode.c:47-55 | the k-th block of 512 bytes is on the k-th sector of the extent, so two bytes share a sector exactly when they share a block; none past the end |
| `FsModel.SectorsLeast` | src/filesys/inode.c:26-30 | a file has the least number of sectors that holds its bytes |
| `FsModel.DeniersAreOpeners` | src/filesys/inode.c:332-348 | deny_write_cnt is the number of open files that deny writes and the assertions around it hold |
| `FsModel.FormattedInv` | src/filesys/filesys.c:94-103 | a formatted disk satisfies the invariant |
| `FileSystem.ReleasedOnce` | src/filesys/inode.c:164-187 | a removed file's inode and data are released at its last close and at no other |
| `FileSystem.MadeFile` | src/filesys/filesys.c:45-59 | when the file is allocated and its entry written, it has its size and sectors that were free; all else is as before |
| `FileSystem.FailedCreate` | src/filesys/filesys.c:45-59 | a failed creation restores the free map if and only if the file has no data or was not allocated; otherwise exactly its data sectors stay marked, owned by nothing |
| `FileSystem.OutcomeExact` | src/filesys/filesys.c:45-59 | for every input: made, leaked or nothing, each if and only if root, room, writes, memory, name and entry say so, at the first fitting sectors |
| `FileSystem.FirstFitIs` | src/lib/kernel/bitmap.c:295-310 | the sectors found are those of first fit |
| `FileSystem.LeakExample` | src/filesys/filesys.c:45-59 | creating a taken name with one byte, nothing failing, marks a sector that nothing refers to |
| `FileSystem.LeakedForGood` | src/filesys/filesys.c:45-59 | the data sectors of a creation that fails at its entry stay marked and lost in every state later calls lead to |
| `FileSystem.LostForGood` | src/filesys/free-map.c:27-50 | a marked sector that nothing refers to stays so over any number of calls that keep such sectors |
| `FileSystem.CreateKeepsLost` | src/filesys/filesys.c:45-59 | creation keeps them, however it ends |
| `FileSystem.RemoveKeepsLost` | src/filesys/directory.c:184-216 | so does a removal |
| `FileSystem.CloseKeepsLost` | src/filesys/inode.c:164-187 | so does a close |
| `FileSystem.FileSystem.constructor` | src/filesys/filesys.c:17-31 | formatting: the layout the allocations give |
| `FileSystem.FileSystem.Allocate` | src/filesys/free-map.c:27-41 | the first fitting sectors exactly when the map can be written, or an exact rollback |
| `FileSystem.FileSystem.ReleaseSectors` | src/filesys/free-map.c:44-50 | releases sectors nothing refers to; the assertion holds |
| `FileSystem.FileSystem.InodeCreate` | src/filesys/inode.c:73-107 | fails exactly without memory, a write of the map or a fitting run, changing nothing; else a new inode and zeroed data, no other inode on disk touched |
| `FileSystem.FileSystem.InodeOpen` | src/filesys/inode.c:112-143 | the inode in memory if there is one, so at most one per sector; fails exactly when there is none and no memory |
| `FileSystem.FileSystem.InodeClose` | src/filesys/inode.c:164-187 | one opener less; the last one drops the inode and, if removed, its sectors |
| `FileSystem.FileSystem.Create` | src/filesys/filesys.c:45-59 | succeeds if and only if the file can be allocated and its entry written; the disk becomes what the inputs' outcome says, lost sectors stay lost, and the invariant is kept |
| `FileSystem.FileSystem.Open` | src/filesys/filesys.c:66-77 | a new file on the inode the name stands for, if and only if the name is there and memory is; no change to names and sectors |
| `FileSystem.FileSystem.Remove` | src/filesys/filesys.c:83-91 | succeeds if and only if the name is there, its inode can be opened and the entry written; then the name goes, with the sectors exactly when the file is not open; lost sectors stay lost |
| `FileSystem.FileSystem.RemoveIn` | src/filesys/directory.c:184-216 | the same with the directory open: the sectors go with the name exactly when the file is not open |
| `FileSystem.FileSystem.DirAdd` | src/filesys/directory.c:141-179 | a valid new name takes over the file's sectors |
| `FileSystem.FileSystem.Lookup` | src/filesys/directory.c:118-133 | opens the inode a name stands for, exactly when the name is there and the inode is or can be in memory |
| `FileSystem.FileSystem.FileOpen` | src/filesys/file.c:17-34 | the file takes over the hold on its inode, or gives it up |
| `FileSystem.FileSystem.FileReopen` | src/filesys/file.c:38-42 | a second file on the same inode |
| `FileSystem.FileSystem.FileClose` | src/filesys/file.c:45-54 | the file is gone, its denial of writes and its hold with it; sectors are released if and only if it was the last opener of a removed file; lost sectors stay lost |
| `FileSystem.FileSystem.DenyWrite` | src/filesys/file.c:118-127 | counted once per file; the inode's assertion holds |
| `FileSystem.FileSystem.AllowWrite` | src/filesys/file.c:132-141 | undone once per file; the inode's assertions hold |
| `Pte.SplitAddress` | src/threads/pte.h:20-39 | the 10/10/12 split of an address loses nothing and is division by page and table size |
| `Pte.PteRoundTrip` | src/threads/pte.h:87-104 | a page table entry reads back as its frame and flags |
| `Pte.PdeRoundTrip` | src/threads/pte.h:70-81 | a directory entry reads back as its table's frame, present |
| `Pte.AddressBits` | src/threads/pte.h:78-104 | the address bits of an entry are its frame's address |
| `PageDir.PageDirectory.constructor` | src/userprog/pagedir.c:16-23 | a new directory maps no user page |
| `PageDir.PageDirectory.Find` | src/userprog/pagedir.c:56-86 | finds the entry of a page, without creating a table |
| `PageDir.PageDirectory.FindOrCreate` | src/userprog/pagedir.c:56-86 | a new page table maps nothing |
| `PageDir.PageDirectory.SetPage` | src/userprog/pagedir.c:98-119 | exactly one page becomes mapped, to this frame with this permission, for user code on both levels, neither accessed nor dirty; no other entry changes but that of a new page table, which lets user code read and write |
| `PageDir.PageDirectory.GetPage` | src/userprog/pagedir.c:125-137 | the kernel address of the byte at a user address |
| `PageDir.PageDirectory.ClearPage` | src/userprog/pagedir.c:143-157 | exactly one page becomes unmapped; every other bit of every entry stays |
| `PageDir.PageDirectory.SetFlagOf` | src/userprog/pagedir.c:172-215 | dirty and accessed updates change no mapping and no bit but their own |
| `PageDir.PageDirectory.Destroy` | src/userprog/pagedir.c:27-48 | the frames freed, in order; none twice and no page table of the kernel's half, when no frame is shared |
| `PageDir.FreedMembers` | src/userprog/pagedir.c:27-48 | freed for the directory entries below the limit are exactly the frames their pages map to and their page tables |
| `PageDir.FreedOnce` | src/userprog/pagedir.c:27-48 | nothing of that is freed twice when pages share no frame |
| `PageDir.DestroyedOnce` | src/userprog/pagedir.c:27-48 | with the directory's own frame included nothing is freed twice, and no page table of the kernel's half is freed |
| `Loader.ValidateExact` | src/userprog/process.c:348-389 | accepted are exactly the segments that lie, without wrapping, between the first page and the kernel |
| `Loader.SegmentSizes` | src/userprog/process.c:301-320 | no 32-bit step wraps and load_segment's assertion holds |
| `Loader.FilledIsLoaded` | src/userprog/process.c:298-329 | the pages load_segment fills make up the segment |
| `Loader.Process.InstallPage` | src/userprog/process.c:512-523 | through the page tables, as far as their user flags let the process, exactly one page more is seen, with the bytes of its frame; succeeds if and only if it was not mapped and there is a page table or a frame for one |
| `Loader.Process.LoadSegment` | src/userprog/process.c:405-448 | succeeds if and only if the file has the bytes and there is room for the pages; file bytes, then zeros, page by page; earlier pages stay, and no page is new, on failure either, but those of the segment |
| `Loader.Process.LoadOne` | src/userprog/process.c:298-327 | succeeds if and only if the segment is valid, in the file, and there is room; then it is in memory; no other page is new, and none in the first page or the kernel's half |
| `Loader.Process.LoadAll` | src/userprog/process.c:272-329 | goes on if and only if no header is refused, all segments are valid and in the file, and there is room for all their pages; then all are in memory at the same time, protected as flagged, and exactly the room for them is taken; on failure as well every new page is one of the segments', above the first page and below the kernel |
| `Loader.Process.constructor` | src/userprog/process.c:246-250 | a new process sees no memory |
| `Loader.Process.ReadPage` | src/userprog/process.c:422-433 | a frame with the file's bytes and zeros that no page maps to, or after a short read none, with the frame given back |
| `Loader.Process.LoadPage` | src/userprog/process.c:414-446 | one page more, exactly when it is not mapped, there are frames and the file has the bytes |
| `Loader.Process.StoreByte` | src/userprog/process.c:472-499 | a store through the page tables: allowed exactly where a writable page is, then that byte differs and nothing else |
| `Loader.Process.TakeKernelPage` | src/userprog/process.c:457-461 | a page for the kernel, if and only if there is one; the process sees nothing of it |
| `Loader.GrabKeeps` | src/userprog/process.c:422-433 | filling a frame fresh from the allocator changes nothing the process sees |
| `Loader.InstalledKeeps` | src/userprog/process.c:512-523 | mapping a taken frame that no page maps to keeps frames unshared and apart from page tables and free frames |
| `Loader.FitAllExact` | src/userprog/process.c:405-448 | pages can be mapped one after the other if and only if they differ from each other and from the mapped ones and there are frames for them and for the page tables they need |
| `Loader.LoadedUnshared` | src/userprog/pagedir.c:27-48 | whatever was loaded, destroying the directory frees no frame twice |
| `Argv.TokensSolid` | src/lib/string.c:209-275 | tokens are not empty and hold no delimiter |
| `Argv.TokensSplit` | src/lib/string.c:209-275 | the text is its tokens with delimiters only before, between and after them, at least one between two: they are the maximal runs, in order |
| `Argv.StrLcpy` | src/lib/string.c:325-343 | the first bytes of the source, as many as fit before a null byte |
| `Argv.StackPacked` | src/userprog/process.c:472-499 | no byte is wasted: each string ends where the one before begins, and the last begins where the words end |
| `Argv.StrtokR` | src/lib/string.c:234-275 | for any delimiters: the next maximal run of other bytes, as a string in place, and where the rest is |
| `Argv.Stack.PushTokens` | src/userprog/process.c:475-483 | every token on the stack, in order, each below the one before; a fault if the top page is not writable, an overrun of the pointer array if and only if there are more than 128 |
| `Argv.Stack.PushPointers` | src/userprog/process.c:484-491 | the pointers in order and a null behind them, if and only if the pages they go to are writable |
| `Argv.Stack.Build` | src/userprog/process.c:472-499 | for any command line: ends well exactly when every store is allowed and there are at most 128 words; then, read back from esp, argc, argv and the strings are exactly the tokens |
| `Argv.Stack.SetupStack` | src/userprog/process.c:452-501 | which of its four ends it comes to for any command line, protection and free pages, what memory and which pages are there in each, and that a true result means the arguments are in place if and only if the command line was copied |
| `Argv.TokensSize` | src/userprog/process.c:477-483 | the strings take at most one byte more than the command line, so they fit the stack page |
| `Argv.ContainedExactly` | src/userprog/process.c:452-501 | stores stay within a new stack page if and only if there was no copy, or the page was mapped and at most 128 arguments fit it |
| `Argv.NoPageFaults` | src/userprog/process.c:462-485 | without a stack page the first store goes to an unmapped page, whatever the command line |
| `Argv.SegmentOverwritten` | src/userprog/process.c:464-500 | where a segment has the top page, its last bytes are overwritten although the result is false |
| `Exec.Load` | src/userprog/process.c:272-341 | header loop and stack on one memory: how it ends for any headers, file, command line, protection and free pages; no page is new but those of the segments and the stack page; on a true result all segments are in memory if and only if there was no copy or the arguments spare them, and argv reads back if there was one |
| `Exec.TrueExactly` | src/userprog/process.c:272-341 | it returns true if and only if headers and file are in order, there is room for all segments, and either no page is left for the copy, or the stack page can be mapped, the arguments are at most 128, and what does not fit the stack page goes to a writable page |
| `Exec.AllSpared` | src/userprog/process.c:331-333 | a stack on top leaves all segments in memory if and only if each of their bytes it reaches is the byte it stores |
| `Exec.ClearIsSpared` | src/userprog/process.c:331-333 | no segment byte in reach of the arguments below the stack page is enough for that |
| `Exec.OverlapHarmless` | src/userprog/process.c:331-333 | and not needed: one byte in reach, zero in both |
| `Exec.SegmentLost` | src/userprog/process.c:331-341 | a writable segment in the page below the stack and a command line of 4090 letters: true, and the segment is not spared |
| `Exec.FrameByteAt` | src/userprog/process.c:484-499 | which byte each address from esp up to the strings holds |
| `UserMemory.PutStores` | src/userprog/process.c:472-499 | a byte put into its page is read back at its address and changes no other |
| `Ustar.StripIdempotent` | src/lib/ustar.c:65-73 | stripping a name leaves nothing to strip |
| `Ustar.Strip` | src/lib/ustar.c:65-73 | the name is pieces "/", "./" and "../" and a rest that starts with none; the result is the rest, or "." where that is empty or ".." |
| `Ustar.SplitOnce` | src/lib/ustar.c:65-73 | a name can be split in only one such way |
| `Ustar.ParseOctal` | src/lib/ustar.c:129-162 | a field's value, or failure exactly when it is empty, unterminated, not octal or too large |
| `Ustar.OctalText` | src/lib/ustar.c:100-115 | a value in exactly so many octal digits |
| `Ustar.Checksum` | src/lib/ustar.c:36-54 | the sum of the header, its checksum field counted as spaces |
| `Ustar.SumIgnoresField` | src/lib/ustar.c:36-54 | the checksum does not depend on its own field |
| `Ustar.SumChanges` | src/lib/ustar.c:36-54 | changing one byte outside the field changes the checksum by as much |
| `Ustar.SumOfZeros` | src/lib/ustar.c:36-54 | with all bytes zero it is that of eight spaces |
| `Ustar.MakeHeader` | src/lib/ustar.c:82-118 | fails exactly for names over 99 bytes; else what every byte of the header is: name, mode, owners, size, time, checksum, type, magic, and zeros elsewhere |
| `Ustar.ParseHeader` | src/lib/ustar.c:181-227 | accepts exactly the headers that qualify, as what they say, and reports the first defect of any other |
| `Ustar.AcceptedExactly` | src/lib/ustar.c:181-227 | a header can be accepted if and only if it has none of the eight defects |
| `Ustar.MadeIsAccepted` | src/lib/ustar.c:82-227 | a header that was made is accepted as what it was made for |
| `Ustar.MakeThenParse` | src/lib/ustar.c:82-227 | round trip: the stripped name, the type and the size, 0 for directories |
| `Heapsort.WeightsFor` | src/lib/stdlib.c:124-131 | every total preorder is the order of integer weights on finitely many elements |
| `Heapsort.SwapDown` | src/lib/stdlib.c:96-123 | one step down keeps the heap but for the next hole |
| `Heapsort.RootIsMax` | src/lib/stdlib.c:145-151 | nothing in a heap is above its root |
| `Heapsort.Heapify` | src/lib/stdlib.c:96-123 | restores the heap below an index, permuting only that part |
| `Heapsort.Sort` | src/lib/stdlib.c:131-152 | a sorted permutation for any total preorder |
| `Heapsort.BinarySearch` | src/lib/stdlib.c:184-207 | finds a match exactly when there is one |
| `Heapsort.SortThenSearch` | src/lib/stdlib.c:131-207 | searching after sorting finds what was there before |
| `Print.Render` | src/lib/stdio.c:501-524 | stays in the buffer, reads back to the value, and has exactly the length and the comma places of the value, base, flags and precision |
| `Print.DigitsComplete` | src/lib/stdio.c:501-513 | the digit loop writes all digits of the value, no leading zero, and a comma at each place for one and nowhere else |
| `Print.DigitsFit` | src/lib/stdio.c:475-513 | at most 44 characters, so the buffer is large enough |
| `Print.NumDigitsLeast` | src/lib/stdio.c:506-513 | the loop's number of turns is the least number of digits that can hold the value |
| `Print.CommaDue` | src/lib/stdio.c:508-509 | a comma is written after every group of digits and falls on its place |
| `Print.PrecisionReached` | src/lib/stdio.c:515-524 | the text has the digits the precision asks for if and only if the value has them, or they fit 63 characters and there is no comma, or only the leading zero of octal is missing |
| `Print.PrecisionCut` | src/lib/stdio.c:521-522 | no precision of 64 or more is reached |
| `Print.CommasCounted` | src/lib/stdio.c:506-522 | with commas 1000 at precision 5 has four digits |
| `Print.NoZeroTooMany` | src/lib/stdio.c:501-524 | without need for zeros the text has the fewest digits the value can be written in |
| `Print.FormatInteger` | src/lib/stdio.c:469-547 | which sign and prefix in each case, the exact digits, and where they are in a field of exactly the width or their length: spaces behind them with -, zeros between prefix and digits with 0, else spaces in front |
| `Print.Atoi` | src/lib/stdlib.c:9-41 | the int a text stands for, or an overflow if and only if it stands for none |
| `Print.IntOfNumeral` | src/lib/stdlib.c:9-41 | a text of white space, a sign, digits and a rest stands for the digits with the sign |
| `Print.NumeralExists` | src/lib/stdlib.c:9-41 | every text can be split so |
| `Print.ReadDigits` | src/lib/stdlib.c:35-36 | an intermediate value leaves the range of int if and only if the whole number is below INT_MIN |
| `Print.PrintDecimal` | src/lib/stdio.c:181-220 | the text of "%d" stands for the value |
| `Print.PrintThenRead` | src/lib/stdlib.c:9-41 | atoi of the "%d" text of any int returns it, INT_MIN included |

## Left out

- The list of a condition variable is a sequence of threads in the code as well: its nodes are records on the waiters' stacks and are shared with no other list.
- Semaphore values are unbounded numbers in the kernel model; 32-bit wrap-around of a semaphore is not modelled.
- allocate_tid and its lock inside thread_create, the list of all threads, thread names, priorities and the exit-status handoff of processes.
- A condition variable is used with one fixed lock, as its documentation asks.
- Pushes and pops on a condition's list are single steps, since the monitor lock protects them.
- `list_reverse`, `list_unique`, `list_insert_ordered`, `list_max`, `list_min`.
- The locks around malloc's descriptors: calls are modelled one after another. The list links and arena headers that malloc keeps inside its pages are not bytes of the modelled memory; that blocks never overlap headers is proved instead.
- Realloc: what memory holds after a copy that leaves the new block is not modelled; the model says exactly when that happens and stops before it.
- `calloc`, `hash_apply`, `hash_destroy` and the hash functions for bytes, strings and integers.
- The zeroing of pages, PAL_ASSERT and the contents of freed pages in the page allocator.
- File contents, the buffer cache and the byte layout of directories: a directory is a map from names to inode sectors, files of the loader are ideal byte sequences. Calls of the file system are modelled one after another, as if under one lock.
- The free map's copy on disk after a failed write in free_map_release.
- Destroy: the frames are listed in the order they come back; their return to the page allocator is not modelled.
- The TLB flush after a page table change, pagedir_activate and pagedir_is_mapped.
- The ELF file header and the parsing of program headers out of file bytes.
- SetupStack: what follows a fault or an overrun of the kernel's pointer array is not modelled.
- The copy of the command line that setup_stack never frees.
- Load: the page directory and the file are there and the ELF header was accepted; the entry point is not modelled.
- LoadAll: palloc_get_page answers from a pool that no other thread draws on during the load.
- FormatInteger: field widths are not negative, which the conversion parser sees to.
- vsnprintf and the parsing of conversions; `qsort` and `bsearch`, which only forward to `sort` and `binary_search`.
- Elements of sort are values of any type instead of byte ranges of a given size.
- Priority donation, the multilevel feedback scheduler, device drivers, interrupts other than the timer, boot code, system calls and the unfinished virtual memory files.
