# Verified models of the RT-Thread 1.1 kernel, allocators, finsh and the read-write lock

RT-Thread is a real-time kernel in C. This project models its hardest parts in Dafny and proves
what they are for. Check it with `dafny verify dfyconfig.toml`.

Almost every component appears twice. A functional model says what one operation does to an
abstract state (a sequence of blocks, a list of waiters, the mail in order), and lemmas prove the
invariant, the behaviour over every run and the relation to an independent definition. A class in
the source's own form (header fields in arrays, link fields, ring offsets, counters, loops) is then
proved to change its fields exactly as the model says, so that each lemma is about the class too.
What an operation answers is stated beside that in terms of the state alone (`...Exactly`): a request
is refused, a lock granted, a thread put to sleep or an operator undefined if and only if the
condition named there holds of the blocks, pages, holders, bits or messages.

| files | what they model |
|---|---|
| `FinshLanguage`, `FinshOperators`, `FinshCompiler`, `FinshNodes`, `FinshVm`, `FinshCorrect`, `FinshOverflow`, `FinshShell` | the finsh expression compiler and its stack machine: operators, source semantics, node cells rewritten in place, byte code, fetch loop, and compiler correctness for every stack depth |
| `FinshHeap`, `FinshHeapMemory` | the finsh heap: two sorted lists over one arena, and the collector |
| `KernelState`, `KernelLaws`, `KernelMutex`, `KernelRaces`, `KernelInversion`, `KernelObject`, `KernelRoundRobin`, `ReadyBitmap`, `Rings` | threads, scheduler, priority inheritance, calls that race, runs that break inheritance, time slices, the ready bitmap with its byte table, and `rt_list` |
| `Mailbox`, `MailboxLaws`, `MessageNodes`, `MessageQueue`, `MessageLaws`, `Events`, `EventLaws` | inter-thread communication as transition systems over any number of threads, what each call is answered, and the objects in place |
| `Timers`, `TimerObject`, `TimerRaces` | the hard timers: start, stop and check step by step, the list in place under tick wrap-around, and calls that race |
| `Tiling`, `Occupancy`, `SmallHeap`, `SmallHeapLaws`, `SmallHeapLive`, `SmallHeapOutcome`, `SmallHeapMemory` | blocks that tile an area, and the first-fit heap of `mem.c` |
| `MemHeap`, `MemHeapLive`, `MemHeapOutcome`, `MemHeapMemory` | the boundary-tag heap of `memheap.c` |
| `Chains`, `Pages`, `PageList`, `ZoneIndex`, `Slab`, `SlabLaws`, `SlabAlignment`, `SlabHeap` | the page allocator and the slab zones of `slab.c` |
| `RwLock`, `RwLockLaws`, `RwLockProgress`, `RwLockObject` | the read-write lock over condition variables |
| `Base`, `Bits`, `Masks`, `Lists` | words, bits, event masks and lists without repetition |

Conventions. A region with interrupts disabled, or with `rw_mutex` held up to the next point where
another thread may run, is one step, and so is a test, a reading or a write made outside of one; a
call of several such pieces is several steps, with any others in between. Runs are arbitrary
interleavings of steps. Each system's `Permitted` predicate says what the kernel asks of its callers;
where interference breaks an invariant, a second predicate (`Undisturbed`, `Orderly`) is proved to be
the exact condition.
Sizes are symbolic: heap size, number of threads, queue and pool sizes, priorities. Words of 32, 16
and 8 bits wrap where the source lets them. Addresses are offsets, page numbers or node numbers.
RT_ALIGN_SIZE is the shipped 8, and the priorities are at most 32 in the kernel model (the two-level
table for up to 256 is `ReadyBitmap.TwoLevel`).

## Where the code does less than it promises

Each of these is proved with its condition and a failing input or run.

- `rt_thread_resume` and `rt_thread_delete` have several regions and do not test again: two resumes of one thread, a timeout inside a resume, or a change of priority inside a deletion leave threads and lists in disagreement. `KernelMutex.StepInv` and `KernelMutex.PartAgree` say exactly when; `KernelRaces.TwoResumesFromBoot`, `KernelRaces.TimeoutInResume` and `KernelRaces.PriorityInDeletion` are the runs.
- A block may be smaller than the request when rounding the size up wraps: `SmallHeapLive.GrantsRequest`, `SmallHeapLive.ReallocGrantsRequest`, `MemHeapLive.GrantsRequest`, `FinshHeap.GrantsRequest`, with `SmallHeapLive.WrappedGrant`, `SmallHeapLive.WrappedRealloc`, `MemHeapLive.WrappedGrant` and `FinshHeap.WrappedGrant`; and the finsh heap's room test can pass wrongly: `FinshHeap.TestExactly`, `FinshHeap.WrappedRequestPasses`.
- `rt_memheap_alloc` refuses a request for exactly what is available: `MemHeapLive.RefusedThoughFits`, `MemHeapLive.AllIsRefused`. A request of at most 8 bytes misaligns what is behind it: `MemHeapLive.AlignedExactly`, `MemHeapLive.StaysAligned`, `MemHeapLive.SmallRequestMisaligns`.
- After a shrinking `rt_realloc`, `lfree` need not be the lowest free block: `SmallHeapLaws.LowestShrunk`, `SmallHeapLaws.ShrinkLosesLowest`.
- The nesting counter of a mutex is 8 bits wide, so 257 takes are undone by one release: `KernelMutex.NestedTakes`, `KernelRaces.TooManyTakes`.
- A change of the priority of the owner, or of a waiter, can undo priority inheritance: `KernelMutex.PriorityExactly`, `KernelInversion.PriorityInverts`. A waiter that somebody other than the releasing owner resumes takes itself for the owner: `KernelInversion.WaiterLeaves`, `KernelInversion.ThirdPartyResumes`.
- Deleting a woken caller of a mailbox can leave another asleep for good: `Mailbox.DeletedWokenReceiver`, `Mailbox.DeletedWokenSender`, `Mailbox.ReceiverStrandedByDeletion`. The same holds for the receivers of a message queue: `MessageQueue.ReceiverStranded`, `MessageQueue.ReceiverStrandedByDeletion`; and the queue loses the node that a thread holds when it is deleted: `MessageQueue.NodeLost`, `MessageQueue.NodeLostByDeletion`.
- A word holds the time a woken caller has left, and 16 bits the sizes of a message queue: `MailboxLaws.RemainingExactly`, `MailboxLaws.RemainingFails`, `MessageLaws.SizeExactly`, `MessageLaws.NodesExactly`.
- The timer comparison orders times correctly only within half the tick range: `Timers.ModularOrderExactly`, `Timers.ModularOrderFails`.
- `rt_timer_start` and `rt_timer_stop` do not test again in their regions, and they write the timeout and clear the flag outside of them: a timer may be linked twice, be listed while inactive, or be called late or not when it is due. `Timers.StepInv` says exactly when, with `Timers.LinkedExactly`, `Timers.TimedExactly` and `Timers.ClearedExactly` for the single steps; the runs are `TimerRaces.TwoStarts`, `TimerRaces.TwoStops`, `TimerRaces.TwoStopsFromBoot`, `TimerRaces.LinkedLate`, `TimerRaces.WrittenLate` and `TimerRaces.OwnTimeout`.
- A timed writer that gives up can strand a reader of the read-write lock: `RwLockProgress.GivingUp` and `RwLockProgress.GivingUpExactly`, with the run of `RwLockProgress.TimedWriterStrandsReader`.
- Slab blocks of two pages are not always aligned to their size, neither in the heap, where a zone may start at an odd page, nor in memory, where the heap starts at any page: `SlabAlignment.PowersAligned`, `SlabAlignment.TwoPagesMisaligned`.

## Model

| member | source | states |
|---|---|---|
| `FinshShell.RunLine` | GPS_TW705_V01/components/finsh/finsh_compiler.c:885-919 | the pipeline from node tree to result, for every list of statements: checked, compiled and run on the machine it yields the value and memory of left-to-right evaluation, or faults exactly if that evaluation is undefined or a statement needs more than the 64 stack slots |
| `FinshCorrect.RunExpression` | GPS_TW705_V01/components/finsh/finsh_compiler.c:28-739 | compiler correctness: from any stack with room and at any place in the text segment, the code of an expression runs to just behind itself, with its value as the one extra slot and memory as the source semantics says |
| `FinshCorrect.RunList` | GPS_TW705_V01/components/finsh/finsh_vm.c:42-56 | a compiled statement list in a zero-filled text segment runs to the end with the value of the last statement alone on the stack, slot 0 |
| `FinshOverflow.RunListExactly` | GPS_TW705_V01/components/finsh/finsh_vm.c:42-56 | the same for any list: it runs to that value exactly if every statement fits on the stack and evaluation is defined, and faults otherwise |
| `FinshOverflow.Overflows` | GPS_TW705_V01/components/finsh/finsh_vm.c:42-56 | the stack depth of an expression is the least that suffices: with fewer slots left its code runs past the stack, whatever it computes |
| `FinshCorrect.RunBin` | GPS_TW705_V01/components/finsh/finsh_ops.c:26-30 | two operands compiled one after the other and an operator: left value below right one, effects in that order |
| `FinshCorrect.RunAssign` | GPS_TW705_V01/components/finsh/finsh_compiler.c:293-354 | assignment to an identifier: the address is pushed first, the value computed, stored and left on the stack |
| `FinshCorrect.RunAssignDeref` | GPS_TW705_V01/components/finsh/finsh_compiler.c:293-354 | assignment through a pointer expression: the address is evaluated before the value |
| `FinshCorrect.RunPre` | GPS_TW705_V01/components/finsh/finsh_compiler.c:355-516 | pre-increment and pre-decrement leave the new value of the variable |
| `FinshCorrect.RunPost` | GPS_TW705_V01/components/finsh/finsh_compiler.c:517-695 | post-increment and post-decrement leave the old value, the intermediate one is popped |
| `FinshCorrect.RunStore` | GPS_TW705_V01/components/finsh/finsh_ops.c:413-419 | store and reload leave the value in place of address and value, and fault exactly outside memory |
| `FinshCorrect.RunBump` | GPS_TW705_V01/components/finsh/finsh_compiler.c:355-437 | the common load, add one, store of the four step operators changes that variable by one and keeps the address on the stack |
| `FinshOperators.Bitwise` | GPS_TW705_V01/components/finsh/finsh_ops.c:164-213 | &, bitwise or and ^ are defined for all operands, and each bit of the result is that of the operands' bits |
| `FinshOperators.Inverted` | GPS_TW705_V01/components/finsh/finsh_ops.c:230-235 | ~ inverts each bit: the long becomes -1 minus itself |
| `FinshOperators.ShiftedLeft` | GPS_TW705_V01/components/finsh/finsh_ops.c:252-257 | << is defined exactly for counts below 32 and moves each bit up by the count |
| `FinshOperators.ShiftedRight` | GPS_TW705_V01/components/finsh/finsh_ops.c:274-279 | >> is defined exactly for counts below 32, moves each bit down and fills up with the sign |
| `FinshOperators.Arithmetic` | GPS_TW705_V01/components/finsh/finsh_ops.c:54-147 | +, - and * are those of the signed longs: exact where the result fits, and else congruent to it modulo 2 to the 32 |
| `FinshOperators.Division` | GPS_TW705_V01/components/finsh/finsh_ops.c:98-125 | quotient and remainder go together: x is y times q plus r, r smaller than y in size and of the sign of x; both are defined unless y is zero or the quotient does not fit |
| `FinshOperators.DividesOnce` | GPS_TW705_V01/components/finsh/finsh_ops.c:98-125 | there is only one such quotient and remainder |
| `FinshOperators.StoreThenFetch` | GPS_TW705_V01/components/finsh/finsh_ops.c:360-419 | what is stored is fetched from there, other addresses keep what they had, and both are defined exactly for addresses in memory |
| `FinshCompiler.LowerFaithful` | GPS_TW705_V01/components/finsh/finsh_compiler.c:741-883 | for every typed expression, checking and compiling its lowered node yields exactly the straight code of the expression, type DWORD and no error, whatever siblings follow |
| `FinshCompiler.LowerListFaithful` | GPS_TW705_V01/components/finsh/finsh_compiler.c:885-919 | a statement list compiles to its statements' code with one POP between two, without error |
| `FinshCompiler.FaithfulAssignDeref` | GPS_TW705_V01/components/finsh/finsh_compiler.c:700-723 | a dereference on the left of an assignment is marked as an address by the check and then emits no load |
| `FinshNodes.Compiler.TypeCheck` | GPS_TW705_V01/components/finsh/finsh_compiler.c:741-883 | the recursive walk rewrites the cells of this tree, and no others, into the checked tree |
| `FinshNodes.Compiler.Compile` | GPS_TW705_V01/components/finsh/finsh_compiler.c:28-739 | the recursive walk appends exactly the code of the tree and reports an error iff a node has none |
| `FinshNodes.Compiler.CodeNode` | GPS_TW705_V01/components/finsh/finsh_compiler.c:37-733 | each node kind appends its own code |
| `FinshNodes.Compiler.CodeId` | GPS_TW705_V01/components/finsh/finsh_compiler.c:39-183 | an identifier loads its address if marked so, else its value by width and type |
| `FinshNodes.Compiler.CodeAssign` | GPS_TW705_V01/components/finsh/finsh_compiler.c:293-354 | the store and reload of the operand's width; an error for a void one |
| `FinshNodes.Compiler.CodeStep` | GPS_TW705_V01/components/finsh/finsh_compiler.c:355-695 | the code of the four forms of ++ and -- on the node's variable |
| `FinshNodes.Compiler.CountParameters` | GPS_TW705_V01/components/finsh/finsh_compiler.c:270-292 | the loop counts the siblings of the called identifier |
| `FinshNodes.Compiler.CompilerRun` | GPS_TW705_V01/components/finsh/finsh_compiler.c:885-919 | the text segment holds the code of the checked statement list from its start and zeros behind it, although the sibling links are cut on the way |
| `FinshNodes.Compiler.CompileStatements` | GPS_TW705_V01/components/finsh/finsh_compiler.c:901-916 | the loop over statements: each is compiled alone, a POP goes between two |
| `FinshNodes.Rejoined` | GPS_TW705_V01/components/finsh/finsh_compiler.c:741-883 | rewriting children, siblings and the node one after the other rewrites the whole tree and nothing outside it |
| `FinshNodes.StatementCut` | GPS_TW705_V01/components/finsh/finsh_compiler.c:901-916 | cutting the sibling link leaves that statement alone and the rest of the list as it was |
| `FinshVm.DwordRoundTrip` | GPS_TW705_V01/components/finsh/finsh.h:33-50 | the four bytes written for a word read back as that word |
| `FinshVm.RunPadding` | GPS_TW705_V01/components/finsh/finsh_vm.c:42-56 | zero bytes are no-ops: the fetch loop runs through them with stack and memory unchanged |
| `FinshVm.Machine.Execute` | GPS_TW705_V01/components/finsh/finsh_vm.c:44-55 | one fetch and table call does what the step function says, and faults exactly where the C program is undefined |
| `FinshVm.Machine.VmRun` | GPS_TW705_V01/components/finsh/finsh_vm.c:31-57 | the loop over stack array and program counter computes the run from an empty stack to the end of the text |
| `FinshVm.Machine.Binary` | GPS_TW705_V01/components/finsh/finsh_ops.c:26-30 | the result replaces the lower operand and the stack shrinks by one |
| `FinshVm.Machine.StDword` | GPS_TW705_V01/components/finsh/finsh_ops.c:413-419 | the value on top is stored at the address below it, which stays |
| `FinshHeap.AllocateCorrect` | GPS_TW705_V01/components/finsh/finsh_heap.c:58-95 | the block handed out was nobody's and all other blocks keep start and end; the collector runs only if no free block is longer than request and header; a request fails only if after collecting none is as long |
| `FinshHeap.AllocateExactly` | GPS_TW705_V01/components/finsh/finsh_heap.c:58-95 | the first free block longer than request and header is taken; if there is none the collector runs, the first as long is taken, and the request fails exactly if there is none then |
| `FinshHeap.FreeCorrect` | GPS_TW705_V01/components/finsh/finsh_heap.c:100-113 | freeing takes this block off the ones in use and no other, and keeps the invariant: lists that tile the arena, no two free blocks touching, the topmost block free |
| `FinshHeap.GcExact` | GPS_TW705_V01/components/finsh/finsh_heap.c:118-146 | after the collector exactly the blocks in use that some variable points to are in use |
| `FinshHeap.StartsSorted` | GPS_TW705_V01/components/finsh/finsh_heap.c:151-185 | the two lists are sorted by address and hold exactly the used and the free blocks |
| `FinshHeap.TakenInv` | GPS_TW705_V01/components/finsh/finsh_heap.c:217-231 | splitting and handing out a block keeps the invariant; the topmost block stays free because what is left over stays free, be it a bare header |
| `FinshHeap.TakenThenFreed` | GPS_TW705_V01/components/finsh/finsh_heap.c:217-283 | handing out a block and freeing it again restores the arena exactly |
| `FinshHeap.RunInv` | GPS_TW705_V01/components/finsh/finsh_heap.c:40-113 | the invariant holds after any run of requests, frees and collections |
| `FinshHeap.TestExactly` | GPS_TW705_V01/components/finsh/finsh_heap.c:65-66 | the 32-bit room test is right on a block exactly if the sum of request and header does not wrap or the block is too short for what is left of it |
| `FinshHeap.WrappedRequestPasses` | GPS_TW705_V01/components/finsh/finsh_heap.c:65-66 | the concrete failure: a request of 4294967292 bytes passes the test on a fresh heap |
| `FinshHeap.GrantsRequest` | GPS_TW705_V01/components/finsh/finsh_heap.c:58-95 | the block handed out holds the request exactly if rounding up does not wrap |
| `FinshHeap.WrappedGrant` | GPS_TW705_V01/components/finsh/finsh_heap.c:58-95 | a request of 4294967295 bytes is granted a block that is a bare header |
| `FinshHeapMemory.TopFree` | GPS_TW705_V01/components/finsh/finsh_heap.c:151-185 | behind every block in use there is a free one, which is what makes the unset link of a freed block harmless |
| `FinshHeapMemory.Memory.constructor` | GPS_TW705_V01/components/finsh/finsh_heap.c:40-53 | the arena is one free block and no allocated one |
| `FinshHeapMemory.Memory.Allocate` | GPS_TW705_V01/components/finsh/finsh_heap.c:58-95 | the header words and both lists change as the model's request does, header or NULL alike |
| `FinshHeapMemory.Memory.Free` | GPS_TW705_V01/components/finsh/finsh_heap.c:100-113 | the header words and both lists change as the model's free does |
| `FinshHeapMemory.Memory.Gc` | GPS_TW705_V01/components/finsh/finsh_heap.c:118-146 | the walk that frees while it goes on collects exactly as the model does, the next link being read before the free |
| `FinshHeapMemory.Memory.IsPinned` | GPS_TW705_V01/components/finsh/finsh_heap.c:128-135 | the loop over the variables finds whether one of a known type points to the block |
| `FinshHeapMemory.Memory.Insert` | GPS_TW705_V01/components/finsh/finsh_heap.c:151-185 | the node is linked in at its place by address and every other link stays; at the end of the list its own link must be clear already |
| `FinshHeapMemory.Memory.Remove` | GPS_TW705_V01/components/finsh/finsh_heap.c:190-212 | the node is unlinked and every other link stays |
| `FinshHeapMemory.Memory.SplitHeader` | GPS_TW705_V01/components/finsh/finsh_heap.c:217-231 | the rest of the block becomes a free block linked in behind it |
| `FinshHeapMemory.Memory.MergeBlock` | GPS_TW705_V01/components/finsh/finsh_heap.c:233-283 | the freed block is merged with the free blocks it touches on either side and no others |
| `FinshHeapMemory.Memory.Search` | GPS_TW705_V01/components/finsh/finsh_heap.c:65-81 | the walk stops at the first block of the free list that passes the test, or at NULL |
| `Rings.RingPut` | GPS_TW705_V01/include/rtservice.h:49-71 | the four link writes of an insertion keep next and prev inverse to each other around the circle, with the node in its place |
| `Rings.RingCut` | GPS_TW705_V01/include/rtservice.h:77-83 | the link writes of a removal leave the circle without the node, and the node a circle of its own |
| `Rings.HeadLinks` | GPS_TW705_V01/include/rtservice.h:89-92 | what next and prev of a list head tell: first, last, emptiness, and whether there are two or more |
| `Rings.NodeLinks` | GPS_TW705_V01/src/thread.c:360 | the links of a thread's own node differ exactly if another node is in the list with it, which is the test of yield |
| `Rings.Links.Init` | GPS_TW705_V01/include/rtservice.h:38-41 | the node is a circle of its own and no other link changes |
| `Rings.Links.InsertAfter` | GPS_TW705_V01/include/rtservice.h:49-56 | the node comes right behind l, and only the links of the three nodes concerned change |
| `Rings.Links.InsertBefore` | GPS_TW705_V01/include/rtservice.h:64-71 | the node comes right before l, and only the links of the three nodes concerned change |
| `Rings.Links.Remove` | GPS_TW705_V01/include/rtservice.h:77-83 | the node leaves the circle and is alone; only the links of the three nodes concerned change |
| `Rings.Links.RemoveAlone` | GPS_TW705_V01/include/rtservice.h:77-83 | a second removal of a removed node changes nothing |
| `Rings.Links.IsEmpty` | GPS_TW705_V01/include/rtservice.h:89-92 | true iff the list behind the head holds no node |
| `ReadyBitmap.EntryIsLowest` | GPS_TW705_V01/src/scheduler.c:51-69 | each of the 255 table entries is the position of the lowest set bit of its byte |
| `ReadyBitmap.FindFirstIsLowest` | GPS_TW705_V01/src/scheduler.c:236-252 | with any bit set, the search by bytes returns the lowest set bit of the 32 |
| `ReadyBitmap.TwoLevel.Insert` | GPS_TW705_V01/src/scheduler.c:309-340 | group and table keep agreeing with the set of ready priorities, which gains this one |
| `ReadyBitmap.TwoLevel.Remove` | GPS_TW705_V01/src/scheduler.c:349-383 | both levels keep agreeing with the set of ready priorities, which loses this one; the group bit goes only when its whole byte is clear |
| `ReadyBitmap.TwoLevel.Highest` | GPS_TW705_V01/src/scheduler.c:236-256 | the search over both levels returns the most urgent ready priority of 256 |
| `KernelState.UnlinkAgree` | GPS_TW705_V01/src/scheduler.c:349-383 | taking a thread off its list leaves every other thread agreeing with the lists |
| `KernelState.InsertAgree` | GPS_TW705_V01/src/scheduler.c:309-340 | a thread put at the end of its ready list agrees with the lists again |
| `KernelState.SuspendAgree` | GPS_TW705_V01/src/thread.c:541-549 | READY iff on the ready list of its priority, suspended threads on at most one wait list: kept by the region of suspend whatever has happened since its test |
| `KernelState.ResumeAgree` | GPS_TW705_V01/src/ipc.c:129-142 | the same kept when an IPC object resumes a thread, interrupts disabled throughout |
| `KernelState.TimeoutAgree` | GPS_TW705_V01/src/thread.c:607-628 | the same kept by a timeout |
| `KernelState.StartAgree` | GPS_TW705_V01/src/thread.c:187-202 | the same kept by what startup writes before it resumes the thread |
| `KernelState.ChangePrioAgree` | GPS_TW705_V01/src/thread.c:455-496 | the same kept by a change of priority of a ready or a waiting thread |
| `KernelState.ChangePrioFrame` | GPS_TW705_V01/src/thread.c:455-496 | a change of priority touches one record and no queue the thread is not in |
| `KernelState.CloseAgree` | GPS_TW705_V01/src/thread.c:35-67 | the same kept when a thread exits |
| `KernelState.YieldAgree` | GPS_TW705_V01/src/thread.c:348-381 | the same kept by yield |
| `KernelState.TickAgree` | GPS_TW705_V01/src/clock.c:73-95 | the same kept by a tick, whether or not the slice ends |
| `KernelState.SuspendOnAgree` | GPS_TW705_V01/src/ipc.c:80-118 | the same kept when the running thread joins a wait list, in either order |
| `KernelLaws.SuspendExactly` | GPS_TW705_V01/src/thread.c:524-551 | a ready thread leaves its ready list and is suspended, another one is left alone |
| `KernelLaws.SuspendOnExactly` | GPS_TW705_V01/src/ipc.c:80-118 | the running thread leaves its ready list and joins this wait list: last, or by urgency behind the equally urgent |
| `KernelLaws.ResumeExactly` | GPS_TW705_V01/src/ipc.c:129-142 | a suspended thread leaves its wait list and comes last in the ready list of its priority, another one is left alone |
| `KernelLaws.TimeoutExactly` | GPS_TW705_V01/src/thread.c:607-628 | the same with the error of a timeout |
| `KernelLaws.ChangePrioExactly` | GPS_TW705_V01/src/thread.c:455-496 | a ready thread goes to the end of the list of its new priority, another one changes its record only |
| `KernelLaws.YieldExactly` | GPS_TW705_V01/src/thread.c:348-380 | the running thread goes behind all others of its priority, which keep their order |
| `KernelLaws.StartupExactly` | GPS_TW705_V01/src/thread.c:187-211 | a started thread is ready and comes last in the ready list of its initial priority |
| `KernelLaws.ExitExactly` | GPS_TW705_V01/src/thread.c:35-62 | the thread is closed and in no list |
| `KernelLaws.TakeExactly` | GPS_TW705_V01/src/ipc.c:604-728 | the four answers of a take: the free mutex taken, the own one nested, another's refused without waiting, or waited for with the owner at least as urgent as the caller |
| `KernelLaws.ReleaseExactly` | GPS_TW705_V01/src/ipc.c:739-770 | a release by a thread that is not the owner changes its error only, a nested one counts down |
| `KernelObject.Kernel.constructor` | GPS_TW705_V01/src/scheduler.c:126-153 | all lists and the bitmap empty |
| `KernelObject.Kernel.InsertThread` | GPS_TW705_V01/src/scheduler.c:309-340 | the list gains the thread at its end and the bitmap goes on agreeing with the lists |
| `KernelObject.Kernel.RemoveThread` | GPS_TW705_V01/src/scheduler.c:349-383 | the thread leaves its list, and the bit is cleared iff the list becomes empty |
| `KernelObject.Kernel.Reschedule` | GPS_TW705_V01/src/scheduler.c:216-300 | the current thread becomes the head of the most urgent non-empty list, found through the bitmap, unless the scheduler is locked |
| `KernelObject.Kernel.ThreadSuspend` | GPS_TW705_V01/src/ipc.c:80-84 | the object changes as the model's suspend, interrupts disabled; masks, bitmap and lists stay in agreement |
| `KernelObject.Kernel.ThreadResume` | GPS_TW705_V01/src/ipc.c:129-142 | the object changes as the model's resume, interrupts disabled |
| `KernelObject.Kernel.SuspendRegion` | GPS_TW705_V01/src/thread.c:541-549 | the object changes as the region of suspend does, and the bitmap follows |
| `KernelObject.Kernel.ResumeUnlink` | GPS_TW705_V01/src/thread.c:580-592 | the first region of resume: off whatever list it is on, the bitmap still right |
| `KernelObject.Kernel.ResumeInsert` | GPS_TW705_V01/src/thread.c:595 | the second region: READY, last in its ready list, the bit set |
| `KernelObject.Kernel.DeleteRemove` | GPS_TW705_V01/src/thread.c:319 | the first region of delete: off its list, the bit cleared if that is empty |
| `KernelObject.Kernel.DeleteClose` | GPS_TW705_V01/src/thread.c:325 | the last write of delete |
| `KernelObject.Kernel.ThreadTimeout` | GPS_TW705_V01/src/thread.c:607-628 | the object changes as the model's timeout: error set, off the wait list, ready again |
| `KernelObject.Kernel.ThreadStartup` | GPS_TW705_V01/src/thread.c:187-202 | priority, number_mask and status are written before the thread is resumed |
| `KernelObject.Kernel.ThreadYield` | GPS_TW705_V01/src/thread.c:348-381 | the thread goes to the end of its list iff another one is there |
| `KernelObject.Kernel.ChangePriority` | GPS_TW705_V01/src/thread.c:455-496 | off the old list, priority and mask changed, on the new list, if it was ready |
| `KernelObject.Kernel.IpcListSuspend` | GPS_TW705_V01/src/ipc.c:80-118 | suspended and put at the end of the list, or by the search loop before the first less urgent waiter |
| `KernelObject.Kernel.EnterCritical` | GPS_TW705_V01/src/scheduler.c:388-401 | the lock nests |
| `KernelObject.Kernel.ExitCritical` | GPS_TW705_V01/src/scheduler.c:406-428 | the nesting goes down and stops at zero |
| `KernelObject.Kernel.TickIncrease` | GPS_TW705_V01/src/clock.c:73-95 | the slice goes down; at zero it is refilled and the thread yields |
| `KernelObject.Kernel.TakeMutex` | GPS_TW705_V01/src/ipc.c:615-728 | all branches of a take: nested, free, refused, or boosting the owner and queueing up |
| `KernelObject.Kernel.ReleaseMutex` | GPS_TW705_V01/src/ipc.c:739-819 | all branches of a release: not the owner, nested, handed over with the priority restored, or freed |
| `KernelMutex.ScheduleMostUrgent` | GPS_TW705_V01/src/scheduler.c:226-267 | rt_schedule picks the first thread of the most urgent non-empty list |
| `KernelMutex.StepInv` | GPS_TW705_V01/src/thread.c:524-598 | every kernel step, each region of suspend, resume and delete by itself, keeps the following exactly if no other call has disturbed it: thread/list agreement, waiters sorted by urgency, the owner at least as urgent as each, hold the nesting modulo 256 |
| `KernelMutex.UnlinkExactly` | GPS_TW705_V01/src/thread.c:580-592 | the first region of resume keeps agreement exactly if the thread is not READY by then |
| `KernelMutex.InsertExactly` | GPS_TW705_V01/src/thread.c:595 | its second region restores agreement exactly if the thread is in no list |
| `KernelMutex.CloseExactly` | GPS_TW705_V01/src/thread.c:319-325 | closing a thread after its removal restores agreement exactly if it is in no list |
| `KernelMutex.PartAgree` | GPS_TW705_V01/src/thread.c:524-598 | so the parts of suspend, resume and delete, from any state that agrees, keep agreement exactly if undisturbed |
| `KernelMutex.PriorityExactly` | GPS_TW705_V01/src/thread.c:455-496 | a change of priority of any thread, owner and waiters included, keeps owner and waiters in order exactly if the new priority fits |
| `KernelInversion.PriorityInverts` | GPS_TW705_V01/src/thread.c:455-496 | a run from the start of the kernel after which a change of the priority of the owner makes rt_schedule select priority 1 while a thread of priority 0 waits for the mutex of a ready thread |
| `KernelInversion.WaiterLeaves` | GPS_TW705_V01/src/ipc.c:678-720 | a waiter that leaves the wait list has the error code of success unless it timed out, and owns the mutex exactly if the step was a release |
| `KernelInversion.ThirdPartyResumes` | GPS_TW705_V01/src/ipc.c:705-728 | a run from the start of the kernel after which a waiter that was resumed by a third party runs on with the error code of success while another thread owns the mutex, and its release is refused |
| `KernelInversion.ResumeRun` | GPS_TW705_V01/src/thread.c:562-598 | the three steps of an uninterrupted rt_thread_resume do the same as the resume inside one region |
| `KernelMutex.NotInverted` | GPS_TW705_V01/src/scheduler.c:226-267 | where the invariant holds, rt_schedule selects nobody less urgent than a waiter while the owner is ready |
| `KernelRaces.TwoResumes` | GPS_TW705_V01/src/thread.c:562-598 | from any state with a suspended thread in no list, two callers that resume it at once can put it twice into its ready list |
| `KernelRaces.TwoResumesFromBoot` | GPS_TW705_V01/src/thread.c:181-212 | and so in a run from the start of the kernel |
| `KernelRaces.TimeoutInResume` | GPS_TW705_V01/src/thread.c:571-592 | a timeout between the test and the first region of a resume leaves a READY thread in no list |
| `KernelRaces.PriorityInDeletion` | GPS_TW705_V01/src/thread.c:311-337 | a change of priority between the regions of a delete leaves a closed thread on a ready list |
| `KernelRaces.HalfDeleted` | GPS_TW705_V01/src/thread.c:319-325 | between the regions of its delete a READY thread is in no list, and the close settles that |
| `KernelRaces.FirstThread` | GPS_TW705_V01/src/thread.c:181-212 | from the start of the kernel a created thread can be started, resumed and scheduled |
| `KernelRaces.TooManyTakes` | GPS_TW705_V01/src/ipc.c:639-643 | from any state with the mutex free, 257 nested takes are undone by the first release |
| `KernelMutex.NoInversion` | GPS_TW705_V01/src/ipc.c:615-728 | bounded priority inversion: in every state reached from the start of the kernel by undisturbed steps, with the owner ready, rt_schedule selects a thread at least as urgent as every waiter |
| `KernelMutex.OutermostRelease` | GPS_TW705_V01/src/ipc.c:770-808 | the outermost release gives the owner its original priority back and makes the first waiter the owner with its own priority recorded, or frees the mutex |
| `KernelMutex.RunBase` | GPS_TW705_V01/src/ipc.c:615-819 | over any run of the split steps, a thread that does not own the mutex at the end has the priority it would have without the mutex |
| `KernelMutex.BlockedTake` | GPS_TW705_V01/src/ipc.c:678-699 | a taker that blocks leaves the owner at least as urgent as itself and the waiters sorted |
| `KernelMutex.PlaceSorted` | GPS_TW705_V01/src/ipc.c:97-112 | inserting where the search loop stops keeps the list sorted, equal priorities in order of arrival |
| `KernelMutex.NestedTakes` | GPS_TW705_V01/src/ipc.c:639-643 | n nested takes need exactly n releases iff n is at most 256: hold is an 8-bit counter |
| `KernelRoundRobin.Turn` | GPS_TW705_V01/src/clock.c:73-95 | a turn lasts exactly what is left of the slice and ends with the ready list rotated by one and the slice refilled |
| `KernelRoundRobin.TurnsInOrder` | GPS_TW705_V01/src/thread.c:348-381 | threads of the top priority run in queue order, the j-th one starting exactly when the slices before it are used up |
| `KernelRoundRobin.WaitBound` | GPS_TW705_V01/src/clock.c:73-95 | no thread waits longer than the sum of the slices of the threads before it |
| `KernelRoundRobin.FullTurn` | GPS_TW705_V01/src/clock.c:83-91 | a thread just given the processor with a full slice runs init_tick ticks, then the next one in the list |
| `Mailbox.StepInv` | GPS_TW705_V01/src/ipc.c:1346-1606 | every region of send, receive, retry, timeout, third-party resume and reset keeps the promise to sleepers and the order of mail |
| `Mailbox.NoLostWakeups` | GPS_TW705_V01/src/ipc.c:1346-1606 | in every reachable state: mail is received in the order stored; if receivers sleep, the mail is at most the receivers woken and not yet run; if senders sleep, the room is at most the senders woken |
| `MailboxLaws.SendExactly` | GPS_TW705_V01/src/ipc.c:1346-1458 | a value is stored exactly if less mail is stored and not received than the mailbox holds, and the first receiver asleep is woken; else the sender returns or sleeps, at its place |
| `MailboxLaws.RecvExactly` | GPS_TW705_V01/src/ipc.c:1487-1600 | the oldest stored mail is received exactly if there is any, and the first sender asleep is woken; else the receiver returns or sleeps, at its place |
| `MailboxLaws.RemainingExactly` | GPS_TW705_V01/src/ipc.c:1423-1429 | the waiting time left after a wake-up is right exactly unless the time has been exceeded by more than half the range of a word |
| `MailboxLaws.RemainingFails` | GPS_TW705_V01/src/ipc.c:1423-1429 | a caller that waits for one tick and runs again 2147483650 ticks later waits on for 2147483647 |
| `Mailbox.DeletedWokenReceiver` | GPS_TW705_V01/src/thread.c:311-337 | deleting a woken receiver before it runs lets some later run leave another asleep beside mail exactly if one sleeps and the woken receivers were no more than the mail |
| `Mailbox.DeletedWokenSender` | GPS_TW705_V01/src/thread.c:311-337 | the same for a woken sender, the room, and the senders asleep |
| `Mailbox.ReceiverStrandedByDeletion` | GPS_TW705_V01/src/thread.c:311-337 | a run from a new mailbox after which the deletion leaves mail queued, a receiver asleep and nobody woken |
| `Mailbox.WokenInv` | GPS_TW705_V01/src/ipc.c:129-142 | a sleeper that leaves its list by timeout, deletion or resume does not break the promise to the others |
| `Mailbox.Ring.constructor` | GPS_TW705_V01/src/ipc.c:1260-1295 | an empty ring whose size is the requested one modulo 2 to the 16 |
| `Mailbox.Ring.Send` | GPS_TW705_V01/src/ipc.c:1346-1458 | ring buffer, offsets and sleepers change as one send region: stored at the in offset and one receiver woken, or full, or asleep |
| `Mailbox.Ring.Recv` | GPS_TW705_V01/src/ipc.c:1487-1606 | the oldest mail is taken at the out offset and one sender woken, or the caller leaves or sleeps |
| `Mailbox.Ring.Reset` | GPS_TW705_V01/src/ipc.c:1618-1647 | all sleepers are woken and the ring is empty |
| `MessageQueue.StepInv` | GPS_TW705_V01/src/ipc.c:1848-2192 | every region of send, urgent, receive, reset keeps node conservation, the order of messages, and wake-ups |
| `MessageQueue.NodesConserved` | GPS_TW705_V01/src/ipc.c:1698-1709 | in every reachable state free, queued and privately held nodes are max_msgs together, no node in two places |
| `MessageLaws.BeginExactly` | GPS_TW705_V01/src/ipc.c:1848-1890 | a sender gets a node exactly if its message fits and fewer than max_msgs are queued or held by callers |
| `MessageLaws.LinkExactly` | GPS_TW705_V01/src/ipc.c:1892-1925 | linking stores the message, an urgent one ahead of all others, and wakes the first receiver asleep |
| `MessageLaws.ReceiveExactly` | GPS_TW705_V01/src/ipc.c:2018-2112 | the first message is received exactly if fewer have been received than stored; else the receiver returns or sleeps, at its place |
| `MessageLaws.SizeExactly` | GPS_TW705_V01/src/ipc.c:1691-1691 | the message size is rounded up to the next multiple of 8 exactly if it is at most 65528 |
| `MessageLaws.NodesExactly` | GPS_TW705_V01/src/ipc.c:1692-1692 | there are as many nodes as the pool holds with their links exactly if that is below 65536 |
| `MessageQueue.OrdinaryInOrder` | GPS_TW705_V01/src/ipc.c:1848-2004 | whatever is stored is received once or still queued; messages that are not urgent come out in the order they were linked, under any interleaving |
| `MessageQueue.Delivered` | GPS_TW705_V01/src/ipc.c:2107-2131 | what a receiver copies out, even with other threads in between, starts with the bytes sent into that node |
| `MessageQueue.NoLostWakeups` | GPS_TW705_V01/src/ipc.c:2036-2105 | while receivers sleep, the queued messages are at most as many as the woken receivers |
| `MessageQueue.NodeLost` | GPS_TW705_V01/src/thread.c:311-337 | a thread that is deleted inside its call takes a node with it exactly if it holds one by then: over any later run free, queued and held nodes are max_msgs less one, or max_msgs |
| `MessageQueue.NodeLostByDeletion` | GPS_TW705_V01/src/thread.c:311-337 | a queue of one node whose sender is deleted while it fills the node: no later run frees or queues a node again |
| `MessageQueue.ReceiverStranded` | GPS_TW705_V01/src/thread.c:311-337 | a woken receiver that never runs again lets some later run leave another asleep beside a message, with nobody else woken, exactly if one sleeps and the messages are as many as the woken receivers |
| `MessageQueue.ReceiverStrandedByDeletion` | GPS_TW705_V01/src/thread.c:311-337 | a run from a new queue after which the deletion leaves a message queued, a receiver asleep and nobody else woken |
| `MessageNodes.TakenFreeApart` | GPS_TW705_V01/src/ipc.c:1867-1877 | a node taken off the free chain is private and the chains stay apart |
| `MessageNodes.LinkedApart` | GPS_TW705_V01/src/ipc.c:1889-1903 | linking a private node keeps the chains apart |
| `MessageNodes.GivenBackApart` | GPS_TW705_V01/src/ipc.c:2125-2129 | a node given back is on one chain only |
| `MessageNodes.EmptiedApart` | GPS_TW705_V01/src/ipc.c:2163-2181 | a reset leaves every node on one chain |
| `MessageNodes.MessageQueue.constructor` | GPS_TW705_V01/src/ipc.c:1670-1712 | the loop chains all nodes, the last one first, with message size and node count as rounded |
| `MessageNodes.MessageQueue.TakeFree` | GPS_TW705_V01/src/ipc.c:1867-1877 | the first free node, or full |
| `MessageNodes.MessageQueue.Fill` | GPS_TW705_V01/src/ipc.c:1883-1885 | the link of a private node is cleared and the message copied into it |
| `MessageNodes.MessageQueue.LinkLast` | GPS_TW705_V01/src/ipc.c:1889-1908 | the node becomes the last, tail and head follow, entry counts it, and one receiver is woken |
| `MessageNodes.MessageQueue.LinkFirst` | GPS_TW705_V01/src/ipc.c:1977-1990 | the node becomes the first, tail too if there was none, and one receiver is woken |
| `MessageNodes.MessageQueue.TakeFront` | GPS_TW705_V01/src/ipc.c:2036-2117 | the front node leaves; tail is cleared iff it was the last |
| `MessageNodes.MessageQueue.CopyOut` | GPS_TW705_V01/src/ipc.c:2123 | what is copied is the beginning of the node's bytes, as much as both buffers hold, and so agrees with what was sent as far as it goes |
| `MessageNodes.MessageQueue.GiveBack` | GPS_TW705_V01/src/ipc.c:2125-2129 | the node becomes the first free one |
| `MessageNodes.MessageQueue.Reset` | GPS_TW705_V01/src/ipc.c:2155-2189 | receivers are woken and all queued nodes are free again |
| `Events.PassLeavesNone` | GPS_TW705_V01/src/ipc.c:977-1027 | one pass of the wake loop is enough: no waiter that stays is satisfied by the set that is left, although CLEAR shrinks it on the way |
| `Events.PassGivesFairly` | GPS_TW705_V01/src/ipc.c:984-1025 | each woken waiter was satisfied by, and got, its bits of a set within the one at the start of the pass |
| `Events.PassConserves` | GPS_TW705_V01/src/ipc.c:977-1027 | the set after the pass is the one before without exactly the bits consumed by woken CLEAR waiters |
| `Events.ConsumedOnce` | GPS_TW705_V01/src/ipc.c:1014-1018 | no event bit is given to a CLEAR waiter and to a later waiter of the same pass |
| `Events.NeverWaitsInVain` | GPS_TW705_V01/src/ipc.c:958-1145 | in every reachable state no suspended thread's AND/OR condition holds of the current set |
| `Events.NewObject` | GPS_TW705_V01/src/ipc.c:849-866 | and so in every run from a new object |
| `Events.MetExactly` | GPS_TW705_V01/src/ipc.c:984-1007 | the masked comparison of the source is the condition bit by bit: under AND no wanted bit is missing, under OR some wanted bit is there |
| `EventLaws.PassStep` | GPS_TW705_V01/src/ipc.c:977-1027 | each waiter in turn is decided on the bits that are left: woken exactly if its condition holds bit by bit, with its bits given, and cleared exactly if it asked for that |
| `EventLaws.SendExactly` | GPS_TW705_V01/src/ipc.c:958-1037 | a send adds exactly its bits, and nobody stays whose condition holds bit by bit of what is left |
| `EventLaws.RecvExactly` | GPS_TW705_V01/src/ipc.c:1052-1145 | a caller sleeps exactly if it wants bits, its condition does not hold bit by bit and it may wait; one whose condition holds does not, and clears exactly what it wanted if it asked for that |
| `EventLaws.LeaveExactly` | GPS_TW705_V01/src/thread.c:607-630 | a waiter that times out leaves alone, and the others keep their places |
| `Events.EventObject.Send` | GPS_TW705_V01/src/ipc.c:958-1037 | the loop over the suspend list, set and thread fields in place, does one pass; what each woken thread reads as its event info is what the pass gave it |
| `Events.EventObject.Recv` | GPS_TW705_V01/src/ipc.c:1052-1145 | answered at once exactly if the condition holds bit by bit, with exactly the wanted bits that are there; else refused or asleep with the condition recorded |
| `Timers.ModularOrderExactly` | GPS_TW705_V01/src/timer.c:254-267 | the 32-bit comparison of two times equals the comparison of the true times exactly within these distances |
| `Timers.ModularOrderFails` | GPS_TW705_V01/src/timer.c:254-267 | for every time another one just outside of them, ahead or behind, for which it goes wrong |
| `Timers.StepInv` | GPS_TW705_V01/src/timer.c:221-430 | every step of start, stop, control, tick and check keeps the list in order exactly if it is undisturbed |
| `Timers.TimedExactly` | GPS_TW705_V01/src/timer.c:234-236 | writing the timeout of a timer keeps the list in order exactly if it is off the list, or its neighbours there allow it and it is ahead |
| `Timers.LinkedExactly` | GPS_TW705_V01/src/timer.c:238-277 | the region of start keeps the list in order exactly if the timer is in no list, its timeout function is not being called and its time has not come |
| `Timers.ClearedExactly` | GPS_TW705_V01/src/timer.c:323-324 | clearing the flag outside the region of stop is right exactly if the timer is in no list by then |
| `Timers.RunInv` | GPS_TW705_V01/src/timer.c:221-430 | over any run of all the steps of all calls: the list is sorted by true deadline and within half the range of now, each timer of it is active and listed once, and an active one is listed, being called or being stopped, in every state exactly if every step is undisturbed |
| `Timers.StartRun` | GPS_TW705_V01/src/timer.c:221-277 | the four steps of a start that nothing interrupts arm the timer at tick + init_tick |
| `Timers.StopRun` | GPS_TW705_V01/src/timer.c:303-327 | the three steps of a stop that nothing interrupts unlink the timer and clear its flag |
| `Timers.StopInv` | GPS_TW705_V01/src/timer.c:303-327 | which keeps the list in order |
| `Timers.TestsExactly` | GPS_TW705_V01/src/timer.c:229-310 | a start goes on past its test exactly if the timer is inactive, and a stop exactly if it is active |
| `Timers.NothingElseDue` | GPS_TW705_V01/src/timer.c:386-424 | a head that is not due means that nothing is due |
| `Timers.FiresExactlyThen` | GPS_TW705_V01/src/timer.c:221-430 | a timer for which a start has computed the deadline, whenever that is written and linked, fires first at exactly that tick unless it is stopped or another start rewrites its timeout, across wrap-around |
| `Timers.PeriodKept` | GPS_TW705_V01/src/timer.c:409-415 | a periodic timer that fired is armed again exactly one period later |
| `Timers.OnceOnly` | GPS_TW705_V01/src/timer.c:416-420 | a timer that is not periodic, or was stopped by then, is inactive and off the list after its timeout function |
| `Timers.CheckStep` | GPS_TW705_V01/src/timer.c:386-424 | one round of the check fires the first due timer and leaves the other due ones as they are |
| `TimerObject.TimerList.InitTimer` | GPS_TW705_V01/src/timer.c:61-80 | a timer off the list, inactive and with timeout 0 |
| `TimerObject.TimerList.FindPlace` | GPS_TW705_V01/src/timer.c:254-272 | the loop finds the place before the first timer due at the same time or later |
| `TimerObject.TimerList.WriteTimeout` | GPS_TW705_V01/src/timer.c:234-236 | the write of a timeout computed before |
| `TimerObject.TimerList.LinkTimer` | GPS_TW705_V01/src/timer.c:238-277 | the region of start, for the timeout that has been written |
| `TimerObject.TimerList.StartTimer` | GPS_TW705_V01/src/timer.c:221-293 | with nothing between its steps: armed at tick + init_tick at its place, or refused if active |
| `TimerObject.TimerList.UnlinkTimer` | GPS_TW705_V01/src/timer.c:314-321 | the region of stop: off the list, the flag still set |
| `TimerObject.TimerList.ClearFlag` | GPS_TW705_V01/src/timer.c:323-324 | the flag is cleared outside the region |
| `TimerObject.TimerList.StopTimer` | GPS_TW705_V01/src/timer.c:303-327 | with nothing between its steps: off the list and inactive, or refused if not active |
| `TimerObject.TimerList.Check` | GPS_TW705_V01/src/timer.c:373-430 | with callbacks that touch no timer all that is due fires, once, in list order, and nothing due is left |
| `TimerRaces.TwoStops` | GPS_TW705_V01/src/timer.c:303-327 | a start between the flag writes of two stops: the second write leaves the timer listed and inactive, and the next start links it twice |
| `TimerRaces.TwoStopsFromBoot` | GPS_TW705_V01/src/timer.c:303-327 | the same in a run from the start of the kernel |
| `TimerRaces.TwoStarts` | GPS_TW705_V01/src/timer.c:221-277 | two starts past the test of the flag link the timer twice |
| `TimerRaces.LinkedLate` | GPS_TW705_V01/src/timer.c:234-277 | a timer that is linked when its time has come is called a tick late |
| `TimerRaces.WrittenLate` | GPS_TW705_V01/src/timer.c:234-236 | the timeout of a listed timer is rewritten behind a later one: its time comes and it is not called |
| `TimerRaces.OwnTimeout` | GPS_TW705_V01/src/timer.c:398-421 | a periodic timer that its own timeout function stops and starts is linked twice by the check |
| `Pages.Unique` | GPS_TW705_V01/src/slab.c:235-321 | the free list is determined by the set of free pages: sorted, apart and maximal runs are unique |
| `Pages.TakeLowest` | GPS_TW705_V01/src/slab.c:235-269 | allocation takes the lowest span that fits and frees no other page, and fails only if no span fits |
| `Pages.PutUnion` | GPS_TW705_V01/src/slab.c:271-321 | freeing is set union and keeps the runs sorted, apart and maximal |
| `Pages.ListRestored` | GPS_TW705_V01/src/slab.c:235-321 | after any run that ends with the same pages owned, the list is the same as before |
| `Pages.AllFreed` | GPS_TW705_V01/src/slab.c:326-333 | when all pages are back there is one run of all pages, as after initialisation |
| `PageList.PageAllocator.constructor` | GPS_TW705_V01/src/slab.c:326-333 | the linked list holds one run of all pages |
| `PageList.PageAllocator.Alloc` | GPS_TW705_V01/src/slab.c:235-269 | the linked list changes as the model's allocation does, and the page found is returned |
| `PageList.PageAllocator.Release` | GPS_TW705_V01/src/slab.c:271-321 | the four cases of the walk change the linked list as the model's union does |
| `ZoneIndex.Fits` | GPS_TW705_V01/src/slab.c:400-456 | for every request of 1 to 16383 bytes the chunk holds it, wastes less than 8 bytes below 128 and less than an eighth of the request above, and the index is below 72 |
| `ZoneIndex.Monotone` | GPS_TW705_V01/src/slab.c:400-456 | larger requests get no smaller chunk and no lower index |
| `ZoneIndex.OneSizePerIndex` | GPS_TW705_V01/src/slab.c:400-456 | each index has one chunk size, also at the range boundaries |
| `ZoneIndex.EveryIndexUsed` | GPS_TW705_V01/src/slab.c:400-456 | each chunk size maps to its own index |
| `ZoneIndex.Idempotent` | GPS_TW705_V01/src/slab.c:400-456 | a request for a whole chunk gets that chunk |
| `ZoneIndex.IndexFromChunk` | GPS_TW705_V01/src/slab.c:400-456 | the index computed from the rounded request counts its units exactly |
| `Slab.TakeAccounted` | GPS_TW705_V01/src/slab.c:545-569 | taking a chunk, from z_uindex or from the free chunks, keeps every chunk in exactly one of live, free or untouched, and yields one that was not live |
| `Slab.PutAccounted` | GPS_TW705_V01/src/slab.c:843-859 | a freed chunk goes back to exactly one of them |
| `Slab.CountsAddUp` | GPS_TW705_V01/src/slab.c:843-859 | z_nfree and the live chunks add up to z_nmax |
| `Slab.AtLeastThree` | GPS_TW705_V01/src/slab.c:626-642 | every zone holds at least three chunks behind its header |
| `SlabLaws.StartsBehindHeader` | GPS_TW705_V01/src/slab.c:622-635 | chunks start at the first multiple of their size, for powers of two, or of 8 behind the header |
| `SlabLaws.Filled` | GPS_TW705_V01/src/slab.c:639-639 | a zone holds as many chunks as fit behind that |
| `Slab.InsideZone` | GPS_TW705_V01/src/slab.c:626-645 | every chunk lies inside its zone, behind the header |
| `Slab.ChunksApart` | GPS_TW705_V01/src/slab.c:639-645 | chunks of a zone do not overlap |
| `Slab.MallocCorrect` | GPS_TW705_V01/src/slab.c:475-669 | a grant is a block nobody had, large enough, and no other block changes; a refusal changes nothing; zone_array lists exactly the zones with free chunks, afterwards as before |
| `SlabLaws.RefusedExactly` | GPS_TW705_V01/src/slab.c:475-669 | a request is refused exactly if it is for nothing; or large, and it wraps around or no such span of pages is free; or small, and no zone of its index has a chunk left, no zone is spare and no span of pages for a zone is free |
| `SlabLaws.ChunkFrom` | GPS_TW705_V01/src/slab.c:539-647 | a chunk comes from a zone of its index with chunks left, else from the first spare zone, else from the lowest free pages |
| `SlabLaws.PagesFrom` | GPS_TW705_V01/src/slab.c:495-520 | a large request gets the lowest span of free pages there is, and no page more than it needs |
| `Slab.FreeCorrect` | GPS_TW705_V01/src/slab.c:777-915 | freeing takes that block away and no other, keeps zone lists and counters right, and retires a zone only when all of it is free |
| `SlabLaws.PagesBack` | GPS_TW705_V01/src/slab.c:804-828 | exactly the pages of a freed large block become free |
| `SlabLaws.GivenUpExactly` | GPS_TW705_V01/src/slab.c:846-890 | a zone is given up exactly if its last chunk comes back while another zone of its index has chunks left |
| `Slab.PageTableFindsZone` | GPS_TW705_V01/src/slab.c:837-841 | the page table leads from the address of any live chunk to its own zone header |
| `Slab.PageTableFindsLarge` | GPS_TW705_V01/src/slab.c:810-820 | and from a large block to its page count |
| `Slab.LiveBlocksApart` | GPS_TW705_V01/src/slab.c:475-915 | no two live blocks share a byte |
| `Slab.RetiredPlace` | GPS_TW705_V01/src/slab.c:867-912 | a retired zone is in no list of zone_array; it is kept as a spare one, or at the threshold exactly its pages become free and the page table forgets them |
| `SlabAlignment.PowersAligned` | GPS_TW705_V01/src/slab.c:584-635 | a chunk of a power of two is aligned to its size exactly if its zone is, and up to a page always, wherever the page is that the heap starts at |
| `SlabAlignment.TwoPagesMisaligned` | GPS_TW705_V01/src/slab.c:584-635 | the first request of 8000 bytes after rt_system_heap_init is granted two pages behind the page table, aligned to their size exactly if the page there is even, against the comment |
| `Slab.BootedInv` | GPS_TW705_V01/src/slab.c:343-394 | the state after initialisation satisfies the invariant |
| `Slab.StepInv` | GPS_TW705_V01/src/slab.c:475-915 | every malloc and free keeps all of the above |
| `Slab.After` | GPS_TW705_V01/src/slab.c:475-915 | and so does every run |
| `SlabHeap.SlabAllocator.constructor` | GPS_TW705_V01/src/slab.c:343-394 | zone size and limit by the doubling loop, the page table on the first pages |
| `SlabHeap.SlabAllocator.ChooseZoneSize` | GPS_TW705_V01/src/slab.c:374-376 | the doubling stops at the first size of which twice is at least 1/1024 of the heap, or at the largest |
| `SlabHeap.SlabAllocator.Malloc` | GPS_TW705_V01/src/slab.c:475-669 | page table, zones, zone_array and spare zones change as the model's request, and the address returned is that of the block |
| `SlabHeap.SlabAllocator.Free` | GPS_TW705_V01/src/slab.c:777-915 | from the address alone, through the page table, the same block is freed as in the model |
| `SlabHeap.SlabAllocator.Retire` | GPS_TW705_V01/src/slab.c:867-912 | the search loop unlinks the zone and its pages are given back at the threshold |
| `SlabHeap.SlabAllocator.SetUsage` | GPS_TW705_V01/src/slab.c:613-619 | the loop over the page table marks, or clears, exactly the pages of the zone |
| `SmallHeapLaws.RunInv` | GPS_TW705_V01/src/mem.c:124-534 | over any run of malloc, free and realloc: blocks tile the heap, no two neighbours are free, used_mem is the sum of the used extents, lfree is a free block or the end |
| `SmallHeapLive.MallocCorrect` | GPS_TW705_V01/src/mem.c:229-352 | a grant is an aligned block that nobody had, with room for the rounded request, and every other block in use keeps start and end; a refusal changes nothing |
| `SmallHeapOutcome.RoundedIs` | GPS_TW705_V01/src/mem.c:245-245 | the size is rounded up to the next multiple of 8, or to 0 where that does not fit in a word |
| `SmallHeapOutcome.MallocExactly` | GPS_TW705_V01/src/mem.c:245-352 | refused exactly if for nothing, past the heap, or no free block from lfree on holds it before the end; else the first one that does is taken, up to exactly where it is cut |
| `SmallHeapLive.FreeCorrect` | GPS_TW705_V01/src/mem.c:482-534 | after a free the blocks in use are exactly those of before without this one, with the same starts and ends, and the invariant holds |
| `SmallHeapLive.ReallocCorrect` | GPS_TW705_V01/src/mem.c:363-444 | after a realloc the data's block, where it was or at a place nobody had, has room for the rounded size, the old one is gone, and every other block in use keeps start and end; a refusal changes nothing |
| `SmallHeapOutcome.ReallocRefused` | GPS_TW705_V01/src/mem.c:363-444 | refused exactly if the rounded size is past the heap, or the block neither has it nor is cut down to it and it is zero or no free block from lfree on holds it |
| `SmallHeapOutcome.ReallocExactly` | GPS_TW705_V01/src/mem.c:363-444 | else the block keeps its start and ends behind the rounded size, or moves to the first free block that holds it, up to exactly where that is cut |
| `SmallHeapOutcome.ReallocOfNothing` | GPS_TW705_V01/src/mem.c:381-383 | for no block it is the request for the rounded size, and refused exactly as that is |
| `SmallHeapOutcome.GrownBlockMoves` | GPS_TW705_V01/src/mem.c:435-443 | a block of 104 bytes that another follows moves when it grows to 200 |
| `SmallHeapLive.RunKeeps` | GPS_TW705_V01/src/mem.c:229-534 | over any run a block in use that nobody frees or reallocates keeps its start and its end |
| `SmallHeapLive.LiveInUse` | GPS_TW705_V01/src/mem.c:482-500 | so its pointer may still be freed: a pointer is good exactly while its block is in use |
| `SmallHeapLive.PayloadsApart` | GPS_TW705_V01/src/mem.c:229-352 | no two blocks in use overlap, and none reaches past the heap |
| `SmallHeapLive.GrantsRequest` | GPS_TW705_V01/src/mem.c:245-256 | the block handed out holds the request exactly if rounding up does not wrap |
| `SmallHeapLive.WrappedGrant` | GPS_TW705_V01/src/mem.c:245-256 | a request of 4294967295 bytes is granted a block of 16 |
| `SmallHeapLive.ReallocGrantsRequest` | GPS_TW705_V01/src/mem.c:363-444 | so does the block that rt_realloc returns |
| `SmallHeapLive.WrappedRealloc` | GPS_TW705_V01/src/mem.c:372-432 | a block of 104 bytes that is to grow to 4294967295 is returned without payload |
| `SmallHeapLaws.FirstFit` | GPS_TW705_V01/src/mem.c:261-345 | while lfree is the lowest free block, malloc takes the lowest block that fits and starts below mem_size_aligned - size, and fails only if none does |
| `SmallHeapLaws.RunLowest` | GPS_TW705_V01/src/mem.c:229-534 | in runs without a shrinking realloc lfree is always the lowest free block |
| `SmallHeapLaws.LowestShrunk` | GPS_TW705_V01/src/mem.c:408-432 | a shrinking realloc keeps that exactly if lfree was below the block or the free block right behind it |
| `SmallHeapLaws.ShrinkLosesLowest` | GPS_TW705_V01/src/mem.c:408-432 | the failing case: shrinking the first of two blocks leaves a free block below lfree |
| `SmallHeapLaws.TwoTakenReached` | GPS_TW705_V01/src/mem.c:229-352 | and the run from a fresh heap that leads there |
| `SmallHeapLaws.MallocThenFree` | GPS_TW705_V01/src/mem.c:482-534 | malloc followed by free restores the block chain, lfree and used_mem exactly |
| `SmallHeap.MallocInv` | GPS_TW705_V01/src/mem.c:229-352 | a grant turns a free block into a used one with room for the rounded request at an aligned address; a refusal changes nothing |
| `SmallHeap.MovedInv` | GPS_TW705_V01/src/mem.c:436-443 | a realloc that moves frees the old block only after a new one was found |
| `SmallHeapMemory.Memory.constructor` | GPS_TW705_V01/src/mem.c:168-214 | one free block and the end stub |
| `SmallHeapMemory.Memory.PlugHoles` | GPS_TW705_V01/src/mem.c:124-158 | next and prev fields and lfree change as merging forward and backward does |
| `SmallHeapMemory.Memory.Search` | GPS_TW705_V01/src/mem.c:261-266 | the walk over the headers stops at the first block that fits from lfree on |
| `SmallHeapMemory.Memory.AdvanceLfree` | GPS_TW705_V01/src/mem.c:324-328 | the loop moves lfree on to the next free block or the end |
| `SmallHeapMemory.Memory.Malloc` | GPS_TW705_V01/src/mem.c:229-352 | the header fields in the heap array, prev mirroring next, change as the model's request, and the same address is returned |
| `SmallHeapMemory.Memory.Free` | GPS_TW705_V01/src/mem.c:482-534 | the header fields change as the model's free |
| `SmallHeapMemory.Memory.Realloc` | GPS_TW705_V01/src/mem.c:363-444 | the header fields change as the model's realloc, same result |
| `Tiling.TakenCoalesced` | GPS_TW705_V01/src/mem.c:266-320 | handing out a free block, split or not, never leaves two free blocks side by side |
| `MemHeap.RoomAvailable` | GPS_TW705_V01/src/memheap.c:129-150 | no free block has more room than available_size |
| `MemHeap.RunInv` | GPS_TW705_V01/src/memheap.c:40-302 | over any run: blocks tile the pool, no two free blocks touch, available_size is the sum of the free payloads, the circular list holds exactly the unused blocks |
| `MemHeapLive.AllocCorrect` | GPS_TW705_V01/src/memheap.c:115-223 | a grant is a block that nobody had, with room for the rounded request, and every other block in use keeps start and end; a refusal changes nothing |
| `MemHeapOutcome.RequestIs` | GPS_TW705_V01/src/memheap.c:123-125 | what is searched for: the next multiple of 8, at least 12, and 12 where rounding wraps |
| `MemHeapOutcome.AllocExactly` | GPS_TW705_V01/src/memheap.c:115-222 | refused exactly if it asks for all that is available or no free block has room; else the first of the free list that has is taken, up to exactly where it is cut |
| `MemHeapOutcome.AvailableIs` | GPS_TW705_V01/src/memheap.c:115-222 | available_size is the room of all free blocks together |
| `MemHeapOutcome.ReusedFirst` | GPS_TW705_V01/src/memheap.c:226-302 | a freed block without a free block before it is the one the next request it has room for gets |
| `MemHeapOutcome.FreedFirst` | GPS_TW705_V01/src/memheap.c:226-302 | such a block comes first in the free list, and the others keep their order |
| `MemHeapLive.FreeCorrect` | GPS_TW705_V01/src/memheap.c:226-302 | after a free the blocks in use are exactly those of before without this one, with the same starts and ends, and the invariant holds |
| `MemHeapLive.RunKeeps` | GPS_TW705_V01/src/memheap.c:115-302 | over any run a block in use that nobody frees keeps its start and its end |
| `MemHeapLive.LiveInUse` | GPS_TW705_V01/src/memheap.c:236-246 | so its pointer may still be freed: a pointer is good exactly while its block is in use |
| `MemHeapLive.PayloadsApart` | GPS_TW705_V01/src/memheap.c:115-223 | no two blocks in use overlap, and none reaches past the pool |
| `MemHeapLive.GrantsRequest` | GPS_TW705_V01/src/memheap.c:123-125 | the block handed out holds the request exactly if rounding up does not wrap |
| `MemHeapLive.WrappedGrant` | GPS_TW705_V01/src/memheap.c:123-125 | a request of 4294967295 bytes is granted a block of 12 |
| `MemHeapLive.RefusedThoughFits` | GPS_TW705_V01/src/memheap.c:129-150 | although a listed block is large enough, a request is refused exactly if it asks for all that is available |
| `MemHeapLive.AllIsRefused` | GPS_TW705_V01/src/memheap.c:129-150 | a fresh pool refuses a request for all of it and grants one for 8 bytes less |
| `MemHeapLive.AlignedExactly` | GPS_TW705_V01/src/memheap.c:123-166 | a grant keeps all blocks aligned exactly if it is for more than the minimum of 12 bytes, or the first listed block with room for them would not be split |
| `MemHeapLive.StaysAligned` | GPS_TW705_V01/src/memheap.c:123-166 | a request of more than 8 bytes whose rounding does not wrap keeps all blocks aligned |
| `MemHeapLive.FreeAligned` | GPS_TW705_V01/src/memheap.c:226-302 | freeing keeps blocks aligned |
| `MemHeapLive.SmallRequestMisaligns` | GPS_TW705_V01/src/memheap.c:123-166 | a request of 8 bytes out of a fresh pool misaligns the block behind it |
| `MemHeap.AllBack` | GPS_TW705_V01/src/memheap.c:226-302 | whatever the order of frees, with nothing live the pool is one free block of its size minus two headers, as initialised |
| `MemHeapMemory.Pool.constructor` | GPS_TW705_V01/src/memheap.c:40-103 | one free block, the used end header, and the circular free list through the pool's own node |
| `MemHeapMemory.Pool.Alloc` | GPS_TW705_V01/src/memheap.c:115-223 | block links, free-list links and available_size change as the model's request, and the same address is returned |
| `MemHeapMemory.Pool.Free` | GPS_TW705_V01/src/memheap.c:226-302 | block links, free-list links and available_size change as the model's free |
| `MemHeapMemory.Pool.MergeLeft` | GPS_TW705_V01/src/memheap.c:253-269 | the block before takes the freed one over and need not be listed again |
| `MemHeapMemory.Pool.MergeRight` | GPS_TW705_V01/src/memheap.c:272-289 | the block behind is taken over and leaves the free list |
| `RwLock.Exclusion` | GPS_TW705_V01/components/pthreads/pthread_rwlock.c:95-265 | over all interleavings, with timeouts and spurious wake-ups: rw_refcount is -1 iff one writer and no reader holds the lock, else the number of read holds; the waiting counters count the threads inside the wait; rw_mutex has one owner at most |
| `RwLock.EventInv` | GPS_TW705_V01/components/pthreads/pthread_rwlock.c:95-265 | every step between two preemption points keeps that |
| `RwLock.DroppedInv` | GPS_TW705_V01/components/pthreads/pthread_rwlock.c:222-225 | an unlock takes back exactly the hold of its caller |
| `RwLock.GrantedInv` | GPS_TW705_V01/components/pthreads/pthread_rwlock.c:106-116 | a grant after the test is still justified when it happens, because rw_mutex is held in between |
| `RwLockLaws.TestExactly` | GPS_TW705_V01/components/pthreads/pthread_rwlock.c:95-258 | a call for reading goes on exactly if no writer holds the lock or waits, one for writing exactly if nobody holds it; else a try gives up and another call waits |
| `RwLockLaws.TryExactly` | GPS_TW705_V01/components/pthreads/pthread_rwlock.c:122-210 | a try has the lock two steps after its test, or is about to leave without it, by the same conditions |
| `RwLockLaws.GotExactly` | GPS_TW705_V01/components/pthreads/pthread_rwlock.c:114-117 | a call that goes on is one more reader, or the writer |
| `RwLockLaws.UnlockExactly` | GPS_TW705_V01/components/pthreads/pthread_rwlock.c:222-225 | an unlock takes its caller off the readers, or the writer off |
| `RwLockLaws.TellExactly` | GPS_TW705_V01/components/pthreads/pthread_rwlock.c:227-237 | it tells one writer if writers wait and nobody holds the lock any more, all readers if readers wait and no writers, and nobody otherwise |
| `RwLockLaws.BackExactly` | GPS_TW705_V01/components/pthreads/pthread_rwlock.c:105-112 | a wait ends with the test again, or, failed, with leaving without the lock |
| `RwLockLaws.ExpireExactly` | GPS_TW705_V01/components/pthreads/pthread_cond.c:135-180 | a wait fails exactly when the time of a timed call is up |
| `RwLockLaws.TakesMutexExactly` | GPS_TW705_V01/components/pthreads/pthread_rwlock.c:102-103 | rw_mutex is taken, at the start and after a wait, exactly if no thread owns it |
| `RwLockProgress.NobodyStranded` | GPS_TW705_V01/components/pthreads/pthread_rwlock.c:212-240 | whenever the lock is free and calls are under way, some thread is not asleep, in all runs in which no writer whose wait failed leaves as the last waiting one with the lock free and readers waiting |
| `RwLockProgress.GivingUp` | GPS_TW705_V01/components/pthreads/pthread_rwlock.c:178-184 | a writer that gives up strands nobody while the lock is held, another writer waits, or no reader waits |
| `RwLockProgress.GivingUpExactly` | GPS_TW705_V01/components/pthreads/pthread_rwlock.c:178-184 | otherwise the readers that need a signal are not stranded exactly if some other thread will wake one or is one that was woken |
| `RwLockProgress.WritersNotStranded` | GPS_TW705_V01/components/pthreads/pthread_rwlock.c:228-232 | with timeouts too, while the lock is free and a writer sleeps some thread will take the lock or wake one |
| `RwLockProgress.TimedWriterStrandsReader` | GPS_TW705_V01/components/pthreads/pthread_rwlock.c:168-191 | the failing run: a timed writer gives up with the last unlock's signal pending and a reader sleeps on with the lock free |
| `RwLockProgress.BroadcastWakesAll` | GPS_TW705_V01/components/pthreads/pthread_cond.c:89-120 | a broadcast wakes every sleeper with success and leaves a signal for one more taker, and changes nothing else |
| `RwLockProgress.ReleasedSems` | GPS_TW705_V01/components/pthreads/pthread_cond.c:122-133 | a signal wakes the first sleeper, or is kept in the semaphore |
| `RwLockObject.Condition.TryTake` | GPS_TW705_V01/src/ipc.c:395-398 | the count goes down if it can |
| `RwLockObject.Condition.Release` | GPS_TW705_V01/src/ipc.c:409-442 | the first sleeper is woken, or the count goes up |
| `RwLockObject.Condition.Take` | GPS_TW705_V01/components/pthreads/pthread_cond.c:135-154 | takes a kept signal, or joins the sleepers at the end |
| `RwLockObject.Condition.Broadcast` | GPS_TW705_V01/components/pthreads/pthread_cond.c:89-120 | the try-and-release loop ends with every sleeper woken once, in order, and a signal left over |
| `RwLockObject.Lock.constructor` | GPS_TW705_V01/components/pthreads/pthread_rwlock.c:33-47 | nobody holds or waits |
| `RwLockObject.Lock.TestRead` | GPS_TW705_V01/components/pthreads/pthread_rwlock.c:106-108 | the guard of the read loops in step with the protocol: a caller that must wait is counted |
| `RwLockObject.Lock.TestWrite` | GPS_TW705_V01/components/pthreads/pthread_rwlock.c:252-254 | the same for the write loops |
| `RwLockObject.Lock.Return` | GPS_TW705_V01/components/pthreads/pthread_rwlock.c:110-112 | the count goes down after the wait |
| `RwLockObject.Lock.TryLock` | GPS_TW705_V01/components/pthreads/pthread_rwlock.c:132-135 | granted at once exactly if no writer holds the lock or waits, for reading, or nobody holds it, for writing; else busy |
| `RwLockObject.Lock.Grant` | GPS_TW705_V01/components/pthreads/pthread_rwlock.c:116 | the count goes up by one reader, or becomes -1 |
| `RwLockObject.Lock.Unlock` | GPS_TW705_V01/components/pthreads/pthread_rwlock.c:212-240 | the counters and semaphores change as the protocol's two steps, and exactly the threads the protocol wakes are woken |

## Left out

- Context switching, stack set-up, interrupt masking, devices, console, line editing, hooks, debug output and module loading: hardware or I/O.
- Semaphores, FIFO mutexes, several mutexes held at once and chained waits: priority inheritance does not hold for the latter three; a semaphore appears where the read-write lock needs one.
- The blocking paths of `mempool.c`: a woken thread takes a block without checking the count again.
- Soft timers, and detaching or deleting timers.
- A statement that sets or clears a bit of a timer's flag is one step, and so is the reading of tick and init_tick together.
- Slab's `rt_realloc`, `heap_sem`, and used_mem statistics: slab operations are sequential.
- The finsh parser, casts, system calls, strings, and BYTE and WORD operands in the machine: the compiler model emits their code, the correctness theorem covers 32-bit operands.
- Operations undefined in C (division by zero, the least integer divided by -1, shifts by 32 or more): a fault in source semantics and machine alike.
- Contents of heap payloads: clearing and copying bytes is not modelled for any allocator; in the finsh machine memory is a map from addresses to words.
- Message copies are one step each; a reader of a private node sees no partial copy.
- Detaching and deleting IPC objects, deleting the owner of a mutex, deleting threads that were never started, the list of defunct threads, and `rt_thread_detach`, which goes as `rt_thread_delete` does.
- The error code of a resumed thread as it is read by its caller, except in mailbox, message queue and read-write lock, where it decides the next step.
- `pthread_rwlock_destroy` and lazy initialisation; unlocking without holding the lock, which POSIX leaves undefined.
- `pthread_cond_broadcast` is one step of the protocol: its loop runs with the scheduler locked.
- Thread control blocks are records in a map by thread number, and suspend lists are sequences in the kernel object; `Rings` proves the links of `rt_list` by themselves.
- Mailbox.Ring.Send: the place k among sleeping senders is a parameter; the search for it is `KernelObject.Kernel.IpcListSuspend`.
- Mailbox.Ring.Recv: the place k among sleeping receivers is a parameter, as for sending.
- MessageNodes.MessageQueue.TakeFront: the place k among sleeping receivers is a parameter, as for the mailbox.
- Events.EventObject.Recv: the place k among the waiters is a parameter, as for the mailbox.
- Events.EventObject.Send: the wake loop is one step, as interrupts are disabled throughout.
- KernelObject.Kernel.Reschedule: asks for a ready thread, as there always is the idle thread.
- KernelObject.Kernel.ResumeUnlink: asks that the thread is still not READY; `KernelMutex.UnlinkExactly` shows that agreement fails otherwise.
- KernelObject.Kernel.ResumeInsert: asks that the thread is in no list; `KernelMutex.InsertExactly` shows that agreement fails otherwise.
- KernelObject.Kernel.DeleteClose: asks that the thread is in no ready list; `KernelMutex.CloseExactly` shows that agreement fails otherwise.
- KernelObject.Kernel.ThreadTimeout: asks for a suspended thread, which the source asserts.
- FinshHeapMemory.Memory.Allocate: asks that request and header fit in a word; beyond that the search may hand out a block without room, as `FinshHeap.WrappedRequestPasses` shows.
- FinshShell.RunLine: asks that the code fits the text segment, which the source does not check; it checks the stack no more, so a statement that needs more than its 64 slots is undefined there and a fault in the model.
- TimerObject.TimerList.StartTimer: asks for 1 <= init_tick < RT_TICK_MAX/2, the upper bound of which the source asserts, and for another timer than the one whose timeout function is being called; it is the call without interruption, and its steps are `TimerObject.TimerList.WriteTimeout` and `TimerObject.TimerList.LinkTimer` behind the test and the reading of the tick.
- TimerObject.TimerList.StopTimer: the call without interruption; its steps are `TimerObject.TimerList.UnlinkTimer` and `TimerObject.TimerList.ClearFlag` behind the test.
- TimerObject.TimerList.WriteTimeout: asks that the step is undisturbed; `Timers.TimedExactly` shows that the list is in disorder otherwise.
- TimerObject.TimerList.LinkTimer: asks that the step is undisturbed; `Timers.LinkedExactly` shows that the list is in disorder otherwise.
- TimerObject.TimerList.ClearFlag: asks that the timer is in no list; `Timers.ClearedExactly` shows that it is listed and inactive otherwise.
- Timers.FiresExactlyThen: a check follows every tick, and every step of the run is undisturbed.
- SmallHeapMemory.Memory.constructor: asks for mem_size_aligned to be at least MIN_SIZE_ALIGNED and a multiple of 8.
- MemHeapMemory.Pool.Alloc: the return statement of `rt_memheap_alloc` has one parenthesis too many in the source; it is read as returning the payload.
- SlabHeap.SlabAllocator.constructor: the page table is taken as cleared, which `rt_system_heap_init` does not do.
- RwLock.Exclusion: only holders unlock.
