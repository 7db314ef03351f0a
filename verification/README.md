# A Dafny model of the Cat-OS kernel core

Cat-OS is a small 32-bit x86 system: a round-robin scheduler with an assembly context switch, a bitmap
page allocator with two-level page tables on top of it, a process table, message passing between
processes, a capability table, and drivers for timer, console and keyboard. This project models that
core and proves what each part keeps along every run, in particular the facts that hold only across
parts: page tables stay apart because the allocator hands out disjoint runs, stacks survive a switch
because they are such runs, message queues are indexed safely because process identifiers stay below 64,
and a message reaches whoever the scheduler can find. `KernelSpec` puts the parts together into one machine
and keeps all their invariants at once.

`dafny verify dfyconfig.toml` checks the whole project.

## How the model is laid out

Each part has a module of values and functions, in which the state machine and its theorems live, and
classes that change fields, arrays and linked objects in place as the C code does. Every method of a
class is proved against the functions: its `ensures` gives the whole new abstract state.

| part | theorems | in place |
|---|---|---|
| scheduler | `SchedulerSpec` (the ready list as a sequence), `ReadyLinks` and `LinkedScheduler` (as pointers) | `Scheduler` (process control blocks linked by next and prev) |
| context switch | `StackMachine`, `Switching` | instruction by instruction on a memory value |
| physical pages | `PageSet`, `Words` | `PageAllocator` (bitmap of 32-bit words) |
| page tables | `Paging`, `AddressSpace` | `MemoryManager` (array of frames) |
| processes | `ProcessSpec` | `Processes` (process table, used flags) |
| processes, scheduler, switch and messages together | `KernelSpec`, `KernelRuns`, `KernelStart` | |
| messages | `Mailbox`, `IpcSpec` | `MessageQueue` (head, tail, next), `QueueTable`, `Ipc` |
| capabilities | `CapabilitySpec` | `Capabilities` (array of capability objects) |
| timer | `TimerSpec` | `TimerDriver` (array of requests) |
| console | `ConsoleSpec` | `ConsoleDriver` (80 by 25 video memory) |
| keyboard | `KeyboardSpec` | `KeyboardDriver` (ring of 256 bytes) |

Some values carry history that the C code does not store: serial numbers that do not wrap, logs of what
was sent or notified, the image of a suspended process. No branch depends on it, and the 32-bit counters
are its low 32 bits (`Common.Wrap`).

## What the code does not keep

Where a property one would expect is false of the code, the model follows the code, shows a case in which
it fails, and proves exactly when it holds.

- The ready queue is one duplicate-free list of Ready processes throughout a run if and only if no process
  blocks while it is queued behind another one (`SchedulerSpec.RunKeepsInvIffSafe`). A process that blocked
  with nothing ready stays current, may be unblocked there, and is then both current and queued; blocking
  again leaves it Blocked in the queue (`SchedulerSpec.BlockingWhileQueuedBreaksInv`).
- The ready list is a sequence at all throughout a run if and only if no step adds or unblocks a process that
  is in it (`LinkedScheduler.RunIsSequenceIff`). Unblocking a process that is Blocked in the list cuts off
  those behind it, and from then on only that process is dispatched
  (`LinkedScheduler.LinkedTwiceStarves`); alone in the list it is linked to itself, and the walk of
  `scheduler_find_process` does not end (`LinkedScheduler.LinkedToItself`). First come, first served is
  proved for the runs in which this does not happen.
- A Ready process that is removed from the queue is never queued again, even if it is added, because
  `scheduler_add_process` takes it for a queued one (`LinkedScheduler.ForgottenForGood`).
- Creating a process with an identifier free and one to four pages available goes on with null page tables,
  fails, and frees frame 0 while cleaning up. Coexistence is kept throughout a run if and only if no creation
  finds the kernel so (`ProcessSpec.EveryRunCoexistsIff`, `Processes.Processes.Create`); the next page
  allocated afterwards is page 0, which looks like a failure (`ProcessSpec.FrameZeroIsNext`). A creation that
  comes next is refused for that, and marks page 0 again (`ProcessSpec.NextCreationRestores`).
- Mapping a page into a process that needs a page table for it keeps the processes apart if and only if there
  is a page for the table and the flags make it present and writable, or there is none and they do not make
  frame 0 a table (`ProcessSpec.MapKeepsCoexistenceIff`).
- Killing a process that is queued cleans it up and leaves it in the ready list: at the head, it is the next
  to run, on a stack that is free for anybody (`KernelRuns.KilledHeadRuns`). A process that exits while it
  is current and the head of the queue runs again at once, from the stack pointer of an earlier switch
  (`KernelRuns.ExitedHeadRunsAgain`).
- A process that exits while others are ready is not cleaned up (`KernelRuns.CurrentIsNotCleanedUp`): it stays
  Terminated, neither current nor queued, with slot, identifier and pages taken, until its exit is asked for
  again (`KernelRuns.ZombieStaysThroughout`).
- Messages outlive their receiver: a process that is given the identifier later receives them
  (`KernelRuns.SuccessorGetsMessages`).
- All the kernel's invariants hold together throughout a run if and only if no creation is doomed as above, no
  process exits while it is in the ready list, unless it is current and its head, every mapping finds the page
  table it needs as above, and no step or send links a process twice (`KernelSpec.EveryRunKeepsInvIff`). A send
  does that, in a run that was in order until then, to a process that waits for a message while it is queued
  (`KernelRuns.SendToQueuedReceiver`).
- `process_exit` takes a process out of the scheduler if and only if it was not queued: it is marked
  Terminated first, and only Ready processes are unlinked (`SchedulerSpec.ExitLeavesSchedulerIffNotQueued`).
- `kernel/ipc.c` says of a blocking receive that the process "will be resumed when message arrives". A send
  finds only the current process and the ready queue, so a process that has been switched away is neither
  found nor woken, ever (`IpcSpec.StrandedStaysStranded`). The receive itself reports success without a message.
- A send wakes nobody but the current process in runs in which no process blocks while queued behind
  another (`IpcSpec.SafeRunsWakeOnlyCurrent`). Otherwise it can wake a process Blocked in the ready list, and
  so link it twice (`IpcSpec.SendWakesAnother`).
- A granted capability passes a check if and only if its resource is 0, because the resource is written
  after the signature was made (`CapabilitySpec.GrantUsableIff`); changing the expiration also breaks the
  signature (`CapabilitySpec.VerifiesIff`).
- A delay is notified on time if and only if the target does not pass the end of the tick counter, or the
  counter is about to start anew (`TimerSpec.OnTimeIff`); its length in ticks is right if and only if it is
  at most 42949672 milliseconds (`TimerSpec.DelayTicksExact`).
- A backspace takes back a printed character if and only if that did not fill the row
  (`ConsoleSpec.BackspaceUndoesIff`).
- The console drops the last byte of every message, so it matters how a text is cut into messages unless
  that byte does nothing where it falls (`ConsoleSpec.CutShowsIff`).
- `docs/ARCHITECTURE.md` says that a task switch changes CR3 and TSS.esp0. `scheduler_switch_to` changes
  neither, and so does the model.
- A comment in `memory_init` says that page 0 stays unmapped. The code maps it for the supervisor, and so does
  the model.

## Model

| member | source | states |
|---|---|---|
| `SchedulerSpec.RunKeepsInvIffSafe` | kernel/scheduler.c:61-189 | over every run of adds, removes, ticks, yields, blocks and unblocks: the queue is duplicate-free with every member Ready and at most one process Running, which is current, throughout, if and only if no process blocks while queued behind another |
| `SchedulerSpec.NextKeepsInvIffSafe` | kernel/scheduler.c:61-153 | one step keeps that invariant if and only if it is not such a block |
| `SchedulerSpec.BlockKeepsInvIffSafe` | kernel/scheduler.c:148-153 | a block keeps the invariant if and only if the current process is not queued behind another |
| `SchedulerSpec.CurrentAndQueuedIsReachable` | kernel/scheduler.c:97-103 | a process that blocks with nothing ready stays current, and unblocking it then makes it current and queued at once, with the invariant intact |
| `SchedulerSpec.BlockingWhileQueuedBreaksInv` | kernel/scheduler.c:148-153 | blocking there breaks the invariant: the process is queued but Blocked |
| `SchedulerSpec.InitialKeepsInv` | kernel/scheduler.c:52-59 | the invariant holds after initialisation |
| `SchedulerSpec.EnqueueKeepsInv` | kernel/scheduler.c:61-69 | adding and unblocking keep the invariant, also when the process is current |
| `SchedulerSpec.TickKeepsInv` | kernel/scheduler.c:85-95 | a tick keeps the invariant |
| `SchedulerSpec.RemoveKeepsInv` | kernel/scheduler.c:71-83 | a removal keeps the invariant |
| `SchedulerSpec.RemovedIsGone` | kernel/scheduler.c:71-83 | a removed process is neither queued nor current; if it was current it is Terminated and the first of the others queued gets the processor; otherwise nothing but the queue changes |
| `SchedulerSpec.YieldKeepsInv` | kernel/scheduler.c:97-125 | a yield keeps the invariant |
| `SchedulerSpec.NextKeepsLoose` | kernel/scheduler.c:61-153 | every step that links no process twice keeps the queue duplicate-free, with nobody in it Running and nobody Running but the current process |
| `SchedulerSpec.SafeNeverRelinks` | kernel/scheduler.c:61-153 | a run in which no process blocks while queued behind another never links a process twice |
| `SchedulerSpec.ReadyIffQueued` | kernel/scheduler.c:85-153 | over every safe run without removals, a process is Ready exactly when it is queued |
| `SchedulerSpec.DispatchTakesHead` | kernel/scheduler.c:97-114 | as long as no process is linked twice, a dispatch makes exactly the head current and Running, and other steps only lengthen the queue |
| `SchedulerSpec.NoOvertaking` | kernel/scheduler.c:97-114 | whatever adds, blocks, unblocks, ticks and yields interleave, if none of them links a process twice, the dispatches of a run followed by its final queue begin with the initial queue |
| `SchedulerSpec.DispatchedInTurn` | kernel/scheduler.c:97-168 | in such a run the process at index i is dispatched by exactly the (i+1)-th dispatch and by none before |
| `SchedulerSpec.QuantumCountdown` | kernel/scheduler.c:85-95 | at most ten ticks separate two ends of a quantum, across the wrap of the tick counter too |
| `SchedulerSpec.DispatchedWithinTicks` | kernel/scheduler.c:85-114 | in such a run the process at index i is dispatched once the current quantum and i further ones have passed |
| `SchedulerSpec.DispatchedWithinQuanta` | kernel/scheduler.c:85-114 | hence within 10 * (i+1) ticks, as long as nothing is removed and no process is linked twice |
| `SchedulerSpec.QuantumIsKept` | kernel/scheduler.c:91-94 | until the counter is next a multiple of ten, any number of ticks changes nothing but the counter and the time charged: nobody loses the processor to a tick before its quantum ends |
| `SchedulerSpec.IdleTickDispatches` | kernel/scheduler.c:87-90 | without a current process, a tick makes the head of the queue current and Running at once |
| `SchedulerSpec.ChargedForTicksHeld` | kernel/scheduler.c:91-91 | over every run of any steps, a process is charged exactly the ticks that came while it was current, in 32 bits |
| `SchedulerSpec.IdentifiersAreDistinct` | kernel/scheduler.c:63-63 | over every run, as long as the counter does not pass its end, processes that come without an identifier get distinct ones, and identifiers once given are kept |
| `SchedulerSpec.ExitLeavesSchedulerIffNotQueued` | kernel/process.c:109-130 | after an exit the process is neither queued nor current if and only if it was not queued before |
| `SchedulerSpec.FindProcess` | kernel/scheduler.c:131-139 | finds a process with the identifier that is current or queued, and none if and only if no such process has it |
| `ReadyLinks.AppendRepresents` | kernel/scheduler.c:155-168 | for a process that is not in the list, the pointer writes of an append turn links that form a sequence into links that form the sequence with one more at its end |
| `ReadyLinks.AppendTwiceIsNoSequence` | kernel/scheduler.c:155-168 | for a process that is in the list, they leave pointers that form no sequence at all |
| `ReadyLinks.OneSequence` | kernel/scheduler.c:155-189 | pointers form at most one sequence, the one found by following next from the head |
| `ReadyLinks.DeleteRepresents` | kernel/scheduler.c:170-189 | the pointer writes of a removal turn the links into those of the sequence without the process, wherever it stood, and change nothing if it was not there |
| `LinkedScheduler.NextRefines` | kernel/scheduler.c:61-189 | a step on the pointers is the step of the sequence machine, unless it links a process twice |
| `LinkedScheduler.RelinkBreaks` | kernel/scheduler.c:155-168 | a step that links a process twice leaves no sequence |
| `LinkedScheduler.RunIsSequenceIff` | kernel/scheduler.c:61-189 | over every run on the pointers: they form one sequence throughout if and only if no step adds or unblocks a process that is in the list, and then the run is that of the sequence machine |
| `LinkedScheduler.SoundStep` | kernel/scheduler.c:61-189 | from pointers that form a sequence with the invariant, a step leads to such pointers again if and only if it is safe |
| `LinkedScheduler.LooseStep` | kernel/scheduler.c:61-189 | from a sequence in which a process may be Blocked, a step leads to a sequence again if and only if it links no process twice |
| `LinkedScheduler.DispatchedInTurnWithinQuanta` | kernel/scheduler.c:85-189 | on the pointers: with nothing removed or linked twice, the process at index i of the list is the one that the (i+1)-th dispatch takes, and that is within 10 * (i+1) ticks |
| `LinkedScheduler.LinkedTwiceStarves` | kernel/scheduler.c:141-189 | current p in the list between q and r blocks and is unblocked: the pointers form no sequence, and after the next yield, in every run of ticks, yields, unblocks and adds of others, only p is dispatched while r stays Ready |
| `LinkedScheduler.OnlyHoarderIsDispatched` | kernel/scheduler.c:97-189 | a running process that is the head of the list without being linked to the rest keeps the processor in all such runs |
| `LinkedScheduler.LinkedToItself` | kernel/scheduler.c:131-168 | with only q before it, p ends up as its own next and prev, and following next from the head meets p any number of times |
| `LinkedScheduler.RemovalForgets` | kernel/scheduler.c:71-83 | removing a queued process that is not current leaves it Ready with nothing pointing to it |
| `LinkedScheduler.ForgottenForGood` | kernel/scheduler.c:61-189 | no run of any steps ever links or dispatches such a process again |
| `Scheduler.Scheduler.constructor` | kernel/scheduler.c:52-59 | a linked, empty scheduler in its initial state |
| `Scheduler.Scheduler.AddToReady` | kernel/scheduler.c:155-168 | the pointers are those specified for an append, of any process |
| `Scheduler.Scheduler.RemoveFromReady` | kernel/scheduler.c:170-189 | the pointers are those specified for a removal, in any state of the list |
| `Scheduler.Scheduler.SwitchTo` | kernel/scheduler.c:116-125 | the process is current and Running, all other states unchanged |
| `Scheduler.Scheduler.Yield` | kernel/scheduler.c:97-114 | pointers and fields are those specified for a yield, in any state |
| `Scheduler.Scheduler.Add` | kernel/scheduler.c:61-69 | pointers and fields are those specified for an add, in any state; null is ignored |
| `Scheduler.Scheduler.Remove` | kernel/scheduler.c:71-83 | pointers and fields are those specified for a removal, in any state; null is ignored |
| `Scheduler.Scheduler.Tick` | kernel/scheduler.c:85-95 | pointers and fields are those specified for a tick, in any state |
| `Scheduler.Scheduler.Unblock` | kernel/scheduler.c:141-146 | pointers and fields are those specified for an unblock, in any state; a list that was a sequence is one again if and only if the process was not Blocked in it |
| `Scheduler.Scheduler.BlockCurrent` | kernel/scheduler.c:148-153 | pointers and fields are those specified for a block, in any state; a list that was a sequence stays one |
| `Scheduler.Scheduler.Find` | kernel/scheduler.c:131-139 | returns the first process with the identifier among current and list, or null, if the list is a sequence |
| `Scheduler.Scheduler.Perform` | kernel/scheduler.c:61-153 | any step on the heap, in any state, is the step on the pointers |
| `Scheduler.Scheduler.Execute` | kernel/scheduler.c:61-189 | every run on the heap is the run on the pointers; it is that of the sequence machine if no process is linked twice, and keeps the invariant if it is safe |
| `StackMachine.SaveBuildsFrame` | kernel/scheduler.c:33-39 | the pushes build a frame that holds flags, EBP, EBX, ESI, EDI and the return address, and write nothing else |
| `StackMachine.RestoreUsesFrame` | kernel/scheduler.c:41-49 | the pops continue with exactly the context of a frame and write no memory |
| `StackMachine.SetupStack` | kernel/process.c:146-201 | panics exactly for a null entry point; otherwise writes, within the process's kernel stack only, a switch frame that returns to the entry point, or for a user process to the first-run handler above its interrupt frame; `KernelStart.ProcessStarts` says what comes of it |
| `StackMachine.FirstRunEntersUser` | kernel/process.c:18-29 | from that frame the handler enters ring 3 at the entry point with CS 0x1B, SS 0x23, EFLAGS 0x202 and ESP 16384 above the start of the user stack |
| `Switching.AfterKeepsInv` | kernel/scheduler.c:97-125 | every event (scheduler step with its switch, also a block while queued; computation on one's own stack; stack set-up) that links no process twice keeps every waiting process's frame and stack intact |
| `Switching.KernelKeepsInv` | kernel/scheduler.c:116-125 | a scheduler step with its context switch keeps that invariant |
| `Switching.InitialKeepsInv` | kernel/scheduler.c:52-59 | the invariant holds at the start, over disjoint kernel stacks |
| `Switching.FirstProcessIsDispatched` | kernel/scheduler.c:61-125 | from the start, setting up a process, adding it and yielding is a possible run, and its yield switches to that process |
| `Switching.BirthKeepsInv` | kernel/process.c:55-75 | a new process with a stack apart from the others keeps that invariant |
| `Switching.DeathKeepsInv` | kernel/process.c:120-128 | so does the end of a process that is neither current nor queued |
| `Switching.CurrentExitKeepsInv` | kernel/process.c:117-120 | so does the exit of a current process that is not queued, which switches to the head of the queue without a save |
| `Switching.ExitInQueueIsNotSchedulable` | kernel/process.c:117-120 | the exit of a current process that is queued further back leaves it in the queue, Terminated |
| `Switching.TargetIsFrozen` | kernel/scheduler.c:110-125 | a switch only ever goes to a process that was prepared or switched away from |
| `Switching.SwitchResumes` | kernel/scheduler.c:24-50 | a switch hands the processor over with exactly the target's context and the rest of its stack |
| `Switching.SwitchFreezesOrigin` | kernel/scheduler.c:33-39 | a switch leaves its origin with a frame for the context it is to return to |
| `Switching.ImageKeptThroughout` | kernel/scheduler.c:116-125 | along every run in which a process stays off the processor, its saved context is unchanged |
| `Switching.SuspendedProcessResumes` | kernel/scheduler.c:24-50 | a process suspended by one event and switched to by any later one continues with the ESP, EFLAGS, EBP, EBX, ESI, EDI and return address it had, and its stack above ESP |
| `Switching.PreparedProcessStarts` | kernel/process.c:146-201 | a prepared process first switched to any time later starts at its entry point with interrupts enabled; a user process does so in ring 3, 16384 above the start of its user stack |
| `PageSet.Find` | kernel/memory.c:120-139 | the lowest run of free pages that ends before the last page, and none if and only if there is no such run |
| `PageSet.FindOneIff` | kernel/memory.c:120-139 | a single page is refused if and only if all pages but the last are in use |
| `PageSet.AllocThenFree` | kernel/memory.c:120-148 | an allocation takes exactly `count` pages that were free, and freeing them restores the set |
| `PageSet.AllocKeepsSound` | kernel/memory.c:120-139 | a new run is apart from every live run and from the reserved pages, and the counter stays exact |
| `PageSet.FreeKeepsSound` | kernel/memory.c:141-148 | freeing a live run keeps the rest, and the counter exact |
| `PageSet.EveryRunIsSound` | kernel/memory.c:120-148 | in every sequence of allocations and frees of live runs, from any sound state, live runs never overlap and the counter is the number of pages in use less the reserved ones |
| `PageSet.LastPageStaysFree` | kernel/memory.c:121-121 | no run of allocations and frees ever hands out the last page |
| `Words.BitAfter` | kernel/memory.c:151-161 | setting or clearing one bit of a word changes that bit and no other |
| `Words.OnPage` | kernel/memory.c:76-77 | an address is on a page exactly when its page number is that page's frame |
| `Words.IndicesNamePage` | kernel/memory.c:76-77 | two addresses have the same directory and table index if and only if they are on the same page |
| `Words.DirIndexOfPage` | kernel/memory.c:76-77 | page n falls into directory entry n / 1024 |
| `Words.FrameIsPageNumber` | kernel/memory.c:76-77 | the page that an address or an entry points into is its number divided by 4096 |
| `Words.AboveIff` | kernel/capability.c:79-79 | 32-bit words compare as the numbers they stand for |
| `Words.IncrementMagnitude` | kernel/capability.c:44-44 | adding one to a word adds one to its number, in 32 bits |
| `PageAllocator.SetMarks` | kernel/memory.c:151-153 | setting the bit of a page adds exactly that page to the set |
| `PageAllocator.ClearUnmarks` | kernel/memory.c:155-157 | clearing it takes exactly that page away |
| `PageAllocator.StartIsSound` | kernel/memory.c:25-40 | the state with the first 512 pages reserved, nothing handed out and a counter of 0 is sound |
| `PageAllocator.EveryRunFromStart` | kernel/memory.c:120-148 | hence in every such sequence from the start the pages in use number the counter plus 512, the first 512 pages stay in use and page 4095 stays free |
| `PageAllocator.Allocator.constructor` | kernel/memory.c:25-40 | exactly the first 512 pages are in use, and the counter is 0 |
| `PageAllocator.Allocator.Set` | kernel/memory.c:151-153 | the bitmap denotes the set with the page added |
| `PageAllocator.Allocator.Clear` | kernel/memory.c:155-157 | the bitmap denotes the set without the page |
| `PageAllocator.Allocator.Test` | kernel/memory.c:159-161 | true exactly for pages in the set |
| `PageAllocator.Allocator.TestRun` | kernel/memory.c:122-128 | true exactly if the whole run is free |
| `PageAllocator.Allocator.MarkRun` | kernel/memory.c:131-133 | the set grows by exactly the run |
| `PageAllocator.Allocator.Alloc` | kernel/memory.c:120-139 | returns what `Find` specifies, adds exactly that run, and counts it |
| `PageAllocator.Allocator.Free` | kernel/memory.c:141-148 | takes exactly the run away and uncounts it, in 32 bits |
| `Paging.MapPageMaps` | kernel/memory.c:75-98 | if the table is there, or a page for it and flags with Present and RW: afterwards the page translates to the frame with the rights of the flags, and every other page keeps its translation and its effective user right, even if the directory entry gains the user bit; the tables stay distinct frames in use |
| `Paging.MapPageAlways` | kernel/memory.c:75-98 | in every call, whatever the flags and also when no page is left for a table: the directory entry leads to the table, which is then frame 0, and only directory and table are written |
| `Paging.MapPageTakes` | kernel/memory.c:75-98 | at most one page is taken, the one the allocator finds, and exactly if the table was missing; only directory and table are written |
| `Paging.MapPageFrames` | kernel/memory.c:75-98 | the frames of the address space grow by exactly the pages taken |
| `Paging.EnsureTableKeepsTranslation` | kernel/memory.c:82-94 | making a table, or giving its directory entry the user bit, changes no translation |
| `Paging.SetEntryTranslation` | kernel/memory.c:96-96 | storing an entry changes the translation of its page only |
| `Paging.SpaceReadsOwnFrames` | kernel/memory.c:75-98 | an address space translates alike in all memories that agree on its own frames |
| `AddressSpace.MapNext` | kernel/memory.c:63-71 | one round of the loop extends the identity map by one page |
| `AddressSpace.MapPageUsed` | kernel/memory.c:82-85 | in every call, the pages in use grow by the lowest free page, or not at all if the table is there or no page is free |
| `AddressSpace.NextTableMade` | kernel/memory.c:63-71 | one round of the loop, with or without a page for the table: the next table is the lowest free page, or frame 0 |
| `AddressSpace.TablesAreTaken` | kernel/memory.c:82-87 | the tables made are exactly the pages taken, and frame 0 if and only if those do not suffice |
| `AddressSpace.SinglesTake` | kernel/memory.c:84-85 | as many pages are taken one by one as are asked for and available |
| `AddressSpace.StageWithKernel` | kernel/process.c:64-69 | a new directory with the kernel mapped in takes five pages, maps all 16 MB onto themselves for the supervisor and nothing above, and touches nothing else |
| `AddressSpace.TakeKernelStack` | kernel/process.c:71-75 | the kernel stack is apart from everything taken before |
| `AddressSpace.TakeUserStack` | kernel/process.c:84-88 | the user stack is apart from everything taken before |
| `AddressSpace.MapKernelStackPage` | kernel/process.c:77-81 | mapping a kernel stack page changes no right and takes no page |
| `AddressSpace.MapUserStackPage` | kernel/process.c:89-93 | mapping a user stack page gives the user that page and no other, and takes no page |
| `AddressSpace.StageTakes` | kernel/process.c:64-94 | what construction has taken is five pages, two for a kernel stack and four for a user stack, and giving those back restores the pages in use |
| `MemoryManager.Manager.constructor` | kernel/memory.c:25-40 | physical memory with the first two megabytes reserved |
| `MemoryManager.Manager.GetTable` | kernel/memory.c:82-94 | the table for a directory entry, made if it is missing: the lowest free page, or frame 0 if there is none |
| `MemoryManager.Manager.MapPage` | kernel/memory.c:75-98 | memory and bitmap after the call are those specified, whatever the flags and with or without a page for a table; a page is counted exactly if one was taken |
| `MemoryManager.Manager.CreateDirectory` | kernel/memory.c:101-106 | a zeroed page if one other than page 0 is found; otherwise nothing is changed, except that page 0, which looks like null, is marked and counted if it was found |
| `MemoryManager.Manager.MapKernel` | kernel/memory.c:59-72 | with four pages available, the identity map of all 16 MB for the supervisor and nothing above; in every case four tables, the lowest free pages and frame 0 for those missing, and the pages taken are counted |
| `MemoryManager.Manager.DestroyDirectory` | kernel/memory.c:109-117 | frees the directory and the table of every entry, and nothing else; the counter drops by one for each entry, also if several are the same frame |
| `ProcessSpec.PidChosenIsFree` | kernel/process.c:212-224 | the identifier is below 64 and free, and 0 if and only if all 63 are taken |
| `ProcessSpec.PidComesAgainLast` | kernel/process.c:212-224 | the identifier given last is given again only if all other 62 are taken |
| `ProcessSpec.PidsFit` | kernel/process.c:42-58 | processes with distinct identifiers in 1..63 leave a slot free |
| `ProcessSpec.CreateKeepsCoexistence` | kernel/process.c:42-98 | a new process has an exact address space and shares no page with the others, which are unchanged |
| `ProcessSpec.UserStackIsMapped` | kernel/process.c:83-94 | in an exact address space, every address from the start of the user stack to 16384 above it translates to its own page, for the user to read and write |
| `ProcessSpec.CleanupKeepsCoexistence` | kernel/process.c:203-210 | cleaning up one process leaves the others as they were |
| `ProcessSpec.MapKeepsCoexistenceIff` | kernel/memory.c:75-98 | mapping any page with any flags into a live process keeps all processes apart, each with its address space and stacks, if and only if the table is there, or there is a page for it and flags with Present and RW, or there is no page and no Present flag |
| `ProcessSpec.MapChangesOnePage` | kernel/main.c:180-183 | it changes the translation of that page of that process, to the frame and rights asked for, and of no other page or process |
| `ProcessSpec.MapKeepsOthers` | kernel/memory.c:75-98 | whether or not the mapping takes effect, every other page and every page of every other process translates as before |
| `ProcessSpec.MapWritesNoStack` | kernel/memory.c:75-98 | it writes no page of any process's stacks |
| `ProcessSpec.NothingLeaks` | kernel/process.c:203-210 | with no process left, exactly the pages of the start are in use |
| `ProcessSpec.EveryRunCoexistsIff` | kernel/process.c:42-130 | over every sequence of calls of creation and cleanup: distinct identifiers in 1..63, disjoint pages, and no page in use beyond those, at every point, if and only if no creation is called with an identifier free and one to four pages available; and then every address space is exact at every point |
| `ProcessSpec.ChangeKeepsCoexistenceIff` | kernel/process.c:42-130 | one call keeps coexistence if and only if it is not such a creation |
| `ProcessSpec.StarvingIsRefused` | kernel/process.c:71-75 | with one to four pages available no creation succeeds |
| `ProcessSpec.FrameZeroIsNext` | kernel/memory.c:120-139 | once frame 0 is free, the next single page allocated is page 0, that is, null |
| `ProcessSpec.NextCreationRestores` | kernel/process.c:64-66 | a creation right after the one that freed frame 0 is refused because the directory is at address 0, and pages and coexistence are as before both |
| `ProcessSpec.KernelStacksApart` | kernel/process.c:71-75 | the kernel stacks of coexisting processes are disjoint address ranges, as the context switch assumes |
| `ProcessSpec.CreateTakes` | kernel/process.c:64-94 | a kernel task takes 7 pages and a user process 11 |
| `ProcessSpec.CreateThenCleanup` | kernel/process.c:42-98 | creation followed by cleanup restores the pages in use exactly |
| `Processes.Processes.constructor` | kernel/process.c:33-39 | an empty table over the memory manager |
| `Processes.Processes.PidInUse` | kernel/process.c:217-220 | true exactly for identifiers of used slots |
| `Processes.Processes.AllocatePid` | kernel/process.c:212-224 | the first unused identifier in cyclic order from the last one, or 0 if there is none |
| `Processes.Processes.Find` | kernel/process.c:139-144 | a used slot with the identifier, and none if and only if no used slot has it |
| `Processes.Processes.FreeSlot` | kernel/process.c:43-50 | the lowest unused slot; there always is one |
| `Processes.Processes.TableNeverFull` | kernel/process.c:43-50 | some slot is unused in every reachable state |
| `Processes.Processes.Cleanup` | kernel/process.c:203-210 | frees exactly the tables, the directory and the stacks; a null or kernel directory is skipped |
| `Processes.Processes.MakeDirectory` | kernel/process.c:64-69 | a directory, the lowest free pages for its tables as far as there are any, and the kernel mapped in if there are five; if there is none or it is page 0, nothing is changed but that page 0 is marked |
| `Processes.Processes.AddKernelStack` | kernel/process.c:71-81 | two pages found, taken and mapped for the supervisor, or nothing is changed |
| `Processes.Processes.AddUserStack` | kernel/process.c:83-94 | four pages found, taken and mapped for the user, or nothing is changed |
| `Processes.Processes.Abandon` | kernel/process.c:85-88 | cleanup after the user stack could not be had restores pages, contents and counter |
| `Processes.Processes.AbandonDirectory` | kernel/process.c:72-75 | cleanup after the kernel stack could not be had restores the pages in use, less frame 0 if that stood for a table |
| `Processes.Processes.Build` | kernel/process.c:64-94 | succeeds if and only if directory and stacks can be had and frame 0 is in use, with an exact address space; otherwise pages, contents and counter are as before, or, with one to four pages available, frame 0 is freed and the counter is short by the tables missing, or, if frame 0 was free, it is taken and counted |
| `Processes.Processes.Create` | kernel/process.c:42-98 | succeeds if and only if an identifier is free and there is memory; a success puts a process with the identifier chosen and an exact address space into the lowest slot and counts 7 or 11 pages; otherwise no page is changed, unless an identifier is free and one to four pages are available: then frame 0 is freed, the counter drops by 5 less their number, and the invariant is lost |
| `Processes.Processes.Release` | kernel/process.c:122-128 | frees exactly the pages of the process, counts them off, and frees its slot |
| `Mailbox.FirstMatch` | kernel/ipc.c:280-312 | the position of the first message that the filter accepts, if any |
| `Mailbox.FirstMatchIsOldest` | kernel/ipc.c:289-306 | no message before it is from the same sender |
| `Mailbox.DeliverKeepsAccount` | kernel/ipc.c:239-256 | a new message is queued once and in order, and at most the oldest is dropped for it |
| `Mailbox.LoseKeepsAccount` | kernel/ipc.c:222-226 | a message without a queue is accounted as lost |
| `Mailbox.ReceiveKeepsAccount` | kernel/ipc.c:280-312 | a filtered or unfiltered receive moves one message from queued to received, in each sender's order |
| `Mailbox.ClearKeepsAccount` | kernel/ipc.c:190-214 | clearing moves every queued message to cleared |
| `Mailbox.PerSenderFifo` | kernel/ipc.c:98-137 | what was received from a sender is a subsequence of what that sender sent, whatever filters were used |
| `Mailbox.ExactlyOnce` | kernel/ipc.c:48-137 | each message sent is in exactly one of queued, received, dropped, cleared and lost, once |
| `Mailbox.IdsAscend` | kernel/ipc.c:74-74 | for fewer than 2^32 messages, identifiers strictly increase along the queue |
| `MessageQueue.Queue.RemoveFirst` | kernel/ipc.c:260-277 | unlinks the head; head, tail, count and next again form the rest of the sequence |
| `MessageQueue.Queue.Append` | kernel/ipc.c:244-256 | links a message at the tail; count is the length |
| `MessageQueue.Queue.Add` | kernel/ipc.c:239-256 | the linked queue is the bounded sequence with the message at its end, less its oldest if it was full |
| `MessageQueue.Queue.Take` | kernel/ipc.c:280-312 | unlinks the first message that the filter accepts, wherever it is, and keeps the rest in order; null if there is none |
| `MessageQueue.Queue.Unlink` | kernel/ipc.c:291-304 | unlinking at any position keeps head, tail, count and next consistent |
| `MessageQueue.Queue.Empty` | kernel/ipc.c:208-211 | the queue is empty |
| `QueueTable.QueueTable.Open` | kernel/ipc.c:222-235 | a new empty queue for one receiver, the others unchanged |
| `QueueTable.QueueTable.Add` | kernel/ipc.c:239-256 | the message is delivered to its receiver's queue; no other queue changes |
| `QueueTable.QueueTable.Take` | kernel/ipc.c:280-312 | the first match is taken from the receiver's queue; no other queue changes |
| `QueueTable.QueueTable.Empty` | kernel/ipc.c:208-211 | the receiver's queue is cleared; no other queue changes |
| `IpcSpec.MessageFitsOnePage` | kernel/ipc.c:58-67 | every message that passes the size check fits one page |
| `IpcSpec.SendStatusIff` | kernel/ipc.c:49-71 | each status exactly when: no message or more than 256 bytes to a receiver that is found; nobody found; no page other than page 0; otherwise success |
| `IpcSpec.SendQueues` | kernel/ipc.c:48-95 | a successful send puts at the end of the receiver's queue, less its oldest message if there were 100, a message from the current process with the type, flags and data given, in a page that was free; it is lost if and only if the receiver had no queue and no page is left for one; no other mailbox changes |
| `IpcSpec.LosesIff` | kernel/ipc.c:222-226 | a step loses a message if and only if it is such a send, and a queue once made stays |
| `IpcSpec.NothingLostOnceOpen` | kernel/ipc.c:217-257 | so along every run, a receiver that has a queue loses no message |
| `IpcSpec.ReceiveIff` | kernel/ipc.c:98-137 | in every state with a current process: if a message from the sender asked for (0 for anybody) is queued, the first such is handed over, taken out and its page freed, and the scheduler is not touched; if not, the status is not found and nothing changes, unless the caller is to block: then it is Blocked, the head of the queue gets the processor, nothing else changes, and the status is success |
| `IpcSpec.ReceiveWithoutCaller` | kernel/ipc.c:99-102 | without a current process a receive is refused and changes nothing |
| `IpcSpec.SendThenReceive` | kernel/ipc.c:48-137 | what is sent to an empty queue is what its owner receives, with its sender, whenever it is current next |
| `IpcSpec.ClearEmpties` | kernel/ipc.c:190-214 | a clear empties exactly that queue and frees one page for each of its messages; it is refused if and only if the identifier is 64 or more |
| `IpcSpec.FoundPidInBounds` | kernel/ipc.c:217-223 | a receiver that can be found has an identifier below 64, so the queue index is in bounds |
| `IpcSpec.SendKeepsInv` | kernel/ipc.c:48-95 | a send keeps every mailbox accounted for and the pages held equal to those the mailboxes keep |
| `IpcSpec.ReceiveKeepsInv` | kernel/ipc.c:98-137 | so does a receive, which gives back exactly one page per message |
| `IpcSpec.ClearKeepsInv` | kernel/ipc.c:190-214 | so does a clear, which gives back one page per queued message |
| `IpcSpec.NextKeepsInv` | kernel/ipc.c:48-137 | so does every step, scheduling and other page traffic included, whatever becomes of the ready list |
| `IpcSpec.EveryMessageOnceAndInOrder` | kernel/ipc.c:48-137 | in every run, for every receiver: at most 100 queued, each message sent in exactly one place, and per sender a subsequence received |
| `IpcSpec.PageLedger` | kernel/ipc.c:48-137 | in every run the pages held number headers made, messages queued, messages dropped on overflow and messages lost for want of a header |
| `IpcSpec.SendWakesIffFound` | kernel/ipc.c:315-321 | in every state, a send makes a Blocked process Ready if and only if it succeeds and the process is the one found under the receiver's identifier |
| `IpcSpec.SendWakesOnlyCurrent` | kernel/ipc.c:315-321 | under the scheduler's invariant, that is the receiver and still current |
| `IpcSpec.SafeRunsWakeOnlyCurrent` | kernel/ipc.c:315-321 | after every run in which no process blocks while queued behind another, a send wakes nobody but the current process |
| `IpcSpec.SendWakesAnother` | kernel/ipc.c:315-321 | after p blocked behind q, a send by q to p makes p Ready although q is current, and unblocks a process that is in the ready list |
| `IpcSpec.OwnPagesOnly` | kernel/ipc.c:65-67 | a send takes only free pages, and a receive or clear gives back only pages held for messages; other pages in use stay, and only page 0, if it was free, can be marked without being held |
| `IpcSpec.StrandedIsNotFound` | kernel/scheduler.c:131-139 | a Blocked process that is neither current nor queued, with nobody current or queued under its identifier, is found under no identifier |
| `IpcSpec.StrandedStaysStranded` | kernel/ipc.c:53-56 | it stays Blocked with its mailbox unchanged along every run of sends, receives, ticks and yields, and of other steps that name neither it nor its identifier and link no process twice |
| `Ipc.Ipc.constructor` | kernel/ipc.c:31-45 | the initial state: no queue, no page held |
| `Ipc.Ipc.OpenQueue` | kernel/ipc.c:222-235 | a header page and an empty queue if a page other than page 0 is found, and no queue otherwise, page 0 being marked if it was found |
| `Ipc.Ipc.AddToQueue` | kernel/ipc.c:217-257 | as specified, the message being lost if no header can be had |
| `Ipc.Ipc.WakeUpReceiver` | kernel/ipc.c:315-321 | as specified, unless the receiver is Blocked in the ready list, which is then no sequence any more |
| `Ipc.Ipc.Post` | kernel/ipc.c:73-89 | the message is numbered, stamped with its sender and queued |
| `Ipc.Ipc.Store` | kernel/ipc.c:63-89 | the message is allocated and queued; or, if no page or page 0 is found, nothing is changed but that page 0 is marked |
| `Ipc.Ipc.Send` | kernel/ipc.c:48-95 | status, messages and pages, in every case, are those of the state machine, and so is the scheduler if and only if the receiver is not Blocked in the ready list |
| `Ipc.Ipc.TakeMessage` | kernel/ipc.c:104-134 | the first match is taken and its page freed, or nothing is changed |
| `Ipc.Ipc.Receive` | kernel/ipc.c:98-137 | state, status and message are those of the state machine; the scheduler's invariant is kept if and only if the call does not block a process queued behind another |
| `Ipc.Ipc.ClearQueue` | kernel/ipc.c:190-214 | state and status are those of the state machine; all invariants are kept |
| `Ipc.Ipc.FreeQueue` | kernel/ipc.c:200-206 | the walk along the links frees exactly the queued messages' pages |
| `KernelSpec.StepKeepsInvIff` | kernel/process.c:42-130 | each event of the whole kernel (creation, exit of any process, mapping of a page, scheduling with its switch, computation, set-up, send, receive, clear) keeps coexistence, resumability and the accounts of messages and pages together, with identifiers and stacks from the process table, if and only if it is none of these: a creation with an identifier free and one to four pages available; an exit of a process in the ready list that is not current and its head; a mapping without the page table it needs; a step or a send that links a process twice |
| `KernelSpec.EveryRunKeepsInvIff` | kernel/process.c:42-130 | over every run of such events, all of them hold at every point if and only if no event of the run is one of those |
| `KernelSpec.MapKeepsInvIff` | kernel/memory.c:75-98 | a mapping keeps all of them if and only if the table is there, or there is a page for it and flags with Present and RW, or there is no page and no Present flag |
| `KernelSpec.MapChangesOnePage` | kernel/main.c:180-183 | a mapping into a process changes the translation of that page of that process and of no other page or process, beside everything else the kernel holds |
| `KernelSpec.InitialKeepsInv` | kernel/process.c:33-39 | and start-up begins that way |
| `KernelSpec.PagesHaveAUse` | kernel/memory.c:120-148 | each page in use is of the start, held for messages, or owned by a process |
| `KernelSpec.PagesHaveOneUse` | kernel/memory.c:120-148 | these are disjoint, for every process and every pair of processes |
| `KernelSpec.QueuesAreInBounds` | kernel/ipc.c:217-223 | the identifier of every process that can be found indexes the message queues, because it comes from the process table |
| `KernelSpec.MessagesOnceAndInOrder` | kernel/ipc.c:48-137 | at every point of every run without those events, each message is in exactly one place, and each receiver has a subsequence of what each sender sent, although identifiers are used again after exits |
| `KernelRuns.ResumesAfterEverything` | kernel/scheduler.c:24-50 | a process that was suspended or set up, and becomes current any time later, by a scheduler step, a blocking receive or somebody's exit, has the context and stack it had, whoever was created, exited, mapped pages, ran or sent messages in between |
| `KernelRuns.SwitchGivesImage` | kernel/scheduler.c:78-125 | whichever event makes a process current, also the switch without a save of an exit, that process had been suspended or set up, and gets that context and stack |
| `KernelRuns.SuspendFreezes` | kernel/scheduler.c:33-39 | whichever event takes the processor from a process, unless it exits or removes it, saves the context with which the process returns |
| `KernelRuns.ImageKeptThroughout` | kernel/scheduler.c:116-125 | that saved context is the same along every run in which the process is not made current, set up or ended |
| `KernelStart.ProcessStarts` | kernel/process.c:146-201 | a process of the table that is set up, and becomes current any time later by whatever event, starts so: a kernel task at its entry point with ESP at the end of its two pages of kernel stack; a user process, through the handler, in ring 3 at its entry point with ESP at the end of its four pages of user stack |
| `KernelStart.CreatedIsExact` | kernel/process.c:64-94 | a process just created has an exact address space, and a user stack if and only if it is a user process |
| `KernelStart.UserStackStaysMapped` | kernel/process.c:89-93 | along every run up to its exit, each address of those four pages stays the user's to read and write, unless it is mapped otherwise |
| `KernelStart.TranslationKept` | kernel/memory.c:75-98 | no event that keeps the invariants changes how an address of a process translates, but a mapping of that page into that process, until it exits |
| `KernelStart.TranslationKeptThroughout` | kernel/memory.c:75-98 | so address spaces are private along every run |
| `KernelRuns.KilledHeadRuns` | kernel/process.c:109-130 | killing the head of the queue frees its pages and loses the invariant, and the next yield makes it current and Running while its kernel stack is free |
| `KernelRuns.ExitedHeadRunsAgain` | kernel/process.c:117-120 | a process that exits while current and head of the queue is current and Running afterwards, from the frame at the stack pointer saved by an earlier switch or set-up |
| `KernelRuns.CurrentIsNotCleanedUp` | kernel/scheduler.c:78-82 | a current process that exits while others are ready keeps its slot and its pages, and if it was not queued is Terminated, neither current, queued nor suspended |
| `KernelRuns.ZombieStaysThroughout` | kernel/process.c:109-137 | along every run without another exit or set-up of it, such a process stays so, its pages stay in use, and nobody else gets its identifier |
| `KernelRuns.MailboxStaysThroughout` | kernel/process.c:122-130 | no creation, exit or other event that is not a send, receive or clear for the identifier changes its mailbox |
| `KernelRuns.SuccessorGetsMessages` | kernel/ipc.c:98-137 | a process created later under the identifier gets, by its first receive from anybody, the oldest message sent to the one before |
| `KernelRuns.SendToQueuedReceiver` | kernel/scheduler.c:141-168 | with p current and the queue [q, p], a blocking receive by p keeps all invariants; then a send by q to p succeeds, links p twice and loses them |
| `KernelRuns.StackPagesKept` | kernel/memory.c:82-98 | no event that keeps the invariants writes a page of the kernel or user stack of a process through its page tables, unless that process exits |
| `KernelRuns.StackPagesKeptThroughout` | kernel/memory.c:82-98 | so those pages hold the same along every run up to its exit |
| `KernelRuns.StackWritesStayOnStacks` | kernel/scheduler.c:33-39 | an event other than computation that changes a word of memory through a stack pointer does so on the kernel stack of a process, hence in no page table, message page or page of the start |
| `CapabilitySpec.AcceptedIsStored` | kernel/capability.c:32-64 | the count never exceeds the table, and a create is accepted if and only if there is memory and an empty slot to store it in |
| `CapabilitySpec.NextKeepsInv` | kernel/capability.c:32-251 | every operation keeps the count equal to the occupied slots and every signature that of the history |
| `CapabilitySpec.RunKeepsInv` | kernel/capability.c:32-251 | so does every run |
| `CapabilitySpec.SweepRemovesSelected` | kernel/capability.c:175-185 | a sweep destroys exactly the capabilities it selects, and keeps the others in place |
| `CapabilitySpec.StepConfines` | kernel/capability.c:112-135 | a step of a process other than the kernel changes the owner of a capability only if it is the owner's own transfer and the capability permits it, and no other right |
| `CapabilitySpec.Confinement` | kernel/capability.c:93-251 | along every run without the kernel, each older capability that remains keeps id, type, permissions and resource, and its owner is the old one or was handed it by the owner of that time, with permission to transfer |
| `CapabilitySpec.VerifiesIff` | kernel/capability.c:271-296 | a signature verifies if and only if resource XOR expiration is what it was when last signed, that is, if the expiration is that of the last transfer, or equals the resource if there was none |
| `CapabilitySpec.CheckIff` | kernel/capability.c:67-90 | after every run, a check succeeds if and only if the process owns a capability of the type in which each permission bit asked for is set, whose expiration is 0 or a greater number than the time, and is that of the last transfer, or equals the resource if there was none |
| `CapabilitySpec.AllowsIff` | kernel/capability.c:77-77 | permissions are allowed if and only if every bit asked for is held |
| `CapabilitySpec.UnexpiredIff` | kernel/capability.c:79-79 | a capability is unexpired, and for the cleanup expired, by comparison of expiration and time as numbers |
| `CapabilitySpec.CheckIsMonotone` | kernel/capability.c:67-90 | asking for fewer permissions, or earlier, never fails where more succeeded |
| `CapabilitySpec.MissingBitDenies` | kernel/capability.c:74-77 | a bit that none of the process's capabilities of the type holds makes the check fail, whatever they hold together |
| `CapabilitySpec.CreateUsable` | kernel/capability.c:32-64 | a check by the owner for what was created succeeds at once |
| `CapabilitySpec.OnlyKernelGrants` | kernel/capability.c:138-170 | a grant or a revocation is denied, and changes nothing, if and only if it is not the kernel's |
| `CapabilitySpec.TransferIff` | kernel/capability.c:112-135 | a transfer succeeds if and only if it is the owner's and bit 5 is set; then only the owner of that capability is another |
| `CapabilitySpec.ExpirationIff` | kernel/capability.c:221-235 | the expiration is set if and only if it is the owner who asks, and nothing else changes |
| `CapabilitySpec.RevokedIsDenied` | kernel/capability.c:162-188 | a revocation takes exactly the capabilities of that process and type, and resource if one is named; without one, every check for the type then fails |
| `CapabilitySpec.CleanupRemovesLapsed` | kernel/capability.c:238-251 | the cleanup takes exactly the capabilities that have expired |
| `CapabilitySpec.CleanupKeepsChecks` | kernel/capability.c:238-251 | which changes the result of no check, then or later |
| `CapabilitySpec.SignatureCovers` | kernel/capability.c:271-296 | a signature that verifies does not if any one of the six fields is changed without signing |
| `CapabilitySpec.IdsDistinctIff` | kernel/capability.c:44-44 | over every run, two capabilities have the same identifier if and only if a multiple of 2^32 were made from the one to the other |
| `CapabilitySpec.GrantUsableIff` | kernel/capability.c:138-159 | after a grant a check for it succeeds if and only if it did before or the grant names no resource |
| `CapabilitySpec.TransferRenews` | kernel/capability.c:125-132 | after a transfer the signature verifies, and after a change of expiration it does if and only if the expiration is the same |
| `Capabilities.Capability.Sign` | kernel/capability.c:285-296 | the signature is the checksum of the fields |
| `Capabilities.Capability.Verify` | kernel/capability.c:271-282 | true exactly if the signature is the checksum of the fields |
| `Capabilities.CapabilityTable.constructor` | kernel/capability.c:19-29 | an empty table |
| `Capabilities.CapabilityTable.Insert` | kernel/capability.c:54-61 | the capability is in the first empty slot and counted |
| `Capabilities.CapabilityTable.Create` | kernel/capability.c:32-64 | state as specified; null if and only if not accepted, and otherwise a new object stored in the first empty slot |
| `Capabilities.CapabilityTable.Grant` | kernel/capability.c:138-159 | state and status as specified |
| `Capabilities.CapabilityTable.Transfer` | kernel/capability.c:112-135 | state and status as specified, for null too |
| `Capabilities.CapabilityTable.SetExpiration` | kernel/capability.c:221-235 | state and status as specified, for null too |
| `Capabilities.CapabilityTable.Destroy` | kernel/capability.c:93-105 | exactly the slot of the capability is emptied and uncounted |
| `Capabilities.CapabilityTable.Revoke` | kernel/capability.c:162-188 | state and status as specified |
| `Capabilities.CapabilityTable.CleanupExpired` | kernel/capability.c:238-251 | the expired capabilities are destroyed |
| `Capabilities.CapabilityTable.Check` | kernel/capability.c:67-90 | succeeds exactly if some capability in the table is usable |
| `TimerSpec.DelayTicksExact` | drivers/timer.c:68-69 | the delay in ticks is a tenth of the milliseconds if and only if those are at most 42949672 |
| `TimerSpec.FiresExactlyWhenDue` | drivers/timer.c:108-110 | from the request on, the comparison with the wrapping counter fails at each tick before the delay is due and holds then |
| `TimerSpec.OnTimeIff` | drivers/timer.c:69-77 | due is start plus the delay, at least one tick, if and only if the target does not pass the end of the counter or the counter is about to start anew |
| `TimerSpec.LateAtTheEnd` | drivers/timer.c:77-77 | a request for no delay in the last tick of the counter waits for a whole turn |
| `TimerSpec.RefusedIff` | drivers/timer.c:71-89 | a request is refused if and only if all entries are active, and answered 0 only then or when the identifier has wrapped to 0 |
| `TimerSpec.CheckKeepsSound` | drivers/timer.c:109-118 | looking at one entry notifies it if and only if it is due, and keeps every delay in exactly one entry or notice |
| `TimerSpec.TickKeepsInv` | drivers/timer.c:59-62 | a tick keeps every accepted delay in exactly one entry or one notice |
| `TimerSpec.AskKeepsInv` | drivers/timer.c:64-90 | so does a request |
| `TimerSpec.NotifiedExactlyOnceWhenDue` | drivers/timer.c:55-119 | in every run each accepted delay has exactly one notice once it is due and none before, to the process that asked, under its identifier, sent at the tick it was due |
| `TimerSpec.AskedIsNotified` | drivers/timer.c:64-119 | a process that asks for ms milliseconds while an entry is free is answered an identifier other than 0; in every run that follows, exactly one notice goes out under it, to that process, at the tick number ms / 10 from the request, or the first if that is 0, and none before; for ms up to 42949672, fewer than 2^32 requests, and a counter that does not pass its end meanwhile |
| `TimerSpec.TargetsAhead` | drivers/timer.c:108-119 | after the check every active target exceeds the counter |
| `TimerDriver.TimerDriver.Delay` | drivers/timer.c:64-90 | table, counters and answer as specified |
| `TimerDriver.TimerDriver.Tick` | drivers/timer.c:59-62 | table, counters and messages sent as specified; every active target exceeds the counter |
| `TimerDriver.TimerDriver.CheckRequest` | drivers/timer.c:110-117 | one entry notified and made inactive exactly if its target is reached |
| `ConsoleSpec.CutShowsIff` | drivers/console.c:94-101 | two messages show the same as one with both texts, whatever the second is, if and only if the last byte of the first, which is dropped, would do nothing where it falls |
| `ConsoleSpec.IgnoredIff` | drivers/console.c:175-202 | a byte changes nothing if and only if it is neither printable, line feed nor tab, and for a carriage return or backspace the cursor is in the first column |
| `ConsoleSpec.TextFillsRows` | drivers/console.c:190-199 | the i-th byte of a printable text is in row i / 80 and column i % 80 of the document, and the cursor follows it |
| `ConsoleSpec.LinesFillRows` | drivers/console.c:175-202 | lines of text of less than 80 characters with line feeds between them are each in a row of their own, from the first column on, and blank behind |
| `ConsoleSpec.TextStaysInRow` | drivers/console.c:190-199 | text that fits the rest of the row goes there, over what was there, and changes nothing else |
| `ConsoleSpec.ReturnOverwrites` | drivers/console.c:176-176 | after a carriage return, text goes over the same row from its first column on |
| `ConsoleSpec.TabIsFourSpaces` | drivers/console.c:182-184 | a tab shows as four spaces do |
| `ConsoleSpec.BackspaceUndoesIff` | drivers/console.c:185-190 | a backspace takes back a character if and only if it did not fill the row |
| `ConsoleSpec.SetShows` | drivers/console.c:192-192 | a cell written at the cursor changes exactly that cell of the window |
| `ConsoleSpec.NewLineShows` | drivers/console.c:177-181 | a new line moves the window by one row exactly if the cursor is in the last one, and changes nothing otherwise |
| `ConsoleDriver.ConsoleDriver.constructor` | drivers/console.c:41-53 | a blank screen and an empty document |
| `ConsoleDriver.ConsoleDriver.ClearScreen` | drivers/console.c:107-113 | the screen shows an empty document |
| `ConsoleDriver.ConsoleDriver.ClearLine` | drivers/console.c:154-159 | exactly that row is blank, the rest unchanged |
| `ConsoleDriver.ConsoleDriver.ScrollUp` | drivers/console.c:144-151 | the screen moved up by one row, the last one blank, the cursor at its start |
| `ConsoleDriver.ConsoleDriver.PutChar` | drivers/console.c:171-204 | the screen is the window of the document with the byte put, the cursor on it, for every byte |
| `ConsoleDriver.ConsoleDriver.WriteMessage` | drivers/console.c:94-101 | the screen is the window of the document with all but the last byte of the message put |
| `KeyboardSpec.RunKeepsInv` | drivers/keyboard.c:66-110 | after every mix of events the queue holds the newest bytes, at most 255, and what was read is older and was read in order |
| `KeyboardSpec.InputIsDecoded` | drivers/keyboard.c:88-110 | the bytes that came in are those the events stand for, shift being held if and only if the last shift event was a press |
| `KeyboardSpec.KeyGivesCharacter` | drivers/keyboard.c:18-31 | each of the 95 printable characters has a key that gives it, with or without shift |
| `KeyboardSpec.TypedTextComesIn` | drivers/keyboard.c:88-110 | so any printable text that is typed comes in as it is |
| `KeyboardSpec.SerialComesIn` | drivers/keyboard.c:126-133 | bytes from the serial port come in as they are, carriage returns as line feeds, whatever happened before |
| `KeyboardSpec.ModifiersHeld` | drivers/keyboard.c:93-103 | shift, ctrl and alt each count as held if and only if one of its keys was pressed and none released since |
| `KeyboardSpec.LostIffOverflowed` | drivers/keyboard.c:104-109 | the bytes lost are as many as came into a full queue, so none is lost if and only if that never happened |
| `KeyboardSpec.AllReadInOrder` | drivers/keyboard.c:72-82 | without overflow, what was read followed by the queue is all that came in |
| `KeyboardDriver.PushContents` | drivers/keyboard.c:106-108 | the index arithmetic of a push appends to the ring's contents, dropping the oldest byte at 255 |
| `KeyboardDriver.TakeContents` | drivers/keyboard.c:73-75 | that of a read takes the oldest byte |
| `KeyboardDriver.KeyboardDriver.Push` | drivers/keyboard.c:106-108 | the ring holds the queue with the byte pushed |
| `KeyboardDriver.KeyboardDriver.Read` | drivers/keyboard.c:72-82 | returns and removes the oldest byte, if there is one |
| `KeyboardDriver.KeyboardDriver.HandleScancode` | drivers/keyboard.c:93-110 | modifiers and ring as specified, for every code |
| `KeyboardDriver.KeyboardDriver.HandleSerial` | drivers/keyboard.c:126-133 | the byte is pushed, a carriage return as a line feed |
| `KeyboardDriver.KeyboardDriver.HandleAll` | drivers/keyboard.c:121-140 | over every mix of events the ring holds the specified queue, and the bytes returned are those at the positions read |

## Left out

- Boot code, hal/*, drivers/driver_manager.c, kernel/interrupt.c, kernel/syscall.c, kernel/main.c and userspace/*: device registers, dispatch and start-up order, which would add only easy members.
- CR3, TSS and TLB effects: the switch does none of them, and translation is taken from the tables in memory.
- Interrupts in the middle of a kernel operation: every operation is one step.
- Addresses in the memory manager: pages are named by their frame numbers, and null by 0 or by `None`.
- `ipc_broadcast`, `ipc_register_handler`, `ipc_get_queue_stats`, `capability_list_process`, `capability_get_by_id`: a loop over sends, and reads of single fields.
- The timestamp of a message (always 0) and the field `waiting_for`, which no operation modelled here reads.
- PageAllocator.Allocator.Alloc: for counts up to 4096, because a larger one underflows the loop bound.
- PageAllocator.Allocator.Free: for runs within physical memory, because others write outside the bitmap.
- Paging.MapPageMaps: for a table that is there, or a page for it and flags with Present and RW; `Paging.MapPageAlways` says what happens otherwise.
- Paging.MapPageTakes: the same.
- Paging.MapPageFrames: the same.
- Paging.EnsureTableKeepsTranslation: the same.
- AddressSpace.MapNext: for a round in which the table is there or a page for it; `AddressSpace.NextTableMade` says what happens otherwise.
- Processes.Processes.Create: the parent is stored and means nothing here, and priority is left out; it starts from the invariant, in which frame 0 is in use, and `ProcessSpec.NextCreationRestores` says what happens after that was freed.
- Processes.Processes.Release: is the part of `process_exit` after the scheduler's; the whole of it is the exit event of `KernelSpec`.
- Scheduler.Scheduler.SwitchTo: the context switch that it calls is in `Switching`, on values.
- Scheduler.Scheduler.Find: for a list that is a sequence; in others the walk need not end.
- TimerSpec.AskedIsNotified: for the delays that come on time; `TimerSpec.NotifiedExactlyOnceWhenDue` with `TimerSpec.OnTimeIff` and `TimerSpec.DelayTicksExact` covers the others.
- StackMachine.SetupStack: works on a memory value, with word-aligned addresses, rather than in place on an array.
- Switching.AfterKeepsInv: events link no process twice, which `KernelSpec.StepKeepsInvIff` covers; only prepared processes are added, and a caller of the switch has room for five words on its own stack.
- Switching.KernelKeepsInv: the same.
- Switching.DeathKeepsInv: for a process that is neither current nor queued; `KernelSpec.StepKeepsInvIff` says what happens otherwise.
- KernelSpec.StepKeepsInvIff: computation writes no other process's kernel stack, also after a process has exited with nothing ready and the processor still stands on its freed stack; the words of stacks and the frames of page tables are two maps, about which `KernelRuns.StackPagesKept` and `KernelRuns.StackWritesStayOnStacks` show that neither writes where the other reads; the contents of message pages are in the mailboxes only.
- KernelSpec.EveryRunKeepsInvIff: the pages that `sys_memory_alloc` hands out and `sys_memory_free` takes back, without keeping track of who has them, are no events, and neither is the physical memory that binaries are loaded into; a run is followed up to its first event that loses the invariants.
- KernelRuns.SuspendFreezes: for a process that is not removed from the scheduler by somebody else's call, which ends it.
- IpcSpec.SendKeepsInv: requires a current process, which the code dereferences.
- IpcSpec.NextKeepsInv: scheduler steps that assign an identifier to a process with identifier 0 are left out, as processes come from the table with theirs; other parts of the kernel do not free pages held for messages.
- IpcSpec.StrandedIsNotFound: for a process whose identifier nobody current or queued has, as it is in the table.
- IpcSpec.StrandedStaysStranded: the same, along runs that link no process twice.
- IpcSpec.FoundPidInBounds: assumes the bound on identifiers, which `KernelSpec.QueuesAreInBounds` takes from the process table.
- Ipc.Ipc.Send: requires a current process, which the code dereferences, and a ready list that is a sequence; the caller's buffers are values.
- Ipc.Ipc.Receive: requires a ready list that is a sequence.
- Ipc.Ipc.ClearQueue: the same.
- Ipc.Ipc.WakeUpReceiver: the same.
- Capabilities.CapabilityTable.Create: whether a page can be had is a parameter, and the pages of capabilities are not modelled.
- Capabilities.CapabilityTable.Grant: the same.
- Capabilities.CapabilityTable.Transfer: for a capability that is in the table, or null.
- Capabilities.CapabilityTable.SetExpiration: the same.
- Capabilities.CapabilityTable.Destroy: for such a capability; the page is not freed, as it is not modelled.
- Capabilities.CapabilityTable.Revoke: the pages are not freed either.
- Capabilities.CapabilityTable.CleanupExpired: nor here.
- Capabilities.CapabilityTable.Check: the current time and, elsewhere, the current process are parameters.
- TimerDriver.TimerDriver.Delay: the answer is returned rather than sent; the driver is initialised, and the branch that only reports the counter is left out.
- TimerDriver.TimerDriver.Tick: the messages handed to `ipc_send` are recorded, not delivered.
- ConsoleDriver.ConsoleDriver.PutChar: the colour is fixed, and hardware cursor, serial mirroring and the commands that set colour and cursor are left out.
- KeyboardDriver.KeyboardDriver.Read: the byte is returned rather than sent.
- KeyboardDriver.KeyboardDriver.HandleScancode: the driver is initialised.
