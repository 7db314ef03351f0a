/** The kernel as one machine: processes are created and exit, have pages mapped, are scheduled and switched,
    and send each other messages, over one pool of pages. Identifiers, kernel stacks and pages come from the process
    table and the allocator, and are used again after an exit. */
module KernelSpec {
  import opened Common
  import opened SchedulerSpec
  import opened StackMachine
  import opened Words
  import opened PageSet
  import opened PageAllocator
  import opened Paging
  import opened Mailbox
  import opened AddressSpace
  import W = Switching
  import IS = IpcSpec
  import PS = ProcessSpec

  /** A process is named by its slot in the process table. The scheduler is that of `ipc`. */
  datatype Kernel = Kernel(
    phys: Phys,
    procs: map<nat, PS.Process>,
    ipc: IS.Ipc<nat>,
    cpu: Machine,
    saved: map<nat, int>,
    frozen: map<nat, W.Image>)

  function World(k: Kernel): W.World<nat> {
    W.World(k.ipc.sched, k.cpu, k.saved, PS.Stacks(k.procs), k.frozen)
  }

  function Table(k: Kernel): PS.Kernel {
    PS.Kernel(k.phys, k.procs)
  }

  /** Every page in use is of the start, held for messages, or owned by one process; every process has its
      identifier, its address space and its stack; everyone off the processor can be resumed; and every
      message is accounted for. */
  ghost predicate Inv(k: Kernel, base: set<nat>) {
    && 0 in base && k.ipc.held !! base
    && PS.Coexist(k.phys, base + k.ipc.held, k.procs)
    && k.ipc.used == k.phys.used
    && IS.Inv(k.ipc)
    && W.Inv(World(k))
    && (forall i :: i in k.procs ==> i in k.ipc.sched.pid && k.ipc.sched.pid[i] == k.procs[i].pid)
  }

  // ----- the events

  datatype Event =
    | Create(isUser: bool)
    | Exit(slot: nat)
    | Map(slot: nat, v: bv32, frame: bv32, flags: bv32)  // memory_map_page on the directory of the process
    | Process(event: W.Event<nat>)
    | Message(step: IS.IpcStep<nat>)

  /** A blocking receive that finds no message. */
  predicate Blocks(w: IS.Ipc<nat>, step: IS.IpcStep<nat>)
    requires IS.Shape(w)
  {
    step.ReceiveStep? &&
    var (_, status, msg) := IS.ReceiveMsg(w, step.filter, step.block);
    status == IS.Success && msg == None
  }

  /** The new process in its slot, which the scheduler has not seen yet. */
  function WithProcess(k: Kernel, table: PS.Kernel, slot: nat, pid: nat): Kernel {
    k.(phys := table.phys, procs := table.procs,
       ipc := k.ipc.(sched := W.Born(k.ipc.sched, slot, pid), used := table.phys.used))
  }

  /** The current process exits while others are ready: `scheduler_remove_process` switches to the head of
      the queue without a save, and never returns to the cleanup. */
  function ExitBySwitch(k: Kernel, slot: nat): Kernel
    requires WellFormed(k.ipc.sched) && slot in k.ipc.sched.state && k.ipc.sched.queue != []
  {
    var to := k.ipc.sched.queue[0];
    k.(ipc := k.ipc.(sched := SchedulerSpec.Exit(k.ipc.sched, slot)),
       cpu := if to in k.saved then ContextSwitch(k.cpu, false, k.saved[to]) else k.cpu,
       frozen := k.frozen - {to})
  }

  /** Any other process is cleaned up. If it is queued, its control block stays in the ready list. */
  function ExitByCleanup(k: Kernel, table: PS.Kernel, slot: nat): Kernel
    requires WellFormed(k.ipc.sched) && slot in k.ipc.sched.state
  {
    var s := SchedulerSpec.Exit(k.ipc.sched, slot);
    k.(phys := table.phys, procs := table.procs, saved := k.saved - {slot}, frozen := k.frozen - {slot},
       ipc := k.ipc.(sched := if slot in s.queue then s else W.Gone(s, slot), used := table.phys.used))
  }

  /** What each event does. A step or a send that links a process twice leaves it twice in the queue: on
      the pointers it leaves no sequence at all (`LinkedScheduler.RelinkBreaks`). */
  ghost predicate Step(k: Kernel, e: Event, k': Kernel)
    requires IS.Inv(k.ipc) && W.Inv(World(k))
  {
    match e
    case Create(isUser) =>
      if PS.Succeeds(Table(k), isUser)
      then exists slot, p :: PS.Made(Table(k), slot, p, Table(k')) && p.userStack.Some? == isUser
                             && k' == WithProcess(k, Table(k'), slot, p.pid)
      else PS.Refused(Table(k), Table(k')) && k' == k.(phys := k'.phys, ipc := k.ipc.(used := k'.phys.used))
    case Exit(slot) =>
      && slot in k.procs && slot in k.ipc.sched.state
      && (if k.ipc.sched.current == Some(slot) && k.ipc.sched.queue != []
          then k' == ExitBySwitch(k, slot)
          else PS.Cleaned(Table(k), slot, Table(k')) && k' == ExitByCleanup(k, Table(k'), slot))
    case Map(slot, v, frame, flags) =>
      && slot in k.procs && Tame(k.phys.mem, k.phys.used, k.procs[slot].pd) && k.procs[slot].pd != 0
      && k' == Mapped(k, slot, v, frame, flags)
    case Process(event) =>
      if event.Kernel? && Relinks(k.ipc.sched, event.step)
      then k' == k.(ipc := k.ipc.(sched := Next(k.ipc.sched, event.step)))
      else
        && W.Possible(World(k), event) && SetUpFromTable(k, event)
        && k' == WithWorld(k, W.After(World(k), event))
    case Message(step) =>
      && (step.SendStep? || step.ReceiveStep? || step.ClearStep?) && IS.Legal(k.ipc, step)
      && (Blocks(k.ipc, step) ==> W.Possible(World(k), W.Kernel(BlockStep)))
      && var w := IS.Next(k.ipc, step);
         k' == (if Blocks(k.ipc, step) then WithWorld(k, W.After(World(k), W.Kernel(BlockStep)))
                else k.(ipc := w, phys := k.phys.(used := w.used)))
  }

  /** `process_setup_stack` takes from the table whether it is a user process, and its user stack. */
  predicate SetUpFromTable(k: Kernel, event: W.Event<nat>) {
    event.Prepare? ==>
      && event.p in k.procs && event.user == k.procs[event.p].userStack.Some?
      && (event.user ==> event.userStack == k.procs[event.p].userStack.value * PAGE_SIZE)
  }

  ghost function Mapped(k: Kernel, slot: nat, v: bv32, frame: bv32, flags: bv32): Kernel
    requires slot in k.procs && Tame(k.phys.mem, k.phys.used, k.procs[slot].pd) && k.procs[slot].pd != 0
  {
    var phys := MapPage(k.phys, k.procs[slot].pd, v, frame, flags);
    k.(phys := phys, ipc := k.ipc.(used := phys.used))
  }

  function WithWorld(k: Kernel, w: W.World<nat>): Kernel {
    k.(ipc := k.ipc.(sched := w.sched), cpu := w.cpu, saved := w.saved, frozen := w.frozen)
  }

  // ----- each event keeps the invariant

  lemma Facts(k: Kernel, base: set<nat>)
    requires Inv(k, base)
    ensures WellFormed(k.ipc.sched) && IS.Shape(k.ipc) && k.ipc.held <= k.ipc.used
    ensures k.ipc.sched.state.Keys == k.procs.Keys == PS.Stacks(k.procs).Keys && 0 in base + k.ipc.held
  {
    hide PS.Coexist;
    IS.InvHasShape(k.ipc);
    IS.HeldIsUsed(k.ipc);
  }

  lemma MadeKeepsInv(k: Kernel, base: set<nat>, slot: nat, p: PS.Process, k': Kernel)
    requires Inv(k, base) && PS.Made(Table(k), slot, p, Table(k')) && k' == WithProcess(k, Table(k'), slot, p.pid)
    ensures Inv(k', base)
  {
    hide PS.Coexist, IS.Inv, Stage, W.Inv, W.DisjointStacks;
    Facts(k, base);
    PS.MadeKeepsCoexistence(Table(k), slot, p, Table(k'), base + k.ipc.held);
    BaseIsUsed(k'.phys, base + k.ipc.held, k'.procs);
    BornIsWellFormed(k.ipc.sched, slot, p.pid);
    IS.InvIgnoresOthers(k.ipc, W.Born(k.ipc.sched, slot, p.pid), k'.phys.used);
    PS.KernelStacksApart(k'.phys, base + k.ipc.held, k'.procs);
    BirthKeepsWorld(k, slot, p, k'.procs);
  }

  lemma BirthKeepsWorld(k: Kernel, slot: nat, p: PS.Process, procs: map<nat, PS.Process>)
    requires W.Inv(World(k)) && slot !in k.procs && procs == k.procs[slot := p]
    requires W.DisjointStacks(PS.Stacks(procs))
    ensures W.Inv(World(k).(sched := W.Born(k.ipc.sched, slot, p.pid), stack := PS.Stacks(procs)))
  {
    hide W.Inv, W.DisjointStacks;
    assert PS.Stacks(procs) == PS.Stacks(k.procs)[slot := PS.Stacks(procs)[slot]];
    W.BirthKeepsInv(World(k), slot, p.pid, PS.Stacks(procs));
  }

  lemma CreateKeepsInvIff(k: Kernel, base: set<nat>, isUser: bool, k': Kernel)
    requires Inv(k, base) && Step(k, Create(isUser), k')
    ensures Inv(k', base) <==> !PS.Doomed(Table(k))
  {
    hide PS.Coexist, PS.Made, PS.Succeeds, PS.Doomed, PS.Untouched, PS.FreesFrameZero, IS.Inv, W.Inv;
    PS.DoomedIsRefused(Table(k), isUser);
    BaseIsUsed(k.phys, base + k.ipc.held, k.procs);
    assert !PS.FindsNull(Table(k));
    if PS.Succeeds(Table(k), isUser) {
      var slot, p :| PS.Made(Table(k), slot, p, Table(k')) && p.userStack.Some? == isUser
                     && k' == WithProcess(k, Table(k'), slot, p.pid);
      MadeKeepsInv(k, base, slot, p, k');
    } else if PS.Doomed(Table(k)) {
      FrameZeroIsFree(k.phys, k'.phys);
      if PS.Coexist(k'.phys, base + k'.ipc.held, k'.procs) {
        BaseIsUsed(k'.phys, base + k'.ipc.held, k'.procs);
      }
    } else {
      Facts(k, base);
      SamePages(k.phys, k'.phys);
      PS.UntouchedKeepsCoexistence(k.phys, k'.phys, base + k.ipc.held, k.procs);
    }
  }

  lemma FrameZeroIsFree(s: Phys, s': Phys)
    requires PS.FreesFrameZero(s, s')
    ensures 0 !in s'.used
  {
  }

  lemma SamePages(s: Phys, s': Phys)
    requires PS.Untouched(s, s')
    ensures s'.used == s.used
  {
  }

  lemma BornIsWellFormed(s: Sched<nat>, slot: nat, pid: nat)
    requires WellFormed(s) && (forall p :: p in s.pid ==> s.pid[p] < MAX_PROCESSES) && pid < MAX_PROCESSES
    ensures var s' := W.Born(s, slot, pid); WellFormed(s') && forall p :: p in s'.pid ==> s'.pid[p] < MAX_PROCESSES
  {
  }

  lemma BaseIsUsed(s: Phys, base: set<nat>, procs: map<nat, PS.Process>)
    requires PS.Coexist(s, base, procs)
    ensures base <= s.used
  {
    hide PS.Lives, PS.Owned;
  }

  /** A cleanup that leaves no pointer to the process. */
  lemma CleanupKeepsInv(k: Kernel, base: set<nat>, slot: nat, s: Sched<nat>, k': Kernel)
    requires Inv(k, base) && PS.Cleaned(Table(k), slot, Table(k')) && s.current != Some(slot) && slot !in s.queue
    requires W.Inv(World(k).(sched := s)) && WellFormed(s) && s.pid == k.ipc.sched.pid
    requires k' == k.(phys := k'.phys, procs := k'.procs, saved := k.saved - {slot}, frozen := k.frozen - {slot},
                      ipc := k.ipc.(sched := W.Gone(s, slot), used := k'.phys.used))
    ensures Inv(k', base)
  {
    hide PS.Coexist, IS.Inv, W.Inv, PS.Owned;
    Facts(k, base);
    PS.CleanedKeepsCoexistence(Table(k), slot, Table(k'), base + k.ipc.held);
    BaseIsUsed(k'.phys, base + k.ipc.held, k'.procs);
    GoneIsWellFormed(s, slot);
    IS.InvIgnoresOthers(k.ipc, W.Gone(s, slot), k'.phys.used);
    assert PS.Stacks(k'.procs) == PS.Stacks(k.procs) - {slot};
    W.DeathKeepsInv(World(k).(sched := s), slot);
  }

  /** The process is not in the ready list, or is current and its head. */
  predicate LeavesCleanly(s: Sched<nat>, slot: nat) {
    slot in s.queue ==> s.current == Some(slot) && s.queue[0] == slot
  }

  lemma ExitByCleanupKeepsInvIff(k: Kernel, base: set<nat>, slot: nat, k': Kernel)
    requires Inv(k, base) && Step(k, Exit(slot), k')
    requires k.ipc.sched.current != Some(slot) || k.ipc.sched.queue == []
    ensures Inv(k', base) <==> slot !in k.ipc.sched.queue
  {
    hide PS.Coexist, IS.Inv, W.Inv, PS.Cleaned, SchedulerSpec.Exit, W.Schedulable, IS.Shape;
    Facts(k, base);
    IsSchedulable(World(k));
    var s := k.ipc.sched;
    W.ExitStates(s, slot);
    if slot in s.queue {
      assert slot in k'.ipc.sched.state;
      CleanedIsGone(Table(k), slot, Table(k'));
      StillQueuedBreaksInv(k', base, slot);
    } else if s.current == Some(slot) {
      W.LastExitKeepsInv(World(k), slot);
      CleanupKeepsInv(k, base, slot, SchedulerSpec.Exit(s, slot), k');
    } else {
      assert W.Gone(SchedulerSpec.Exit(s, slot), slot) == W.Gone(s, slot);
      CleanupKeepsInv(k, base, slot, s, k');
    }
  }

  lemma IsSchedulable(w: W.World<nat>)
    requires W.Inv(w)
    ensures W.Schedulable(w.sched) && w.sched.state.Keys == w.stack.Keys
  {
    hide W.Schedulable, W.Intact, W.DisjointStacks;
  }

  lemma CleanedIsGone(k: PS.Kernel, slot: nat, k': PS.Kernel)
    requires PS.Cleaned(k, slot, k')
    ensures slot !in k'.procs
  {
    hide PS.Owned;
  }

  lemma StillQueuedBreaksInv(k: Kernel, base: set<nat>, slot: nat)
    requires slot in k.ipc.sched.state && slot !in k.procs
    ensures !Inv(k, base)
  {
    hide PS.Coexist, IS.Inv, W.Schedulable, W.Intact, W.DisjointStacks;
  }

  lemma ExitBySwitchKeepsInvIff(k: Kernel, base: set<nat>, slot: nat, k': Kernel)
    requires Inv(k, base) && Step(k, Exit(slot), k')
    requires k.ipc.sched.current == Some(slot) && k.ipc.sched.queue != []
    ensures Inv(k', base) <==> LeavesCleanly(k.ipc.sched, slot)
  {
    hide PS.Coexist, IS.Inv, W.Inv, SchedulerSpec.Exit, ContextSwitch, W.Schedulable, IS.Shape;
    Facts(k, base);
    IsSchedulable(World(k));
    var s, w := k.ipc.sched, World(k);
    W.ExitStates(s, slot);
    if slot !in s.queue {
      W.CurrentExitKeepsInv(w, slot);
    } else if s.queue[0] == slot {
      CurrentIsNotFrozen(w);
      RestoreKeepsMemory(k.cpu, if slot in k.saved then k.saved[slot] else 0);
      assert k'.frozen == k.frozen;
      W.ExitAtHeadKeepsInv(w, slot, k'.cpu);
    } else {
      W.ExitInQueueIsNotSchedulable(s, slot);
      if W.Inv(World(k')) {
        IsSchedulable(World(k'));
      }
    }
    if LeavesCleanly(s, slot) {
      ExitIsWellFormed(World(k'));
      IS.InvIgnoresScheduler(k.ipc, k'.ipc.sched);
    }
  }

  lemma CurrentIsNotFrozen(w: W.World<nat>)
    requires W.Inv(w) && w.sched.current.Some?
    ensures w.sched.current.value !in w.frozen
  {
    hide W.Schedulable, W.Intact, W.DisjointStacks;
  }

  lemma ExitIsWellFormed(w: W.World<nat>)
    requires W.Inv(w)
    ensures WellFormed(w.sched)
  {
    hide W.Intact, W.DisjointStacks, NoDuplicates;
  }

  lemma GoneIsWellFormed(s: Sched<nat>, slot: nat)
    requires WellFormed(s) && (forall p :: p in s.pid ==> s.pid[p] < MAX_PROCESSES)
    requires s.current != Some(slot) && slot !in s.queue
    ensures var s' := W.Gone(s, slot); WellFormed(s') && forall p :: p in s'.pid ==> s'.pid[p] < MAX_PROCESSES
  {
  }

  /** Identifiers in the table are not 0, so the scheduler assigns none. */
  lemma PidsStay(k: Kernel, base: set<nat>, step: SchedulerSpec.Step<nat>)
    requires Inv(k, base) && WellFormed(k.ipc.sched) && Known(step, k.ipc.sched.state.Keys)
    ensures Next(k.ipc.sched, step).pid == k.ipc.sched.pid
      && Next(k.ipc.sched, step).state.Keys == k.ipc.sched.state.Keys
  {
    hide IS.Inv, W.Inv, PS.Lives, PS.Owned, Next;
    Facts(k, base);
    IS.SchedulerKeepsPids(k.ipc.sched, step);
  }

  lemma ProcessKeepsInvIff(k: Kernel, base: set<nat>, event: W.Event<nat>, k': Kernel)
    requires Inv(k, base) && Step(k, Process(event), k')
    ensures Inv(k', base) <==> !(event.Kernel? && Relinks(k.ipc.sched, event.step))
  {
    hide Inv, W.Possible, W.After, Next, Relinks, NoDuplicates, W.Schedulable, IS.Shape, IS.Inv, W.Inv;
    Facts(k, base);
    if event.Kernel? && Relinks(k.ipc.sched, event.step) {
      RelinkDuplicates(k.ipc.sched, event.step);
      LinkedTwiceBreaksInv(k', base);
    } else {
      ProcessKeepsInv(k, base, event, k');
    }
  }

  lemma RelinkDuplicates(s: Sched<nat>, step: SchedulerSpec.Step<nat>)
    requires WellFormed(s) && Relinks(s, step)
    ensures Known(step, s.state.Keys) && !NoDuplicates(Next(s, step).queue)
  {
    var i :| 0 <= i < |s.queue| && s.queue[i] == step.p;
    var queue := s.queue + [step.p];
    assert queue[i] == queue[|s.queue|] && Next(s, step).queue == queue;
  }

  lemma LinkedTwiceBreaksInv(k: Kernel, base: set<nat>)
    requires !NoDuplicates(k.ipc.sched.queue)
    ensures !Inv(k, base)
  {
    hide PS.Coexist, IS.Inv, W.Intact, W.DisjointStacks, NoDuplicates;
  }

  lemma ProcessKeepsInv(k: Kernel, base: set<nat>, event: W.Event<nat>, k': Kernel)
    requires Inv(k, base) && W.Possible(World(k), event) && k' == WithWorld(k, W.After(World(k), event))
    ensures Inv(k', base)
  {
    hide PS.Coexist, IS.Inv, W.Inv, W.Possible, W.After;
    Facts(k, base);
    W.AfterKeepsInv(World(k), event);
    AfterKeepsPids(k, base, event);
    IS.InvIgnoresScheduler(k.ipc, k'.ipc.sched);
  }

  lemma AfterKeepsPids(k: Kernel, base: set<nat>, event: W.Event<nat>)
    requires Inv(k, base) && W.Possible(World(k), event)
    ensures var w := W.After(World(k), event);
      WellFormed(w.sched) && w.sched.pid == k.ipc.sched.pid && w.stack == PS.Stacks(k.procs)
  {
    hide PS.Coexist, IS.Inv, Next, W.Inv, W.Possible, W.After;
    Facts(k, base);
    W.SchedulerAfter(World(k), event);
    if event.Kernel? {
      PidsStay(k, base, event.step);
    }
  }

  // ----- mappings

  lemma MapKeepsInvIff(k: Kernel, base: set<nat>, slot: nat, v: bv32, frame: bv32, flags: bv32, k': Kernel)
    requires Inv(k, base) && Step(k, Map(slot, v, frame, flags), k')
    ensures Sized(k.phys.mem) && k.procs[slot].pd < PHYS_PAGES
    ensures Inv(k', base) <==> PS.Mapworthy(k.phys, k.procs[slot].pd, v, flags)
  {
    hide PS.Coexist, IS.Inv, W.Inv, MapPage, PS.Mapworthy;
    Facts(k, base);
    PS.MapKeepsCoexistenceIff(k.phys, base + k.ipc.held, k.procs, slot, v, frame, flags);
    if PS.Coexist(k'.phys, base + k.ipc.held, k'.procs) {
      BaseIsUsed(k'.phys, base + k.ipc.held, k'.procs);
      IS.InvIgnoresOthers(k.ipc, k.ipc.sched, k'.phys.used);
    }
  }

  /** Every process can have pages mapped at any time. */
  lemma MapIsPossible(k: Kernel, base: set<nat>, slot: nat, v: bv32, frame: bv32, flags: bv32)
    requires Inv(k, base) && slot in k.procs
    ensures exists k' :: Step(k, Map(slot, v, frame, flags), k')
  {
    hide PS.Coexist, IS.Inv, W.Inv, Tame;
    Facts(k, base);
    PS.DirectoryIsTame(k.phys, base + k.ipc.held, k.procs, slot);
    assert Step(k, Map(slot, v, frame, flags), Mapped(k, slot, v, frame, flags));
  }

  /** A mapping changes the translation of that page of that process, to what was asked for, and of no other
      page of any process. */
  lemma MapChangesOnePage(k: Kernel, base: set<nat>, slot: nat, v: bv32, frame: bv32, flags: bv32, i: nat, w: bv32)
    requires Inv(k, base) && i in k.procs
    requires slot in k.procs && Tame(k.phys.mem, k.phys.used, k.procs[slot].pd) && k.procs[slot].pd != 0
    requires Mappable(k.phys, k.procs[slot].pd, DirIndex(v), flags)
    ensures k.procs[i].pd < PHYS_PAGES && Sized(Mapped(k, slot, v, frame, flags).phys.mem)
    ensures Translate(Mapped(k, slot, v, frame, flags).phys.mem, k.procs[i].pd, w) ==
      if i == slot && PageOf(w) == PageOf(v) then Some(Mapping(FrameOf(frame), User(flags), Writable(flags)))
      else Translate(k.phys.mem, k.procs[i].pd, w)
  {
    hide PS.Coexist, IS.Inv, W.Inv, Tame, MapPage, Mappable, Translate, FrameOf, PageOf, User, Writable, DirIndex;
    hide CanMap;
    Facts(k, base);
    PS.DirectoryIsTame(k.phys, base + k.ipc.held, k.procs, i);
    PS.DirectoryIsTame(k.phys, base + k.ipc.held, k.procs, slot);
    PS.MappableIff(k.phys, k.procs[slot].pd, v, flags);
    PS.MapChangesOnePage(k.phys, base + k.ipc.held, k.procs, slot, v, frame, flags, i, w);
  }

  // ----- messages

  /** Pages that message passing takes or gives back are nobody else's. */
  lemma MessagePagesApart(s: Phys, base: set<nat>, held: set<nat>, procs: map<nat, PS.Process>, used': set<nat>,
    held': set<nat>)
    requires PS.Coexist(s, base + held, procs) && held !! base && held' <= used'
    requires used' - held' == s.used - held && (held' - held) !! s.used
    ensures PS.Coexist(s.(used := used'), base + held', procs) && held' !! base
  {
    hide PS.Lives, PS.Owned;
    var s' := s.(used := used');
    forall i | i in procs
      ensures PS.Lives(s', procs[i]) && PS.Owned(s'.mem, procs[i]) !! base + held'
      ensures PS.Owned(s'.mem, procs[i]) == PS.Owned(s.mem, procs[i])
    {
      var own := PS.Owned(s.mem, procs[i]);
      PS.OwnedIsUsed(s, procs[i]);
      assert own !! base + held;
      assert own <= s.used - held;
      PS.LivesOn(s, s', procs[i]);
    }
    assert base <= s.used - held;
    forall q | q in used' && q !in base + held' ensures exists i :: i in procs && q in PS.Owned(s'.mem, procs[i]) {
      assert q in s.used - held;
      var i :| i in procs && q in PS.Owned(s.mem, procs[i]);
      assert q in PS.Owned(s'.mem, procs[i]);
    }
  }

  lemma MessageKeepsInvIff(k: Kernel, base: set<nat>, step: IS.IpcStep<nat>, k': Kernel)
    requires Inv(k, base) && Step(k, Message(step), k')
    ensures IS.Shape(k.ipc) && (step.SendStep? ==> k.ipc.sched.current.Some?)
    ensures Inv(k', base) <==> !(step.SendStep? && IS.SendRelinks(k.ipc, step.receiver, step.msg))
  {
    hide Inv, W.Possible, W.After, IS.Next, Blocks, IS.SendRelinks, NoDuplicates;
    Facts(k, base);
    if step.SendStep? && IS.SendRelinks(k.ipc, step.receiver, step.msg) {
      SendDuplicates(k.ipc, step.receiver, step.msg);
      NextOfSend(k.ipc, step);
      SendDoesNotBlock(k.ipc, step);
      LinkedTwiceBreaksInv(k', base);
    } else {
      MessageKeepsInv(k, base, step, k');
    }
  }

  lemma NextOfSend(w: IS.Ipc<nat>, step: IS.IpcStep<nat>)
    requires IS.Shape(w) && step.SendStep? && IS.Legal(w, step)
    ensures IS.Next(w, step) == IS.Send(w, step.receiver, step.msg).0
  {
    hide IS.Send;
  }

  lemma SendDoesNotBlock(w: IS.Ipc<nat>, step: IS.IpcStep<nat>)
    requires IS.Shape(w) && step.SendStep?
    ensures !Blocks(w, step)
  {
  }

  lemma SendDuplicates(w: IS.Ipc<nat>, r: nat, msg: Option<IS.UserMsg>)
    requires IS.Shape(w) && w.sched.current.Some? && IS.SendRelinks(w, r, msg)
    ensures !NoDuplicates(IS.Send(w, r, msg).0.sched.queue)
  {
    hide IS.Send, NoDuplicates, FindProcess;
    IS.SendKeepsOrWakes(w, r, msg);
    RelinkDuplicates(w.sched, UnblockStep(FindProcess(w.sched, r).value));
  }

  lemma MessageKeepsInv(k: Kernel, base: set<nat>, step: IS.IpcStep<nat>, k': Kernel)
    requires Inv(k, base) && Step(k, Message(step), k')
    requires IS.Shape(k.ipc) && (step.SendStep? ==> k.ipc.sched.current.Some?)
    requires step.SendStep? ==> !IS.SendRelinks(k.ipc, step.receiver, step.msg)
    ensures Inv(k', base)
  {
    hide PS.Coexist, IS.Inv, W.Inv, W.Possible, W.After, IS.Next, IS.Legal, Blocks, IS.SendRelinks;
    Facts(k, base);
    if Blocks(k.ipc, step) {
      ProcessKeepsInv(k, base, W.Kernel(BlockStep), k');
    } else {
      var w := IS.Next(k.ipc, step);
      IS.NextKeepsInv(k.ipc, step);
      IS.OwnPagesOnly(k.ipc, step);
      IS.HeldIsUsed(w);
      BaseIsUsed(k.phys, base + k.ipc.held, k.procs);
      MessagePagesApart(k.phys, base, k.ipc.held, k.procs, w.used, w.held);
      MessageKeepsWorld(k, base, step);
    }
  }

  /** A message wakes its receiver at most, which is a step of the scheduler without a switch. */
  lemma MessageKeepsWorld(k: Kernel, base: set<nat>, step: IS.IpcStep<nat>)
    requires Inv(k, base) && IS.Legal(k.ipc, step) && (step.SendStep? || step.ReceiveStep? || step.ClearStep?)
    requires step.SendStep? ==> !IS.SendRelinks(k.ipc, step.receiver, step.msg)
    requires !Blocks(k.ipc, step)
    ensures var s := IS.Next(k.ipc, step).sched;
      W.Inv(World(k).(sched := s)) && s.pid == k.ipc.sched.pid
  {
    hide PS.Coexist, IS.Inv, W.Inv, IS.Send;
    Facts(k, base);
    if step.SendStep? {
      var r := step.receiver;
      IS.SendKeepsOrWakes(k.ipc, r, step.msg);
      var p := FindProcess(k.ipc.sched, r);
      if IS.Send(k.ipc, r, step.msg).1 == IS.Success && k.ipc.sched.state[p.value] == Blocked {
        Unblocks(k, base, p.value);
      }
    }
  }

  lemma Unblocks(k: Kernel, base: set<nat>, slot: nat)
    requires Inv(k, base) && WellFormed(k.ipc.sched) && slot in k.ipc.sched.state
      && !Relinks(k.ipc.sched, UnblockStep(slot))
    ensures var s := Unblock(k.ipc.sched, slot); W.Inv(World(k).(sched := s)) && s.pid == k.ipc.sched.pid
  {
    hide PS.Coexist, IS.Inv, W.Inv, W.Possible, W.After, Relinks;
    W.UnblockIsPossible(World(k), slot);
    W.AfterKeepsInv(World(k), W.Kernel(UnblockStep(slot)));
  }

  // ----- every run

  /** Whether the event leaves the kernel in order: a creation is not doomed, an exiting process is not left in
      the ready list without its pages or Terminated, a page table can be had where one is needed, and no
      process is linked twice. (An exit may still fail to end the process, see `KernelRuns.ExitedHeadRunsAgain`.) */
  ghost predicate Harmless(k: Kernel, e: Event) {
    match e
    case Create(_) => !PS.Doomed(Table(k))
    case Exit(slot) => LeavesCleanly(k.ipc.sched, slot)
    case Map(slot, v, _, flags) =>
      slot in k.procs && Sized(k.phys.mem) && k.procs[slot].pd < PHYS_PAGES ==>
        PS.Mapworthy(k.phys, k.procs[slot].pd, v, flags)
    case Process(event) => !(event.Kernel? && Relinks(k.ipc.sched, event.step))
    case Message(step) =>
      step.SendStep? && IS.Shape(k.ipc) && k.ipc.sched.current.Some? ==>
        !IS.SendRelinks(k.ipc, step.receiver, step.msg)
  }

  /** An event keeps all invariants together exactly when it is harmless. */
  lemma StepKeepsInvIff(k: Kernel, base: set<nat>, e: Event, k': Kernel)
    requires Inv(k, base) && Step(k, e, k')
    ensures Inv(k', base) <==> Harmless(k, e)
  {
    hide Inv, Step, LeavesCleanly, IS.SendRelinks, Relinks, PS.Mapworthy, PS.Doomed, IS.Shape;
    match e
    case Create(isUser) => CreateKeepsInvIff(k, base, isUser, k');
    case Exit(slot) => ExitKeepsInvIff(k, base, slot, k');
    case Map(slot, v, frame, flags) =>
      MapNamesProcess(k, base, e, k');
      MapKeepsInvIff(k, base, slot, v, frame, flags, k');
    case Process(event) => ProcessKeepsInvIff(k, base, event, k');
    case Message(step) => MessageKeepsInvIff(k, base, step, k');
  }

  lemma MapNamesProcess(k: Kernel, base: set<nat>, e: Event, k': Kernel)
    requires Inv(k, base) && e.Map? && Step(k, e, k')
    ensures e.slot in k.procs
  {
    hide Inv, Tame;
  }

  lemma ExitKeepsInvIff(k: Kernel, base: set<nat>, slot: nat, k': Kernel)
    requires Inv(k, base) && Step(k, Exit(slot), k')
    ensures Inv(k', base) <==> LeavesCleanly(k.ipc.sched, slot)
  {
    hide Inv, Step;
    if k.ipc.sched.current == Some(slot) && k.ipc.sched.queue != [] {
      ExitBySwitchKeepsInvIff(k, base, slot, k');
    } else {
      ExitByCleanupKeepsInvIff(k, base, slot, k');
    }
  }

  /** The states of a run, one event apart, up to the first event that is not harmless. Nothing is assumed
      of them but that the first one keeps the invariants. */
  ghost predicate IsRun(run: seq<Kernel>, events: seq<Event>, base: set<nat>)
    requires |run| == |events| + 1 && Inv(run[0], base)
    decreases |events|
  {
    events != [] ==>
      && Step(run[0], events[0], run[1])
      && (Harmless(run[0], events[0]) ==>
            (StepKeepsInvIff(run[0], base, events[0], run[1]); IsRun(run[1..], events[1..], base)))
  }

  ghost predicate AllHarmless(run: seq<Kernel>, events: seq<Event>)
    requires |run| == |events| + 1
  {
    forall i :: 0 <= i < |events| ==> Harmless(run[i], events[i])
  }

  /** Whatever is created, exits, is scheduled, computes, and sends or receives, in whatever order: all of
      the kernel's invariants hold together at every point, exactly when every event is harmless. */
  lemma {:induction false} EveryRunKeepsInvIff(run: seq<Kernel>, events: seq<Event>, base: set<nat>)
    requires |run| == |events| + 1 && Inv(run[0], base) && IsRun(run, events, base)
    ensures (forall i :: 0 <= i < |run| ==> Inv(run[i], base)) <==> AllHarmless(run, events)
    decreases |events|
  {
    hide Inv, Step, Harmless;
    if events != [] {
      StepKeepsInvIff(run[0], base, events[0], run[1]);
      assert Harmless(run[0], events[0]) <==> Inv(run[1], base);
      if Harmless(run[0], events[0]) {
        EveryRunKeepsInvIff(run[1..], events[1..], base);
        assert forall i :: 0 <= i < |events| ==> run[1..][i] == run[i + 1];
        LaterStates(run, base);
        LaterEvents(run, events);
      }
    }
  }

  lemma LaterStates(run: seq<Kernel>, base: set<nat>)
    requires |run| > 1 && Inv(run[0], base)
    ensures (forall i :: 0 <= i < |run| ==> Inv(run[i], base))
      <==> (forall i :: 0 <= i < |run[1..]| ==> Inv(run[1..][i], base))
  {
    hide Inv;
    if forall i :: 0 <= i < |run[1..]| ==> Inv(run[1..][i], base) {
      forall i | 0 <= i < |run| ensures Inv(run[i], base) {
        assert i > 0 ==> run[1..][i - 1] == run[i];
      }
    }
  }

  lemma LaterEvents(run: seq<Kernel>, events: seq<Event>)
    requires |run| == |events| + 1 && events != [] && Harmless(run[0], events[0])
    ensures AllHarmless(run, events) <==> AllHarmless(run[1..], events[1..])
  {
    hide Harmless;
    if AllHarmless(run[1..], events[1..]) {
      forall i | 0 <= i < |events| ensures Harmless(run[i], events[i]) {
        assert i > 0 ==> run[1..][i - 1] == run[i] && events[1..][i - 1] == events[i];
      }
    }
    if AllHarmless(run, events) {
      forall i | 0 <= i < |events[1..]| ensures Harmless(run[1..][i], events[1..][i]) {
        assert Harmless(run[i + 1], events[i + 1]);
      }
    }
  }

  /** What start-up leaves: no process, no message, and the pages of the start in use. */
  ghost predicate Initial(k: Kernel, base: set<nat>) {
    && Sized(k.phys.mem) && k.phys.used == base == k.ipc.used && 0 in base && k.procs == map[]
    && IS.Initial(k.ipc) && W.Initial(World(k))
  }

  lemma InitialKeepsInv(k: Kernel, base: set<nat>)
    requires Initial(k, base)
    ensures Inv(k, base)
  {
    hide IS.Inv, W.Inv, PS.Lives, PS.Owned;
    IS.InitialKeepsInv(k.ipc);
    W.InitialKeepsInv(World(k));
    assert base + k.ipc.held == base;
  }

  // ----- what that means

  /** Every page in use is of the start, for messages, or of a process. */
  lemma PagesHaveAUse(k: Kernel, base: set<nat>, page: nat)
    requires Inv(k, base) && page in k.phys.used
    ensures page in base || page in k.ipc.held
      || exists i :: i in k.procs && Sized(k.phys.mem) && k.procs[i].pd < PHYS_PAGES
                     && page in PS.Owned(k.phys.mem, k.procs[i])
  {
    hide IS.Inv, W.Inv, PS.Lives, PS.Owned;
  }

  /** And it has only one of these uses. */
  lemma PagesHaveOneUse(k: Kernel, base: set<nat>, i: nat)
    requires Inv(k, base) && i in k.procs
    ensures Sized(k.phys.mem) && k.procs[i].pd < PHYS_PAGES && k.ipc.held !! base
    ensures var own := PS.Owned(k.phys.mem, k.procs[i]);
      && own !! base && own !! k.ipc.held && own <= k.phys.used
      && (forall j :: j in k.procs && j != i ==>
            k.procs[j].pd < PHYS_PAGES && own !! PS.Owned(k.phys.mem, k.procs[j]))
  {
    hide IS.Inv, W.Inv, PS.Lives, PS.Owned;
    PS.OwnedIsUsed(k.phys, k.procs[i]);
  }

  /** The queue of every process is in bounds, because its identifier comes from the table. */
  lemma QueuesAreInBounds(k: Kernel, base: set<nat>, r: nat)
    requires Inv(k, base) && WellFormed(k.ipc.sched) && FindProcess(k.ipc.sched, r).Some?
    ensures 1 <= r < |k.ipc.boxes|
  {
    hide IS.Inv, W.Inv, PS.Lives, PS.Owned;
    Facts(k, base);
  }

  /** At every point of every run, each message sent to a receiver is in exactly one place, and what it got
      from each sender is a subsequence of what that sender sent, in order. */
  lemma MessagesOnceAndInOrder(run: seq<Kernel>, events: seq<Event>, base: set<nat>, i: nat, r: nat, m: Msg,
    sender: nat)
    requires |run| == |events| + 1 && Inv(run[0], base) && IsRun(run, events, base) && AllHarmless(run, events)
    requires i < |run| && r < MAX_PROCESSES
    ensures r < |run[i].ipc.boxes|
    ensures var b := run[i].ipc.boxes[r];
      && |b.queue| <= MAX_MESSAGES && Subsequence(From(b.received, sender), From(b.sent, sender))
      && (m in b.sent ==> multiset(b.queue)[m] + multiset(b.received)[m] + multiset(b.dropped)[m]
                          + multiset(b.cleared)[m] + multiset(b.lost)[m] == 1)
  {
    hide Step, W.Inv, PS.Coexist, IsRun, Subsequence, IS.AllPages;
    EveryRunKeepsInvIff(run, events, base);
    IS.EveryMessageOnceAndInOrder(run[i].ipc, [], r, m, sender);
  }
}
