/** What processes, their stacks and their mailboxes go through along the runs of the kernel. */
module KernelRuns {
  import opened Common
  import opened SchedulerSpec
  import opened StackMachine
  import opened PageSet
  import opened PageAllocator
  import opened Paging
  import opened Mailbox
  import opened AddressSpace
  import opened K = KernelSpec
  import W = Switching
  import IS = IpcSpec
  import PS = ProcessSpec

  // ----- suspended processes

  /** The event neither resumes, sets up nor ends the process. */
  ghost predicate LeavesOff(e: Event, k': Kernel, p: nat) {
    k'.ipc.sched.current != Some(p) && e != K.Exit(p) && !(e.Process? && e.event.Prepare? && e.event.p == p)
  }

  /** Whether the event is a step of the scheduler and the processor: a process event, or a receive that
      blocks. */
  ghost predicate IsWorldStep(k: Kernel, e: Event, event: W.Event<nat>)
    requires IS.Shape(k.ipc)
  {
    || (e == Process(event) && !(event.Kernel? && Relinks(k.ipc.sched, event.step)))
    || (e.Message? && Blocks(k.ipc, e.step) && event == W.Kernel(BlockStep))
  }

  lemma WorldStep(k: Kernel, e: Event, event: W.Event<nat>, k': Kernel)
    requires IS.Inv(k.ipc) && W.Inv(World(k)) && IS.Shape(k.ipc) && K.Step(k, e, k') && IsWorldStep(k, e, event)
    ensures WellFormed(k.ipc.sched) && W.Possible(World(k), event) && k' == WithWorld(k, W.After(World(k), event))
  {
    hide IS.Inv, W.Inv, W.Possible, W.After, Blocks, Relinks, IS.Next, IS.Legal;
  }

  /** Any other event but an exit leaves the current process, the processor and all images alone. */
  lemma OtherEvent(k: Kernel, base: set<nat>, e: Event, k': Kernel)
    requires K.Inv(k, base) && K.Step(k, e, k') && !e.Exit? && IS.Shape(k.ipc)
    requires forall event :: !IsWorldStep(k, e, event)
    ensures k'.ipc.sched.current == k.ipc.sched.current && k'.cpu == k.cpu
    ensures k'.saved == k.saved && k'.frozen == k.frozen
    ensures forall i :: i in k.procs ==> i in k'.procs && k'.procs[i] == k.procs[i]
  {
    hide PS.Coexist, IS.Inv, W.Inv, W.Possible, W.After, Blocks, IS.Next, PS.Succeeds, Stage, MapPage, IS.Legal;
    match e
    case Create(_) =>
    case Map(_, _, _, _) =>
    case Process(event) => assert !IsWorldStep(k, e, event);
    case Message(step) =>
      assert !IsWorldStep(k, e, W.Kernel(BlockStep));
      MessageKeepsCurrent(k.ipc, step);
  }

  lemma MessageKeepsCurrent(w: IS.Ipc<nat>, step: IS.IpcStep<nat>)
    requires IS.Shape(w) && IS.Legal(w, step) && (step.SendStep? || step.ReceiveStep? || step.ClearStep?)
    requires !Blocks(w, step)
    ensures IS.Next(w, step).sched.current == w.sched.current
  {
    hide IS.Send, IS.WakeUp, FirstMatch, Block;
    if step.SendStep? {
      IS.SendKeepsOrWakes(w, step.receiver, step.msg);
    }
  }

  lemma ImageKept(k: Kernel, base: set<nat>, e: Event, k': Kernel, p: nat)
    requires K.Inv(k, base) && K.Step(k, e, k') && LeavesOff(e, k', p) && p in k.frozen && p in k.procs
    ensures p in k'.frozen && k'.frozen[p] == k.frozen[p] && p in k'.procs && k'.procs[p] == k.procs[p]
  {
    hide K.Step, PS.Coexist, IS.Inv, W.Inv, IS.Shape, IsWorldStep, W.Possible, W.After, W.SwitchesTo;
    Facts(k, base);
    if e.Exit? {
      ExitKeepsImage(k, base, e.slot, k', p);
    } else if event :| IsWorldStep(k, e, event) {
      WorldStep(k, e, event, k');
      WorldStepIs(k, e, event);
      FrozenIsNotCurrent(World(k), p);
      W.SwitchSets(World(k), event, p);
      W.ImageKept(World(k), event, p);
    } else {
      OtherEvent(k, base, e, k');
    }
  }

  lemma WorldStepIs(k: Kernel, e: Event, event: W.Event<nat>)
    requires IS.Shape(k.ipc) && IsWorldStep(k, e, event)
    ensures event.Prepare? ==> e == Process(event)
    ensures event.Kernel? ==> e == Process(event) || event.step == BlockStep
  {
    hide IS.Shape, Blocks;
  }

  lemma ExitKeepsImage(k: Kernel, base: set<nat>, slot: nat, k': Kernel, p: nat)
    requires K.Inv(k, base) && K.Step(k, K.Exit(slot), k') && LeavesOff(K.Exit(slot), k', p)
    requires p in k.frozen && p in k.procs
    ensures p in k'.frozen && k'.frozen[p] == k.frozen[p] && p in k'.procs && k'.procs[p] == k.procs[p]
  {
    hide PS.Coexist, IS.Inv, W.Inv, PS.Owned, SchedulerSpec.Exit, ContextSwitch, W.Schedulable;
    Facts(k, base);
    IsSchedulable(World(k));
    W.ExitStates(k.ipc.sched, slot);
  }

  ghost predicate LeavesOffThroughout(run: seq<Kernel>, events: seq<Event>, p: nat)
    requires |run| == |events| + 1
  {
    forall i :: 0 <= i < |events| ==> LeavesOff(events[i], run[i + 1], p)
  }

  lemma {:induction false} ImageKeptThroughout(run: seq<Kernel>, events: seq<Event>, base: set<nat>, p: nat)
    requires |run| == |events| + 1 && K.Inv(run[0], base) && IsRun(run, events, base) && AllHarmless(run, events)
    requires LeavesOffThroughout(run, events, p) && p in run[0].frozen && p in run[0].procs
    ensures var k := run[|events|];
      && p in k.frozen && k.frozen[p] == run[0].frozen[p]
      && p in k.procs && k.procs[p] == run[0].procs[p]
    decreases |events|
  {
    hide K.Inv, K.Step, Harmless, LeavesOff;
    if events != [] {
      assert Harmless(run[0], events[0]) && LeavesOff(events[0], run[0 + 1], p);
      StepKeepsInvIff(run[0], base, events[0], run[1]);
      ImageKept(run[0], base, events[0], run[1], p);
      LaterEvents(run, events);
      forall i | 0 <= i < |events[1..]| ensures LeavesOff(events[1..][i], run[1..][i + 1], p) {
        assert LeavesOff(events[i + 1], run[i + 1 + 1], p);
      }
      ImageKeptThroughout(run[1..], events[1..], base, p);
    }
  }

  /** Whatever makes a process current, a step of the scheduler, a receive that blocks or the exit of another
      process, gives it the context of its image, and its stack. */
  lemma SwitchGivesImage(k: Kernel, base: set<nat>, e: Event, k': Kernel, p: nat)
    requires K.Inv(k, base) && K.Step(k, e, k') && k.ipc.sched.current != Some(p) && k'.ipc.sched.current == Some(p)
    ensures p in k.frozen && p in k.procs
    ensures ContextOf(k'.cpu) == k.frozen[p].context
    ensures W.SameAbove(k.procs[p].kernelStack * PAGE_SIZE, k'.cpu.mem, k.frozen[p])
  {
    hide K.Step, PS.Coexist, IS.Inv, W.Inv, IS.Shape, IsWorldStep, W.Possible, W.After, W.SwitchesTo, W.SameAbove;
    hide ContextOf;
    Facts(k, base);
    if e.Exit? {
      ExitGivesImage(k, base, e.slot, k', p);
    } else if event :| IsWorldStep(k, e, event) {
      WorldStep(k, e, event, k');
      W.SwitchSets(World(k), event, p);
      W.SwitchGivesImage(World(k), event, p);
    } else {
      OtherEvent(k, base, e, k');
    }
  }

  lemma ExitGivesImage(k: Kernel, base: set<nat>, slot: nat, k': Kernel, p: nat)
    requires K.Inv(k, base) && K.Step(k, K.Exit(slot), k')
    requires k.ipc.sched.current != Some(p) && k'.ipc.sched.current == Some(p)
    ensures p in k.frozen && p in k.procs
    ensures ContextOf(k'.cpu) == k.frozen[p].context
    ensures W.SameAbove(k.procs[p].kernelStack * PAGE_SIZE, k'.cpu.mem, k.frozen[p])
  {
    hide PS.Coexist, IS.Inv, PS.Owned, SchedulerSpec.Exit, ContextSwitch, ContextOf, W.SameAbove, W.Intact;
    hide W.DisjointStacks, NoDuplicates, W.Inv, W.Schedulable, IS.Shape;
    Facts(k, base);
    IsSchedulable(World(k));
    W.ExitStates(k.ipc.sched, slot);
    W.HeadResumes(World(k));
  }

  /** A process that was suspended or set up, and becomes current again any time later, continues with the
      context it had then and its stack above it, whoever was created, exited, ran or talked in between, and
      whatever brings it back. */
  lemma ResumesAfterEverything(run: seq<Kernel>, events: seq<Event>, base: set<nat>, p: nat, resume: Event, k': Kernel)
    requires |run| == |events| + 1 && K.Inv(run[0], base) && IsRun(run, events, base) && AllHarmless(run, events)
    requires LeavesOffThroughout(run, events, p) && p in run[0].frozen && p in run[0].procs
    requires K.Inv(run[|events|], base) ==> K.Step(run[|events|], resume, k')
    requires k'.ipc.sched.current == Some(p)
    ensures var image := run[0].frozen[p];
      && ContextOf(k'.cpu) == image.context
      && W.SameAbove(run[0].procs[p].kernelStack * PAGE_SIZE, k'.cpu.mem, image)
  {
    hide IsRun, K.Step, LeavesOffThroughout, IS.Inv, W.Inv, PS.Coexist, W.SameAbove, ContextOf;
    EveryRunKeepsInvIff(run, events, base);
    var k := run[|events|];
    assert K.Inv(k, base);
    ImageKeptThroughout(run, events, base, p);
    FrozenIsNotCurrent(World(k), p);
    SwitchGivesImage(k, base, resume, k', p);
  }

  lemma FrozenIsNotCurrent(w: W.World<nat>, p: nat)
    requires W.Inv(w) && p in w.frozen
    ensures w.sched.current != Some(p)
  {
    hide W.Schedulable, W.Intact, W.DisjointStacks;
  }

  /** And whatever takes the processor from a process that is not ended or removed, saves that context: the
      one it returns with, and memory as it was. */
  lemma SuspendFreezes(k: Kernel, base: set<nat>, e: Event, k': Kernel, p: nat)
    requires K.Inv(k, base) && K.Step(k, e, k') && k.ipc.sched.current == Some(p) && k'.ipc.sched.current != Some(p)
    requires e != K.Exit(p) && e != Process(W.Kernel(RemoveStep(p)))
    ensures p in k'.procs && p in k'.frozen && k'.frozen[p] == W.Image(ReturnContext(k.cpu), k.cpu.mem)
  {
    hide K.Step, PS.Coexist, IS.Inv, W.Inv, IS.Shape, IsWorldStep, W.Possible, W.After, W.Suspends, ReturnContext;
    Facts(k, base);
    if e.Exit? {
      ExitOfOther(k, base, e.slot, k');
    } else if event :| IsWorldStep(k, e, event) {
      WorldStep(k, e, event, k');
      WorldStepIs(k, e, event);
      W.SwitchSuspends(World(k), event, p);
      W.SuspendFreezes(World(k), event, p);
    } else {
      OtherEvent(k, base, e, k');
    }
  }

  lemma ExitOfOther(k: Kernel, base: set<nat>, slot: nat, k': Kernel)
    requires K.Inv(k, base) && K.Step(k, K.Exit(slot), k') && k.ipc.sched.current != Some(slot)
    ensures k'.ipc.sched.current == k.ipc.sched.current
  {
    hide PS.Coexist, IS.Inv, W.Inv, PS.Owned, SchedulerSpec.Exit, W.Schedulable;
    Facts(k, base);
    IsSchedulable(World(k));
    W.ExitStates(k.ipc.sched, slot);
  }

  // ----- exits that go wrong

  /** A process at the head of the queue that is killed by another is cleaned up, but stays queued: the next
      yield runs it on a stack that is free for anybody. */
  lemma KilledHeadRuns(k: Kernel, base: set<nat>, slot: nat, k': Kernel)
    requires K.Inv(k, base) && K.Step(k, K.Exit(slot), k')
    requires k.ipc.sched.current != Some(slot) && k.ipc.sched.queue != [] && k.ipc.sched.queue[0] == slot
    ensures slot !in k'.procs && !K.Inv(k', base)
    ensures WellFormed(k'.ipc.sched)
    ensures var s := Yield(k'.ipc.sched); s.current == Some(slot) && s.state[slot] == Running
    ensures Pages(k.procs[slot].kernelStack, 2) !! k'.phys.used
  {
    hide PS.Coexist, IS.Inv, W.Inv, SchedulerSpec.Exit, PS.Owned, Pages, W.Schedulable, IS.Shape, Yield, ContextSwitch;
    Facts(k, base);
    IsSchedulable(World(k));
    ExitByCleanupKeepsInvIff(k, base, slot, k');
    ExitedHeadIsNext(k.ipc.sched, slot);
    OwnsItsStack(k.phys, k.procs[slot]);
    assert slot in k.ipc.sched.queue;
  }

  lemma ExitedHeadIsNext(s: Sched<nat>, slot: nat)
    requires W.Schedulable(s) && slot in s.state && s.current != Some(slot) && s.queue != [] && s.queue[0] == slot
    ensures WellFormed(s) && WellFormed(SchedulerSpec.Exit(s, slot)) && slot in SchedulerSpec.Exit(s, slot).queue
    ensures var s' := Yield(SchedulerSpec.Exit(s, slot)); s'.current == Some(slot) && s'.state[slot] == Running
  {
    hide SchedulerSpec.Exit, NoDuplicates;
    W.ExitStates(s, slot);
  }

  lemma OwnsItsStack(s: Phys, p: PS.Process)
    requires Sized(s.mem) && p.pd < PHYS_PAGES
    ensures Pages(p.kernelStack, 2) <= PS.Owned(s.mem, p)
  {
    hide Frames;
  }

  /** A process that exits while it is current and the head of the queue runs again at once, from the stack
      pointer of the last time it was switched away from or set up. */
  lemma ExitedHeadRunsAgain(k: Kernel, base: set<nat>, slot: nat, k': Kernel)
    requires K.Inv(k, base) && K.Step(k, K.Exit(slot), k')
    requires k.ipc.sched.current == Some(slot) && k.ipc.sched.queue != [] && k.ipc.sched.queue[0] == slot
    ensures var s := k'.ipc.sched; s.current == Some(slot) && slot in s.state && s.state[slot] == Running
    ensures k'.procs == k.procs && (slot in k.saved ==> k'.cpu == ContextSwitch(k.cpu, false, k.saved[slot]))
  {
    hide PS.Coexist, IS.Inv, W.Inv, SchedulerSpec.Exit, ContextSwitch;
    Facts(k, base);
    IsSchedulable(World(k));
    W.ExitStates(k.ipc.sched, slot);
  }

  /** Terminated, neither current, queued nor ready to be switched to, and still in the table. */
  ghost predicate Zombie(k: Kernel, p: nat) {
    p in k.procs && Retired(k.ipc.sched, p) && p !in k.frozen
  }

  /** A current process that exits while others are ready is not cleaned up: the switch inside the removal
      never returns. It keeps its slot, its identifier and its pages. */
  lemma CurrentIsNotCleanedUp(k: Kernel, base: set<nat>, slot: nat, k': Kernel)
    requires K.Inv(k, base) && K.Step(k, K.Exit(slot), k')
    requires k.ipc.sched.current == Some(slot) && k.ipc.sched.queue != []
    ensures k'.procs == k.procs && k'.phys == k.phys
    ensures slot !in k.ipc.sched.queue ==> Zombie(k', slot)
  {
    hide PS.Coexist, IS.Inv, W.Inv, SchedulerSpec.Exit, ContextSwitch;
    Facts(k, base);
    IsSchedulable(World(k));
    CurrentIsNotFrozen(World(k));
    W.ExitStates(k.ipc.sched, slot);
  }

  /** The event neither exits nor sets up the process. */
  ghost predicate LetsRest(e: Event, p: nat) {
    e != K.Exit(p) && !(e.Process? && e.event.Prepare? && e.event.p == p)
  }

  lemma ZombieStays(k: Kernel, base: set<nat>, e: Event, k': Kernel, p: nat)
    requires K.Inv(k, base) && K.Step(k, e, k') && Zombie(k, p) && LetsRest(e, p)
    ensures Zombie(k', p) && k'.procs[p] == k.procs[p]
  {
    hide K.Step, PS.Coexist, IS.Inv, W.Inv, IS.Shape, IsWorldStep, W.Possible, W.After, Retired;
    Facts(k, base);
    if e.Exit? {
      ExitKeepsZombie(k, base, e.slot, k', p);
    } else if event :| IsWorldStep(k, e, event) {
      WorldStep(k, e, event, k');
      WorldStepIs(k, e, event);
      WorldStepKeepsRetired(World(k), event, p);
    } else {
      OtherEvent(k, base, e, k');
      OtherEventKeepsRetired(k, base, e, k', p);
    }
  }

  lemma WorldStepKeepsRetired(w: W.World<nat>, event: W.Event<nat>, p: nat)
    requires W.Inv(w) && W.Possible(w, event) && Retired(w.sched, p) && p !in w.frozen
    requires !(event.Prepare? && event.p == p)
    ensures Retired(W.After(w, event).sched, p) && p !in W.After(w, event).frozen
  {
    hide W.Inv, W.After, Next, W.Schedulable;
    IsSchedulable(w);
    W.NotFrozenStays(w, event, p);
    W.SchedulerAfter(w, event);
    if event.Kernel? {
      NextKeepsRetired(w.sched, event.step, p);
    }
  }

  lemma ExitKeepsZombie(k: Kernel, base: set<nat>, slot: nat, k': Kernel, p: nat)
    requires K.Inv(k, base) && K.Step(k, K.Exit(slot), k') && Zombie(k, p) && slot != p
    ensures Zombie(k', p) && k'.procs[p] == k.procs[p]
  {
    hide PS.Coexist, IS.Inv, W.Inv, PS.Owned, SchedulerSpec.Exit, ContextSwitch, W.Schedulable, Retired, IS.Shape;
    hide WellFormed;
    Facts(k, base);
    IsSchedulable(World(k));
    ExitKeepsRetired(k.ipc.sched, slot, p);
  }

  lemma ExitKeepsRetired(s: Sched<nat>, slot: nat, p: nat)
    requires W.Schedulable(s) && slot in s.state && slot != p && Retired(s, p)
    ensures WellFormed(s) && Retired(SchedulerSpec.Exit(s, slot), p)
    ensures Retired(W.Gone(SchedulerSpec.Exit(s, slot), slot), p)
  {
    hide W.Schedulable, SchedulerSpec.Exit;
    W.ExitStates(s, slot);
  }

  lemma OtherEventKeepsRetired(k: Kernel, base: set<nat>, e: Event, k': Kernel, p: nat)
    requires K.Inv(k, base) && K.Step(k, e, k') && !e.Exit? && IS.Shape(k.ipc) && Zombie(k, p)
    requires forall event :: !IsWorldStep(k, e, event)
    ensures Retired(k'.ipc.sched, p)
  {
    hide PS.Coexist, IS.Inv, W.Inv, W.Possible, W.After, Blocks, IS.Next, PS.Succeeds, Stage, MapPage, IS.Legal;
    match e
    case Create(_) =>
    case Map(_, _, _, _) =>
    case Process(event) =>
      assert !IsWorldStep(k, e, event);
      NextKeepsRetired(k.ipc.sched, event.step, p);
    case Message(step) =>
      assert !IsWorldStep(k, e, W.Kernel(BlockStep));
      MessageKeepsRetired(k.ipc, step, p);
  }

  lemma MessageKeepsRetired(w: IS.Ipc<nat>, step: IS.IpcStep<nat>, p: nat)
    requires IS.Shape(w) && IS.Legal(w, step) && (step.SendStep? || step.ReceiveStep? || step.ClearStep?)
    requires !Blocks(w, step) && Retired(w.sched, p)
    ensures Retired(IS.Next(w, step).sched, p)
  {
    hide IS.Send, FirstMatch, Block, FindProcess;
    if step.SendStep? {
      IS.SendKeepsOrWakes(w, step.receiver, step.msg);
    }
  }

  /** From then on it stays like that, whatever else happens, until its exit is asked for again: its pages
      stay in use, and its identifier is not given to another. */
  lemma {:induction false} ZombieStaysThroughout(run: seq<Kernel>, events: seq<Event>, base: set<nat>, p: nat)
    requires |run| == |events| + 1 && K.Inv(run[0], base) && IsRun(run, events, base) && AllHarmless(run, events)
    requires Zombie(run[0], p) && forall i :: 0 <= i < |events| ==> LetsRest(events[i], p)
    ensures var k := run[|events|];
      && Zombie(k, p) && k.procs[p] == run[0].procs[p]
      && Sized(k.phys.mem) && k.procs[p].pd < PHYS_PAGES && PS.Owned(k.phys.mem, k.procs[p]) <= k.phys.used
      && (forall i :: i in k.procs && i != p ==> k.procs[i].pid != k.procs[p].pid)
    decreases |events|
  {
    hide K.Inv, K.Step, Harmless, LetsRest, Zombie, PS.Owned;
    if events == [] {
      OwnsItsPages(run[0], base, p);
    } else {
      assert Harmless(run[0], events[0]) && LetsRest(events[0], p);
      StepKeepsInvIff(run[0], base, events[0], run[1]);
      ZombieStays(run[0], base, events[0], run[1], p);
      LaterEvents(run, events);
      ZombieStaysThroughout(run[1..], events[1..], base, p);
    }
  }

  lemma OwnsItsPages(k: Kernel, base: set<nat>, p: nat)
    requires K.Inv(k, base) && Zombie(k, p)
    ensures p in k.procs && Sized(k.phys.mem) && k.procs[p].pd < PHYS_PAGES
    ensures PS.Owned(k.phys.mem, k.procs[p]) <= k.phys.used
    ensures forall i :: i in k.procs && i != p ==> k.procs[i].pid != k.procs[p].pid
  {
    hide IS.Inv, W.Inv, PS.Lives, PS.Owned;
    PS.OwnedIsUsed(k.phys, k.procs[p]);
  }

  // ----- the messages of a process that is gone

  /** The event sends to, receives from or clears the mailbox. */
  ghost predicate Concerns(k: Kernel, e: Event, r: nat) {
    e.Message? && match e.step
                  case SendStep(to, _) => to == r
                  case ReceiveStep(_, _) =>
                    var c := k.ipc.sched.current; c.Some? && c.value in k.ipc.sched.pid && k.ipc.sched.pid[c.value] == r
                  case ClearStep(pid) => pid == r
                  case _ => false
  }

  lemma MailboxStays(k: Kernel, base: set<nat>, e: Event, k': Kernel, r: nat)
    requires K.Inv(k, base) && K.Step(k, e, k') && !Concerns(k, e, r) && r < MAX_PROCESSES
    ensures |k.ipc.boxes| == |k'.ipc.boxes| == MAX_PROCESSES && k'.ipc.boxes[r] == k.ipc.boxes[r]
  {
    hide PS.Coexist, IS.Inv, W.Inv, W.Possible, W.After, PS.Succeeds, Stage, MapPage, PS.Owned, SchedulerSpec.Exit;
    hide ContextSwitch, Blocks, IS.Next, PS.Doomed, PS.Made, IS.Legal;
    Facts(k, base);
    if e.Message? && !Blocks(k.ipc, e.step) {
      OtherMailboxStays(k.ipc, e.step, r);
    }
  }

  lemma OtherMailboxStays(w: IS.Ipc<nat>, step: IS.IpcStep<nat>, r: nat)
    requires IS.Shape(w) && IS.Legal(w, step) && (step.SendStep? || step.ReceiveStep? || step.ClearStep?)
    requires step.SendStep? ==> step.receiver != r
    requires step.ReceiveStep? && w.sched.current.Some? ==> w.sched.pid[w.sched.current.value] != r
    requires step.ClearStep? ==> step.pid != r
    requires r < MAX_PROCESSES
    ensures |IS.Next(w, step).boxes| == MAX_PROCESSES && IS.Next(w, step).boxes[r] == w.boxes[r]
  {
    hide FirstMatch, Block, FindProcess, IS.WakeUp, Find;
  }

  lemma {:induction false} MailboxStaysThroughout(run: seq<Kernel>, events: seq<Event>, base: set<nat>, r: nat)
    requires |run| == |events| + 1 && K.Inv(run[0], base) && IsRun(run, events, base) && AllHarmless(run, events)
    requires r < MAX_PROCESSES && forall i :: 0 <= i < |events| ==> !Concerns(run[i], events[i], r)
    ensures |run[0].ipc.boxes| == |run[|events|].ipc.boxes| == MAX_PROCESSES
    ensures run[|events|].ipc.boxes[r] == run[0].ipc.boxes[r]
    decreases |events|
  {
    hide K.Inv, K.Step, Harmless, Concerns;
    Facts(run[0], base);
    if events != [] {
      assert Harmless(run[0], events[0]) && !Concerns(run[0], events[0], r);
      StepKeepsInvIff(run[0], base, events[0], run[1]);
      MailboxStays(run[0], base, events[0], run[1], r);
      LaterEvents(run, events);
      MailboxStaysThroughout(run[1..], events[1..], base, r);
    }
  }

  /** No exit and no creation empties a mailbox: a process created later under the identifier, once it is
      current, receives the message that was sent to its predecessor. */
  lemma SuccessorGetsMessages(run: seq<Kernel>, events: seq<Event>, base: set<nat>, slot: nat, r: nat, block: bool)
    requires |run| == |events| + 1 && K.Inv(run[0], base) && IsRun(run, events, base) && AllHarmless(run, events)
    requires r < MAX_PROCESSES && forall i :: 0 <= i < |events| ==> !Concerns(run[i], events[i], r)
    requires slot !in run[0].procs && slot in run[|events|].procs && run[|events|].procs[slot].pid == r
    requires run[|events|].ipc.sched.current == Some(slot)
    requires r < |run[0].ipc.boxes| && run[0].ipc.boxes[r].queue != []
    ensures IS.Shape(run[|events|].ipc)
    ensures IS.ReceiveMsg(run[|events|].ipc, 0, block).2 == Some(run[0].ipc.boxes[r].queue[0])
  {
    hide K.Step, PS.Coexist, IS.Inv, W.Inv, IsRun, Harmless, Concerns;
    EveryRunKeepsInvIff(run, events, base);
    MailboxStaysThroughout(run, events, base, r);
    Facts(run[|events|], base);
  }

  // ----- one memory

  /** Kernel stacks and page tables are in the same physical memory. Whatever writes page tables writes no
      page of a process's stacks: */
  lemma StackPagesKept(k: Kernel, base: set<nat>, e: Event, k': Kernel, i: nat, f: nat)
    requires K.Inv(k, base) && K.Step(k, e, k') && Harmless(k, e) && i in k.procs && e != K.Exit(i)
    requires f in Pages(k.procs[i].kernelStack, 2) + Stack(k.procs[i].userStack, 4)
    ensures i in k'.procs && k'.procs[i] == k.procs[i]
    ensures f < PHYS_PAGES && Sized(k.phys.mem) && Sized(k'.phys.mem) && k'.phys.mem[f] == k.phys.mem[f]
  {
    hide PS.Coexist, IS.Inv, W.Inv, W.Possible, W.After, PS.Succeeds, Stage, MapPage, PS.Mapworthy, SchedulerSpec.Exit;
    hide ContextSwitch, Blocks, IS.Next, PS.Doomed, IS.Legal, PS.Owned, Tame, Relinks, IS.SendRelinks, Pages;
    Facts(k, base);
    StackIsUsed(k.phys, base + k.ipc.held, k.procs, i, f);
    match e
    case Create(isUser) => CreateKeepsPage(k, base, isUser, k', f);
    case Map(slot, v, frame, flags) =>
      PS.DirectoryIsTame(k.phys, base + k.ipc.held, k.procs, slot);
      PS.MapWritesNoStack(k.phys, base + k.ipc.held, k.procs, slot, v, frame, flags, i, f);
    case _ =>
  }

  /** So they hold what they held along every run up to the exit of the process. */
  lemma {:induction false} StackPagesKeptThroughout(run: seq<Kernel>, events: seq<Event>, base: set<nat>, i: nat,
    f: nat)
    requires |run| == |events| + 1 && K.Inv(run[0], base) && IsRun(run, events, base) && AllHarmless(run, events)
    requires i in run[0].procs && forall n :: 0 <= n < |events| ==> events[n] != K.Exit(i)
    requires f in Pages(run[0].procs[i].kernelStack, 2) + Stack(run[0].procs[i].userStack, 4)
    ensures var k := run[|events|];
      && i in k.procs && k.procs[i] == run[0].procs[i] && f < PHYS_PAGES
      && Sized(run[0].phys.mem) && Sized(k.phys.mem) && k.phys.mem[f] == run[0].phys.mem[f]
    decreases |events|
  {
    hide K.Inv, K.Step, Harmless, Pages;
    if events == [] {
      StackOfProcess(run[0], base, i, f);
    } else {
      assert Harmless(run[0], events[0]) && events[0] != K.Exit(i);
      StepKeepsInvIff(run[0], base, events[0], run[1]);
      StackPagesKept(run[0], base, events[0], run[1], i, f);
      LaterEvents(run, events);
      StackPagesKeptThroughout(run[1..], events[1..], base, i, f);
    }
  }

  lemma StackOfProcess(k: Kernel, base: set<nat>, i: nat, f: nat)
    requires K.Inv(k, base) && i in k.procs
    requires f in Pages(k.procs[i].kernelStack, 2) + Stack(k.procs[i].userStack, 4)
    ensures f < PHYS_PAGES && Sized(k.phys.mem)
  {
    hide PS.Coexist, IS.Inv, W.Inv, Pages;
    StackIsUsed(k.phys, base + k.ipc.held, k.procs, i, f);
  }

  lemma StackIsUsed(s: Phys, base: set<nat>, procs: map<nat, PS.Process>, i: nat, f: nat)
    requires PS.Coexist(s, base, procs) && i in procs
    requires f in Pages(procs[i].kernelStack, 2) + Stack(procs[i].userStack, 4)
    ensures f in s.used && f < PHYS_PAGES && Sized(s.mem) && base <= s.used
  {
    hide PS.Lives, Frames, Pages;
    PS.OwnedIsUsed(s, procs[i]);
  }

  lemma CreateKeepsPage(k: Kernel, base: set<nat>, isUser: bool, k': Kernel, f: nat)
    requires K.Inv(k, base) && K.Step(k, Create(isUser), k') && !PS.Doomed(Table(k))
    requires f in k.phys.used && f < PHYS_PAGES
    ensures Sized(k.phys.mem) && Sized(k'.phys.mem) && k'.phys.mem[f] == k.phys.mem[f]
  {
    hide PS.Coexist, IS.Inv, W.Inv, PS.Succeeds, Stage, PS.Doomed, PS.AllPidsUsed, PS.Owned;
    Facts(k, base);
    BaseIsUsed(k.phys, base + k.ipc.held, k.procs);
    if PS.Succeeds(Table(k), isUser) {
      var slot, p :| PS.Made(Table(k), slot, p, Table(k')) && p.userStack.Some? == isUser
                     && k' == WithProcess(k, Table(k'), slot, p.pid);
      PS.NewProcessLives(k.phys, k'.phys, p);
      CoexistIsSized(k.phys, base + k.ipc.held, k.procs);
    }
  }

  lemma CoexistIsSized(s: Phys, base: set<nat>, procs: map<nat, PS.Process>)
    requires PS.Coexist(s, base, procs)
    ensures Sized(s.mem)
  {
    hide PS.Lives, PS.Owned;
  }

  /** And, computation apart, whatever writes stacks writes no page table, no message and no page of the
      start. */
  lemma StackWritesStayOnStacks(k: Kernel, base: set<nat>, e: Event, k': Kernel, a: nat)
    requires K.Inv(k, base) && K.Step(k, e, k') && !(e.Process? && e.event.Compute?)
    requires Read(k'.cpu.mem, a) != Read(k.cpu.mem, a)
    ensures exists i :: i in k.procs && a / PAGE_SIZE in Pages(k.procs[i].kernelStack, 2)
    ensures a / PAGE_SIZE !in base && a / PAGE_SIZE !in k.ipc.held
    ensures Sized(k.phys.mem)
    ensures forall j :: j in k.procs ==>
      k.procs[j].pd < PHYS_PAGES && a / PAGE_SIZE !in Frames(k.phys.mem, k.procs[j].pd)
  {
    hide K.Step, PS.Coexist, IS.Inv, W.Inv, IS.Shape, IsWorldStep, W.Possible, W.After, Read, Pages, Frames;
    Facts(k, base);
    if e.Exit? {
      ExitWritesNothing(k, e.slot, k');
    } else if event :| IsWorldStep(k, e, event) {
      WorldStep(k, e, event, k');
      ComputeIsProcess(k, e, event);
      W.WritesOnStacks(World(k), event, a);
      var i :| i in PS.Stacks(k.procs) && W.InStack(PS.Stacks(k.procs), i, a);
      PageOnStack(a, k.procs[i].kernelStack);
      StackPageIsApart(k.phys, base + k.ipc.held, k.procs, i, a / PAGE_SIZE);
    } else {
      OtherEvent(k, base, e, k');
    }
  }

  lemma PageOnStack(a: nat, stack: nat)
    requires stack * PAGE_SIZE <= a < stack * PAGE_SIZE + KERNEL_STACK_SIZE
    ensures a / PAGE_SIZE in Pages(stack, 2)
  {
  }

  lemma ComputeIsProcess(k: Kernel, e: Event, event: W.Event<nat>)
    requires IS.Shape(k.ipc) && IsWorldStep(k, e, event) && !(e.Process? && e.event.Compute?)
    ensures !event.Compute?
  {
    hide IS.Shape, Blocks;
  }

  lemma ExitWritesNothing(k: Kernel, slot: nat, k': Kernel)
    requires IS.Inv(k.ipc) && W.Inv(World(k)) && K.Step(k, K.Exit(slot), k')
    ensures k'.cpu.mem == k.cpu.mem
  {
    hide IS.Inv, W.Inv, PS.Owned, SchedulerSpec.Exit, ContextSwitch;
    forall sp: int ensures ContextSwitch(k.cpu, false, sp).mem == k.cpu.mem {
      RestoreKeepsMemory(k.cpu, sp);
    }
  }

  lemma StackPageIsApart(s: Phys, base: set<nat>, procs: map<nat, PS.Process>, i: nat, f: nat)
    requires PS.Coexist(s, base, procs) && i in procs && f in Pages(procs[i].kernelStack, 2)
    ensures Sized(s.mem) && f !in base
    ensures forall j :: j in procs ==> procs[j].pd < PHYS_PAGES && f !in Frames(s.mem, procs[j].pd)
  {
    hide PS.Lives, Frames, Pages;
    forall j | j in procs ensures f !in Frames(s.mem, procs[j].pd) {
      PS.LivesInParts(s, procs[j]);
      assert f in PS.Owned(s.mem, procs[i]) && Frames(s.mem, procs[j].pd) <= PS.Owned(s.mem, procs[j]);
    }
    assert f in PS.Owned(s.mem, procs[i]);
  }

  // ----- a send that links a process twice

  lemma BlockBehindOne(s: Sched<nat>, p: nat, q: nat)
    requires W.Schedulable(s) && s.current == Some(p) && s.queue == [q, p]
    ensures WellFormed(s) && Block(s).current == Some(q) && Block(s).pid == s.pid && Block(s).queue == [p]
    ensures p in s.state && q in s.state && p != q && Block(s).state[p] == Blocked
  {
    assert s.queue[1..] == [p] && s.queue[0] == q && s.queue[1] == p;
  }

  lemma ReceiveBlocks(k: Kernel, base: set<nat>, receive: IS.IpcStep<nat>, k1: Kernel)
    requires K.Inv(k, base) && K.Step(k, Message(receive), k1) && IS.Shape(k.ipc) && Blocks(k.ipc, receive)
    ensures Harmless(k, Message(receive)) && K.Inv(k1, base)
    ensures k1.procs == k.procs && k1.phys == k.phys
    ensures WellFormed(k.ipc.sched) && k1.ipc == k.ipc.(sched := Block(k.ipc.sched))
  {
    hide K.Inv, K.Step, IS.SendRelinks, Block, W.Possible, W.After, Blocks, IS.Shape, IS.Inv, W.Inv;
    OnlyReceivesBlock(k.ipc, receive);
    StepKeepsInvIff(k, base, Message(receive), k1);
    InvParts(k, base);
    assert IsWorldStep(k, Message(receive), W.Kernel(BlockStep));
    WorldStep(k, Message(receive), W.Kernel(BlockStep), k1);
    W.SchedulerAfter(World(k), W.Kernel(BlockStep));
  }

  lemma OnlyReceivesBlock(w: IS.Ipc<nat>, step: IS.IpcStep<nat>)
    requires IS.Shape(w) && Blocks(w, step)
    ensures step.ReceiveStep?
  {
  }

  lemma InvParts(k: Kernel, base: set<nat>)
    requires K.Inv(k, base)
    ensures IS.Inv(k.ipc) && W.Inv(World(k)) && k.ipc.used == k.phys.used && 0 in k.phys.used
    ensures forall i :: i in k.procs ==> i in k.ipc.sched.pid && k.ipc.sched.pid[i] == k.procs[i].pid
    ensures forall i, j :: i in k.procs && j in k.procs && i != j ==> k.procs[i].pid != k.procs[j].pid
  {
    hide IS.Inv, W.Inv, PS.Lives, PS.Owned;
  }

  lemma SendLinksTwice(k: Kernel, base: set<nat>, p: nat, q: nat, r: nat, msg: IS.UserMsg)
    requires K.Inv(k, base) && k.ipc.sched.current == Some(q) && k.ipc.sched.queue == [p]
    requires p in k.procs && q in k.procs && p != q && k.procs[p].pid == r
    requires p in k.ipc.sched.state && k.ipc.sched.state[p] == Blocked
    requires |msg.data| <= IS.MAX_DATA && Find(k.phys.used, PHYS_PAGES, 1).Some?
    ensures var send := IS.SendStep(r, Some(msg));
      && IS.Shape(k.ipc) && IS.Legal(k.ipc, send) && IS.Send(k.ipc, r, send.msg).1 == IS.Success
      && !Harmless(k, Message(send))
      && exists k2 :: K.Step(k, Message(send), k2) && k2.ipc.sched.queue == [p, p] && !K.Inv(k2, base)
  {
    hide K.Inv, K.Step, IS.Inv, W.Inv, IS.Send, Find, IS.WakeUp, IS.WakeRelinks, FindProcess, IS.Next;
    var send := IS.SendStep(r, Some(msg));
    Facts(k, base);
    InvParts(k, base);
    FoundIsNonNull(k.ipc.used, PHYS_PAGES, 1);
    FindsQueued(k.ipc.sched, p, q, r);
    IS.SendSucceeds(k.ipc, r, msg);
    IS.SendKeepsOrWakes(k.ipc, r, Some(msg));
    WakesIt(k.ipc.sched, p, r);
    NextOfSend(k.ipc, send);
    var w := IS.Next(k.ipc, send);
    var k2 := k.(ipc := w, phys := k.phys.(used := w.used));
    SendIsEvent(k, send, k2);
    StepKeepsInvIff(k, base, Message(send), k2);
  }

  lemma SendIsEvent(k: Kernel, send: IS.IpcStep<nat>, k': Kernel)
    requires IS.Inv(k.ipc) && W.Inv(World(k)) && IS.Shape(k.ipc) && send.SendStep? && IS.Legal(k.ipc, send)
    requires var w := IS.Next(k.ipc, send); k' == k.(ipc := w, phys := k.phys.(used := w.used))
    ensures K.Step(k, Message(send), k')
  {
    hide IS.Inv, W.Inv, IS.Next, IS.Legal, Blocks, W.Possible, W.After;
    SendDoesNotBlock(k.ipc, send);
  }

  lemma FindsQueued(s: Sched<nat>, p: nat, q: nat, r: nat)
    requires WellFormed(s) && s.current == Some(q) && s.queue == [p] && q in s.pid && p in s.pid
    requires s.pid[p] == r && s.pid[q] != r
    ensures FindProcess(s, r) == Some(p)
  {
  }

  lemma WakesIt(s: Sched<nat>, p: nat, r: nat)
    requires WellFormed(s) && s.queue == [p] && p in s.state && s.state[p] == Blocked && FindProcess(s, r) == Some(p)
    ensures IS.WakeRelinks(s, r) && IS.WakeUp(s, r).queue == [p, p]
  {
    hide FindProcess;
  }

  /** A process that is current and queued behind another one waits for a message; everything is in order. The
      other one sends it a message, and the process is in the queue twice. */
  lemma SendToQueuedReceiver(k: Kernel, base: set<nat>, p: nat, q: nat, receive: IS.IpcStep<nat>, k1: Kernel,
    msg: IS.UserMsg)
    requires K.Inv(k, base) && k.ipc.sched.current == Some(p) && k.ipc.sched.queue == [q, p] && p in k.procs
    requires K.Step(k, Message(receive), k1) && IS.Shape(k.ipc) && Blocks(k.ipc, receive)
    requires |msg.data| <= IS.MAX_DATA && Find(k.phys.used, PHYS_PAGES, 1).Some?
    ensures Harmless(k, Message(receive)) && K.Inv(k1, base)
    ensures var send := IS.SendStep(k.procs[p].pid, Some(msg));
      && IS.Shape(k1.ipc) && k1.ipc.sched.current == Some(q) && IS.Legal(k1.ipc, send)
      && IS.Send(k1.ipc, send.receiver, send.msg).1 == IS.Success && !Harmless(k1, Message(send))
      && exists k2 :: K.Step(k1, Message(send), k2) && k2.ipc.sched.queue == [p, p] && !K.Inv(k2, base)
  {
    hide K.Inv, K.Step, Harmless, IS.Legal, IS.Send, Block, W.Schedulable, IS.Inv, W.Inv, Blocks, Find;
    ReceiveBlocks(k, base, receive, k1);
    InvParts(k, base);
    IsSchedulable(World(k));
    BlockBehindOne(k.ipc.sched, p, q);
    Facts(k, base);
    SendLinksTwice(k1, base, p, q, k.procs[p].pid, msg);
  }
}
