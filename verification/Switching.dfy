/** The scheduler and the processor together: every process that is switched away from is resumed
    with the context and the stack it had, over every run. */
module Switching {
  import opened Common
  import opened SchedulerSpec
  import opened StackMachine

  /** What a process off the CPU must find again: its context, and memory as it was. */
  datatype Image = Image(context: Context, mem: Memory)

  /** `saved` is the stack pointer kept in each process control block and `stack` the base of each
      kernel stack. `frozen` is history: the image of every process that is ready to be switched to. */
  datatype World<!P(==)> = World(
    sched: Sched<P>,
    cpu: Machine,
    saved: map<P, int>,
    stack: map<P, int>,
    frozen: map<P, Image>)

  predicate InStack<P(==)>(stack: map<P, int>, p: P, a: int)
    requires p in stack
  {
    stack[p] <= a < stack[p] + KERNEL_STACK_SIZE
  }

  /** Kernel stacks are runs of whole pages that the allocator keeps apart. */
  ghost predicate DisjointStacks<P>(stack: map<P, int>) {
    forall p, q :: p in stack && q in stack && p != q ==>
      stack[p] + KERNEL_STACK_SIZE <= stack[q] || stack[q] + KERNEL_STACK_SIZE <= stack[p]
  }

  // ----- the scheduler's part

  /** Queued processes are Ready, or Blocked if they blocked while queued. */
  ghost predicate Queueable<P>(s: Sched<P>) {
    Loose(s) && forall i :: 0 <= i < |s.queue| ==> s.state[s.queue[i]] in {Ready, Blocked}
  }

  /** One that is current at the same time is Ready. */
  ghost predicate Schedulable<P>(s: Sched<P>) {
    Queueable(s) && (s.current.Some? && s.current.value in s.queue ==> s.state[s.current.value] == Ready)
  }

  lemma SchedulableIsWellFormed<P>(s: Sched<P>)
    requires Schedulable(s)
    ensures WellFormed(s)
  {
  }

  lemma YieldKeepsSchedulable<P>(s: Sched<P>)
    requires Queueable(s)
    ensures Schedulable(Yield(s))
  {
    YieldKeepsLoose(s);
    if s.queue != [] {
      var r := Requeue(s);
      assert forall i :: 0 <= i < |r.queue| ==> r.state[r.queue[i]] in {Ready, Blocked};
      assert r.queue[1..] == Yield(s).queue && NoDuplicates(r.queue);
    }
  }

  lemma RemoveKeepsSchedulable<P>(s: Sched<P>, p: P)
    requires Schedulable(s) && p in s.state
    ensures Schedulable(Remove(s, p))
  {
    hide Yield, Without, NoDuplicates;
    WithoutKeepsOthers(s.queue, p);
    WithoutOnlyDrops(s.queue, p);
    var s' := Unlink(s, p);
    assert Queueable(s');
    if s'.current == Some(p) {
      YieldKeepsSchedulable(s'.(current := None, state := s'.state[p := Terminated]));
    }
  }

  lemma NextKeepsSchedulable<P>(s: Sched<P>, step: Step<P>)
    requires Schedulable(s) && Known(step, s.state.Keys) && !Relinks(s, step)
    ensures Schedulable(Next(s, step))
  {
    hide Yield, Remove, Add, Unblock, NoDuplicates;
    NextKeepsLoose(s, step);
    match step
    case AddStep(p) => EnqueueKeepsSchedulable(s, p);
    case RemoveStep(p) => RemoveKeepsSchedulable(s, p);
    case TickStep =>
      var s' := s.(ticks := Increment(s.ticks));
      YieldKeepsSchedulable(if s.current.None? then s' else Charge(s', s.current.value));
    case YieldStep => YieldKeepsSchedulable(s);
    case BlockStep =>
      if s.current.Some? {
        YieldKeepsSchedulable(s.(state := s.state[s.current.value := Blocked]));
      }
    case UnblockStep(p) => EnqueueKeepsSchedulable(s, p);
  }

  lemma EnqueueKeepsSchedulable<P>(s: Sched<P>, p: P)
    requires Schedulable(s) && p in s.state
    ensures !Relinks(s, AddStep(p)) ==> Schedulable(Add(s, p))
    ensures !Relinks(s, UnblockStep(p)) ==> Schedulable(Unblock(s, p))
  {
    hide Loose;
    SchedulableIsWellFormed(s);
    EnqueueKeepsLoose(s, p);
    if p !in s.queue {
      AppendKeepsSchedulable(s, p);
    }
  }

  lemma AppendKeepsSchedulable<P>(s: Sched<P>, p: P)
    requires Schedulable(s) && p in s.state && p !in s.queue
    ensures Schedulable(Enqueue(s, p).(state := s.state[p := Ready]))
  {
    hide Loose;
    SchedulableIsWellFormed(s);
    AppendKeepsLoose(s, p);
  }

  // ----- steps

  datatype Event<P> =
    | Kernel(step: Step<P>)
    | Compute(cpu: Machine)
    | Prepare(p: P, mem: Memory, sp: int, entry: int, user: bool, userStack: int, handler: int)

  /** Which process, if any, is current when `scheduler_switch_to` runs: a removed process is not. */
  function Origin<P(==)>(s: Sched<P>, step: Step<P>): Option<P> {
    if step.RemoveStep? && s.current == Some(step.p) then None else s.current
  }

  /** The process that the step switches to, if it switches. */
  function Target<P>(s: Sched<P>, step: Step<P>): Option<P>
    requires WellFormed(s) && Known(step, s.state.Keys)
  {
    if Next(s, step).current == Origin(s, step) then None else Next(s, step).current
  }

  /** The caller of the switch routine stands on its own stack, with room for the saved registers. */
  predicate OnOwnStack<P(==)>(w: World<P>, p: P)
    requires p in w.stack
  {
    w.stack[p] <= w.cpu.esp - 20 && w.cpu.esp + 4 <= w.stack[p] + KERNEL_STACK_SIZE
  }

  /** No process's stack but the current one's differs between the two memories. */
  ghost predicate OthersUntouched<P>(w: World<P>, mem: Memory) {
    forall p, a :: p in w.stack && w.sched.current != Some(p) && InStack(w.stack, p, a) ==>
      Read(mem, a) == Read(w.cpu.mem, a)
  }

  ghost predicate Possible<P>(w: World<P>, e: Event<P>)
    requires WellFormed(w.sched) && w.sched.state.Keys == w.stack.Keys
  {
    match e
    case Kernel(step) =>
      && Known(step, w.sched.state.Keys)
      && !Relinks(w.sched, step)
      && (step.AddStep? ==> step.p in w.frozen || w.sched.current == Some(step.p))
      && (Target(w.sched, step).Some? && Origin(w.sched, step).Some? ==> OnOwnStack(w, Origin(w.sched, step).value))
    case Compute(cpu) => OthersUntouched(w, cpu.mem)
    case Prepare(p, mem, sp, entry, user, userStack, handler) =>
      && p in w.stack && w.sched.current != Some(p)
      && SetUp(w.cpu.mem, mem, sp, w.stack[p], entry, user, userStack, handler)
  }

  /** `context_switch_asm(from, to)`. */
  function Switch<P>(w: World<P>, from: Option<P>, to: P): World<P>
    requires to in w.saved
  {
    var w' := if from.None? then w
              else w.(saved := w.saved[from.value := w.cpu.esp - 20],
                      frozen := w.frozen[from.value := Image(ReturnContext(w.cpu), w.cpu.mem)]);
    w'.(cpu := ContextSwitch(w.cpu, from.Some?, w.saved[to]), frozen := w'.frozen - {to})
  }

  /** A process waiting off the CPU. */
  predicate Waits<P(==)>(s: Sched<P>, p: P)
    requires p in s.state
  {
    s.current != Some(p) && s.state[p] in {Ready, Blocked}
  }

  ghost predicate Inv<P>(w: World<P>) {
    && Schedulable(w.sched)
    && w.sched.state.Keys == w.stack.Keys
    && DisjointStacks(w.stack)
    && w.frozen.Keys <= w.saved.Keys && w.frozen.Keys <= w.stack.Keys
    && (forall p :: p in w.frozen ==> Intact(w, p))
    && (w.sched.current.Some? ==> w.sched.current.value !in w.frozen)
    && (forall p :: p in w.sched.state && Waits(w.sched, p) ==> p in w.frozen)
  }

  /** A frozen process still has its frame and every word of its stack above it. */
  ghost predicate Intact<P>(w: World<P>, p: P)
    requires p in w.frozen && p in w.saved && p in w.stack
  {
    var image := w.frozen[p];
    && FrameAt(w.cpu.mem, w.saved[p], image.context)
    && w.stack[p] <= w.saved[p]
    && image.context.esp <= w.stack[p] + KERNEL_STACK_SIZE
    && SameAbove(w.stack[p], w.cpu.mem, image)
  }

  /** The stack at `base` holds, from the image's stack pointer up, what it held then. */
  ghost predicate SameAbove(base: int, mem: Memory, image: Image) {
    forall a :: image.context.esp <= a < base + KERNEL_STACK_SIZE ==> Read(mem, a) == Read(image.mem, a)
  }

  function After<P>(w: World<P>, e: Event<P>): World<P>
    requires Inv(w) && Possible(w, e)
  {
    match e
    case Kernel(step) =>
      var w' := w.(sched := Next(w.sched, step));
      var to := Target(w.sched, step);
      if to.None? then w'
      else
        TargetIsFrozen(w, step);
        Switch(w', Origin(w.sched, step), to.value)
    case Compute(cpu) => w.(cpu := cpu)
    case Prepare(p, mem, sp, entry, user, _, handler) =>
      w.(cpu := w.cpu.(mem := mem), saved := w.saved[p := sp],
         frozen := w.frozen[p := Image(FirstContext(w.stack[p], entry, user, handler), mem)])
  }

  /** A switch always goes to a frozen process: whatever the scheduler picks was either prepared or
      switched away from. */
  lemma TargetIsFrozen<P>(w: World<P>, step: Step<P>)
    requires Inv(w) && Possible(w, Kernel(step)) && Target(w.sched, step).Some?
    ensures Target(w.sched, step).value in w.frozen
    ensures Origin(w.sched, step) != Target(w.sched, step)
  {
    var s := w.sched;
    DispatchedWasQueued(s, step);
  }

  /** Whoever becomes current was in the queue, and so was waiting. */
  lemma DispatchedWasQueued<P>(s: Sched<P>, step: Step<P>)
    requires Schedulable(s) && Known(step, s.state.Keys) && !Relinks(s, step)
    ensures var c := Next(s, step).current;
      c != Origin(s, step) ==> c.Some? && c.value in s.queue && Waits(s, c.value)
  {
    match step
    case RemoveStep(p) =>
      WithoutOnlyDrops(s.queue, p);
      WithoutKeepsOthers(s.queue, p);
      var s' := Unlink(s, p);
      if s.current == Some(p) && s'.queue != [] {
        assert s'.queue[0] in s.queue;
      }
    case _ => DispatchTakesHead(s, step);
  }

  // ----- one step

  /** Another process's stack is not written by a save on this one's. */
  lemma SaveStaysOnOwnStack<P>(w: World<P>, from: P, p: P, a: int)
    requires DisjointStacks(w.stack) && from in w.stack && p in w.stack && p != from
    requires OnOwnStack(w, from) && InStack(w.stack, p, a)
    ensures Read(Save(w.cpu).mem, a) == Read(w.cpu.mem, a)
  {
    SaveBuildsFrame(w.cpu);
  }

  /** What `Switch` needs: the target is intact, and the origin, if any, stands on its own stack. */
  ghost predicate CanSwitch<P>(w: World<P>, from: Option<P>, to: P) {
    && DisjointStacks(w.stack)
    && w.frozen.Keys <= w.saved.Keys && w.frozen.Keys <= w.stack.Keys
    && (forall p :: p in w.frozen ==> Intact(w, p))
    && to in w.frozen
    && (from.Some? ==> from.value in w.stack && from.value != to && OnOwnStack(w, from.value))
  }

  /** The frames of a stack that is not the origin's survive the save. */
  lemma SaveKeepsIntact<P>(w: World<P>, from: P, p: P)
    requires DisjointStacks(w.stack) && from in w.stack && OnOwnStack(w, from)
    requires p in w.frozen && p in w.saved && p in w.stack && p != from && Intact(w, p)
    ensures FrameAt(Save(w.cpu).mem, w.saved[p], w.frozen[p].context)
    ensures SameAbove(w.stack[p], Save(w.cpu).mem, w.frozen[p])
  {
    forall a | InStack(w.stack, p, a) ensures Read(Save(w.cpu).mem, a) == Read(w.cpu.mem, a) {
      SaveStaysOnOwnStack(w, from, p, a);
    }
    hide Save;
    var sp := w.saved[p];
    assert InStack(w.stack, p, sp) && InStack(w.stack, p, sp + 4) && InStack(w.stack, p, sp + 8);
    assert InStack(w.stack, p, sp + 12) && InStack(w.stack, p, sp + 16) && InStack(w.stack, p, sp + 20);
    assert forall a :: w.frozen[p].context.esp <= a < w.stack[p] + KERNEL_STACK_SIZE ==> InStack(w.stack, p, a);
  }

  /** A switch hands the processor to the target with its context, and its stack, as they were. */
  lemma SwitchResumes<P>(w: World<P>, from: Option<P>, to: P)
    requires CanSwitch(w, from, to)
    ensures ContextOf(Switch(w, from, to).cpu) == w.frozen[to].context
    ensures SameAbove(w.stack[to], Switch(w, from, to).cpu.mem, w.frozen[to])
    ensures Switch(w, from, to).cpu.mem == if from.Some? then Save(w.cpu).mem else w.cpu.mem
  {
    if from.Some? {
      SaveKeepsIntact(w, from.value, to);
    }
    hide Save, Restore, FrameAt, ContextOf;
    var m := if from.Some? then Save(w.cpu) else w.cpu;
    RestoreUsesFrame(m.(esp := w.saved[to]), w.frozen[to].context);
  }

  /** A switch freezes its origin with the context it is owed. */
  lemma SwitchFreezesOrigin<P>(w: World<P>, from: P, to: P)
    requires CanSwitch(w, Some(from), to)
    ensures var w' := Switch(w, Some(from), to);
      && from in w'.frozen && from in w'.saved && Intact(w', from)
      && w'.frozen[from] == Image(ReturnContext(w.cpu), w.cpu.mem)
  {
    hide Save, Restore, ContextSwitch, FrameAt;
    SwitchResumes(w, Some(from), to);
    SaveBuildsFrame(w.cpu);
  }

  /** A switch leaves every other frozen process intact. */
  lemma SwitchKeepsIntact<P>(w: World<P>, from: Option<P>, to: P, p: P)
    requires CanSwitch(w, from, to) && p in w.frozen && p != to && from != Some(p)
    ensures var w' := Switch(w, from, to);
      p in w'.frozen && p in w'.saved && Intact(w', p) && w'.frozen[p] == w.frozen[p]
  {
    hide Save, Restore, ContextSwitch, FrameAt, SameAbove;
    SwitchResumes(w, from, to);
    if from.Some? {
      SaveKeepsIntact(w, from.value, p);
    }
  }

  /** Every event keeps the invariant. */
  lemma AfterKeepsInv<P>(w: World<P>, e: Event<P>)
    requires Inv(w) && Possible(w, e)
    ensures Inv(After(w, e))
    ensures After(w, e).stack == w.stack
  {
    hide Inv, Next, ContextSwitch;
    match e
    case Kernel(step) => KernelKeepsInv(w, step);
    case Compute(cpu) => ComputeKeepsInv(w, cpu);
    case Prepare(p, _, _, _, _, _, _) => PrepareKeepsInv(w, e);
  }

  lemma UntouchedKeepsIntact<P>(w: World<P>, w': World<P>, p: P)
    requires p in w.frozen && p in w.saved && p in w.stack && Intact(w, p)
    requires p in w'.frozen && p in w'.saved && w'.stack == w.stack
    requires w'.frozen[p] == w.frozen[p] && w'.saved[p] == w.saved[p]
    requires forall a :: InStack(w.stack, p, a) ==> Read(w'.cpu.mem, a) == Read(w.cpu.mem, a)
    ensures Intact(w', p)
  {
    var sp := w.saved[p];
    assert InStack(w.stack, p, sp) && InStack(w.stack, p, sp + 4) && InStack(w.stack, p, sp + 8);
    assert InStack(w.stack, p, sp + 12) && InStack(w.stack, p, sp + 16) && InStack(w.stack, p, sp + 20);
    assert forall a :: w.frozen[p].context.esp <= a < w.stack[p] + KERNEL_STACK_SIZE ==> InStack(w.stack, p, a);
  }

  lemma ComputeKeepsInv<P>(w: World<P>, cpu: Machine)
    requires Inv(w) && Possible(w, Compute(cpu))
    ensures Inv(After(w, Compute(cpu)))
  {
    forall p | p in w.frozen ensures Intact(w.(cpu := cpu), p) {
      UntouchedKeepsIntact(w, w.(cpu := cpu), p);
    }
  }

  lemma PrepareKeepsInv<P>(w: World<P>, e: Event<P>)
    requires Inv(w) && e.Prepare? && Possible(w, e)
    ensures Inv(After(w, e))
  {
    var w' := After(w, e);
    forall p | p in w'.frozen ensures Intact(w', p) {
      if p != e.p {
        forall a | InStack(w.stack, p, a) ensures Read(w'.cpu.mem, a) == Read(w.cpu.mem, a) {}
        UntouchedKeepsIntact(w, w', p);
      }
    }
  }

  lemma CanSwitchToTarget<P>(w: World<P>, step: Step<P>)
    requires Inv(w) && Possible(w, Kernel(step)) && Target(w.sched, step).Some?
    ensures CanSwitch(w.(sched := Next(w.sched, step)), Origin(w.sched, step), Target(w.sched, step).value)
  {
    hide Next, Intact, DisjointStacks;
    TargetIsFrozen(w, step);
    var w1 := w.(sched := Next(w.sched, step));
    forall p | p in w1.frozen ensures Intact(w1, p) {
      SchedulerChangeKeepsIntact(w, w1.sched, p);
    }
  }

  lemma KernelKeepsInv<P>(w: World<P>, step: Step<P>)
    requires Inv(w) && Possible(w, Kernel(step))
    ensures Inv(After(w, Kernel(step)))
  {
    hide Next, Intact, DisjointStacks, ContextSwitch, Origin, Schedulable, Relinks, Known;
    SchedulableIsWellFormed(w.sched);
    var from, to := Origin(w.sched, step), Target(w.sched, step);
    var w1 := w.(sched := Next(w.sched, step));
    var w' := After(w, Kernel(step));
    NextKeepsSchedulable(w.sched, step);
    SchedulableIsWellFormed(Next(w.sched, step));
    WaitingIsFrozen(w, step);
    if to.None? {
      DispatchedWasQueued(w.sched, step);
      forall p | p in w1.frozen ensures Intact(w1, p) {
        SchedulerChangeKeepsIntact(w, w1.sched, p);
      }
    } else {
      CanSwitchToTarget(w, step);
      forall p | p in w'.frozen ensures p in w'.saved && p in w'.stack && Intact(w', p) {
        if from == Some(p) {
          SwitchFreezesOrigin(w1, p, to.value);
        } else {
          SwitchKeepsIntact(w1, from, to.value, p);
        }
      }
    }
  }

  lemma SchedulerChangeKeepsIntact<P>(w: World<P>, sched: Sched<P>, p: P)
    requires p in w.frozen && p in w.saved && p in w.stack && Intact(w, p)
    ensures Intact(w.(sched := sched), p)
  {
    UntouchedKeepsIntact(w, w.(sched := sched), p);
  }

  /** A process waits after a step only if it waited before, was added, or is switched away from. */
  lemma WaitingAfter<P>(s: Sched<P>, step: Step<P>, p: P)
    requires WellFormed(s) && Known(step, s.state.Keys) && p in s.state && Waits(Next(s, step), p)
    ensures Waits(s, p) || step == AddStep(p) || (Origin(s, step) == Some(p) && Next(s, step).current != Some(p))
  {
    hide SchedulerSpec.Yield, Without;
    if s.current == Some(p) {
      if step == RemoveStep(p) {
        var s' := Unlink(s, p);
        YieldStates(s'.(current := None, state := s'.state[p := Terminated]), p);
      }
    } else {
      match step
      case RemoveStep(q) =>
        var s' := Unlink(s, q);
        if s.current == Some(q) {
          YieldStates(s'.(current := None, state := s'.state[q := Terminated]), p);
        }
      case TickStep =>
        var s' := s.(ticks := Increment(s.ticks));
        YieldStates(if s.current.None? then s' else Charge(s', s.current.value), p);
      case YieldStep => YieldStates(s, p);
      case BlockStep =>
        if s.current.Some? {
          YieldStates(s.(state := s.state[s.current.value := Blocked]), p);
        }
      case _ =>
    }
  }

  /** A yield changes the state of no process but the old and the new current one. */
  lemma YieldStates<P>(s: Sched<P>, p: P)
    requires WellFormed(s) && p in s.state && s.current != Some(p)
    ensures Yield(s).current == Some(p) || Yield(s).state[p] == s.state[p]
  {
  }

  lemma WaitingIsFrozen<P>(w: World<P>, step: Step<P>)
    requires Inv(w) && Possible(w, Kernel(step))
    ensures var s' := Next(w.sched, step);
      && s'.state.Keys == w.sched.state.Keys
      && (forall p :: p in s'.state && Waits(s', p) ==>
            p in w.frozen || (Origin(w.sched, step) == Some(p) && s'.current != Some(p)))
      && (s'.current == Origin(w.sched, step) && s'.current.Some? ==> s'.current.value !in w.frozen)
  {
    hide Next, Intact, DisjointStacks;
    var s' := Next(w.sched, step);
    forall p | p in s'.state && Waits(s', p)
      ensures p in w.frozen || (Origin(w.sched, step) == Some(p) && s'.current != Some(p))
    {
      WaitingAfter(w.sched, step, p);
    }
  }

  /** What an event does to the scheduler is its scheduler step, if it has one. */
  lemma SchedulerAfter<P>(w: World<P>, e: Event<P>)
    requires Inv(w) && Possible(w, e)
    ensures WellFormed(w.sched) && (e.Kernel? ==> Known(e.step, w.sched.state.Keys))
    ensures After(w, e).stack == w.stack
    ensures After(w, e).sched == if e.Kernel? then Next(w.sched, e.step) else w.sched
  {
    hide Next, Intact, ContextSwitch, DisjointStacks, Schedulable, Waits;
    SchedulableIsWellFormed(w.sched);
  }

  /** Unblocking a process that is not queued is possible at any time, and switches to nobody. */
  lemma UnblockIsPossible<P>(w: World<P>, p: P)
    requires Inv(w) && p in w.sched.state && !Relinks(w.sched, UnblockStep(p))
    ensures Possible(w, Kernel(UnblockStep(p)))
    ensures After(w, Kernel(UnblockStep(p))) == w.(sched := Unblock(w.sched, p))
  {
    hide Intact, ContextSwitch, DisjointStacks, Schedulable, Relinks, Waits;
    SchedulableIsWellFormed(w.sched);
  }

  /** Nobody is frozen by an event but the process it switches away from or sets up. */
  lemma NotFrozenStays<P>(w: World<P>, e: Event<P>, p: P)
    requires Inv(w) && Possible(w, e) && p !in w.frozen && w.sched.current != Some(p)
    requires !(e.Prepare? && e.p == p)
    ensures p !in After(w, e).frozen
  {
    hide Next, Intact, DisjointStacks, ContextSwitch;
    if e.Kernel? && Target(w.sched, e.step).Some? {
      TargetIsFrozen(w, e.step);
    }
  }

  /** Apart from computation, memory is written on the kernel stacks only. */
  lemma WritesOnStacks<P>(w: World<P>, e: Event<P>, a: int)
    requires Inv(w) && Possible(w, e) && !e.Compute?
    requires Read(After(w, e).cpu.mem, a) != Read(w.cpu.mem, a)
    ensures exists p :: p in w.stack && InStack(w.stack, p, a)
  {
    hide Next, Intact, DisjointStacks, ContextSwitch, Read;
    match e
    case Kernel(step) =>
      if Target(w.sched, step).Some? {
        CanSwitchToTarget(w, step);
        TargetIsFrozen(w, step);
        var from := Origin(w.sched, step);
        SwitchResumes(w.(sched := Next(w.sched, step)), from, Target(w.sched, step).value);
        if from.Some? {
          SaveBuildsFrame(w.cpu);
          assert InStack(w.stack, from.value, a);
        }
      }
    case Prepare(p, _, _, _, _, _, _) =>
      assert InStack(w.stack, p, a);
  }

  // ----- processes that come and go

  /** A process that the scheduler has not seen yet. */
  function Born<P>(s: Sched<P>, p: P, pid: nat): Sched<P> {
    s.(state := s.state[p := Created], pid := s.pid[p := pid], cpuTime := s.cpuTime[p := 0])
  }

  function Gone<P>(s: Sched<P>, p: P): Sched<P> {
    s.(state := s.state - {p}, pid := s.pid - {p}, cpuTime := s.cpuTime - {p})
  }

  lemma BirthKeepsSchedulable<P>(s: Sched<P>, p: P, pid: nat)
    requires Schedulable(s) && p !in s.state
    ensures Schedulable(Born(s, p, pid))
  {
    hide NoDuplicates;
  }

  lemma DeathKeepsSchedulable<P>(s: Sched<P>, p: P)
    requires Schedulable(s) && s.current != Some(p) && p !in s.queue
    ensures Schedulable(Gone(s, p))
  {
    hide NoDuplicates;
  }

  lemma SameIntact<P>(w: World<P>, w': World<P>, p: P)
    requires p in w.frozen && p in w.saved && p in w.stack && Intact(w, p)
    requires p in w'.frozen && p in w'.saved && p in w'.stack && w'.cpu == w.cpu
    requires w'.frozen[p] == w.frozen[p] && w'.saved[p] == w.saved[p] && w'.stack[p] == w.stack[p]
    ensures Intact(w', p)
  {
  }

  /** A new process with a stack of its own leaves everybody else as they were. */
  lemma BirthKeepsInv<P>(w: World<P>, p: P, pid: nat, stack: map<P, int>)
    requires Inv(w) && p !in w.stack && p in stack && stack == w.stack[p := stack[p]] && DisjointStacks(stack)
    ensures Inv(w.(sched := Born(w.sched, p, pid), stack := stack))
  {
    hide DisjointStacks, Intact, Schedulable;
    SchedulableIsWellFormed(w.sched);
    BirthKeepsSchedulable(w.sched, p, pid);
    var w' := w.(sched := Born(w.sched, p, pid), stack := stack);
    SchedulableIsWellFormed(w'.sched);
    forall q | q in w'.frozen ensures Intact(w', q) {
      SameIntact(w, w', q);
    }
  }

  /** So does the end of a process that is neither current nor queued. */
  lemma DeathKeepsInv<P>(w: World<P>, p: P)
    requires Inv(w) && w.sched.current != Some(p) && p !in w.sched.queue
    ensures Inv(w.(sched := Gone(w.sched, p), stack := w.stack - {p}, saved := w.saved - {p}, frozen := w.frozen - {p}))
  {
    hide DisjointStacks, Intact, Schedulable;
    SchedulableIsWellFormed(w.sched);
    DeathKeepsSchedulable(w.sched, p);
    FewerStacks(w.stack, p);
    var w' := w.(sched := Gone(w.sched, p), stack := w.stack - {p}, saved := w.saved - {p}, frozen := w.frozen - {p});
    SchedulableIsWellFormed(w'.sched);
    forall q | q in w'.frozen ensures Intact(w', q) {
      SameIntact(w, w', q);
    }
  }

  /** What an exit does to the scheduler: the process is Terminated, and if it was current the head of the
      queue gets the processor, without a save. */
  lemma ExitStates<P>(s: Sched<P>, p: P)
    requires Schedulable(s) && p in s.state
    ensures WellFormed(s) && Exit(s, p).pid == s.pid && Exit(s, p).state.Keys == s.state.Keys
    ensures s.current != Some(p) ==> Exit(s, p) == s.(state := s.state[p := Terminated])
    ensures s.current == Some(p) && s.queue == [] ==>
      Exit(s, p) == s.(current := None, state := s.state[p := Terminated])
    ensures s.current == Some(p) && s.queue != [] ==>
      Exit(s, p) == s.(current := Some(s.queue[0]), queue := s.queue[1..],
                       state := s.state[p := Terminated][s.queue[0] := Running])
  {
    hide NoDuplicates;
  }

  /** With nothing ready, nobody is current after the current process has exited. */
  lemma LastExitKeepsInv<P>(w: World<P>, p: P)
    requires Inv(w) && w.sched.current == Some(p) && w.sched.queue == []
    ensures Inv(w.(sched := w.sched.(current := None, state := w.sched.state[p := Terminated])))
  {
    hide DisjointStacks, Intact;
    var w' := w.(sched := w.sched.(current := None, state := w.sched.state[p := Terminated]));
    forall q | q in w'.frozen ensures Intact(w', q) {
      SameIntact(w, w', q);
    }
  }

  /** Otherwise, if it is not queued, the next process is resumed as after any other switch. */
  lemma CurrentExitKeepsInv<P>(w: World<P>, p: P)
    requires Inv(w) && w.sched.current == Some(p) && w.sched.queue != [] && p !in w.sched.queue
    ensures p in w.sched.state && WellFormed(w.sched) && w.sched.queue[0] in w.saved
    ensures var to := w.sched.queue[0];
      Inv(w.(sched := Exit(w.sched, p), cpu := ContextSwitch(w.cpu, false, w.saved[to]), frozen := w.frozen - {to}))
  {
    hide DisjointStacks, Intact, ContextSwitch, Schedulable;
    SchedulableIsWellFormed(w.sched);
    TerminatedIsSchedulable(w.sched, p);
    var w0 := w.(sched := w.sched.(state := w.sched.state[p := Terminated]));
    SchedulableIsWellFormed(w0.sched);
    forall q | q in w0.frozen ensures Intact(w0, q) {
      SameIntact(w, w0, q);
    }
    assert Inv(w0);
    RemovalSwitches(w0, p);
  }

  lemma TerminatedIsSchedulable<P>(s: Sched<P>, p: P)
    requires Schedulable(s) && s.current == Some(p) && p !in s.queue
    ensures Schedulable(s.(state := s.state[p := Terminated]))
  {
    hide NoDuplicates;
  }

  lemma RemovalSwitches<P>(w: World<P>, p: P)
    requires Inv(w) && w.sched.current == Some(p) && w.sched.queue != [] && p !in w.sched.queue
    requires w.sched.state[p] == Terminated
    ensures WellFormed(w.sched) && w.sched.queue[0] in w.saved
    ensures var to := w.sched.queue[0];
      Inv(w.(sched := Remove(w.sched, p), cpu := ContextSwitch(w.cpu, false, w.saved[to]), frozen := w.frozen - {to}))
  {
    hide DisjointStacks, Intact, ContextSwitch, NoDuplicates;
    var e := Kernel(RemoveStep(p));
    assert Possible(w, e);
    AfterKeepsInv(w, e);
    TargetIsFrozen(w, e.step);
  }

  /** At the head of the queue, it is itself the next process. */
  lemma ExitAtHeadKeepsInv<P>(w: World<P>, p: P, cpu: Machine)
    requires Inv(w) && w.sched.current == Some(p) && w.sched.queue != [] && w.sched.queue[0] == p
    requires cpu.mem == w.cpu.mem
    ensures p in w.sched.state && WellFormed(w.sched)
    ensures Inv(w.(sched := Exit(w.sched, p), cpu := cpu))
    ensures Exit(w.sched, p).current == Some(p) && Exit(w.sched, p).state[p] == Running
  {
    hide DisjointStacks, Intact;
    ExitStates(w.sched, p);
    HeadExitIsSchedulable(w.sched, p);
    var w' := w.(sched := Exit(w.sched, p), cpu := cpu);
    forall q | q in w'.frozen ensures Intact(w', q) {
      UntouchedKeepsIntact(w, w', q);
    }
  }

  lemma HeadExitIsSchedulable<P>(s: Sched<P>, p: P)
    requires Schedulable(s) && s.current == Some(p) && s.queue != [] && s.queue[0] == p
    ensures p in s.state && Schedulable(Exit(s, p))
  {
    ExitStates(s, p);
    assert p !in s.queue[1..];
  }

  /** Further back, it stays queued, Terminated. */
  lemma ExitInQueueIsNotSchedulable<P>(s: Sched<P>, p: P)
    requires Schedulable(s) && s.current == Some(p) && p in s.queue && s.queue[0] != p
    ensures p in s.state && !Schedulable(Exit(s, p))
  {
    ExitStates(s, p);
    var i :| 0 <= i < |s.queue| && s.queue[i] == p;
    assert Exit(s, p).queue[i - 1] == p;
  }

  lemma FewerStacks<P>(stack: map<P, int>, p: P)
    requires DisjointStacks(stack)
    ensures DisjointStacks(stack - {p})
  {
  }

  // ----- every run

  ghost predicate PossibleRun<P>(w: World<P>, events: seq<Event<P>>)
    requires Inv(w)
    decreases |events|
  {
    events != [] ==>
      Possible(w, events[0]) && (AfterKeepsInv(w, events[0]); PossibleRun(After(w, events[0]), events[1..]))
  }

  ghost function Run<P>(w: World<P>, events: seq<Event<P>>): (w': World<P>)
    requires Inv(w) && PossibleRun(w, events)
    ensures Inv(w') && w'.stack == w.stack
    decreases |events|
  {
    if events == [] then w else
      AfterKeepsInv(w, events[0]);
      Run(After(w, events[0]), events[1..])
  }

  /** The event switches to `p`. */
  ghost predicate SwitchesTo<P>(w: World<P>, e: Event<P>, p: P)
    requires Inv(w) && Possible(w, e)
  {
    e.Kernel? && Target(w.sched, e.step) == Some(p)
  }

  /** `p` is neither switched to nor prepared anew during the run. */
  ghost predicate StaysOff<P>(w: World<P>, events: seq<Event<P>>, p: P)
    requires Inv(w) && PossibleRun(w, events)
    decreases |events|
  {
    events != [] ==>
      && !SwitchesTo(w, events[0], p)
      && !(events[0].Prepare? && events[0].p == p)
      && (AfterKeepsInv(w, events[0]); StaysOff(After(w, events[0]), events[1..], p))
  }

  lemma ImageKept<P>(w: World<P>, e: Event<P>, p: P)
    requires Inv(w) && Possible(w, e) && p in w.frozen
    requires !SwitchesTo(w, e, p) && !(e.Prepare? && e.p == p)
    ensures p in After(w, e).frozen && After(w, e).frozen[p] == w.frozen[p]
  {
    hide Next, Intact, DisjointStacks, ContextSwitch;
    if e.Kernel? && Target(w.sched, e.step).Some? {
      TargetIsFrozen(w, e.step);
    }
  }

  lemma {:induction false} ImageKeptThroughout<P>(w: World<P>, events: seq<Event<P>>, p: P)
    requires Inv(w) && PossibleRun(w, events) && StaysOff(w, events, p) && p in w.frozen
    ensures p in Run(w, events).frozen && Run(w, events).frozen[p] == w.frozen[p]
    decreases |events|
  {
    if events != [] {
      hide Inv, After, Possible;
      AfterKeepsInv(w, events[0]);
      ImageKept(w, events[0], p);
      ImageKeptThroughout(After(w, events[0]), events[1..], p);
    }
  }

  /** The event that switches to `p` gives it back the context of its image, and its stack. */
  lemma SwitchGivesImage<P>(w: World<P>, e: Event<P>, p: P)
    requires Inv(w) && Possible(w, e) && SwitchesTo(w, e, p)
    ensures p in w.frozen && p in w.stack
    ensures ContextOf(After(w, e).cpu) == w.frozen[p].context
    ensures SameAbove(w.stack[p], After(w, e).cpu.mem, w.frozen[p])
    ensures After(w, e).sched.current == Some(p)
  {
    hide Next, Intact, DisjointStacks, ContextSwitch, SameAbove, ContextOf;
    TargetIsFrozen(w, e.step);
    CanSwitchToTarget(w, e.step);
    SwitchResumes(w.(sched := Next(w.sched, e.step)), Origin(w.sched, e.step), p);
  }

  /** The event switches to `p` exactly if it makes `p` current. */
  lemma SwitchSets<P>(w: World<P>, e: Event<P>, p: P)
    requires Inv(w) && Possible(w, e) && w.sched.current != Some(p)
    ensures SwitchesTo(w, e, p) <==> After(w, e).sched.current == Some(p)
  {
    hide Next, Intact, ContextSwitch, DisjointStacks, Schedulable;
    SchedulableIsWellFormed(w.sched);
    SchedulerAfter(w, e);
  }

  /** A switch without a save to the head of the queue resumes it, if it is not current. */
  lemma HeadResumes<P>(w: World<P>)
    requires Inv(w) && w.sched.queue != [] && w.sched.current != Some(w.sched.queue[0])
    ensures var to := w.sched.queue[0];
      && to in w.frozen && to in w.saved && to in w.stack
      && ContextOf(ContextSwitch(w.cpu, false, w.saved[to])) == w.frozen[to].context
      && SameAbove(w.stack[to], ContextSwitch(w.cpu, false, w.saved[to]).mem, w.frozen[to])
  {
    hide Intact, DisjointStacks, NoDuplicates, ContextSwitch, ContextOf, SameAbove;
    assert Waits(w.sched, w.sched.queue[0]);
    SwitchResumes(w, None, w.sched.queue[0]);
  }

  /** The event switches away from `p`, saving it. */
  ghost predicate Suspends<P>(w: World<P>, e: Event<P>, p: P)
    requires Inv(w) && Possible(w, e)
  {
    e.Kernel? && Target(w.sched, e.step).Some? && Origin(w.sched, e.step) == Some(p)
  }

  /** It does if it takes the processor from `p` without removing it. */
  lemma SwitchSuspends<P>(w: World<P>, e: Event<P>, p: P)
    requires Inv(w) && Possible(w, e) && w.sched.current == Some(p) && After(w, e).sched.current != Some(p)
    requires e != Kernel(RemoveStep(p))
    ensures Suspends(w, e, p)
  {
    hide Next, Intact, ContextSwitch, DisjointStacks, Schedulable;
    SchedulableIsWellFormed(w.sched);
    SchedulerAfter(w, e);
    DispatchedWasQueued(w.sched, e.step);
  }

  lemma SuspendFreezes<P>(w: World<P>, e: Event<P>, p: P)
    requires Inv(w) && Possible(w, e) && Suspends(w, e, p)
    ensures p in After(w, e).frozen
    ensures After(w, e).frozen[p] == Image(ReturnContext(w.cpu), w.cpu.mem)
  {
    hide Next, Intact, DisjointStacks, ContextSwitch;
    TargetIsFrozen(w, e.step);
  }

  /** Suspended by one event and, whatever happens in between, switched to by a later one: the process
      continues with the registers, flags, stack pointer and return address it had, and every word of
      its stack above that pointer. */
  lemma SuspendedProcessResumes<P>(w: World<P>, suspend: Event<P>, events: seq<Event<P>>, resume: Event<P>, p: P)
    requires Inv(w) && Possible(w, suspend) && Suspends(w, suspend, p)
    requires Inv(After(w, suspend)) && PossibleRun(After(w, suspend), events) && StaysOff(After(w, suspend), events, p)
    requires Possible(Run(After(w, suspend), events), resume)
    requires SwitchesTo(Run(After(w, suspend), events), resume, p)
    ensures var w' := After(Run(After(w, suspend), events), resume);
      && w'.sched.current == Some(p)
      && ContextOf(w'.cpu) == ReturnContext(w.cpu)
      && p in w.stack
      && (forall a :: w.cpu.esp + 4 <= a < w.stack[p] + KERNEL_STACK_SIZE ==> Read(w'.cpu.mem, a) == Read(w.cpu.mem, a))
  {
    hide Inv, After, Possible, Run;
    var w1 := After(w, suspend);
    SuspendFreezes(w, suspend, p);
    ImageKeptThroughout(w1, events, p);
    SwitchGivesImage(Run(w1, events), resume, p);
    AfterKeepsInv(w, suspend);
  }

  /** A process prepared by `process_setup_stack` and first switched to any time later starts at its
      entry point, with interrupts enabled; a user process gets there through the first-run handler,
      in ring 3 and on the top of its user stack. */
  lemma PreparedProcessStarts<P>(w: World<P>, prepare: Event<P>, events: seq<Event<P>>, resume: Event<P>)
    requires Inv(w) && prepare.Prepare? && Possible(w, prepare)
    requires Inv(After(w, prepare)) && PossibleRun(After(w, prepare), events)
      && StaysOff(After(w, prepare), events, prepare.p)
    requires Possible(Run(After(w, prepare), events), resume)
    requires SwitchesTo(Run(After(w, prepare), events), resume, prepare.p)
    ensures var m := After(Run(After(w, prepare), events), resume).cpu;
      if !prepare.user then m.eip == prepare.entry && m.eflags == 0x202
      else
        && m.eip == prepare.handler
        && var u := FirstRunUserHandler(m);
           && u.eip == prepare.entry && u.eflags == 0x202 && u.esp == prepare.userStack + 16384
           && GetSeg(u, Cs) == 0x1B && GetSeg(u, Ss) == 0x23
  {
    var p, w1 := prepare.p, After(w, prepare);
    PreparedImage(w, prepare);
    hide Inv, After, Possible, Run, UserFrameAt, FirstRunUserHandler;
    ImageKeptThroughout(w1, events, p);
    var w2 := Run(w1, events);
    SwitchGivesImage(w2, resume, p);
    if prepare.user {
      UserFrameKept(w.stack[p], After(w2, resume).cpu, w1.frozen[p], prepare.entry, prepare.userStack);
      FirstRunEntersUser(After(w2, resume).cpu, prepare.entry, prepare.userStack);
    }
  }

  lemma PreparedImage<P>(w: World<P>, prepare: Event<P>)
    requires Inv(w) && prepare.Prepare? && Possible(w, prepare)
    ensures var w1, p := After(w, prepare), prepare.p;
      && p in w1.frozen && p in w.stack && w1.stack == w.stack
      && w1.frozen[p].context == FirstContext(w.stack[p], prepare.entry, prepare.user, prepare.handler)
      && (prepare.user ==> UserFrameAt(w1.frozen[p].mem, w1.frozen[p].context.esp, prepare.entry, prepare.userStack))
  {
  }

  lemma UserFrameKept(base: int, m: Machine, image: Image, entry: int, userStack: int)
    requires ContextOf(m) == image.context && image.context.esp == base + KERNEL_STACK_SIZE - 76
    requires SameAbove(base, m.mem, image) && UserFrameAt(image.mem, image.context.esp, entry, userStack)
    ensures UserFrameAt(m.mem, m.esp, entry, userStack)
  {
    hide Read;
    assert m.esp == image.context.esp;
  }

  // ----- the start

  /** Nothing scheduled and nothing prepared, over kernel stacks that are apart. */
  ghost predicate Initial<P>(w: World<P>) {
    && SchedulerSpec.Initial(w.sched) && w.sched.state.Keys == w.stack.Keys
    && DisjointStacks(w.stack) && w.frozen == map[]
  }

  lemma InitialKeepsInv<P>(w: World<P>)
    requires Initial(w)
    ensures Inv(w)
  {
    SchedulerSpec.InitialKeepsInv(w.sched);
  }

  lemma AddFirst<P>(w: World<P>, p: P)
    requires Inv(w) && SchedulerSpec.Initial(w.sched) && p in w.frozen
    ensures Possible(w, Kernel(AddStep(p)))
    ensures var s := After(w, Kernel(AddStep(p))).sched; s.queue == [p] && s.current == None
  {
    hide Intact, DisjointStacks;
  }

  lemma YieldToFirst<P>(w: World<P>, p: P)
    requires Inv(w) && w.sched.queue == [p] && w.sched.current == None
    ensures Possible(w, Kernel(YieldStep)) && SwitchesTo(w, Kernel(YieldStep), p)
  {
    hide Intact, DisjointStacks;
  }

  lemma PrepareFirst<P>(w: World<P>, prepare: Event<P>)
    requires Inv(w) && prepare.Prepare? && Possible(w, prepare)
    ensures var w' := After(w, prepare); w'.sched == w.sched && prepare.p in w'.frozen
  {
    hide Intact, DisjointStacks;
  }

  lemma OneEvent<P>(w: World<P>, e: Event<P>)
    requires Inv(w) && Possible(w, e)
    ensures PossibleRun(w, [e]) && Run(w, [e]) == After(w, e)
  {
    hide Inv, Possible, After;
    AfterKeepsInv(w, e);
    assert [e][1..] == [];
    assert PossibleRun(After(w, e), []);
  }

  lemma TwoEvents<P>(w: World<P>, e: Event<P>, f: Event<P>)
    requires Inv(w) && Possible(w, e) && Inv(After(w, e)) && Possible(After(w, e), f)
    ensures PossibleRun(w, [e, f]) && Run(w, [e, f]) == After(After(w, e), f)
  {
    hide Inv, Possible, After;
    assert [e, f][1..] == [f];
    OneEvent(After(w, e), f);
  }

  /** From there the first process can be set up, added and dispatched, on whatever stack the kernel
      starts on. */
  lemma FirstProcessIsDispatched<P>(w: World<P>, prepare: Event<P>)
    requires Initial(w) && prepare.Prepare? && Possible(w, prepare)
    ensures Inv(w)
    ensures var run := [prepare, Kernel(AddStep(prepare.p))];
      && PossibleRun(w, run)
      && Possible(Run(w, run), Kernel(YieldStep)) && SwitchesTo(Run(w, run), Kernel(YieldStep), prepare.p)
  {
    hide Inv, Possible, After, PossibleRun, Run, SwitchesTo;
    InitialKeepsInv(w);
    AfterKeepsInv(w, prepare);
    PrepareFirst(w, prepare);
    var w1, add := After(w, prepare), Kernel(AddStep(prepare.p));
    AddFirst(w1, prepare.p);
    AfterKeepsInv(w1, add);
    TwoEvents(w, prepare, add);
    YieldToFirst(After(w1, add), prepare.p);
  }
}
