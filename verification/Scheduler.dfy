/** The scheduler over process control blocks linked in place, proved against `LinkedScheduler` in every
    state, and so against `SchedulerSpec` as long as no process is linked twice. */
module Scheduler {
  import opened Common
  import opened SchedulerSpec
  import opened ReadyLinks
  import LS = LinkedScheduler

  /** The fields of a process control block that the scheduler reads or writes. */
  class Pcb {
    var pid: nat
    var state: ProcessState
    var cpuTime: nat
    var next: Pcb?
    var prev: Pcb?
  }

  /** A possibly null pointer as a value. */
  function Pointer(p: Pcb?): Option<Pcb> {
    if p == null then None else Some(p)
  }

  class Scheduler {
    var current: Pcb?
    var head: Pcb?
    var tail: Pcb?
    var ticks: nat
    var nextPid: nat

    ghost const procs: set<Pcb>  // the process table

    // ----- the values of the fields

    ghost function Nexts(): map<Pcb, Option<Pcb>>
      reads procs`next
    {
      map p | p in procs :: Pointer(p.next)
    }

    ghost function Prevs(): map<Pcb, Option<Pcb>>
      reads procs`prev
    {
      map p | p in procs :: Pointer(p.prev)
    }

    ghost function States(): map<Pcb, ProcessState>
      reads procs`state
    {
      map p | p in procs :: p.state
    }

    ghost function Pids(): map<Pcb, nat>
      reads procs`pid
    {
      map p | p in procs :: p.pid
    }

    ghost function CpuTimes(): map<Pcb, nat>
      reads procs`cpuTime
    {
      map p | p in procs :: p.cpuTime
    }

    ghost function AllLinks(): Links<Pcb>
      reads `head, `tail, procs`next, procs`prev
    {
      Links(Pointer(head), Pointer(tail), Nexts(), Prevs())
    }

    ghost function Pointers(): LS.Linked<Pcb>
      reads this, procs
    {
      LS.Linked(AllLinks(), Pointer(current), States(), Pids(), CpuTimes(), ticks, nextPid)
    }

    /** Every pointer is to a process of the table. */
    ghost predicate Closed()
      reads this, procs
    {
      LS.WellFormed(Pointers())
    }

    /** The ready list is a sequence. */
    ghost predicate Linked()
      reads this, procs
    {
      Closed() && IsSequence(AllLinks())
    }

    /** The state over that sequence. */
    ghost function Abs(): Sched<Pcb>
      reads this, procs
    {
      LS.View(Pointers())
    }

    ghost predicate Valid()
      reads this, procs
    {
      Linked() && Inv(Abs())
    }

    /** `scheduler_init`, over a process table whose links are null. */
    constructor (ghost table: set<Pcb>)
      requires forall p :: p in table ==> p.next == null && p.prev == null && p.state == Created
      ensures Valid() && procs == table && Initial(Abs())
    {
      hide Inv, IsSequence, SequenceOf, ReadyLinks.Closed;
      current, head, tail, ticks, nextPid := null, null, null, 0, 1;
      procs := table;
      new;
      NullLinks(AllLinks());
      InitialKeepsInv(Abs());
    }

    // ----- field writes

    method SetNext(p: Pcb, q: Pcb?)
      requires p in procs
      modifies p`next
      ensures p.next == q && Nexts() == old(Nexts())[p := Pointer(q)]
    {
      p.next := q;
      assert Nexts() == old(Nexts())[p := Pointer(q)];
    }

    method SetPrev(p: Pcb, q: Pcb?)
      requires p in procs
      modifies p`prev
      ensures p.prev == q && Prevs() == old(Prevs())[p := Pointer(q)]
    {
      p.prev := q;
      assert Prevs() == old(Prevs())[p := Pointer(q)];
    }

    method SetState(p: Pcb, state: ProcessState)
      requires p in procs
      modifies p`state
      ensures p.state == state && States() == old(States())[p := state]
    {
      p.state := state;
      assert States() == old(States())[p := state];
    }

    method SetPid(p: Pcb, pid: nat)
      requires p in procs
      modifies p`pid
      ensures p.pid == pid && Pids() == old(Pids())[p := pid]
    {
      p.pid := pid;
      assert Pids() == old(Pids())[p := pid];
    }

    method SetCpuTime(p: Pcb, time: nat)
      requires p in procs
      modifies p`cpuTime
      ensures p.cpuTime == time && CpuTimes() == old(CpuTimes())[p := time]
    {
      p.cpuTime := time;
      assert CpuTimes() == old(CpuTimes())[p := time];
    }

    // ----- the ready list

    ghost predicate LinksClosed()
      reads `head, `tail, procs`next, procs`prev
    {
      ReadyLinks.Closed(AllLinks())
    }

    /** What the pointer fields are as values. */
    lemma Neighbours(p: Pcb)
      requires LinksClosed() && p in procs
      ensures p in Nexts() && Nexts()[p] == Pointer(p.next)
      ensures p in Prevs() && Prevs()[p] == Pointer(p.prev)
      ensures p.prev != null ==> p.prev in procs
      ensures p.next != null ==> p.next in procs
      ensures head != null ==> head in procs && tail != null
      ensures tail != null ==> tail in procs
    {
      assert Nexts().Keys == procs && Prevs().Keys == procs;
    }

    method AddToReady(process: Pcb)
      requires LinksClosed() && process in procs
      modifies `head, `tail, procs`next, procs`prev
      ensures AllLinks() == Append(old(AllLinks()), process)
    {
      hide ReadyLinks.Closed, Nexts, Prevs;
      Neighbours(process);
      SetNext(process, null);
      SetPrev(process, null);
      if head == null {
        head := process;
        tail := process;
      } else {
        SetNext(tail, process);
        SetPrev(process, tail);
        tail := process;
      }
    }

    method RemoveFromReady(process: Pcb)
      requires LinksClosed() && process in procs
      modifies `head, `tail, procs`next, procs`prev
      ensures AllLinks() == Delete(old(AllLinks()), process)
    {
      hide ReadyLinks.Closed, Nexts, Prevs;
      Neighbours(process);
      if process.prev != null {
        SetNext(process.prev, process.next);
      } else if head == process {
        head := process.next;
      } else {
        return;
      }
      if process.next != null {
        SetPrev(process.next, process.prev);
      } else if tail == process {
        tail := process.prev;
      }
      SetNext(process, null);
      SetPrev(process, null);
    }

    // ----- the steps

    method SwitchTo(process: Pcb)
      requires process in procs
      modifies `current, process`state
      ensures current == process && States() == old(States())[process := Running]
    {
      current := process;
      SetState(process, Running);
    }

    /** The first half of `scheduler_yield`: a running process goes to the end of the list. */
    method RequeueCurrent()
      requires Closed()
      modifies this, procs`next, procs`prev, procs`state
      ensures Closed() && Pointers() == LS.Requeue(old(Pointers()))
    {
      hide LS.WellFormed, Append, AllLinks, Pids, CpuTimes, States;
      CurrentState();
      ghost var l' := LS.Requeue(Pointers());
      if current != null && current.state == Running {
        SetState(current, Ready);
        AddToReady(current);
      }
      assert Pointers() == l';
    }

    lemma CurrentState()
      requires Closed()
      ensures LinksClosed() && Pointers().state.Keys == procs
      ensures current != null ==> current in procs && Pointers().state[current] == current.state
    {
      hide ReadyLinks.Closed;
      assert States().Keys == procs;
      assert current != null ==> Pointers().current == Some(current);
    }

    lemma HeadInTable()
      requires Closed() && head != null
      ensures LinksClosed() && head in procs && Pointers().links.head == Some(head) && head in Pointers().state
    {
      assert States().Keys == procs;
    }

    /** The second half: the head of the list gets the CPU. */
    method DispatchHead()
      requires Closed() && head != null
      modifies this, procs`next, procs`prev, procs`state
      ensures Closed() && Pointers() == LS.Dispatch(old(Pointers()))
    {
      hide LS.WellFormed, Delete, AllLinks, LinksClosed, Pids, CpuTimes, States;
      HeadInTable();
      ghost var l' := LS.Dispatch(Pointers());
      var process := head;
      RemoveFromReady(process);
      SwitchTo(process);
      assert Pointers() == l';
    }

    method Yield()
      requires Closed()
      modifies this, procs`next, procs`prev, procs`state
      ensures Closed() && Pointers() == LS.Yield(old(Pointers()))
    {
      hide LS.WellFormed, LS.Requeue, LS.Dispatch, Nexts, Prevs, Pids, CpuTimes, States;
      if head == null {
        return;
      }
      ghost var l := LS.Requeue(Pointers());
      RequeueCurrent();
      assert Pointers().links.head == l.links.head;
      DispatchHead();
    }

    /** A process without a pid gets the scheduler's next one. */
    method AssignPid(process: Pcb)
      requires Closed() && process in procs
      modifies `nextPid, process`pid
      ensures Closed() && process in old(Pointers()).state && Pointers() == LS.AssignPid(old(Pointers()), process)
    {
      hide LS.WellFormed, Nexts, Prevs, CpuTimes, States;
      Fields(process);
      ghost var l' := LS.AssignPid(Pointers(), process);
      if process.pid == 0 {
        SetPid(process, nextPid);
        nextPid := Increment(nextPid);
      }
      assert Pointers() == l';
    }

    /** The fields of a process as values. */
    lemma Fields(p: Pcb)
      requires Closed() && p in procs
      ensures p in Pointers().state && Pointers().state[p] == p.state
      ensures p in Pointers().pid && Pointers().pid[p] == p.pid
      ensures p in Pointers().cpuTime && Pointers().cpuTime[p] == p.cpuTime
      ensures LinksClosed() && Pointers().state.Keys == procs
    {
    }

    method Add(process: Pcb?)
      requires Closed() && (process != null ==> process in procs)
      modifies this, procs
      ensures Closed()
      ensures process == null ==> Pointers() == old(Pointers())
      ensures process != null ==> process in old(Pointers()).state && Pointers() == LS.Add(old(Pointers()), process)
    {
      hide LS.WellFormed, LS.AssignPid, LS.AddToReady, Nexts, Prevs, Pids, CpuTimes, States;
      if process == null {
        return;
      }
      Fields(process);
      ghost var l' := LS.Add(Pointers(), process);
      AssignPid(process);
      Fields(process);
      if process.state == Ready {
        return;
      }
      MakeReady(process);
      assert Pointers() == l';
    }

    /** The end of `scheduler_add_process`. */
    method MakeReady(process: Pcb)
      requires Closed() && process in procs
      modifies `head, `tail, procs`next, procs`prev, process`state
      ensures process in old(Pointers()).state
      ensures Pointers() == LS.AddToReady(old(Pointers()), process).(state := old(Pointers()).state[process := Ready])
    {
      hide LS.WellFormed, Append, Nexts, Prevs, Pids, CpuTimes, States;
      Fields(process);
      AddToReady(process);
      SetState(process, Ready);
    }

    method Remove(process: Pcb?)
      requires Closed() && (process != null ==> process in procs)
      modifies this, procs
      ensures Closed()
      ensures process == null ==> Pointers() == old(Pointers())
      ensures process != null ==> process in old(Pointers()).state && Pointers() == LS.Remove(old(Pointers()), process)
    {
      hide LS.WellFormed, LS.Yield, Delete, Nexts, Prevs, Pids, CpuTimes, States, LinksClosed;
      if process == null {
        return;
      }
      Fields(process);
      ghost var l1 := LS.Unlink(Pointers(), process);
      ghost var l2 := LS.Leave(l1, process);
      if process.state == Ready {
        RemoveFromReady(process);
      }
      assert Pointers() == l1;
      if process == current {
        current := null;
        SetState(process, Terminated);
        assert Pointers() == l2;
        Yield();
      }
    }

    method Tick()
      requires Closed()
      modifies this, procs
      ensures Closed() && Pointers() == LS.Tick(old(Pointers()))
    {
      hide LS.WellFormed, LS.Yield, Nexts, Prevs, Pids, CpuTimes, States;
      ghost var l := Pointers();
      TickedIsClosed(l);
      if current != null {
        CurrentState();
        Fields(current);
      }
      ticks := Increment(ticks);
      if current == null {
        assert Pointers() == l.(ticks := ticks);
        Yield();
        return;
      }
      SetCpuTime(current, Increment(current.cpuTime));
      assert Pointers() == LS.Charge(l.(ticks := ticks), current);
      if ticks % TIME_QUANTUM == 0 {
        Yield();
      }
    }

    lemma TickedIsClosed(l: LS.Linked<Pcb>)
      requires LS.WellFormed(l)
      ensures var l' := l.(ticks := Increment(l.ticks));
        && LS.WellFormed(l')
        && (l.current.Some? ==> l.current.value in l.cpuTime && LS.WellFormed(LS.Charge(l', l.current.value)))
    {
      hide ReadyLinks.Closed;
    }

    method Unblock(process: Pcb?)
      requires Closed() && (process != null ==> process in procs)
      modifies this, procs
      ensures Closed()
      ensures process == null ==> Pointers() == old(Pointers())
      ensures process != null ==> process in old(Pointers()).state && Pointers() == LS.Unblock(old(Pointers()), process)
      ensures process != null && old(Linked() && Loose(Abs())) ==>
        && process in old(Abs()).state
        && (Linked() <==> !Relinks(old(Abs()), UnblockStep(process)))
        && (Linked() ==> Loose(Abs()) && Abs() == SchedulerSpec.Unblock(old(Abs()), process))
    {
      hide LS.WellFormed, Append, AllLinks, LinksClosed, Pids, CpuTimes, States;
      hide LS.View, IsSequence, Loose, Relinks, SchedulerSpec.Unblock;
      if process != null {
        Fields(process);
        if Linked() && Loose(Abs()) {
          UnblockLoosely(Pointers(), process);
        }
        ghost var l' := LS.Unblock(Pointers(), process);
        if process.state == Blocked {
          SetState(process, Ready);
          AddToReady(process);
        }
        assert Pointers() == l';
      }
    }

    method BlockCurrent()
      requires Closed()
      modifies this, procs
      ensures Closed() && Pointers() == LS.Block(old(Pointers()))
      ensures old(Linked() && Loose(Abs())) ==>
        Linked() && Loose(Abs()) && WellFormed(old(Abs())) && Abs() == SchedulerSpec.Block(old(Abs()))
    {
      hide LS.WellFormed, LS.Yield, Nexts, Prevs, Pids, CpuTimes, States;
      hide LS.View, IsSequence, Loose, WellFormed, SchedulerSpec.Block;
      ghost var l := Pointers();
      if Linked() && Loose(Abs()) {
        BlockLoosely(l);
      }
      if current != null {
        CurrentState();
        Fields(current);
        BlockedIsClosed(l);
        SetState(current, Blocked);
        assert Pointers() == l.(state := l.state[current := Blocked]);
        Yield();
      }
    }

    lemma UnblockLoosely(l: LS.Linked<Pcb>, p: Pcb)
      requires LS.WellFormed(l) && IsSequence(l.links) && Loose(LS.View(l)) && p in l.state
      ensures p in LS.View(l).state
      ensures IsSequence(LS.Unblock(l, p).links) <==> !Relinks(LS.View(l), UnblockStep(p))
      ensures IsSequence(LS.Unblock(l, p).links) ==>
        var s := LS.View(LS.Unblock(l, p)); Loose(s) && s == SchedulerSpec.Unblock(LS.View(l), p)
    {
      hide LS.WellFormed, IsSequence, SequenceOf, Loose, Relinks, LS.Unblock, SchedulerSpec.Unblock;
      LS.LooseStep(l, UnblockStep(p));
    }

    lemma BlockLoosely(l: LS.Linked<Pcb>)
      requires LS.WellFormed(l) && IsSequence(l.links) && Loose(LS.View(l))
      ensures WellFormed(LS.View(l)) && IsSequence(LS.Block(l).links)
      ensures var s := LS.View(LS.Block(l)); Loose(s) && s == SchedulerSpec.Block(LS.View(l))
    {
      hide LS.WellFormed, IsSequence, SequenceOf, Loose, LS.Block, SchedulerSpec.Block;
      LS.LooseStep(l, BlockStep);
    }

    lemma BlockedIsClosed(l: LS.Linked<Pcb>)
      requires LS.WellFormed(l) && l.current.Some?
      ensures l.current.value in l.state && LS.WellFormed(l.(state := l.state[l.current.value := Blocked]))
    {
      hide ReadyLinks.Closed;
    }

    /** Sees the current process and the ready list, and no other process. */
    method Find(pid: nat) returns (process: Pcb?)
      requires Linked()
      ensures WellFormed(Abs()) && Pointer(process) == FindProcess(Abs(), pid)
    {
      hide Represents, SequenceOf, LS.WellFormed, Nexts, Prevs, States, CpuTimes;
      LS.SequenceRefines(Pointers());
      LS.RefinesIsView(Pointers(), Abs());
      CurrentState();
      ghost var queue := Abs().queue;
      assert forall p :: p in procs ==> p in Pids() && Pids()[p] == p.pid;
      if current != null && current.pid == pid {
        return current;
      }
      process := head;
      ghost var i := 0;
      assert queue[0..] == queue;
      while process != null
        invariant 0 <= i <= |queue|
        invariant Pointer(process) == if i == |queue| then None else Some(queue[i])
        invariant FindIn(queue, Pids(), pid) == FindIn(queue[i..], Pids(), pid)
        decreases |queue| - i
      {
        NextInQueue(i);
        if process.pid == pid {
          return;
        }
        assert queue[i..][1..] == queue[i + 1..];
        process := process.next;
        i := i + 1;
      }
    }

    lemma NextInQueue(i: nat)
      requires Linked() && i < |Abs().queue|
      ensures var q := Abs().queue; q[i] in procs && Pointer(q[i].next) == After(q, i)
    {
      hide SequenceOf;
      var q := Abs().queue;
      assert q[i] in q && q[i] in AllLinks().next;
      assert AllLinks().next[q[i]] == After(q, i);
    }

    lemma LinkedIsClosed()
      requires Linked()
      ensures Closed()
    {
    }

    lemma StateOf(p: Pcb)
      requires Linked() && p in Abs().pid
      ensures p in procs && p in Abs().state && Abs().state[p] == p.state
    {
      hide IsSequence, SequenceOf;
    }

    method Perform(step: Step<Pcb>)
      requires Closed() && Known(step, procs)
      modifies this, procs
      ensures Closed() && Known(step, old(Pointers()).state.Keys) && Pointers() == LS.Next(old(Pointers()), step)
    {
      hide LS.WellFormed, Nexts, Prevs, Pids, CpuTimes, States;
      hide LS.Yield, LS.Remove, LS.Tick, LS.Add, LS.Block, LS.Unblock;
      CurrentState();
      match step
      case AddStep(p) => Add(p);
      case RemoveStep(p) => Remove(p);
      case TickStep => Tick();
      case YieldStep => Yield();
      case BlockStep => BlockCurrent();
      case UnblockStep(p) => Unblock(p);
    }

    /** Every run, on the linked structure itself. It is the run of the sequence machine if the list was a
        sequence and no process is linked twice, and keeps the invariant if it is safe. */
    method Execute(steps: seq<Step<Pcb>>)
      requires Closed() && forall k :: 0 <= k < |steps| ==> Known(steps[k], procs)
      modifies this, procs
      ensures Closed() && Runnable(old(Pointers()), steps) && Pointers() == LS.Run(old(Pointers()), steps)
      ensures old(Linked() && Loose(Abs())) ==>
        && KnownSteps(old(Abs()), steps)
        && (NeverRelinks(old(Abs()), steps) ==> Linked() && Abs() == Run(old(Abs()), steps))
      ensures old(Valid()) ==> KnownSteps(old(Abs()), steps) && (SafeThroughout(old(Abs()), steps) ==> Valid())
    {
      hide LS.WellFormed, LS.Next, Nexts, Prevs, Pids, CpuTimes, States;
      CurrentState();
      RunFacts(steps);
      var k := 0;
      while k < |steps|
        invariant 0 <= k <= |steps|
        invariant Closed() && Runnable(Pointers(), steps[k..])
        invariant LS.Run(Pointers(), steps[k..]) == LS.Run(old(Pointers()), steps)
      {
        assert steps[k..][0] == steps[k] && steps[k..][1..] == steps[k + 1..];
        Perform(steps[k]);
        k := k + 1;
      }
      assert steps[k..] == [];
    }

    ghost predicate Runnable(l: LS.Linked<Pcb>, steps: seq<Step<Pcb>>) {
      LS.WellFormed(l) && forall k :: 0 <= k < |steps| ==> Known(steps[k], l.state.Keys)
    }

    lemma RunFacts(steps: seq<Step<Pcb>>)
      requires Closed() && Runnable(Pointers(), steps)
      ensures Linked() && Loose(Abs()) ==>
        && KnownSteps(Abs(), steps)
        && (NeverRelinks(Abs(), steps) ==>
              var l' := LS.Run(Pointers(), steps); IsSequence(l'.links) && LS.View(l') == Run(Abs(), steps))
      ensures Valid() ==>
        && KnownSteps(Abs(), steps)
        && (SafeThroughout(Abs(), steps) ==> LS.Sound(LS.Run(Pointers(), steps)))
    {
      hide Represents, LS.WellFormed, LS.Run, Run, Inv, Loose, NeverRelinks, SafeThroughout, SequenceOf;
      var l, s := Pointers(), Abs();
      if Linked() && Loose(s) {
        LS.SequenceRefines(l);
        LS.RunIsSequenceIff(l, s, steps);
        if NeverRelinks(s, steps) {
          LS.RefinesIsView(LS.Run(l, steps), Run(s, steps));
        }
      }
      if Valid() {
        LS.SequenceRefines(l);
        if SafeThroughout(s, steps) {
          SafeNeverRelinks(s, steps);
          LS.RunIsSequenceIff(l, s, steps);
          LS.RefinesIsView(LS.Run(l, steps), Run(s, steps));
          RunKeepsInvIffSafe(s, steps);
          InvAtTheEnd(s, steps);
        }
      }
    }
  }
}
