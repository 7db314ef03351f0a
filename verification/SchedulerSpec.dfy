/** The round-robin scheduler as a state machine over values, and what its steps and runs keep.
    `P` identifies a process control block. */
module SchedulerSpec {
  import opened Common

  const TIME_QUANTUM: nat := 10

  datatype ProcessState = Created | Ready | Running | Blocked | Terminated

  /** The current process, the ready queue from head to tail, the process fields that the
      scheduler writes, and its two counters. */
  datatype Sched<!P(==)> = Sched(
    current: Option<P>,
    queue: seq<P>,
    state: map<P, ProcessState>,
    pid: map<P, nat>,
    cpuTime: map<P, nat>,
    ticks: nat,
    nextPid: nat)

  /** Every process the scheduler refers to has its fields. */
  ghost predicate WellFormed<P>(s: Sched<P>) {
    && s.state.Keys == s.pid.Keys == s.cpuTime.Keys
    && (s.current.Some? ==> s.current.value in s.state)
    && (forall i :: 0 <= i < |s.queue| ==> s.queue[i] in s.state)
    && s.ticks < WORD_VALUES
    && s.nextPid < WORD_VALUES
  }

  /** The scheduler invariant. A process may be current without being Running (it blocked while
      nothing was ready), and may be current and queued at once (it was then unblocked). */
  ghost predicate Inv<P>(s: Sched<P>) {
    && WellFormed(s)
    && NoDuplicates(s.queue)
    && (forall i :: 0 <= i < |s.queue| ==> s.state[s.queue[i]] == Ready)
    && (forall p :: p in s.state && s.state[p] == Running ==> s.current == Some(p))
  }

  // ----- the steps

  function Enqueue<P>(s: Sched<P>, p: P): Sched<P> {
    s.(queue := s.queue + [p])
  }

  predicate CurrentRuns<P>(s: Sched<P>)
    requires WellFormed(s)
  {
    s.current.Some? && s.state[s.current.value] == Running
  }

  /** The running process, if any, goes back to the end of the queue. */
  function Requeue<P>(s: Sched<P>): Sched<P>
    requires WellFormed(s)
  {
    if CurrentRuns(s)
    then Enqueue(s.(state := s.state[s.current.value := Ready]), s.current.value)
    else s
  }

  function Dispatch<P>(s: Sched<P>): Sched<P>
    requires s.queue != []
  {
    s.(current := Some(s.queue[0]), queue := s.queue[1..], state := s.state[s.queue[0] := Running])
  }

  function Yield<P>(s: Sched<P>): (s': Sched<P>)
    requires WellFormed(s)
    ensures WellFormed(s') && s'.state.Keys == s.state.Keys
  {
    if s.queue == [] then s else Dispatch(Requeue(s))
  }

  function Add<P>(s: Sched<P>, p: P): (s': Sched<P>)
    requires WellFormed(s) && p in s.state
    ensures WellFormed(s') && s'.state.Keys == s.state.Keys
  {
    var s' := if s.pid[p] == 0
              then s.(pid := s.pid[p := s.nextPid], nextPid := Increment(s.nextPid))
              else s;
    if s'.state[p] == Ready then s' else Enqueue(s', p).(state := s'.state[p := Ready])
  }

  /** The queue without the first occurrence of `p`. */
  function Without<P(==)>(q: seq<P>, p: P): seq<P> {
    if q == [] then [] else if q[0] == p then q[1..] else [q[0]] + Without(q[1..], p)
  }

  lemma WithoutOnlyDrops<P>(q: seq<P>, p: P)
    ensures forall i :: 0 <= i < |Without(q, p)| ==> Without(q, p)[i] in q
  {
  }

  function Unlink<P>(s: Sched<P>, p: P): (s': Sched<P>)
    requires WellFormed(s) && p in s.state
    ensures WellFormed(s')
  {
    WithoutOnlyDrops(s.queue, p);
    if s.state[p] == Ready then s.(queue := Without(s.queue, p)) else s
  }

  function Remove<P>(s: Sched<P>, p: P): (s': Sched<P>)
    requires WellFormed(s) && p in s.state
    ensures WellFormed(s') && s'.state.Keys == s.state.Keys
  {
    var s' := Unlink(s, p);
    if s'.current == Some(p)
    then Yield(s'.(current := None, state := s'.state[p := Terminated]))
    else s'
  }

  /** Whether the tick counter, once incremented, is a multiple of the quantum. */
  predicate QuantumEnds(ticks: nat) {
    Increment(ticks) % TIME_QUANTUM == 0
  }

  function Charge<P>(s: Sched<P>, p: P): Sched<P>
    requires p in s.cpuTime
  {
    s.(cpuTime := s.cpuTime[p := Increment(s.cpuTime[p])])
  }

  function Tick<P>(s: Sched<P>): (s': Sched<P>)
    requires WellFormed(s)
    ensures WellFormed(s') && s'.state.Keys == s.state.Keys
  {
    var s' := s.(ticks := Increment(s.ticks));
    if s.current.None? then Yield(s')
    else if QuantumEnds(s.ticks) then Yield(Charge(s', s.current.value))
    else Charge(s', s.current.value)
  }

  function Unblock<P>(s: Sched<P>, p: P): Sched<P>
    requires p in s.state
  {
    if s.state[p] == Blocked then Enqueue(s.(state := s.state[p := Ready]), p) else s
  }

  function Block<P>(s: Sched<P>): (s': Sched<P>)
    requires WellFormed(s)
    ensures WellFormed(s') && s'.state.Keys == s.state.Keys
  {
    if s.current.Some? then Yield(s.(state := s.state[s.current.value := Blocked])) else s
  }

  // ----- scheduler_find_process

  function FindIn<P(==)>(q: seq<P>, pids: map<P, nat>, pid: nat): (p: Option<P>)
    requires forall i :: 0 <= i < |q| ==> q[i] in pids
    ensures p.Some? ==> p.value in q && p.value in pids && pids[p.value] == pid
    ensures p.None? ==> forall i :: 0 <= i < |q| ==> pids[q[i]] != pid
  {
    if q == [] then None else if pids[q[0]] == pid then Some(q[0]) else FindIn(q[1..], pids, pid)
  }

  /** Only the current process and the queued ones can be found. */
  function FindProcess<P>(s: Sched<P>, pid: nat): (p: Option<P>)
    requires WellFormed(s)
    ensures p.Some? ==> p.value in s.pid && s.pid[p.value] == pid && (s.current == p || p.value in s.queue)
    ensures p.None? ==> s.current.Some? ==> s.pid[s.current.value] != pid
    ensures p.None? ==> forall i :: 0 <= i < |s.queue| ==> s.pid[s.queue[i]] != pid
  {
    if s.current.Some? && s.pid[s.current.value] == pid then s.current else FindIn(s.queue, s.pid, pid)
  }

  datatype Step<P> = AddStep(p: P) | RemoveStep(p: P) | TickStep | YieldStep | BlockStep | UnblockStep(p: P)

  predicate Known<P(==)>(step: Step<P>, procs: set<P>) {
    step.AddStep? || step.RemoveStep? || step.UnblockStep? ==> step.p in procs
  }

  function Next<P>(s: Sched<P>, step: Step<P>): (s': Sched<P>)
    requires WellFormed(s) && Known(step, s.state.Keys)
    ensures WellFormed(s') && s'.state.Keys == s.state.Keys
  {
    match step
    case AddStep(p) => Add(s, p)
    case RemoveStep(p) => Remove(s, p)
    case TickStep => Tick(s)
    case YieldStep => Yield(s)
    case BlockStep => Block(s)
    case UnblockStep(p) => Unblock(s, p)
  }

  /** The state after a sequence of steps. */
  function Run<P>(s: Sched<P>, steps: seq<Step<P>>): (s': Sched<P>)
    requires WellFormed(s) && forall k :: 0 <= k < |steps| ==> Known(steps[k], s.state.Keys)
    ensures WellFormed(s') && s'.state.Keys == s.state.Keys
    decreases |steps|
  {
    if steps == [] then s else Run(Next(s, steps[0]), steps[1..])
  }

  // ----- what one step keeps

  lemma WithoutIsRemoval<P>(q: seq<P>, p: P, k: nat)
    requires k < |q| && q[k] == p && p !in q[..k]
    ensures Without(q, p) == q[..k] + q[k + 1..]
  {
    if k > 0 {
      assert q[..k][0] == q[0];
      assert q[1..][..k - 1] == q[..k][1..];
      WithoutIsRemoval(q[1..], p, k - 1);
      assert q[1..][k..] == q[k + 1..];
    }
  }

  lemma WithoutAbsent<P>(q: seq<P>, p: P)
    requires p !in q
    ensures Without(q, p) == q
  {
  }

  lemma WithoutKeepsOthers<P>(q: seq<P>, p: P)
    requires NoDuplicates(q)
    ensures NoDuplicates(Without(q, p)) && p !in Without(q, p)
    ensures forall x :: x in q && x != p ==> x in Without(q, p)
  {
    if p !in q {
      WithoutAbsent(q, p);
    } else {
      var k :| 0 <= k < |q| && q[k] == p;
      WithoutIsRemoval(q, p, k);
      var r := q[..k] + q[k + 1..];
      forall x | x in q && x != p ensures x in r {
        var i :| 0 <= i < |q| && q[i] == x;
        assert r[if i < k then i else i - 1] == x;
      }
    }
  }

  lemma YieldKeepsInv<P>(s: Sched<P>)
    requires Inv(s)
    ensures Inv(Yield(s))
  {
    if s.queue != [] {
      var r := Requeue(s);
      assert NoDuplicates(r.queue) && r.queue[0] == s.queue[0];
      assert forall p :: p in r.state ==> r.state[p] != Running;
    }
  }

  /** The one step that can break the invariant: blocking while queued behind another process. */
  predicate Safe<P>(s: Sched<P>, step: Step<P>) {
    step.BlockStep? && s.current.Some? && s.queue != [] ==> s.current.value !in s.queue[1..]
  }

  lemma BlockKeepsInvIffSafe<P>(s: Sched<P>)
    requires Inv(s)
    ensures Inv(Block(s)) <==> Safe(s, BlockStep)
  {
    if s.current.Some? {
      var c := s.current.value;
      var b := s.(state := s.state[c := Blocked]);
      var s' := Block(s);
      if s.queue == [] {
      } else if c in s.queue[1..] {
        var i :| 0 <= i < |s.queue[1..]| && s.queue[1..][i] == c;
        assert s.queue[1 + i] == c && s.queue[0] != c;
        assert s'.queue[i] == c && s'.state[c] == Blocked;
      } else {
        assert s' == Dispatch(b);
        assert forall i :: 0 <= i < |s'.queue| ==> s'.queue[i] == s.queue[i + 1] != c;
      }
    }
  }

  lemma EnqueueKeepsInv<P>(s: Sched<P>, p: P)
    requires Inv(s) && p in s.state
    ensures Inv(Add(s, p))
    ensures Inv(Unblock(s, p))
  {
  }

  lemma TickKeepsInv<P>(s: Sched<P>)
    requires Inv(s)
    ensures Inv(Tick(s))
  {
    var s' := s.(ticks := Increment(s.ticks));
    if s.current.None? {
      YieldKeepsInv(s');
    } else {
      YieldKeepsInv(Charge(s', s.current.value));
    }
  }

  lemma RemoveKeepsInv<P>(s: Sched<P>, p: P)
    requires Inv(s) && p in s.state
    ensures Inv(Remove(s, p))
  {
    WithoutKeepsOthers(s.queue, p);
    var s' := Unlink(s, p);
    assert Inv(s') by {
      WithoutOnlyDrops(s.queue, p);
    }
    if s'.current == Some(p) {
      YieldKeepsInv(s'.(current := None, state := s'.state[p := Terminated]));
    }
  }

  /** A removed process is out of the scheduler. If it was current it is Terminated, and the first of the others
      in the queue, if there is one, is current and Running; otherwise nothing but the queue changes. */
  lemma RemovedIsGone<P>(s: Sched<P>, p: P)
    requires Inv(s) && p in s.state
    ensures var s', rest := Remove(s, p), Without(s.queue, p);
      && p !in s'.queue && s'.current != Some(p)
      && (s.current != Some(p) ==> s' == s.(queue := rest))
      && (s.current == Some(p) ==> s'.state[p] == Terminated)
      && (s.current == Some(p) && rest != [] ==>
            s'.current == Some(rest[0]) && s'.state[rest[0]] == Running && s'.queue == rest[1..])
      && (s.current == Some(p) && rest == [] ==> s'.current == None && s'.queue == [])
  {
    hide NoDuplicates;
    WithoutKeepsOthers(s.queue, p);
    WithoutOnlyDrops(s.queue, p);
    if s.state[p] != Ready {
      WithoutAbsent(s.queue, p);
    }
  }

  /** A step keeps the invariant exactly when it is not a block of a process that is queued
      behind another one. */
  lemma NextKeepsInvIffSafe<P>(s: Sched<P>, step: Step<P>)
    requires Inv(s) && Known(step, s.state.Keys)
    ensures Inv(Next(s, step)) <==> Safe(s, step)
  {
    match step
    case AddStep(p) => EnqueueKeepsInv(s, p);
    case RemoveStep(p) => RemoveKeepsInv(s, p);
    case TickStep => TickKeepsInv(s);
    case YieldStep => YieldKeepsInv(s);
    case BlockStep => BlockKeepsInvIffSafe(s);
    case UnblockStep(p) => EnqueueKeepsInv(s, p);
  }

  /** Terminated, and neither current nor queued. */
  predicate Retired<P>(s: Sched<P>, p: P) {
    p in s.state && s.state[p] == Terminated && s.current != Some(p) && p !in s.queue
  }

  lemma YieldKeepsRetired<P>(s: Sched<P>, p: P)
    requires WellFormed(s) && Retired(s, p)
    ensures Retired(Yield(s), p)
  {
    assert s.queue != [] ==> s.queue[0] != p;
  }

  /** Only an add brings such a process back. */
  lemma NextKeepsRetired<P>(s: Sched<P>, step: Step<P>, p: P)
    requires WellFormed(s) && Known(step, s.state.Keys) && Retired(s, p) && step != AddStep(p)
    ensures Retired(Next(s, step), p)
  {
    hide Yield;
    match step
    case AddStep(q) =>
    case RemoveStep(q) =>
      WithoutOnlyDrops(s.queue, q);
      var s' := Unlink(s, q);
      YieldKeepsRetired(s'.(current := None, state := s'.state[q := Terminated]), p);
    case TickStep =>
      var s' := s.(ticks := Increment(s.ticks));
      YieldKeepsRetired(if s.current.None? then s' else Charge(s', s.current.value), p);
    case YieldStep => YieldKeepsRetired(s, p);
    case BlockStep =>
      if s.current.Some? {
        YieldKeepsRetired(s.(state := s.state[s.current.value := Blocked]), p);
      }
    case UnblockStep(q) =>
  }

  // ----- what every run keeps

  ghost predicate KnownSteps<P>(s: Sched<P>, steps: seq<Step<P>>) {
    forall k :: 0 <= k < |steps| ==> Known(steps[k], s.state.Keys)
  }

  /** The invariant holds before the run and after each of its steps. */
  ghost predicate InvThroughout<P>(s: Sched<P>, steps: seq<Step<P>>)
    requires WellFormed(s) && KnownSteps(s, steps)
    decreases |steps|
  {
    Inv(s) && (steps != [] ==> InvThroughout(Next(s, steps[0]), steps[1..]))
  }

  ghost predicate SafeThroughout<P>(s: Sched<P>, steps: seq<Step<P>>)
    requires WellFormed(s) && KnownSteps(s, steps)
    decreases |steps|
  {
    steps != [] ==> Safe(s, steps[0]) && SafeThroughout(Next(s, steps[0]), steps[1..])
  }

  /** Over runs of any length and any steps: the invariant holds throughout exactly when no
      process blocks while it is queued behind another. */
  lemma {:induction false} RunKeepsInvIffSafe<P>(s: Sched<P>, steps: seq<Step<P>>)
    requires Inv(s) && KnownSteps(s, steps)
    ensures InvThroughout(s, steps) <==> SafeThroughout(s, steps)
    decreases |steps|
  {
    if steps != [] {
      NextKeepsInvIffSafe(s, steps[0]);
      if Safe(s, steps[0]) {
        RunKeepsInvIffSafe(Next(s, steps[0]), steps[1..]);
      }
    }
  }

  lemma {:induction false} InvAtTheEnd<P>(s: Sched<P>, steps: seq<Step<P>>)
    requires WellFormed(s) && KnownSteps(s, steps) && InvThroughout(s, steps)
    ensures Inv(Run(s, steps))
    decreases |steps|
  {
    if steps != [] {
      InvAtTheEnd(Next(s, steps[0]), steps[1..]);
    }
  }

  /** What `scheduler_init` leaves, over the zeroed process table. */
  ghost predicate Initial<P>(s: Sched<P>) {
    && WellFormed(s)
    && s.current.None? && s.queue == [] && s.ticks == 0 && s.nextPid == 1
    && forall p :: p in s.state ==> s.state[p] == Created
  }

  lemma InitialKeepsInv<P>(s: Sched<P>)
    requires Initial(s)
    ensures Inv(s)
  {
  }

  /** A process that is both current and queued is reachable from any state with a lone current
      process `p`: it blocks with nothing ready and so stays current, and is unblocked behind `q`. */
  lemma CurrentAndQueuedIsReachable<P>(s: Sched<P>, p: P, q: P)
    requires Inv(s) && s.current == Some(p) && s.queue == []
    requires q in s.state && q != p && s.state[q] != Ready
    ensures
      var both := Unblock(Add(Block(s), q), p);
      Inv(both) && both.current == Some(p) && both.queue == [q, p]
  {
    hide Inv, Block;
    BlockAlone(s);
    EnqueueKeepsInv(Block(s), q);
    assert Add(Block(s), q).queue == [q];
    EnqueueKeepsInv(Add(Block(s), q), p);
  }

  /** With nothing ready, a process that blocks stays current. */
  lemma BlockAlone<P>(s: Sched<P>)
    requires Inv(s) && s.current.Some? && s.queue == []
    ensures WellFormed(s) && Block(s) == s.(state := s.state[s.current.value := Blocked]) && Inv(Block(s))
  {
    BlockKeepsInvIffSafe(s);
  }

  /** Blocking there breaks the invariant: the process is queued, but Blocked. */
  lemma BlockingWhileQueuedBreaksInv<P>(s: Sched<P>, p: P, q: P)
    requires Inv(s) && s.current == Some(p) && s.queue == [q, p]
    ensures !Inv(Block(s)) && Block(s).queue == [p] && Block(s).state[p] == Blocked
  {
    BlockKeepsInvIffSafe(s);
    assert s.queue[1] == p && s.queue[1..] == [p];
  }

  // ----- processes that are linked already

  /** What is left of the invariant after such a block: a queued process may be in any state but
      Running. */
  ghost predicate Loose<P>(s: Sched<P>) {
    && WellFormed(s)
    && NoDuplicates(s.queue)
    && (forall i :: 0 <= i < |s.queue| ==> s.state[s.queue[i]] != Running)
    && (forall p :: p in s.state && s.state[p] == Running ==> s.current == Some(p))
  }

  /** The step appends a process to the ready list that is in it. From then on the list is no sequence
      (`LinkedScheduler`), so this machine describes the scheduler up to the first such step. */
  predicate Relinks<P(==)>(s: Sched<P>, step: Step<P>) {
    match step
    case AddStep(p) => p in s.queue && p in s.state && s.state[p] != Ready
    case UnblockStep(p) => p in s.queue && p in s.state && s.state[p] == Blocked
    case _ => false
  }

  ghost predicate NeverRelinks<P>(s: Sched<P>, steps: seq<Step<P>>)
    requires WellFormed(s) && KnownSteps(s, steps)
    decreases |steps|
  {
    steps != [] ==> !Relinks(s, steps[0]) && NeverRelinks(Next(s, steps[0]), steps[1..])
  }

  lemma YieldKeepsLoose<P>(s: Sched<P>)
    requires Loose(s)
    ensures Loose(Yield(s))
    ensures CurrentRuns(s) ==> s.current.value !in s.queue
  {
    if s.queue != [] {
      var r := Requeue(s);
      assert NoDuplicates(r.queue) && r.queue[0] == s.queue[0];
      assert forall p :: p in r.state ==> r.state[p] != Running;
    }
  }

  lemma EnqueueKeepsLoose<P>(s: Sched<P>, p: P)
    requires Loose(s) && p in s.state
    ensures !Relinks(s, AddStep(p)) ==> Loose(Add(s, p))
    ensures !Relinks(s, UnblockStep(p)) ==> Loose(Unblock(s, p))
  {
    if p !in s.queue {
      AppendKeepsLoose(s, p);
    }
  }

  lemma AppendKeepsLoose<P>(s: Sched<P>, p: P)
    requires Loose(s) && p in s.state && p !in s.queue
    ensures Loose(Enqueue(s, p).(state := s.state[p := Ready]))
  {
  }

  lemma RemoveKeepsLoose<P>(s: Sched<P>, p: P)
    requires Loose(s) && p in s.state
    ensures Loose(Remove(s, p))
  {
    WithoutKeepsOthers(s.queue, p);
    var s' := Unlink(s, p);
    assert Loose(s') by {
      WithoutOnlyDrops(s.queue, p);
    }
    if s'.current == Some(p) {
      YieldKeepsLoose(s'.(current := None, state := s'.state[p := Terminated]));
    }
  }

  lemma NextKeepsLoose<P>(s: Sched<P>, step: Step<P>)
    requires Loose(s) && Known(step, s.state.Keys) && !Relinks(s, step)
    ensures Loose(Next(s, step))
  {
    hide Yield, Add, Remove, Unblock;
    match step
    case AddStep(p) => EnqueueKeepsLoose(s, p);
    case RemoveStep(p) => RemoveKeepsLoose(s, p);
    case TickStep =>
      var s' := s.(ticks := Increment(s.ticks));
      YieldKeepsLoose(if s.current.None? then s' else Charge(s', s.current.value));
    case YieldStep => YieldKeepsLoose(s);
    case BlockStep =>
      if s.current.Some? {
        YieldKeepsLoose(s.(state := s.state[s.current.value := Blocked]));
      }
    case UnblockStep(p) => EnqueueKeepsLoose(s, p);
  }

  /** A safe run never links a process twice: under the invariant every queued process is Ready. */
  lemma {:induction false} SafeNeverRelinks<P>(s: Sched<P>, steps: seq<Step<P>>)
    requires Inv(s) && KnownSteps(s, steps) && SafeThroughout(s, steps)
    ensures Loose(s) && NeverRelinks(s, steps)
    decreases |steps|
  {
    if steps != [] {
      NextKeepsInvIffSafe(s, steps[0]);
      SafeNeverRelinks(Next(s, steps[0]), steps[1..]);
    }
  }

  /** With nothing removed, a process is Ready exactly when it is queued. */
  lemma {:induction false} ReadyIffQueued<P>(s: Sched<P>, steps: seq<Step<P>>)
    requires Inv(s) && KnownSteps(s, steps) && SafeThroughout(s, steps) && NoRemovals(steps)
    requires forall p :: p in s.state ==> (s.state[p] == Ready <==> p in s.queue)
    ensures forall p :: p in s.state ==> (Run(s, steps).state[p] == Ready <==> p in Run(s, steps).queue)
    decreases |steps|
  {
    if steps != [] {
      var s' := Next(s, steps[0]);
      NextKeepsInvIffSafe(s, steps[0]);
      forall p | p in s'.state ensures s'.state[p] == Ready <==> p in s'.queue {
        QueueAfterStep(s, steps[0], p);
      }
      ReadyIffQueued(s', steps[1..]);
    }
  }

  lemma QueueAfterStep<P>(s: Sched<P>, step: Step<P>, p: P)
    requires Inv(s) && Known(step, s.state.Keys) && Safe(s, step) && !step.RemoveStep? && p in s.state
    requires s.state[p] == Ready <==> p in s.queue
    ensures Next(s, step).state[p] == Ready <==> p in Next(s, step).queue
  {
    var s' := Next(s, step);
    match step
    case AddStep(q) => EnqueueMember(s.queue, q, p);
    case UnblockStep(q) => EnqueueMember(s.queue, q, p);
    case TickStep => QueueAfterTick(s, p);
    case YieldStep => QueueAfterYield(s, p);
    case BlockStep =>
      if s.current.Some? {
        QueueAfterYield(s.(state := s.state[s.current.value := Blocked]), p);
      }
  }

  lemma QueueAfterTick<P>(s: Sched<P>, p: P)
    requires Inv(s) && p in s.state
    requires s.state[p] == Ready <==> p in s.queue
    ensures Tick(s).state[p] == Ready <==> p in Tick(s).queue
  {
    var s' := s.(ticks := Increment(s.ticks));
    QueueAfterYield(if s.current.None? then s' else Charge(s', s.current.value), p);
  }

  lemma EnqueueMember<P>(q: seq<P>, x: P, p: P)
    ensures p in q + [x] <==> p in q || p == x
  {
  }

  /** A yield keeps "Ready exactly when queued" for every process it does not dispatch. */
  lemma QueueAfterYield<P>(s: Sched<P>, p: P)
    requires WellFormed(s) && NoDuplicates(s.queue) && p in s.state
    requires CurrentRuns(s) ==> s.current.value !in s.queue
    requires (s.state[p] == Ready <==> p in s.queue) || (s.queue != [] && p == s.queue[0]) || s.queue == []
    ensures s.queue != [] ==> (Yield(s).state[p] == Ready <==> p in Yield(s).queue)
  {
    if s.queue != [] {
      var r := Requeue(s);
      assert r.queue == [s.queue[0]] + r.queue[1..] && NoDuplicates(r.queue);
      assert p in r.queue[1..] <==> p in r.queue && p != s.queue[0];
      if CurrentRuns(s) {
        EnqueueMember(s.queue, s.current.value, p);
      }
    }
  }

  // ----- no overtaking

  ghost predicate NoRemovals<P>(steps: seq<Step<P>>) {
    forall k :: 0 <= k < |steps| ==> !steps[k].RemoveStep?
  }

  /** Whether the step hands the CPU to the head of the queue. */
  predicate Dispatches<P>(s: Sched<P>, step: Step<P>) {
    s.queue != [] &&
    match step
    case YieldStep => true
    case BlockStep => s.current.Some?
    case TickStep => s.current.None? || QuantumEnds(s.ticks)
    case _ => false
  }

  /** The processes dispatched in a run without removals, in order. */
  function DispatchLog<P>(s: Sched<P>, steps: seq<Step<P>>): seq<P>
    requires WellFormed(s) && KnownSteps(s, steps)
    decreases |steps|
  {
    if steps == [] then []
    else
      var rest := DispatchLog(Next(s, steps[0]), steps[1..]);
      if Dispatches(s, steps[0]) then [s.queue[0]] + rest else rest
  }

  /** A dispatch makes exactly the head of the queue current and Running; any other step without
      removal leaves the queue in place, possibly longer. */
  lemma DispatchTakesHead<P>(s: Sched<P>, step: Step<P>)
    requires Loose(s) && Known(step, s.state.Keys) && !step.RemoveStep? && !Relinks(s, step)
    ensures var s' := Next(s, step);
      if Dispatches(s, step)
      then s'.current == Some(s.queue[0]) && s'.state[s.queue[0]] == Running && s.queue[1..] <= s'.queue
      else s'.current == s.current && s.queue <= s'.queue
  {
  }

  /** First come, first served: whatever adds, blocks, unblocks, ticks and yields interleave, as long
      as no process is linked twice, the dispatches of a run followed by its final queue start with the
      initial queue. */
  lemma {:induction false} NoOvertaking<P>(s: Sched<P>, steps: seq<Step<P>>)
    requires Loose(s) && KnownSteps(s, steps) && NoRemovals(steps) && NeverRelinks(s, steps)
    ensures s.queue <= DispatchLog(s, steps) + Run(s, steps).queue
    decreases |steps|
  {
    hide Next, Relinks, NoDuplicates;
    if steps != [] {
      var s' := Next(s, steps[0]);
      DispatchTakesHead(s, steps[0]);
      NextKeepsLoose(s, steps[0]);
      NoOvertaking(s', steps[1..]);
      PrefixThroughStep(s.queue, s'.queue, DispatchLog(s', steps[1..]), Run(s', steps[1..]).queue);
    }
  }

  lemma PrefixThroughStep<P>(q: seq<P>, q': seq<P>, log: seq<P>, final: seq<P>)
    requires q' <= log + final
    ensures q <= q' ==> q <= log + final
    ensures q != [] && q[1..] <= q' ==> q <= ([q[0]] + log) + final
  {
    if q != [] && q[1..] <= q' {
      assert ([q[0]] + log) + final == [q[0]] + (log + final);
      assert q == [q[0]] + q[1..];
    }
  }

  /** The process at index `i` is the one dispatched by exactly the (i+1)-th dispatch, and by none
      before. */
  lemma DispatchedInTurn<P>(s: Sched<P>, steps: seq<Step<P>>, i: nat)
    requires Loose(s) && KnownSteps(s, steps) && NoRemovals(steps) && NeverRelinks(s, steps) && i < |s.queue|
    ensures var log := DispatchLog(s, steps);
      if i < |log| then log[i] == s.queue[i] && s.queue[i] !in log[..i]
      else i - |log| < |Run(s, steps).queue| && Run(s, steps).queue[i - |log|] == s.queue[i]
  {
    NoOvertaking(s, steps);
    InTurn(s.queue, DispatchLog(s, steps), Run(s, steps).queue, i);
  }

  lemma InTurn<P>(q: seq<P>, log: seq<P>, final: seq<P>, i: nat)
    requires NoDuplicates(q) && q <= log + final && i < |q|
    ensures if i < |log| then log[i] == q[i] && q[i] !in log[..i]
      else i - |log| < |final| && final[i - |log|] == q[i]
  {
    assert forall k :: 0 <= k <= i ==> (log + final)[k] == q[k];
    if i < |log| {
      forall k | 0 <= k < i ensures log[k] != q[i] {
        assert log[k] == (log + final)[k];
      }
    }
  }

  // ----- a bound in timer ticks

  function TickCount<P>(steps: seq<Step<P>>): nat {
    if steps == [] then 0 else (if steps[0].TickStep? then 1 else 0) + TickCount(steps[1..])
  }

  /** How many ticks until the counter is next a multiple of the quantum. The last quantum before
      the 32-bit wrap is shorter than the others, since 2^32 is not a multiple of ten. */
  function TicksToQuantumEnd(ticks: nat): (n: int) {
    if ticks >= WORD_VALUES - WORD_VALUES % TIME_QUANTUM then WORD_VALUES - ticks
    else TIME_QUANTUM - ticks % TIME_QUANTUM
  }

  lemma QuantumCountdown(ticks: nat)
    requires ticks < WORD_VALUES
    ensures 1 <= TicksToQuantumEnd(ticks) <= TIME_QUANTUM
    ensures QuantumEnds(ticks) <==> TicksToQuantumEnd(ticks) == 1
    ensures !QuantumEnds(ticks) ==> TicksToQuantumEnd(Increment(ticks)) == TicksToQuantumEnd(ticks) - 1
  {
  }

  lemma StepCountdown<P>(s: Sched<P>, step: Step<P>)
    requires WellFormed(s) && Known(step, s.state.Keys) && !step.RemoveStep?
    ensures var left := TicksToQuantumEnd(Next(s, step).ticks);
      && 1 <= left <= TIME_QUANTUM
      && (step.TickStep? && s.queue != [] && !Dispatches(s, step) ==> left == TicksToQuantumEnd(s.ticks) - 1)
      && (!step.TickStep? ==> left == TicksToQuantumEnd(s.ticks))
  {
    QuantumCountdown(s.ticks);
    QuantumCountdown(Next(s, step).ticks);
  }

  /** The process at index `i` is dispatched within 10 * (i+1) timer ticks, even when the tick
      counter wraps on the way. */
  lemma {:induction false} DispatchedWithinTicks<P>(s: Sched<P>, steps: seq<Step<P>>, i: nat)
    requires Loose(s) && KnownSteps(s, steps) && NoRemovals(steps) && NeverRelinks(s, steps) && i < |s.queue|
    requires steps != [] && TickCount(steps) >= TicksToQuantumEnd(s.ticks) + 10 * i
    ensures i < |DispatchLog(s, steps)| && DispatchLog(s, steps)[i] == s.queue[i]
    decreases |steps|
  {
    hide Next;
    var s' := Next(s, steps[0]);
    DispatchTakesHead(s, steps[0]);
    NextKeepsLoose(s, steps[0]);
    StepCountdown(s, steps[0]);
    QuantumCountdown(s.ticks);
    assert TickCount(steps) == (if steps[0].TickStep? then 1 else 0) + TickCount(steps[1..]);
    if Dispatches(s, steps[0]) {
      if i > 0 {
        DispatchedWithinTicks(s', steps[1..], i - 1);
      }
    } else {
      DispatchedWithinTicks(s', steps[1..], i);
    }
  }

  lemma DispatchedWithinQuanta<P>(s: Sched<P>, steps: seq<Step<P>>, i: nat)
    requires Loose(s) && KnownSteps(s, steps) && NoRemovals(steps) && NeverRelinks(s, steps) && i < |s.queue|
    requires TickCount(steps) >= 10 * (i + 1)
    ensures i < |DispatchLog(s, steps)| && DispatchLog(s, steps)[i] == s.queue[i]
  {
    QuantumCountdown(s.ticks);
    DispatchedWithinTicks(s, steps, i);
  }

  /** Nothing but ticks. */
  ghost predicate OnlyTicks<P>(steps: seq<Step<P>>) {
    forall k :: 0 <= k < |steps| ==> steps[k] == TickStep
  }

  /** And nobody loses the processor to a tick before its quantum of ten ticks has ended: until the counter is
      next a multiple of ten, ticks change nothing but the counter and the time charged. */
  lemma {:induction false} QuantumIsKept<P>(s: Sched<P>, steps: seq<Step<P>>)
    requires WellFormed(s) && s.current.Some? && OnlyTicks(steps)
    requires s.ticks % 10 + |steps| < 10 && s.ticks + |steps| < WORD_VALUES
    ensures KnownSteps(s, steps)
    ensures var s' := Run(s, steps);
      && s'.ticks == s.ticks + |steps|
      && s' == s.(ticks := s'.ticks, cpuTime := s'.cpuTime)
    decreases |steps|
  {
    if steps != [] {
      var s' := Next(s, steps[0]);
      assert !QuantumEnds(s.ticks);
      QuantumIsKept(s', steps[1..]);
    }
  }

  /** Without a current process a tick dispatches the head of the queue at once. */
  lemma IdleTickDispatches<P>(s: Sched<P>)
    requires WellFormed(s) && s.current.None? && s.queue != []
    ensures var s' := Tick(s);
      s'.current == Some(s.queue[0]) && s'.queue == s.queue[1..] && s'.state == s.state[s.queue[0] := Running]
  {
  }

  // ----- processor time

  /** How many ticks of a run come while `p` is current. */
  function TicksHeld<P>(s: Sched<P>, steps: seq<Step<P>>, p: P): nat
    requires WellFormed(s) && KnownSteps(s, steps)
    decreases |steps|
  {
    if steps == [] then 0
    else
      (if steps[0] == TickStep && s.current == Some(p) then 1 else 0) + TicksHeld(Next(s, steps[0]), steps[1..], p)
  }

  lemma StepCharges<P>(s: Sched<P>, step: Step<P>, p: P)
    requires WellFormed(s) && Known(step, s.state.Keys) && p in s.cpuTime
    ensures var s' := Next(s, step);
      p in s'.cpuTime && s'.cpuTime[p] ==
        if step == TickStep && s.current == Some(p) then Wrap(s.cpuTime[p] + 1) else s.cpuTime[p]
  {
    hide Without, Wrap;
  }

  /** Over every run, a process is charged exactly the ticks that came while it was current. */
  lemma {:induction false} ChargedForTicksHeld<P>(s: Sched<P>, steps: seq<Step<P>>, p: P)
    requires WellFormed(s) && KnownSteps(s, steps) && p in s.cpuTime && s.cpuTime[p] < WORD_VALUES
    ensures var s' := Run(s, steps); p in s'.cpuTime && s'.cpuTime[p] == Wrap(s.cpuTime[p] + TicksHeld(s, steps, p))
    decreases |steps|
  {
    hide Next, Wrap, WellFormed;
    if steps != [] {
      var s' := Next(s, steps[0]);
      StepCharges(s, steps[0], p);
      ChargedForTicksHeld(s', steps[1..], p);
      WrapAgain(s.cpuTime[p] + 1, TicksHeld(s', steps[1..], p));
    }
  }

  // ----- identifiers that the scheduler gives

  /** Processes of the set have no identifier yet, or one that was given from `lo` on; no two have the same. */
  ghost predicate Given<P>(s: Sched<P>, lo: nat, procs: set<P>) {
    && procs <= s.pid.Keys && lo <= s.nextPid
    && (forall p :: p in procs ==> s.pid[p] == 0 || lo <= s.pid[p] < s.nextPid)
    && (forall p, q :: p in procs && q in procs && p != q && s.pid[p] != 0 ==> s.pid[p] != s.pid[q])
  }

  lemma StepGives<P>(s: Sched<P>, step: Step<P>, lo: nat, procs: set<P>)
    requires WellFormed(s) && Known(step, s.state.Keys) && Given(s, lo, procs) && s.nextPid + 1 < WORD_VALUES
    ensures var s' := Next(s, step); Given(s', lo, procs) && s'.nextPid <= s.nextPid + 1
    ensures forall p :: p in s.pid && s.pid[p] != 0 ==> Next(s, step).pid[p] == s.pid[p]
    ensures step.AddStep? && lo > 0 ==> Next(s, step).pid[step.p] != 0
  {
    hide Next;
    StepNumbers(s, step);
  }

  lemma StepNumbers<P>(s: Sched<P>, step: Step<P>)
    requires WellFormed(s) && Known(step, s.state.Keys)
    ensures var s' := Next(s, step);
      if step.AddStep? && s.pid[step.p] == 0
      then s'.pid == s.pid[step.p := s.nextPid] && s'.nextPid == Wrap(s.nextPid + 1)
      else s'.pid == s.pid && s'.nextPid == s.nextPid
  {
    hide Without;
  }

  /** Over every run, as long as the counter does not pass its end: processes that come without an identifier
      get distinct ones, and keep them. */
  lemma {:induction false} IdentifiersAreDistinct<P>(s: Sched<P>, steps: seq<Step<P>>, lo: nat, procs: set<P>)
    requires WellFormed(s) && KnownSteps(s, steps) && Given(s, lo, procs) && s.nextPid + |steps| < WORD_VALUES
    ensures Given(Run(s, steps), lo, procs)
    ensures forall p :: p in s.pid && s.pid[p] != 0 ==> p in Run(s, steps).pid && Run(s, steps).pid[p] == s.pid[p]
    decreases |steps|
  {
    hide Next, Given;
    if steps != [] {
      StepGives(s, steps[0], lo, procs);
      IdentifiersAreDistinct(Next(s, steps[0]), steps[1..], lo, procs);
    }
  }

  // ----- process exit

  /** `process_exit` marks the process Terminated before it asks the scheduler to remove it. */
  function Exit<P>(s: Sched<P>, p: P): Sched<P>
    requires WellFormed(s) && p in s.state
  {
    Remove(s.(state := s.state[p := Terminated]), p)
  }

  /** After an exit the process is out of the scheduler exactly when it was not queued before:
      only Ready processes are unlinked, and an exiting one is no longer Ready. */
  lemma ExitLeavesSchedulerIffNotQueued<P>(s: Sched<P>, p: P)
    requires Inv(s) && p in s.state
    ensures (p !in Exit(s, p).queue && Exit(s, p).current != Some(p)) <==> p !in s.queue
  {
    var s' := Exit(s, p);
    if p in s.queue {
      var i :| 0 <= i < |s.queue| && s.queue[i] == p;
      if s.current == Some(p) && i > 0 {
        assert s'.queue[i - 1] == p;
      }
    } else if s.current == Some(p) && s.queue != [] {
      assert s'.queue == s.queue[1..] && s'.current == Some(s.queue[0]);
    }
  }
}
