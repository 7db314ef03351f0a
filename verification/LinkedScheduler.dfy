/** The scheduler on the pointers themselves: every step in every state, also when the ready list is no
    longer a sequence. It is the machine of `SchedulerSpec` exactly until a process is linked twice. */
module LinkedScheduler {
  import opened Common
  import opened ReadyLinks
  import opened SchedulerSpec

  datatype Linked<!P(==)> = Linked(
    links: Links<P>,
    current: Option<P>,
    state: map<P, ProcessState>,
    pid: map<P, nat>,
    cpuTime: map<P, nat>,
    ticks: nat,
    nextPid: nat)

  /** Every pointer is to a process control block. */
  ghost predicate WellFormed<P>(l: Linked<P>) {
    && Closed(l.links)
    && l.links.next.Keys == l.state.Keys == l.pid.Keys == l.cpuTime.Keys
    && (l.current.Some? ==> l.current.value in l.state)
    && l.ticks < WORD_VALUES
    && l.nextPid < WORD_VALUES
  }

  // ----- the steps

  function AddToReady<P>(l: Linked<P>, p: P): (l': Linked<P>)
    requires WellFormed(l) && p in l.state
    ensures WellFormed(l') && l'.state == l.state
  {
    AppendKeepsClosed(l.links, p);
    l.(links := Append(l.links, p))
  }

  function RemoveFromReady<P>(l: Linked<P>, p: P): (l': Linked<P>)
    requires WellFormed(l) && p in l.state
    ensures WellFormed(l') && l'.state == l.state
  {
    DeleteKeepsClosed(l.links, p);
    l.(links := Delete(l.links, p))
  }

  predicate CurrentRuns<P>(l: Linked<P>)
    requires WellFormed(l)
  {
    l.current.Some? && l.state[l.current.value] == Running
  }

  function Requeue<P>(l: Linked<P>): (l': Linked<P>)
    requires WellFormed(l)
    ensures WellFormed(l') && l'.state.Keys == l.state.Keys && (l.links.head.Some? ==> l'.links.head == l.links.head)
  {
    if CurrentRuns(l) then AddToReady(l.(state := l.state[l.current.value := Ready]), l.current.value) else l
  }

  function Dispatch<P>(l: Linked<P>): (l': Linked<P>)
    requires WellFormed(l) && l.links.head.Some?
    ensures WellFormed(l') && l'.state.Keys == l.state.Keys
  {
    var p := l.links.head.value;
    RemoveFromReady(l, p).(current := Some(p), state := l.state[p := Running])
  }

  function Yield<P>(l: Linked<P>): (l': Linked<P>)
    requires WellFormed(l)
    ensures WellFormed(l') && l'.state.Keys == l.state.Keys
  {
    if l.links.head.None? then l else Dispatch(Requeue(l))
  }

  function AssignPid<P>(l: Linked<P>, p: P): (l': Linked<P>)
    requires WellFormed(l) && p in l.state
    ensures WellFormed(l') && l'.state == l.state
  {
    if l.pid[p] == 0 then l.(pid := l.pid[p := l.nextPid], nextPid := Increment(l.nextPid)) else l
  }

  function Add<P>(l: Linked<P>, p: P): (l': Linked<P>)
    requires WellFormed(l) && p in l.state
    ensures WellFormed(l') && l'.state.Keys == l.state.Keys
  {
    var l' := AssignPid(l, p);
    if l'.state[p] == Ready then l' else AddToReady(l', p).(state := l'.state[p := Ready])
  }

  function Unlink<P>(l: Linked<P>, p: P): (l': Linked<P>)
    requires WellFormed(l) && p in l.state
    ensures WellFormed(l') && l'.state == l.state
  {
    if l.state[p] == Ready then RemoveFromReady(l, p) else l
  }

  /** The current process goes. */
  function Leave<P>(l: Linked<P>, p: P): (l': Linked<P>)
    requires WellFormed(l) && p in l.state
    ensures WellFormed(l') && l'.state.Keys == l.state.Keys
  {
    hide Closed;
    l.(current := None, state := l.state[p := Terminated])
  }

  function Remove<P>(l: Linked<P>, p: P): (l': Linked<P>)
    requires WellFormed(l) && p in l.state
    ensures WellFormed(l') && l'.state.Keys == l.state.Keys
  {
    var l' := Unlink(l, p);
    if l'.current == Some(p) then Yield(Leave(l', p)) else l'
  }

  function Charge<P>(l: Linked<P>, p: P): Linked<P>
    requires p in l.cpuTime
  {
    l.(cpuTime := l.cpuTime[p := Increment(l.cpuTime[p])])
  }

  function Tick<P>(l: Linked<P>): (l': Linked<P>)
    requires WellFormed(l)
    ensures WellFormed(l') && l'.state.Keys == l.state.Keys
  {
    var l' := l.(ticks := Increment(l.ticks));
    if l.current.None? then Yield(l')
    else if QuantumEnds(l.ticks) then Yield(Charge(l', l.current.value))
    else Charge(l', l.current.value)
  }

  function Unblock<P>(l: Linked<P>, p: P): (l': Linked<P>)
    requires WellFormed(l) && p in l.state
    ensures WellFormed(l') && l'.state.Keys == l.state.Keys
  {
    if l.state[p] == Blocked then AddToReady(l.(state := l.state[p := Ready]), p) else l
  }

  function Block<P>(l: Linked<P>): (l': Linked<P>)
    requires WellFormed(l)
    ensures WellFormed(l') && l'.state.Keys == l.state.Keys
  {
    if l.current.Some? then Yield(l.(state := l.state[l.current.value := Blocked])) else l
  }

  function Next<P>(l: Linked<P>, step: Step<P>): (l': Linked<P>)
    requires WellFormed(l) && Known(step, l.state.Keys)
    ensures WellFormed(l') && l'.state.Keys == l.state.Keys
  {
    match step
    case AddStep(p) => Add(l, p)
    case RemoveStep(p) => Remove(l, p)
    case TickStep => Tick(l)
    case YieldStep => Yield(l)
    case BlockStep => Block(l)
    case UnblockStep(p) => Unblock(l, p)
  }

  function Run<P>(l: Linked<P>, steps: seq<Step<P>>): (l': Linked<P>)
    requires WellFormed(l) && forall k :: 0 <= k < |steps| ==> Known(steps[k], l.state.Keys)
    ensures WellFormed(l') && l'.state.Keys == l.state.Keys
    decreases |steps|
  {
    if steps == [] then l else Run(Next(l, steps[0]), steps[1..])
  }

  // ----- the sequence machine

  /** The state over the sequence that the pointers are. */
  function View<P>(l: Linked<P>): Sched<P> {
    Sched(l.current, SequenceOf(l.links), l.state, l.pid, l.cpuTime, l.ticks, l.nextPid)
  }

  /** The pointers are the queue of `s`, and the fields are those of `s`. */
  ghost predicate Refines<P>(l: Linked<P>, s: Sched<P>) {
    && WellFormed(l) && Represents(l.links, s.queue)
    && s == Sched(l.current, s.queue, l.state, l.pid, l.cpuTime, l.ticks, l.nextPid)
  }

  lemma RefinesIsView<P>(l: Linked<P>, s: Sched<P>)
    requires Refines(l, s)
    ensures View(l) == s && IsSequence(l.links) && SchedulerSpec.WellFormed(s)
    ensures l.links.head == if s.queue == [] then None else Some(s.queue[0])
  {
    OneSequence(l.links, s.queue);
    assert forall i :: 0 <= i < |s.queue| ==> s.queue[i] in s.queue;
  }

  lemma RequeueRefines<P>(l: Linked<P>, s: Sched<P>)
    requires Refines(l, s) && SchedulerSpec.WellFormed(s)
    requires SchedulerSpec.CurrentRuns(s) ==> s.current.value !in s.queue
    ensures Refines(Requeue(l), SchedulerSpec.Requeue(s))
  {
    hide Represents, Append, Closed;
    if CurrentRuns(l) {
      AppendRepresents(l.links, s.queue, l.current.value);
    }
  }

  lemma DispatchRefines<P>(l: Linked<P>, s: Sched<P>)
    requires Refines(l, s) && s.queue != [] && l.links.head == Some(s.queue[0])
    ensures Refines(Dispatch(l), SchedulerSpec.Dispatch(s))
  {
    hide Represents, Delete;
    DeleteRepresents(l.links, s.queue, s.queue[0]);
    assert Without(s.queue, s.queue[0]) == s.queue[1..];
  }

  lemma YieldRefines<P>(l: Linked<P>, s: Sched<P>)
    requires Refines(l, s) && SchedulerSpec.WellFormed(s)
    requires SchedulerSpec.CurrentRuns(s) ==> s.current.value !in s.queue
    ensures Refines(Yield(l), SchedulerSpec.Yield(s))
  {
    hide Represents, Requeue, Dispatch;
    RefinesIsView(l, s);
    if s.queue != [] {
      RequeueRefines(l, s);
      RefinesIsView(Requeue(l), SchedulerSpec.Requeue(s));
      DispatchRefines(Requeue(l), SchedulerSpec.Requeue(s));
    }
  }

  lemma AppendRefines<P>(l: Linked<P>, s: Sched<P>, p: P)
    requires Refines(l, s) && p in l.state && p !in s.queue
    ensures Refines(AddToReady(l, p), Enqueue(s, p))
  {
    hide Represents, Append, Closed;
    AppendRepresents(l.links, s.queue, p);
  }

  lemma UnlinkRefines<P>(l: Linked<P>, s: Sched<P>, p: P)
    requires Refines(l, s) && SchedulerSpec.WellFormed(s) && p in s.state
    ensures Refines(Unlink(l, p), SchedulerSpec.Unlink(s, p))
  {
    hide Represents, Delete, Closed, Without;
    DeleteRepresents(l.links, s.queue, p);
  }

  lemma LeaveRefines<P>(l: Linked<P>, s: Sched<P>, p: P)
    requires Refines(l, s) && SchedulerSpec.WellFormed(s) && p in s.state
    ensures var s' := s.(current := None, state := s.state[p := Terminated]);
      SchedulerSpec.WellFormed(s') && Refines(Yield(Leave(l, p)), SchedulerSpec.Yield(s'))
  {
    hide Represents, Closed, Yield, SchedulerSpec.Yield;
    YieldRefines(Leave(l, p), s.(current := None, state := s.state[p := Terminated]));
  }

  lemma RemoveRefines<P>(l: Linked<P>, s: Sched<P>, p: P)
    requires Refines(l, s) && SchedulerSpec.WellFormed(s) && p in s.state
    ensures Refines(Remove(l, p), SchedulerSpec.Remove(s, p))
  {
    hide Represents, Closed, Yield, SchedulerSpec.Yield, Unlink, SchedulerSpec.Unlink;
    UnlinkRefines(l, s, p);
    LeaveRefines(Unlink(l, p), SchedulerSpec.Unlink(s, p), p);
  }

  /** A step on the pointers is the step of the sequence machine, unless it links a process twice. */
  lemma NextRefines<P>(l: Linked<P>, s: Sched<P>, step: Step<P>)
    requires Refines(l, s) && Loose(s) && Known(step, s.state.Keys) && !Relinks(s, step)
    ensures Refines(Next(l, step), SchedulerSpec.Next(s, step))
  {
    hide Represents, Append, Delete, Closed, Yield, SchedulerSpec.Yield, Remove, SchedulerSpec.Remove;
    YieldKeepsLoose(s);
    match step
    case AddStep(p) => AddRefines(l, s, p);
    case RemoveStep(p) => RemoveRefines(l, s, p);
    case TickStep => TickRefines(l, s);
    case YieldStep => YieldRefines(l, s);
    case BlockStep =>
      if l.current.Some? {
        YieldRefines(l.(state := l.state[l.current.value := Blocked]),
          s.(state := s.state[s.current.value := Blocked]));
      }
    case UnblockStep(p) =>
      if s.state[p] == Blocked {
        AppendRefines(l.(state := l.state[p := Ready]), s.(state := s.state[p := Ready]), p);
      }
  }

  lemma AddRefines<P>(l: Linked<P>, s: Sched<P>, p: P)
    requires Refines(l, s) && Loose(s) && p in s.state && !Relinks(s, AddStep(p))
    ensures Refines(Add(l, p), SchedulerSpec.Add(s, p))
  {
    hide Represents, Append, Closed;
    if s.state[p] != Ready {
      var l1 := AssignPid(l, p);
      var s1 := if s.pid[p] == 0 then s.(pid := s.pid[p := s.nextPid], nextPid := Increment(s.nextPid)) else s;
      AppendRefines(l1, s1, p);
    }
  }

  lemma TickRefines<P>(l: Linked<P>, s: Sched<P>)
    requires Refines(l, s) && Loose(s)
    ensures Refines(Tick(l), SchedulerSpec.Tick(s))
  {
    hide Represents, Closed, Yield, SchedulerSpec.Yield;
    YieldKeepsLoose(s);
    var l1, s1 := l.(ticks := Increment(l.ticks)), s.(ticks := Increment(s.ticks));
    if l.current.None? {
      YieldRefines(l1, s1);
    } else {
      YieldRefines(Charge(l1, l.current.value), SchedulerSpec.Charge(s1, s.current.value));
    }
  }

  /** A step that links a process twice leaves pointers that are no sequence. */
  lemma RelinkBreaks<P>(l: Linked<P>, s: Sched<P>, step: Step<P>)
    requires Refines(l, s) && Loose(s) && Known(step, s.state.Keys) && Relinks(s, step)
    ensures !IsSequence(Next(l, step).links)
  {
    hide Represents, Append, Closed;
    AppendTwiceIsNoSequence(l.links, s.queue, step.p, SequenceOf(Append(l.links, step.p)));
  }

  /** The pointers are a sequence for which the scheduler's invariant holds. */
  ghost predicate Sound<P>(l: Linked<P>) {
    WellFormed(l) && IsSequence(l.links) && Inv(View(l))
  }

  lemma SequenceRefines<P>(l: Linked<P>)
    requires WellFormed(l) && IsSequence(l.links)
    ensures Refines(l, View(l)) && SchedulerSpec.WellFormed(View(l))
  {
    hide Represents, SequenceOf;
    RefinesIsView(l, View(l));
  }

  /** From there, a step on the pointers is that of the sequence machine, and leads to such pointers again
      exactly when it is safe. */
  lemma SoundStep<P>(l: Linked<P>, step: Step<P>)
    requires Sound(l) && Known(step, l.state.Keys)
    ensures SchedulerSpec.WellFormed(View(l)) && View(Next(l, step)) == SchedulerSpec.Next(View(l), step)
    ensures IsSequence(Next(l, step).links) && (Sound(Next(l, step)) <==> Safe(View(l), step))
  {
    hide Represents, SequenceOf, IsSequence, WellFormed, SchedulerSpec.WellFormed, Next, SchedulerSpec.Next, Loose;
    hide Inv, Refines, Safe;
    SequenceRefines(l);
    InvIsLoose(View(l));
    InvNeverRelinks(View(l), step);
    NextRefines(l, View(l), step);
    RefinesIsView(Next(l, step), SchedulerSpec.Next(View(l), step));
    NextKeepsInvIffSafe(View(l), step);
  }

  /** From a sequence on which less is known, it is one again exactly when it links no process twice. */
  lemma LooseStep<P>(l: Linked<P>, step: Step<P>)
    requires WellFormed(l) && IsSequence(l.links) && Loose(View(l)) && Known(step, l.state.Keys)
    ensures SchedulerSpec.WellFormed(View(l)) && (IsSequence(Next(l, step).links) <==> !Relinks(View(l), step))
    ensures !Relinks(View(l), step) ==>
      View(Next(l, step)) == SchedulerSpec.Next(View(l), step) && Loose(View(Next(l, step)))
  {
    hide Represents, SequenceOf, IsSequence, WellFormed, SchedulerSpec.WellFormed, Next, SchedulerSpec.Next, Loose;
    hide Refines, Relinks;
    SequenceRefines(l);
    if Relinks(View(l), step) {
      RelinkBreaks(l, View(l), step);
    } else {
      NextRefines(l, View(l), step);
      RefinesIsView(Next(l, step), SchedulerSpec.Next(View(l), step));
      NextKeepsLoose(View(l), step);
    }
  }

  lemma InvNeverRelinks<P>(s: Sched<P>, step: Step<P>)
    requires Inv(s)
    ensures !Relinks(s, step)
  {
  }

  // ----- every run

  /** The ready list is one sequence before the run and after each of its steps. */
  ghost predicate SequenceThroughout<P>(l: Linked<P>, steps: seq<Step<P>>)
    requires WellFormed(l) && forall k :: 0 <= k < |steps| ==> Known(steps[k], l.state.Keys)
    decreases |steps|
  {
    IsSequence(l.links) && (steps != [] ==> SequenceThroughout(Next(l, steps[0]), steps[1..]))
  }

  /** In every run the ready list stays one sequence exactly when no step links a process that is
      linked already; and then the run is that of the sequence machine. */
  lemma {:induction false} RunIsSequenceIff<P>(l: Linked<P>, s: Sched<P>, steps: seq<Step<P>>)
    requires Refines(l, s) && Loose(s) && KnownSteps(s, steps)
    ensures SequenceThroughout(l, steps) <==> NeverRelinks(s, steps)
    ensures NeverRelinks(s, steps) ==> Refines(Run(l, steps), SchedulerSpec.Run(s, steps))
    decreases |steps|
  {
    hide Represents, Next, SchedulerSpec.Next, Loose;
    RefinesIsView(l, s);
    if steps != [] {
      if Relinks(s, steps[0]) {
        RelinkBreaks(l, s, steps[0]);
      } else {
        NextRefines(l, s, steps[0]);
        NextKeepsLoose(s, steps[0]);
        RunIsSequenceIff(Next(l, steps[0]), SchedulerSpec.Next(s, steps[0]), steps[1..]);
      }
    }
  }

  // ----- no overtaking, on the pointers

  /** Whether the step hands the CPU to the head of the list. */
  predicate Dispatches<P(==)>(l: Linked<P>, step: Step<P>) {
    l.links.head.Some? &&
    match step
    case YieldStep => true
    case BlockStep => l.current.Some?
    case TickStep => l.current.None? || QuantumEnds(l.ticks)
    case _ => false
  }

  /** The processes dispatched in a run without removals, in order. */
  function Log<P>(l: Linked<P>, steps: seq<Step<P>>): seq<P>
    requires WellFormed(l) && forall k :: 0 <= k < |steps| ==> Known(steps[k], l.state.Keys)
    decreases |steps|
  {
    if steps == [] then []
    else
      var rest := Log(Next(l, steps[0]), steps[1..]);
      if Dispatches(l, steps[0]) then [l.links.head.value] + rest else rest
  }

  lemma DispatchesAlike<P>(l: Linked<P>, s: Sched<P>, step: Step<P>)
    requires Refines(l, s)
    ensures Dispatches(l, step) == SchedulerSpec.Dispatches(s, step)
    ensures Dispatches(l, step) ==> l.links.head == Some(s.queue[0])
  {
    hide Represents;
    RefinesIsView(l, s);
  }

  lemma {:induction false} LogIsDispatchLog<P>(l: Linked<P>, s: Sched<P>, steps: seq<Step<P>>)
    requires Refines(l, s) && Loose(s) && KnownSteps(s, steps) && NeverRelinks(s, steps)
    ensures Log(l, steps) == DispatchLog(s, steps)
    decreases |steps|
  {
    hide Represents, Closed, Next, SchedulerSpec.Next, Loose, Dispatches, SchedulerSpec.Dispatches, Relinks;
    RefinesIsView(l, s);
    if steps != [] {
      DispatchesAlike(l, s, steps[0]);
      NextRefines(l, s, steps[0]);
      NextKeepsLoose(s, steps[0]);
      LogIsDispatchLog(Next(l, steps[0]), SchedulerSpec.Next(s, steps[0]), steps[1..]);
    }
  }

  /** On the pointers: if no process is removed or linked twice, the process at index `i` of the list is
      the one that the (i+1)-th dispatch takes, and that is within 10 * (i+1) ticks. */
  lemma DispatchedInTurnWithinQuanta<P>(l: Linked<P>, s: Sched<P>, steps: seq<Step<P>>, i: nat)
    requires Refines(l, s) && Loose(s) && KnownSteps(s, steps) && NoRemovals(steps) && NeverRelinks(s, steps)
    requires i < |s.queue| && TickCount(steps) >= 10 * (i + 1)
    ensures i < |Log(l, steps)| && Log(l, steps)[i] == s.queue[i] && s.queue[i] !in Log(l, steps)[..i]
  {
    hide Represents, Log, DispatchLog;
    LogIsDispatchLog(l, s, steps);
    DispatchedWithinQuanta(s, steps, i);
    DispatchedInTurn(s, steps, i);
  }

  // ----- what happens when a process is linked twice

  /** `p` has the CPU, is the head of the list, and is not linked to the rest of it. */
  ghost predicate Hoards<P>(l: Linked<P>, p: P) {
    && WellFormed(l) && p in l.state && l.state[p] == Running && l.current == Some(p)
    && l.links.head == Some(p) && l.links.next[p] == None && l.links.prev[p] == None
    && l.links.tail.Some? && l.links.tail != Some(p)
  }

  lemma YieldHoards<P>(l: Linked<P>, p: P)
    requires Hoards(l, p)
    ensures Hoards(Yield(l), p) && Yield(l).state == l.state
  {
    assert l.state[p := Ready][p := Running] == l.state;
  }

  /** The steps of other processes, and of the clock. */
  predicate Elsewhere<P(==)>(step: Step<P>, p: P) {
    step.TickStep? || step.YieldStep? || (step.AddStep? && step.p != p) || step.UnblockStep?
  }

  lemma UnblockHoards<P>(l: Linked<P>, p: P, x: P)
    requires Hoards(l, p) && x in l.state
    ensures Hoards(Unblock(l, x), p)
  {
    hide AddToReady, Closed;
    if l.state[x] == Blocked {
      AppendHoards(l.(state := l.state[x := Ready]), p, x);
    }
  }

  lemma AppendHoards<P>(l: Linked<P>, p: P, x: P)
    requires Hoards(l, p) && x in l.state && x != p
    ensures Hoards(AddToReady(l, x), p)
  {
  }

  lemma StepHoards<P>(l: Linked<P>, step: Step<P>, p: P, r: P)
    requires Hoards(l, p) && Known(step, l.state.Keys) && Elsewhere(step, p)
    requires r in l.state && r != p && l.state[r] == Ready
    ensures Hoards(Next(l, step), p) && Next(l, step).state[r] == Ready
  {
    hide Yield, AddToReady, Closed;
    match step
    case TickStep => YieldHoards(Charge(l.(ticks := Increment(l.ticks)), p), p);
    case YieldStep => YieldHoards(l, p);
    case AddStep(x) => AppendHoards(AssignPid(l, x), p, x);
    case UnblockStep(x) => UnblockHoards(l, p, x);
  }

  /** From then on, however many ticks and yields pass and whatever is added and unblocked, only `p` is
      dispatched: a Ready process waits for ever. */
  lemma {:induction false} OnlyHoarderIsDispatched<P>(l: Linked<P>, steps: seq<Step<P>>, p: P, r: P)
    requires Hoards(l, p) && forall k :: 0 <= k < |steps| ==> Known(steps[k], l.state.Keys) && Elsewhere(steps[k], p)
    requires r in l.state && r != p && l.state[r] == Ready
    ensures Hoards(Run(l, steps), p) && Run(l, steps).state[r] == Ready
    ensures forall k :: 0 <= k < |Log(l, steps)| ==> Log(l, steps)[k] == p
    decreases |steps|
  {
    hide Next, Hoards, Dispatches, WellFormed, Elsewhere;
    if steps != [] {
      HoardsIsWellFormed(l, p);
      StepHoards(l, steps[0], p, r);
      OnlyHoarderIsDispatched(Next(l, steps[0]), steps[1..], p, r);
    }
  }

  lemma HoardsIsWellFormed<P>(l: Linked<P>, p: P)
    requires Hoards(l, p)
    ensures WellFormed(l) && l.links.head == Some(p)
  {
  }

  /** What the pointers of the list [p, r] are after `p` is appended once more, `q` behind it, and `p`
      taken off. */
  lemma CutOff<P>(k: Links<P>, p: P, q: P, r: P)
    requires Represents(k, [p, r]) && q in k.next && q != p && q != r
    ensures var k' := Delete(Append(Append(k, p), q), p);
      k'.head == Some(p) && k'.next[p] == None && k'.prev[p] == None && k'.tail == Some(q)
  {
    var l := [p, r];
    assert l[0] == p && l[1] == r;
    assert k.next[l[0]] == After(l, 0) && k.next[l[1]] == After(l, 1) && k.prev[l[0]] == Before(l, 0);
  }

  /** `p` is current and queued between `q` and `r`, blocks, and is unblocked: the list is no sequence any
      more, `r` is cut off from it, and after the next yield only `p` is ever dispatched. */
  lemma LinkedTwiceStarves<P>(l: Linked<P>, s: Sched<P>, p: P, q: P, r: P, steps: seq<Step<P>>)
    requires Refines(l, s) && Inv(s) && s.current == Some(p) && s.queue == [q, p, r]
    requires forall k :: 0 <= k < |steps| ==> Known(steps[k], l.state.Keys) && Elsewhere(steps[k], p)
    ensures p in l.state && !IsSequence(Unblock(Block(l), p).links)
    ensures var l' := Yield(Unblock(Block(l), p));
      && Hoards(l', p) && (forall k :: 0 <= k < |Log(l', steps)| ==> Log(l', steps)[k] == p)
      && r in Run(l', steps).state && Run(l', steps).state[r] == Ready
  {
    hide Refines, Loose, Inv, WellFormed, SchedulerSpec.WellFormed, Block, SchedulerSpec.Block;
    hide Yield, Unblock, IsSequence, Hoards, Log, Run, Elsewhere;
    SameKeys(l, s);
    BlockedBehind(l, s, p, q, r);
    SameKeys(Block(l), SchedulerSpec.Block(s));
    var l1, s1 := Block(l), SchedulerSpec.Block(s);
    RelinkBreaks(l1, s1, UnblockStep(p));
    RelinkHoards(l1, s1, p, q, r);
    OnlyHoarderIsDispatched(Yield(Unblock(l1, p)), steps, p, r);
  }

  lemma BlockedBehind<P>(l: Linked<P>, s: Sched<P>, p: P, q: P, r: P)
    requires Refines(l, s) && Inv(s) && s.current == Some(p) && s.queue == [q, p, r]
    ensures SchedulerSpec.WellFormed(s) && p in l.state && q in l.state && r in l.state && p != q && p != r && q != r
    ensures var s1 := SchedulerSpec.Block(s);
      && Refines(Block(l), s1) && Loose(s1) && s1.queue == [p, r] && s1.current == Some(q)
      && s1.state[p] == Blocked && s1.state[q] == Running && s1.state[r] == Ready
  {
    hide Refines, Loose, Inv, WellFormed, SchedulerSpec.WellFormed, Block, SchedulerSpec.Block;
    InvIsLoose(s);
    SameKeys(l, s);
    BlockBetween(s, p, q, r);
    BlockRefines(l, s);
  }

  lemma BlockRefines<P>(l: Linked<P>, s: Sched<P>)
    requires Refines(l, s) && Loose(s)
    ensures WellFormed(l) && Refines(Block(l), SchedulerSpec.Block(s)) && Loose(SchedulerSpec.Block(s))
  {
    hide Represents, Closed, Block, SchedulerSpec.Block;
    NextRefines(l, s, BlockStep);
    NextKeepsLoose(s, BlockStep);
  }

  lemma SameKeys<P>(l: Linked<P>, s: Sched<P>)
    requires Refines(l, s)
    ensures WellFormed(l) && l.state == s.state
  {
    hide Represents;
  }

  lemma InvIsLoose<P>(s: Sched<P>)
    requires Inv(s)
    ensures Loose(s) && SchedulerSpec.WellFormed(s)
  {
  }

  lemma BlockBetween<P>(s: Sched<P>, p: P, q: P, r: P)
    requires Inv(s) && s.current == Some(p) && s.queue == [q, p, r]
    ensures p in s.state && q in s.state && r in s.state && p != q && p != r && q != r
    ensures var s1 := SchedulerSpec.Block(s);
      && s1.queue == [p, r] && s1.current == Some(q)
      && s1.state[p] == Blocked && s1.state[q] == Running && s1.state[r] == Ready
  {
    assert s.queue[0] == q && s.queue[1] == p && s.queue[2] == r;
    assert s.queue[1..] == [p, r];
  }

  lemma RelinkHoards<P>(l: Linked<P>, s: Sched<P>, p: P, q: P, r: P)
    requires Refines(l, s) && s.queue == [p, r] && s.current == Some(q) && p != q && p != r && q != r
    requires p in s.state && q in s.state && r in s.state
    requires s.state[p] == Blocked && s.state[q] == Running && s.state[r] == Ready
    ensures var l' := Yield(Unblock(l, p)); Hoards(l', p) && l'.state[r] == Ready
  {
    hide Represents, Append, Delete, Closed;
    CutOff(l.links, p, q, r);
    var l1 := Unblock(l, p);
    assert l1.links.head == Some(p) by {
      RefinesIsView(l, s);
      AppendKeepsHead(l.links, p);
    }
    AppendKeepsHead(l1.links, q);
  }

  lemma AppendKeepsHead<P>(k: Links<P>, x: P)
    ensures k.head.Some? ==> Append(k, x).head == k.head
  {
  }

  /** With `q` alone before it, `p` ends up linked to itself: the walk of `scheduler_find_process` meets
      nothing but `p` and, looking for another identifier, does not end. */
  lemma LinkedToItself<P>(l: Linked<P>, s: Sched<P>, p: P, q: P, n: nat)
    requires Refines(l, s) && Inv(s) && s.current == Some(p) && s.queue == [q, p]
    ensures p in l.state && Block(l).links.head == Some(p)
    ensures var k := Unblock(Block(l), p).links;
      && k.head == k.tail == Some(p) && p in k.next && p in k.prev && k.next[p] == k.prev[p] == Some(p)
        && !IsSequence(k)
      && Follow(k, k.head, n) == seq(n, _ => p)
  {
    hide Refines, Loose, Inv, WellFormed, SchedulerSpec.WellFormed, Block, SchedulerSpec.Block, Unblock, IsSequence;
    hide Follow;
    InvIsLoose(s);
    SameKeys(l, s);
    BlockRefines(l, s);
    BlockingWhileQueuedBreaksInv(s, p, q);
    var l1, s1 := Block(l), SchedulerSpec.Block(s);
    SameKeys(l1, s1);
    RefinesIsView(l1, s1);
    UnblockedLone(l1, s1, p);
    RelinkBreaks(l1, s1, UnblockStep(p));
    FollowForEver(Unblock(l1, p).links, p, n);
  }

  lemma UnblockedLone<P>(l: Linked<P>, s: Sched<P>, p: P)
    requires Refines(l, s) && s.queue == [p] && p in s.state && s.state[p] == Blocked
    ensures var k := Unblock(l, p).links;
      k.head == k.tail == Some(p) && p in k.next && p in k.prev && k.next[p] == k.prev[p] == Some(p)
  {
    hide Represents, Append, Closed;
    AppendToItself(l.links, p);
  }

  lemma AppendToItself<P>(k: Links<P>, p: P)
    requires Represents(k, [p])
    ensures var k' := Append(k, p);
      k'.head == k'.tail == Some(p) && p in k'.next && p in k'.prev && k'.next[p] == k'.prev[p] == Some(p)
  {
    assert p in [p];
  }

  lemma {:induction false} FollowForEver<P>(k: Links<P>, p: P, n: nat)
    requires p in k.next && k.next[p] == Some(p)
    ensures Follow(k, Some(p), n) == seq(n, _ => p)
  {
    if n > 0 {
      FollowForEver(k, p, n - 1);
    }
  }

  // ----- removal

  /** Ready, but neither current nor pointed to: a process that is taken for a queued one. */
  ghost predicate Forgotten<P>(l: Linked<P>, p: P) {
    && WellFormed(l) && p in l.state && l.state[p] == Ready && l.current != Some(p)
    && NotPointedTo(l.links, p)
  }

  /** Removing a queued process that is not current leaves it so. */
  lemma RemovalForgets<P>(l: Linked<P>, s: Sched<P>, p: P)
    requires Refines(l, s) && Inv(s) && p in s.queue && s.current != Some(p)
    ensures p in l.state && Forgotten(Remove(l, p), p)
  {
    var i :| 0 <= i < |s.queue| && s.queue[i] == p;
    assert s.state[s.queue[i]] == Ready;
    WithoutKeepsOthers(s.queue, p);
    hide Represents, NotPointedTo;
    RemoveRefines(l, s, p);
    OffTheList(Remove(l, p).links, Without(s.queue, p), p);
  }

  lemma AppendForgets<P>(l: Linked<P>, p: P, x: P)
    requires Forgotten(l, p) && x in l.state && x != p
    ensures Forgotten(AddToReady(l, x), p)
  {
    hide NotPointedTo, Closed;
    AppendOther(l.links, p, x);
  }

  lemma DeleteForgets<P>(l: Linked<P>, p: P, x: P)
    requires Forgotten(l, p) && x in l.state
    ensures Forgotten(RemoveFromReady(l, x), p)
  {
    hide NotPointedTo;
    DeleteOther(l.links, p, x);
  }

  lemma YieldForgets<P>(l: Linked<P>, p: P)
    requires Forgotten(l, p)
    ensures Forgotten(Yield(l), p)
  {
    hide Requeue, Dispatch, NotPointedTo;
    if l.links.head.Some? {
      RequeueForgets(l, p);
      DispatchForgets(Requeue(l), p);
    }
  }

  lemma RequeueForgets<P>(l: Linked<P>, p: P)
    requires Forgotten(l, p)
    ensures Forgotten(Requeue(l), p)
  {
    hide AddToReady, Closed, NotPointedTo;
    if CurrentRuns(l) {
      AppendForgets(l.(state := l.state[l.current.value := Ready]), p, l.current.value);
    }
  }

  lemma DispatchForgets<P>(l: Linked<P>, p: P)
    requires Forgotten(l, p) && l.links.head.Some?
    ensures Forgotten(Dispatch(l), p)
  {
    hide RemoveFromReady;
    DeleteForgets(l, p, l.links.head.value);
  }

  lemma RemoveForgets<P>(l: Linked<P>, p: P, x: P)
    requires Forgotten(l, p) && x in l.state
    ensures Forgotten(Remove(l, x), p)
  {
    hide Yield, RemoveFromReady, Closed, NotPointedTo;
    if l.state[x] == Ready {
      DeleteForgets(l, p, x);
      assert RemoveFromReady(l, x).current == l.current by { RemovalKeepsCurrent(l, x); }
    }
    if l.current == Some(x) {
      YieldForgets(Leave(Unlink(l, x), x), p);
    }
  }

  lemma RemovalKeepsCurrent<P>(l: Linked<P>, x: P)
    requires WellFormed(l) && x in l.state
    ensures RemoveFromReady(l, x).current == l.current
  {
    hide Delete, Closed;
  }

  lemma StepForgets<P>(l: Linked<P>, step: Step<P>, p: P)
    requires Forgotten(l, p) && Known(step, l.state.Keys)
    ensures Forgotten(Next(l, step), p)
  {
    hide Yield, AddToReady, RemoveFromReady, Closed, NotPointedTo, Remove;
    match step
    case AddStep(x) =>
      if l.state[x] != Ready {
        AppendForgets(AssignPid(l, x), p, x);
      }
    case RemoveStep(x) => RemoveForgets(l, p, x);
    case TickStep =>
      var l' := l.(ticks := Increment(l.ticks));
      YieldForgets(if l.current.None? then l' else Charge(l', l.current.value), p);
    case YieldStep => YieldForgets(l, p);
    case BlockStep =>
      if l.current.Some? {
        YieldForgets(l.(state := l.state[l.current.value := Blocked]), p);
      }
    case UnblockStep(x) =>
      if l.state[x] == Blocked {
        AppendForgets(l.(state := l.state[x := Ready]), p, x);
      }
  }

  /** No run of any steps ever links or dispatches it again, even if it is added:
      `scheduler_add_process` does nothing for a Ready process. */
  lemma {:induction false} ForgottenForGood<P>(l: Linked<P>, steps: seq<Step<P>>, p: P)
    requires Forgotten(l, p) && forall k :: 0 <= k < |steps| ==> Known(steps[k], l.state.Keys)
    ensures Forgotten(Run(l, steps), p)
    decreases |steps|
  {
    hide Next, Closed;
    if steps != [] {
      StepForgets(l, steps[0], p);
      ForgottenForGood(Next(l, steps[0]), steps[1..], p);
    }
  }
}
