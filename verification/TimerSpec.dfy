/** Delay requests of the timer driver: when each is notified, and how often. */
module TimerSpec {
  import opened Common

  const MAX_REQUESTS: nat := 32
  const FREQUENCY: nat := 100

  /** An entry of the request table; `serial` counts the requests accepted so far. */
  datatype Request = Request(id: nat, pid: nat, target: nat, active: bool, serial: nat)

  /** A delay as it was asked for, `start` ticks after the driver began. */
  datatype Delay = Delay(pid: nat, id: nat, start: nat, ticks: nat)

  /** A notification, and the number of ticks after which it was sent. */
  datatype Notice = Notice(pid: nat, id: nat, serial: nat, at: nat)

  /** `elapsed` counts all ticks, and `timer_ticks` is its low 32 bits; so do `made` and
      `next_request_id`. `accepted` and `log` are history. */
  datatype Timer = Timer(elapsed: nat, made: nat, slots: seq<Request>, accepted: seq<Delay>, log: seq<Notice>)

  // ----- the arithmetic of deadlines

  /** The product is taken in 32 bits. */
  function DelayTicks(ms: nat): (d: nat)
    ensures d < WORD_VALUES
  {
    Wrap(ms * FREQUENCY) / 1000
  }

  /** A hundred ticks a second, exactly as long as the product fits. */
  lemma DelayTicksExact(ms: nat)
    requires ms < WORD_VALUES
    ensures DelayTicks(ms) == ms / 10 <==> ms <= 42949672
  {
    var k := ms * FREQUENCY / WORD_VALUES;
    assert ms * FREQUENCY == k * WORD_VALUES + Wrap(ms * FREQUENCY);
    assert k == 0 <==> ms <= 42949672;
  }

  function Target(t: nat, d: nat): nat {
    Wrap(t + d)
  }

  /** After how many ticks the comparison `target_ticks <= timer_ticks` first holds. */
  function FiresAfter(t: nat, d: nat): (n: nat)
    requires t < WORD_VALUES
    ensures n >= 1
  {
    if Target(t, d) <= Increment(t) then 1
    else if t == WORD_VALUES - 1 then Target(t, d) + 1
    else Target(t, d) - t
  }

  function Due(a: Delay): nat {
    a.start + FiresAfter(Wrap(a.start), a.ticks)
  }

  /** From the request on, the comparison fails at every tick before that, and holds then: whatever
      the counter does at the end of its range. */
  lemma FiresExactlyWhenDue(a: Delay, now: nat)
    requires a.start < now <= Due(a)
    ensures Target(Wrap(a.start), a.ticks) <= Wrap(now) <==> now == Due(a)
  {
    var t, n := Wrap(a.start), now - a.start;
    assert Wrap(now) == Wrap(t + n) by { WrapAgain(a.start, n); }
    var target := Target(t, a.ticks);
    if target > Increment(t) {
      if t == WORD_VALUES - 1 {
        assert t + n == WORD_VALUES + (n - 1);
      } else {
        assert t + n <= target;
      }
    }
  }

  /** A delay is notified after as many ticks as it asked for, but at least one, exactly when the sum
      does not pass the end of the counter, or the counter is about to start anew. */
  lemma OnTimeIff(a: Delay)
    requires a.ticks < WORD_VALUES
    ensures Due(a) == a.start + (if a.ticks == 0 then 1 else a.ticks)
      <==> if Wrap(a.start) == WORD_VALUES - 1 then a.ticks >= 1 else Wrap(a.start) + a.ticks < WORD_VALUES
  {
  }

  /** The counter about to start anew makes a request for no delay wait for a whole turn. */
  lemma LateAtTheEnd()
    ensures FiresAfter(WORD_VALUES - 1, 0) == WORD_VALUES
  {
  }

  // ----- the steps

  predicate Expires(r: Request, now: nat) {
    r.active && r.target <= Wrap(now)
  }

  function FirstInactive(slots: seq<Request>): (i: nat)
    ensures i <= |slots|
    ensures i < |slots| ==> !slots[i].active
    ensures forall k :: 0 <= k < i ==> slots[k].active
  {
    if slots == [] || !slots[0].active then 0 else 1 + FirstInactive(slots[1..])
  }

  /** A delay request of `pid`. */
  function Ask(w: Timer, pid: nat, ms: nat): Timer {
    var i := FirstInactive(w.slots);
    if i == |w.slots| then w
    else
      var d := DelayTicks(ms);
      var id := Wrap(w.made);
      w.(made := w.made + 1,
         slots := w.slots[i := Request(id, pid, Target(Wrap(w.elapsed), d), true, |w.accepted|)],
         accepted := w.accepted + [Delay(pid, id, w.elapsed, d)])
  }

  /** The identifier answered, 0 for a refusal. */
  function Answer(w: Timer): nat {
    if FirstInactive(w.slots) == |w.slots| then 0 else Wrap(w.made)
  }

  /** A request is refused exactly when all entries are active; an accepted one is answered with 0
      only when the identifiers have been used up. */
  lemma RefusedIff(w: Timer, pid: nat, ms: nat)
    ensures Ask(w, pid, ms).accepted == w.accepted <==> forall k :: 0 <= k < |w.slots| ==> w.slots[k].active
    ensures Answer(w) == 0 <==> (forall k :: 0 <= k < |w.slots| ==> w.slots[k].active) || Wrap(w.made) == 0
  {
    if FirstInactive(w.slots) < |w.slots| {
      assert |Ask(w, pid, ms).accepted| == |w.accepted| + 1;
    }
  }

  function NoticeOf(r: Request, now: nat): Notice {
    Notice(r.pid, r.id, r.serial, now)
  }

  function CheckOne(w: Timer, i: nat): (w': Timer)
    requires i < |w.slots|
    ensures |w'.slots| == |w.slots|
  {
    if Expires(w.slots[i], w.elapsed) then
      w.(slots := w.slots[i := w.slots[i].(active := false)], log := w.log + [NoticeOf(w.slots[i], w.elapsed)])
    else w
  }

  /** `timer_check_requests` up to the `n`-th entry. */
  function CheckFirst(w: Timer, n: nat): (w': Timer)
    requires n <= |w.slots|
    ensures |w'.slots| == |w.slots|
  {
    if n == 0 then w else CheckOne(CheckFirst(w, n - 1), n - 1)
  }

  function Tick(w: Timer): Timer {
    CheckFirst(w.(elapsed := w.elapsed + 1), |w.slots|)
  }

  // ----- what every step keeps

  /** Entry `i`, if active, is that of an accepted delay which is not due yet; it may be due now if it
      is still to be looked at in this tick, that is, not among the first `n`. */
  ghost predicate Entry(w: Timer, i: nat, n: nat)
    requires i < |w.slots|
  {
    var r := w.slots[i];
    r.active ==>
      && r.serial < |w.accepted|
      && var a := w.accepted[r.serial];
         r.pid == a.pid && r.id == a.id && r.target == Target(Wrap(a.start), a.ticks)
         && (if i < n then a.start <= w.elapsed < Due(a) else a.start < w.elapsed <= Due(a))
  }

  /** Notice `j` went to the process that asked, when its delay was due. */
  ghost predicate Proper(w: Timer, j: nat)
    requires j < |w.log|
  {
    var n := w.log[j];
    && n.serial < |w.accepted|
    && var a := w.accepted[n.serial]; n.pid == a.pid && n.id == a.id && n.at == Due(a) <= w.elapsed
  }

  ghost predicate Pending(w: Timer, s: nat) {
    exists i :: 0 <= i < |w.slots| && w.slots[i].active && w.slots[i].serial == s
  }

  ghost predicate Logged(w: Timer, s: nat) {
    exists j :: 0 <= j < |w.log| && w.log[j].serial == s
  }

  /** No delay is in two entries, in two notices, or in both. */
  ghost predicate Apart(w: Timer) {
    && (forall i, k :: 0 <= i < k < |w.slots| && w.slots[i].active && w.slots[k].active ==>
      w.slots[i].serial != w.slots[k].serial)
    && (forall j, k :: 0 <= j < k < |w.log| ==> w.log[j].serial != w.log[k].serial)
    && (forall i, j :: 0 <= i < |w.slots| && 0 <= j < |w.log| && w.slots[i].active ==>
      w.slots[i].serial != w.log[j].serial)
  }

  /** With the first `n` entries looked at in this tick: every accepted delay has an entry or a
      notice. */
  ghost predicate Sound(w: Timer, n: nat) {
    && (forall i :: 0 <= i < |w.slots| ==> Entry(w, i, n))
    && (forall j :: 0 <= j < |w.log| ==> Proper(w, j))
    && Apart(w)
    && (forall s: nat :: s < |w.accepted| ==> Pending(w, s) || Logged(w, s))
  }

  ghost predicate Inv(w: Timer) {
    |w.slots| == MAX_REQUESTS && Sound(w, MAX_REQUESTS)
  }

  lemma CheckKeepsCover(w: Timer, i: nat, s: nat)
    requires i < |w.slots| && (Pending(w, s) || Logged(w, s))
    ensures Pending(CheckOne(w, i), s) || Logged(CheckOne(w, i), s)
  {
    var w' := CheckOne(w, i);
    if Expires(w.slots[i], w.elapsed) {
      assert w'.log[|w.log|].serial == w.slots[i].serial;
      if Logged(w, s) {
        var j :| 0 <= j < |w.log| && w.log[j].serial == s;
        assert w'.log[j].serial == s;
      } else {
        var k :| 0 <= k < |w.slots| && w.slots[k].active && w.slots[k].serial == s;
        assert k != i ==> w'.slots[k] == w.slots[k];
      }
    }
  }

  lemma CheckKeepsApart(w: Timer, i: nat)
    requires i < |w.slots| && Apart(w)
    ensures Apart(CheckOne(w, i))
  {
  }

  /** One entry looked at: it is notified if and only if it is due. */
  lemma CheckKeepsSound(w: Timer, i: nat)
    requires i < |w.slots| && Sound(w, i)
    ensures Sound(CheckOne(w, i), i + 1)
  {
    hide Pending, Logged, Apart, Due, Target;
    var w' := CheckOne(w, i);
    CheckKeepsApart(w, i);
    forall s: nat | s < |w.accepted| ensures Pending(w', s) || Logged(w', s) {
      CheckKeepsCover(w, i, s);
    }
    assert Entry(w, i, i);
    if w.slots[i].active {
      FiresExactlyWhenDue(w.accepted[w.slots[i].serial], w.elapsed);
    }
    var n := i + 1;
    forall k | 0 <= k < |w'.slots| ensures Entry(w', k, n) {
      assert Entry(w, k, i);
    }
    forall j | 0 <= j < |w'.log| ensures Proper(w', j) {
      assert j < |w.log| ==> Proper(w, j);
    }
  }

  lemma {:induction false} CheckFirstKeepsSound(w: Timer, n: nat)
    requires n <= |w.slots| && Sound(w, 0)
    ensures Sound(CheckFirst(w, n), n) && |CheckFirst(w, n).slots| == |w.slots|
    ensures CheckFirst(w, n).elapsed == w.elapsed && CheckFirst(w, n).made == w.made
      && CheckFirst(w, n).accepted == w.accepted
  {
    hide Sound;
    if n > 0 {
      CheckFirstKeepsSound(w, n - 1);
      CheckKeepsSound(CheckFirst(w, n - 1), n - 1);
    }
  }

  lemma TickKeepsInv(w: Timer)
    requires Inv(w)
    ensures Inv(Tick(w))
  {
    hide Apart, Due, Target;
    var w1 := w.(elapsed := w.elapsed + 1);
    forall i | 0 <= i < |w1.slots| ensures Entry(w1, i, 0) {
      assert Entry(w, i, MAX_REQUESTS);
    }
    forall j | 0 <= j < |w1.log| ensures Proper(w1, j) {
      assert Proper(w, j);
    }
    SameCover(w, w1);
    CheckFirstKeepsSound(w1, |w.slots|);
  }

  lemma SameCover(w: Timer, w': Timer)
    requires w'.slots == w.slots && w'.log == w.log
    ensures forall s: nat :: Pending(w', s) == Pending(w, s) && Logged(w', s) == Logged(w, s)
    ensures Apart(w') == Apart(w)
  {
  }

  /** A new delay takes the first inactive entry. */
  lemma AskKeepsInv(w: Timer, pid: nat, ms: nat)
    requires Inv(w)
    ensures Inv(Ask(w, pid, ms))
  {
    hide Target, DelayTicks, FiresAfter;
    var w' := Ask(w, pid, ms);
    var i := FirstInactive(w.slots);
    if i < |w.slots| {
      forall k | 0 <= k < |w'.slots| ensures Entry(w', k, MAX_REQUESTS) {
        assert Entry(w, k, MAX_REQUESTS);
      }
      forall j | 0 <= j < |w'.log| ensures Proper(w', j) {
        assert Proper(w, j);
      }
      AskKeepsApart(w, pid, ms);
      forall s: nat | s < |w'.accepted| ensures Pending(w', s) || Logged(w', s) {
        AskKeepsCover(w, pid, ms, s);
      }
    }
  }

  lemma AskKeepsApart(w: Timer, pid: nat, ms: nat)
    requires Inv(w)
    ensures Apart(Ask(w, pid, ms))
  {
    hide Target, DelayTicks, Due;
    forall k | 0 <= k < |w.slots| && w.slots[k].active ensures w.slots[k].serial < |w.accepted| {
      assert Entry(w, k, MAX_REQUESTS);
    }
    forall j | 0 <= j < |w.log| ensures w.log[j].serial < |w.accepted| {
      assert Proper(w, j);
    }
  }

  lemma AskKeepsCover(w: Timer, pid: nat, ms: nat, s: nat)
    requires Inv(w) && s < |Ask(w, pid, ms).accepted|
    ensures Pending(Ask(w, pid, ms), s) || Logged(Ask(w, pid, ms), s)
  {
    hide Target, DelayTicks, Due, Apart;
    var w' := Ask(w, pid, ms);
    var i := FirstInactive(w.slots);
    if i < |w.slots| {
      if s == |w.accepted| {
        assert w'.slots[i].active && w'.slots[i].serial == s;
      } else if Pending(w, s) {
        var k :| 0 <= k < |w.slots| && w.slots[k].active && w.slots[k].serial == s;
        assert w'.slots[k] == w.slots[k];
      } else {
        assert Logged(w, s);
      }
    }
  }

  // ----- every run

  datatype Step = TickStep | AskStep(pid: nat, ms: nat)

  function Next(w: Timer, step: Step): Timer {
    match step
    case TickStep => Tick(w)
    case AskStep(pid, ms) => Ask(w, pid, ms)
  }

  function Run(w: Timer, steps: seq<Step>): Timer
    decreases |steps|
  {
    if steps == [] then w else Run(Next(w, steps[0]), steps[1..])
  }

  predicate Initial(w: Timer) {
    && |w.slots| == MAX_REQUESTS && (forall i :: 0 <= i < |w.slots| ==> !w.slots[i].active)
    && w.accepted == [] && w.log == []
  }

  lemma {:induction false} RunKeepsInv(w: Timer, steps: seq<Step>)
    requires Inv(w)
    ensures Inv(Run(w, steps))
    decreases |steps|
  {
    hide Inv, Tick, Ask;
    if steps != [] {
      TickKeepsInv(w);
      if steps[0].AskStep? {
        AskKeepsInv(w, steps[0].pid, steps[0].ms);
      }
      RunKeepsInv(Next(w, steps[0]), steps[1..]);
    }
  }

  lemma InitialKeepsInv(w: Timer)
    requires Initial(w)
    ensures Inv(w)
  {
  }

  /** How often the `s`-th delay has been notified. */
  function Notices(log: seq<Notice>, s: nat): nat {
    if log == [] then 0 else (if log[|log| - 1].serial == s then 1 else 0) + Notices(log[..|log| - 1], s)
  }

  lemma {:induction false} NoticesCount(log: seq<Notice>, s: nat)
    requires forall j, k :: 0 <= j < k < |log| ==> log[j].serial != log[k].serial
    ensures Notices(log, s) <= 1
    ensures Notices(log, s) == 1 <==> exists j :: 0 <= j < |log| && log[j].serial == s
  {
    if log != [] {
      var n := |log| - 1;
      NoticesCount(log[..n], s);
      if exists j :: 0 <= j < |log| && log[j].serial == s {
        var j :| 0 <= j < |log| && log[j].serial == s;
        assert j < n ==> log[..n][j].serial == s;
      }
    }
  }

  /** In every run, whatever else is asked for: each accepted delay is notified exactly once when it is
      due and not before, to the process that asked for it and under the identifier it was given. */
  lemma NotifiedExactlyOnceWhenDue(w: Timer, steps: seq<Step>, s: nat)
    requires Initial(w) && s < |Run(w, steps).accepted|
    ensures var w' := Run(w, steps); var a := w'.accepted[s];
      && Notices(w'.log, s) == (if Due(a) <= w'.elapsed then 1 else 0)
      && (forall j :: 0 <= j < |w'.log| && w'.log[j].serial == s ==> w'.log[j] == Notice(a.pid, a.id, s, Due(a)))
  {
    hide Run, Due;
    InitialKeepsInv(w);
    RunKeepsInv(w, steps);
    var w' := Run(w, steps);
    NoticesCount(w'.log, s);
    forall j | 0 <= j < |w'.log| && w'.log[j].serial == s
      ensures w'.log[j] == Notice(w'.accepted[s].pid, w'.accepted[s].id, s, Due(w'.accepted[s]))
    {
      assert Proper(w', j);
    }
    assert Pending(w', s) || Logged(w', s);
    if Pending(w', s) {
      var i :| 0 <= i < |w'.slots| && w'.slots[i].active && w'.slots[i].serial == s;
      assert Entry(w', i, MAX_REQUESTS);
    }
    if Logged(w', s) {
      var j :| 0 <= j < |w'.log| && w'.log[j].serial == s;
      assert Proper(w', j);
    }
  }

  // ----- a request, from the asking process's point of view

  lemma {:induction false} RunConcat(w: Timer, a: seq<Step>, b: seq<Step>)
    ensures Run(w, a + b) == Run(Run(w, a), b)
    decreases |a|
  {
    hide Next;
    if a == [] {
      assert a + b == b;
    } else {
      assert (a + b)[0] == a[0] && (a + b)[1..] == a[1..] + b;
      RunConcat(Next(w, a[0]), a[1..], b);
    }
  }

  function Ticks(steps: seq<Step>): nat {
    if steps == [] then 0 else (if steps[0].TickStep? then 1 else 0) + Ticks(steps[1..])
  }

  /** Identifiers are given in order. */
  ghost predicate Numbered(w: Timer) {
    && w.made >= |w.accepted|
    && forall k :: 0 <= k < |w.accepted| ==> w.accepted[k].id == Wrap(w.made - |w.accepted| + k)
  }

  /** What a run adds: as many ticks as it has, and delays after those there were. */
  ghost predicate Extends(w: Timer, w': Timer, ticks: nat) {
    && w'.elapsed == w.elapsed + ticks && w.accepted <= w'.accepted
    && w'.made - |w'.accepted| == w.made - |w.accepted| && (Numbered(w) ==> Numbered(w'))
  }

  lemma {:induction false} CheckFirstKeeps(w: Timer, n: nat)
    requires n <= |w.slots|
    ensures var w' := CheckFirst(w, n); w'.elapsed == w.elapsed && w'.made == w.made && w'.accepted == w.accepted
  {
    if n > 0 {
      CheckFirstKeeps(w, n - 1);
    }
  }

  lemma NextExtends(w: Timer, step: Step)
    ensures Extends(w, Next(w, step), if step.TickStep? then 1 else 0)
  {
    hide DelayTicks, Target, FirstInactive;
    if step.TickStep? {
      CheckFirstKeeps(w.(elapsed := w.elapsed + 1), |w.slots|);
    }
  }

  lemma {:induction false} RunExtends(w: Timer, steps: seq<Step>)
    ensures Extends(w, Run(w, steps), Ticks(steps))
    decreases |steps|
  {
    hide Next;
    if steps != [] {
      NextExtends(w, steps[0]);
      RunExtends(Next(w, steps[0]), steps[1..]);
    }
  }

  /** How many notices carry the identifier. */
  function NoticesUnder(log: seq<Notice>, id: nat): nat {
    if log == [] then 0 else (if log[|log| - 1].id == id then 1 else 0) + NoticesUnder(log[..|log| - 1], id)
  }

  lemma {:induction false} SameNotices(log: seq<Notice>, id: nat, s: nat)
    requires forall j :: 0 <= j < |log| ==> (log[j].id == id <==> log[j].serial == s)
    ensures NoticesUnder(log, id) == Notices(log, s)
  {
    if log != [] {
      SameNotices(log[..|log| - 1], id, s);
    }
  }

  /** A tenth of the milliseconds, but at least one tick. */
  function TicksFor(ms: nat): nat {
    if ms < 10 then 1 else ms / 10
  }

  /** An accepted delay is due after that many ticks, if it is not too long for the product and the counter
      does not pass its end meanwhile. */
  lemma DueOnTime(a: Delay, ms: nat)
    requires ms <= 42949672 && a.ticks == DelayTicks(ms) && Wrap(a.start) + TicksFor(ms) < WORD_VALUES
    ensures Due(a) == a.start + TicksFor(ms)
  {
    hide DelayTicks, Due;
    DelayTicksExact(ms);
    OnTimeIff(a);
  }

  /** A process asks for a delay of `ms` milliseconds while some entry is free. Whatever went on before and
      goes on after, one notice is sent under the identifier it is answered, to that process, at the tick
      number `ms` / 10 from the request, or the first one if that is none; before that tick there is none.
      (Of less than 2^32 requests; for delays up to 42949672, and while the counter does not pass its end.) */
  lemma AskedIsNotified(w: Timer, before: seq<Step>, pid: nat, ms: nat, after: seq<Step>)
    requires Initial(w) && w.made > 0
    requires exists i :: 0 <= i < |Run(w, before).slots| && !Run(w, before).slots[i].active
    requires ms <= 42949672 && Wrap(Run(w, before).elapsed) + TicksFor(ms) < WORD_VALUES
    requires Run(w, before + [AskStep(pid, ms)] + after).made <= WORD_VALUES
    ensures var w1, w' := Run(w, before), Run(w, before + [AskStep(pid, ms)] + after); var id := Answer(w1);
      && id != 0 && w'.elapsed == w1.elapsed + Ticks(after)
      && NoticesUnder(w'.log, id) == (if TicksFor(ms) <= Ticks(after) then 1 else 0)
      && (forall j :: 0 <= j < |w'.log| && w'.log[j].id == id ==>
            w'.log[j].pid == pid && w'.log[j].at == w1.elapsed + TicksFor(ms))
  {
    hide Run, Due, Ticks, Next, Initial, DelayTicks, TicksFor, Target, Inv, NoticesUnder, Notices;
    var steps := before + [AskStep(pid, ms)] + after;
    var w1, w' := Run(w, before), Run(w, steps);
    var w2 := Ask(w1, pid, ms);
    RunAfterAsk(w, before, pid, ms, after);
    RunExtends(w, before);
    RunExtends(w2, after);
    StartIsNumbered(w);
    var i :| 0 <= i < |w1.slots| && !w1.slots[i].active;
    var s, id := |w1.accepted|, Answer(w1);
    AskIsAccepted(w1, pid, ms, i);
    assert w'.accepted[s] == w2.accepted[s];
    NotifiedExactlyOnceWhenDue(w, steps, s);
    DueOnTime(w'.accepted[s], ms);
    InitialKeepsInv(w);
    RunKeepsInv(w, steps);
    forall j | 0 <= j < |w'.log| ensures w'.log[j].id == id <==> w'.log[j].serial == s {
      NoticeIsNumbered(w', j, s);
    }
    SameNotices(w'.log, id, s);
  }

  lemma RunAfterAsk(w: Timer, before: seq<Step>, pid: nat, ms: nat, after: seq<Step>)
    ensures Run(w, before + [AskStep(pid, ms)] + after) == Run(Ask(Run(w, before), pid, ms), after)
  {
    hide Ask;
    var ask := AskStep(pid, ms);
    RunConcat(w, before + [ask], after);
    RunConcat(w, before, [ask]);
    assert [ask][1..] == [];
  }

  lemma StartIsNumbered(w: Timer)
    requires Initial(w)
    ensures Numbered(w) && w.accepted == []
  {
  }

  lemma AskIsAccepted(w: Timer, pid: nat, ms: nat, i: nat)
    requires 0 <= i < |w.slots| && !w.slots[i].active && Numbered(w)
    ensures var w' := Ask(w, pid, ms);
      && w'.elapsed == w.elapsed && w'.accepted == w.accepted + [Delay(pid, Answer(w), w.elapsed, DelayTicks(ms))]
      && w'.made == w.made + 1 && Answer(w) == Wrap(w.made) && Numbered(w')
  {
    hide DelayTicks, Target;
  }

  /** With less than 2^32 requests, an identifier stands for one delay. */
  lemma NoticeIsNumbered(w: Timer, j: nat, s: nat)
    requires Inv(w) && Numbered(w) && 0 < w.made - |w.accepted| && w.made <= WORD_VALUES
    requires j < |w.log| && s < |w.accepted|
    ensures w.log[j].id == w.accepted[s].id <==> w.log[j].serial == s
  {
    hide Due, Apart, Target;
    assert Proper(w, j);
  }

  /** After a tick, every active target lies beyond the counter. */
  lemma {:induction false} TargetsAhead(w: Timer, n: nat)
    requires n <= |w.slots|
    ensures CheckFirst(w, n).elapsed == w.elapsed
    ensures forall i :: n <= i < |w.slots| ==> CheckFirst(w, n).slots[i] == w.slots[i]
    ensures forall i :: 0 <= i < n && CheckFirst(w, n).slots[i].active ==>
      CheckFirst(w, n).slots[i].target > Wrap(w.elapsed)
  {
    if n > 0 {
      TargetsAhead(w, n - 1);
    }
  }
}
