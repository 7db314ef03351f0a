/** Message passing between processes: the mailboxes, the pages they are kept in, and the scheduler
    that decides whom a message can reach. */
module IpcSpec {
  import opened Common
  import opened SchedulerSpec
  import opened PageSet
  import opened PageAllocator
  import opened Mailbox

  const HEADER_BYTES: nat := 32
  const MAX_DATA: nat := 256

  datatype Status = Success | InvalidParam | NotFound | OutOfMemory | PermissionDenied

  datatype UserMsg = UserMsg(kind: nat, flags: nat, data: seq<nat>)

  /** `boxes` and `headers` are indexed by process identifier; a mailbox without a header page has no
      queue yet. `used` is the allocator's set of pages; `held` is history: the pages that message
      passing has allocated and not freed. */
  datatype Ipc<!P(==)> = Ipc(
    sched: Sched<P>,
    boxes: seq<Box>,
    headers: seq<Option<nat>>,
    next: nat,
    used: set<nat>,
    held: set<nat>)

  ghost predicate Shape<P>(w: Ipc<P>) {
    && WellFormed(w.sched)
    && |w.boxes| == |w.headers| == MAX_PROCESSES
    && (forall p :: p in w.sched.pid ==> w.sched.pid[p] < MAX_PROCESSES)
  }

  // ----- ipc_send

  /** The pages that a message with `size` bytes of data is allocated. */
  function MessagePages(size: nat): nat {
    (HEADER_BYTES + size + PAGE_SIZE - 1) / PAGE_SIZE
  }

  /** Every message that passes the size check fits one page, so freeing one page frees it all. */
  lemma MessageFitsOnePage(size: nat)
    requires size <= MAX_DATA
    ensures MessagePages(size) == 1
  {
  }

  /** `ipc_add_to_queue`: a queue is made first if there is none, and without a page for its header
      the message is lost. */
  ghost function AddToQueue<P>(w: Ipc<P>, r: nat, m: Msg): Ipc<P>
    requires Shape(w) && r < MAX_PROCESSES
  {
    if w.headers[r].Some? then w.(boxes := w.boxes[r := Deliver(w.boxes[r], m)])
    else
      var page := NonNull(Find(w.used, PHYS_PAGES, 1));
      if page.None? then w.(boxes := w.boxes[r := Lose(w.boxes[r], m)], used := Requested(w.used, PHYS_PAGES, 1))
      else w.(boxes := w.boxes[r := Deliver(w.boxes[r], m)], headers := w.headers[r := page],
              used := w.used + {page.value}, held := w.held + {page.value})
  }

  /** `ipc_wakeup_receiver`. */
  function WakeUp<P>(s: Sched<P>, pid: nat): (s': Sched<P>)
    requires WellFormed(s)
    ensures WellFormed(s') && s'.pid == s.pid && s'.current == s.current
  {
    var p := FindProcess(s, pid);
    if p.Some? && s.state[p.value] == Blocked then Unblock(s, p.value) else s
  }

  /** The message numbered, stamped with its sender, and queued, in the page it was allocated. */
  ghost function Stored<P>(w: Ipc<P>, r: nat, msg: UserMsg, page: nat): (w': Ipc<P>)
    requires Shape(w) && w.sched.current.Some? && r < MAX_PROCESSES
    ensures Shape(w') && w'.sched == w.sched
  {
    var count := MessagePages(|msg.data|);
    var m := Msg(w.next, w.sched.pid[w.sched.current.value], r, msg.kind, msg.flags, msg.data, page);
    AddToQueue(w.(next := w.next + 1, used := w.used + Pages(page, count), held := w.held + Pages(page, count)), r, m)
  }

  ghost function Send<P>(w: Ipc<P>, r: nat, msg: Option<UserMsg>): (res: (Ipc<P>, Status))
    requires Shape(w) && w.sched.current.Some?
  {
    if msg.None? then (w, InvalidParam)
    else if FindProcess(w.sched, r).None? then (w, NotFound)
    else if |msg.value.data| > MAX_DATA then (w, InvalidParam)
    else
      var count := MessagePages(|msg.value.data|);
      var page := NonNull(Find(w.used, PHYS_PAGES, count));
      if page.None? then (w.(used := Requested(w.used, PHYS_PAGES, count)), OutOfMemory)
      else
        var w' := Stored(w, r, msg.value, page.value);
        (w'.(sched := WakeUp(w.sched, r)), Success)
  }

  lemma SendStores<P>(w: Ipc<P>, r: nat, msg: UserMsg)
    requires Shape(w) && w.sched.current.Some? && FindProcess(w.sched, r).Some? && |msg.data| <= MAX_DATA
    ensures r < MAX_PROCESSES
    ensures var page := NonNull(Find(w.used, PHYS_PAGES, 1));
      Send(w, r, Some(msg)) ==
      if page.None? then (w.(used := Requested(w.used, PHYS_PAGES, 1)), OutOfMemory)
      else (Stored(w, r, msg, page.value).(sched := WakeUp(w.sched, r)), Success)
  {
    hide Stored, WakeUp, Find, Requested;
    MessageFitsOnePage(|msg.data|);
  }

  // ----- ipc_receive and ipc_clear_queue

  /** The copy handed to the caller is `Some` only if a message was taken: a blocking receive that
      finds none reports success with nothing. */
  function ReceiveMsg<P>(w: Ipc<P>, filter: nat, block: bool): (res: (Ipc<P>, Status, Option<Msg>))
    requires Shape(w)
  {
    if w.sched.current.None? then (w, PermissionDenied, None)
    else
      var r := w.sched.pid[w.sched.current.value];
      var b := w.boxes[r];
      var k := FirstMatch(b.queue, filter);
      if k == |b.queue| then
        if block then (w.(sched := Block(w.sched)), Success, None) else (w, NotFound, None)
      else
        (w.(boxes := w.boxes[r := Receive(b, k)], used := w.used - {b.queue[k].page},
          held := w.held - {b.queue[k].page}),
         Success, Some(b.queue[k]))
  }

  function QueuePages(q: seq<Msg>): set<nat> {
    if q == [] then {} else {q[0].page} + QueuePages(q[1..])
  }

  function ClearQueue<P>(w: Ipc<P>, r: nat): (res: (Ipc<P>, Status))
    requires Shape(w)
  {
    if r >= MAX_PROCESSES then (w, InvalidParam)
    else if w.headers[r].None? then (w, Success)
    else
      var pages := QueuePages(w.boxes[r].queue);
      (w.(boxes := w.boxes[r := Clear(w.boxes[r])], used := w.used - pages, held := w.held - pages), Success)
  }

  // ----- pages in the mailboxes

  function MsgPages(s: seq<Msg>): multiset<nat> {
    if s == [] then multiset{} else multiset{s[0].page} + MsgPages(s[1..])
  }

  /** The pages that one mailbox keeps: its header, its queue, and the messages dropped or lost, whose
      pages are never freed. */
  function BoxPages(b: Box, header: Option<nat>): multiset<nat> {
    MsgPages(b.queue) + MsgPages(b.dropped) + MsgPages(b.lost)
      + (if header.Some? then multiset{header.value} else multiset{})
  }

  function AllPages(boxes: seq<Box>, headers: seq<Option<nat>>): multiset<nat>
    requires |boxes| == |headers|
    decreases |boxes|
  {
    if boxes == [] then multiset{}
    else
      var n := |boxes| - 1;
      AllPages(boxes[..n], headers[..n]) + BoxPages(boxes[n], headers[n])
  }

  function BoxCount(b: Box, header: Option<nat>): nat {
    |b.queue| + |b.dropped| + |b.lost| + (if header.Some? then 1 else 0)
  }

  function AllCount(boxes: seq<Box>, headers: seq<Option<nat>>): nat
    requires |boxes| == |headers|
    decreases |boxes|
  {
    if boxes == [] then 0
    else
      var n := |boxes| - 1;
      AllCount(boxes[..n], headers[..n]) + BoxCount(boxes[n], headers[n])
  }

  lemma MsgPagesConcat(a: seq<Msg>, b: seq<Msg>)
    ensures MsgPages(a + b) == MsgPages(a) + MsgPages(b)
  {
    if a == [] {
      assert a + b == b;
    } else {
      assert (a + b)[0] == a[0] && (a + b)[1..] == a[1..] + b;
      MsgPagesConcat(a[1..], b);
    }
  }

  lemma MsgPagesSnoc(s: seq<Msg>, m: Msg)
    ensures MsgPages(s + [m]) == MsgPages(s) + multiset{m.page}
  {
    MsgPagesConcat(s, [m]);
    assert [m][1..] == [];
  }

  lemma MsgPagesCount(s: seq<Msg>)
    ensures |MsgPages(s)| == |s|
  {
  }

  lemma MsgPagesMember(s: seq<Msg>, i: nat)
    requires i < |s|
    ensures s[i].page in MsgPages(s)
  {
    if i > 0 {
      MsgPagesMember(s[1..], i - 1);
    }
  }

  lemma {:induction false} AllPagesCount(boxes: seq<Box>, headers: seq<Option<nat>>)
    requires |boxes| == |headers|
    ensures |AllPages(boxes, headers)| == AllCount(boxes, headers)
    decreases |boxes|
  {
    if boxes != [] {
      var n := |boxes| - 1;
      AllPagesCount(boxes[..n], headers[..n]);
      MsgPagesCount(boxes[n].queue);
      MsgPagesCount(boxes[n].dropped);
      MsgPagesCount(boxes[n].lost);
    }
  }

  /** Changing one mailbox changes the pages kept by what it changes there. */
  lemma {:induction false} AllPagesUpdate(boxes: seq<Box>, headers: seq<Option<nat>>, r: nat, b: Box, h: Option<nat>)
    requires |boxes| == |headers| && r < |boxes|
    ensures AllPages(boxes[r := b], headers[r := h]) + BoxPages(boxes[r], headers[r]) ==
      AllPages(boxes, headers) + BoxPages(b, h)
    decreases |boxes|
  {
    hide BoxPages;
    var n := |boxes| - 1;
    var boxes', headers' := boxes[r := b], headers[r := h];
    if r == n {
      assert boxes'[..n] == boxes[..n] && headers'[..n] == headers[..n];
    } else {
      assert boxes'[..n] == boxes[..n][r := b] && headers'[..n] == headers[..n][r := h];
      assert boxes[..n][r] == boxes[r] && headers[..n][r] == headers[r] && boxes'[n] == boxes[n]
        && headers'[n] == headers[n];
      AllPagesUpdate(boxes[..n], headers[..n], r, b, h);
      AddToBoth(AllPages(boxes'[..n], headers'[..n]), BoxPages(boxes[r], headers[r]),
                AllPages(boxes[..n], headers[..n]), BoxPages(b, h), BoxPages(boxes[n], headers[n]));
    }
  }

  lemma AddToBoth(a': multiset<nat>, x: multiset<nat>, a: multiset<nat>, y: multiset<nat>, z: multiset<nat>)
    requires a' + x == a + y
    ensures (a' + z) + x == (a + z) + y
  {
    assert (a' + z) + x == (a' + x) + z;
    assert (a + z) + y == (a + y) + z;
  }

  lemma CancelBoth(a': multiset<nat>, x: multiset<nat>, a: multiset<nat>, gain: multiset<nat>)
    ensures a' + x == a + (x + gain) ==> a' == a + gain
    ensures a' + (x + gain) == a + x ==> a' + gain == a
  {
    forall p: nat
      ensures a' + x == a + (x + gain) ==> a'[p] == (a + gain)[p]
      ensures a' + (x + gain) == a + x ==> (a' + gain)[p] == a[p]
    {
      assert (a' + x)[p] == a'[p] + x[p] && (a + (x + gain))[p] == a[p] + x[p] + gain[p];
      assert (a' + (x + gain))[p] == a'[p] + x[p] + gain[p] && (a + x)[p] == a[p] + x[p];
    }
  }

  /** A mailbox that gains or loses pages changes the pages kept by exactly those. */
  lemma AllPagesChange(boxes: seq<Box>, headers: seq<Option<nat>>, r: nat, b: Box, h: Option<nat>, pages: multiset<nat>)
    requires |boxes| == |headers| && r < |boxes|
    ensures BoxPages(b, h) == BoxPages(boxes[r], headers[r]) + pages ==>
      AllPages(boxes[r := b], headers[r := h]) == AllPages(boxes, headers) + pages
    ensures BoxPages(b, h) + pages == BoxPages(boxes[r], headers[r]) ==>
      AllPages(boxes[r := b], headers[r := h]) + pages == AllPages(boxes, headers)
  {
    hide BoxPages, AllPages;
    AllPagesUpdate(boxes, headers, r, b, h);
    CancelBoth(AllPages(boxes[r := b], headers[r := h]), BoxPages(boxes[r], headers[r]), AllPages(boxes, headers),
      pages);
    CancelBoth(AllPages(boxes[r := b], headers[r := h]), BoxPages(b, h), AllPages(boxes, headers), pages);
  }

  lemma {:induction false} BoxPagesIncluded(boxes: seq<Box>, headers: seq<Option<nat>>, r: nat)
    requires |boxes| == |headers| && r < |boxes|
    ensures BoxPages(boxes[r], headers[r]) <= AllPages(boxes, headers)
    decreases |boxes|
  {
    hide BoxPages;
    var n := |boxes| - 1;
    if r != n {
      assert boxes[..n][r] == boxes[r] && headers[..n][r] == headers[r];
      BoxPagesIncluded(boxes[..n], headers[..n], r);
    }
  }

  // ----- what every step keeps

  /** Every mailbox is accounted for, and the pages held are exactly those the mailboxes keep, each
      kept once. */
  ghost predicate Inv<P>(w: Ipc<P>) {
    && Shape(w)
    && (forall r :: 0 <= r < MAX_PROCESSES ==> Accounted(w.boxes[r], w.next))
    && (forall r :: 0 <= r < MAX_PROCESSES && w.headers[r].None? ==> w.boxes[r].queue == [])
    && multiset(w.held) == AllPages(w.boxes, w.headers)
    && w.held <= w.used
  }

  datatype IpcStep<!P(==)> =
    | SendStep(receiver: nat, msg: Option<UserMsg>)
    | ReceiveStep(filter: nat, block: bool)
    | ClearStep(pid: nat)
    | SchedStep(step: Step<P>)
    | OtherStep(used: set<nat>)  // the rest of the kernel allocates and frees pages of its own
    | DisturbStep(sched: Sched<P>)  // whatever becomes of a ready list in which a process is linked twice

  /** Senders are running processes, processes come from the process table with their identifiers,
      and nobody else frees pages that message passing holds. */
  ghost predicate Legal<P>(w: Ipc<P>, step: IpcStep<P>)
    requires Shape(w)
  {
    match step
    case SendStep(_, _) => w.sched.current.Some?
    case ReceiveStep(_, _) => true
    case ClearStep(_) => true
    case SchedStep(s) => Known(s, w.sched.state.Keys) && (s.AddStep? ==> w.sched.pid[s.p] != 0)
    case OtherStep(used) => w.held <= used
    case DisturbStep(s) => WellFormed(s) && s.pid == w.sched.pid
  }

  ghost function Next<P>(w: Ipc<P>, step: IpcStep<P>): Ipc<P>
    requires Shape(w) && Legal(w, step)
  {
    match step
    case SendStep(r, msg) => Send(w, r, msg).0
    case ReceiveStep(filter, block) => ReceiveMsg(w, filter, block).0
    case ClearStep(r) => ClearQueue(w, r).0
    case SchedStep(s) => w.(sched := SchedulerSpec.Next(w.sched, s))
    case OtherStep(used) => w.(used := used)
    case DisturbStep(s) => w.(sched := s)
  }

  lemma SchedulerKeepsPids<P>(s: Sched<P>, step: Step<P>)
    requires WellFormed(s) && Known(step, s.state.Keys) && (step.AddStep? ==> s.pid[step.p] != 0)
    ensures SchedulerSpec.Next(s, step).pid == s.pid
  {
  }

  lemma BlockKeepsPids<P>(s: Sched<P>)
    requires WellFormed(s)
    ensures Block(s).pid == s.pid
  {
  }

  /** A page that was found free was not held. */
  lemma FreshPage(used: set<nat>, held: set<nat>, page: nat)
    requires Find(used, PHYS_PAGES, 1) == Some(page) && held <= used
    ensures page !in held && Pages(page, 1) == {page}
    ensures multiset(held + {page}) == multiset(held) + multiset{page}
  {
    assert Candidate(used, PHYS_PAGES, page, 1);
    assert page !in used;
  }

  lemma DeliverPages(b: Box, m: Msg, h: Option<nat>)
    ensures BoxPages(Deliver(b, m), h) == BoxPages(b, h) + multiset{m.page}
  {
    MsgPagesSnoc(if |b.queue| >= MAX_MESSAGES then b.queue[1..] else b.queue, m);
    if |b.queue| >= MAX_MESSAGES {
      MsgPagesSnoc(b.dropped, b.queue[0]);
    }
  }

  lemma LosePages(b: Box, m: Msg, h: Option<nat>)
    ensures BoxPages(Lose(b, m), h) == BoxPages(b, h) + multiset{m.page}
  {
    MsgPagesSnoc(b.lost, m);
  }

  lemma ReceivePages(b: Box, k: nat, h: Option<nat>)
    requires k < |b.queue|
    ensures BoxPages(Receive(b, k), h) + multiset{b.queue[k].page} == BoxPages(b, h)
  {
    hide MsgPages, RemoveAt;
    RemoveAtPages(b.queue, k);
    TakeFromFirst(MsgPages(RemoveAt(b.queue, k)), MsgPages(b.queue), multiset{b.queue[k].page},
                  MsgPages(b.dropped), MsgPages(b.lost), if h.Some? then multiset{h.value} else multiset{});
  }

  lemma RemoveAtPages(q: seq<Msg>, k: nat)
    requires k < |q|
    ensures MsgPages(RemoveAt(q, k)) + multiset{q[k].page} == MsgPages(q)
  {
    hide MsgPages;
    MsgPagesConcat(q[..k], q[k..]);
    assert q == q[..k] + q[k..];
    MsgPagesConcat(q[..k], q[k + 1..]);
    PagesFrom(q, k);
    Regroup(MsgPages(q[..k]), multiset{q[k].page}, MsgPages(q[k + 1..]));
  }

  lemma PagesFrom(q: seq<Msg>, k: nat)
    requires k < |q|
    ensures MsgPages(q[k..]) == multiset{q[k].page} + MsgPages(q[k + 1..])
  {
    assert q[k..][1..] == q[k + 1..];
  }

  lemma TakeFromFirst(q': multiset<nat>, q: multiset<nat>, x: multiset<nat>, d: multiset<nat>, l: multiset<nat>,
    h: multiset<nat>)
    requires q' + x == q
    ensures (q' + d + l + h) + x == q + d + l + h
  {
    assert (q' + d + l + h) + x == (q' + x) + d + l + h;
  }

  lemma ClearPages(b: Box, h: Option<nat>)
    ensures BoxPages(Clear(b), h) + MsgPages(b.queue) == BoxPages(b, h)
  {
  }

  /** Queueing a message, header page included, keeps the accounts. */
  lemma AddToQueueKeepsInv<P>(w: Ipc<P>, r: nat, m: Msg)
    requires Shape(w) && r < MAX_PROCESSES && w.held <= w.used && m.serial + 1 == w.next
    requires forall i :: 0 <= i < MAX_PROCESSES ==> Accounted(w.boxes[i], m.serial)
    requires forall i :: 0 <= i < MAX_PROCESSES && w.headers[i].None? ==> w.boxes[i].queue == []
    requires multiset(w.held) == AllPages(w.boxes, w.headers) + multiset{m.page}
    ensures Inv(AddToQueue(w, r, m))
  {
    hide Accounted, AllPages, BoxPages, WellFormed;
    forall i | 0 <= i < MAX_PROCESSES ensures Accounted(w.boxes[i], w.next) {
      AccountedLater(w.boxes[i], m.serial);
    }
    DeliverKeepsAccount(w.boxes[r], m, m.serial);
    LoseKeepsAccount(w.boxes[r], m, m.serial);
    var h := w.headers[r];
    assert w.headers[r := h] == w.headers;
    var page := NonNull(Find(w.used, PHYS_PAGES, 1));
    if h.Some? {
      DeliverPages(w.boxes[r], m, h);
      AllPagesChange(w.boxes, w.headers, r, Deliver(w.boxes[r], m), h, multiset{m.page});
    } else if page.None? {
      LosePages(w.boxes[r], m, h);
      AllPagesChange(w.boxes, w.headers, r, Lose(w.boxes[r], m), h, multiset{m.page});
    } else {
      FreshPage(w.used, w.held, page.value);
      NewHeaderPages(w.boxes[r], m, page.value);
      AllPagesChange(w.boxes, w.headers, r, Deliver(w.boxes[r], m), page, multiset{m.page} + multiset{page.value});
      assert multiset(w.held + {page.value}) ==
        AllPages(w.boxes, w.headers) + (multiset{m.page} + multiset{page.value});
    }
  }

  lemma NewHeaderPages(b: Box, m: Msg, page: nat)
    ensures BoxPages(Deliver(b, m), Some(page)) == BoxPages(b, None) + (multiset{m.page} + multiset{page})
  {
    DeliverPages(b, m, None);
    assert BoxPages(Deliver(b, m), Some(page)) == BoxPages(Deliver(b, m), None) + multiset{page};
    assert (BoxPages(b, None) + multiset{m.page}) + multiset{page} ==
      BoxPages(b, None) + (multiset{m.page} + multiset{page});
  }

  lemma AccountedLater(b: Box, next: nat)
    requires Accounted(b, next)
    ensures Accounted(b, next + 1)
  {
  }

  lemma SendKeepsInv<P>(w: Ipc<P>, r: nat, msg: Option<UserMsg>)
    requires Inv(w) && w.sched.current.Some?
    ensures Inv(Send(w, r, msg).0)
  {
    hide Accounted, AllPages, WellFormed, FindProcess, AddToQueue, WakeUp;
    CurrentPidInBounds(w);
    if Send(w, r, msg).1 == Success {
      MessageFitsOnePage(|msg.value.data|);
      var page := Find(w.used, PHYS_PAGES, 1).value;
      FreshPage(w.used, w.held, page);
      var m := Msg(w.next, w.sched.pid[w.sched.current.value], r, msg.value.kind, msg.value.flags, msg.value.data,
        page);
      var w1 := w.(next := w.next + 1, used := w.used + {page}, held := w.held + {page});
      FoundPidInBounds(w, r);
      AddToQueueKeepsInv(w1, r, m);
      InvIgnoresScheduler(AddToQueue(w1, r, m), WakeUp(AddToQueue(w1, r, m).sched, r));
    }
  }

  /** The receiver's identifier indexes the mailboxes, because it is that of a process. */
  lemma FoundPidInBounds<P>(w: Ipc<P>, r: nat)
    requires Shape(w) && FindProcess(w.sched, r).Some?
    ensures r < MAX_PROCESSES
  {
  }

  lemma InvIgnoresScheduler<P>(w: Ipc<P>, s: Sched<P>)
    requires Inv(w) && WellFormed(s) && s.pid == w.sched.pid
    ensures Inv(w.(sched := s))
  {
    hide Accounted, AllPages, WellFormed;
  }

  /** So do other processes, and other pages. */
  lemma InvIgnoresOthers<P>(w: Ipc<P>, s: Sched<P>, used: set<nat>)
    requires Inv(w) && WellFormed(s) && (forall p :: p in s.pid ==> s.pid[p] < MAX_PROCESSES) && w.held <= used
    ensures Inv(w.(sched := s, used := used))
  {
    hide Accounted, AllPages, WellFormed;
  }

  lemma ReceiveKeepsInv<P>(w: Ipc<P>, filter: nat, block: bool)
    requires Inv(w)
    ensures Inv(ReceiveMsg(w, filter, block).0)
  {
    hide Accounted, AllPages, BoxPages, Block, WellFormed;
    if w.sched.current.Some? {
      CurrentPidInBounds(w);
      var r := w.sched.pid[w.sched.current.value];
      var b := w.boxes[r];
      var k := FirstMatch(b.queue, filter);
      if k == |b.queue| {
        BlockKeepsPids(w.sched);
        InvIgnoresScheduler(w, Block(w.sched));
      } else {
        ReceiveKeepsAccount(b, filter, w.next);
        ReceivePages(b, k, w.headers[r]);
        assert w.headers[r := w.headers[r]] == w.headers;
        AllPagesChange(w.boxes, w.headers, r, Receive(b, k), w.headers[r], multiset{b.queue[k].page});
        ReleasePage(w.held, AllPages(w.boxes[r := Receive(b, k)], w.headers), b.queue[k].page);
      }
    }
  }

  lemma CurrentPidInBounds<P>(w: Ipc<P>)
    requires Shape(w) && w.sched.current.Some?
    ensures w.sched.current.value in w.sched.pid && w.sched.pid[w.sched.current.value] < MAX_PROCESSES
  {
  }

  /** A page kept once and let go is no longer held. */
  lemma ReleasePage(held: set<nat>, rest: multiset<nat>, page: nat)
    requires multiset(held) == rest + multiset{page}
    ensures multiset(held - {page}) == rest && page in held
  {
    assert multiset(held)[page] == 1;
    forall p: nat ensures multiset(held - {page})[p] == rest[p] {
      assert (rest + multiset{page})[p] == rest[p] + multiset{page}[p];
    }
  }

  lemma Regroup(a: multiset<nat>, b: multiset<nat>, c: multiset<nat>)
    ensures a + (b + c) == (a + c) + b
  {
  }

  lemma ReleasePages(held: set<nat>, rest: multiset<nat>, q: seq<Msg>)
    requires multiset(held) == rest + MsgPages(q)
    ensures multiset(held - QueuePages(q)) == rest && QueuePages(q) <= held && |QueuePages(q)| == |q|
  {
    if q == [] {
      assert held - QueuePages(q) == held;
    } else {
      var page := q[0].page;
      Regroup(rest, multiset{page}, MsgPages(q[1..]));
      ReleasePage(held, rest + MsgPages(q[1..]), page);
      ReleasePages(held - {page}, rest, q[1..]);
      assert held - QueuePages(q) == (held - {page}) - QueuePages(q[1..]);
    }
  }

  lemma ClearKeepsInv<P>(w: Ipc<P>, r: nat)
    requires Inv(w)
    ensures Inv(ClearQueue(w, r).0)
  {
    hide Accounted, AllPages, BoxPages, WellFormed, MsgPages, QueuePages;
    if r < MAX_PROCESSES && w.headers[r].Some? {
      var b := w.boxes[r];
      ClearKeepsAccount(b, w.next);
      ClearPages(b, w.headers[r]);
      assert w.headers[r := w.headers[r]] == w.headers;
      AllPagesChange(w.boxes, w.headers, r, Clear(b), w.headers[r], MsgPages(b.queue));
      ReleasePages(w.held, AllPages(w.boxes[r := Clear(b)], w.headers), b.queue);
    }
  }

  /** A queued message's page is held, so it is the allocator's to free. */
  lemma QueuedPageIsHeld<P>(w: Ipc<P>, r: nat, k: nat)
    requires Inv(w) && r < MAX_PROCESSES && k < |w.boxes[r].queue|
    ensures w.boxes[r].queue[k].page in w.held
  {
    hide Accounted, AllPages, WellFormed;
    MsgPagesMember(w.boxes[r].queue, k);
    BoxPagesIncluded(w.boxes, w.headers, r);
    assert w.boxes[r].queue[k].page in multiset(w.held);
  }

  lemma HeldIsUsed<P>(w: Ipc<P>)
    requires Inv(w)
    ensures w.held <= w.used
  {
    hide Accounted, AllPages, WellFormed;
  }

  lemma NoQueuePages()
    ensures QueuePages([]) == {}
  {
  }

  lemma {:induction false} QueuePagesSnoc(q: seq<Msg>, m: Msg)
    ensures QueuePages(q + [m]) == QueuePages(q) + {m.page}
  {
    if q == [] {
      assert [m][1..] == [] && q + [m] == [m];
    } else {
      assert (q + [m])[0] == q[0] && (q + [m])[1..] == q[1..] + [m];
      QueuePagesSnoc(q[1..], m);
    }
  }

  /** Message passing takes only free pages and gives back only its own: the others in use stay. Only page 0
      can be marked without being held, if it was free. */
  lemma OwnPagesOnly<P>(w: Ipc<P>, step: IpcStep<P>)
    requires Inv(w) && Legal(w, step) && (step.SendStep? || step.ReceiveStep? || step.ClearStep?)
    ensures var w' := Next(w, step);
      && w.held <= w.used && (w'.held - w.held) !! w.used
      && w.used - w.held <= w'.used - w'.held <= (w.used - w.held) + {0}
  {
    hide Accounted, AllPages, WellFormed, Send, FirstMatch, Block, QueuePages;
    match step
    case SendStep(r, msg) => SendPages(w, r, msg);
    case ReceiveStep(filter, block) =>
      if w.sched.current.Some? {
        CurrentPidInBounds(w);
        var r := w.sched.pid[w.sched.current.value];
        var k := FirstMatch(w.boxes[r].queue, filter);
        if k < |w.boxes[r].queue| {
          QueuedPageIsHeld(w, r, k);
        }
      }
    case ClearStep(r) =>
      if r < MAX_PROCESSES {
        forall k | 0 <= k < |w.boxes[r].queue| ensures w.boxes[r].queue[k].page in w.held {
          QueuedPageIsHeld(w, r, k);
        }
        QueuePagesWithin(w.boxes[r].queue, w.held);
      }
  }

  lemma {:induction false} QueuePagesWithin(q: seq<Msg>, held: set<nat>)
    requires forall k :: 0 <= k < |q| ==> q[k].page in held
    ensures QueuePages(q) <= held
  {
    if q != [] {
      QueuePagesWithin(q[1..], held);
    }
  }

  lemma SendPages<P>(w: Ipc<P>, r: nat, msg: Option<UserMsg>)
    requires Inv(w) && w.sched.current.Some?
    ensures var w' := Send(w, r, msg).0;
      (w'.held - w.held) !! w.used && w.used - w.held <= w'.used - w'.held <= (w.used - w.held) + {0}
  {
    hide Accounted, AllPages, WellFormed, FindProcess, WakeUp, Deliver, Lose, Find;
    if Send(w, r, msg).1 == Success {
      FoundPidInBounds(w, r);
      CurrentPidInBounds(w);
      MessageFitsOnePage(|msg.value.data|);
      var page := Find(w.used, PHYS_PAGES, 1).value;
      FreshPage(w.used, w.held, page);
      TakenPage(w.used, w.held, page);
      var used, held := w.used + {page}, w.held + {page};
      var header := Find(used, PHYS_PAGES, 1);
      if header.Some? {
        FreshPage(used, held, header.value);
        TakenPage(used, held, header.value);
      }
    }
  }

  lemma TakenPage(used: set<nat>, held: set<nat>, page: nat)
    requires Find(used, PHYS_PAGES, 1) == Some(page) && held <= used
    ensures page !in used && (used + {page}) - (held + {page}) == used - held
  {
    assert Candidate(used, PHYS_PAGES, page, 1);
    assert page !in used;
  }

  lemma NextKeepsInv<P>(w: Ipc<P>, step: IpcStep<P>)
    requires Inv(w) && Legal(w, step)
    ensures Inv(Next(w, step))
  {
    hide Inv, Send, ReceiveMsg, ClearQueue, SchedulerSpec.Next;
    InvHasShape(w);
    match step
    case SendStep(r, msg) => SendKeepsInv(w, r, msg);
    case ReceiveStep(filter, block) => ReceiveKeepsInv(w, filter, block);
    case ClearStep(r) => ClearKeepsInv(w, r);
    case SchedStep(s) =>
      SchedulerKeepsPids(w.sched, s);
      InvIgnoresScheduler(w, SchedulerSpec.Next(w.sched, s));
    case OtherStep(used) => OtherKeepsInv(w, used);
    case DisturbStep(s) => InvIgnoresScheduler(w, s);
  }

  lemma InvHasShape<P>(w: Ipc<P>)
    requires Inv(w)
    ensures Shape(w)
  {
    hide Accounted, AllPages;
  }

  lemma OtherKeepsInv<P>(w: Ipc<P>, used: set<nat>)
    requires Inv(w) && w.held <= used
    ensures Inv(w.(used := used))
  {
    hide Accounted, AllPages, WellFormed;
  }

  // ----- every run

  ghost predicate LegalRun<P>(w: Ipc<P>, steps: seq<IpcStep<P>>)
    requires Inv(w)
    decreases |steps|
  {
    steps != [] ==> Legal(w, steps[0]) && (NextKeepsInv(w, steps[0]); LegalRun(Next(w, steps[0]), steps[1..]))
  }

  ghost function Run<P>(w: Ipc<P>, steps: seq<IpcStep<P>>): (w': Ipc<P>)
    requires Inv(w) && LegalRun(w, steps)
    ensures Inv(w')
    decreases |steps|
  {
    if steps == [] then w else
      NextKeepsInv(w, steps[0]);
      Run(Next(w, steps[0]), steps[1..])
  }

  /** What `ipc_init` leaves. */
  ghost predicate Initial<P>(w: Ipc<P>) {
    && Shape(w) && w.next == 1 && w.held == {}
    && (forall r :: 0 <= r < MAX_PROCESSES ==> w.boxes[r] == EMPTY && w.headers[r] == None)
  }

  lemma {:induction false} NoPages(boxes: seq<Box>, headers: seq<Option<nat>>)
    requires |boxes| == |headers| && forall r :: 0 <= r < |boxes| ==> boxes[r] == EMPTY && headers[r] == None
    ensures AllPages(boxes, headers) == multiset{}
    decreases |boxes|
  {
    if boxes != [] {
      NoPages(boxes[..|boxes| - 1], headers[..|boxes| - 1]);
    }
  }

  lemma InitialKeepsInv<P>(w: Ipc<P>)
    requires Initial(w)
    ensures Inv(w)
  {
    NoPages(w.boxes, w.headers);
  }

  /** In every run and for every receiver: each message sent to it is in exactly one
      place, and what it got from each sender is a subsequence of what that sender sent it. */
  lemma EveryMessageOnceAndInOrder<P>(w: Ipc<P>, steps: seq<IpcStep<P>>, r: nat, m: Msg, sender: nat)
    requires Inv(w) && LegalRun(w, steps) && r < MAX_PROCESSES
    ensures var b := Run(w, steps).boxes[r];
      && |b.queue| <= MAX_MESSAGES
      && Subsequence(From(b.received, sender), From(b.sent, sender))
      && (m in b.sent ==>
            multiset(b.queue)[m] + multiset(b.received)[m] + multiset(b.dropped)[m] + multiset(b.cleared)[m]
              + multiset(b.lost)[m] == 1)
  {
    hide LegalRun, Run, AllPages, Subsequence;
    var w' := Run(w, steps);
    PerSenderFifo(w'.boxes[r], w'.next, sender);
    if m in w'.boxes[r].sent {
      ExactlyOnce(w'.boxes[r], w'.next, m);
    }
  }

  /** In every run the pages held number the queue headers made, the messages queued, those dropped on
      overflow and those lost for want of a header. */
  lemma PageLedger<P>(w: Ipc<P>, steps: seq<IpcStep<P>>)
    requires Inv(w) && LegalRun(w, steps)
    ensures var w' := Run(w, steps);
      |w'.boxes| == |w'.headers| && |w'.held| == AllCount(w'.boxes, w'.headers) && w'.held <= w'.used
  {
    hide LegalRun, Run, AllPages, Accounted;
    var w' := Run(w, steps);
    AllPagesCount(w'.boxes, w'.headers);
    assert |multiset(w'.held)| == |w'.held|;
  }

  // ----- whom a message can reach

  /** A send makes a Blocked process Ready exactly when it succeeds and the process is the one found
      under the receiver's identifier. */
  lemma SendWakesIffFound<P>(w: Ipc<P>, r: nat, msg: Option<UserMsg>, p: P)
    requires Shape(w) && w.sched.current.Some? && p in w.sched.state && w.sched.state[p] == Blocked
    ensures var (w', status) := Send(w, r, msg);
      && p in w'.sched.state
      && (w'.sched.state[p] == Ready <==> status == Success && FindProcess(w.sched, r) == Some(p))
      && (w'.sched.state[p] != Ready ==> w'.sched.state[p] == Blocked)
  {
    hide AddToQueue, Find, FindProcess;
    SendKeepsOrWakes(w, r, msg);
  }

  /** While the scheduler's invariant holds, that can only be the current process: every queued process
      is Ready already, and no other process can be found. */
  lemma SendWakesOnlyCurrent<P>(w: Ipc<P>, r: nat, msg: Option<UserMsg>, p: P)
    requires Shape(w) && SchedulerSpec.Inv(w.sched) && w.sched.current.Some?
    requires p in w.sched.state && w.sched.state[p] == Blocked
    ensures p in Send(w, r, msg).0.sched.state
    ensures Send(w, r, msg).0.sched.state[p] == Ready ==> w.sched.current == Some(p) && w.sched.pid[p] == r
  {
    hide Send;
    SendWakesIffFound(w, r, msg, p);
  }

  /** It is otherwise once a process has blocked while queued behind another one: a send then wakes a
      process that is not current, and links it twice. */
  lemma SendWakesAnother<P>(w: Ipc<P>, p: P, q: P, msg: UserMsg)
    requires Shape(w) && SchedulerSpec.Inv(w.sched) && w.sched.current == Some(p) && w.sched.queue == [q, p]
    requires p in w.sched.pid && q in w.sched.pid && w.sched.pid[p] != w.sched.pid[q]
    requires |msg.data| <= MAX_DATA && NonNull(Find(w.used, PHYS_PAGES, 1)).Some?
    ensures var w1 := w.(sched := Block(w.sched)); var r := w.sched.pid[p];
      && Shape(w1) && w1.sched.current == Some(q) && w1.sched.state[p] == Blocked && SendRelinks(w1, r, Some(msg))
      && p in Send(w1, r, Some(msg)).0.sched.state && Send(w1, r, Some(msg)).0.sched.state[p] == Ready
  {
    hide Send, Find, SchedulerSpec.Inv, Block;
    var w1, r := w.(sched := Block(w.sched)), w.sched.pid[p];
    BlockingWhileQueuedBreaksInv(w.sched, p, q);
    BlockBehindOne(w.sched, p, q);
    assert FindProcess(w1.sched, r) == Some(p);
    SendSucceeds(w1, r, msg);
    SendWakesIffFound(w1, r, Some(msg), p);
  }

  lemma BlockBehindOne<P>(s: Sched<P>, p: P, q: P)
    requires SchedulerSpec.Inv(s) && s.current == Some(p) && s.queue == [q, p]
    ensures Block(s).current == Some(q) && Block(s).pid == s.pid && Block(s).queue == [p]
  {
    assert s.queue[1..] == [p];
  }

  lemma SendSucceeds<P>(w: Ipc<P>, r: nat, msg: UserMsg)
    requires Shape(w) && w.sched.current.Some? && FindProcess(w.sched, r).Some?
    requires |msg.data| <= MAX_DATA && NonNull(Find(w.used, PHYS_PAGES, 1)).Some?
    ensures Send(w, r, Some(msg)).1 == Success
  {
    hide AddToQueue, WakeUp, Find;
    MessageFitsOnePage(|msg.data|);
  }

  /** The process found under the identifier is Blocked in the ready list. */
  predicate WakeRelinks<P>(s: Sched<P>, r: nat)
    requires WellFormed(s)
  {
    var p := FindProcess(s, r);
    p.Some? && Relinks(s, UnblockStep(p.value))
  }

  /** The send unblocks a process that is in the ready list. */
  ghost predicate SendRelinks<P>(w: Ipc<P>, r: nat, msg: Option<UserMsg>)
    requires Shape(w) && w.sched.current.Some?
  {
    Send(w, r, msg).1 == Success && WakeRelinks(w.sched, r)
  }

  lemma SendKeepsOrWakes<P>(w: Ipc<P>, r: nat, msg: Option<UserMsg>)
    requires Shape(w) && w.sched.current.Some?
    ensures var (w', status) := Send(w, r, msg);
      && w'.sched == (if status == Success then WakeUp(w.sched, r) else w.sched)
      && (status == Success ==> FindProcess(w.sched, r).Some?)
  {
    hide WakeUp, FindProcess, Find;
  }

  // ----- what a call does, in the caller's terms

  /** The status of a send says exactly what was wrong. */
  lemma SendStatusIff<P>(w: Ipc<P>, r: nat, msg: Option<UserMsg>)
    requires Shape(w) && w.sched.current.Some?
    ensures var status := Send(w, r, msg).1; var found := FindProcess(w.sched, r).Some?;
      && (status == InvalidParam <==> msg == None || (found && |msg.value.data| > 256))
      && (status == NotFound <==> msg.Some? && !found)
      && (status == OutOfMemory <==>
            msg.Some? && found && |msg.value.data| <= 256 && NonNull(Find(w.used, PHYS_PAGES, 1)).None?)
      && (status == Success <==>
            msg.Some? && found && |msg.value.data| <= 256 && NonNull(Find(w.used, PHYS_PAGES, 1)).Some?)
  {
    hide FindProcess, Find, Requested, WakeUp, AddToQueue;
    if msg.Some? && FindProcess(w.sched, r).Some? && |msg.value.data| <= 256 {
      MessageFitsOnePage(|msg.value.data|);
    }
  }

  /** A queue has no header, and no page is left for one beside that of the message. */
  ghost predicate NoRoomForQueue<P>(w: Ipc<P>, r: nat)
    requires Shape(w) && r < MAX_PROCESSES
  {
    w.headers[r].None? && NonNull(Find(Requested(w.used, PHYS_PAGES, 1), PHYS_PAGES, 1)).None?
  }

  /** The queue after a message has come in: the oldest of a hundred goes. */
  function Behind(q: seq<Msg>): seq<Msg> {
    if |q| >= 100 then q[1..] else q
  }

  /** A successful send puts the message at the end of its receiver's queue, from the current process and with
      the contents given, in a page that was free. It is lost exactly if there is no room for a queue. No other
      mailbox changes. */
  lemma SendQueues<P>(w: Ipc<P>, r: nat, msg: UserMsg)
    requires Shape(w) && w.sched.current.Some? && Send(w, r, Some(msg)).1 == Success
    ensures r < MAX_PROCESSES && w.sched.current.value in w.sched.pid
    ensures var w' := Send(w, r, Some(msg)).0; var page := Find(w.used, PHYS_PAGES, 1);
      && |w'.boxes| == MAX_PROCESSES && page.Some? && page.value !in w.used && w'.next == w.next + 1
      && (forall i :: 0 <= i < MAX_PROCESSES && i != r ==> w'.boxes[i] == w.boxes[i])
      && var m := Msg(w.next, w.sched.pid[w.sched.current.value], r, msg.kind, msg.flags, msg.data, page.value);
         if NoRoomForQueue(w, r)
         then w'.boxes[r].queue == w.boxes[r].queue && w'.boxes[r].lost == w.boxes[r].lost + [m]
         else w'.boxes[r].queue == Behind(w.boxes[r].queue) + [m] && w'.boxes[r].lost == w.boxes[r].lost
  {
    hide FindProcess, Find, WakeUp, WellFormed;
    CurrentPidInBounds(w);
    FoundPidInBounds(w, r);
    SendStatusIff(w, r, Some(msg));
    SendStores(w, r, msg);
    FoundIsFree(w.used, PHYS_PAGES);
    OnePage(Find(w.used, PHYS_PAGES, 1).value);
  }

  /** A step loses a message of a receiver exactly if it is a successful send without room for its queue. */
  lemma LosesIff<P>(w: Ipc<P>, step: IpcStep<P>, r: nat)
    requires Inv(w) && Legal(w, step) && r < MAX_PROCESSES
    ensures |w.boxes| == |Next(w, step).boxes| == |w.headers| == |Next(w, step).headers| == MAX_PROCESSES
    ensures Next(w, step).boxes[r].lost == w.boxes[r].lost <==>
      !(step.SendStep? && step.receiver == r && Send(w, r, step.msg).1 == Success && NoRoomForQueue(w, r))
    ensures w.headers[r].Some? ==> Next(w, step).headers[r] == w.headers[r]
  {
    hide Accounted, AllPages, Send, FirstMatch, Block, QueuePages, SchedulerSpec.Next, NoRoomForQueue, Inv;
    InvHasShape(w);
    if step.SendStep? {
      SendLosesIff(w, step.receiver, step.msg, r);
    } else {
      NextKeepsInv(w, step);
      InvHasShape(Next(w, step));
    }
  }

  lemma SendLosesIff<P>(w: Ipc<P>, to: nat, msg: Option<UserMsg>, r: nat)
    requires Shape(w) && w.sched.current.Some? && r < MAX_PROCESSES
    ensures var (w', status) := Send(w, to, msg);
      && |w'.boxes| == |w'.headers| == MAX_PROCESSES
      && (w'.boxes[r].lost == w.boxes[r].lost <==> !(to == r && status == Success && NoRoomForQueue(w, r)))
      && (w.headers[r].Some? ==> w'.headers[r] == w.headers[r])
  {
    hide FindProcess, Find, WakeUp, WellFormed;
    if Send(w, to, msg).1 == Success {
      SendQueues(w, to, msg.value);
      SendStores(w, to, msg.value);
    }
  }

  /** So a receiver that has a queue loses no message any more, whatever happens. */
  lemma {:induction false} NothingLostOnceOpen<P>(w: Ipc<P>, steps: seq<IpcStep<P>>, r: nat)
    requires Inv(w) && LegalRun(w, steps) && r < MAX_PROCESSES
    requires |w.boxes| == |w.headers| == MAX_PROCESSES && w.headers[r].Some?
    ensures |Run(w, steps).boxes| == MAX_PROCESSES && Run(w, steps).boxes[r].lost == w.boxes[r].lost
    decreases |steps|
  {
    hide Inv, Legal, Next, NoRoomForQueue, Send;
    if steps != [] {
      InvHasShape(w);
      NextKeepsInv(w, steps[0]);
      LosesIff(w, steps[0], r);
      NoRoomWithoutHeader(w, r);
      NothingLostOnceOpen(Next(w, steps[0]), steps[1..], r);
    }
  }

  lemma NoRoomWithoutHeader<P>(w: Ipc<P>, r: nat)
    requires Shape(w) && r < MAX_PROCESSES && w.headers[r].Some?
    ensures !NoRoomForQueue(w, r)
  {
  }

  /** Some message in the queue is from the sender asked for, 0 standing for anybody. */
  predicate HasMessage(q: seq<Msg>, filter: nat) {
    exists i :: 0 <= i < |q| && (filter == 0 || q[i].sender == filter)
  }

  /** A receive hands over and takes out the first message from the sender asked for, and gives its page back.
      Without one it changes nothing and reports that it found none, unless it is to block: then, and only
      then, the caller is Blocked, nothing but the scheduler changes, and the report is a success. */
  lemma ReceiveIff<P>(w: Ipc<P>, filter: nat, block: bool)
    requires Shape(w) && w.sched.current.Some?
    ensures var c := w.sched.current.value; c in w.sched.pid && w.sched.pid[c] < MAX_PROCESSES
    ensures var (w', status, msg) := ReceiveMsg(w, filter, block); var c := w.sched.current.value;
      var r := w.sched.pid[c]; var q := w.boxes[r].queue;
      && (status == NotFound <==> !HasMessage(q, filter) && !block) && status in {Success, NotFound}
      && (msg.Some? <==> HasMessage(q, filter))
      && (!HasMessage(q, filter) ==> w' == w.(sched := w'.sched))
      && (HasMessage(q, filter) || !block ==> w'.sched == w.sched)
      && (!HasMessage(q, filter) && block ==>
            w'.sched == BlockedCaller(w.sched, c))
      && (HasMessage(q, filter) ==>
            && |w'.boxes| == MAX_PROCESSES
            && (exists k: nat :: k < |q| && msg == Some(q[k]) && Oldest(q, filter, k)
                  && w'.boxes[r].queue == q[..k] + q[k + 1..] && w'.used == w.used - {q[k].page}))
  {
    hide Block, FirstMatch, WellFormed;
    CurrentPidInBounds(w);
    var c := w.sched.current.value;
    var q := w.boxes[w.sched.pid[c]].queue;
    var k := FirstMatch(q, filter);
    FirstMatchFinds(q, filter);
    if k == |q| && block {
      BlockYields(w.sched);
    }
  }

  /** The caller Blocked, and the head of the queue, if there is one, on the processor. */
  function BlockedCaller<P>(s: Sched<P>, c: P): Sched<P> {
    if s.queue == [] then s.(state := s.state[c := Blocked])
    else s.(current := Some(s.queue[0]), queue := s.queue[1..],
            state := s.state[c := Blocked][s.queue[0] := Running])
  }

  /** The message at `k` is from the sender asked for, and none before it is. */
  predicate Oldest(q: seq<Msg>, filter: nat, k: nat)
    requires k < |q|
  {
    (filter == 0 || q[k].sender == filter) && forall i :: 0 <= i < k ==> filter != 0 && q[i].sender != filter
  }

  lemma FirstMatchFinds(q: seq<Msg>, filter: nat)
    ensures var k := FirstMatch(q, filter);
      (k < |q| <==> HasMessage(q, filter)) && (k < |q| ==> Oldest(q, filter, k))
  {
    hide FirstMatch;
    var k := FirstMatch(q, filter);
    forall i | 0 <= i < k ensures filter != 0 && q[i].sender != filter {
      assert !Matches(q[i], filter);
    }
    if k < |q| {
      assert Matches(q[k], filter);
      assert Oldest(q, filter, k) && HasMessage(q, filter);
    }
  }

  lemma BlockYields<P>(s: Sched<P>)
    requires WellFormed(s) && s.current.Some?
    ensures Block(s) == BlockedCaller(s, s.current.value)
  {
  }

  /** What was sent to an empty queue is what its owner gets, whenever it is scheduled to ask for it. */
  lemma SendThenReceive<P>(w: Ipc<P>, r: nat, msg: UserMsg, s: Sched<P>, block: bool)
    requires Shape(w) && w.sched.current.Some? && Send(w, r, Some(msg)).1 == Success
    requires r < MAX_PROCESSES && !NoRoomForQueue(w, r) && w.boxes[r].queue == []
    requires WellFormed(s) && s.pid == w.sched.pid && s.current.Some? && s.pid[s.current.value] == r
    ensures var w' := Send(w, r, Some(msg)).0.(sched := s);
      && Shape(w')
      && var (_, status, got) := ReceiveMsg(w', 0, block);
         && status == Success && got.Some? && got.value.sender == w.sched.pid[w.sched.current.value]
         && got.value.kind == msg.kind && got.value.flags == msg.flags && got.value.data == msg.data
  {
    hide Send, FirstMatch, NoRoomForQueue, Find;
    SendQueues(w, r, msg);
    SendLosesIff(w, r, Some(msg), r);
    var w' := Send(w, r, Some(msg)).0.(sched := s);
    assert w'.boxes[r].queue[0].data == msg.data;
    ReceiveIff(w', 0, block);
    assert HasMessage(w'.boxes[r].queue, 0);
  }

  /** Without a current process there is nobody to receive for. */
  lemma ReceiveWithoutCaller<P>(w: Ipc<P>, filter: nat, block: bool)
    requires Shape(w) && w.sched.current.None?
    ensures ReceiveMsg(w, filter, block) == (w, PermissionDenied, None)
  {
  }

  /** Clearing empties exactly that queue, frees the pages of its messages, and refuses only identifiers that
      index no queue. */
  lemma ClearEmpties<P>(w: Ipc<P>, r: nat)
    requires Inv(w)
    ensures var (w', status) := ClearQueue(w, r);
      && (status == InvalidParam <==> r >= 64) && status in {Success, InvalidParam}
      && |w.boxes| == |w'.boxes| == 64 && w'.sched == w.sched && w'.headers == w.headers
      && (forall i :: 0 <= i < 64 && i != r ==> w'.boxes[i] == w.boxes[i])
      && (r < 64 ==> w'.boxes[r].queue == [] && |w.used| == |w'.used| + |w.boxes[r].queue|)
  {
    hide Accounted, AllPages, BoxPages, WellFormed, MsgPages, QueuePages;
    if r < MAX_PROCESSES && w.headers[r].Some? {
      var b := w.boxes[r];
      ClearPages(b, w.headers[r]);
      assert w.headers[r := w.headers[r]] == w.headers;
      AllPagesChange(w.boxes, w.headers, r, Clear(b), w.headers[r], MsgPages(b.queue));
      ReleasePages(w.held, AllPages(w.boxes[r := Clear(b)], w.headers), b.queue);
      FewerPages(w.used, QueuePages(b.queue));
    }
  }

  lemma FewerPages(used: set<nat>, gone: set<nat>)
    requires gone <= used
    ensures |used| == |used - gone| + |gone|
  {
    assert used == (used - gone) + gone;
  }

  // ----- runs in which no process blocks while queued behind another

  ghost predicate SafeStep<P>(w: Ipc<P>, step: IpcStep<P>)
    requires Shape(w)
  {
    match step
    case ReceiveStep(filter, block) =>
      var (_, status, msg) := ReceiveMsg(w, filter, block);
      status == Success && msg == None ==> Safe(w.sched, BlockStep)
    case SchedStep(s) => Safe(w.sched, s)
    case DisturbStep(_) => false
    case _ => true
  }

  ghost predicate SafeRun<P>(w: Ipc<P>, steps: seq<IpcStep<P>>)
    requires Inv(w) && LegalRun(w, steps)
    decreases |steps|
  {
    steps != [] ==> SafeStep(w, steps[0]) && (NextKeepsInv(w, steps[0]); SafeRun(Next(w, steps[0]), steps[1..]))
  }

  lemma SafeStepKeepsScheduler<P>(w: Ipc<P>, step: IpcStep<P>)
    requires Shape(w) && Legal(w, step) && SafeStep(w, step) && SchedulerSpec.Inv(w.sched)
    ensures SchedulerSpec.Inv(Next(w, step).sched)
  {
    hide SchedulerSpec.Inv, Send, SchedulerSpec.Next, Block, FirstMatch;
    match step
    case SendStep(r, msg) =>
      SendKeepsOrWakes(w, r, msg);
      WakeUpKeepsScheduler(w.sched, r);
    case ReceiveStep(filter, block) => BlockKeepsInvIffSafe(w.sched);
    case SchedStep(s) => NextKeepsInvIffSafe(w.sched, s);
    case _ =>
  }

  lemma WakeUpKeepsScheduler<P>(s: Sched<P>, r: nat)
    requires SchedulerSpec.Inv(s)
    ensures SchedulerSpec.Inv(WakeUp(s, r))
  {
    hide Unblock, FindProcess;
    var p := FindProcess(s, r);
    if p.Some? {
      EnqueueKeepsInv(s, p.value);
    }
  }

  lemma {:induction false} SafeRunKeepsScheduler<P>(w: Ipc<P>, steps: seq<IpcStep<P>>)
    requires Inv(w) && LegalRun(w, steps) && SafeRun(w, steps) && SchedulerSpec.Inv(w.sched)
    ensures SchedulerSpec.Inv(Run(w, steps).sched)
    decreases |steps|
  {
    hide Inv, SchedulerSpec.Inv, Next, Legal, SafeStep;
    if steps != [] {
      InvHasShape(w);
      NextKeepsInv(w, steps[0]);
      SafeStepKeepsScheduler(w, steps[0]);
      SafeRunKeepsScheduler(Next(w, steps[0]), steps[1..]);
    }
  }

  /** After every such run, a send wakes nobody but the current process. */
  lemma SafeRunsWakeOnlyCurrent<P>(w: Ipc<P>, steps: seq<IpcStep<P>>, r: nat, msg: Option<UserMsg>, p: P)
    requires Inv(w) && LegalRun(w, steps) && SafeRun(w, steps) && SchedulerSpec.Inv(w.sched)
    requires var s := Run(w, steps).sched; s.current.Some? && p in s.state && s.state[p] == Blocked
    ensures var w' := Run(w, steps);
      && Shape(w') && p in Send(w', r, msg).0.sched.state
      && (Send(w', r, msg).0.sched.state[p] == Ready ==> w'.sched.current == Some(p) && w'.sched.pid[p] == r)
  {
    hide Inv, SchedulerSpec.Inv, Run, LegalRun, SafeRun, Send, Shape;
    SafeRunKeepsScheduler(w, steps);
    InvHasShape(Run(w, steps));
    SendWakesOnlyCurrent(Run(w, steps), r, msg, p);
  }

  lemma AddToQueueKeepsScheduler<P>(w: Ipc<P>, r: nat, msg: Option<UserMsg>)
    requires Shape(w) && w.sched.current.Some?
    ensures Send(w, r, msg).0.sched == w.sched || Send(w, r, msg).0.sched == WakeUp(w.sched, r)
  {
    hide WakeUp, FindProcess;
  }

  /** Blocked, switched away and not queued, and nobody who can be found has its identifier. */
  ghost predicate Stranded<P>(s: Sched<P>, p: P) {
    && WellFormed(s) && p in s.state && s.state[p] == Blocked
    && s.current != Some(p) && p !in s.queue
    && (s.current.Some? ==> s.pid[s.current.value] != s.pid[p])
    && (forall i :: 0 <= i < |s.queue| ==> s.pid[s.queue[i]] != s.pid[p])
  }

  /** The step neither names the process, its mailbox or another process under its identifier, nor links
      a process twice. */
  ghost predicate Elsewhere<P>(w: Ipc<P>, step: IpcStep<P>, p: P)
    requires Shape(w) && p in w.sched.pid && Legal(w, step)
  {
    match step
    case SendStep(r, msg) => !SendRelinks(w, r, msg)
    case ReceiveStep(_, _) => true
    case ClearStep(r) => r != w.sched.pid[p]
    case SchedStep(s) => StepElsewhere(w.sched, s, p) && !Relinks(w.sched, s)
    case OtherStep(_) => true
    case DisturbStep(_) => false
  }

  ghost predicate StepElsewhere<P>(s: Sched<P>, step: Step<P>, p: P)
    requires p in s.pid && WellFormed(s) && Known(step, s.state.Keys)
  {
    step.AddStep? || step.RemoveStep? || step.UnblockStep? ==> step.p != p && s.pid[step.p] != s.pid[p]
  }

  lemma YieldLeavesStranded<P>(s: Sched<P>, p: P)
    requires Stranded(s, p)
    ensures Stranded(Yield(s), p) && Yield(s).pid == s.pid
  {
    if s.queue != [] {
      var r := Requeue(s);
      assert p !in r.queue && r.queue[0] != p;
      assert forall i :: 0 <= i < |r.queue| ==> s.pid[r.queue[i]] != s.pid[p];
    }
  }

  lemma EnqueueLeavesStranded<P>(s: Sched<P>, p: P, q: P)
    requires Stranded(s, p) && q in s.state && q != p && s.pid[q] != s.pid[p]
    ensures Stranded(Enqueue(s, q).(state := s.state[q := Ready]), p)
  {
    var queue := s.queue + [q];
    assert p !in queue && forall i :: 0 <= i < |queue| ==> s.pid[queue[i]] != s.pid[p];
  }

  lemma UnlinkLeavesStranded<P>(s: Sched<P>, p: P, q: P)
    requires Stranded(s, p) && q in s.state
    ensures Stranded(Unlink(s, q), p)
  {
    WithoutOnlyDrops(s.queue, q);
    var rest := Without(s.queue, q);
    forall i | 0 <= i < |rest| ensures s.pid[rest[i]] != s.pid[p] {
      assert rest[i] in s.queue;
    }
  }

  lemma SchedulerLeavesStranded<P>(s: Sched<P>, step: Step<P>, p: P)
    requires Stranded(s, p) && Known(step, s.state.Keys) && StepElsewhere(s, step, p)
    requires step.AddStep? ==> s.pid[step.p] != 0
    ensures Stranded(SchedulerSpec.Next(s, step), p)
  {
    hide Yield, Without, Unlink;
    match step
    case AddStep(q) => EnqueueLeavesStranded(s, p, q);
    case RemoveStep(q) =>
      UnlinkLeavesStranded(s, p, q);
      var s' := Unlink(s, q);
      if s'.current == Some(q) {
        YieldLeavesStranded(s'.(current := None, state := s'.state[q := Terminated]), p);
      }
    case TickStep =>
      var s' := s.(ticks := Increment(s.ticks));
      YieldLeavesStranded(if s.current.None? then s' else Charge(s', s.current.value), p);
    case YieldStep => YieldLeavesStranded(s, p);
    case BlockStep =>
      if s.current.Some? {
        YieldLeavesStranded(s.(state := s.state[s.current.value := Blocked]), p);
      }
    case UnblockStep(q) => EnqueueLeavesStranded(s, p, q);
  }

  lemma StrandedIsNotFound<P>(s: Sched<P>, p: P, r: nat)
    requires Stranded(s, p)
    ensures FindProcess(s, s.pid[p]) == None
    ensures FindProcess(s, r).Some? ==> FindProcess(s, r).value != p
    ensures Stranded(WakeUp(s, r), p)
  {
    hide FindIn;
    var q := FindProcess(s, r);
    if q.Some? {
      EnqueueLeavesStranded(s, p, q.value);
    }
  }

  /** The process is still stranded and its mailbox is the same. */
  ghost predicate LeftAlone<P>(w: Ipc<P>, w': Ipc<P>, p: P)
    requires Shape(w) && p in w.sched.pid
  {
    var r := w.sched.pid[p];
    && Stranded(w'.sched, p) && w'.sched.pid[p] == r
    && |w'.boxes| == |w'.headers| == MAX_PROCESSES
    && w'.boxes[r] == w.boxes[r] && w'.headers[r] == w.headers[r]
  }

  lemma SendLeavesStranded<P>(w: Ipc<P>, r: nat, msg: Option<UserMsg>, p: P)
    requires Shape(w) && w.sched.current.Some? && Stranded(w.sched, p)
    ensures LeftAlone(w, Send(w, r, msg).0, p)
  {
    hide Find, FindProcess, WakeUp;
    StrandedIsNotFound(w.sched, p, r);
    AddToQueueKeepsScheduler(w, r, msg);
  }

  lemma ReceiveLeavesStranded<P>(w: Ipc<P>, filter: nat, block: bool, p: P)
    requires Shape(w) && Stranded(w.sched, p)
    ensures LeftAlone(w, ReceiveMsg(w, filter, block).0, p)
  {
    hide FirstMatch, Block;
    BlockKeepsPids(w.sched);
    SchedulerLeavesStranded(w.sched, BlockStep, p);
  }

  /** No step that does not name it changes a stranded process or its mailbox. */
  lemma StepLeavesStranded<P>(w: Ipc<P>, step: IpcStep<P>, p: P)
    requires Inv(w) && Legal(w, step) && Stranded(w.sched, p) && Elsewhere(w, step, p)
    ensures LeftAlone(w, Next(w, step), p)
  {
    hide Accounted, AllPages, Send, ReceiveMsg, SchedulerSpec.Next;
    match step
    case SendStep(r, msg) => SendLeavesStranded(w, r, msg, p);
    case ReceiveStep(filter, block) => ReceiveLeavesStranded(w, filter, block, p);
    case ClearStep(r) =>
    case SchedStep(s) =>
      SchedulerKeepsPids(w.sched, s);
      SchedulerLeavesStranded(w.sched, s, p);
    case OtherStep(used) =>
  }

  ghost predicate ElsewhereThroughout<P>(w: Ipc<P>, steps: seq<IpcStep<P>>, p: P)
    requires Inv(w) && LegalRun(w, steps) && p in w.sched.pid
    decreases |steps|
  {
    steps != [] ==>
      && Elsewhere(w, steps[0], p)
      && (NextKeepsInv(w, steps[0]);
          p in Next(w, steps[0]).sched.pid && ElsewhereThroughout(Next(w, steps[0]), steps[1..], p))
  }

  /** A process that blocked and was switched away stays Blocked, with its mailbox as it was, along
      every run of sends, receives, ticks and yields: no send can reach or wake it. */
  lemma {:induction false} StrandedStaysStranded<P>(w: Ipc<P>, steps: seq<IpcStep<P>>, p: P)
    requires Inv(w) && LegalRun(w, steps) && Stranded(w.sched, p) && ElsewhereThroughout(w, steps, p)
    ensures LeftAlone(w, Run(w, steps), p)
    decreases |steps|
  {
    hide Inv, Legal, Next, Elsewhere;
    InvHasShape(w);
    if steps != [] {
      NextKeepsInv(w, steps[0]);
      StepLeavesStranded(w, steps[0], p);
      InvHasShape(Next(w, steps[0]));
      StrandedStaysStranded(Next(w, steps[0]), steps[1..], p);
    }
  }
}
