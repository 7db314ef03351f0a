/** Message passing working in place on the linked queues, the page allocator and the scheduler,
    proved against `IpcSpec`. */
module Ipc {
  import opened Common
  import opened SchedulerSpec
  import opened ReadyLinks
  import opened Scheduler
  import LS = LinkedScheduler
  import opened PageSet
  import opened PageAllocator
  import opened Mailbox
  import opened MessageQueue
  import opened QueueTable
  import IS = IpcSpec

  class Ipc {
    const scheduler: Scheduler
    const pages: Allocator
    const queues: QueueTable
    var next: nat             // the serial number of the next message; next_msg_id is its low 32 bits

    ghost var held: set<nat>  // pages allocated for messages and headers, and not freed

    /** The ready list is a sequence, though a process may be Blocked in it. */
    ghost predicate Valid()
      reads this, queues, queues.table, queues.heads, queues.nodes, scheduler, scheduler.procs, pages, pages.bitmap
    {
      && queues.Valid() && pages.Valid() && scheduler.Linked() && Loose(scheduler.Abs())
      && IS.Inv(Abs())
    }

    ghost function Abs(): IS.Ipc<Pcb>
      requires pages.Valid()
      reads this, queues, queues.table, scheduler, scheduler.procs, pages, pages.bitmap
    {
      IS.Ipc(scheduler.Abs(), queues.boxes, queues.Headers(), next, pages.Used(), held)
    }

    /** `ipc_init`. */
    constructor (s: Scheduler, p: Allocator)
      requires s.Valid() && p.Valid() && WellFormed(s.Abs())
      requires forall q :: q in s.Abs().pid ==> s.Abs().pid[q] < MAX_PROCESSES
      ensures Valid() && scheduler == s && pages == p && IS.Initial(Abs())
    {
      hide WellFormed, SchedulerSpec.Inv, Loose, UsedPages, IS.Inv;
      hide Scheduler.Abs, Scheduler.Linked;
      LS.InvIsLoose(s.Abs());
      scheduler, pages := s, p;
      queues := new QueueTable();
      next, held := 1, {};
      new;
      assert scheduler.Abs() == s.Abs();
      assert IS.Initial(Abs());
      IS.InitialKeepsInv(Abs());
    }

    // ----- ipc_send

    /** Pages as the caller sees them: page 0 is null. */
    method Alloc(count: nat) returns (page: Option<nat>)
      requires pages.Valid() && count <= PHYS_PAGES
      modifies pages, pages.bitmap
      ensures pages.Valid() && page == NonNull(Find(old(pages.Used()), PHYS_PAGES, count))
      ensures pages.Used() == Requested(old(pages.Used()), PHYS_PAGES, count)
    {
      hide Find, UsedPages, Pages;
      page := pages.Alloc(count);
      page := NonNull(page);
    }

    /** A header for the `r`-th queue, if there is a page for it. */
    method OpenQueue(r: nat) returns (page: Option<nat>)
      requires queues.Valid() && pages.Valid() && r < MAX_PROCESSES && queues.table[r] == null
      modifies `held, queues`heads, queues.table, pages, pages.bitmap
      ensures queues.Valid() && pages.Valid() && fresh(queues.heads - old(queues.heads))
      ensures page == NonNull(Find(old(pages.Used()), PHYS_PAGES, 1)) && (page.Some? ==> queues.table[r] != null)
      ensures Abs() ==
        if page.None? then old(Abs()).(used := Requested(old(pages.Used()), PHYS_PAGES, 1))
        else old(Abs()).(headers := old(queues.Headers())[r := page],
                         used := old(pages.Used()) + {page.value}, held := old(held) + {page.value})
    {
      hide Find, UsedPages, Pages, Scheduler.Abs;
      page := Alloc(1);
      if page.Some? {
        OnePage(page.value);
        held := held + {page.value};
        queues.Open(r, page.value);
      } else {
        assert queues.Headers() == old(queues.Headers());
      }
      assert scheduler.Abs() == old(scheduler.Abs());
    }

    /** `ipc_add_to_queue` when the queue exists. */
    method Append(r: nat, node: Node)
      requires queues.Valid() && pages.Valid() && r < MAX_PROCESSES && queues.table[r] != null
      requires node !in queues.nodes && node.msg.receiver == r
      modifies queues`boxes, queues`nodes, queues.heads, queues.nodes, node
      ensures queues.Valid() && pages.Valid()
      ensures Abs() == old(Abs()).(boxes := old(queues.boxes)[r := Deliver(old(queues.boxes)[r], node.msg)])
    {
      hide UsedPages, Deliver, Scheduler.Abs;
      queues.Add(r, node);
      assert queues.Headers() == old(queues.Headers());
    }

    /** `ipc_add_to_queue`. */
    method AddToQueue(r: nat, node: Node)
      requires queues.Valid() && pages.Valid() && IS.Shape(Abs())
      requires r < MAX_PROCESSES && node !in queues.nodes && node.msg.receiver == r
      modifies `held, queues`boxes, queues`nodes, queues`heads, queues.table, queues.heads, queues.nodes, node,
        pages, pages.bitmap
      ensures queues.Valid() && pages.Valid()
      ensures Abs() == IS.AddToQueue(old(Abs()), r, node.msg)
    {
      hide WellFormed, Find, UsedPages, Deliver, Mailbox.Lose, Pages, Scheduler.Abs;
      if queues.table[r] == null {
        var page := OpenQueue(r);
        if page.None? {
          queues.Lose(r, node.msg);
          assert pages.Used() == Requested(old(pages.Used()), PHYS_PAGES, 1);
          assert scheduler.Abs() == old(scheduler.Abs()) && queues.Headers() == old(queues.Headers());
          return;
        }
      }
      Append(r, node);
    }

    /** `ipc_wakeup_receiver`. */
    method WakeUpReceiver(pid: nat)
      requires scheduler.Linked() && Loose(scheduler.Abs())
      modifies scheduler, scheduler.procs
      ensures scheduler.Closed() && WellFormed(old(scheduler.Abs()))
      ensures scheduler.Linked() <==> !IS.WakeRelinks(old(scheduler.Abs()), pid)
      ensures scheduler.Linked() ==>
        Loose(scheduler.Abs()) && scheduler.Abs() == IS.WakeUp(old(scheduler.Abs()), pid)
    {
      hide Loose, WellFormed, FindProcess, SchedulerSpec.Unblock;
      hide Scheduler.Abs, Scheduler.Pointers, Scheduler.Linked, Scheduler.Closed;
      scheduler.LinkedIsClosed();
      var process := scheduler.Find(pid);
      if process != null {
        scheduler.StateOf(process);
        if process.state == Blocked {
          scheduler.Unblock(process);
        }
      }
    }

    /** The message in its page, numbered and queued. */
    method Post(r: nat, msg: IS.UserMsg, page: nat)
      requires queues.Valid() && pages.Valid() && IS.Shape(Abs())
      requires r < MAX_PROCESSES && scheduler.current != null
      modifies this, queues, queues.table, queues.heads, queues.nodes, pages, pages.bitmap
      ensures queues.Valid() && pages.Valid()
      ensures Abs() ==
        IS.AddToQueue(old(Abs()).(next := old(next) + 1, held := old(held) + {page}), r,
                      Msg(old(next), old(scheduler.current.pid), r, msg.kind, msg.flags, msg.data, page))
    {
      hide Scheduler.Abs, UsedPages, IS.AddToQueue, WellFormed;
      var node := new Node(Msg(next, scheduler.current.pid, r, msg.kind, msg.flags, msg.data, page));
      next := next + 1;
      held := held + {page};
      assert scheduler.Abs() == old(scheduler.Abs());
      AddToQueue(r, node);
    }

    lemma Parts()
      requires Valid()
      ensures queues.Valid() && pages.Valid() && scheduler.Linked() && Loose(scheduler.Abs())
    {
      hide IS.Inv, QueueTable.Valid, UsedPages, Scheduler.Abs, Scheduler.Linked, Loose;
    }

    lemma SchedulerOf()
      requires pages.Valid()
      ensures Abs().sched == scheduler.Abs()
    {
      hide IS.Inv, QueueTable.Valid, UsedPages, Scheduler.Abs, Scheduler.Linked, Loose;
    }

    /** What the invariant says about the current process and the receiver. */
    lemma Facts()
      requires Valid()
      ensures IS.Shape(Abs()) && WellFormed(scheduler.Abs())
      ensures scheduler.current == null ==> Abs().sched.current == None
      ensures scheduler.current != null ==>
        && Abs().sched.current == Some(scheduler.current)
        && scheduler.current in scheduler.procs && scheduler.current in Abs().sched.pid
        && scheduler.current.pid == Abs().sched.pid[scheduler.current] < MAX_PROCESSES
    {
      hide Loose, IsSequence, SequenceOf, UsedPages, LS.WellFormed;
      IS.InvHasShape(Abs());
      scheduler.CurrentState();
      if scheduler.current != null {
        scheduler.Fields(scheduler.current);
        IS.CurrentPidInBounds(Abs());
      }
    }

    /** The message allocated and queued, or nothing changed, but that page 0 is marked if it was found. */
    method Store(r: nat, msg: IS.UserMsg) returns (page: Option<nat>)
      requires Valid() && scheduler.current != null && r < MAX_PROCESSES && |msg.data| <= IS.MAX_DATA
      modifies this, queues, queues.table, queues.heads, queues.nodes, pages, pages.bitmap
      ensures queues.Valid() && pages.Valid() && IS.Shape(old(Abs())) && old(Abs()).sched.current.Some?
      ensures page == NonNull(Find(old(Abs()).used, PHYS_PAGES, 1))
      ensures Abs() ==
        if page.None? then old(Abs()).(used := Requested(old(Abs()).used, PHYS_PAGES, 1))
        else IS.Stored(old(Abs()), r, msg, page.value)
    {
      hide IS.Inv, IS.AddToQueue, Find, Pages, UsedPages, WellFormed, Scheduler.Abs, Scheduler.Linked;
      hide QueueTable.Valid, Loose;
      Facts();
      IS.MessageFitsOnePage(|msg.data|);
      page := Alloc(IS.MessagePages(|msg.data|));
      assert scheduler.Abs() == old(scheduler.Abs());
      if page.None? {
        assert queues.Headers() == old(queues.Headers());
        return;
      }
      OnePage(page.value);
      Post(r, msg, page.value);
    }

    /** Nothing but the scheduler changes when the receiver is woken. */
    method Wake(r: nat)
      requires queues.Valid() && pages.Valid() && scheduler.Linked() && Loose(scheduler.Abs())
      modifies scheduler, scheduler.procs
      ensures queues.Valid() && pages.Valid() && WellFormed(old(scheduler.Abs()))
      ensures scheduler.Linked() <==> !IS.WakeRelinks(old(scheduler.Abs()), r)
      ensures scheduler.Linked() ==>
        Loose(scheduler.Abs()) && scheduler.Abs() == IS.WakeUp(old(scheduler.Abs()), r)
      ensures Abs() == old(Abs()).(sched := scheduler.Abs())
    {
      hide IS.WakeUp, IS.WakeRelinks, UsedPages, WellFormed, Scheduler.Abs, Scheduler.Linked, Loose;
      WakeUpReceiver(r);
    }

    /** The state after a send from `w`. */
    ghost predicate Sent(w: IS.Ipc<Pcb>, r: nat, msg: Option<IS.UserMsg>, status: IS.Status)
      reads this, queues, queues.table, queues.heads, queues.nodes, scheduler, scheduler.procs, pages, pages.bitmap
    {
      && queues.Valid() && pages.Valid() && IS.Shape(w) && w.sched.current.Some?
      && status == IS.Send(w, r, msg).1 && SameButScheduler(Abs(), IS.Send(w, r, msg).0)
      && (scheduler.Linked() <==> !(status == IS.Success && IS.WakeRelinks(w.sched, r)))
      && (scheduler.Linked() ==> Loose(scheduler.Abs()) && scheduler.Abs() == IS.Send(w, r, msg).0.sched)
    }

    /** The part of `ipc_send` after its parameters are accepted. */
    method Transmit(r: nat, msg: IS.UserMsg) returns (status: IS.Status)
      requires Valid() && scheduler.current != null && r < MAX_PROCESSES && |msg.data| <= IS.MAX_DATA
      requires WellFormed(scheduler.Abs()) && FindProcess(scheduler.Abs(), r).Some?
      modifies this, queues, queues.table, queues.heads, queues.nodes, pages, pages.bitmap, scheduler, scheduler.procs
      ensures Sent(old(Abs()), r, Some(msg), status)
    {
      hide IS.Inv, IS.Stored, IS.WakeUp, IS.WakeRelinks, FindProcess, Find, UsedPages, WellFormed, Requested;
      hide Scheduler.Abs, Scheduler.Linked, QueueTable.Valid, Loose, IS.Send, IS.Shape, Abs, Valid;
      Parts();
      ghost var w := Abs();
      SchedulerOf();
      var page := Store(r, msg);
      IS.SendStores(w, r, msg);
      SchedulerOf();
      assert scheduler.Abs() == old(scheduler.Abs()) && scheduler.Linked();
      if page.None? {
        return IS.OutOfMemory;
      }
      Wake(r);
      return IS.Success;
    }

    /** In every case the messages and pages are those of the state machine. So is the scheduler, unless the
        receiver is Blocked in the ready list: then the list is no longer a sequence. */
    method Send(r: nat, msg: Option<IS.UserMsg>) returns (status: IS.Status)
      requires Valid() && scheduler.current != null
      modifies this, queues, queues.table, queues.heads, queues.nodes, pages, pages.bitmap, scheduler, scheduler.procs
      ensures pages.Valid() && IS.Shape(old(Abs())) && status == IS.Send(old(Abs()), r, msg).1
      ensures SameButScheduler(Abs(), IS.Send(old(Abs()), r, msg).0)
      ensures Valid() <==> !IS.SendRelinks(old(Abs()), r, msg)
      ensures Valid() ==> Abs() == IS.Send(old(Abs()), r, msg).0
    {
      hide IS.Inv, IS.AddToQueue, IS.WakeUp, IS.WakeRelinks, FindProcess, Find, UsedPages, WellFormed;
      hide Scheduler.Abs, Scheduler.Linked, Loose;
      Facts();
      IS.SendKeepsInv(Abs(), r, msg);
      if msg.None? {
        return IS.InvalidParam;
      }
      var receiver := scheduler.Find(r);
      if receiver == null {
        return IS.NotFound;
      }
      if |msg.value.data| > IS.MAX_DATA {
        return IS.InvalidParam;
      }
      IS.FoundPidInBounds(Abs(), r);
      status := Transmit(r, msg.value);
    }

    ghost predicate SameButScheduler(w: IS.Ipc<Pcb>, w': IS.Ipc<Pcb>) {
      w == w'.(sched := w.sched)
    }

    // ----- ipc_receive

    lemma QueuedPageInBounds(r: nat, k: nat)
      requires Valid() && r < MAX_PROCESSES && k < |queues.boxes[r].queue|
      ensures queues.boxes[r].queue[k].page < PHYS_PAGES
    {
      hide WellFormed, IS.Inv, Loose, Scheduler.Linked;
      IS.QueuedPageIsHeld(Abs(), r, k);
      IS.HeldIsUsed(Abs());
    }

    /** One page is all that a message takes. */
    method FreeMessage(page: nat)
      requires pages.Valid() && queues.Valid() && page < PHYS_PAGES
      modifies `held, pages, pages.bitmap
      ensures pages.Valid() && queues.Valid()
        && Abs() == old(Abs()).(used := old(pages.Used()) - {page}, held := old(held) - {page})
    {
      hide UsedPages, Pages, Scheduler.Abs;
      pages.Free(page, 1);
      OnePage(page);
      held := held - {page};
      assert scheduler.Abs() == old(scheduler.Abs()) && queues.Headers() == old(queues.Headers());
    }

    /** The receive of a message that is there, or of none. */
    method TakeMessage(r: nat, filter: nat) returns (msg: Option<Msg>)
      requires Valid() && r < MAX_PROCESSES
      modifies this, queues, queues.heads, queues.nodes, pages, pages.bitmap
      ensures queues.Valid() && pages.Valid()
      ensures var b := old(queues.boxes)[r]; var k := FirstMatch(b.queue, filter);
        if k == |b.queue| then msg == None && Abs() == old(Abs())
        else
          && msg == Some(b.queue[k])
          && Abs() == old(Abs()).(boxes := old(queues.boxes)[r := Mailbox.Receive(b, k)],
                                  used := old(pages.Used()) - {b.queue[k].page}, held := old(held) - {b.queue[k].page})
    {
      hide WellFormed, IS.Inv, Loose, Scheduler.Linked, UsedPages, Pages, Scheduler.Abs, FirstMatch, Mailbox.Receive;
      ghost var k := FirstMatch(queues.boxes[r].queue, filter);
      if k < |queues.boxes[r].queue| {
        QueuedPageInBounds(r, k);
      }
      var node := queues.Take(r, filter);
      assert scheduler.Abs() == old(scheduler.Abs()) && queues.Headers() == old(queues.Headers())
        && pages.Used() == old(pages.Used());
      if node == null {
        return None;
      }
      FreeMessage(node.msg.page);
      return Some(node.msg);
    }

    /** Returns the message copied to the caller. A receive that blocks keeps the scheduler's
        invariant exactly when the caller is not queued behind another process. */
    method Receive(filter: nat, block: bool) returns (status: IS.Status, msg: Option<Msg>)
      requires Valid()
      modifies this, queues, queues.heads, queues.nodes, pages, pages.bitmap, scheduler, scheduler.procs
      ensures Valid() && IS.Shape(old(Abs())) && (Abs(), status, msg) == IS.ReceiveMsg(old(Abs()), filter, block)
      ensures old(Inv(scheduler.Abs())) ==>
        (Inv(scheduler.Abs()) <==> (status == IS.Success && msg == None ==> Safe(old(scheduler.Abs()), BlockStep)))
    {
      hide IS.Inv, UsedPages, WellFormed, Inv, Loose, Safe, FirstMatch, Mailbox.Receive, Block;
      hide Scheduler.Abs, Scheduler.Pointers, Scheduler.Linked, Scheduler.Closed;
      scheduler.LinkedIsClosed();
      Facts();
      IS.ReceiveKeepsInv(Abs(), filter, block);
      if Inv(scheduler.Abs()) {
        BlockKeepsInvIffSafe(scheduler.Abs());
      }
      if scheduler.current == null {
        return IS.PermissionDenied, None;
      }
      msg := TakeMessage(scheduler.current.pid, filter);
      if msg == None {
        if block {
          scheduler.LinkedIsClosed();
          scheduler.BlockCurrent();
          return IS.Success, None;
        }
        return IS.NotFound, None;
      }
      return IS.Success, msg;
    }

    // ----- ipc_clear_queue

    method ClearQueue(r: nat) returns (status: IS.Status)
      requires Valid()
      modifies this, queues, queues.heads, pages, pages.bitmap
      ensures Valid() && IS.Shape(old(Abs())) && (Abs(), status) == IS.ClearQueue(old(Abs()), r)
    {
      hide IS.Inv, UsedPages, WellFormed, Scheduler.Abs, Scheduler.Linked, Loose, Mailbox.Clear, IS.QueuePages;
      hide QueueTable.Slot;
      Facts();
      IS.ClearKeepsInv(Abs(), r);
      if r >= MAX_PROCESSES {
        return IS.InvalidParam;
      }
      if queues.table[r] == null {
        return IS.Success;
      }
      Discard(r);
      return IS.Success;
    }

    /** What is left of `ipc_clear_queue` when there is a queue. */
    method Discard(r: nat)
      requires Valid() && r < MAX_PROCESSES && queues.table[r] != null
      modifies `held, queues`boxes, queues.heads, pages, pages.bitmap
      ensures queues.Valid() && pages.Valid()
      ensures var gone := IS.QueuePages(old(queues.boxes)[r].queue);
        Abs() == old(Abs()).(boxes := old(queues.boxes)[r := Mailbox.Clear(old(queues.boxes)[r])],
                             used := old(pages.Used()) - gone, held := old(held) - gone)
    {
      hide IS.Inv, UsedPages, WellFormed, Scheduler.Abs, Scheduler.Linked, Loose, Mailbox.Clear, IS.QueuePages;
      FreeQueue(r);
      queues.Empty(r);
      assert scheduler.Abs() == old(scheduler.Abs()) && queues.Headers() == old(queues.Headers());
    }

    /** The walk along the `r`-th queue, which frees its messages. */
    method FreeQueue(r: nat)
      requires Valid() && r < MAX_PROCESSES && queues.table[r] != null
      modifies `held, pages, pages.bitmap
      ensures pages.Valid() && queues.Valid()
      ensures Abs() == old(Abs()).(used := old(pages.Used()) - IS.QueuePages(old(queues.boxes)[r].queue),
                                   held := old(held) - IS.QueuePages(old(queues.boxes)[r].queue))
    {
      hide IS.Inv, UsedPages, WellFormed, Scheduler.Linked, Loose, Scheduler.Abs, IS.QueuePages;
      var q := queues.table[r];
      assert queues.Slot(r);
      var current := q.head;
      ghost var msgs := q.Msgs();
      ghost var i := 0;
      forall k: nat | k < |msgs| ensures msgs[k].page < PHYS_PAGES {
        QueuedPageInBounds(r, k);
      }
      assert msgs[..0] == [];
      IS.NoQueuePages();
      while current != null
        invariant pages.Valid() && queues.Valid() && 0 <= i <= |q.nodes|
        invariant current == if i == |q.nodes| then null else q.nodes[i]
        invariant Abs() == old(Abs()).(used := old(pages.Used()) - IS.QueuePages(msgs[..i]),
          held := old(held) - IS.QueuePages(msgs[..i]))
        decreases |q.nodes| - i
      {
        var next := current.next;
        assert msgs[i] == current.msg;
        FreeMessage(current.msg.page);
        IS.QueuePagesSnoc(msgs[..i], msgs[i]);
        assert msgs[..i] + [msgs[i]] == msgs[..i + 1];
        assert q.nodes[i].next == next;
        current := next;
        i := i + 1;
      }
      assert msgs[..i] == msgs;
    }
  }
}
