/** The table of message queues, one per process identifier, with what became of every message. */
module QueueTable {
  import opened Common
  import opened Mailbox
  import opened MessageQueue

  class QueueTable {
    const table: array<Queue?>  // message_queues

    ghost var boxes: seq<Box>     // the queues with their history
    ghost var heads: set<Queue>   // every queue made
    ghost var nodes: set<Node>    // every message queued so far

    /** The `r`-th queue is linked, holds messages for `r` only, and those are the ones in the `r`-th
        mailbox. */
    ghost predicate Slot(r: nat)
      requires r < table.Length && r < |boxes|
      reads this, table, heads, nodes
    {
      if table[r] == null then boxes[r].queue == []
      else
        && table[r] in heads && table[r].owner == r
        && (forall n :: n in table[r].nodes ==> n in nodes && n.msg.receiver == r)
        && table[r].Valid() && table[r].Msgs() == boxes[r].queue
    }

    ghost predicate Valid()
      reads this, table, heads, nodes
    {
      && table.Length == |boxes| == MAX_PROCESSES
      && (forall r: nat :: r < MAX_PROCESSES ==> Slot(r))
    }

    /** The pages of the queue headers. */
    ghost function Headers(): seq<Option<nat>>
      reads this, table
    {
      seq(table.Length, i requires 0 <= i < table.Length reads table =>
        if table[i] == null then None else Some(table[i].page))
    }

    constructor ()
      ensures Valid() && fresh(table) && heads == {} && nodes == {}
      ensures boxes == seq(MAX_PROCESSES, _ => EMPTY) && Headers() == seq(MAX_PROCESSES, _ => None)
    {
      table := new Queue?[MAX_PROCESSES](_ => null);
      boxes := seq(MAX_PROCESSES, _ => EMPTY);
      heads, nodes := {}, {};
    }

    /** A new queue for `r`, whose header is in `page`. */
    method Open(r: nat, page: nat)
      requires Valid() && r < MAX_PROCESSES && table[r] == null
      modifies this`heads, table
      ensures Valid() && Headers() == old(Headers())[r := Some(page)] && table[r] != null
      ensures fresh(heads - old(heads))
    {
      assert Slot(r);
      var q := new Queue(page, r);
      heads := heads + {q};
      table[r] := q;
      assert Headers() == old(Headers())[r := Some(page)];
      forall s: nat | s < MAX_PROCESSES ensures Slot(s) {
        assert old(Slot(s));
      }
    }

    /** A message that found no queue. */
    ghost method Lose(r: nat, m: Msg)
      requires Valid() && r < MAX_PROCESSES
      modifies this`boxes
      ensures Valid() && boxes == old(boxes)[r := Mailbox.Lose(old(boxes)[r], m)]
    {
      boxes := boxes[r := Mailbox.Lose(boxes[r], m)];
      forall s: nat | s < MAX_PROCESSES ensures Slot(s) {
        assert old(Slot(s));
      }
    }

    /** The message at the end of the `r`-th queue, which exists. */
    method Add(r: nat, node: Node)
      requires Valid() && r < MAX_PROCESSES && table[r] != null && node !in nodes && node.msg.receiver == r
      modifies this`boxes, this`nodes, heads, nodes, node
      ensures Valid() && boxes == old(boxes)[r := Deliver(old(boxes)[r], node.msg)]
      ensures nodes == old(nodes) + {node}
    {
      var q := table[r];
      assert Slot(r);
      q.Add(node);
      assert forall n :: n in old(nodes) && n.msg.receiver != r ==> n.next == old(n.next);
      nodes := nodes + {node};
      boxes := boxes[r := Deliver(boxes[r], node.msg)];
      forall s: nat | s < MAX_PROCESSES ensures Slot(s) {
        assert old(Slot(s));
        if s != r && table[s] != null {
          assert table[s] != q;
          ghost var ns := table[s].nodes;
          assert forall i :: 0 <= i < |ns| ==> ns[i] in old(nodes) && ns[i].msg.receiver != r;
          assert table[s].Valid();
        }
      }
    }

    /** `ipc_find_in_queue`: the first message for `r` that the filter accepts. */
    method Take(r: nat, sender: nat) returns (node: Node?)
      requires Valid() && r < MAX_PROCESSES
      modifies this`boxes, heads, nodes
      ensures Valid()
      ensures var b := old(boxes)[r]; var k := FirstMatch(b.queue, sender);
        if k == |b.queue| then node == null && boxes == old(boxes)
        else node != null && node.msg == b.queue[k] && boxes == old(boxes)[r := Receive(b, k)]
    {
      var q := table[r];
      assert Slot(r);
      if q == null {
        return null;
      }
      node := q.Take(sender);
      if node != null {
        ghost var k := FirstMatch(boxes[r].queue, sender);
        boxes := boxes[r := Receive(boxes[r], k)];
      }
      forall s: nat | s < MAX_PROCESSES ensures Slot(s) {
        assert old(Slot(s));
        if s != r && table[s] != null {
          assert table[s] != q;
          ghost var ns := table[s].nodes;
          assert forall i :: 0 <= i < |ns| ==> ns[i] in old(nodes) && ns[i].msg.receiver != r;
          assert table[s].Valid();
        }
      }
    }

    /** The end of `ipc_clear_queue`: the `r`-th queue, which exists, forgets its messages. */
    method Empty(r: nat)
      requires Valid() && r < MAX_PROCESSES && table[r] != null
      modifies this`boxes, heads
      ensures Valid() && boxes == old(boxes)[r := Mailbox.Clear(old(boxes)[r])]
    {
      var q := table[r];
      assert Slot(r);
      q.Empty();
      boxes := boxes[r := Mailbox.Clear(boxes[r])];
      forall s: nat | s < MAX_PROCESSES ensures Slot(s) {
        assert old(Slot(s));
        if s != r && table[s] != null {
          assert table[s] != q;
        }
      }
    }
  }
}
