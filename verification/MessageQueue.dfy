/** The singly linked message queue with head, tail and count, proved against a bounded sequence. */
module MessageQueue {
  import opened Common
  import opened Mailbox

  /** A kernel message on the heap. */
  class Node {
    const msg: Msg
    var next: Node?

    constructor (m: Msg)
      ensures msg == m && next == null
    {
      msg, next := m, null;
    }
  }

  class Queue {
    const page: nat  // where the header lives
    ghost const owner: nat  // the receiver
    var head: Node?
    var tail: Node?
    var count: nat

    ghost var nodes: seq<Node>  // from head to tail

    ghost predicate Valid()
      reads this, nodes
    {
      && NoDuplicates(nodes)
      && count == |nodes|
      && head == (if nodes == [] then null else nodes[0])
      && tail == (if nodes == [] then null else nodes[|nodes| - 1])
      && (forall i {:trigger nodes[i].next} :: 0 <= i < |nodes| ==>
        nodes[i].next == if i == |nodes| - 1 then null else nodes[i + 1])
    }

    /** The messages, oldest first. */
    ghost function Msgs(): seq<Msg>
      reads this
    {
      seq(|nodes|, i requires 0 <= i < |nodes| reads this => nodes[i].msg)
    }

    constructor (p: nat, ghost receiver: nat)
      ensures Valid() && Msgs() == [] && nodes == [] && page == p && owner == receiver
    {
      page, head, tail, count, nodes, owner := p, null, null, 0, [], receiver;
    }

    /** `ipc_remove_from_queue`. */
    method RemoveFirst() returns (node: Node?)
      requires Valid()
      modifies this, nodes
      ensures Valid()
      ensures node == null <==> old(nodes) == []
      ensures old(nodes) == [] ==> nodes == []
      ensures old(nodes) != [] ==> node == old(nodes)[0] && nodes == old(nodes)[1..] && node.next == null
    {
      if head == null {
        return null;
      }
      node := head;
      head := node.next;
      if head == null {
        tail := null;
      }
      count := count - 1;
      node.next := null;
      nodes := nodes[1..];
    }

    /** The store at the end of `ipc_add_to_queue`. */
    method Append(node: Node)
      requires Valid() && node !in nodes
      modifies this, nodes, node
      ensures Valid() && nodes == old(nodes) + [node]
    {
      node.next := null;
      if head == null {
        head := node;
        tail := node;
      } else {
        tail.next := node;
        tail := node;
      }
      count := count + 1;
      nodes := nodes + [node];
    }

    /** `ipc_add_to_queue`, once the queue exists: the oldest message of a full queue goes first. */
    method Add(node: Node)
      requires Valid() && node !in nodes
      modifies this, nodes, node
      ensures Valid() && Msgs() == Push(old(Msgs()), node.msg)
      ensures forall n :: n in nodes ==> n in old(nodes) || n == node
    {
      if count >= MAX_MESSAGES {
        var oldest := RemoveFirst();
      }
      Append(node);
    }

    /** `ipc_find_in_queue`: unlinks the first message that the filter accepts. */
    method Take(sender: nat) returns (node: Node?)
      requires Valid()
      modifies this, nodes
      ensures Valid()
      ensures var k := FirstMatch(old(Msgs()), sender);
        if k == |old(Msgs())| then node == null && Msgs() == old(Msgs()) && nodes == old(nodes)
        else node != null && node.msg == old(Msgs())[k] && Msgs() == RemoveAt(old(Msgs()), k)
             && (forall n :: n in nodes ==> n in old(nodes))
    {
      ghost var k := FirstMatch(Msgs(), sender);
      var prev: Node? := null;
      node := head;
      ghost var i := 0;
      while node != null
        invariant 0 <= i <= k && i <= |nodes|
        invariant node == if i == |nodes| then null else nodes[i]
        invariant prev == if i == 0 then null else nodes[i - 1]
        decreases |nodes| - i
      {
        if sender == 0 || node.msg.sender == sender {
          assert i == k by { assert Matches(Msgs()[i], sender); }
          Unlink(prev, node, i);
          return;
        }
        assert !Matches(Msgs()[i], sender);
        prev := node;
        assert nodes[i].next == node.next;
        node := node.next;
        i := i + 1;
      }
    }

    /** The unlinking branch of the walk. */
    method Unlink(prev: Node?, node: Node, ghost k: nat)
      requires Valid() && k < |nodes| && node == nodes[k]
      requires prev == if k == 0 then null else nodes[k - 1]
      modifies this, nodes
      ensures Valid() && nodes == old(nodes)[..k] + old(nodes)[k + 1..]
    {
      assert nodes[k].next == if k == |nodes| - 1 then null else nodes[k + 1];
      if prev != null {
        prev.next := node.next;
      } else {
        head := node.next;
      }
      if node == tail {
        tail := prev;
      }
      count := count - 1;
      node.next := null;
      nodes := nodes[..k] + nodes[k + 1..];
    }

    /** The end of `ipc_clear_queue`. */
    method Empty()
      requires Valid()
      modifies this
      ensures Valid() && Msgs() == [] && nodes == []
    {
      head, tail, count, nodes := null, null, 0, [];
    }
  }
}
