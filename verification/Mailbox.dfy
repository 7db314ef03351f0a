/** One receiver's message queue with its history: every message is accounted for exactly once, and
    each sender's messages come out in the order they went in. */
module Mailbox {
  import opened Common

  const MAX_MESSAGES: nat := 100

  /** A kernel message. `serial` counts all messages ever sent, so `msg_id` is its low 32 bits; `page`
      is the page the message was allocated in. */
  datatype Msg = Msg(serial: nat, sender: nat, receiver: nat, kind: nat, flags: nat, data: seq<nat>, page: nat)

  function Id(m: Msg): nat {
    Wrap(m.serial)
  }

  /** The queue, and what became of every message sent to it: received, dropped because the queue was
      full, cleared, or lost for want of a queue header. */
  datatype Box = Box(
    queue: seq<Msg>,
    sent: seq<Msg>,
    received: seq<Msg>,
    dropped: seq<Msg>,
    cleared: seq<Msg>,
    lost: seq<Msg>)

  const EMPTY := Box([], [], [], [], [], [])

  // ----- the operations on the queue

  /** Add at the end, after dropping the oldest message of a full queue. */
  function Push(q: seq<Msg>, m: Msg): seq<Msg> {
    (if |q| >= MAX_MESSAGES then q[1..] else q) + [m]
  }

  predicate Matches(m: Msg, sender: nat) {
    sender == 0 || m.sender == sender
  }

  /** The position of the first message that the filter accepts, or the length of the queue. */
  function FirstMatch(q: seq<Msg>, sender: nat): (k: nat)
    ensures k <= |q|
    ensures k < |q| ==> Matches(q[k], sender)
    ensures forall i :: 0 <= i < k ==> !Matches(q[i], sender)
  {
    if q == [] then 0 else if Matches(q[0], sender) then 0 else 1 + FirstMatch(q[1..], sender)
  }

  function RemoveAt(q: seq<Msg>, k: nat): seq<Msg>
    requires k < |q|
  {
    q[..k] + q[k + 1..]
  }

  function Deliver(b: Box, m: Msg): Box {
    b.(queue := Push(b.queue, m), sent := b.sent + [m],
       dropped := if |b.queue| >= MAX_MESSAGES then b.dropped + [b.queue[0]] else b.dropped)
  }

  function Lose(b: Box, m: Msg): Box {
    b.(sent := b.sent + [m], lost := b.lost + [m])
  }

  function Receive(b: Box, k: nat): Box
    requires k < |b.queue|
  {
    b.(queue := RemoveAt(b.queue, k), received := b.received + [b.queue[k]])
  }

  function Clear(b: Box): Box {
    b.(queue := [], cleared := b.cleared + b.queue)
  }

  // ----- what they keep

  ghost predicate Ascending(s: seq<Msg>) {
    forall i, j :: 0 <= i < j < |s| ==> s[i].serial < s[j].serial
  }

  /** Nothing received from a sender was sent after something of his that is still queued. */
  ghost predicate InOrder(received: seq<Msg>, queue: seq<Msg>) {
    && (forall i, j :: 0 <= i < j < |received| && received[i].sender == received[j].sender ==>
          received[i].serial < received[j].serial)
    && (forall i, j :: 0 <= i < |received| && 0 <= j < |queue| && received[i].sender == queue[j].sender ==>
          received[i].serial < queue[j].serial)
  }

  /** Where every message sent is now. */
  ghost function Places(b: Box): multiset<Msg> {
    multiset(b.queue) + multiset(b.received) + multiset(b.dropped) + multiset(b.cleared) + multiset(b.lost)
  }

  ghost predicate Accounted(b: Box, next: nat) {
    && multiset(b.sent) == Places(b)
    && Ascending(b.sent) && (forall i :: 0 <= i < |b.sent| ==> b.sent[i].serial < next)
    && Ascending(b.queue) && |b.queue| <= MAX_MESSAGES
    && InOrder(b.received, b.queue)
  }

  lemma MemberOfSent(b: Box, next: nat, m: Msg)
    requires Accounted(b, next) && m in Places(b)
    ensures m in b.sent && m.serial < next
  {
    assert m in multiset(b.sent);
  }

  lemma QueuedBefore(b: Box, next: nat)
    requires Accounted(b, next)
    ensures forall i :: 0 <= i < |b.queue| ==> b.queue[i].serial < next
    ensures forall i :: 0 <= i < |b.received| ==> b.received[i].serial < next
  {
    hide Ascending, InOrder;
    forall i | 0 <= i < |b.queue| ensures b.queue[i].serial < next {
      assert b.queue[i] in multiset(b.queue);
      MemberOfSent(b, next, b.queue[i]);
    }
    forall i | 0 <= i < |b.received| ensures b.received[i].serial < next {
      assert b.received[i] in multiset(b.received);
      MemberOfSent(b, next, b.received[i]);
    }
  }

  lemma SnocMultiset<T>(s: seq<T>, x: T)
    ensures multiset(s + [x]) == multiset(s) + multiset{x}
  {
  }

  lemma HeadMultiset<T>(s: seq<T>)
    requires s != []
    ensures multiset(s) == multiset{s[0]} + multiset(s[1..])
  {
    assert s == [s[0]] + s[1..];
  }

  lemma PushMultiset(q: seq<Msg>, m: Msg)
    ensures multiset(Push(q, m)) + (if |q| >= MAX_MESSAGES then multiset{q[0]} else multiset{}) ==
      multiset(q) + multiset{m}
  {
    if |q| >= MAX_MESSAGES {
      HeadMultiset(q);
      SnocMultiset(q[1..], m);
    } else {
      SnocMultiset(q, m);
    }
  }

  /** Adding `m` to the first place and moving `x` from there to the third. */
  lemma MoveBetween(q': multiset<Msg>, q: multiset<Msg>, x: multiset<Msg>, m: multiset<Msg>, r: multiset<Msg>,
    d: multiset<Msg>, rest: multiset<Msg>)
    requires q' + x == q + m
    ensures q' + r + (d + x) + rest == q + r + d + rest + m
  {
    assert q' + r + (d + x) + rest == (q' + x) + r + d + rest;
  }

  lemma DeliverKeepsPlaces(b: Box, m: Msg)
    requires multiset(b.sent) == Places(b)
    ensures multiset(Deliver(b, m).sent) == Places(Deliver(b, m))
  {
    hide Push;
    PushMultiset(b.queue, m);
    SnocMultiset(b.sent, m);
    var b' := Deliver(b, m);
    var x := if |b.queue| >= MAX_MESSAGES then multiset{b.queue[0]} else multiset{};
    assert multiset(b'.dropped) == multiset(b.dropped) + x;
    MoveBetween(multiset(b'.queue), multiset(b.queue), x, multiset{m}, multiset(b.received), multiset(b.dropped),
      multiset(b.cleared));
    assert Places(b') == Places(b) + multiset{m};
  }

  lemma PushKeepsOrder(received: seq<Msg>, q: seq<Msg>, m: Msg)
    requires Ascending(q) && InOrder(received, q) && |q| <= MAX_MESSAGES
    requires forall i :: 0 <= i < |q| ==> q[i].serial < m.serial
    requires forall i :: 0 <= i < |received| ==> received[i].serial < m.serial
    ensures Ascending(Push(q, m)) && InOrder(received, Push(q, m)) && |Push(q, m)| <= MAX_MESSAGES
  {
  }

  /** A new message is queued once and in order; at most one old message is dropped for it. */
  lemma DeliverKeepsAccount(b: Box, m: Msg, next: nat)
    requires Accounted(b, next) && m.serial == next
    ensures Accounted(Deliver(b, m), next + 1)
  {
    hide Places, InOrder, Push;
    QueuedBefore(b, next);
    DeliverKeepsPlaces(b, m);
    PushKeepsOrder(b.received, b.queue, m);
  }

  lemma LoseKeepsAccount(b: Box, m: Msg, next: nat)
    requires Accounted(b, next) && m.serial == next
    ensures Accounted(Lose(b, m), next + 1)
  {
    SnocMultiset(b.sent, m);
    SnocMultiset(b.lost, m);
  }

  lemma RemoveAtMultiset(q: seq<Msg>, k: nat)
    requires k < |q|
    ensures multiset(q) == multiset(RemoveAt(q, k)) + multiset{q[k]}
  {
    assert q == q[..k] + [q[k]] + q[k + 1..];
  }

  /** A filtered receive takes the oldest message of its sender. */
  lemma FirstMatchIsOldest(q: seq<Msg>, filter: nat, j: nat)
    requires FirstMatch(q, filter) < |q| && j < FirstMatch(q, filter)
    ensures q[j].sender != q[FirstMatch(q, filter)].sender
  {
  }

  lemma ReceiveKeepsPlaces(b: Box, k: nat)
    requires multiset(b.sent) == Places(b) && k < |b.queue|
    ensures multiset(Receive(b, k).sent) == Places(Receive(b, k))
  {
    hide RemoveAt;
    RemoveAtMultiset(b.queue, k);
    SnocMultiset(b.received, b.queue[k]);
  }

  lemma ReceiveKeepsAccount(b: Box, filter: nat, next: nat)
    requires Accounted(b, next) && FirstMatch(b.queue, filter) < |b.queue|
    ensures Accounted(Receive(b, FirstMatch(b.queue, filter)), next)
  {
    hide Places, InOrder, Ascending;
    var k := FirstMatch(b.queue, filter);
    ReceiveKeepsPlaces(b, k);
    ReceiveKeepsOrder(b.received, b.queue, k, RemoveAt(b.queue, k));
  }

  lemma ReceiveKeepsOrder(received: seq<Msg>, q: seq<Msg>, k: nat, q': seq<Msg>)
    requires Ascending(q) && InOrder(received, q) && k < |q| == |q'| + 1
    requires forall j :: 0 <= j < k ==> q[j].sender != q[k].sender
    requires forall i :: 0 <= i < |q'| ==> q'[i] == q[if i < k then i else i + 1]
    ensures InOrder(received + [q[k]], q') && Ascending(q')
  {
  }

  lemma ClearKeepsAccount(b: Box, next: nat)
    requires Accounted(b, next)
    ensures Accounted(Clear(b), next)
  {
    assert multiset(b.cleared + b.queue) == multiset(b.cleared) + multiset(b.queue);
  }

  // ----- what a receiver gets from a sender

  function From(s: seq<Msg>, sender: nat): seq<Msg> {
    if s == [] then [] else (if s[0].sender == sender then [s[0]] else []) + From(s[1..], sender)
  }

  /** `a` is found in `b`, in order and without repetition. */
  ghost predicate Subsequence(a: seq<Msg>, b: seq<Msg>) {
    exists at: seq<nat> :: Embeds(a, b, at)
  }

  ghost predicate Embeds(a: seq<Msg>, b: seq<Msg>, at: seq<nat>) {
    && |at| == |a|
    && (forall i :: 0 <= i < |at| ==> at[i] < |b| && b[at[i]] == a[i])
    && (forall i, j :: 0 <= i < j < |at| ==> at[i] < at[j])
  }

  lemma FromMembers(s: seq<Msg>, sender: nat)
    ensures forall m :: m in From(s, sender) <==> m in s && m.sender == sender
  {
    if s != [] {
      assert s == [s[0]] + s[1..];
      FromMembers(s[1..], sender);
    }
  }

  lemma FromAscending(s: seq<Msg>, sender: nat)
    requires forall i, j :: 0 <= i < j < |s| && s[i].sender == s[j].sender ==> s[i].serial < s[j].serial
    ensures Ascending(From(s, sender))
  {
    if s != [] {
      FromAscending(s[1..], sender);
      FromMembers(s[1..], sender);
      var rest := From(s[1..], sender);
      forall j | 0 <= j < |rest| && s[0].sender == sender ensures s[0].serial < rest[j].serial {
        assert rest[j] in s[1..];
        var i :| 0 <= i < |s[1..]| && s[1..][i] == rest[j];
        assert s[i + 1] == rest[j];
      }
    }
  }

  lemma AscendingMembersEmbed(a: seq<Msg>, b: seq<Msg>) returns (at: seq<nat>)
    requires Ascending(a) && Ascending(b) && forall i :: 0 <= i < |a| ==> a[i] in b
    ensures Embeds(a, b, at)
  {
    if a == [] {
      at := [];
    } else {
      var n := |a| - 1;
      at := AscendingMembersEmbed(a[..n], b);
      var k :| 0 <= k < |b| && b[k] == a[n];
      forall i | 0 <= i < n ensures at[i] < k {
        assert b[at[i]] == a[..n][i] == a[i];
        assert a[i].serial < a[n].serial;
      }
      at := at + [k];
    }
  }

  /** What a receiver has got from a sender is a subsequence of what that sender sent it, whatever
      filters were used. */
  lemma PerSenderFifo(b: Box, next: nat, sender: nat)
    requires Accounted(b, next)
    ensures Subsequence(From(b.received, sender), From(b.sent, sender))
  {
    FromAscending(b.received, sender);
    FromAscending(b.sent, sender);
    FromMembers(b.received, sender);
    FromMembers(b.sent, sender);
    forall i | 0 <= i < |From(b.received, sender)| ensures From(b.received, sender)[i] in From(b.sent, sender) {
      var m := From(b.received, sender)[i];
      assert m in b.received && m in multiset(b.received);
      MemberOfSent(b, next, m);
    }
    var at := AscendingMembersEmbed(From(b.received, sender), From(b.sent, sender));
  }

  /** Every message sent is in exactly one place, once. */
  lemma ExactlyOnce(b: Box, next: nat, m: Msg)
    requires Accounted(b, next) && m in b.sent
    ensures multiset(b.queue)[m] + multiset(b.received)[m] + multiset(b.dropped)[m] + multiset(b.cleared)[m]
      + multiset(b.lost)[m] == 1
  {
    assert multiset(b.sent)[m] == 1 by {
      var k :| 0 <= k < |b.sent| && b.sent[k] == m;
      assert b.sent == b.sent[..k] + [m] + b.sent[k + 1..];
      assert m !in b.sent[..k] && m !in b.sent[k + 1..];
    }
    assert Places(b)[m] == 1;
  }

  /** For fewer than 2^32 messages sent, identifiers too grow strictly along the queue. */
  lemma IdsAscend(b: Box, next: nat, i: nat, j: nat)
    requires Accounted(b, next) && next <= WORD_VALUES && i < j < |b.queue|
    ensures Id(b.queue[i]) < Id(b.queue[j])
  {
    QueuedBefore(b, next);
  }
}
