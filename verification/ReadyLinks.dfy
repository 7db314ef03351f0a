/** The intrusive doubly linked list of the ready queue, as the values of its pointers. */
module ReadyLinks {
  import opened Common
  import opened SchedulerSpec

  datatype Links<!P(==)> = Links(head: Option<P>, tail: Option<P>, next: map<P, Option<P>>, prev: map<P, Option<P>>)

  function Before<P>(q: seq<P>, i: nat): Option<P>
    requires i < |q|
  {
    if i == 0 then None else Some(q[i - 1])
  }

  function After<P>(q: seq<P>, i: nat): Option<P>
    requires i < |q|
  {
    if i == |q| - 1 then None else Some(q[i + 1])
  }

  /** The pointers are exactly the sequence `q`, and every link off the queue is null. */
  ghost predicate Represents<P>(l: Links<P>, q: seq<P>) {
    && NoDuplicates(q)
    && l.next.Keys == l.prev.Keys
    && (forall p :: p in q ==> p in l.next)
    && l.head == (if q == [] then None else Some(q[0]))
    && l.tail == (if q == [] then None else Some(q[|q| - 1]))
    && (forall i {:trigger l.prev[q[i]]} :: 0 <= i < |q| ==> l.prev[q[i]] == Before(q, i))
    && (forall i {:trigger l.next[q[i]]} :: 0 <= i < |q| ==> l.next[q[i]] == After(q, i))
    && (forall p :: p in l.next && p !in q ==> l.next[p] == None && l.prev[p] == None)
  }

  // ----- the two pointer operations

  function Append<P>(l: Links<P>, x: P): Links<P> {
    var cleared := l.(next := l.next[x := None], prev := l.prev[x := None]);
    if l.head.None? then cleared.(head := Some(x), tail := Some(x))
    else if l.tail.None? then cleared
    else Links(l.head, Some(x), cleared.next[l.tail.value := Some(x)], cleared.prev[x := l.tail])
  }

  function Delete<P>(l: Links<P>, x: P): Links<P>
    requires x in l.next && x in l.prev
  {
    if l.prev[x].None? && l.head != Some(x) then l
    else
      var l1 := if l.prev[x].Some? then l.(next := l.next[l.prev[x].value := l.next[x]]) else l.(head := l.next[x]);
      var l2 := if l1.next[x].Some? then l1.(prev := l1.prev[l1.next[x].value := l1.prev[x]])
                else if l1.tail == Some(x) then l1.(tail := l1.prev[x])
                else l1;
      l2.(next := l2.next[x := None], prev := l2.prev[x := None])
  }

  /** All pointers are to processes with links, and a list with a head has a tail. */
  ghost predicate Closed<P>(l: Links<P>) {
    && l.next.Keys == l.prev.Keys
    && (l.head.Some? ==> l.head.value in l.next && l.tail.Some?)
    && (l.tail.Some? ==> l.tail.value in l.next)
    && (forall p :: p in l.next && l.next[p].Some? ==> l.next[p].value in l.next)
    && (forall p :: p in l.prev && l.prev[p].Some? ==> l.prev[p].value in l.next)
  }

  lemma AppendKeepsClosed<P>(l: Links<P>, x: P)
    requires Closed(l) && x in l.next
    ensures Closed(Append(l, x)) && Append(l, x).next.Keys == l.next.Keys
  {
  }

  lemma DeleteKeepsClosed<P>(l: Links<P>, x: P)
    requires Closed(l) && x in l.next
    ensures Closed(Delete(l, x)) && Delete(l, x).next.Keys == l.next.Keys
  {
  }

  ghost predicate NotPointedTo<P>(l: Links<P>, p: P) {
    && p in l.next && p in l.prev
    && l.head != Some(p) && l.tail != Some(p)
    && (forall x :: x in l.next ==> l.next[x] != Some(p))
    && (forall x :: x in l.prev ==> l.prev[x] != Some(p))
  }

  lemma AppendOther<P>(l: Links<P>, p: P, x: P)
    requires NotPointedTo(l, p) && x != p
    ensures NotPointedTo(Append(l, x), p)
  {
  }

  lemma DeleteOther<P>(l: Links<P>, p: P, x: P)
    requires NotPointedTo(l, p) && x in l.next && x in l.prev
    ensures NotPointedTo(Delete(l, x), p)
  {
  }

  // ----- the sequence that pointers represent

  /** At most `n` processes along the next pointers. */
  function Follow<P>(l: Links<P>, from: Option<P>, n: nat): seq<P>
    decreases n
  {
    if n == 0 || from.None? || from.value !in l.next then []
    else [from.value] + Follow(l, l.next[from.value], n - 1)
  }

  function SequenceOf<P>(l: Links<P>): seq<P> {
    Follow(l, l.head, |l.next|)
  }

  ghost predicate IsSequence<P>(l: Links<P>) {
    Represents(l, SequenceOf(l))
  }

  lemma {:induction false} FollowsRest<P>(l: Links<P>, q: seq<P>, i: nat, n: nat)
    requires Represents(l, q) && i <= |q| <= i + n
    ensures Follow(l, if i == |q| then None else Some(q[i]), n) == q[i..]
    decreases n
  {
    if i < |q| {
      assert l.next[q[i]] == After(q, i);
      FollowsRest(l, q, i + 1, n - 1);
      assert q[i..] == [q[i]] + q[i + 1..];
    }
  }

  lemma {:induction false} FewerThan<P>(q: seq<P>, all: set<P>)
    requires NoDuplicates(q) && forall p :: p in q ==> p in all
    ensures |q| <= |all|
  {
    if q != [] {
      FewerThan(q[1..], all - {q[0]});
    }
  }

  /** There is at most one, and it is found by following the pointers. */
  lemma OneSequence<P>(l: Links<P>, q: seq<P>)
    requires Represents(l, q)
    ensures SequenceOf(l) == q && IsSequence(l)
  {
    FewerThan(q, l.next.Keys);
    assert |l.next| == |l.next.Keys|;
    FollowsRest(l, q, 0, |l.next|);
    assert q[0..] == q;
  }

  lemma NullLinks<P>(l: Links<P>)
    requires l.next.Keys == l.prev.Keys && l.head == l.tail == None
    requires forall p :: p in l.next ==> l.next[p] == None && l.prev[p] == None
    ensures Closed(l) && IsSequence(l) && SequenceOf(l) == []
  {
    OneSequence(l, []);
  }

  lemma OffTheList<P>(l: Links<P>, q: seq<P>, p: P)
    requires Represents(l, q) && p !in q && p in l.next
    ensures NotPointedTo(l, p)
  {
    forall x | x in l.next && x in q ensures l.next[x] != Some(p) && l.prev[x] != Some(p) {
      var i :| 0 <= i < |q| && q[i] == x;
      assert l.next[q[i]] == After(q, i) && l.prev[q[i]] == Before(q, i);
    }
  }

  /** Pointers of a sequence agree with each other. */
  lemma PointersAgree<P>(l: Links<P>, q: seq<P>, u: P, x: P)
    requires Represents(l, q) && u in l.next && x in l.next
    ensures l.head == Some(x) ==> l.prev[x] == None
    ensures l.tail == Some(x) ==> l.next[x] == None
    ensures l.next[u] == Some(x) ==> l.prev[x] == Some(u)
  {
    if l.head == Some(x) || l.tail == Some(x) {
      assert l.prev[q[0]] == Before(q, 0) && l.next[q[|q| - 1]] == After(q, |q| - 1);
    }
    if l.next[u] == Some(x) {
      var i :| 0 <= i < |q| && q[i] == u;
      assert l.next[q[i]] == After(q, i);
      assert l.prev[q[i + 1]] == Before(q, i + 1);
    }
  }

  /** Appending a process that is in the list leaves pointers that disagree: they are no sequence at
      all. */
  lemma AppendTwiceIsNoSequence<P>(l: Links<P>, q: seq<P>, x: P, r: seq<P>)
    requires Represents(l, q) && x in q
    ensures !Represents(Append(l, x), r)
  {
    var l' := Append(l, x);
    var k :| 0 <= k < |q| && q[k] == x;
    var last := q[|q| - 1];
    var u := if k == 0 then x else q[k - 1];
    assert k > 0 ==> l.next[q[k - 1]] == After(q, k - 1) && u != x && u != last;
    assert l'.tail == Some(x) && l'.prev[x] == Some(last);
    assert k == 0 ==> l'.head == Some(x);
    assert 0 < k < |q| - 1 ==> l'.next[u] == Some(x);
    assert k == |q| - 1 ==> l'.next[x] == Some(x);
    if Represents(l', r) {
      PointersAgree(l', r, u, x);
    }
  }

  lemma AppendRepresents<P>(l: Links<P>, q: seq<P>, x: P)
    requires Represents(l, q) && x in l.next && x !in q
    ensures Represents(Append(l, x), q + [x])
  {
    var l', q' := Append(l, x), q + [x];
    var last := |q| - 1;
    forall i | 0 <= i < |q'| ensures l'.prev[q'[i]] == Before(q', i) && l'.next[q'[i]] == After(q', i) {
      if i < |q| {
        assert q'[i] == q[i] && l.prev[q[i]] == Before(q, i) && l.next[q[i]] == After(q, i);
        assert i != last ==> q[i] != q[last];
      }
    }
  }

  /** `q'` is `q` without its element at `k`. */
  ghost predicate RemovedAt<P>(q: seq<P>, k: nat, q': seq<P>) {
    && k < |q| == |q'| + 1
    && (forall i :: 0 <= i < k ==> q'[i] == q[i])
    && (forall i :: k < i < |q| ==> q'[i - 1] == q[i])
  }

  /** The pointers after a removal at position `k`. */
  lemma DeletedPointers<P>(l: Links<P>, q: seq<P>, k: nat)
    requires Represents(l, q) && k < |q|
    ensures var l' := Delete(l, q[k]);
      && l'.head == (if k == 0 then After(q, 0) else l.head)
      && l'.tail == (if k == |q| - 1 then Before(q, k) else l.tail)
      && l'.next == (if k == 0 then l.next else l.next[q[k - 1] := After(q, k)])[q[k] := None]
      && l'.prev == (if k == |q| - 1 then l.prev else l.prev[q[k + 1] := Before(q, k)])[q[k] := None]
  {
    assert l.prev[q[k]] == Before(q, k) && l.next[q[k]] == After(q, k);
    assert k > 0 ==> q[k] != q[k - 1];
  }

  lemma DeletedLink<P>(l: Links<P>, q: seq<P>, k: nat, q': seq<P>, i: nat)
    requires Represents(l, q) && RemovedAt(q, k, q') && i < |q'|
    ensures q'[i] in l.next && q'[i] in l.prev
    ensures Delete(l, q[k]).prev[q'[i]] == Before(q', i)
    ensures Delete(l, q[k]).next[q'[i]] == After(q', i)
  {
    DeletedPointers(l, q, k);
    hide Delete;
    var j := if i < k then i else i + 1;
    assert q'[i] == q[j];
    assert l.prev[q[j]] == Before(q, j) && l.next[q[j]] == After(q, j);
    assert q[j] != q[k] && (k > 0 && j != k - 1 ==> q[j] != q[k - 1]);
    assert k < |q| - 1 && j != k + 1 ==> q[j] != q[k + 1];
  }

  lemma DeletedEnds<P>(l: Links<P>, q: seq<P>, k: nat, q': seq<P>)
    requires Represents(l, q) && RemovedAt(q, k, q')
    ensures var l' := Delete(l, q[k]);
      && l'.next.Keys == l'.prev.Keys == l.next.Keys
      && l'.head == (if q' == [] then None else Some(q'[0]))
      && l'.tail == (if q' == [] then None else Some(q'[|q'| - 1]))
      && (forall p :: p in l.next && (p == q[k] || p !in q) ==> l'.next[p] == None && l'.prev[p] == None)
  {
    DeletedPointers(l, q, k);
    hide Delete;
  }

  lemma DeletedMembers<P>(q: seq<P>, k: nat, q': seq<P>)
    requires NoDuplicates(q) && RemovedAt(q, k, q')
    ensures NoDuplicates(q')
    ensures forall p :: p in q' <==> p in q && p != q[k]
  {
    forall i | 0 <= i < |q'| ensures q'[i] in q && q'[i] != q[k] {
      assert q'[i] == q[if i < k then i else i + 1];
    }
    forall p | p in q && p != q[k] ensures p in q' {
      var j :| 0 <= j < |q| && q[j] == p;
      assert q'[if j < k then j else j - 1] == p;
    }
    forall i, i' | 0 <= i < i' < |q'| ensures q'[i] != q'[i'] {
      assert q'[i] == q[if i < k then i else i + 1] && q'[i'] == q[if i' < k then i' else i' + 1];
    }
  }

  lemma DeleteAt<P>(l: Links<P>, q: seq<P>, k: nat, q': seq<P>)
    requires Represents(l, q) && RemovedAt(q, k, q')
    ensures Represents(Delete(l, q[k]), q')
  {
    var l' := Delete(l, q[k]);
    DeletedEnds(l, q, k, q');
    DeletedMembers(q, k, q');
    hide Delete, Before, After, NoDuplicates;
    forall i | 0 <= i < |q'|
      ensures q'[i] in l'.next && l'.prev[q'[i]] == Before(q', i) && l'.next[q'[i]] == After(q', i)
    {
      DeletedLink(l, q, k, q', i);
    }
  }

  lemma DeleteRepresents<P>(l: Links<P>, q: seq<P>, x: P)
    requires Represents(l, q) && x in l.next
    ensures Represents(Delete(l, x), Without(q, x))
  {
    if x !in q {
      WithoutAbsent(q, x);
    } else {
      var k :| 0 <= k < |q| && q[k] == x;
      WithoutIsRemoval(q, x, k);
      DeleteAt(l, q, k, Without(q, x));
    }
  }
}
