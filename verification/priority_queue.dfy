/** A min-priority queue of entries, as a sequence in enqueue order. A dequeue
    takes an entry of minimal priority; among several with that priority it
    takes the earliest enqueued (see `MinIndexIsFirst`). */
module PriorityQueues {
  import opened Tasks

  type Queue = seq<Entry>

  /** `e` is in `q` and no entry of `q` has a lower priority value. */
  predicate IsMin(e: Entry, q: Queue) {
    e in q && forall x {:trigger x in q} | x in q :: e.priority <= x.priority
  }

  /** No two entries of the queue share a priority. */
  predicate NoTies(q: Queue) {
    forall i, j | 0 <= i < j < |q| :: q[i].priority != q[j].priority
  }

  /** Enqueues one entry. */
  function Put(q: Queue, e: Entry): (q': Queue)
    ensures multiset(q') == multiset(q) + multiset{e}
  {
    q + [e]
  }

  /** The position of an entry of minimal priority (see `MinIndexIsMin`). */
  function MinIndex(q: Queue): (i: nat)
    requires |q| > 0
    ensures i < |q|
  {
    if |q| == 1 then 0
    else
      var i := MinIndex(q[1..]);
      if q[0].priority <= q[1 + i].priority then 0 else 1 + i
  }

  /** No entry of the queue has a lower priority than the one at `MinIndex`. */
  lemma {:induction false} MinIndexIsMin(q: Queue)
    requires |q| > 0
    ensures forall j | 0 <= j < |q| :: q[MinIndex(q)].priority <= q[j].priority
    decreases |q|
  {
    if |q| > 1 {
      MinIndexIsMin(q[1..]);
      assert forall j | 1 <= j < |q| :: q[j] == q[1..][j - 1];
    }
  }

  /** The position `MinIndex` picks is the first one holding the minimal
      priority: every earlier entry has a strictly higher priority value. */
  lemma {:induction false} MinIndexIsFirst(q: Queue)
    requires |q| > 0
    ensures forall j | 0 <= j < MinIndex(q) :: q[MinIndex(q)].priority < q[j].priority
    decreases |q|
  {
    if |q| > 1 {
      MinIndexIsFirst(q[1..]);
      MinIndexIsMin(q[1..]);
      assert forall j | 1 <= j < |q| :: q[j] == q[1..][j - 1];
    }
  }

  /** Among entries of equal priority the queue is first in, first out: when
      `e` is minimal in `q`, putting `e'` of the same priority after it does not
      change what is dequeued next. */
  lemma PutTieKeepsEarlier(q: Queue, e': Entry)
    requires |q| > 0 && e'.priority == ExtractMin(q).entry.priority
    ensures ExtractMin(Put(q, e')).entry == ExtractMin(q).entry
  {
    MinIndexIsFirst(q);
    MinIndexIsMin(q);
    var q' := Put(q, e');
    MinIndexIsFirst(q');
    MinIndexIsMin(q');
    assert q'[..|q|] == q;
  }

  /** The result of a dequeue: the entry taken and the queue left behind. */
  datatype Extracted = Extracted(entry: Entry, rest: Queue)

  /** Dequeues an entry of minimal priority. Requires a non-empty queue, as the
      caller tests for emptiness first. */
  function ExtractMin(q: Queue): (x: Extracted)
    requires |q| > 0
    ensures IsMin(x.entry, q)
    ensures multiset(x.rest) + multiset{x.entry} == multiset(q)
    ensures |x.rest| == |q| - 1
  {
    var i := MinIndex(q);
    MinIndexIsMin(q);
    assert q == q[..i] + [q[i]] + q[i + 1..];
    Extracted(q[i], q[..i] + q[i + 1..])
  }

  /** Everything left behind was in the queue before. */
  lemma RestIsSubQueue(q: Queue)
    requires |q| > 0
    ensures forall x | x in ExtractMin(q).rest :: x in q
  {
    var x := ExtractMin(q);
    forall y | y in x.rest
      ensures y in q
    {
      assert y in multiset(x.rest);
      assert y in multiset(q);
    }
  }

  /** Without ties the dequeued entry is the only one carrying the minimal
      priority. */
  lemma ExtractMinUnique(q: Queue)
    requires |q| > 0
    requires NoTies(q)
    ensures forall x | x in q && x.priority == ExtractMin(q).entry.priority :: x == ExtractMin(q).entry
  {
    var e := ExtractMin(q).entry;
    var i := MinIndex(q);
    forall x | x in q && x.priority == e.priority
      ensures x == e
    {
      var j :| 0 <= j < |q| && q[j] == x;
      assert j == i;
    }
  }

  /** Without ties, what is dequeued depends only on the queue's contents and
      not on the order in which they are stored. */
  lemma ExtractMinOrderIndependent(q1: Queue, q2: Queue)
    requires |q1| > 0
    requires multiset(q1) == multiset(q2)
    requires NoTies(q1)
    ensures |q2| > 0
    ensures ExtractMin(q1).entry == ExtractMin(q2).entry
    ensures multiset(ExtractMin(q1).rest) == multiset(ExtractMin(q2).rest)
  {
    assert q1[0] in multiset(q2);
    var x1, x2 := ExtractMin(q1), ExtractMin(q2);
    assert x1.entry in multiset(q2);
    assert x2.entry in multiset(q1);
    assert x1.entry in q2 && x2.entry in q1;
    assert x1.entry.priority == x2.entry.priority;
    ExtractMinUnique(q1);
    MultisetCancel(multiset(x1.rest), multiset(x2.rest), multiset{x1.entry});
  }

  /** Two dequeues in a row come out in priority order. */
  lemma ExtractMinMonotone(q: Queue)
    requires |q| >= 2
    ensures ExtractMin(q).entry.priority <= ExtractMin(ExtractMin(q).rest).entry.priority
  {
    var x := ExtractMin(q);
    RestIsSubQueue(q);
    assert ExtractMin(x.rest).entry in x.rest;
  }

  /** An entry enqueued with a priority strictly below everything already
      queued is the next one dequeued. */
  lemma PutStrictMinIsNext(q: Queue, e: Entry)
    requires forall x | x in q :: e.priority < x.priority
    ensures ExtractMin(Put(q, e)).entry == e
    ensures multiset(ExtractMin(Put(q, e)).rest) == multiset(q)
  {
    var x := ExtractMin(Put(q, e));
    assert e in Put(q, e);
    assert x.entry in multiset(q) + multiset{e};
  }

  /** Adding the same multiset to both sides can be undone. */
  lemma MultisetCancel<T>(a: multiset<T>, b: multiset<T>, c: multiset<T>)
    requires a + c == b + c
    ensures a == b
  {
    forall y
      ensures a[y] == b[y]
    {
      assert (a + c)[y] == (b + c)[y];
    }
  }
}
