/** Conservation of work: the entries waiting in queues together with the
    entries held by resources form a pool that an allocation pass only moves
    around, that enqueueing grows by one entry and that completion shrinks by
    the completed entry. */
module Conservation {
  import opened Wrappers
  import opened Tasks
  import opened Resources
  import opened PriorityQueues
  import opened Scheduling

  /** The entry a resource holds, as a multiset of zero or one element. */
  function Held(r: Resource): multiset<Entry> {
    if r.slot.Some? then multiset{r.slot.value} else multiset{}
  }

  function HeldAll(rs: seq<Resource>): multiset<Entry> {
    if rs == [] then multiset{} else Held(rs[0]) + HeldAll(rs[1..])
  }

  function QueuedAll(qs: seq<Queue>): multiset<Entry> {
    if qs == [] then multiset{} else multiset(qs[0]) + QueuedAll(qs[1..])
  }

  /** Every entry the scheduler knows about, waiting or running. */
  function Pool(s: Scheduler): multiset<Entry> {
    QueuedAll(s.queues) + HeldAll(s.resources)
  }

  /** Every resource is busy exactly when it holds an entry. */
  predicate AllConsistent(rs: seq<Resource>) {
    forall k | 0 <= k < |rs| :: Consistent(rs[k])
  }

  /** An equation between two sums survives adding the same multiset in front. */
  lemma AddOnLeft<T>(h: multiset<T>, a: multiset<T>, x: multiset<T>, b: multiset<T>, y: multiset<T>)
    requires a + x == b + y
    ensures h + a + x == h + b + y
  {
    forall z
      ensures (h + a + x)[z] == (h + b + y)[z]
    {
      assert (a + x)[z] == (b + y)[z];
    }
  }

  /** Replacing one resource changes the held pool by exactly the difference
      between the old and the new resource's entry. */
  lemma {:induction false} HeldAllUpdate(rs: seq<Resource>, k: nat, r: Resource)
    requires k < |rs|
    ensures HeldAll(rs[k := r]) + Held(rs[k]) == HeldAll(rs) + Held(r)
    decreases |rs|
  {
    if k == 0 {
      assert rs[k := r][1..] == rs[1..];
    } else {
      var rs' := rs[k := r];
      assert rs'[1..] == rs[1..][k - 1 := r];
      assert rs[1..][k - 1] == rs[k];
      HeldAllUpdate(rs[1..], k - 1, r);
      var head, a, b := Held(rs[0]), HeldAll(rs'[1..]), HeldAll(rs[1..]);
      assert HeldAll(rs') == head + a;
      assert HeldAll(rs) == head + b;
      AddOnLeft(head, a, Held(rs[k]), b, Held(r));
    }
  }

  /** Replacing one queue changes the queued pool by exactly the difference
      between the old and the new queue's contents. */
  lemma {:induction false} QueuedAllUpdate(qs: seq<Queue>, p: nat, q: Queue)
    requires p < |qs|
    ensures QueuedAll(qs[p := q]) + multiset(qs[p]) == QueuedAll(qs) + multiset(q)
    decreases |qs|
  {
    if p == 0 {
      assert qs[p := q][1..] == qs[1..];
    } else {
      var qs' := qs[p := q];
      assert qs'[1..] == qs[1..][p - 1 := q];
      assert qs[1..][p - 1] == qs[p];
      QueuedAllUpdate(qs[1..], p - 1, q);
      var head, a, b := multiset(qs[0]), QueuedAll(qs'[1..]), QueuedAll(qs[1..]);
      assert QueuedAll(qs') == head + a;
      assert QueuedAll(qs) == head + b;
      AddOnLeft(head, a, multiset(qs[p]), b, multiset(q));
    }
  }

  /** A single visit moves at most one entry from a queue into a free slot. */
  lemma VisitConserves(s: Scheduler, p: nat)
    requires p < |s.queues|
    requires AllConsistent(s.resources)
    ensures Pool(Visit(s, p)) == Pool(s)
    ensures AllConsistent(Visit(s, p).resources)
  {
    if s.queues[p] != [] {
      match FirstFreeFrom(s.resources, 0)
      case None =>
      case Some(k) =>
        var x := ExtractMin(s.queues[p]);
        MoveConserves(s, p, k, x.entry, x.rest);
    }
  }

  /** Moving entry `e` out of queue `p` (leaving `rest`) into the free
      resource `k` keeps the pool. */
  lemma MoveConserves(s: Scheduler, p: nat, k: nat, e: Entry, rest: Queue)
    requires p < |s.queues| && k < |s.resources|
    requires Consistent(s.resources[k]) && s.resources[k].status == Free
    requires multiset(rest) + multiset{e} == multiset(s.queues[p])
    ensures Pool(Scheduler(s.resources[k := Assign(s.resources[k], e)], s.queues[p := rest])) == Pool(s)
  {
    var rs', qs' := s.resources[k := Assign(s.resources[k], e)], s.queues[p := rest];
    HeldAllUpdate(s.resources, k, Assign(s.resources[k], e));
    QueuedAllUpdate(s.queues, p, rest);
    assert Held(s.resources[k]) == multiset{};
    assert Held(Assign(s.resources[k], e)) == multiset{e};
    forall y
      ensures (QueuedAll(qs') + HeldAll(rs'))[y] == (QueuedAll(s.queues) + HeldAll(s.resources))[y]
    {
      assert (HeldAll(rs') + Held(s.resources[k]))[y] == (HeldAll(s.resources) + Held(Assign(s.resources[k], e)))[y];
      assert (QueuedAll(qs') + multiset(s.queues[p]))[y] == (QueuedAll(s.queues) + multiset(rest))[y];
      assert (multiset(rest) + multiset{e})[y] == multiset(s.queues[p])[y];
    }
  }

  lemma {:induction false} PassFromConserves(s: Scheduler, p: nat)
    requires p <= |s.queues|
    requires AllConsistent(s.resources)
    ensures Pool(PassFrom(s, p)) == Pool(s)
    ensures AllConsistent(PassFrom(s, p).resources)
    decreases |s.queues| - p
  {
    if p < |s.queues| {
      VisitConserves(s, p);
      PassFromConserves(Visit(s, p), p + 1);
    }
  }

  /** A pass neither loses nor duplicates nor alters any entry: the pool of
      queued and held entries is the same before and after. This relies on
      assignment only ever targeting a free, hence empty, resource. */
  lemma PassConserves(s: Scheduler)
    requires AllConsistent(s.resources)
    ensures Pool(Pass(s)) == Pool(s)
    ensures AllConsistent(Pass(s).resources)
  {
    PassFromConserves(s, 0);
  }

  /** Enqueueing a task adds exactly its entry to the pool. */
  lemma AddTaskGrowsPool(s: Scheduler, t: Task)
    requires AddTask(s, t).Ok?
    ensures Pool(AddTask(s, t).value) == Pool(s) + multiset{EntryOf(t)}
  {
    var p := t.projectId;
    var q := Put(s.queues[p], EntryOf(t));
    QueuedAllUpdate(s.queues, p, q);
    assert AddTask(s, t).value.queues == s.queues[p := q];
    forall y
      ensures Pool(AddTask(s, t).value)[y] == (Pool(s) + multiset{EntryOf(t)})[y]
    {
      assert (QueuedAll(s.queues[p := q]) + multiset(s.queues[p]))[y] == (QueuedAll(s.queues) + multiset(q))[y];
      assert multiset(q)[y] == multiset(s.queues[p])[y] + multiset{EntryOf(t)}[y];
    }
  }

  /** Completing resource `k` removes exactly the entry it held from the pool. */
  lemma ReleaseShrinksPool(s: Scheduler, k: nat)
    requires k < |s.resources|
    ensures Pool(Release(s, k)) + Held(s.resources[k]) == Pool(s)
  {
    var r := Remove(s.resources[k]);
    HeldAllUpdate(s.resources, k, r);
    assert Held(r) == multiset{};
    forall y
      ensures (Pool(Release(s, k)) + Held(s.resources[k]))[y] == Pool(s)[y]
    {
      assert (HeldAll(s.resources[k := r]) + Held(s.resources[k]))[y] == (HeldAll(s.resources) + Held(r))[y];
    }
  }
}
