/** The scheduler's own usage scenarios, stated as lemmas about the model: a
    fresh scheduler whose every project has work hands resource k to project
    k, and the concrete runs of the repository's unit tests. */
module Scenarios {
  import opened Wrappers
  import opened Tasks
  import opened Resources
  import opened PriorityQueues
  import opened Scheduling
  import opened Allocation
  import opened Fairness

  /** The entries the tasks of `ts` that belong to project `p` put on its queue. */
  function EntriesFor(ts: seq<Task>, p: int): multiset<Entry>
    decreases |ts|
  {
    if |ts| == 0 then multiset{}
    else (if ts[0].projectId == p then multiset{EntryOf(ts[0])} else multiset{}) + EntriesFor(ts[1..], p)
  }

  /** Adds the tasks one after the other; the first unknown project stops
      the sequence with its error, as the exception would. On success every
      queue holds what it held plus the entries of its own project's tasks. */
  function AddAll(s: Scheduler, ts: seq<Task>): (r: Result<Scheduler, SchedulerError>)
    ensures r.Ok? <==> forall i | 0 <= i < |ts| :: ts[i].projectId in ProjectIds(s)
    ensures r.Ok? ==> r.value.resources == s.resources && |r.value.queues| == |s.queues|
    ensures r.Ok? ==> forall p | 0 <= p < |s.queues| ::
              multiset(r.value.queues[p]) == multiset(s.queues[p]) + EntriesFor(ts, p)
    ensures r.Ok? && WellFormed(s) ==> WellFormed(r.value)
    decreases |ts|
  {
    if |ts| == 0 then Ok(s)
    else
      match AddTask(s, ts[0])
      case Err(e) => Err(e)
      case Ok(s1) =>
        assert ProjectIds(s1) == ProjectIds(s);
        var r := AddAll(s1, ts[1..]);
        if r.Ok? then
          AddFirstThenRest(s, s1, r.value, ts);
          r
        else r
  }

  /** Adding the first task and then the others accounts for all of them. */
  lemma AddFirstThenRest(s: Scheduler, s1: Scheduler, r: Scheduler, ts: seq<Task>)
    requires |ts| > 0 && AddTask(s, ts[0]) == Ok(s1)
    requires |r.queues| == |s1.queues|
    requires forall p | 0 <= p < |s1.queues| ::
               multiset(r.queues[p]) == multiset(s1.queues[p]) + EntriesFor(ts[1..], p)
    ensures forall p | 0 <= p < |s.queues| ::
              multiset(r.queues[p]) == multiset(s.queues[p]) + EntriesFor(ts, p)
  {
    forall p | 0 <= p < |s.queues|
      ensures multiset(r.queues[p]) == multiset(s.queues[p]) + EntriesFor(ts, p)
    {
      AddFirstThenRestAt(s, s1, r, ts, p);
    }
  }

  /** `AddFirstThenRest` for one project. */
  lemma AddFirstThenRestAt(s: Scheduler, s1: Scheduler, r: Scheduler, ts: seq<Task>, p: nat)
    requires |ts| > 0 && AddTask(s, ts[0]) == Ok(s1)
    requires p < |s.queues| && |r.queues| == |s1.queues|
    requires multiset(r.queues[p]) == multiset(s1.queues[p]) + EntriesFor(ts[1..], p)
    ensures multiset(r.queues[p]) == multiset(s.queues[p]) + EntriesFor(ts, p)
  {
    var head := if ts[0].projectId == p then multiset{EntryOf(ts[0])} else multiset{};
    assert multiset(s1.queues[p]) == multiset(s.queues[p]) + head;
    assert EntriesFor(ts, p) == head + EntriesFor(ts[1..], p);
  }

  /** When every resource is free, the free list is every index in order. */
  lemma {:induction false} AllFreeList(rs: seq<Resource>, from: nat)
    requires from <= |rs|
    requires forall k | from <= k < |rs| :: rs[k].status == Free
    ensures |FreeFrom(rs, from)| == |rs| - from
    ensures forall i | 0 <= i < |rs| - from :: FreeFrom(rs, from)[i] == from + i
    decreases |rs| - from
  {
    if from < |rs| {
      AllFreeList(rs, from + 1);
      var l, l1 := FreeFrom(rs, from), FreeFrom(rs, from + 1);
      assert rs[from].status == Free;
      assert l == [from] + l1;
      forall i | 0 < i < |rs| - from
        ensures l[i] == from + i
      {
        assert l[i] == l1[i - 1];
      }
    }
  }

  /** When every queue is non-empty, the waiting list is every project in order. */
  lemma {:induction false} AllWaitingList(qs: seq<Queue>, from: nat)
    requires from <= |qs|
    requires forall p | from <= p < |qs| :: |qs[p]| > 0
    ensures |WaitingFrom(qs, from)| == |qs| - from
    ensures forall i | 0 <= i < |qs| - from :: WaitingFrom(qs, from)[i] == from + i
    decreases |qs| - from
  {
    if from < |qs| {
      AllWaitingList(qs, from + 1);
      var l, l1 := WaitingFrom(qs, from), WaitingFrom(qs, from + 1);
      assert |qs[from]| > 0;
      assert l == [from] + l1;
      forall i | 0 < i < |qs| - from
        ensures l[i] == from + i
      {
        assert l[i] == l1[i - 1];
      }
    }
  }

  /** When every resource is free and every project has work, one pass
      gives resource k a minimal-priority task of project k, for every k
      that is both a resource index and a project id; surplus resources stay
      free and surplus projects keep waiting. */
  lemma PassDiagonal(s: Scheduler)
    requires WellFormed(s)
    requires forall k | 0 <= k < |s.resources| :: s.resources[k].status == Free
    requires forall p | 0 <= p < |s.queues| :: |s.queues[p]| > 0
    ensures forall k | 0 <= k < |s.resources| && k < |s.queues| ::
              && Pass(s).resources[k].slot.Some?
              && Pass(s).resources[k].slot.value.task.projectId == k
              && IsMin(Pass(s).resources[k].slot.value, s.queues[k])
              && Pass(s).resources[k].slot.value == ExtractMin(s.queues[k]).entry
              && Pass(s).queues[k] == ExtractMin(s.queues[k]).rest
    ensures forall k | |s.queues| <= k < |s.resources| :: Pass(s).resources[k] == s.resources[k]
    ensures forall p | |s.resources| <= p < |s.queues| :: Pass(s).queues[p] == s.queues[p]
  {
    forall k | 0 <= k < |s.resources| && k < |s.queues|
      ensures Pass(s).resources[k].slot.Some?
      ensures Pass(s).resources[k].slot.value.task.projectId == k
      ensures IsMin(Pass(s).resources[k].slot.value, s.queues[k])
      ensures Pass(s).resources[k].slot.value == ExtractMin(s.queues[k]).entry
      ensures Pass(s).queues[k] == ExtractMin(s.queues[k]).rest
    {
      DiagonalServed(s, k);
    }
    forall k | |s.queues| <= k < |s.resources|
      ensures Pass(s).resources[k] == s.resources[k]
    {
      DiagonalSpareResource(s, k);
    }
    forall p | |s.resources| <= p < |s.queues|
      ensures Pass(s).queues[p] == s.queues[p]
    {
      DiagonalSpareProject(s, p);
    }
  }

  /** Resource k of a diagonal pass runs the first entry of project k. */
  lemma DiagonalServed(s: Scheduler, k: nat)
    requires WellFormed(s)
    requires forall k | 0 <= k < |s.resources| :: s.resources[k].status == Free
    requires forall p | 0 <= p < |s.queues| :: |s.queues[p]| > 0
    requires k < |s.resources| && k < |s.queues|
    ensures Pass(s).resources[k].slot.Some?
    ensures Pass(s).resources[k].slot.value.task.projectId == k
    ensures IsMin(Pass(s).resources[k].slot.value, s.queues[k])
    ensures Pass(s).resources[k].slot.value == ExtractMin(s.queues[k]).entry
    ensures Pass(s).queues[k] == ExtractMin(s.queues[k]).rest
  {
    AllFreeList(s.resources, 0);
    AllWaitingList(s.queues, 0);
    var f, m := FreeResources(s), Served(s);
    PassFillsPrefix(s);
    assert f[..m][k] == k;
    var i := PassAssignment(s, k);
    assert f[i] == k;
  }

  /** A resource beyond the last project id is untouched by a diagonal pass. */
  lemma DiagonalSpareResource(s: Scheduler, k: nat)
    requires forall k | 0 <= k < |s.resources| :: s.resources[k].status == Free
    requires forall p | 0 <= p < |s.queues| :: |s.queues[p]| > 0
    requires |s.queues| <= k < |s.resources|
    ensures Pass(s).resources[k] == s.resources[k]
  {
    AllFreeList(s.resources, 0);
    AllWaitingList(s.queues, 0);
    var f, m := FreeResources(s), Served(s);
    PassFillsPrefix(s);
    assert m == |s.queues|;
    assert f[k] == k;
    assert k !in f[..m];
  }

  /** A project beyond the last resource index keeps waiting. */
  lemma DiagonalSpareProject(s: Scheduler, p: nat)
    requires forall k | 0 <= k < |s.resources| :: s.resources[k].status == Free
    requires forall p | 0 <= p < |s.queues| :: |s.queues[p]| > 0
    requires |s.resources| <= p < |s.queues|
    ensures Pass(s).queues[p] == s.queues[p]
  {
    AllFreeList(s.resources, 0);
    AllWaitingList(s.queues, 0);
    var w, m := WaitingProjects(s), Served(s);
    PassServesPrefix(s);
    assert m == |s.resources|;
    assert w[p] == p;
    assert p !in w[..m];
  }

  /** Every task added is among the entries its project's queue receives. */
  lemma {:induction false} EntriesForHas(ts: seq<Task>, i: nat)
    requires i < |ts|
    ensures EntryOf(ts[i]) in EntriesFor(ts, ts[i].projectId)
    decreases i
  {
    if i > 0 {
      EntriesForHas(ts[1..], i - 1);
      assert ts[1..][i - 1] == ts[i];
    }
  }

  /** A state built by `Init` followed by `AddAll`: well formed, with fresh
      resources and each queue holding exactly its project's entries. */
  lemma Loaded(numResources: nat, numProjects: nat, ts: seq<Task>)
    requires forall i | 0 <= i < |ts| :: 0 <= ts[i].projectId < numProjects
    ensures AddAll(Init(numResources, numProjects), ts).Ok?
    ensures var s := AddAll(Init(numResources, numProjects), ts).value;
            && WellFormed(s)
            && |s.resources| == numResources && |s.queues| == numProjects
            && (forall k | 0 <= k < numResources :: s.resources[k] == NewResource(k))
            && (forall p | 0 <= p < numProjects :: multiset(s.queues[p]) == EntriesFor(ts, p))
  {
    var s0 := Init(numResources, numProjects);
    forall p | 0 <= p < numProjects
      ensures multiset(s0.queues[p]) == multiset{}
    {
    }
  }

  /** A task added to a fresh scheduler is the next one its project's queue
      yields (test_all.py, test_add_task). */
  lemma AddTaskScenario(priority: int)
    ensures var t := Task(0, 0, priority);
            && AddAll(Init(1, 1), [t]).Ok?
            && |AddAll(Init(1, 1), [t]).value.queues[0]| > 0
            && ExtractMin(AddAll(Init(1, 1), [t]).value.queues[0]).entry == EntryOf(t)
  {
    var t := Task(0, 0, priority);
    Loaded(1, 1, [t]);
    var s := AddAll(Init(1, 1), [t]).value;
    assert [t][1..] == [];
    assert multiset(s.queues[0]) == multiset{EntryOf(t)};
    MinOfOne(ExtractMin(s.queues[0]).entry, s.queues[0], EntryOf(t));
  }

  /** On two free resources with one project holding the single entry `a`,
      a pass runs `a` on resource 0 and leaves resource 1 alone. */
  lemma OneTaskPass(s: Scheduler, a: Entry)
    requires WellFormed(s) && |s.resources| == 2 && |s.queues| == 1
    requires s.resources[0].status == Free && s.resources[1].status == Free
    requires multiset(s.queues[0]) == multiset{a}
    ensures Pass(s).resources[0].slot == Some(a)
    ensures Pass(s).resources[1] == s.resources[1]
  {
    assert |s.queues[0]| > 0;
    PassDiagonal(s);
    MinOfOne(Pass(s).resources[0].slot.value, s.queues[0], a);
  }

  /** A single task on a two-resource scheduler lands on resource 0, whatever
      its priority, and resource 1 stays free (test_all.py,
      test_allocate_resources). */
  lemma FirstTaskScenario(priority: int)
    ensures var t := Task(1, 0, priority);
            && AddAll(Init(2, 1), [t]).Ok?
            && Pass(AddAll(Init(2, 1), [t]).value).resources[0].slot == Some(EntryOf(t))
            && Pass(AddAll(Init(2, 1), [t]).value).resources[1] == NewResource(1)
  {
    var t := Task(1, 0, priority);
    Loaded(2, 1, [t]);
    var s := AddAll(Init(2, 1), [t]).value;
    assert [t][1..] == [];
    assert multiset(s.queues[0]) == multiset{EntryOf(t)};
    OneTaskPass(s, EntryOf(t));
  }

  /** On freshly created resources, with every project waiting and fewer
      projects than resources, resource k goes to project k and the surplus
      resources stay as they were. */
  lemma FreshPass(s: Scheduler)
    requires WellFormed(s) && |s.queues| <= |s.resources|
    requires forall k | 0 <= k < |s.resources| :: s.resources[k] == NewResource(k)
    requires forall p | 0 <= p < |s.queues| :: |s.queues[p]| > 0
    ensures forall k | 0 <= k < |s.queues| ::
              Pass(s).resources[k].slot.Some? && Pass(s).resources[k].slot.value.task.projectId == k
    ensures forall k | |s.queues| <= k < |s.resources| :: Pass(s).resources[k] == NewResource(k)
  {
    PassDiagonal(s);
  }

  /** Four resources, two projects with five tasks and one task, any ids and
      priorities: each project gets exactly one resource, resource k going to
      project k, and the last two resources stay free (test_all.py,
      test_allocate_resources2, which draws the priorities at random). */
  lemma EqualShareScenario(ts: seq<Task>)
    requires |ts| == 6
    requires forall i | 0 <= i < 5 :: ts[i].projectId == 0
    requires ts[5].projectId == 1
    ensures AddAll(Init(4, 2), ts).Ok?
    ensures var r := Pass(AddAll(Init(4, 2), ts).value);
            && (forall k | 0 <= k < 2 :: r.resources[k].slot.Some? && r.resources[k].slot.value.task.projectId == k)
            && r.resources[2] == NewResource(2) && r.resources[3] == NewResource(3)
  {
    EqualShareLoaded(ts);
    FreshPass(AddAll(Init(4, 2), ts).value);
  }

  /** The state of the equal-share run before its pass. */
  lemma EqualShareLoaded(ts: seq<Task>)
    requires |ts| == 6
    requires forall i | 0 <= i < 5 :: ts[i].projectId == 0
    requires ts[5].projectId == 1
    ensures AddAll(Init(4, 2), ts).Ok?
    ensures var s := AddAll(Init(4, 2), ts).value;
            && WellFormed(s) && |s.resources| == 4 && |s.queues| == 2
            && (forall k | 0 <= k < 4 :: s.resources[k] == NewResource(k))
            && |s.queues[0]| > 0 && |s.queues[1]| > 0
  {
    Loaded(4, 2, ts);
    var s := AddAll(Init(4, 2), ts).value;
    EntriesForHas(ts, 0);
    EntriesForHas(ts, 5);
    assert EntryOf(ts[0]) in multiset(s.queues[0]);
    assert EntryOf(ts[5]) in multiset(s.queues[1]);
  }

  /** The minimum of a queue holding one entry is that entry. */
  lemma MinOfOne(x: Entry, q: Queue, a: Entry)
    requires multiset(q) == multiset{a} && IsMin(x, q)
    ensures x == a
  {
    assert x in multiset(q);
  }

  /** The minimum of a queue holding two entries of different priorities is
      the one with the lower priority. */
  lemma MinOfTwo(x: Entry, q: Queue, a: Entry, b: Entry)
    requires multiset(q) == multiset{a, b} && a.priority < b.priority && IsMin(x, q)
    ensures x == a
  {
    assert x in multiset(q);
    assert a in multiset(q);
    assert a in q;
    assert x.priority <= a.priority;
  }

  /** On two free resources with project 0 holding entries `a` and `b`
      (`a` first by priority) and project 1 holding `c`, a pass runs `a` on
      resource 0 and `c` on resource 1. */
  lemma TwoByTwoPass(s: Scheduler, a: Entry, b: Entry, c: Entry)
    requires WellFormed(s) && |s.resources| == 2 && |s.queues| == 2
    requires s.resources[0].status == Free && s.resources[1].status == Free
    requires multiset(s.queues[0]) == multiset{a, b} && a.priority < b.priority
    requires multiset(s.queues[1]) == multiset{c}
    ensures Pass(s).resources[0].slot == Some(a)
    ensures Pass(s).resources[1].slot == Some(c)
  {
    assert |s.queues[0]| > 0 && |s.queues[1]| > 0;
    PassDiagonal(s);
    MinOfTwo(Pass(s).resources[0].slot.value, s.queues[0], a, b);
    MinOfOne(Pass(s).resources[1].slot.value, s.queues[1], c);
  }

  /** Two projects, two resources: each project gets one resource, and
      project 0 gets its higher-priority task first, although it has more
      tasks queued (test_all.py, test_allocate_resources3, which uses the
      priorities 6, 2 and 60). */
  lemma SharedResourcesScenario(p00: int, p10: int, p01: int)
    requires p10 < p00
    ensures var ts := [Task(0, 0, p00), Task(1, 0, p10), Task(0, 1, p01)];
            && AddAll(Init(2, 2), ts).Ok?
            && Pass(AddAll(Init(2, 2), ts).value).resources[0].slot == Some(EntryOf(ts[1]))
            && Pass(AddAll(Init(2, 2), ts).value).resources[1].slot == Some(EntryOf(ts[2]))
  {
    var ts := [Task(0, 0, p00), Task(1, 0, p10), Task(0, 1, p01)];
    SharedLoaded(ts);
    TwoByTwoPass(AddAll(Init(2, 2), ts).value, EntryOf(ts[1]), EntryOf(ts[0]), EntryOf(ts[2]));
  }

  /** The state of the shared-resources run before its pass. */
  lemma SharedLoaded(ts: seq<Task>)
    requires |ts| == 3 && ts[0].projectId == 0 && ts[1].projectId == 0 && ts[2].projectId == 1
    ensures AddAll(Init(2, 2), ts).Ok?
    ensures var s := AddAll(Init(2, 2), ts).value;
            && WellFormed(s) && |s.resources| == 2 && |s.queues| == 2
            && s.resources[0].status == Free && s.resources[1].status == Free
            && multiset(s.queues[0]) == multiset{EntryOf(ts[1]), EntryOf(ts[0])}
            && multiset(s.queues[1]) == multiset{EntryOf(ts[2])}
  {
    Loaded(2, 2, ts);
    EntriesOfThree(ts);
  }

  /** The entries three tasks put on their queues, two for project 0 and one
      for project 1. */
  lemma EntriesOfThree(ts: seq<Task>)
    requires |ts| == 3 && ts[0].projectId == 0 && ts[1].projectId == 0 && ts[2].projectId == 1
    ensures EntriesFor(ts, 0) == multiset{EntryOf(ts[1]), EntryOf(ts[0])}
    ensures EntriesFor(ts, 1) == multiset{EntryOf(ts[2])}
  {
    var a, b, c := ts[0], ts[1], ts[2];
    assert ts[1..] == [b, c] && [b, c][1..] == [c] && [c][1..] == [];
    assert EntriesFor([c], 0) == multiset{} && EntriesFor([c], 1) == multiset{EntryOf(c)};
    assert EntriesFor([b, c], 0) == multiset{EntryOf(b)} && EntriesFor([b, c], 1) == multiset{EntryOf(c)};
  }

  /** On a single free resource with one project holding `a` and `b` (`a`
      first by priority), a pass runs `a` and leaves `b` queued. */
  lemma OneByOnePass(s: Scheduler, a: Entry, b: Entry)
    requires WellFormed(s) && |s.resources| == 1 && |s.queues| == 1
    requires s.resources[0].status == Free
    requires multiset(s.queues[0]) == multiset{a, b} && a.priority < b.priority
    ensures Pass(s).resources[0].slot == Some(a)
    ensures multiset(Pass(s).queues[0]) == multiset{b}
  {
    assert |s.queues[0]| > 0;
    PassDiagonal(s);
    MinOfTwo(Pass(s).resources[0].slot.value, s.queues[0], a, b);
  }

  /** After the running task finishes, the next pass runs the queued one. */
  lemma ReleaseThenPass(s: Scheduler, b: Entry)
    requires WellFormed(s) && |s.resources| == 1 && |s.queues| == 1
    requires multiset(s.queues[0]) == multiset{b}
    ensures Release(s, 0).resources[0] == NewResource(0)
    ensures Pass(Release(s, 0)).resources[0].slot == Some(b)
    ensures Release(Pass(Release(s, 0)), 0).resources[0] == NewResource(0)
  {
    var s2 := Release(s, 0);
    assert |s2.queues[0]| > 0;
    PassDiagonal(s2);
    MinOfOne(Pass(s2).resources[0].slot.value, s2.queues[0], b);
  }

  /** One resource, one project with two tasks: the first pass runs the
      higher-priority task; after it finishes, the next pass runs the other
      one; after that finishes the resource is free and empty
      (test_all.py, test_remove_task, which uses the priorities 6 and 2). */
  lemma RemoveTaskScenario(p0: int, p1: int)
    requires p1 < p0
    ensures var t0, t1 := Task(0, 0, p0), Task(1, 0, p1);
            && AddAll(Init(1, 1), [t0, t1]).Ok?
            && var s1 := Pass(AddAll(Init(1, 1), [t0, t1]).value);
               && s1.resources[0].slot == Some(EntryOf(t1))
               && Release(s1, 0).resources[0] == NewResource(0)
               && Pass(Release(s1, 0)).resources[0].slot == Some(EntryOf(t0))
               && Release(Pass(Release(s1, 0)), 0).resources[0] == NewResource(0)
  {
    var t0, t1 := Task(0, 0, p0), Task(1, 0, p1);
    SingleLoaded([t0, t1]);
    var s := AddAll(Init(1, 1), [t0, t1]).value;
    OneByOnePass(s, EntryOf(t1), EntryOf(t0));
    ReleaseThenPass(Pass(s), EntryOf(t0));
  }

  /** The state of the remove-task run before its first pass. */
  lemma SingleLoaded(ts: seq<Task>)
    requires |ts| == 2 && ts[0].projectId == 0 && ts[1].projectId == 0
    ensures AddAll(Init(1, 1), ts).Ok?
    ensures var s := AddAll(Init(1, 1), ts).value;
            && WellFormed(s) && |s.resources| == 1 && |s.queues| == 1
            && s.resources[0].status == Free
            && multiset(s.queues[0]) == multiset{EntryOf(ts[1]), EntryOf(ts[0])}
  {
    Loaded(1, 1, ts);
    EntriesOfTwo(ts);
  }

  /** The entries two tasks of project 0 put on its queue. */
  lemma EntriesOfTwo(ts: seq<Task>)
    requires |ts| == 2 && ts[0].projectId == 0 && ts[1].projectId == 0
    ensures EntriesFor(ts, 0) == multiset{EntryOf(ts[1]), EntryOf(ts[0])}
  {
    assert ts[1..] == [ts[1]] && [ts[1]][1..] == [];
    assert EntriesFor([ts[1]], 0) == multiset{EntryOf(ts[1])};
  }

  /** With no projects, a pass leaves the only resource free and empty
      (test_all.py, test_no_tasks). */
  lemma NoTasksScenario()
    ensures Pass(Init(1, 0)).resources[0] == NewResource(0)
  {
    PassIdle(Init(1, 0));
  }
}
