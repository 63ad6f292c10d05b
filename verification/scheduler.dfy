/** The scheduler state and its operations: construction, enqueueing a task,
    completing a resource's task, and one allocation pass. */
module Scheduling {
  import opened Wrappers
  import opened Tasks
  import opened Resources
  import opened PriorityQueues

  /** Resource `k` sits at index `k`; the queue of project `p` sits at index
      `p`, so the configured project ids are exactly the queue indices. */
  datatype Scheduler = Scheduler(resources: seq<Resource>, queues: seq<Queue>)

  datatype SchedulerError = UnknownProject(projectId: int)

  /** The project ids the scheduler was configured with. */
  function ProjectIds(s: Scheduler): set<int> {
    IdRange(|s.queues|)
  }

  /** The ids produced by `range(n)`. */
  function IdRange(n: int): (ids: set<int>)
    ensures forall p :: p in ids <==> 0 <= p < n
    decreases n
  {
    if n <= 0 then {} else IdRange(n - 1) + {n - 1}
  }

  /** Number of elements of `range(n)`: negative counts give nothing. */
  function RangeLength(n: int): nat {
    if n < 0 then 0 else n
  }

  /** Every entry of queue `q` belongs to project `p` and is keyed by its
      task's priority. */
  predicate QueueBelongsTo(q: Queue, p: int) {
    forall e {:trigger e in q} | e in q :: e.task.projectId == p && Keyed(e)
  }

  /** Resource `r` sits at index `k`, is busy exactly when it holds an entry,
      and what it holds is keyed by its task's priority. */
  predicate ResourceAt(r: Resource, k: int) {
    r.id == k && Consistent(r) && (r.slot.Some? ==> Keyed(r.slot.value))
  }

  /** The invariant every reachable state keeps. */
  predicate WellFormed(s: Scheduler) {
    && (forall k | 0 <= k < |s.resources| :: ResourceAt(s.resources[k], k))
    && (forall p | 0 <= p < |s.queues| :: QueueBelongsTo(s.queues[p], p))
  }

  /** Builds `numResources` free resources with ids 0, 1, ... and one empty
      queue for each project id 0 .. numProjects - 1. */
  function Init(numResources: int, numProjects: int): (s: Scheduler)
    ensures |s.resources| == RangeLength(numResources)
    ensures forall k | 0 <= k < |s.resources| :: s.resources[k] == NewResource(k)
    ensures forall p :: p in ProjectIds(s) <==> 0 <= p < numProjects
    ensures forall p | 0 <= p < |s.queues| :: |s.queues[p]| == 0
    ensures WellFormed(s)
  {
    Scheduler(seq(RangeLength(numResources), k => NewResource(k)),
              seq(RangeLength(numProjects), p => []))
  }

  /** Enqueues the entry (priority, task) on the task's own project queue.
      A project id that was not configured is an error and changes nothing. */
  function AddTask(s: Scheduler, t: Task): (r: Result<Scheduler, SchedulerError>)
    ensures r.Err? <==> t.projectId !in ProjectIds(s)
    ensures r.Err? ==> r.error == UnknownProject(t.projectId)
    ensures r.Ok? ==>
              && r.value.resources == s.resources
              && |r.value.queues| == |s.queues|
              && multiset(r.value.queues[t.projectId])
                 == multiset(s.queues[t.projectId]) + multiset{EntryOf(t)}
              && forall p {:trigger r.value.queues[p]} | 0 <= p < |s.queues| && p != t.projectId :: r.value.queues[p] == s.queues[p]
    ensures r.Ok? && WellFormed(s) ==> WellFormed(r.value)
  {
    if 0 <= t.projectId < |s.queues| then
      var p := t.projectId;
      Ok(s.(queues := s.queues[p := Put(s.queues[p], EntryOf(t))]))
    else
      Err(UnknownProject(t.projectId))
  }

  /** A consumer reports that resource `k`'s task has finished. */
  function Release(s: Scheduler, k: nat): (r: Scheduler)
    requires k < |s.resources|
    ensures r.queues == s.queues
    ensures |r.resources| == |s.resources|
    ensures forall j {:trigger r.resources[j]} | 0 <= j < |s.resources| && j != k :: r.resources[j] == s.resources[j]
    ensures r.resources[k].id == s.resources[k].id && r.resources[k].slot == None
    ensures WellFormed(s) ==> WellFormed(r) && r.resources[k].status == Free
  {
    s.(resources := s.resources[k := Remove(s.resources[k])])
  }

  /** `k` is the lowest index at or after `from` whose resource is free. */
  predicate LowestFreeFrom(rs: seq<Resource>, from: nat, k: nat) {
    from <= k < |rs| && rs[k].status == Free
    && forall j | from <= j < k :: rs[j].status == Busy
  }

  /** Scans the resources in index order from `from` for a free one. */
  function FirstFreeFrom(rs: seq<Resource>, from: nat): (i: Option<nat>)
    requires from <= |rs|
    ensures i.None? <==> forall j | from <= j < |rs| :: rs[j].status == Busy
    ensures i.Some? ==> LowestFreeFrom(rs, from, i.value)
    decreases |rs| - from
  {
    if from == |rs| then None
    else if rs[from].status == Free then Some(from)
    else
      assert rs[from].status == Busy;
      FirstFreeFrom(rs, from + 1)
  }

  /** Project `p` can be served: its queue is non-empty and some resource is free. */
  predicate Servable(s: Scheduler, p: nat)
    requires p < |s.queues|
  {
    |s.queues[p]| > 0 && exists k | 0 <= k < |s.resources| :: s.resources[k].status == Free
  }

  /** The visit of one project during a pass: when its queue is non-empty, the
      lowest-index free resource (if any) receives a minimal-priority entry of
      that queue. Nothing else changes. */
  function Visit(s: Scheduler, p: nat): (r: Scheduler)
    requires p < |s.queues|
    ensures |r.resources| == |s.resources| && |r.queues| == |s.queues|
    ensures forall j {:trigger r.queues[j]} | 0 <= j < |s.queues| && j != p :: r.queues[j] == s.queues[j]
    ensures r.queues[p] == s.queues[p] || (|s.queues[p]| > 0 && r.queues[p] == ExtractMin(s.queues[p]).rest)
    ensures forall k {:trigger r.resources[k]} | 0 <= k < |s.resources| :: r.resources[k].id == s.resources[k].id
    ensures forall k {:trigger r.resources[k]} | 0 <= k < |s.resources| && s.resources[k].status == Busy ::
              r.resources[k] == s.resources[k]
    ensures !Servable(s, p) ==> r == s
    ensures WellFormed(s) ==> WellFormed(r)
    ensures forall k: nat | LowestFreeFrom(s.resources, 0, k) && |s.queues[p]| > 0 ::
              && r.resources[k].slot.Some?
              && r.resources[k] == Assign(s.resources[k], r.resources[k].slot.value)
              && IsMin(r.resources[k].slot.value, s.queues[p])
              && multiset(r.queues[p]) + multiset{r.resources[k].slot.value} == multiset(s.queues[p])
              && forall j {:trigger r.resources[j]} | 0 <= j < |s.resources| && j != k :: r.resources[j] == s.resources[j]
  {
    if |s.queues[p]| == 0 then s
    else
      match FirstFreeFrom(s.resources, 0)
      case None => s
      case Some(k) =>
        var x := ExtractMin(s.queues[p]);
        RestIsSubQueue(s.queues[p]);
        Scheduler(s.resources[k := Assign(s.resources[k], x.entry)], s.queues[p := x.rest])
  }

  /** Visits projects `p`, `p + 1`, ... in ascending order. */
  function PassFrom(s: Scheduler, p: nat): (r: Scheduler)
    requires p <= |s.queues|
    ensures |r.resources| == |s.resources| && |r.queues| == |s.queues|
    ensures forall k {:trigger r.resources[k]} | 0 <= k < |s.resources| :: r.resources[k].id == s.resources[k].id
    ensures forall k {:trigger r.resources[k]} | 0 <= k < |s.resources| && s.resources[k].status == Busy ::
              r.resources[k] == s.resources[k]
    ensures forall j {:trigger r.queues[j]} | 0 <= j < p :: r.queues[j] == s.queues[j]
    ensures WellFormed(s) ==> WellFormed(r)
    ensures forall j {:trigger r.queues[j]} | p <= j < |s.queues| ::
              r.queues[j] == s.queues[j] || (|s.queues[j]| > 0 && r.queues[j] == ExtractMin(s.queues[j]).rest)
    decreases |s.queues| - p
  {
    if p == |s.queues| then s
    else
      var s1 := Visit(s, p);
      PassFrom(s1, p + 1)
  }

  /** One allocation pass: every project is visited once, in ascending id
      order, and is served at most once. A pass never fails. */
  function Pass(s: Scheduler): (r: Scheduler)
    ensures |r.resources| == |s.resources| && |r.queues| == |s.queues|
    ensures forall k {:trigger r.resources[k]} | 0 <= k < |s.resources| && s.resources[k].status == Busy ::
              r.resources[k] == s.resources[k]
    ensures forall p {:trigger r.queues[p]} | 0 <= p < |s.queues| ::
              r.queues[p] == s.queues[p] || (|s.queues[p]| > 0 && r.queues[p] == ExtractMin(s.queues[p]).rest)
  {
    PassFrom(s, 0)
  }
}
