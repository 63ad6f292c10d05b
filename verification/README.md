# Round-robin scheduler: allocation engine

This project is a Dafny model of the allocation engine of a small round-robin
task scheduler. The scheduler has a fixed list of resources with indices
`0 .. R-1` and one priority queue per project with ids `0 .. P-1`. Producers call
`add_task`, which enqueues the pair (priority, task) on the task's own project
queue. The allocator repeatedly runs a *pass*. A pass visits the projects in
ascending id order. For each project whose queue is non-empty, it takes the
lowest-index free resource, dequeues an entry of minimal priority value, and
assigns that entry to the resource. Each project gets at most one resource per
pass. A consumer later calls `remove_task` on the resource, which frees it.

The model is sequential and purely functional:

- `Tasks`: the task record and the queue entry `(priority, task)`.
- `Resources`: a resource's slot and free/busy status.
  - `Assign` models `assign_task`.
  - `Remove` models `remove_task`.
- `PriorityQueues`: a queue as a sequence in enqueue order, with `Put` and
  `ExtractMin`.
- `Scheduling`: the scheduler state, `Init`, `AddTask`, and `Release` (a
  consumer's `remove_task` on resource `k`). It also defines one pass: `Visit`
  handles one project, `PassFrom` handles the projects from `p` onwards, and
  `Pass` is the whole pass.
- `Conservation`: nothing is lost or duplicated. The multiset of entries in all
  queues plus all resource slots is an invariant of a pass.
- `Allocation`: an independent characterisation of a pass. Let `F` be the free
  resources by ascending index and `W` the waiting projects by ascending id.
  Then the pass pairs `F[i]` with `W[i]` for `i < min(|F|, |W|)`, and nothing
  else changes.
- `Fairness`: consequences of that characterisation:
  - who is served;
  - the order in which projects and resources are served;
  - no resource stays idle while a project waits;
  - the entry assigned is minimal;
  - an idle pass changes nothing.
- `Scenarios`: the repository's unit tests, stated as lemmas over all
  priorities rather than the particular values the tests use.

Python's `KeyError` from an unknown project id becomes the error result
`Err(UnknownProject(id))`. A pass is a total function, so it never fails.

Three points of the code shape the model:

- The code has no tie-break between equal priorities. Its queue entries are
  `(priority, task)` tuples (src/Scheduler.py:38). When two have the same
  priority, Python compares the `Task` objects. `Task` defines no ordering
  (src/Task.py:17-20), so the heap raises `TypeError`. The model does not
  raise. Among entries of equal minimal priority it dequeues the earliest
  enqueued (`PriorityQueues.MinIndexIsFirst`, `PriorityQueues.PutTieKeepsEarlier`).
  When priorities are distinct, `PriorityQueues.ExtractMinOrderIndependent`
  shows the dequeue depends only on the queue's contents, as the heap's does.
- `assign_task` does not look at the status (src/Resource.py:35-38). It
  overwrites whatever entry is held. `Resources.Assign` does the same (see
  `Resources.AssignOverwrites`).
- `add_task` raises `KeyError` for an unknown project id (src/Scheduler.py:38).
  The model returns an error value and leaves the state unchanged.

## Model

| member | source | states |
|---|---|---|
| Tasks.EntryOf | src/Scheduler.py:38 | the enqueued pair carries the task itself and is keyed by that task's own priority |
| Tasks.EntryOfInjective | src/Task.py:17-20 | distinct tasks give distinct queue entries, and the task can be read back from its entry |
| Resources.NewResource | src/Resource.py:29-33 | a new resource keeps the given id, holds nothing, is free, and satisfies busy-iff-holding |
| Resources.Assign | src/Resource.py:35-39 | after assignment the resource holds exactly the given entry and is busy, whatever it held before; the id is kept and busy-iff-holding holds |
| Resources.Remove | src/Resource.py:41-47 | a held entry is dropped and the resource becomes free; an empty slot leaves the resource unchanged; the id is kept and busy-iff-holding is preserved |
| Resources.RemoveIdempotent | src/Resource.py:43 | removing twice equals removing once |
| Resources.RemoveUndoesAssign | src/Resource.py:35-47 | assigning then removing gives back a fresh resource with the same id, from any prior state |
| Resources.AssignOverwrites | src/Resource.py:35-38 | a second assignment replaces the first without regard to the busy status |
| PriorityQueues.Put | src/Scheduler.py:38 | enqueueing adds exactly one occurrence of the entry to the queue's contents |
| PriorityQueues.MinIndexIsMin | src/Scheduler.py:48 | the position the dequeue takes from holds a priority value no greater than that of any queued entry |
| PriorityQueues.ExtractMin | src/Scheduler.py:48 | the dequeued entry is in the queue with no lower priority value in it, and the queue left behind holds exactly the other entries |
| PriorityQueues.ExtractMinUnique | src/Scheduler.py:48 | with distinct priorities, the dequeued entry is the only one with the minimal priority |
| PriorityQueues.ExtractMinOrderIndependent | src/Scheduler.py:48 | with distinct priorities, two queues with the same contents dequeue the same entry and keep the same remainder |
| PriorityQueues.ExtractMinMonotone | src/Scheduler.py:48 | two successive dequeues come out in non-decreasing priority order |
| PriorityQueues.PutStrictMinIsNext | src/Scheduler.py:38 | an entry enqueued below every queued priority is the next one dequeued, and the remainder is the old contents |
| Scheduling.Init | src/Scheduler.py:32-35 | resource `i` is a fresh resource with id `i`, one for each of `range(num_resources)`; the project ids are exactly `0 .. num_projects-1`; every queue is empty; the state is well formed |
| Scheduling.AddTask | src/Scheduler.py:37-38 | fails exactly when the project id is not configured, reporting that id; otherwise adds exactly the entry (priority, task) to that project's queue, leaves every other queue and every resource unchanged, and preserves well-formedness |
| Scheduling.Release | src/Resource.py:41-47 | finishing resource `k`'s task empties its slot and frees it in a well-formed state; queues and every other resource are unchanged |
| Scheduling.FirstFreeFrom | src/Scheduler.py:46-47 | finds nothing exactly when every resource scanned is busy; otherwise finds the lowest-index free resource |
| Scheduling.Visit | src/Scheduler.py:45-50 | a waiting project visited while some resource is free gives a minimal entry of its queue to the lowest-index free resource, and that entry leaves the queue; in every other case nothing changes; busy resources, ids and other queues are untouched; well-formedness is preserved |
| Scheduling.PassFrom | src/Scheduler.py:44-50 | visiting projects from `p` upward leaves earlier queues and busy resources alone, removes at most one minimal entry from each later queue, and preserves well-formedness |
| Scheduling.Pass | src/Scheduler.py:42-50 | a pass is total, never modifies a busy resource, and removes at most the dequeued minimal entry from each project queue |
| Conservation.VisitConserves | src/Scheduler.py:45-50 | one project's visit keeps the multiset of queued plus held entries and busy-iff-holding |
| Conservation.PassFromConserves | src/Scheduler.py:44-50 | visiting the projects from `p` onwards keeps the multiset of queued plus held entries |
| Conservation.PassConserves | src/Scheduler.py:44-50 | a pass neither loses nor duplicates an entry: queued plus held entries are the same multiset before and after, and busy-iff-holding is preserved |
| Conservation.AddTaskGrowsPool | src/Scheduler.py:37-38 | a successful add grows the entries in the system by exactly the new task's entry |
| Conservation.ReleaseShrinksPool | src/Resource.py:41-47 | releasing resource `k` removes exactly the entry it held from the system |
| Allocation.FreeFrom | src/Scheduler.py:46-47 | lists exactly the free resources from an index onward, in strictly ascending order |
| Allocation.WaitingFrom | src/Scheduler.py:44-45 | lists exactly the projects with non-empty queues from an id onward, in strictly ascending order |
| Allocation.PassFromMatches | src/Scheduler.py:44-50 | visiting the projects from `p` onward pairs the i-th free resource with the i-th waiting project, as far as the shorter list goes, and changes nothing else |
| Allocation.PassMatches | src/Scheduler.py:44-50 | a pass gives the i-th free resource a minimal entry dequeued from the i-th waiting project, for `i < min(free, waiting)`, and leaves every other resource and queue unchanged |
| Fairness.PassServesPrefix | src/Scheduler.py:44-50 | a project's queue changes in a pass if and only if it is among the first `min(free, waiting)` waiting projects by id |
| Fairness.PassFillsPrefix | src/Scheduler.py:46-50 | a resource changes in a pass if and only if it is among the first `min(free, waiting)` free resources by index |
| Fairness.PassServesLowerIdsFirst | src/Scheduler.py:44 | if a pass serves project `p`, it serves every waiting project with a lower id |
| Fairness.PassFillsLowerIndicesFirst | src/Scheduler.py:46-47 | if a pass fills resource `k`, it fills every lower-index resource that was free |
| Fairness.PassNoIdleWhileWaiting | src/Scheduler.py:44-50 | if a waiting project is left unserved, every resource is busy after the pass |
| Fairness.PassNoWaitingWhileIdle | src/Scheduler.py:44-50 | if a resource is free after the pass, every waiting project was served |
| Fairness.PassAssignment | src/Scheduler.py:45-50 | a resource changed by a pass was free. It now holds the minimal entry dequeued from the i-th waiting project, where it is the i-th free resource. That entry belongs to that project, and its queue lost exactly that entry |
| Fairness.PassRoundRobin | src/Scheduler.py:44-50 | two resources filled in one pass run tasks of different projects, the lower index getting the lower project id; no project gets two resources |
| Fairness.PassIdle | src/Scheduler.py:45-47 | with every queue empty, or every resource busy, a pass changes nothing |
| Scenarios.AddAll | src/Scheduler.py:37-38 | adding a list of tasks succeeds exactly when every project id is configured; on success each queue gains exactly its own project's entries and resources are untouched |
| Scenarios.EntriesForHas | src/Scheduler.py:38 | every added task's entry is among those its project's queue receives |
| Scenarios.PassDiagonal | src/Scheduler.py:44-50 | with all resources free and every project waiting, resource `k` gets the minimal entry of project `k`, and surplus resources and projects are untouched |
| Scenarios.FreshPass | test_all.py:59-87 | on fresh resources with every project waiting, resource `k` runs a task of project `k` and surplus resources stay fresh |
| Scenarios.AddTaskScenario | test_all.py:21-36 | a task added to a fresh scheduler is the next entry its project's queue yields, for any priority |
| Scenarios.FirstTaskScenario | test_all.py:38-57 | a single task lands on resource 0 and resource 1 stays fresh, for any priority |
| Scenarios.EqualShareScenario | test_all.py:59-87 | with queues of five and one tasks on four resources, resource `k` runs a task of project `k` and resources 2 and 3 stay free, for any priorities (ties: see Left out) |
| Scenarios.SharedResourcesScenario | test_all.py:89-115 | two projects on two resources each get one; project 0 runs its lower-priority-value task although it has more queued |
| Scenarios.RemoveTaskScenario | test_all.py:117-165 | on one resource, the task with the lower priority value runs first. After it finishes the other one runs, and after that the resource is free and empty |
| Scenarios.NoTasksScenario | test_all.py:167-184 | with no projects, a pass leaves the resource free and empty |

## Left out

- Locks, the `terminate_flag` loop and `time.sleep`: these are concurrency and
  timing (src/Scheduler.py:35, 41-42, 51; src/Resource.py:33, 36, 42). The
  model makes one pass under the lock its unit, and `Release` stands for a
  consumer's call between passes. Interleavings of producers, consumers and
  the allocator are not modelled.
- The `print` logging in `assign_task` and `remove_task` (src/Resource.py:39,
  44-45): console output only.
- The simulators, `main.py` and the constants module are drivers and
  configuration: random task generation, argument parsing and the thread pool.
  They are not part of this model.
- The unit tests' thread start/stop scaffolding: each scenario lemma assumes the
  allocator thread completes exactly one pass before it is stopped, which is
  what the tests' assertions take for granted.
- PriorityQueues.Put: the binary-heap layout of `queue.PriorityQueue` is not
  modelled. A queue is a sequence in enqueue order. `Put` appends, and its
  contract states only the change to the queue's contents. The heap's
  `TypeError` on a tie (below) can already arise inside `put`, and the model
  does not raise it there.
- PriorityQueues.ExtractMin: does not model the `TypeError` the heap raises
  when it compares two entries of equal priority. The comparison falls through
  to the `Task` objects, which define no ordering. Whether it happens depends
  on the heap layout, which is left out. The model never fails. Among entries
  of equal minimal priority it dequeues the earliest enqueued. Under distinct
  priorities the entry dequeued is the unique minimum
  (`PriorityQueues.ExtractMinUnique`), as in the source.
- Scheduling.AddTask: returns `Ok` for every configured project id, even when
  the queue already holds an entry of the same priority. There, the source's
  `put` may raise `TypeError` while sifting the new entry into the heap. For
  example, on a scheduler with one resource and one project, adding a task of
  priority 5 twice can fail at the second call. The model's result holds for
  the source only when its heap comparisons meet no tie.
- Scenarios.EqualShareScenario: holds for all priorities in the model. The
  test draws project 0's five priorities at random from 1 to 100
  (test_all.py:73-76). A repeated draw can make the source raise `TypeError`
  while it fills the queue, so there the claim covers only runs without such
  a tie. The same applies to `Scenarios.AddAll` and `Scenarios.FreshPass`
  whenever one project's tasks share a priority.
- Resource status is modelled as the two-valued `Status` rather than the
  strings `"free"`/`"busy"`; no other status string ever occurs in the source.
