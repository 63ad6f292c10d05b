/** Tasks and the queue entries that carry them. */
module Tasks {

  /** A unit of work. All three fields are fixed when the task is built and
      nothing in the scheduler ever changes them: a task is only moved between
      a project queue and a resource slot. */
  datatype Task = Task(taskId: int, projectId: int, priority: int)

  /** What a project queue stores and what a busy resource holds: the pair
      (priority, task). The priority is the ordering key; a lower value is
      dequeued first. */
  datatype Entry = Entry(priority: int, task: Task)

  /** An entry is keyed correctly when its key is its own task's priority. */
  predicate Keyed(e: Entry) {
    e.priority == e.task.priority
  }

  /** The entry the scheduler enqueues for a task. */
  function EntryOf(t: Task): (e: Entry)
    ensures Keyed(e)
    ensures e.task == t
  {
    Entry(t.priority, t)
  }

  /** Building the entry loses nothing: distinct tasks give distinct entries,
      and the task can be read back from its entry. */
  lemma EntryOfInjective(t1: Task, t2: Task)
    ensures EntryOf(t1) == EntryOf(t2) <==> t1 == t2
    ensures EntryOf(t1).task == t1
  {
  }
}
