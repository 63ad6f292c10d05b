/** A resource: a slot that holds at most one entry, with a free/busy status. */
module Resources {
  import opened Wrappers
  import opened Tasks

  datatype Status = Free | Busy

  /** The slot and the status are separate fields; `Consistent` ties them
      together. */
  datatype Resource = Resource(id: int, slot: Option<Entry>, status: Status)

  /** Busy exactly when an entry is held. */
  predicate Consistent(r: Resource) {
    r.status == Busy <==> r.slot.Some?
  }

  /** A freshly built resource: free, empty, with the given id. */
  function NewResource(id: int): (r: Resource)
    ensures r.id == id
    ensures r.status == Free && r.slot == None
    ensures Consistent(r)
  {
    Resource(id, None, Free)
  }

  /** Places an entry in the slot and marks the resource busy. The current
      status is not consulted: on a busy resource the held entry is replaced. */
  function Assign(r: Resource, e: Entry): (r': Resource)
    ensures r'.id == r.id
    ensures r'.slot == Some(e) && r'.status == Busy
    ensures Consistent(r')
  {
    r.(slot := Some(e), status := Busy)
  }

  /** Completes the held entry, if there is one: the slot is cleared and the
      resource becomes free. With an empty slot nothing changes. */
  function Remove(r: Resource): (r': Resource)
    ensures r'.id == r.id
    ensures r.slot.Some? ==> r'.slot == None && r'.status == Free
    ensures r.slot.None? ==> r' == r
    ensures Consistent(r) ==> Consistent(r') && r'.status == Free
  {
    if r.slot.Some? then r.(slot := None, status := Free) else r
  }

  /** Removing twice is the same as removing once. */
  lemma RemoveIdempotent(r: Resource)
    ensures Remove(Remove(r)) == Remove(r)
  {
  }

  /** Assigning and then removing gives back a fresh resource with the same id,
      whatever state the resource was in before. */
  lemma RemoveUndoesAssign(r: Resource, e: Entry)
    ensures Remove(Assign(r, e)) == NewResource(r.id)
  {
  }

  /** A second assignment silently overwrites the first. */
  lemma AssignOverwrites(r: Resource, e1: Entry, e2: Entry)
    ensures Assign(Assign(r, e1), e2) == Assign(r, e2)
    ensures e1 != e2 ==> Assign(Assign(r, e1), e2).slot != Some(e1)
  {
  }
}
