/** Consequences of the pairing a pass performs: who is served, who is not,
    and that no resource stays idle while a project waits unserved. */
module Fairness {
  import opened Wrappers
  import opened Tasks
  import opened Resources
  import opened PriorityQueues
  import opened Scheduling
  import opened Allocation

  /** In a strictly ascending list, the elements below one of the first `m`
      are themselves among the first `m`. */
  lemma PrefixDownClosed(xs: seq<nat>, m: nat, x: nat, y: nat)
    requires forall i, j | 0 <= i < j < |xs| :: xs[i] < xs[j]
    requires m <= |xs| && x in xs[..m] && y in xs && y < x
    ensures y in xs[..m]
  {
    var i :| 0 <= i < m && xs[i] == x;
    var j :| 0 <= j < |xs| && xs[j] == y;
    assert j < m;
    assert xs[..m][j] == y;
  }

  /** In a strictly ascending list, positions and values are in the same
      order. */
  lemma AscendingIndices(xs: seq<nat>, i: nat, j: nat)
    requires forall a, b | 0 <= a < b < |xs| :: xs[a] < xs[b]
    requires i < |xs| && j < |xs|
    ensures xs[i] < xs[j] <==> i < j
  {
  }

  /** Under a pairing, a queue changes exactly when its project is paired. */
  lemma MatchesChangesQueues(s: Scheduler, r: Scheduler, f: seq<nat>, w: seq<nat>)
    requires |f| == |w| && Lists(s, f, w) && Matches(s, r, f, w)
    ensures forall p | 0 <= p < |s.queues| :: r.queues[p] != s.queues[p] <==> p in w
  {
    forall p | 0 <= p < |s.queues| && p in w
      ensures r.queues[p] != s.queues[p]
    {
      var i :| 0 <= i < |w| && w[i] == p;
      assert |r.queues[p]| == |s.queues[p]| - 1;
    }
  }

  /** Under a pairing, a resource changes exactly when it is paired. */
  lemma MatchesChangesResources(s: Scheduler, r: Scheduler, f: seq<nat>, w: seq<nat>)
    requires |f| == |w| && Lists(s, f, w) && Matches(s, r, f, w)
    ensures forall k | 0 <= k < |s.resources| :: r.resources[k] != s.resources[k] <==> k in f
  {
    forall k | 0 <= k < |s.resources| && k in f
      ensures r.resources[k] != s.resources[k]
    {
      var i :| 0 <= i < |f| && f[i] == k;
      assert r.resources[k].status == Busy;
    }
  }

  /** A pass takes one entry from exactly the first `Served(s)` waiting
      projects, in ascending id order, and changes no other queue. */
  lemma PassServesPrefix(s: Scheduler)
    ensures forall p | 0 <= p < |s.queues| ::
              Pass(s).queues[p] != s.queues[p] <==> p in WaitingProjects(s)[..Served(s)]
  {
    PassMatches(s);
    MatchesChangesQueues(s, Pass(s), FreeResources(s)[..Served(s)], WaitingProjects(s)[..Served(s)]);
  }

  /** A pass fills exactly the first `Served(s)` free resources, by ascending
      index, and changes no other resource. */
  lemma PassFillsPrefix(s: Scheduler)
    ensures forall k | 0 <= k < |s.resources| ::
              Pass(s).resources[k] != s.resources[k] <==> k in FreeResources(s)[..Served(s)]
  {
    PassMatches(s);
    MatchesChangesResources(s, Pass(s), FreeResources(s)[..Served(s)], WaitingProjects(s)[..Served(s)]);
  }

  /** Projects are served in ascending id order: when a pass serves project
      `p`, it also serves every waiting project with a smaller id. */
  lemma PassServesLowerIdsFirst(s: Scheduler, p: nat, p': nat)
    requires p < |s.queues| && Pass(s).queues[p] != s.queues[p]
    requires p' < p && |s.queues[p']| > 0
    ensures Pass(s).queues[p'] != s.queues[p']
  {
    PassServesPrefix(s);
    var w := WaitingProjects(s);
    assert p' in w;
    PrefixDownClosed(w, Served(s), p, p');
  }

  /** Resources are filled in ascending index order: when a pass fills
      resource `k`, it also fills every lower-indexed resource that was free. */
  lemma PassFillsLowerIndicesFirst(s: Scheduler, k: nat, k': nat)
    requires k < |s.resources| && Pass(s).resources[k] != s.resources[k]
    requires k' < k && s.resources[k'].status == Free
    ensures Pass(s).resources[k'] != s.resources[k']
  {
    PassFillsPrefix(s);
    var f := FreeResources(s);
    assert k' in f;
    PrefixDownClosed(f, Served(s), k, k');
  }

  /** Under a pairing that covers every free resource, none is left free. */
  lemma MatchesAllFreeTaken(s: Scheduler, r: Scheduler, f: seq<nat>, w: seq<nat>)
    requires |f| == |w| && Lists(s, f, w) && Matches(s, r, f, w)
    requires forall k | 0 <= k < |s.resources| && s.resources[k].status == Free :: k in f
    ensures forall k | 0 <= k < |r.resources| :: r.resources[k].status == Busy
  {
    forall k | 0 <= k < |r.resources|
      ensures r.resources[k].status == Busy
    {
      if k in f {
        var i :| 0 <= i < |f| && f[i] == k;
      }
    }
  }

  /** Under a pairing that covers every waiting project, each of them loses
      an entry. */
  lemma MatchesAllWaitingServed(s: Scheduler, r: Scheduler, f: seq<nat>, w: seq<nat>)
    requires |f| == |w| && Lists(s, f, w) && Matches(s, r, f, w)
    requires forall p | 0 <= p < |s.queues| && |s.queues[p]| > 0 :: p in w
    ensures forall p | 0 <= p < |s.queues| && |s.queues[p]| > 0 :: r.queues[p] != s.queues[p]
  {
    MatchesChangesQueues(s, r, f, w);
  }

  /** If a pass leaves some waiting project unserved, it leaves no resource
      free. */
  lemma PassNoIdleWhileWaiting(s: Scheduler, p: nat)
    requires p < |s.queues| && |s.queues[p]| > 0
    requires Pass(s).queues[p] == s.queues[p]
    ensures forall k | 0 <= k < |Pass(s).resources| :: Pass(s).resources[k].status == Busy
  {
    var f, w, m := FreeResources(s), WaitingProjects(s), Served(s);
    PassMatches(s);
    MatchesChangesQueues(s, Pass(s), f[..m], w[..m]);
    assert p in w && p !in w[..m];
    assert m == |f|;
    assert f[..m] == f;
    MatchesAllFreeTaken(s, Pass(s), f[..m], w[..m]);
  }

  /** If a pass leaves some resource free, it serves every waiting project. */
  lemma PassNoWaitingWhileIdle(s: Scheduler, k: nat)
    requires k < |s.resources| && Pass(s).resources[k].status == Free
    ensures forall p | 0 <= p < |s.queues| && |s.queues[p]| > 0 :: Pass(s).queues[p] != s.queues[p]
  {
    var f, w, m := FreeResources(s), WaitingProjects(s), Served(s);
    PassMatches(s);
    MatchesChangesResources(s, Pass(s), f[..m], w[..m]);
    assert s.resources[k].status == Free;
    assert k in f && k !in f[..m];
    assert w[..m] == w;
    MatchesAllWaitingServed(s, Pass(s), f[..m], w[..m]);
  }

  /** What a pass put into resource `k`, when it changed it: the resource was
      free, and it now holds a minimal-priority entry of the queue of the
      project that owns the entry, which is the i-th waiting project when `k`
      is the i-th free resource. */
  lemma PassAssignment(s: Scheduler, k: nat) returns (i: nat)
    requires WellFormed(s)
    requires k < |s.resources| && Pass(s).resources[k] != s.resources[k]
    ensures i < Served(s) && FreeResources(s)[i] == k
    ensures s.resources[k].status == Free
    ensures Pass(s).resources[k].slot.Some?
    ensures Pass(s).resources[k].slot.value.task.projectId == WaitingProjects(s)[i]
    ensures IsMin(Pass(s).resources[k].slot.value, s.queues[WaitingProjects(s)[i]])
    ensures Pass(s).resources[k].slot.value == ExtractMin(s.queues[WaitingProjects(s)[i]]).entry
    ensures Pass(s).queues[WaitingProjects(s)[i]] == ExtractMin(s.queues[WaitingProjects(s)[i]]).rest
  {
    var f, w, m := FreeResources(s), WaitingProjects(s), Served(s);
    PassMatches(s);
    MatchesChangesResources(s, Pass(s), f[..m], w[..m]);
    i :| 0 <= i < m && f[..m][i] == k;
    var p := w[..m][i];
    var e := ExtractMin(s.queues[p]).entry;
    assert e in s.queues[p];
  }

  /** Round-robin fairness of one pass: every resource it fills was free and
      now runs a minimal-priority task of some project; no project gets two
      resources; and lower-indexed resources go to lower-id projects. */
  lemma PassRoundRobin(s: Scheduler, k1: nat, k2: nat)
    requires WellFormed(s)
    requires k1 < k2 < |s.resources|
    requires Pass(s).resources[k1] != s.resources[k1]
    requires Pass(s).resources[k2] != s.resources[k2]
    ensures Pass(s).resources[k1].slot.Some? && Pass(s).resources[k2].slot.Some?
    ensures Pass(s).resources[k1].slot.value.task.projectId
            < Pass(s).resources[k2].slot.value.task.projectId
  {
    var i1 := PassAssignment(s, k1);
    var i2 := PassAssignment(s, k2);
    AscendingIndices(FreeResources(s), i1, i2);
    AscendingIndices(WaitingProjects(s), i1, i2);
  }

  /** A pass with no waiting project, or with no free resource, changes
      nothing. */
  lemma PassIdle(s: Scheduler)
    requires (forall p | 0 <= p < |s.queues| :: |s.queues[p]| == 0)
          || (forall k | 0 <= k < |s.resources| :: s.resources[k].status == Busy)
    ensures Pass(s) == s
  {
    NothingToServe(s);
    PassMatches(s);
    assert FreeResources(s)[..Served(s)] == [] && WaitingProjects(s)[..Served(s)] == [];
    MatchesNone(s, Pass(s));
  }

  /** With no waiting project or no free resource, nobody is served. */
  lemma NothingToServe(s: Scheduler)
    requires (forall p | 0 <= p < |s.queues| :: |s.queues[p]| == 0)
          || (forall k | 0 <= k < |s.resources| :: s.resources[k].status == Busy)
    ensures Served(s) == 0
  {
    ListHeads(s);
  }

  /** The head of a non-empty free list is free, and the head of a non-empty
      waiting list waits. */
  lemma ListHeads(s: Scheduler)
    ensures |FreeResources(s)| > 0 ==> s.resources[FreeResources(s)[0]].status == Free
    ensures |WaitingProjects(s)| > 0 ==> |s.queues[WaitingProjects(s)[0]]| > 0
  {
  }

  /** The empty pairing is the identity. */
  lemma MatchesNone(s: Scheduler, r: Scheduler)
    requires Lists(s, [], []) && Matches(s, r, [], [])
    ensures r == s
  {
    assert r.resources == s.resources;
    assert r.queues == s.queues;
  }
}
