/** What one allocation pass computes, stated without reference to the order
    of the scan: the waiting projects, taken in ascending id order, are paired
    with the free resources, taken in ascending index order, and each pair
    moves a minimal-priority entry of the project's queue into the resource. */
module Allocation {
  import opened Wrappers
  import opened Tasks
  import opened Resources
  import opened PriorityQueues
  import opened Scheduling

  /** Indices of the free resources at or after `from`, ascending. */
  function FreeFrom(rs: seq<Resource>, from: nat): (f: seq<nat>)
    requires from <= |rs|
    ensures forall i | 0 <= i < |f| :: from <= f[i] < |rs| && rs[f[i]].status == Free
    ensures forall i, j | 0 <= i < j < |f| :: f[i] < f[j]
    ensures forall k {:trigger k in f} | from <= k < |rs| && rs[k].status == Free :: k in f
    decreases |rs| - from
  {
    if from == |rs| then []
    else if rs[from].status == Free then [from] + FreeFrom(rs, from + 1)
    else FreeFrom(rs, from + 1)
  }

  /** Ids of the projects at or after `from` whose queue is non-empty, ascending. */
  function WaitingFrom(qs: seq<Queue>, from: nat): (w: seq<nat>)
    requires from <= |qs|
    ensures forall i | 0 <= i < |w| :: from <= w[i] < |qs| && |qs[w[i]]| > 0
    ensures forall i, j | 0 <= i < j < |w| :: w[i] < w[j]
    ensures forall p {:trigger p in w} | from <= p < |qs| && |qs[p]| > 0 :: p in w
    decreases |qs| - from
  {
    if from == |qs| then []
    else if |qs[from]| > 0 then [from] + WaitingFrom(qs, from + 1)
    else WaitingFrom(qs, from + 1)
  }

  function Min(a: nat, b: nat): nat {
    if a <= b then a else b
  }

  /** `f` lists free resources and `w` waiting projects, both strictly
      ascending. */
  predicate Lists(s: Scheduler, f: seq<nat>, w: seq<nat>) {
    && (forall i | 0 <= i < |f| :: f[i] < |s.resources| && s.resources[f[i]].status == Free)
    && (forall i | 0 <= i < |w| :: w[i] < |s.queues| && |s.queues[w[i]]| > 0)
    && (forall i, j | 0 <= i < j < |f| :: f[i] < f[j])
    && (forall i, j | 0 <= i < j < |w| :: w[i] < w[j])
  }

  /** `r` results from `s` by handing resource `f[i]` to project `w[i]` for
      every i: the resource receives a minimal-priority entry of the project's
      queue, and the queue loses exactly that entry. Every resource not in `f`
      and every queue not in `w` is left as it was. */
  predicate Matches(s: Scheduler, r: Scheduler, f: seq<nat>, w: seq<nat>)
    requires Lists(s, f, w) && |f| == |w|
  {
    && |r.resources| == |s.resources| && |r.queues| == |s.queues|
    && (forall i | 0 <= i < |f| ::
          && r.resources[f[i]] == Assign(s.resources[f[i]], ExtractMin(s.queues[w[i]]).entry)
          && r.queues[w[i]] == ExtractMin(s.queues[w[i]]).rest)
    && (forall k {:trigger r.resources[k]} | 0 <= k < |s.resources| && k !in f :: r.resources[k] == s.resources[k])
    && (forall p {:trigger r.queues[p]} | 0 <= p < |s.queues| && p !in w :: r.queues[p] == s.queues[p])
  }

  /** The free list and the waiting list from `p` on are valid lists, and so
      are their first `m` elements. */
  lemma ListsOfState(s: Scheduler, p: nat, m: nat)
    requires p <= |s.queues|
    requires m <= |FreeFrom(s.resources, 0)| && m <= |WaitingFrom(s.queues, p)|
    ensures Lists(s, FreeFrom(s.resources, 0), WaitingFrom(s.queues, p))
    ensures Lists(s, FreeFrom(s.resources, 0)[..m], WaitingFrom(s.queues, p)[..m])
  {
    ListsPrefix(s, FreeFrom(s.resources, 0), WaitingFrom(s.queues, p), m);
  }

  /** Valid lists stay valid when both are cut to their first `m` elements. */
  lemma ListsPrefix(s: Scheduler, f: seq<nat>, w: seq<nat>, m: nat)
    requires Lists(s, f, w) && m <= |f| && m <= |w|
    ensures Lists(s, f[..m], w[..m])
  {
  }

  /** The scan for a free resource finds the head of the free list. */
  lemma {:induction false} FirstFreeIsHead(rs: seq<Resource>, from: nat)
    requires from <= |rs|
    ensures FreeFrom(rs, from) == [] ==> FirstFreeFrom(rs, from) == None
    ensures FreeFrom(rs, from) != [] ==> FirstFreeFrom(rs, from) == Some(FreeFrom(rs, from)[0])
    decreases |rs| - from
  {
    if from < |rs| && rs[from].status != Free {
      FirstFreeIsHead(rs, from + 1);
    }
  }

  /** The free list depends only on the statuses from `from` on. */
  lemma {:induction false} FreeFromAgree(rs: seq<Resource>, rs': seq<Resource>, from: nat)
    requires from <= |rs| == |rs'|
    requires forall k | from <= k < |rs| :: rs[k].status == rs'[k].status
    ensures FreeFrom(rs, from) == FreeFrom(rs', from)
    decreases |rs| - from
  {
    if from < |rs| {
      FreeFromAgree(rs, rs', from + 1);
    }
  }

  /** The waiting list from `from` on depends only on the queues from `from` on. */
  lemma {:induction false} WaitingFromAgree(qs: seq<Queue>, qs': seq<Queue>, from: nat)
    requires from <= |qs| == |qs'|
    requires forall p | from <= p < |qs| :: qs[p] == qs'[p]
    ensures WaitingFrom(qs, from) == WaitingFrom(qs', from)
    decreases |qs| - from
  {
    if from < |qs| {
      WaitingFromAgree(qs, qs', from + 1);
      assert qs[from] == qs'[from];
    }
  }

  /** Making the first free resource busy drops exactly it from the free list. */
  lemma {:induction false} FreeFromTakeHead(rs: seq<Resource>, from: nat, e: Entry)
    requires from <= |rs|
    requires FreeFrom(rs, from) != []
    ensures FreeFrom(rs[FreeFrom(rs, from)[0] := Assign(rs[FreeFrom(rs, from)[0]], e)], from)
            == FreeFrom(rs, from)[1..]
    decreases |rs| - from
  {
    var k := FreeFrom(rs, from)[0];
    var rs' := rs[k := Assign(rs[k], e)];
    if rs[from].status == Free {
      assert k == from;
      FreeFromAgree(rs, rs', from + 1);
    } else {
      FreeFromTakeHead(rs, from + 1, e);
    }
  }

  /** One project's visit followed by the rest of the pass. */
  lemma PassFromUnfold(s: Scheduler, p: nat)
    requires p < |s.queues|
    ensures PassFrom(s, p) == PassFrom(Visit(s, p), p + 1)
  {
  }

  /** The part of a pass from project `p` on: with `m` the length of the
      shorter of the free list and the waiting list from `p`, the first `m`
      free resources go to the first `m` waiting projects, pairwise. */
  predicate PassFromMatchesSpec(s: Scheduler, p: nat)
    requires p <= |s.queues|
  {
    var f, w := FreeFrom(s.resources, 0), WaitingFrom(s.queues, p);
    var m := Min(|f|, |w|);
    Lists(s, f[..m], w[..m]) && Matches(s, PassFrom(s, p), f[..m], w[..m])
  }

  lemma {:induction false} PassFromMatches(s: Scheduler, p: nat)
    requires p <= |s.queues|
    ensures PassFromMatchesSpec(s, p)
    decreases |s.queues| - p
  {
    if p == |s.queues| {
      NothingLeftMatches(s, p);
    } else if |s.queues[p]| == 0 {
      PassFromMatches(s, p + 1);
      EmptyStepMatches(s, p);
    } else if FreeFrom(s.resources, 0) == [] {
      PassFromMatches(s, p + 1);
      NoFreeStepMatches(s, p);
    } else {
      PassFromMatches(Visit(s, p), p + 1);
      ServedStepMatches(s, p);
    }
  }

  lemma NothingLeftMatches(s: Scheduler, p: nat)
    requires p == |s.queues|
    ensures PassFromMatchesSpec(s, p)
  {
    assert WaitingFrom(s.queues, p) == [];
    assert PassFrom(s, p) == s;
    ListsOfState(s, p, 0);
  }

  /** Step for a project with an empty queue: it is not on the waiting list
      and the visit changes nothing. */
  lemma EmptyStepMatches(s: Scheduler, p: nat)
    requires p < |s.queues| && |s.queues[p]| == 0
    requires PassFromMatchesSpec(s, p + 1)
    ensures PassFromMatchesSpec(s, p)
  {
    assert Visit(s, p) == s;
    PassFromUnfold(s, p);
    assert WaitingFrom(s.queues, p) == WaitingFrom(s.queues, p + 1);
  }

  /** Step for a waiting project when no resource is free: with an empty free
      list nothing is handed out either way. */
  lemma NoFreeStepMatches(s: Scheduler, p: nat)
    requires p < |s.queues| && |s.queues[p]| > 0
    requires FreeFrom(s.resources, 0) == []
    requires PassFromMatchesSpec(s, p + 1)
    ensures PassFromMatchesSpec(s, p)
  {
    FirstFreeIsHead(s.resources, 0);
    assert Visit(s, p) == s;
    PassFromUnfold(s, p);
    var f, w, w' := FreeFrom(s.resources, 0), WaitingFrom(s.queues, p), WaitingFrom(s.queues, p + 1);
    assert f[..0] == [] && w[..0] == [] && w'[..0] == [];
  }

  /** Step for a waiting project when some resource is free: it takes the
      head of the free list, and the rest of the pass pairs the tails. */
  lemma ServedStepMatches(s: Scheduler, p: nat)
    requires p < |s.queues|
    requires |s.queues[p]| > 0
    requires FreeFrom(s.resources, 0) != []
    requires PassFromMatchesSpec(Visit(s, p), p + 1)
    ensures PassFromMatchesSpec(s, p)
  {
    var F, W := FreeFrom(s.resources, 0), WaitingFrom(s.queues, p);
    var m := Min(|F|, |W|);
    var s1 := Visit(s, p);
    ServedStepTail(s, p);
    PassFromUnfold(s, p);
    MatchesCons(s, s1, PassFrom(s1, p + 1), F[..m], W[..m]);
  }

  /** The rest of the pass after serving `p` pairs the tails of the two
      lists. */
  lemma ServedStepTail(s: Scheduler, p: nat)
    requires p < |s.queues|
    requires |s.queues[p]| > 0
    requires FreeFrom(s.resources, 0) != []
    requires PassFromMatchesSpec(Visit(s, p), p + 1)
    ensures var F, W := FreeFrom(s.resources, 0), WaitingFrom(s.queues, p);
            var m := Min(|F|, |W|);
            && 0 < m
            && Lists(s, F[..m], W[..m])
            && FirstStep(s, Visit(s, p), F[..m], W[..m])
            && Lists(Visit(s, p), F[..m][1..], W[..m][1..])
            && Matches(Visit(s, p), PassFrom(Visit(s, p), p + 1), F[..m][1..], W[..m][1..])
  {
    var F, W := FreeFrom(s.resources, 0), WaitingFrom(s.queues, p);
    var m := Min(|F|, |W|);
    var s1 := Visit(s, p);
    ServedStepShape(s, p);
    ListsOfState(s, p, m);
    ServedFirstStep(s, p, F, W, m);
    TailOfPrefix(s1, PassFrom(s1, p + 1), F, W);
  }

  /** If the tails of `F` and `W`, cut to equal length, are matched in `s1`,
      so are the tails of the equal-length prefixes of `F` and `W`. */
  lemma TailOfPrefix(s1: Scheduler, r: Scheduler, F: seq<nat>, W: seq<nat>)
    requires F != [] && W != []
    requires var m1 := Min(|F[1..]|, |W[1..]|);
             Lists(s1, F[1..][..m1], W[1..][..m1]) && Matches(s1, r, F[1..][..m1], W[1..][..m1])
    ensures var m := Min(|F|, |W|);
            Lists(s1, F[..m][1..], W[..m][1..]) && Matches(s1, r, F[..m][1..], W[..m][1..])
  {
    var m := Min(|F|, |W|);
    assert Min(|F[1..]|, |W[1..]|) == m - 1;
    TakeDrop(F, m);
    TakeDrop(W, m);
    MatchesRename(s1, r, F[1..][..m - 1], W[1..][..m - 1], F[..m][1..], W[..m][1..]);
  }

  /** Dropping the head and then keeping `m - 1` elements is keeping `m` and
      then dropping the head. */
  lemma TakeDrop(xs: seq<nat>, m: nat)
    requires 0 < m <= |xs|
    ensures xs[1..][..m - 1] == xs[..m][1..]
  {
  }

  /** The first step of the visit to a served project `p` hands the head of
      the free list to `p`, the head of the waiting list. */
  lemma ServedFirstStep(s: Scheduler, p: nat, F: seq<nat>, W: seq<nat>, m: nat)
    requires p < |s.queues| && |s.queues[p]| > 0
    requires F == FreeFrom(s.resources, 0) && F != []
    requires W == WaitingFrom(s.queues, p) && W != [] && W[0] == p
    requires 0 < m <= |F| && m <= |W|
    requires Visit(s, p).resources == s.resources[F[0] := Assign(s.resources[F[0]], ExtractMin(s.queues[p]).entry)]
    requires Visit(s, p).queues == s.queues[p := ExtractMin(s.queues[p]).rest]
    requires Lists(s, F[..m], W[..m])
    ensures FirstStep(s, Visit(s, p), F[..m], W[..m])
  {
    assert F[..m][0] == F[0] && W[..m][0] == p;
  }

  /** Matching is a property of the lists' contents, whatever expression
      produced them. */
  lemma MatchesRename(s: Scheduler, r: Scheduler, f: seq<nat>, w: seq<nat>, f': seq<nat>, w': seq<nat>)
    requires |f| == |w| && Lists(s, f, w) && Matches(s, r, f, w)
    requires f' == f && w' == w
    ensures Lists(s, f', w') && Matches(s, r, f', w')
  {
  }

  /** After serving project `p`, the free list has lost its head and the
      waiting list from `p + 1` on is the old one without `p`. */
  lemma ServedStepShape(s: Scheduler, p: nat)
    requires p < |s.queues|
    requires |s.queues[p]| > 0
    requires FreeFrom(s.resources, 0) != []
    ensures WaitingFrom(s.queues, p) != [] && WaitingFrom(s.queues, p)[0] == p
    ensures Visit(s, p).resources == s.resources[FreeFrom(s.resources, 0)[0] :=
              Assign(s.resources[FreeFrom(s.resources, 0)[0]], ExtractMin(s.queues[p]).entry)]
    ensures Visit(s, p).queues == s.queues[p := ExtractMin(s.queues[p]).rest]
    ensures FreeFrom(Visit(s, p).resources, 0) == FreeFrom(s.resources, 0)[1..]
    ensures WaitingFrom(Visit(s, p).queues, p + 1) == WaitingFrom(s.queues, p)[1..]
  {
    var f := FreeFrom(s.resources, 0);
    var x := ExtractMin(s.queues[p]);
    FirstFreeIsHead(s.resources, 0);
    var s1 := Visit(s, p);
    assert s1 == Scheduler(s.resources[f[0] := Assign(s.resources[f[0]], x.entry)], s.queues[p := x.rest]);
    FreeFromTakeHead(s.resources, 0, x.entry);
    WaitingFromAgree(s.queues, s1.queues, p + 1);
    assert WaitingFrom(s.queues, p) == [p] + WaitingFrom(s.queues, p + 1);
  }

  /** `s1` is `s` after handing resource `f[0]` to project `w[0]`. */
  predicate FirstStep(s: Scheduler, s1: Scheduler, f: seq<nat>, w: seq<nat>)
    requires f != [] && w != [] && Lists(s, f, w)
  {
    && s1.resources == s.resources[f[0] := Assign(s.resources[f[0]], ExtractMin(s.queues[w[0]]).entry)]
    && s1.queues == s.queues[w[0] := ExtractMin(s.queues[w[0]]).rest]
  }

  /** Pairing the heads of the two lists in a first step and the tails
      afterwards is the same as pairing the lists. */
  lemma MatchesCons(s: Scheduler, s1: Scheduler, r: Scheduler, f: seq<nat>, w: seq<nat>)
    requires f != [] && |f| == |w| && Lists(s, f, w)
    requires FirstStep(s, s1, f, w)
    requires Lists(s1, f[1..], w[1..]) && Matches(s1, r, f[1..], w[1..])
    ensures Matches(s, r, f, w)
  {
    MatchesConsPairs(s, s1, r, f, w);
    MatchesConsResources(s, s1, r, f, w);
    MatchesConsQueues(s, s1, r, f, w);
  }

  lemma MatchesConsPairs(s: Scheduler, s1: Scheduler, r: Scheduler, f: seq<nat>, w: seq<nat>)
    requires f != [] && |f| == |w| && Lists(s, f, w)
    requires FirstStep(s, s1, f, w)
    requires Lists(s1, f[1..], w[1..]) && Matches(s1, r, f[1..], w[1..])
    ensures forall i | 0 <= i < |f| ::
              && r.resources[f[i]] == Assign(s.resources[f[i]], ExtractMin(s.queues[w[i]]).entry)
              && r.queues[w[i]] == ExtractMin(s.queues[w[i]]).rest
  {
    assert f[0] !in f[1..];
    assert w[0] !in w[1..];
    forall i | 0 <= i < |f|
      ensures r.resources[f[i]] == Assign(s.resources[f[i]], ExtractMin(s.queues[w[i]]).entry)
      ensures r.queues[w[i]] == ExtractMin(s.queues[w[i]]).rest
    {
      if i > 0 {
        assert f[1..][i - 1] == f[i] && w[1..][i - 1] == w[i];
      }
    }
  }

  lemma MatchesConsResources(s: Scheduler, s1: Scheduler, r: Scheduler, f: seq<nat>, w: seq<nat>)
    requires f != [] && |f| == |w| && Lists(s, f, w)
    requires FirstStep(s, s1, f, w)
    requires Lists(s1, f[1..], w[1..]) && Matches(s1, r, f[1..], w[1..])
    ensures forall k | 0 <= k < |s.resources| && k !in f :: r.resources[k] == s.resources[k]
  {
    forall k | 0 <= k < |s.resources| && k !in f
      ensures r.resources[k] == s.resources[k]
    {
      assert k != f[0];
    }
  }

  lemma MatchesConsQueues(s: Scheduler, s1: Scheduler, r: Scheduler, f: seq<nat>, w: seq<nat>)
    requires f != [] && |f| == |w| && Lists(s, f, w)
    requires FirstStep(s, s1, f, w)
    requires Lists(s1, f[1..], w[1..]) && Matches(s1, r, f[1..], w[1..])
    ensures forall q | 0 <= q < |s.queues| && q !in w :: r.queues[q] == s.queues[q]
  {
    forall q | 0 <= q < |s.queues| && q !in w
      ensures r.queues[q] == s.queues[q]
    {
      assert q != w[0];
    }
  }

  /** The free resources of a state, by ascending index. */
  function FreeResources(s: Scheduler): seq<nat> {
    FreeFrom(s.resources, 0)
  }

  /** The projects with a non-empty queue, by ascending id. */
  function WaitingProjects(s: Scheduler): seq<nat> {
    WaitingFrom(s.queues, 0)
  }

  /** The number of projects a pass serves: as many as there are free
      resources or waiting projects, whichever is fewer. */
  function Served(s: Scheduler): nat {
    Min(|FreeResources(s)|, |WaitingProjects(s)|)
  }

  /** One pass hands the i-th free resource (ascending index) to the i-th
      waiting project (ascending id), for every i below `Served(s)`. */
  lemma PassMatches(s: Scheduler)
    ensures Lists(s, FreeResources(s)[..Served(s)], WaitingProjects(s)[..Served(s)])
    ensures Matches(s, Pass(s), FreeResources(s)[..Served(s)], WaitingProjects(s)[..Served(s)])
  {
    PassFromMatches(s, 0);
  }
}
