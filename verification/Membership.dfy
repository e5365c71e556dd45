/** Was a device ever removed? (pkg/wsp/chain.go, pkg/wsp/state.go). */
module Membership {
  import opened Orders
  import opened Digests
  import opened Dag
  import opened Control
  import opened Chain

  /** Control `c` lacks the device while one of its parents lists it. */
  ghost predicate Removes(vs: Controls, c: Digest, id: DeviceId) {
    c in vs && !Lists(vs[c].control, id) &&
    exists p :: p in vs[c].control.parents && p in vs && Lists(vs[p].control, id)
  }

  /** `head` descends from `from`, and no Control that `head` saw and `from` did not removes the device. */
  ghost predicate Unbroken(vs: Controls, head: Digest, from: Digest, id: DeviceId) {
    && Reach(ParentsOf(vs), head, from)
    && forall c :: c in Anc(ParentsOf(vs), head) && c !in Anc(ParentsOf(vs), from) ==> !Removes(vs, c, id)
  }

  /** A device listed by `from` and unbroken up to `head` is listed by every Control on every path between them. */
  lemma {:induction false} UnbrokenListsThroughout(genesis: Digest, vs: Controls, head: Digest, from: Digest,
                                                   id: DeviceId, c: Digest)
    requires ControlDag(genesis, vs) && Unbroken(vs, head, from, id)
    requires from in vs && Lists(vs[from].control, id)
    requires Reach(ParentsOf(vs), head, c) && Reach(ParentsOf(vs), c, from)
    ensures c in vs && Lists(vs[c].control, id)
    decreases Height(vs)(c)
  {
    var P := ParentsOf(vs);
    ControlDagRanked(genesis, vs);
    if c != from {
      var p := ReachFirst(P, c, from);
      ReachParent(P, c, p);
      ReachTrans(P, head, c, p);
      UnbrokenListsThroughout(genesis, vs, head, from, id, p);
      if Reach(P, from, c) {
        ReachAntisymmetric(P, Height(vs), c, from);
      }
      assert c !in Anc(P, from);
      assert !Removes(vs, c, id);
    }
  }

  /** A removal the DAG holds at or below `head` is there for every later head too: a broken membership never mends. */
  lemma BrokenStaysBroken(vs: Controls, later: Controls, head: Digest, newer: Digest, from: Digest, id: DeviceId)
    requires Extends(ParentsOf(vs), ParentsOf(later)) && forall d :: d in vs ==> d in later && later[d] == vs[d]
    requires Complete(vs)
    requires Reach(ParentsOf(vs), head, from) && !Unbroken(vs, head, from, id)
    requires Reach(ParentsOf(later), newer, head)
    ensures !Unbroken(later, newer, from, id)
  {
    var P, P2 := ParentsOf(vs), ParentsOf(later);
    var c :| c in Anc(P, head) && c !in Anc(P, from) && Removes(vs, c, id);
    ReachExtends(P, P2, head, c);
    ReachTrans(P2, newer, head, c);
    assert from in P;
    GrownAncestors(P, P2, from);
    assert Removes(later, c, id);
  }

  /** `reached` says whether the walk from `head` has met `from`; if it has not,
      `from` still waits wherever it was named. */
  ghost predicate Reaching(P: Parents, head: Digest, from: Digest, seen: set<Digest>, waiting: seq<Digest>,
                           reached: bool) {
    && (reached ==> Reach(P, head, from))
    && (forall x :: x in seen && x in P && from in P[x] ==> reached || from in waiting)
    && (head == from ==> reached || from in waiting)
  }

  lemma ReachingStep(P: Parents, head: Digest, from: Digest, seen: set<Digest>, waiting: seq<Digest>, reached: bool,
                     cur: Digest, rest: seq<Digest>)
    requires Reaching(P, head, from, seen, waiting, reached) && cur in P
    requires forall x :: x in waiting <==> x == cur || x in rest
    requires Reach(P, head, cur)
    ensures Reaching(P, head, from, seen, rest, reached || cur == from)
    ensures Reaching(P, head, from, seen + {cur}, rest + P[cur], reached || cur == from)
  {
  }

  lemma ReachingEnd(P: Parents, rank: Digest -> nat, head: Digest, from: Digest, seen: set<Digest>, reached: bool)
    requires Reaching(P, head, from, seen, [], reached) && Ranked(P, rank)
    requires seen == Anc(P, head) - Anc(P, from)
    ensures reached <==> Reach(P, head, from)
  {
    if Reach(P, head, from) && head != from {
      var c := ReachLast(P, head, from);
      ReachParent(P, c, from);
      if Reach(P, from, c) {
        ReachRank(P, rank, from, c);
      }
    }
  }

  /** The first walk: `from` and everything it descends from. */
  method Older(vs: Controls, from: Digest) returns (older: set<Digest>)
    requires Complete(vs) && from in vs
    ensures older == Anc(ParentsOf(vs), from)
  {
    ghost var P := ParentsOf(vs);
    older := {};
    var queue := [from];
    WalkStart(P, from, {});
    while |queue| > 0
      invariant WalkInv(P, from, {}, older, queue)
      invariant older <= vs.Keys && forall x :: x in queue ==> x in vs
      decreases vs.Keys - older, |queue|
    {
      var d, rest := queue[0], queue[1..];
      assert queue == [d] + rest;
      WalkStep(P, from, {}, older, queue, d, rest);
      queue := rest;
      if d in older {
        continue;
      }
      older := older + {d};
      queue := queue + vs[d].control.parents;
    }
    assert queue == [];
    WalkEnd(P, from, {}, older);
  }

  /** Whether this Control removes the device: it lacks it and some parent lists it. */
  method RemovesHere(vs: Controls, d: Digest, id: DeviceId) returns (removes: bool)
    requires Complete(vs) && d in vs
    ensures removes == Removes(vs, d, id)
  {
    if Lists(vs[d].control, id) {
      return false;
    }
    var ps := vs[d].control.parents;
    for i := 0 to |ps|
      invariant forall k :: 0 <= k < i ==> !Lists(vs[ps[k]].control, id)
    {
      if Lists(vs[ps[i]].control, id) {
        return true;
      }
    }
    removes := false;
  }

  ghost predicate RemovedWithin(vs: Controls, S: set<Digest>, id: DeviceId) {
    exists c :: c in S && Removes(vs, c, id)
  }

  /** The second walk: from `head` down to where `from` had already been, looking for a removal. */
  method Search(vs: Controls, ghost rank: Digest -> nat, older: set<Digest>, head: Digest, from: Digest, id: DeviceId)
    returns (removed: bool, reached: bool)
    requires Complete(vs) && head in vs && Ranked(ParentsOf(vs), rank) && older == Anc(ParentsOf(vs), from)
    ensures removed <==> RemovedWithin(vs, Anc(ParentsOf(vs), head) - older, id)
    ensures !removed ==> (reached <==> Reach(ParentsOf(vs), head, from))
  {
    ghost var P := ParentsOf(vs);
    var seen := {};
    removed, reached := false, false;
    var queue := [head];
    WalkStart(P, head, older);
    while |queue| > 0
      invariant WalkInv(P, head, older, seen, queue)
      invariant seen <= vs.Keys && forall x :: x in queue ==> x in vs
      invariant Reaching(P, head, from, seen, queue, reached)
      invariant !RemovedWithin(vs, seen, id)
      decreases vs.Keys - seen, |queue|
    {
      var d, rest := queue[0], queue[1..];
      assert queue == [d] + rest;
      WalkStep(P, head, older, seen, queue, d, rest);
      ReachingStep(P, head, from, seen, queue, reached, d, rest);
      queue := rest;
      if d == from {
        reached := true;
      }
      if d in seen || d in older {
        continue;
      }
      var removes := RemovesHere(vs, d, id);
      if removes {
        assert d in Anc(P, head) - older;
        return true, reached;
      }
      seen := seen + {d};
      queue := queue + vs[d].control.parents;
    }
    assert queue == [];
    AncClosed(P, from);
    WalkEnd(P, head, older, seen);
    ReachingEnd(P, rank, head, from, seen, reached);
  }

  method Walk(genesis: Digest, vs: Controls, head: Digest, from: Digest, id: DeviceId) returns (unbroken: bool)
    requires ControlDag(genesis, vs)
    ensures unbroken == Unbroken(vs, head, from, id)
  {
    if from !in vs || head !in vs {
      return false;
    }
    ControlDagRanked(genesis, vs);
    var older := Older(vs, from);
    var removed, reached := Search(vs, Height(vs), older, head, from, id);
    unbroken := !removed && reached;
  }

  datatype Query = Query(head: Digest, from: Digest, id: DeviceId)

  class ControlView {
    const genesis: Digest
    const verified: Controls
    const heads: seq<Digest>
    var membership: map<Query, bool>

    ghost predicate Valid()
      reads this
    {
      && ControlDag(genesis, verified)
      && StrictlySorted(heads) && Elements(heads) == HeadSet(ParentsOf(verified))
      && forall q :: q in membership ==> membership[q] == Unbroken(verified, q.head, q.from, q.id)
    }

    constructor (g: Digest, vs: Controls, hs: seq<Digest>)
      requires ControlDag(g, vs) && StrictlySorted(hs) && Elements(hs) == HeadSet(ParentsOf(vs))
      ensures Valid() && genesis == g && verified == vs && heads == hs && membership == map[]
    {
      genesis, verified, heads := g, vs, hs;
      membership := map[];
    }

    predicate Forked() {
      |heads| > 1
    }

    /** The memoised answer is always the one a fresh walk gives. */
    method MembershipUnbroken(head: Digest, from: Digest, id: DeviceId) returns (unbroken: bool)
      requires Valid()
      modifies this`membership
      ensures Valid() && unbroken == Unbroken(verified, head, from, id)
    {
      var key := Query(head, from, id);
      if key in membership {
        return membership[key];
      }
      unbroken := Walk(genesis, verified, head, from, id);
      membership := membership[key := unbroken];
    }

    /** Whether the author of a state that names Control `named` may be read as current under `head`. */
    method AuthorIsCurrent(head: Digest, named: Digest, author: DeviceId) returns (current: bool)
      requires Valid() && head in verified
      modifies this`membership
      ensures Valid() && current == AuthorCurrent(verified, head, named, author)
    {
      if !Lists(verified[head].control, author) {
        return false;
      }
      current := MembershipUnbroken(head, named, author);
    }
  }

  ghost predicate AuthorCurrent(vs: Controls, head: Digest, named: Digest, author: DeviceId) {
    head in vs && Lists(vs[head].control, author) && Unbroken(vs, head, named, author)
  }

  /** For an author the named Control lists, being current is having been a member
      all along, on every path up to the head. */
  lemma CurrentIsMemberThroughout(genesis: Digest, vs: Controls, head: Digest, named: Digest, author: DeviceId)
    requires ControlDag(genesis, vs) && head in vs && named in vs && Lists(vs[named].control, author)
    ensures AuthorCurrent(vs, head, named, author) <==> Unbroken(vs, head, named, author)
    ensures AuthorCurrent(vs, head, named, author) ==>
      forall c :: Reach(ParentsOf(vs), head, c) && Reach(ParentsOf(vs), c, named) ==>
        c in vs && Lists(vs[c].control, author)
  {
    if Unbroken(vs, head, named, author) {
      ReachRefl(ParentsOf(vs), head);
      forall c | Reach(ParentsOf(vs), head, c) && Reach(ParentsOf(vs), c, named)
        ensures c in vs && Lists(vs[c].control, author)
      {
        UnbrokenListsThroughout(genesis, vs, head, named, author, c);
      }
    }
  }
}
