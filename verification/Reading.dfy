/** Reading a resource (app/workspace.go): which heads are trusted, and what their merge is. */
module Reading {
  import opened Orders
  import opened Digests
  import opened Dag
  import opened Control
  import opened Chain
  import opened Membership
  import opened Compaction
  import opened Checkpoint
  import opened States
  import opened Merge

  /** What a device judges revisions by: the Control DAG and head it verified, itself, and what it accepted before. */
  datatype Judge = Judge(vs: Controls, head: Digest, self: DeviceId, accepted: StateAcceptance)

  /** Written by a current member, or accepted by this device, itself a member ever since, before its author left. */
  ghost predicate AuthorTrusted(j: Judge, s: State, d: Digest) {
    || AuthorCurrent(j.vs, j.head, s.control, s.author)
    || (d in j.accepted.heads && j.accepted.control.Some? && Unbroken(j.vs, j.head, j.accepted.control.value, j.self))
  }

  ghost predicate Trusted(j: Judge, states: Revisions, floors: seq<Digest>, d: Digest) {
    d in states && Above(RevisionParents(states), floors, d) && AuthorTrusted(j, states[d], d)
  }

  ghost function TrustedSet(j: Judge, states: Revisions, floors: seq<Digest>): set<Digest> {
    set d | d in states.Keys && Trusted(j, states, floors, d)
  }

  /** The heads a read must use: the trusted revisions that are no proper ancestor of another trusted one. */
  ghost function CurrentHeads(j: Judge, states: Revisions, floors: seq<Digest>): set<Digest> {
    MaximalSet(RevisionParents(states), TrustedSet(j, states, floors))
  }

  // ----- who is trusted, by the Controls of the view

  /** A Control at or below `head`, and not at or below `from`, that lacks the device although a parent lists it. */
  ghost predicate RemovedAt(vs: Controls, head: Digest, from: Digest, id: DeviceId, c: Digest, p: Digest) {
    && c in vs && p in vs && p in vs[c].control.parents && Lists(vs[p].control, id) && !Lists(vs[c].control, id)
    && Reach(ParentsOf(vs), head, c) && !Reach(ParentsOf(vs), from, c)
  }

  /** A revision whose author was removed after the member list it names is not trusted, even if the author is a member
      again; nor is one whose author is no member now, or whose member list the head does not descend from. Only this
      device's own earlier acceptance can make an exception. */
  lemma RemovedAuthorIsNotTrusted(j: Judge, states: Revisions, floors: seq<Digest>, d: Digest, c: Digest, p: Digest)
    requires d in states && d !in j.accepted.heads
    requires RemovedAt(j.vs, j.head, states[d].control, states[d].author, c, p)
             || (j.head in j.vs && !Lists(j.vs[j.head].control, states[d].author))
             || !Reach(ParentsOf(j.vs), j.head, states[d].control)
    ensures !Trusted(j, states, floors, d) && d !in CurrentHeads(j, states, floors)
  {
    if RemovedAt(j.vs, j.head, states[d].control, states[d].author, c, p) {
      assert Removes(j.vs, c, states[d].author);
      ReachEnds(ParentsOf(j.vs), j.head, c);
      assert c in Anc(ParentsOf(j.vs), j.head);
    }
  }

  /** A device that was itself removed since it accepted heads carries none of them across its removal. */
  lemma ReturningDeviceCarriesNothing(j: Judge, states: Revisions, floors: seq<Digest>, d: Digest, c: Digest, p: Digest,
                                      c2: Digest, p2: Digest)
    requires d in states && RemovedAt(j.vs, j.head, states[d].control, states[d].author, c, p)
    requires j.accepted.control.Some? && RemovedAt(j.vs, j.head, j.accepted.control.value, j.self, c2, p2)
    ensures !Trusted(j, states, floors, d) && d !in CurrentHeads(j, states, floors)
  {
    assert Removes(j.vs, c, states[d].author) && Removes(j.vs, c2, j.self);
    ReachEnds(ParentsOf(j.vs), j.head, c);
    ReachEnds(ParentsOf(j.vs), j.head, c2);
    assert c in Anc(ParentsOf(j.vs), j.head) && c2 in Anc(ParentsOf(j.vs), j.head);
  }

  /** A revision above all floors is trusted when its author is a member now and was not removed since the member list the
      revision names; or when this device accepted it and was not removed since, whatever became of its author. Then some
      current head is it or descends from it. */
  lemma MembersAreTrusted(j: Judge, states: Revisions, rank: Digest -> nat, floors: seq<Digest>, d: Digest)
    returns (h: Digest)
    requires Ranked(RevisionParents(states), rank)
    requires d in states && forall f :: f in floors ==> Reach(RevisionParents(states), d, f)
    requires || (&& j.head in j.vs && Lists(j.vs[j.head].control, states[d].author)
                 && Reach(ParentsOf(j.vs), j.head, states[d].control)
                 && forall c, p :: !RemovedAt(j.vs, j.head, states[d].control, states[d].author, c, p))
             || (&& d in j.accepted.heads && j.accepted.control.Some?
                 && Reach(ParentsOf(j.vs), j.head, j.accepted.control.value)
                 && forall c, p :: !RemovedAt(j.vs, j.head, j.accepted.control.value, j.self, c, p))
    ensures Trusted(j, states, floors, d)
    ensures h in CurrentHeads(j, states, floors) && Reach(RevisionParents(states), h, d)
  {
    var named := states[d].control;
    if Reach(ParentsOf(j.vs), j.head, named) && forall c, p :: !RemovedAt(j.vs, j.head, named, states[d].author, c, p) {
      NeverRemoved(j.vs, j.head, named, states[d].author);
    }
    if || j.head !in j.vs || !Lists(j.vs[j.head].control, states[d].author) || !Reach(ParentsOf(j.vs), j.head, named)
       || exists c, p :: RemovedAt(j.vs, j.head, named, states[d].author, c, p) {
      NeverRemoved(j.vs, j.head, j.accepted.control.value, j.self);
    }
    h := MaximalAbove(RevisionParents(states), rank, TrustedSet(j, states, floors), d);
  }

  lemma NeverRemoved(vs: Controls, head: Digest, from: Digest, id: DeviceId)
    requires Reach(ParentsOf(vs), head, from) && forall c, p :: !RemovedAt(vs, head, from, id, c, p)
    ensures Unbroken(vs, head, from, id)
  {
    if !Unbroken(vs, head, from, id) {
      var c, p := WhereRemoved(vs, head, from, id);
    }
  }

  lemma WhereRemoved(vs: Controls, head: Digest, from: Digest, id: DeviceId) returns (c: Digest, p: Digest)
    requires Reach(ParentsOf(vs), head, from) && !Unbroken(vs, head, from, id)
    ensures RemovedAt(vs, head, from, id, c, p)
  {
    c :| c in Anc(ParentsOf(vs), head) && c !in Anc(ParentsOf(vs), from) && Removes(vs, c, id);
    p :| p in vs[c].control.parents && p in vs && Lists(vs[p].control, id);
  }

  /** A revision that some floor does not lead up to is set aside, whoever wrote it. */
  lemma BesideFloorIsNotTrusted(j: Judge, states: Revisions, floors: seq<Digest>, d: Digest, f: Digest)
    requires f in floors && !Reach(RevisionParents(states), d, f)
    ensures !Trusted(j, states, floors, d) && d !in CurrentHeads(j, states, floors)
  {
  }

  /** The current heads are the trusted revisions that no other trusted revision descends from. */
  lemma HeadsAreTops(j: Judge, states: Revisions, floors: seq<Digest>, d: Digest)
    ensures d in CurrentHeads(j, states, floors) <==>
              && Trusted(j, states, floors, d)
              && forall e :: Trusted(j, states, floors, e) && e != d ==> !Reach(RevisionParents(states), e, d)
  {
  }

  // ----- the walk that sets untrusted heads aside

  /** The walk meets every head, and below an untrusted revision it goes on to the parents. */
  ghost predicate AsideInv(P: Parents, T: set<Digest>, heads: seq<Digest>, seen: set<Digest>, queue: seq<Digest>) {
    && seen <= P.Keys
    && (forall d :: d in queue ==> d in P)
    && (forall h :: h in heads ==> h in seen || h in queue)
    && (forall d, p :: d in seen && d !in T && d in P && p in P[d] && p in P ==> p in seen || p in queue)
  }

  lemma AsideSkip(P: Parents, T: set<Digest>, heads: seq<Digest>, seen: set<Digest>, queue: seq<Digest>)
    requires AsideInv(P, T, heads, seen, queue) && queue != [] && queue[0] in seen
    ensures AsideInv(P, T, heads, seen, queue[1..])
  {
    assert queue == [queue[0]] + queue[1..];
  }

  lemma AsideNext(P: Parents, T: set<Digest>, heads: seq<Digest>, seen: set<Digest>, queue: seq<Digest>,
                  more: seq<Digest>)
    requires AsideInv(P, T, heads, seen, queue) && queue != []
    requires forall p :: p in more ==> p in P
    requires queue[0] !in T ==> forall p :: p in P[queue[0]] && p in P ==> p in more
    ensures AsideInv(P, T, heads, seen + {queue[0]}, queue[1..] + more)
  {
    assert queue == [queue[0]] + queue[1..];
  }

  ghost predicate FoundInv(T: set<Digest>, seen: set<Digest>, found: seq<Digest>) {
    NoDup(found) && forall d :: d in found <==> d in seen && d in T
  }

  lemma FoundNext(T: set<Digest>, seen: set<Digest>, found: seq<Digest>, h: Digest)
    requires FoundInv(T, seen, found) && h !in seen
    ensures h in T ==> FoundInv(T, seen + {h}, found + [h])
    ensures h !in T ==> FoundInv(T, seen + {h}, found)
  {
  }

  /** A finished walk has met every maximal trusted revision. */
  lemma AsideMeetsMaximal(P: Parents, rank: Digest -> nat, T: set<Digest>, heads: seq<Digest>, seen: set<Digest>,
                          t: Digest)
    requires Ranked(P, rank) && AsideInv(P, T, heads, seen, []) && Elements(heads) == HeadSet(P)
    requires T <= P.Keys && MaximalIn(P, T, t)
    ensures t in seen
  {
    var F := seen * T;
    var S := seen + set x, f | f in F && x in P.Keys && Reach(P, f, x) :: x;
    forall d, p | d in S && d in P && p in P[d] && p in P ensures p in S {
      if d in F {
        ReachParent(P, d, p);
      } else if d !in seen {
        var f :| f in F && Reach(P, f, d);
        ReachParent(P, d, p);
        ReachTrans(P, f, d, p);
      }
    }
    HeadsAreMaximal(P, rank);
    var h := MaximalAbove(P, rank, P.Keys, t);
    assert h in Elements(heads);
    ReachInvariant(P, S, h, t);
  }

  /** Dropping revisions some other found one covers leaves exactly the maximal trusted revisions. */
  lemma FoundMaximal(P: Parents, rank: Digest -> nat, T: set<Digest>, F: set<Digest>)
    requires Ranked(P, rank) && F <= T <= P.Keys
    requires forall t :: MaximalIn(P, T, t) ==> t in F
    ensures MaximalSet(P, F) == MaximalSet(P, T)
  {
    forall f | f in MaximalSet(P, F) ensures MaximalIn(P, T, f) {
      forall t | t in T && t != f ensures !Reach(P, t, f) {
        if Reach(P, t, f) {
          var m := MaximalAbove(P, rank, T, t);
          ReachTrans(P, m, t, f);
          if m == f {
            ReachAntisymmetric(P, rank, f, t);
          }
        }
      }
    }
  }


  class Session {
    const view: ControlView
    const head: Digest
    const self: DeviceId

    constructor (v: ControlView, h: Digest, id: DeviceId)
      ensures view == v && head == h && self == id
    {
      view, head, self := v, h, id;
    }

    ghost predicate Valid()
      reads view
    {
      view.Valid() && head in view.verified
    }

    ghost function JudgeWith(accepted: StateAcceptance): Judge {
      Judge(view.verified, head, self, accepted)
    }

    method IsTrusted(sv: StateView, accepted: StateAcceptance, d: Digest) returns (trusted: bool)
      requires Valid() && sv.Valid() && d in sv.states
      modifies view`membership
      ensures Valid() && (trusted <==> d in TrustedSet(JudgeWith(accepted), sv.states, sv.compacted.floors))
    {
      var above := AboveFloors(sv.compacted, sv.graph, d);
      if !above {
        return false;
      }
      var s := sv.states[d];
      trusted := view.AuthorIsCurrent(head, s.control, s.author);
      if !trusted && d in accepted.heads && accepted.control.Some? {
        trusted := view.MembershipUnbroken(head, accepted.control.value, self);
      }
    }

    /** The queue loop: trusted revisions are kept, and the parents of an untrusted one stand in for it. */
    method SetAside(sv: StateView, accepted: StateAcceptance) returns (found: seq<Digest>, ghost seen: set<Digest>)
      requires Valid() && sv.Valid()
      modifies view`membership
      ensures Valid()
      ensures var T := TrustedSet(JudgeWith(accepted), sv.states, sv.compacted.floors);
              AsideInv(RevisionParents(sv.states), T, sv.heads, seen, []) && FoundInv(T, seen, found)
    {
      ghost var P := RevisionParents(sv.states);
      ghost var T := TrustedSet(JudgeWith(accepted), sv.states, sv.compacted.floors);
      found := [];
      var met: set<Digest> := {};
      var queue := sv.heads;
      assert forall h :: h in sv.heads ==> h in Elements(sv.heads);
      while |queue| > 0
        invariant Valid()
        invariant AsideInv(P, T, sv.heads, met, queue)
        invariant FoundInv(T, met, found)
        decreases sv.states.Keys - met, |queue|
      {
        var h := queue[0];
        assert h in queue && h in P;
        if h in met {
          AsideSkip(P, T, sv.heads, met, queue);
          queue := queue[1..];
          continue;
        }
        var trusted := IsTrusted(sv, accepted, h);
        var more: seq<Digest> := [];
        if !trusted {
          more := Present(sv.states, sv.states[h].parents);
        }
        AsideNext(P, T, sv.heads, met, queue, more);
        FoundNext(T, met, found, h);
        met := met + {h};
        if trusted {
          found := found + [h];
        }
        queue := queue[1..] + more;
      }
      assert queue == [];
      seen := met;
    }

    method TrustedHeads(sv: StateView, accepted: StateAcceptance, ghost rank: Digest -> nat) returns (out: seq<Digest>)
      requires Valid() && sv.Valid() && Ranked(RevisionParents(sv.states), rank)
      modifies view`membership
      ensures Valid()
      ensures StrictlySorted(out) && Elements(out) == CurrentHeads(JudgeWith(accepted), sv.states, sv.compacted.floors)
    {
      ghost var P := RevisionParents(sv.states);
      ghost var T := TrustedSet(JudgeWith(accepted), sv.states, sv.compacted.floors);
      ghost var seen;
      var heads;
      heads, seen := SetAside(sv, accepted);
      forall t | MaximalIn(P, T, t) ensures t in Elements(heads) {
        AsideMeetsMaximal(P, rank, T, sv.heads, seen, t);
      }
      FoundMaximal(P, rank, T, Elements(heads));
      out := Uncovered(sv.graph, heads);
      SortedDigests(out);
      out := SortDigests(out);
    }
  }

  /** The parents that are in the view. */
  method Present(states: Revisions, ps: seq<Digest>) returns (out: seq<Digest>)
    ensures forall p :: p in out <==> p in ps && p in states
  {
    out := [];
    for i := 0 to |ps|
      invariant forall p :: p in out <==> p in ps[..i] && p in states
    {
      assert ps[..i + 1] == ps[..i] + [ps[i]];
      if ps[i] in states {
        out := out + [ps[i]];
      }
    }
    assert ps[..|ps|] == ps;
  }

  method Uncovered(g: Graph, heads: seq<Digest>) returns (out: seq<Digest>)
    requires NoDup(heads)
    ensures NoDup(out) && Elements(out) == MaximalSet(g.parents, Elements(heads))
  {
    ghost var P := g.parents;
    out := [];
    for i := 0 to |heads|
      invariant NoDup(out)
      invariant forall h :: h in out <==> exists k :: 0 <= k < i && heads[k] == h && MaximalIn(P, Elements(heads), h)
    {
      var covered := false;
      for k := 0 to |heads|
        invariant !covered
        invariant forall m :: 0 <= m < k && heads[m] != heads[i] ==> !Reach(P, heads[m], heads[i])
      {
        if heads[k] != heads[i] {
          var anc := g.Ancestors(heads[k]);
          if heads[i] in anc {
            covered := true;
            break;
          }
          if Reach(P, heads[k], heads[i]) {
            ReachEnds(P, heads[k], heads[i]);
          }
        }
      }
      assert covered <==> !MaximalIn(P, Elements(heads), heads[i]);
      if !covered {
        out := out + [heads[i]];
      }
    }
  }
}
