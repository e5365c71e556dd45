/** Signed revisions and loading them (pkg/wsp/state.go). */
module States {
  import opened Orders
  import opened Digests
  import opened Dag
  import opened Control
  import opened Chain
  import opened Compaction

  const MAX_PARENTS: nat := 64

  datatype State = State(resource: string, parents: seq<Digest>, control: Digest, author: DeviceId, createdAt: int)

  datatype SignedState = SignedState(name: Digest, state: State, verifies: set<Key>)

  datatype Fetched = Blob(blob: SignedState) | Unavailable | Failure

  type Store = map<Digest, Fetched>

  function Fetch(store: Store, rev: Digest): Fetched {
    if rev in store then store[rev] else Unavailable
  }

  datatype Verdict = Valid | Invalid | NamesHiddenControl

  ghost predicate WellFormedState(s: State) {
    s.resource != "" && |s.parents| <= MAX_PARENTS && StrictlySorted(s.parents)
  }

  /** The checks on the bytes themselves, before the Control they name is looked up. */
  ghost predicate Sound(resource: string, rev: Digest, blob: SignedState) {
    blob.name == rev && WellFormedState(blob.state) && blob.state.resource == resource
  }

  /** Validity is judged by the Control that a revision names, not by the current one: a removed author stays valid here. */
  ghost predicate RevisionRule(vs: Controls, resource: string, rev: Digest, blob: SignedState) {
    && Sound(resource, rev, blob)
    && blob.state.control in vs
    && Lists(vs[blob.state.control].control, blob.state.author)
    && PrincipalOf(vs[blob.state.control].control, blob.state.author).value.signing in blob.verifies
  }

  method ValidateState(s: State) returns (ok: bool)
    ensures ok <==> WellFormedState(s)
  {
    if s.resource == "" || |s.parents| > MAX_PARENTS {
      return false;
    }
    for i := 0 to |s.parents|
      invariant StrictlySorted(s.parents[..i])
    {
      if i > 0 && s.parents[i - 1] >= s.parents[i] {
        return false;
      }
    }
    assert s.parents[..|s.parents|] == s.parents;
    ok := true;
  }

  method VerifyRevision(vs: Controls, resource: string, rev: Digest, blob: SignedState) returns (v: Verdict)
    ensures v.Valid? <==> RevisionRule(vs, resource, rev, blob)
    ensures v.Valid? <==>
              && blob.name == rev && blob.state.resource == resource && WellFormedState(blob.state)
              && blob.state.control in vs
              && exists p :: PrincipalOf(vs[blob.state.control].control, blob.state.author) == Some(p)
                             && p.signing in blob.verifies
    ensures v.NamesHiddenControl? <==> Sound(resource, rev, blob) && blob.state.control !in vs
  {
    var s := blob.state;
    var ok := ValidateState(s);
    if blob.name != rev || !ok || s.resource != resource {
      return Verdict.Invalid;
    }
    if s.control !in vs {
      return Verdict.NamesHiddenControl;
    }
    var author := PrincipalOf(vs[s.control].control, s.author);
    if author.None? || author.value.signing !in blob.verifies {
      return Verdict.Invalid;
    }
    v := Verdict.Valid;
  }

  // ----- loading

  type Revisions = map<Digest, State>

  function RevisionParents(states: Revisions): Parents {
    map d | d in states :: states[d].parents
  }

  /** Every valid revision storage would serve. */
  ghost function ValidRevisions(store: Store, vs: Controls, resource: string): Revisions {
    map d | d in store && store[d].Blob? && RevisionRule(vs, resource, d, store[d].blob) :: store[d].blob.state
  }

  /** The valid revisions a load of these names shows: those some name is, or leads to through valid parents. */
  ghost function ShownRevisions(store: Store, vs: Controls, resource: string, names: seq<Digest>): Revisions {
    LedFrom(ValidRevisions(store, vs, resource), names)
  }

  /** Of these revisions, those that some name is, or leads to through parents. */
  ghost function LedFrom(all: Revisions, names: seq<Digest>): Revisions {
    map d | d in all && d in LedTo(RevisionParents(all), names) :: all[d]
  }

  class StateView {
    var graph: Graph
    var states: Revisions
    var heads: seq<Digest>
    var compacted: Compacted

    ghost predicate Valid()
      reads this, graph
    {
      && graph.parents == RevisionParents(states)
      && StrictlySorted(heads) && Elements(heads) == HeadSet(graph.parents)
    }

    constructor (revisions: Revisions)
      ensures Valid() && fresh(graph) && states == revisions && compacted == NOTHING_COMPACTED
    {
      graph := new Graph.From(RevisionParents(revisions));
      states := revisions;
      heads := [];
      compacted := NOTHING_COMPACTED;
      new;
      heads := graph.Heads();
    }

    /** The gaps in the view that no deletion record accounts for. */
    method MissingParents() returns (out: seq<Digest>)
      ensures forall d :: d in out <==> d in MissingSet(graph.parents) && d !in compacted.removed
    {
      var missing := graph.Missing();
      out := [];
      for i := 0 to |missing|
        invariant forall d :: d in out <==> d in missing[..i] && d !in compacted.removed
      {
        assert missing[..i + 1] == missing[..i] + [missing[i]];
        if missing[i] !in compacted.removed {
          out := out + [missing[i]];
        }
      }
      assert missing[..|missing|] == missing;
      assert forall d :: d in missing <==> d in Elements(missing);
    }
  }

  datatype LoadError = TooMany | StorageFailure | HiddenControl(rev: Digest)

  function Keep(m: Revisions, S: set<Digest>): Revisions {
    map d | d in m && d in S :: m[d]
  }

  lemma KeepAdd(m: Revisions, S: set<Digest>, d: Digest)
    requires d !in S
    ensures d !in m ==> Keep(m, S + {d}) == Keep(m, S)
    ensures d in m ==> Keep(m, S + {d}) == Keep(m, S)[d := m[d]]
  {
  }

  lemma KeepSame(m: Revisions, S: set<Digest>, T: set<Digest>)
    requires S * m.Keys == T
    ensures Keep(m, S) == Keep(m, T)
  {
    assert forall d :: d in m ==> (d in S <==> d in S * m.Keys);
  }

  /** Fetches what storage lists and what the caller names besides, follows parents, and keeps the valid revisions.
      A stale listing only hides revisions nothing shown leads to; a revision that names a Control the verified DAG
      lacks ends the load, since the Control DAG shown is then older than its author's. */
  method LoadStates(store: Store, vs: Controls, resource: string, listed: seq<Digest>, also: seq<Digest>,
                    maxRevisions: nat)
    returns (error: Option<LoadError>, states: Revisions)
    ensures error.None? <==>
              var names := NamesLed(RevisionParents(ValidRevisions(store, vs, resource)), listed + also);
              && |listed| <= maxRevisions && |names| <= maxRevisions
              && forall d :: d in names ==> !Fetch(store, d).Failure? && !HidesControl(store, vs, resource, d)
    ensures error.None? ==> states == ShownRevisions(store, vs, resource, listed + also)
    ensures error.Some? && error.value.HiddenControl? ==>
      var f := Fetch(store, error.value.rev);
      f.Blob? && Sound(resource, error.value.rev, f.blob) && f.blob.state.control !in vs
  {
    if |listed| > maxRevisions {
      return Some(TooMany), map[];
    }
    error, states := LoadNamed(store, vs, resource, listed + also, maxRevisions, ValidRevisions(store, vs, resource));
  }

  /** What is stored under this name is a revision of the resource that names a Control the verified DAG lacks. */
  ghost predicate HidesControl(store: Store, vs: Controls, resource: string, d: Digest) {
    && Fetch(store, d).Blob? && Sound(resource, d, Fetch(store, d).blob)
    && Fetch(store, d).blob.state.control !in vs
  }

  ghost function Ending(store: Store, vs: Controls, resource: string, names: set<Digest>): set<Digest> {
    set d | d in names && (Fetch(store, d).Failure? || HidesControl(store, vs, resource, d))
  }

  /** The loop of that: takes name after name until none waits, too many were tried, or one ends the load. */
  method LoadNamed(store: Store, vs: Controls, resource: string, roots: seq<Digest>, maxRevisions: nat,
                   ghost all: Revisions)
    returns (error: Option<LoadError>, states: Revisions)
    requires all == ValidRevisions(store, vs, resource)
    ensures error.None? <==>
              && |NamesLed(RevisionParents(all), roots)| <= maxRevisions
              && forall d :: d in NamesLed(RevisionParents(all), roots) ==>
                   !Fetch(store, d).Failure? && !HidesControl(store, vs, resource, d)
    ensures error.None? ==> states == LedFrom(all, roots)
    ensures error.Some? && error.value.HiddenControl? ==> HidesControl(store, vs, resource, error.value.rev)
  {
    ghost var names := NamesLed(RevisionParents(all), roots);
    error, states := TryNames(store, vs, resource, roots, maxRevisions, all, names, Ending(store, vs, resource, names));
    NoneEnds(store, vs, resource, names);
    NamedIsLed(all, roots);
  }

  lemma NoneEnds(store: Store, vs: Controls, resource: string, names: set<Digest>)
    ensures Ending(store, vs, resource, names) == {} <==>
              forall d :: d in names ==> !Fetch(store, d).Failure? && !HidesControl(store, vs, resource, d)
  {
    assert forall d :: d in names && (Fetch(store, d).Failure? || HidesControl(store, vs, resource, d)) ==>
             d in Ending(store, vs, resource, names);
  }

  lemma NamedIsLed(all: Revisions, roots: seq<Digest>)
    ensures Keep(all, NamesLed(RevisionParents(all), roots)) == LedFrom(all, roots)
  {
    LedIsNamed(RevisionParents(all), roots);
    KeepSame(all, NamesLed(RevisionParents(all), roots), LedTo(RevisionParents(all), roots));
  }

  method TryNames(store: Store, vs: Controls, resource: string, roots: seq<Digest>, maxRevisions: nat,
                  ghost all: Revisions, ghost names: set<Digest>, ghost bad: set<Digest>)
    returns (error: Option<LoadError>, states: Revisions)
    requires all == ValidRevisions(store, vs, resource) && names == NamesLed(RevisionParents(all), roots)
    requires bad == Ending(store, vs, resource, names)
    ensures error.None? <==> |names| <= maxRevisions && bad == {}
    ensures error.None? ==> states == Keep(all, names)
    ensures error.Some? && error.value.HiddenControl? ==> HidesControl(store, vs, resource, error.value.rev)
  {
    ghost var P := RevisionParents(all);
    error, states := None, map[];
    var tried: set<Digest> := {};
    var queue := roots;
    GatherStart(P, roots, tried, queue);
    while |queue| > 0
      invariant GatherInv(P, LedTo(P, roots), roots, tried, queue) && GatherNames(names, tried, queue)
      invariant states == Keep(all, tried)
      invariant |tried| <= maxRevisions && tried !! bad
      decreases maxRevisions - |tried|, |queue|
    {
      GatherNext(P, LedTo(P, roots), roots, tried, queue);
      GatherName(P, roots, tried, queue);
      var rev := queue[0];
      queue := queue[1..];
      if rev in tried {
        continue;
      }
      if |tried| >= maxRevisions {
        MoreThan(tried, names, rev);
        return Some(TooMany), states;
      }
      KeepAdd(all, tried, rev);
      tried := tried + {rev};
      var fetched := Fetch(store, rev);
      if fetched.Failure? {
        assert rev in bad;
        return Some(StorageFailure), states;
      }
      if fetched.Blob? {
        var v := VerifyRevision(vs, resource, rev, fetched.blob);
        if v.NamesHiddenControl? {
          assert rev in bad;
          return Some(HiddenControl(rev)), states;
        }
        if v.Valid? {
          states := states[rev := fetched.blob.state];
          queue := queue + fetched.blob.state.parents;
        }
      }
    }
    assert queue == [];
    GatheredNames(P, roots, tried);
  }

  /** Fetches what these names lead to among the revisions storage serves. */
  method FetchLed(all: Revisions, names: seq<Digest>) returns (states: Revisions)
    ensures states == LedFrom(all, names)
  {
    ghost var P := RevisionParents(all);
    ghost var led := LedTo(P, names);
    states := map[];
    var tried: set<Digest> := {};
    var queue := names;
    GatherStart(P, names, tried, queue);
    while |queue| > 0
      invariant GatherInv(P, led, names, tried, queue)
      invariant states == Keep(all, tried)
      decreases all.Keys - tried, |queue|
    {
      GatherNext(P, led, names, tried, queue);
      var rev := queue[0];
      queue := queue[1..];
      if rev !in tried {
        KeepAdd(all, tried, rev);
        tried := tried + {rev};
        if rev in all {
          states := states[rev := all[rev]];
          queue := queue + all[rev].parents;
        }
      }
    }
    assert queue == [];
    GatherDone(P, names, tried);
    KeepSame(all, tried, led);
  }
}
