/** Loading the Control DAG (pkg/wsp/chain.go). */
module Loading {
  import opened Orders
  import opened Digests
  import opened Dag
  import opened Control
  import opened Chain

  /** What fetching one name gives: bytes that decode, bytes that do not, nothing usable (absent or
      corrupt), or a failure that ends the load. */
  datatype Fetched = Blob(blob: SignedControl) | Garbage | Unavailable | Failure

  type Store = map<Digest, Fetched>

  function Fetch(store: Store, rev: Digest): Fetched {
    if rev in store then store[rev] else Unavailable
  }

  datatype LoadError = TooLarge | StorageFailure | NoGenesis | BadGenesis | Rollback(missing: Digest)

  /** What was fetched is a well-formed Control of this workspace. */
  ghost predicate Decodes(fetched: Fetched, workspace: string) {
    fetched.Blob? && WellFormed(fetched.blob.control) && fetched.blob.control.workspace == workspace
  }

  /** All the Controls storage would serve, listed or not. */
  ghost function StoreObjects(store: Store, workspace: string): Objects {
    map d | d in store && Decodes(store[d], workspace) :: store[d].blob
  }

  /** The served Controls that are the genesis, or that some listed revision is or
      leads to through parents storage serves. */
  ghost function NamedSet(objs: Objects, genesis: Digest, listed: seq<Digest>): set<Digest> {
    LedTo(ObjectParents(objs), listed + [genesis])
  }

  /** What a load of this listing must end with: the authorized Controls the listing leads to. */
  ghost function Shown(store: Store, workspace: string, genesis: Digest, listed: seq<Digest>): set<Digest> {
    var objs := StoreObjects(store, workspace);
    Authorized(objs, genesis) * NamedSet(objs, genesis, listed)
  }

  function Restrict(m: Objects, S: set<Digest>): Objects {
    map d | d in m && d in S :: m[d]
  }

  lemma RestrictAdd(m: Objects, S: set<Digest>, d: Digest)
    requires d !in S
    ensures |S + {d}| == |S| + 1
    ensures d !in m ==> Restrict(m, S + {d}) == Restrict(m, S)
    ensures d in m ==> Restrict(m, S + {d}) == Restrict(m, S)[d := m[d]]
  {
  }

  lemma RestrictSame(m: Objects, S: set<Digest>, T: set<Digest>)
    requires S * m.Keys == T
    ensures Restrict(m, S) == Restrict(m, T)
  {
    assert forall d :: d in m ==> (d in S <==> d in S * m.Keys);
  }

  lemma FetchStart(objs: Objects, genesis: Digest, listed: seq<Digest>)
    requires genesis in objs && objs[genesis].control.parents == []
    ensures var roots := listed + [genesis];
            GatherInv(ObjectParents(objs), LedTo(ObjectParents(objs), roots), roots, {genesis}, SortDigests(listed))
    ensures var roots := listed + [genesis];
            GatherNames(NamesLed(ObjectParents(objs), roots), {genesis}, SortDigests(listed))
    ensures Closed(ObjectParents(objs), NamedSet(objs, genesis, listed))
    ensures map[genesis := objs[genesis]] == Restrict(objs, {genesis})
  {
    SortedDigests(listed);
    GatherStart(ObjectParents(objs), listed + [genesis], {genesis}, SortDigests(listed));
  }

  /** Every name the load comes across: the genesis, what is listed, and the
      parents of what these lead to, served or not. */
  ghost function Named(store: Store, workspace: string, genesis: Digest, listed: seq<Digest>): set<Digest> {
    NamesLed(ObjectParents(StoreObjects(store, workspace)), listed + [genesis])
  }

  /** First half of the load: after the genesis, fetch the listed revisions and,
      through parents, those the listing left out. */
  method FetchAll(store: Store, workspace: string, genesis: Digest, listed: seq<Digest>, maxControls: nat)
    returns (error: Option<LoadError>, objects: Objects)
    requires maxControls > 0
    requires Decodes(Fetch(store, genesis), workspace) && store[genesis].blob.control.parents == []
    ensures error.None? <==>
              && |Named(store, workspace, genesis, listed)| <= maxControls
              && forall d :: d in Named(store, workspace, genesis, listed) ==> !Fetch(store, d).Failure?
    ensures error.Some? ==> error.value == TooLarge || error.value == StorageFailure
    ensures error == Some(TooLarge) ==> |Named(store, workspace, genesis, listed)| > maxControls
    ensures error == Some(StorageFailure) ==>
              exists d :: d in Named(store, workspace, genesis, listed) && Fetch(store, d).Failure?
    ensures error.None? ==>
      var objs := StoreObjects(store, workspace);
      objects == Restrict(objs, NamedSet(objs, genesis, listed))
  {
    ghost var objs := StoreObjects(store, workspace);
    ghost var roots := listed + [genesis];
    ghost var names := Named(store, workspace, genesis, listed);
    ghost var fails := set d | d in names && Fetch(store, d).Failure?;
    FetchStart(objs, genesis, listed);
    error, objects := FetchLed(store, workspace, genesis, listed, maxControls, objs, names, fails);
    if error.None? {
      LedIsNamed(ObjectParents(objs), roots);
      RestrictSame(objs, names, NamedSet(objs, genesis, listed));
    }
  }

  /** The loop of that: takes name after name until none waits, too many were tried, or one fails. */
  method FetchLed(store: Store, workspace: string, genesis: Digest, listed: seq<Digest>, maxControls: nat,
                  ghost objs: Objects, ghost names: set<Digest>, ghost fails: set<Digest>)
    returns (error: Option<LoadError>, objects: Objects)
    requires maxControls > 0 && objs == StoreObjects(store, workspace)
    requires genesis in objs && objs[genesis].control.parents == [] && store[genesis].Blob?
    requires names == NamesLed(ObjectParents(objs), listed + [genesis])
    requires forall d :: d in fails <==> d in names && Fetch(store, d).Failure?
    ensures error.None? <==> |names| <= maxControls && fails == {}
    ensures error.Some? ==> error.value == TooLarge || error.value == StorageFailure
    ensures error == Some(TooLarge) ==> |names| > maxControls
    ensures error == Some(StorageFailure) ==> fails != {}
    ensures error.None? ==> objects == Restrict(objs, names)
  {
    ghost var P, roots := ObjectParents(objs), listed + [genesis];
    error, objects := None, map[genesis := store[genesis].blob];
    var tried := {genesis};
    var queue := SortDigests(listed);
    FetchStart(objs, genesis, listed);
    while |queue| > 0
      invariant GatherInv(P, LedTo(P, roots), roots, tried, queue) && GatherNames(names, tried, queue)
      invariant objects == Restrict(objs, tried)
      invariant |tried| <= maxControls && tried !! fails
      decreases maxControls - |tried|, |queue|
    {
      GatherNext(P, LedTo(P, roots), roots, tried, queue);
      GatherName(P, roots, tried, queue);
      var rev := queue[0];
      queue := queue[1..];
      if rev in tried {
        continue;
      }
      if |tried| >= maxControls {
        MoreThan(tried, names, rev);
        return Some(TooLarge), objects;
      }
      RestrictAdd(objs, tried, rev);
      tried := tried + {rev};
      var failed, blob := FetchOne(store, workspace, rev);
      if failed {
        assert rev in fails;
        return Some(StorageFailure), objects;
      }
      if blob.Some? {
        queue := queue + blob.value.control.parents;
        objects := objects[rev := blob.value];
      }
    }
    assert queue == [];
    GatheredNames(P, roots, tried);
  }

  /** One fetch. Bytes that are damaged, unavailable, not a Control or another workspace's carry no authority. */
  method FetchOne(store: Store, workspace: string, rev: Digest) returns (failed: bool, blob: Option<SignedControl>)
    ensures failed <==> Fetch(store, rev).Failure?
    ensures !failed ==> (blob.Some? <==> rev in StoreObjects(store, workspace))
    ensures !failed && blob.Some? ==> blob.value == StoreObjects(store, workspace)[rev]
  {
    var fetched := Fetch(store, rev);
    if !fetched.Blob? {
      return fetched.Failure?, None;
    }
    var ok := Validate(fetched.blob.control);
    if !ok || fetched.blob.control.workspace != workspace {
      return false, None;
    }
    return false, Some(fetched.blob);
  }

  ghost function LawfulSet(objs: Objects): set<Digest> {
    set d | d in objs.Keys && Lawful(objs, d)
  }

  /** Between two decisions: what is verified has authority, and what left pending without being verified never will. */
  ghost predicate AcceptInv(objs: Objects, lawful: set<Digest>, authorized: set<Digest>, verified: Controls,
                            pending: Objects) {
    && (forall d :: d in pending ==> d in objs && pending[d] == objs[d] && d !in verified)
    && verified.Keys <= authorized
    && (forall d :: d in verified ==> d in objs && verified[d] == Content(objs, d))
    && objs.Keys - pending.Keys - verified.Keys !! lawful
  }

  lemma AcceptStep(objs: Objects, lawful: set<Digest>, authorized: set<Digest>, verified: Controls, pending: Objects,
                   rev: Digest)
    requires AcceptInv(objs, lawful, authorized, verified, pending) && rev in pending
    ensures rev !in lawful ==> AcceptInv(objs, lawful, authorized, verified, Without(pending, rev))
    ensures rev in authorized ==>
              AcceptInv(objs, lawful, authorized, verified[rev := Content(objs, rev)], Without(pending, rev))
  {
    assert Without(pending, rev).Keys == pending.Keys - {rev};
  }

  lemma AuthorityPasses(objs: Objects, genesis: Digest, S: set<Digest>, rev: Digest)
    requires genesis in objs && S <= Authorized(objs, genesis) && Accepts(objs, S, rev)
    ensures rev in Authorized(objs, genesis)
  {
    AuthorizedIsLeast(objs, genesis);
    assert Accepts(objs, Authorized(objs, genesis), rev);
  }

  function Without(m: Objects, d: Digest): Objects {
    map x | x in m && x != d :: m[x]
  }

  lemma WithoutShrinks(m: Objects, d: Digest)
    requires d in m
    ensures |Without(m, d)| < |m|
  {
    assert Without(m, d).Keys == m.Keys - {d};
  }

  /** Collects the verified parents of a pending Control; it is ready when all are verified and there is one. */
  method ReadyParents(objs: Objects, verified: Controls, rev: Digest) returns (ready: bool, parents: seq<Verified>)
    requires rev in objs && forall d :: d in verified ==> d in objs && verified[d] == Content(objs, d)
    ensures var ps := objs[rev].control.parents;
            ready <==> ps != [] && forall p :: p in ps ==> p in verified
    ensures ready ==> parents == Resolve(objs, objs[rev].control.parents)
  {
    var ps := objs[rev].control.parents;
    parents := [];
    ready := |ps| > 0;
    for i := 0 to |ps|
      invariant |parents| == i && forall k :: 0 <= k < i ==> ps[k] in verified && parents[k] == Content(objs, ps[k])
    {
      if ps[i] !in verified {
        return false, parents;
      }
      parents := parents + [verified[ps[i]]];
    }
  }

  /** One pass over the pending Controls, in whatever order the map yields them. */
  method Sweep(objs: Objects, genesis: Digest, verified0: Controls, pending0: Objects)
    returns (verified: Controls, pending: Objects, progress: bool)
    requires genesis in objs && genesis in verified0
    requires AcceptInv(objs, LawfulSet(objs), Authorized(objs, genesis), verified0, pending0)
    ensures AcceptInv(objs, LawfulSet(objs), Authorized(objs, genesis), verified, pending) && genesis in verified
    ensures progress ==> |pending| < |pending0|
    ensures !progress ==> verified == verified0 && pending == pending0 && forall d :: d in pending ==>
              !Accepts(objs, verified.Keys, d)
  {
    ghost var lawful, authorized := LawfulSet(objs), Authorized(objs, genesis);
    verified, pending, progress := verified0, pending0, false;
    var todo := pending.Keys;
    while todo != {}
      invariant todo <= pending.Keys && genesis in verified
      invariant AcceptInv(objs, lawful, authorized, verified, pending)
      invariant progress ==> |pending| < |pending0|
      invariant !progress ==>
                  verified == verified0 && pending == pending0 && forall d :: d in pending && d !in todo ==>
                    !Accepts(objs, verified.Keys, d)
      decreases todo
    {
      var rev :| rev in todo;
      todo := todo - {rev};
      var ready, parents := ReadyParents(objs, verified, rev);
      if ready {
        AcceptStep(objs, lawful, authorized, verified, pending, rev);
        WithoutShrinks(pending, rev);
        var v := VerifyChild(parents, pending[rev]);
        pending := Without(pending, rev);
        progress := true;
        if v.Some? && v.value.digest == rev {
          AuthorityPasses(objs, genesis, verified.Keys, rev);
          verified := verified[rev := v.value];
        }
      }
    }
  }

  /** Second half of the load: sweeps over the fetched objects, each in an arbitrary order, end at the authorized set. */
  method AcceptAll(objs: Objects, genesis: Digest) returns (verified: Controls)
    requires genesis in objs && objs[genesis].control.parents == []
    ensures verified == View(objs, Authorized(objs, genesis))
  {
    ghost var authorized := Authorized(objs, genesis);
    AuthorizedIsLeast(objs, genesis);
    verified := map[genesis := Content(objs, genesis)];
    var pending := Without(objs, genesis);
    var progress := true;
    while progress
      invariant AcceptInv(objs, LawfulSet(objs), authorized, verified, pending) && genesis in verified
      invariant !progress ==> forall d :: d in pending ==> !Accepts(objs, verified.Keys, d)
      decreases |pending|, progress
    {
      verified, pending, progress := Sweep(objs, genesis, verified, pending);
    }
    forall d | Accepts(objs, verified.Keys, d) ensures d in verified {
      assert d in LawfulSet(objs);
    }
    assert Fixpoint(objs, genesis, verified.Keys);
  }

  lemma ClosedPart(objs: Objects, genesis: Digest, named: set<Digest>)
    requires genesis in objs && genesis in named && Closed(ObjectParents(objs), named)
    ensures Authorized(Restrict(objs, named), genesis) == Authorized(objs, genesis) * named
  {
    PartialView(Restrict(objs, named), objs, genesis);
  }

  lemma NamedPart(objs: Objects, genesis: Digest, roots: seq<Digest>)
    requires genesis in objs && genesis in roots
    ensures var named := LedTo(ObjectParents(objs), roots); var sub := Restrict(objs, named);
            genesis in named && Authorized(sub, genesis) == Authorized(objs, genesis) * named
  {
    var named := LedTo(ObjectParents(objs), roots);
    LedToClosed(ObjectParents(objs), roots);
    ClosedPart(objs, genesis, named);
  }

  lemma SameView(m: Objects, S: set<Digest>, T: set<Digest>)
    requires T <= S
    ensures View(Restrict(m, S), T) == View(m, T)
  {
  }

  /** What the two halves of the load amount to together. */
  lemma ShownIsPartial(store: Store, workspace: string, genesis: Digest, listed: seq<Digest>)
    requires var objs := StoreObjects(store, workspace);
             genesis in objs && GenesisRule(workspace, objs[genesis], genesis)
    ensures var objs := StoreObjects(store, workspace);
            var sub := Restrict(objs, NamedSet(objs, genesis, listed));
            && genesis in sub && sub[genesis] == objs[genesis]
            && View(sub, Authorized(sub, genesis)) == View(objs, Shown(store, workspace, genesis, listed))
            && ControlDag(genesis, View(sub, Authorized(sub, genesis)))
  {
    var objs := StoreObjects(store, workspace);
    var named := NamedSet(objs, genesis, listed);
    NamedPart(objs, genesis, listed + [genesis]);
    AuthorizedDag(Restrict(objs, named), genesis, workspace);
    SameView(objs, named, Shown(store, workspace, genesis, listed));
  }

  /** Whatever outsiders add to storage, to what was absent or damaged there, and to the listing, a load that comes across
      no failure still shows every Control it showed, with the same content, and no other Control with authority. */
  lemma OutsidersStopNoLoad(store: Store, store2: Store, workspace: string, genesis: Digest, listed: seq<Digest>,
                            listed2: seq<Digest>)
    requires genesis in StoreObjects(store, workspace)
    requires forall d :: Fetch(store, d).Blob? ==> Fetch(store2, d) == Fetch(store, d)
    requires var objs, objs2 := StoreObjects(store, workspace), StoreObjects(store2, workspace);
             forall d :: d in objs2 && d !in objs ==> !Accepts(objs2, Authorized(objs, genesis), d)
    requires forall l :: l in listed ==> l in listed2
    ensures Shown(store, workspace, genesis, listed) <= Shown(store2, workspace, genesis, listed2)
    ensures Shown(store2, workspace, genesis, listed2) <= Authorized(StoreObjects(store, workspace), genesis)
    ensures forall d :: d in Shown(store, workspace, genesis, listed) ==> Fetch(store2, d) == Fetch(store, d)
  {
    var objs, objs2 := StoreObjects(store, workspace), StoreObjects(store2, workspace);
    forall d | d in objs ensures d in objs2 && objs2[d] == objs[d] {
      assert Fetch(store, d).Blob? && Fetch(store2, d) == Fetch(store, d);
    }
    OutsidersChangeNothing(objs, objs2, genesis);
    forall d | d in NamedSet(objs, genesis, listed) ensures d in NamedSet(objs2, genesis, listed2) {
      var l :| l in listed + [genesis] && Reach(ObjectParents(objs), l, d);
      ReachExtends(ObjectParents(objs), ObjectParents(objs2), l, d);
      assert l in listed2 + [genesis];
    }
    forall d | d in Shown(store, workspace, genesis, listed) ensures Fetch(store2, d) == Fetch(store, d) {
      assert Fetch(store, d).Blob?;
    }
  }

  /** The first checkpointed head the view lacks. */
  method FirstMissing(cp: seq<Digest>, verified: Controls) returns (missing: Option<Digest>)
    ensures missing.None? <==> forall d :: d in cp ==> d in verified
    ensures missing.Some? ==> missing.value in cp && missing.value !in verified
  {
    for i := 0 to |cp|
      invariant forall k :: 0 <= k < i ==> cp[k] in verified
    {
      if cp[i] !in verified {
        return Some(cp[i]);
      }
    }
    missing := None;
  }

  /** What a load needs of storage, whoever else writes there. */
  ghost predicate Answers(store: Store, workspace: string, genesis: Digest, listed: seq<Digest>, maxControls: nat) {
    && |listed| <= maxControls && |Named(store, workspace, genesis, listed)| <= maxControls
    && Fetch(store, genesis).Blob? && GenesisRule(workspace, store[genesis].blob, genesis)
    && forall d :: d in Named(store, workspace, genesis, listed) ==> !Fetch(store, d).Failure?
  }

  /** The whole load. Its result depends on storage and on what the listing leads to, not on any order. It succeeds exactly
      when the genesis verifies, no name it comes across fails to be answered, there are not too many, and no accepted
      head is lost; names that cannot be fetched or decoded and Controls of other workspaces stop nothing. */
  method LoadControl(store: Store, workspace: string, genesis: Digest, listed: seq<Digest>, cp: seq<Digest>,
                     maxControls: nat)
    returns (error: Option<LoadError>, verified: Controls, heads: seq<Digest>)
    requires maxControls > 0
    ensures error.None? || (error.Some? && error.value.Rollback?) <==>
      && |listed| <= maxControls && |Named(store, workspace, genesis, listed)| <= maxControls
      && Fetch(store, genesis).Blob? && GenesisRule(workspace, store[genesis].blob, genesis)
      && forall d :: d in Named(store, workspace, genesis, listed) ==> !Fetch(store, d).Failure?
    ensures error.None? ==>
      && verified == View(StoreObjects(store, workspace), Shown(store, workspace, genesis, listed))
      && ControlDag(genesis, verified)
      && StrictlySorted(heads) && Elements(heads) == HeadSet(ParentsOf(verified))
      && forall d :: d in cp ==> d in Shown(store, workspace, genesis, listed)
    ensures error.Some? && error.value.Rollback? ==>
      error.value.missing in cp && error.value.missing !in Shown(store, workspace, genesis, listed)
    ensures error == Some(BadGenesis) <==>
      |listed| <= maxControls &&
      (Fetch(store, genesis).Garbage? ||
       (Fetch(store, genesis).Blob? && !GenesisRule(workspace, store[genesis].blob, genesis)))
    ensures error == Some(NoGenesis) <==> |listed| <= maxControls && Fetch(store, genesis).Unavailable?
    ensures error == Some(TooLarge) ==>
      |listed| > maxControls || |Named(store, workspace, genesis, listed)| > maxControls
    ensures error == Some(StorageFailure) ==>
      exists d :: d in Named(store, workspace, genesis, listed) && Fetch(store, d).Failure?
  {
    error, verified, heads := None, map[], [];
    if |listed| > maxControls {
      return Some(TooLarge), verified, heads;
    }
    var first := Fetch(store, genesis);
    assert genesis in Named(store, workspace, genesis, listed);
    if !first.Blob? {
      error := Some(if first.Garbage? then BadGenesis else if first.Failure? then StorageFailure else NoGenesis);
      return;
    }
    var root := VerifyGenesis(workspace, first.blob, genesis);
    if root.None? {
      return Some(BadGenesis), verified, heads;
    }
    var objects;
    error, objects := FetchAll(store, workspace, genesis, listed, maxControls);
    if error.Some? {
      return;
    }
    ShownIsPartial(store, workspace, genesis, listed);
    verified := AcceptAll(objects, genesis);
    var graph := new Graph.From(ParentsOf(verified));
    heads := graph.Heads();
    var missing := FirstMissing(cp, verified);
    if missing.Some? {
      error := Some(Rollback(missing.value));
    }
  }
}
