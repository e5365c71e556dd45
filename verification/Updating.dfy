/** Publishing a new member list (UpdateControl and publishChild in pkg/wsp/chain.go). */
module Updating {
  import opened Orders
  import opened Digests
  import opened Dag
  import opened Control
  import opened Chain
  import opened Loading

  /** What this device's writes leave in storage. */
  class ControlStorage {
    var objects: Store
  }

  /** What storage does while the update runs: whether it stores the object, and what it serves to the load that follows. */
  datatype Weather = Weather(stores: bool, served: Store, listed: seq<Digest>)

  datatype UpdateResult =
    | Forked
    | NotAdmin
    | Refused // the change is refused, or the result could never verify
    | NotStored
    | Unsettled // stored, but the load that follows fails or finds another head beside it
    | Settled(v: Verified, head: Digest)

  /** Every load that succeeds unforked has one top, and everything verified is at or below it. */
  lemma OneTop(genesis: Digest, vs: Controls, heads: seq<Digest>, d: Digest)
    requires ControlDag(genesis, vs) && Elements(heads) == HeadSet(ParentsOf(vs)) && |heads| == 1 && d in vs
    ensures Reach(ParentsOf(vs), heads[0], d)
  {
    var h := BelowSomeHead(genesis, vs, d);
    assert h in Elements(heads);
  }

  /** The view that was loaded after publishing. */
  ghost function ViewServed(w: Weather, workspace: string, genesis: Digest): Controls {
    View(StoreObjects(w.served, workspace), Shown(w.served, workspace, genesis, w.listed))
  }

  /** The update is in the verified DAG, below its one head, and so is every other Control. */
  ghost predicate IsSettled(w: Weather, workspace: string, genesis: Digest, update: Digest, head: Digest) {
    var vs := ViewServed(w, workspace, genesis);
    && ControlDag(genesis, vs) && update in vs && HeadSet(ParentsOf(vs)) == {head}
    && forall d :: d in vs ==> Reach(ParentsOf(vs), head, d)
  }

  /** Storage answers the load, which shows the update and has one head. */
  ghost predicate ComesBack(w: Weather, workspace: string, genesis: Digest, update: Digest, maxControls: nat) {
    && Answers(w.served, workspace, genesis, w.listed, maxControls)
    && update in Shown(w.served, workspace, genesis, w.listed)
    && exists h :: HeadSet(ParentsOf(ViewServed(w, workspace, genesis))) == {h}
  }

  lemma AllBelow(genesis: Digest, vs: Controls, heads: seq<Digest>)
    requires ControlDag(genesis, vs) && Elements(heads) == HeadSet(ParentsOf(vs)) && |heads| == 1
    ensures HeadSet(ParentsOf(vs)) == {heads[0]} && forall d :: d in vs ==> Reach(ParentsOf(vs), heads[0], d)
  {
    assert Elements(heads) == {heads[0]};
    forall d | d in vs ensures Reach(ParentsOf(vs), heads[0], d) {
      OneTop(genesis, vs, heads, d);
    }
  }

  lemma OneHead(heads: seq<Digest>)
    requires StrictlySorted(heads)
    ensures (exists h :: Elements(heads) == {h}) <==> |heads| == 1
  {
    if |heads| == 1 {
      assert Elements(heads) == {heads[0]};
    } else if |heads| == 0 {
      assert Elements(heads) == {};
    } else {
      assert heads[0] in Elements(heads) && heads[1] in Elements(heads) && heads[0] < heads[1];
    }
  }

  lemma ComesBackWhen(w: Weather, workspace: string, genesis: Digest, update: Digest, maxControls: nat,
                      heads: seq<Digest>)
    requires Answers(w.served, workspace, genesis, w.listed, maxControls) && StrictlySorted(heads)
    requires Elements(heads) == HeadSet(ParentsOf(ViewServed(w, workspace, genesis)))
    ensures ComesBack(w, workspace, genesis, update, maxControls) <==>
              update in Shown(w.served, workspace, genesis, w.listed) && |heads| == 1
  {
    OneHead(heads);
  }

  /** Loads the DAG again, holding storage to the update. */
  method Reload(workspace: string, genesis: Digest, update: Digest, w: Weather, maxControls: nat)
    returns (head: Option<Digest>)
    requires maxControls > 0
    ensures head.Some? ==> IsSettled(w, workspace, genesis, update, head.value)
    ensures head.Some? <==> ComesBack(w, workspace, genesis, update, maxControls)
  {
    var error, verified, heads := LoadControl(w.served, workspace, genesis, w.listed, [update], maxControls);
    assert update in [update];
    if error.Some? {
      return None;
    }
    ComesBackWhen(w, workspace, genesis, update, maxControls, heads);
    if |heads| != 1 {
      return None;
    }
    AllBelow(genesis, verified, heads);
    head := Some(heads[0]);
  }

  /** Verifies a signed Control against its parents before it becomes public, stores it, and loads the DAG again. */
  method PublishChild(s: ControlStorage, workspace: string, genesis: Digest, parents: seq<Verified>,
                      blob: SignedControl, w: Weather, maxControls: nat)
    returns (r: UpdateResult)
    requires maxControls > 0
    modifies s
    ensures r.Refused? <==> !ChildRule(parents, blob)
    ensures r.NotStored? <==> ChildRule(parents, blob) && !w.stores
    ensures r.Refused? || r.NotStored? || r.Unsettled? || r.Settled?
    ensures r.Settled? <==>
              ChildRule(parents, blob) && w.stores && ComesBack(w, workspace, genesis, blob.name, maxControls)
    ensures s.objects == if r.Unsettled? || r.Settled? then old(s.objects)[blob.name := Blob(blob)] else old(s.objects)
    ensures r.Settled? ==>
              r.v == Verified(blob.control, blob.name) && IsSettled(w, workspace, genesis, blob.name, r.head)
  {
    var v := VerifyChild(parents, blob);
    if v.None? {
      return Refused;
    }
    if !w.stores {
      return NotStored;
    }
    s.objects := s.objects[blob.name := Blob(blob)];
    var head := Reload(workspace, genesis, blob.name, w, maxControls);
    r := if head.None? then Unsettled else Settled(v.value, head.value);
  }

  /** Signing: refused for a Control that is not well formed or names another author; `seal` encodes and signs. */
  method Sign(c: Control, key: Key, seal: Control -> SignedControl) returns (blob: Option<SignedControl>)
    ensures blob.Some? <==> WellFormed(c) && key.device == c.author
    ensures blob.Some? ==> blob.value == seal(c)
  {
    var ok := Validate(c);
    if !ok || key.device != c.author {
      return None;
    }
    blob := Some(seal(c));
  }

  /** The Control an update starts from: the head's member list, one step higher, by this author. */
  function Successor(head: Verified, author: DeviceId): Control {
    head.control.(parents := [head.digest], height := (head.control.height + 1) % UINT64, author := author)
  }

  /** Changes the member list of an unforked view. What is published follows the head by the rules every reader checks,
      and a settled update is below the only head of what is verified afterwards. */
  method UpdateControl(s: ControlStorage, workspace: string, genesis: Digest, heads: seq<Verified>, key: Key,
                       mutate: Control -> Option<Control>, seal: Control -> SignedControl, w: Weather, maxControls: nat)
    returns (r: UpdateResult)
    requires maxControls > 0
    modifies s
    ensures r.Forked? <==> |heads| != 1
    ensures r.NotAdmin? <==> |heads| == 1 && !IsAdmin(heads[0].control, key.device)
    ensures |heads| == 1 && IsAdmin(heads[0].control, key.device) ==>
      var next := mutate(Successor(heads[0], key.device));
      var valid := && next.Some? && WellFormed(next.value) && next.value.author == key.device
                   && ChildRule(heads, seal(next.value));
      && (r.Refused? <==> !valid) && (r.NotStored? <==> valid && !w.stores)
      && (r.Settled? <==> valid && w.stores && ComesBack(w, workspace, genesis, seal(next.value).name, maxControls))
    ensures s.objects == old(s.objects) ||
            (|heads| == 1 && exists blob :: ChildRule(heads, blob) &&
                                              s.objects == old(s.objects)[blob.name := Blob(blob)])
    ensures r.Settled? ==>
              |heads| == 1 && FollowRule(heads, r.v.control) && IsSettled(w, workspace, genesis, r.v.digest, r.head)
    ensures r.Settled? ==>
              exists next :: mutate(Successor(heads[0], key.device)) == Some(next) && next.author == key.device &&
                             r.v.control == seal(next).control
  {
    if |heads| != 1 {
      return Forked;
    }
    if !IsAdmin(heads[0].control, key.device) {
      return NotAdmin;
    }
    var next := mutate(Successor(heads[0], key.device));
    if next.None? {
      return Refused;
    }
    var blob := Sign(next.value, key, seal);
    if blob.None? {
      return Refused;
    }
    r := PublishChild(s, workspace, genesis, heads, blob.value, w, maxControls);
  }

  /** A signed change of the member list alone, by an admin of the head, always follows it (unless the height wraps). */
  lemma SuccessorFollows(head: Verified, author: DeviceId, next: Control)
    requires WellFormed(head.control) && IsAdmin(head.control, author) && head.control.height + 1 < UINT64
    requires next == Successor(head, author).(principals := next.principals)
    requires 0 < |next.principals| <= MAX_PRINCIPALS && WellFormed(next.(parents := [], height := 0))
    ensures FollowRule([head], next)
  {
    var heads := [head];
    var names := DigestsOf(heads);
    SortedDigests(names);
    assert heads[1..] == [] && |names| == 1 && names[0] == head.digest;
    assert SortDigests(names)[0] in SortDigests(names);
    assert SortDigests(names) == [head.digest];
  }
}
