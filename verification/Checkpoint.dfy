/** The local checkpoint file, in locked steps (pkg/wsp/checkpoint.go). */
module Checkpoint {
  import opened Orders
  import opened Digests
  import opened Dag
  import opened Control
  import opened Chain
  import opened Membership

  /** Accepted heads of a resource and the Control under which this device accepted them. */
  datatype StateAcceptance = StateAcceptance(heads: seq<Digest>, control: Option<Digest>)

  datatype File = File(control: seq<Digest>, states: map<string, StateAcceptance>)

  const EMPTY_FILE := File([], map[])
  const NOTHING_ACCEPTED := StateAcceptance([], None)

  function Accepted(file: File, resource: string): StateAcceptance {
    if resource in file.states then file.states[resource] else NOTHING_ACCEPTED
  }

  /** A view of the Control DAG as a process holds it when it accepts it. */
  datatype Snapshot = Snapshot(genesis: Digest, vs: Controls, heads: seq<Digest>)

  ghost predicate ValidSnapshot(s: Snapshot) {
    && ControlDag(s.genesis, s.vs)
    && StrictlySorted(s.heads) && Elements(s.heads) == HeadSet(ParentsOf(s.vs))
  }

  /** One locked update by some process. */
  datatype Update =
    | AcceptControl(view: Snapshot)
    | AcceptStates(resource: string, shown: set<Digest>, excused: set<Digest>, heads: seq<Digest>, control: Digest)

  /** The update passes its rollback check against the file it finds. */
  predicate Passes(file: File, u: Update) {
    match u
    case AcceptControl(view) => forall d :: d in file.control ==> d in view.vs
    case AcceptStates(resource, shown, excused, _, _) => forall d :: d in Accepted(file, resource).heads ==>
                                                           d in shown || d in excused
  }

  /** The file an update leaves: a rejected one changes nothing. */
  function Apply(file: File, u: Update): File {
    if !Passes(file, u) then file
    else match u
      case AcceptControl(view) => file.(control := view.heads)
      case AcceptStates(resource, _, _, heads, control) =>
        file.(states := file.states[resource := StateAcceptance(SortDigests(heads), Some(control))])
  }

  class Checkpoints {
    var file: File

    constructor ()
      ensures file == EMPTY_FILE
    {
      file := EMPTY_FILE;
    }

    /** missingFrom: the first accepted head the view does not hold. */
    static method MissingFrom(accepted: seq<Digest>, has: set<Digest>) returns (missing: Option<Digest>)
      ensures missing.None? <==> forall d :: d in accepted ==> d in has
      ensures missing.Some? ==> missing.value in accepted && missing.value !in has
    {
      for i := 0 to |accepted|
        invariant forall k :: 0 <= k < i ==> accepted[k] in has
      {
        if accepted[i] !in has {
          return Some(accepted[i]);
        }
      }
      missing := None;
    }

    method AcceptControl(view: ControlView) returns (missing: Option<Digest>)
      requires view.Valid()
      modifies this
      ensures file == Apply(old(file), Update.AcceptControl(Snapshot(view.genesis, view.verified, view.heads)))
      ensures missing.None? <==> forall d :: d in old(file).control ==> d in view.verified
    {
      missing := MissingFrom(file.control, view.verified.Keys);
      if missing.None? && file.control != view.heads {
        file := file.(control := view.heads);
      }
    }

    /** Rejects a view that lacks an accepted head no compaction excuses. Records nothing. */
    method CheckStates(resource: string, g: Graph, excused: set<Digest>) returns (missing: Option<Digest>)
      ensures missing.None? <==> forall d :: d in Accepted(file, resource).heads ==> d in g.parents || d in excused
      ensures missing.Some? ==>
                missing.value in Accepted(file, resource).heads && missing.value !in g.parents &&
                missing.value !in excused
    {
      missing := MissingFrom(Accepted(file, resource).heads, g.parents.Keys + excused);
    }

    method AcceptStates(resource: string, g: Graph, excused: set<Digest>, heads: seq<Digest>, control: Digest)
      returns (missing: Option<Digest>)
      modifies this
      ensures file == Apply(old(file), Update.AcceptStates(resource, g.parents.Keys, excused, heads, control))
      ensures missing.None? <==> forall d :: d in Accepted(old(file), resource).heads ==> d in g.parents || d in excused
    {
      missing := MissingFrom(Accepted(file, resource).heads, g.parents.Keys + excused);
      if missing.Some? {
        return;
      }
      var next := StateAcceptance(SortDigests(heads), Some(control));
      if resource !in file.states || file.states[resource] != next {
        file := file.(states := file.states[resource := next]);
      }
    }
  }

  // ----- any interleaving of processes on one file

  /** The file after the first `n` updates, whichever process made each. */
  function FileAfter(us: seq<Update>, n: nat): File
    requires n <= |us|
  {
    if n == 0 then EMPTY_FILE else Apply(FileAfter(us, n - 1), us[n - 1])
  }

  /** Update `i` accepted a Control view. */
  predicate Accepts(us: seq<Update>, i: nat)
  {
    i < |us| && us[i].AcceptControl? && Passes(FileAfter(us, i), us[i])
  }

  /** Names are digests of content: two views never disagree about a Control both hold. */
  ghost predicate SameContent(a: Controls, b: Controls) {
    forall d :: d in a && d in b ==> a[d] == b[d]
  }

  ghost predicate ValidRun(us: seq<Update>) {
    && (forall i :: 0 <= i < |us| && us[i].AcceptControl? ==> ValidSnapshot(us[i].view))
    && (forall i, j :: 0 <= i < |us| && 0 <= j < |us| && us[i].AcceptControl? && us[j].AcceptControl? ==>
          SameContent(us[i].view.vs, us[j].view.vs))
  }

  /** A view that holds another view's heads holds all of it. */
  lemma HeadsCarryTheView(a: Snapshot, b: Snapshot)
    requires ValidSnapshot(a) && ValidSnapshot(b) && SameContent(a.vs, b.vs)
    requires forall h :: h in a.heads ==> h in b.vs
    ensures a.vs.Keys <= b.vs.Keys && Extends(ParentsOf(a.vs), ParentsOf(b.vs))
  {
    var P := ParentsOf(a.vs);
    assert Closed(P, b.vs.Keys);
    forall d | d in a.vs ensures d in b.vs {
      var h := BelowSomeHead(a.genesis, a.vs, d);
      assert h in Elements(a.heads);
      ReachInvariant(P, b.vs.Keys, h, d);
    }
  }

  /** What the file holds between updates: the heads of the last accepted view, or nothing. */
  lemma {:induction false} FileHoldsLastView(us: seq<Update>, i: nat, n: nat) returns (k: nat)
    requires i < n <= |us| && Accepts(us, i)
    ensures i <= k < n && Accepts(us, k) && FileAfter(us, n).control == us[k].view.heads
    decreases n
  {
    if Accepts(us, n - 1) {
      k := n - 1;
    } else {
      k := FileHoldsLastView(us, i, n - 1);
    }
  }

  /** Update `i` accepted heads of this resource: every head accepted before was shown to it, or excused. */
  predicate AcceptsHeads(us: seq<Update>, i: nat, resource: string) {
    && i < |us| && us[i].AcceptStates? && us[i].resource == resource
    && forall d :: d in Accepted(FileAfter(us, i), resource).heads ==> d in us[i].shown || d in us[i].excused
  }

  /** What the last update that accepted heads of a resource accepted stays in the file, with the Control it was accepted
      under, whatever other resources and member lists are accepted and whatever is rejected meanwhile. */
  lemma {:induction false} LastHeadsStand(us: seq<Update>, resource: string, k: nat, n: nat)
    requires k < n <= |us| && AcceptsHeads(us, k, resource)
    requires forall m :: k < m < n ==> !AcceptsHeads(us, m, resource)
    ensures Accepted(FileAfter(us, n), resource).control == Some(us[k].control)
    ensures forall d :: d in Accepted(FileAfter(us, n), resource).heads <==> d in us[k].heads
    decreases n
  {
    if n == k + 1 {
      SortedDigests(us[k].heads);
    } else {
      LastHeadsStand(us, resource, k, n - 1);
      assert !AcceptsHeads(us, n - 1, resource);
    }
  }

  /** An accepted head that storage later neither shows nor excuses makes the next update of its resource fail, and nothing
      else does. */
  lemma AcceptedHeadsAreMissed(us: seq<Update>, resource: string, k: nat, n: nat)
    requires k < n < |us| && AcceptsHeads(us, k, resource) && us[n].AcceptStates? && us[n].resource == resource
    requires forall m :: k < m < n ==> !AcceptsHeads(us, m, resource)
    ensures AcceptsHeads(us, n, resource) <==> forall d :: d in us[k].heads ==> d in us[n].shown || d in us[n].excused
    ensures !AcceptsHeads(us, n, resource) ==> FileAfter(us, n + 1) == FileAfter(us, n)
  {
    LastHeadsStand(us, resource, k, n);
  }

  lemma SubsetTrans(a: set<Digest>, b: set<Digest>, c: set<Digest>)
    requires a <= b <= c
    ensures a <= c
  {
  }

  lemma NextViewGrows(us: seq<Update>, k: nat, j: nat)
    requires ValidRun(us) && Accepts(us, k) && Accepts(us, j)
    ensures FileAfter(us, j).control == us[k].view.heads ==> us[k].view.vs.Keys <= us[j].view.vs.Keys
  {
    if FileAfter(us, j).control == us[k].view.heads {
      assert SameContent(us[k].view.vs, us[j].view.vs);
      HeadsCarryTheView(us[k].view, us[j].view);
    }
  }

  /** Whatever processes interleave on the file, each accepted Control view contains every view accepted before it. */
  lemma {:induction false} AcceptedViewsOnlyGrow(us: seq<Update>, i: nat, j: nat)
    requires ValidRun(us) && i <= j && Accepts(us, i) && Accepts(us, j)
    ensures us[i].view.vs.Keys <= us[j].view.vs.Keys
    decreases j
  {
    if i < j {
      var k := FileHoldsLastView(us, i, j);
      AcceptedViewsOnlyGrow(us, i, k);
      NextViewGrows(us, k, j);
      SubsetTrans(us[i].view.vs.Keys, us[k].view.vs.Keys, us[j].view.vs.Keys);
    }
  }

  /** The head of an unforked view. */
  ghost predicate Unforked(s: Snapshot) {
    |s.heads| == 1
  }

  lemma UnforkedHeadIsTop(s: Snapshot, d: Digest)
    requires ValidSnapshot(s) && Unforked(s) && d in s.vs
    ensures s.heads[0] in s.vs && Reach(ParentsOf(s.vs), s.heads[0], d)
  {
    var h := BelowSomeHead(s.genesis, s.vs, d);
    assert h in Elements(s.heads);
  }

  /** While views are unforked the accepted head only moves to descendants. */
  lemma HeadOnlyMovesToDescendants(us: seq<Update>, i: nat, j: nat)
    requires ValidRun(us) && i <= j && Accepts(us, i) && Accepts(us, j)
    requires Unforked(us[i].view) && Unforked(us[j].view)
    ensures Reach(ParentsOf(us[j].view.vs), us[j].view.heads[0], us[i].view.heads[0])
  {
    AcceptedViewsOnlyGrow(us, i, j);
    assert us[i].view.heads[0] in Elements(us[i].view.heads);
    UnforkedHeadIsTop(us[j].view, us[i].view.heads[0]);
  }

  /** An author once judged removed after the Control a revision names is never judged current for that revision again,
      even if a later member list has the device back. */
  lemma RemovedAuthorStaysRemoved(us: seq<Update>, i: nat, j: nat, named: Digest, author: DeviceId)
    requires ValidRun(us) && i <= j && Accepts(us, i) && Accepts(us, j)
    requires Unforked(us[i].view) && Unforked(us[j].view)
    requires named in us[i].view.vs && Lists(us[i].view.vs[named].control, author)
    requires !AuthorCurrent(us[i].view.vs, us[i].view.heads[0], named, author)
    ensures !AuthorCurrent(us[j].view.vs, us[j].view.heads[0], named, author)
  {
    var a, b := us[i].view, us[j].view;
    UnforkedHeadIsTop(a, named);
    CurrentIsMemberThroughout(a.genesis, a.vs, a.heads[0], named, author);
    AcceptedViewsOnlyGrow(us, i, j);
    HeadOnlyMovesToDescendants(us, i, j);
    BrokenStaysBroken(a.vs, b.vs, a.heads[0], b.heads[0], named, author);
  }
}
