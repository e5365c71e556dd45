/** Joining competing Control heads (ResolveFork in pkg/wsp/chain.go, ResolveControlFork in app/members.go): the
    principals and admin rights of all heads are intersected, and the result must pass the rule every reader checks. */
module Forks {
  import opened Orders
  import opened Digests
  import opened Control

  datatype ForkResult = Resolved(control: Control) | NotForked | NotAdmin | Refused

  /** The heads of a forked view. */
  ghost predicate ForkHeads(heads: seq<Verified>, workspace: string) {
    && (forall i, j :: 0 <= i < j < |heads| ==> heads[i].digest < heads[j].digest)
    && (forall i :: 0 <= i < |heads| ==> WellFormed(heads[i].control) && heads[i].control.workspace == workspace)
  }

  ghost predicate ListedByAll(heads: seq<Verified>, id: DeviceId) {
    forall i :: 0 <= i < |heads| ==> Lists(heads[i].control, id)
  }

  ghost predicate AdminOfAll(heads: seq<Verified>, id: DeviceId) {
    forall i :: 0 <= i < |heads| ==> IsAdmin(heads[i].control, id)
  }

  /** Every head gives a device all of them list the same recipient. */
  ghost predicate RecipientsAgree(heads: seq<Verified>) {
    forall id, i, j :: 0 <= i < |heads| && 0 <= j < |heads| && ListedByAll(heads, id) ==>
      PrincipalOf(heads[i].control, id).value.recipient == PrincipalOf(heads[j].control, id).value.recipient
  }

  function At(m: map<DeviceId, Principal>, id: DeviceId): Option<Principal> {
    if id in m then Some(m[id]) else None
  }

  /** A later head's entry overrides an earlier one, but the admin right is never dropped. */
  function Join(earlier: Option<Principal>, later: Option<Principal>): Option<Principal> {
    if later.None? then earlier
    else if earlier.None? then later
    else Some(later.value.(admin := later.value.admin || earlier.value.admin))
  }

  function Combined(heads: seq<Verified>, id: DeviceId): Option<Principal> {
    if heads == [] then None
    else Join(Combined(heads[..|heads| - 1], id), PrincipalOf(heads[|heads| - 1].control, id))
  }

  lemma {:induction false} FindSnoc(ps: seq<Principal>, i: nat, id: DeviceId)
    requires i < |ps|
    ensures Find(ps[..i + 1], id) ==
              if Find(ps[..i], id).Some? then Find(ps[..i], id) else if ps[i].id == id then Some(ps[i]) else None
  {
    if i > 0 {
      FindSnoc(ps[1..], i - 1, id);
      assert ps[..i + 1][1..] == ps[1..][..i] && ps[..i][1..] == ps[1..][..i - 1];
    }
  }

  /** One head's turn in building the union. */
  method MergeInto(before: map<DeviceId, Principal>, ps: seq<Principal>) returns (after: map<DeviceId, Principal>)
    requires SortedById(ps)
    ensures forall id :: At(after, id) == Join(At(before, id), Find(ps, id))
  {
    after := before;
    for i := 0 to |ps|
      invariant forall id :: At(after, id) == Join(At(before, id), Find(ps[..i], id))
    {
      var p := ps[i];
      FindSome(ps[..i], p.id);
      forall id { FindSnoc(ps, i, id); }
      after := after[p.id := Join(At(after, p.id), Some(p)).value];
    }
    assert ps[..|ps|] == ps;
  }

  method Union(heads: seq<Verified>) returns (union: map<DeviceId, Principal>)
    requires forall i :: 0 <= i < |heads| ==> SortedById(heads[i].control.principals)
    ensures forall id :: At(union, id) == Combined(heads, id)
  {
    union := map[];
    for i := 0 to |heads|
      invariant forall id :: At(union, id) == Combined(heads[..i], id)
    {
      assert heads[..i + 1][..i] == heads[..i];
      union := MergeInto(union, heads[i].control.principals);
    }
    assert heads[..|heads|] == heads;
  }

  /** For a device every head lists, the union has the last head's entry, apart from the admin flag. */
  lemma CombinedListedByAll(heads: seq<Verified>, id: DeviceId)
    requires heads != [] && ListedByAll(heads, id)
    ensures Combined(heads, id).Some?
    ensures Combined(heads, id).value.(admin := false) ==
              PrincipalOf(heads[|heads| - 1].control, id).value.(admin := false)
  {
  }

  method Everywhere(heads: seq<Verified>, id: DeviceId) returns (inAll: bool, adminInAll: bool)
    ensures inAll <==> ListedByAll(heads, id)
    ensures adminInAll <==> AdminOfAll(heads, id)
  {
    inAll, adminInAll := true, true;
    for i := 0 to |heads|
      invariant inAll <==> forall k :: 0 <= k < i ==> Lists(heads[k].control, id)
      invariant adminInAll <==> forall k :: 0 <= k < i ==> IsAdmin(heads[k].control, id)
    {
      inAll := inAll && Lists(heads[i].control, id);
      adminInAll := adminInAll && IsAdmin(heads[i].control, id);
    }
  }

  /** The entry a resolution keeps for a device every head lists: the last head's, an admin where every head says so. */
  ghost function Entry(heads: seq<Verified>, id: DeviceId): Principal
    requires heads != [] && ListedByAll(heads, id)
  {
    PrincipalOf(heads[|heads| - 1].control, id).value.(admin := AdminOfAll(heads, id))
  }

  /** What a resolution's principal list must be: those entries, for exactly the devices every head lists, in order. */
  ghost predicate Intersection(heads: seq<Verified>, ps: seq<Principal>)
    requires heads != []
  {
    && SortedById(ps)
    && (forall id :: Find(ps, id).Some? <==> ListedByAll(heads, id))
    && (forall p :: p in ps ==> ListedByAll(heads, p.id) && p == Entry(heads, p.id))
  }

  method KeepCommon(heads: seq<Verified>, union: map<DeviceId, Principal>) returns (kept: map<DeviceId, Principal>)
    requires heads != []
    requires forall id :: At(union, id) == Combined(heads, id)
    ensures forall id :: id in kept <==> ListedByAll(heads, id)
    ensures forall id :: id in kept ==> kept[id] == Entry(heads, id)
  {
    kept := map[];
    var todo := union.Keys;
    while todo != {}
      invariant todo <= union.Keys
      invariant forall id :: id in kept <==> id in union.Keys - todo && ListedByAll(heads, id)
      invariant forall id :: id in kept ==> kept[id] == Entry(heads, id)
      decreases todo
    {
      var id :| id in todo;
      todo := todo - {id};
      var inAll, adminInAll := Everywhere(heads, id);
      if inAll {
        CombinedListedByAll(heads, id);
        assert At(union, id) == Combined(heads, id);
        kept := kept[id := union[id].(admin := adminInAll)];
      }
    }
    forall id | ListedByAll(heads, id) ensures id in union {
      CombinedListedByAll(heads, id);
      assert At(union, id) == Combined(heads, id);
    }
  }

  /** SignControl's canonical form: principals sorted by device id. */
  method Canonical(kept: map<DeviceId, Principal>) returns (ps: seq<Principal>)
    requires forall id :: id in kept ==> kept[id].id == id
    ensures SortedById(ps)
    ensures forall p: Principal :: p in ps <==> p.id in kept && kept[p.id] == p
    ensures forall id :: Find(ps, id).Some? <==> id in kept
  {
    var ids := Collect(kept.Keys);
    assert forall id :: id in ids <==> id in Elements(ids);
    assert forall i :: 0 <= i < |ids| ==> ids[i] in ids;
    ps := seq(|ids|, i requires 0 <= i < |ids| => kept[ids[i]]);
    forall p: Principal | p.id in kept && kept[p.id] == p ensures p in ps {
      var i :| 0 <= i < |ids| && ids[i] == p.id;
      assert ps[i] == p;
    }
    forall id ensures Find(ps, id).Some? <==> id in kept {
      FindSome(ps, id);
      if id in kept {
        assert kept[id] in ps;
      }
    }
  }

  lemma IntersectionFits(heads: seq<Verified>, ps: seq<Principal>, author: DeviceId)
    requires heads != [] && WellFormed(heads[|heads| - 1].control)
    requires Intersection(heads, ps) && AdminOfAll(heads, author)
    ensures 0 < |ps| <= MAX_PRINCIPALS
    ensures forall p :: p in ps ==> p.id == p.signing.device
    ensures exists p :: p in ps && p.admin
  {
    var last := heads[|heads| - 1].control;
    forall p | p in ps ensures p.id == p.signing.device {
      FindSome(last.principals, p.id);
    }
    assert ListedByAll(heads, author);
    FindSome(ps, author);
    assert Find(ps, author).Some?;
    assert Find(ps, author).value == Entry(heads, author);
    forall p | p in ps ensures Find(last.principals, p.id).Some? {
      assert Lists(last, p.id);
    }
    IdsFit(ps, last.principals);
  }

  lemma IdsFit(ps: seq<Principal>, qs: seq<Principal>)
    requires SortedById(ps) && forall p :: p in ps ==> Find(qs, p.id).Some?
    ensures |ps| <= |qs|
  {
    var a := set i | 0 <= i < |ps| :: ps[i].id;
    var b := set i | 0 <= i < |qs| :: qs[i].id;
    forall id | id in a ensures id in b {
      var i :| 0 <= i < |ps| && ps[i].id == id;
      FindSome(qs, id);
      var j :| 0 <= j < |qs| && qs[j] == Find(qs, id).value;
    }
    assert b == a + (b - a);
    DistinctIds(ps);
    FewIds(qs);
  }

  lemma {:induction false} DistinctIds(ps: seq<Principal>)
    requires SortedById(ps)
    ensures |set i | 0 <= i < |ps| :: ps[i].id| == |ps|
  {
    if ps != [] {
      var t := ps[..|ps| - 1];
      DistinctIds(t);
      var a, b := set i | 0 <= i < |ps| :: ps[i].id, set i | 0 <= i < |t| :: t[i].id;
      assert a == b + {ps[|ps| - 1].id} && ps[|ps| - 1].id !in b;
    }
  }

  lemma {:induction false} FewIds(qs: seq<Principal>)
    ensures |set i | 0 <= i < |qs| :: qs[i].id| <= |qs|
  {
    if qs != [] {
      var t := qs[..|qs| - 1];
      FewIds(t);
      var a, b := set i | 0 <= i < |qs| :: qs[i].id, set i | 0 <= i < |t| :: t[i].id;
      assert a == b + {qs[|qs| - 1].id};
    }
  }

  /** The joined principal list passes the resolution rule exactly when the heads agree on recipients. */
  lemma ResolutionNeedsAgreement(heads: seq<Verified>, c: Control)
    requires heads != [] && (forall i :: 0 <= i < |heads| ==> WellFormed(heads[i].control))
    requires Intersection(heads, c.principals)
    ensures ResolutionRule(heads, c) <==> RecipientsAgree(heads)
  {
    var last := heads[|heads| - 1];
    assert last in heads;
    if ResolutionRule(heads, c) {
      forall id, i, j | 0 <= i < |heads| && 0 <= j < |heads| && ListedByAll(heads, id)
        ensures PrincipalOf(heads[i].control, id).value.recipient == PrincipalOf(heads[j].control, id).value.recipient
      {
        FindSome(c.principals, id);
        assert Find(c.principals, id).Some?;
        var p := Find(c.principals, id).value;
        assert Inherited(heads, p) && heads[i] in heads && heads[j] in heads;
      }
    }
    if RecipientsAgree(heads) {
      forall p | p in c.principals ensures Inherited(heads, p) {
        KeptIsInherited(heads, c, p);
      }
    }
  }

  lemma KeptIsInherited(heads: seq<Verified>, c: Control, p: Principal)
    requires heads != [] && (forall i :: 0 <= i < |heads| ==> WellFormed(heads[i].control))
    requires Intersection(heads, c.principals) && RecipientsAgree(heads) && p in c.principals
    ensures Inherited(heads, p)
  {
    var last := heads[|heads| - 1];
    assert ListedByAll(heads, p.id) && last in heads;
    forall v | v in heads && Lists(v.control, p.id)
      ensures var was := PrincipalOf(v.control, p.id).value;
              was.signing.device == p.signing.device && was.recipient == p.recipient
    {
      var i :| 0 <= i < |heads| && heads[i] == v;
      FindSome(v.control.principals, p.id);
      FindSome(last.control.principals, p.id);
    }
  }

  /** ResolveFork and the edit it is given: the Control that joins the heads and keeps what all of them list. */
  method BuildJoin(heads: seq<Verified>, workspace: string, author: DeviceId) returns (next: Control)
    requires |heads| > 1 && workspace != "" && ForkHeads(heads, workspace) && AdminOfAll(heads, author)
    ensures Joins(heads, next) && next.author == author && next.workspace == workspace
  {
    var same, names, height := Expected(heads, workspace);
    assert forall p :: p in heads ==> exists i :: 0 <= i < |heads| && heads[i] == p;
    var union := Union(heads);
    var kept := KeepCommon(heads, union);
    EntryIds(heads);
    var ps := Canonical(kept);
    next := Control(workspace, SortDigests(names), (height + 1) % UINT64, ps, author);
  }

  lemma EntryIds(heads: seq<Verified>)
    requires heads != []
    ensures forall id :: ListedByAll(heads, id) ==> Entry(heads, id).id == id
  {
    forall id | ListedByAll(heads, id) ensures Entry(heads, id).id == id {
      FindSome(heads[|heads| - 1].control.principals, id);
    }
  }

  /** What joining the heads builds, before it is signed. */
  ghost predicate Joins(heads: seq<Verified>, next: Control) {
    && |heads| > 1 && ForkHeads(heads, next.workspace) && AdminOfAll(heads, next.author) && next.workspace != ""
    && next.parents == SortDigests(DigestsOf(heads)) && next.height == (MaxHeight(heads) + 1) % UINT64
    && Intersection(heads, next.principals)
  }

  lemma JoinedWellFormed(heads: seq<Verified>, next: Control)
    requires Joins(heads, next)
    ensures WellFormed(next) <==> |heads| <= MAX_PRINCIPALS && MaxHeight(heads) + 1 < UINT64
  {
    HeadNames(heads);
    assert WellFormed(next) <==> |next.parents| <= MAX_PRINCIPALS && next.height != 0 by {
      IntersectionFits(heads, next.principals, next.author);
      WellFormedWhen(next);
    }
    HeightWraps(MaxHeight(heads));
  }

  lemma WellFormedWhen(c: Control)
    requires c.workspace != "" && StrictlySorted(c.parents) && c.parents != []
    requires 0 < |c.principals| <= MAX_PRINCIPALS && SortedById(c.principals)
    requires forall p :: p in c.principals ==> p.id == p.signing.device
    requires exists p :: p in c.principals && p.admin
    ensures WellFormed(c) <==> |c.parents| <= MAX_PRINCIPALS && c.height != 0
  {
  }

  lemma HeightWraps(h: UInt64)
    ensures (h + 1) % UINT64 == 0 <==> h + 1 == UINT64
  {
  }

  lemma JoinedFollows(heads: seq<Verified>, next: Control)
    requires Joins(heads, next)
    ensures FollowRule(heads, next) <==> WellFormed(next) && ResolutionRule(heads, next)
  {
    forall p | p in heads ensures p.control.workspace == next.workspace && IsAdmin(p.control, next.author) {
      var i :| 0 <= i < |heads| && heads[i] == p;
    }
  }

  /** The heads of a view are sorted already, so the names a resolution lists are theirs in order. */
  lemma HeadNames(heads: seq<Verified>)
    requires forall i, j :: 0 <= i < j < |heads| ==> heads[i].digest < heads[j].digest
    ensures var names := SortDigests(DigestsOf(heads)); StrictlySorted(names) && |names| == |heads|
  {
    SortedDigests(DigestsOf(heads));
  }

  lemma WhoIsKept(heads: seq<Verified>, c: Control)
    requires heads != [] && Intersection(heads, c.principals)
    ensures KeepsWhatAllGrant(heads, c)
  {
    forall id
      ensures Lists(c, id) <==> ListedByAll(heads, id)
      ensures IsAdmin(c, id) <==> AdminOfAll(heads, id)
    {
      FindSome(c.principals, id);
      if AdminOfAll(heads, id) {
        assert ListedByAll(heads, id);
      }
    }
  }

  /** The Control lists exactly the devices every head lists, and makes admins of exactly those every head made one. */
  ghost predicate KeepsWhatAllGrant(heads: seq<Verified>, c: Control) {
    && (forall id :: Lists(c, id) <==> ListedByAll(heads, id))
    && (forall id :: IsAdmin(c, id) <==> AdminOfAll(heads, id))
  }

  ghost predicate Joinable(heads: seq<Verified>) {
    RecipientsAgree(heads) && |heads| <= MAX_PRINCIPALS && MaxHeight(heads) + 1 < UINT64
  }

  lemma JoinSucceedsWhen(heads: seq<Verified>, next: Control)
    requires Joins(heads, next)
    ensures FollowRule(heads, next) <==> Joinable(heads)
    ensures FollowRule(heads, next) <==> WellFormed(next) && ResolutionRule(heads, next)
  {
    JoinedWellFormed(heads, next);
    ResolutionNeedsAgreement(heads, next);
    JoinedFollows(heads, next);
  }

  /** The same by the heads themselves instead of their positions. */
  lemma ByMembers(heads: seq<Verified>)
    ensures forall id ::
              && (ListedByAll(heads, id) <==> forall v :: v in heads ==> Lists(v.control, id))
              && (AdminOfAll(heads, id) <==> forall v :: v in heads ==> IsAdmin(v.control, id))
    ensures RecipientsAgree(heads) <==>
              forall id, v, w :: v in heads && w in heads && (forall u :: u in heads ==> Lists(u.control, id)) ==>
                PrincipalOf(v.control, id).value.recipient == PrincipalOf(w.control, id).value.recipient
  {
    forall id
      ensures ListedByAll(heads, id) <==> forall v :: v in heads ==> Lists(v.control, id)
    {
      assert forall i :: 0 <= i < |heads| ==> heads[i] in heads;
    }
    if RecipientsAgree(heads) {
      forall id, v, w | v in heads && w in heads && forall u :: u in heads ==> Lists(u.control, id)
        ensures PrincipalOf(v.control, id).value.recipient == PrincipalOf(w.control, id).value.recipient
      {
        var i :| 0 <= i < |heads| && heads[i] == v;
        var j :| 0 <= j < |heads| && heads[j] == w;
        assert ListedByAll(heads, id);
      }
    } else {
      var id, i, j :| 0 <= i < |heads| && 0 <= j < |heads| && ListedByAll(heads, id) &&
                      PrincipalOf(heads[i].control, id).value.recipient != PrincipalOf(heads[j].control,
                                                                                       id).value.recipient;
      assert heads[i] in heads && heads[j] in heads && forall u :: u in heads ==> Lists(u.control, id);
    }
  }

  /** Joins a forked view on behalf of an admin of every head. It keeps exactly what every head grants, and it succeeds
      exactly when the heads give the devices they all list the same recipients (and the result is not too large). */
  method ResolveControlFork(heads: seq<Verified>, workspace: string, author: DeviceId) returns (r: ForkResult)
    requires workspace != "" && ForkHeads(heads, workspace)
    ensures r.NotForked? <==> |heads| <= 1
    ensures r.NotAdmin? <==> |heads| > 1 && !AdminOfAll(heads, author)
    ensures |heads| > 1 && AdminOfAll(heads, author) ==> (r.Resolved? <==> Joinable(heads))
    ensures r.Resolved? ==>
              FollowRule(heads, r.control) && r.control.author == author && KeepsWhatAllGrant(heads, r.control)
    ensures (exists v :: v in heads && !IsAdmin(v.control, author)) && |heads| > 1 ==> r.NotAdmin?
    ensures r.Resolved? ==> forall id ::
              && (Lists(r.control, id) <==> forall v :: v in heads ==> Lists(v.control, id))
              && (IsAdmin(r.control, id) <==> forall v :: v in heads ==> IsAdmin(v.control, id))
    ensures |heads| > 1 && (forall v :: v in heads ==> IsAdmin(v.control, author)) ==>
              (r.Resolved? <==>
                 && |heads| <= MAX_PRINCIPALS && MaxHeight(heads) + 1 < UINT64
                 && forall id, v, w :: v in heads && w in heads && (forall u :: u in heads ==> Lists(u.control, id)) ==>
                      PrincipalOf(v.control, id).value.recipient == PrincipalOf(w.control, id).value.recipient)
  {
    ByMembers(heads);
    if |heads| <= 1 {
      return NotForked;
    }
    var _, adminInAll := Everywhere(heads, author);
    if !adminInAll {
      return NotAdmin;
    }
    var next := BuildJoin(heads, workspace, author);
    JoinSucceedsWhen(heads, next);
    WhoIsKept(heads, next);
    var valid := Validate(next);
    var resolves := CheckResolution(heads, next);
    r := if valid && resolves then Resolved(next) else Refused;
  }
}
