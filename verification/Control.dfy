/** Member lists and what may follow them (pkg/wsp/control.go). */
module Control {
  import opened Orders
  import opened Digests

  type DeviceId = nat

  /** A public key. Its device id is derived from it; two keys are never assumed to differ in it. */
  datatype Key = Key(device: DeviceId, material: nat)

  datatype Principal = Principal(id: DeviceId, signing: Key, recipient: string, admin: bool)

  const MAX_PRINCIPALS: nat := 1024
  const UINT64: nat := 0x1_0000_0000_0000_0000

  type UInt64 = h: nat | h < UINT64

  datatype Control = Control(
    workspace: string,
    parents: seq<Digest>,
    height: UInt64,
    principals: seq<Principal>,
    author: DeviceId)

  /** A Control that follows the rules, paired with its name. */
  datatype Verified = Verified(control: Control, digest: Digest)

  /** Stored bytes that decode: their own digest, the Control in them, and the keys their signature verifies under. */
  datatype SignedControl = SignedControl(name: Digest, control: Control, verifies: set<Key>)

  /** The first principal with this id. */
  function Find(ps: seq<Principal>, id: DeviceId): Option<Principal> {
    if ps == [] then None else if ps[0].id == id then Some(ps[0]) else Find(ps[1..], id)
  }

  function PrincipalOf(c: Control, id: DeviceId): Option<Principal> {
    Find(c.principals, id)
  }

  predicate Lists(c: Control, id: DeviceId) {
    PrincipalOf(c, id).Some?
  }

  predicate IsAdmin(c: Control, id: DeviceId) {
    Lists(c, id) && PrincipalOf(c, id).value.admin
  }

  ghost predicate SortedById(ps: seq<Principal>) {
    forall i, j :: 0 <= i < j < |ps| ==> ps[i].id < ps[j].id
  }

  /** A Control that passes Validate. */
  ghost predicate WellFormed(c: Control) {
    && c.workspace != ""
    && (c.parents == [] <==> c.height == 0)
    && |c.parents| <= MAX_PRINCIPALS
    && StrictlySorted(c.parents)
    && 0 < |c.principals| <= MAX_PRINCIPALS
    && SortedById(c.principals)
    && (forall p :: p in c.principals ==> p.id == p.signing.device)
    && (exists p :: p in c.principals && p.admin)
  }

  lemma {:induction false} FindSome(ps: seq<Principal>, id: DeviceId)
    ensures Find(ps, id).Some? ==> Find(ps, id).value in ps && Find(ps, id).value.id == id
    ensures Find(ps, id).None? <==> forall p :: p in ps ==> p.id != id
  {
    if ps != [] {
      FindSome(ps[1..], id);
      assert forall p :: p in ps <==> p == ps[0] || p in ps[1..];
    }
  }

  method Validate(c: Control) returns (ok: bool)
    ensures ok <==> WellFormed(c)
    ensures ok <==>
              && c.workspace != "" && (c.parents == [] <==> c.height == 0)
              && |c.parents| <= 1024 && (forall i, j :: 0 <= i < j < |c.parents| ==> c.parents[i] < c.parents[j])
              && 0 < |c.principals| <= 1024 && (exists p :: p in c.principals && p.admin)
              && (forall i, j :: 0 <= i < j < |c.principals| ==> c.principals[i].id < c.principals[j].id)
              && forall p :: p in c.principals ==> p.signing.device == p.id
  {
    ok := CheckShape(c);
  }

  /** The checks one by one. */
  method CheckShape(c: Control) returns (ok: bool)
    ensures ok <==> WellFormed(c)
  {
    if c.workspace == "" {
      return false;
    }
    if |c.parents| == 0 {
      if c.height != 0 { return false; }
    } else if c.height == 0 {
      return false;
    }
    if |c.parents| > MAX_PRINCIPALS {
      return false;
    }
    for i := 0 to |c.parents|
      invariant StrictlySorted(c.parents[..i])
    {
      if i > 0 && c.parents[i - 1] >= c.parents[i] {
        return false;
      }
    }
    assert c.parents[..|c.parents|] == c.parents;
    var n := |c.principals|;
    if n == 0 || n > MAX_PRINCIPALS {
      return false;
    }
    var admins := 0;
    for i := 0 to n
      invariant SortedById(c.principals[..i])
      invariant forall j :: 0 <= j < i ==> c.principals[j].id == c.principals[j].signing.device
      invariant admins > 0 <==> exists j :: 0 <= j < i && c.principals[j].admin
      invariant admins >= 0
    {
      var p := c.principals[i];
      if i > 0 && c.principals[i - 1].id >= p.id {
        return false;
      }
      if p.id != p.signing.device {
        return false;
      }
      if p.admin {
        admins := admins + 1;
      }
    }
    assert c.principals[..n] == c.principals;
    ok := admins != 0;
  }

  // ----- following a parent

  function DigestsOf(parents: seq<Verified>): (ds: seq<Digest>)
    ensures |ds| == |parents| && forall i :: 0 <= i < |ds| ==> ds[i] == parents[i].digest
  {
    seq(|parents|, i requires 0 <= i < |parents| => parents[i].digest)
  }

  /** The greatest height of a parent; 0 without parents. */
  function MaxHeight(parents: seq<Verified>): (h: UInt64) {
    if parents == [] then 0
    else
      var rest := MaxHeight(parents[..|parents| - 1]);
      var last := parents[|parents| - 1].control.height;
      if last > rest then last else rest
  }

  lemma {:induction false} MaxHeightBounds(parents: seq<Verified>)
    ensures forall i :: 0 <= i < |parents| ==> parents[i].control.height <= MaxHeight(parents)
  {
    if parents != [] {
      MaxHeightBounds(parents[..|parents| - 1]);
    }
  }

  lemma MaxHeightSnoc(parents: seq<Verified>, i: nat)
    requires i < |parents|
    ensures var h := MaxHeight(parents[..i]); var last := parents[i].control.height;
            MaxHeight(parents[..i + 1]) == if last > h then last else h
  {
    var s := parents[..i + 1];
    assert s[..|s| - 1] == parents[..i] && s[|s| - 1] == parents[i];
  }

  /** A principal of a fork resolution is one some parent lists, unchanged, and an admin only if some parent made it one. */
  ghost predicate Inherited(parents: seq<Verified>, p: Principal) {
    && (exists v :: v in parents && Lists(v.control, p.id))
    && (forall v :: v in parents && Lists(v.control, p.id) ==>
          var was := PrincipalOf(v.control, p.id).value;
          was.signing.device == p.signing.device && was.recipient == p.recipient)
    && (p.admin ==> exists v :: v in parents && IsAdmin(v.control, p.id))
  }

  ghost predicate ResolutionRule(parents: seq<Verified>, c: Control) {
    forall p :: p in c.principals ==> Inherited(parents, p)
  }

  /** When a Control may follow these verified parents, signature aside. Heights are 64-bit and wrap around. */
  ghost predicate FollowRule(parents: seq<Verified>, c: Control) {
    && parents != []
    && WellFormed(c)
    && (forall p :: p in parents ==> p.control.workspace == c.workspace)
    && c.parents == SortDigests(DigestsOf(parents))
    && c.height == (MaxHeight(parents) + 1) % UINT64
    && (forall p :: p in parents ==> IsAdmin(p.control, c.author))
    && (|parents| > 1 ==> ResolutionRule(parents, c))
  }

  /** When a signed Control may follow these verified parents: the signature is by the key
      of its author, an admin of all of them. */
  ghost predicate ChildRule(parents: seq<Verified>, blob: SignedControl) {
    && FollowRule(parents, blob.control)
    && PrincipalOf(parents[|parents| - 1].control, blob.control.author).value.signing in blob.verifies
  }

  /** When a signed Control is the trusted genesis of a workspace. */
  ghost predicate GenesisRule(workspace: string, blob: SignedControl, trusted: Digest) {
    && blob.name == trusted
    && var c := blob.control;
    && WellFormed(c)
    && c.parents == [] && c.workspace == workspace
    && IsAdmin(c, c.author)
    && PrincipalOf(c, c.author).value.signing in blob.verifies
  }

  method VerifyGenesis(workspace: string, blob: SignedControl, trusted: Digest) returns (r: Option<Verified>)
    ensures r.Some? <==> GenesisRule(workspace, blob, trusted)
    ensures r.Some? ==> r.value == Verified(blob.control, trusted)
    ensures r.Some? <==>
              && blob.name == trusted && WellFormed(blob.control)
              && blob.control.parents == [] && blob.control.workspace == workspace
              && exists key :: PrincipalOf(blob.control, blob.control.author) == Some(key) && key.admin
                               && key.signing in blob.verifies
  {
    if blob.name != trusted {
      return None;
    }
    var c := blob.control;
    var ok := Validate(c);
    if !ok || |c.parents| != 0 || c.workspace != workspace {
      return None;
    }
    if !IsAdmin(c, c.author) || PrincipalOf(c, c.author).value.signing !in blob.verifies {
      return None;
    }
    r := Some(Verified(c, trusted));
  }

  method CheckResolution(parents: seq<Verified>, c: Control) returns (ok: bool)
    ensures ok <==> ResolutionRule(parents, c)
  {
    for i := 0 to |c.principals|
      invariant forall k :: 0 <= k < i ==> Inherited(parents, c.principals[k])
    {
      var p := c.principals[i];
      var listed, wasAdmin := false, false;
      for j := 0 to |parents|
        invariant listed <==> exists k :: 0 <= k < j && Lists(parents[k].control, p.id)
        invariant wasAdmin <==> exists k :: 0 <= k < j && IsAdmin(parents[k].control, p.id)
        invariant forall k :: 0 <= k < j && Lists(parents[k].control, p.id) ==>
          var was := PrincipalOf(parents[k].control, p.id).value;
          was.signing.device == p.signing.device && was.recipient == p.recipient
      {
        var was := PrincipalOf(parents[j].control, p.id);
        if was.Some? {
          if was.value.signing.device != p.signing.device || was.value.recipient != p.recipient {
            assert parents[j] in parents && Lists(parents[j].control, p.id);
            assert !Inherited(parents, p);
            return false;
          }
          listed := true;
          wasAdmin := wasAdmin || was.value.admin;
        }
      }
      if !listed {
        assert !Inherited(parents, p);
        return false;
      }
      if p.admin && !wasAdmin {
        assert !Inherited(parents, p);
        return false;
      }
    }
    ok := true;
  }

  /** First loop of VerifyChild: the digests a child must name and the height it must follow. */
  method Expected(parents: seq<Verified>, workspace: string) returns (same: bool, want: seq<Digest>, height: UInt64)
    ensures same <==> forall p :: p in parents ==> p.control.workspace == workspace
    ensures same ==> want == DigestsOf(parents) && height == MaxHeight(parents)
  {
    want, height, same := [], 0, false;
    for i := 0 to |parents|
      invariant |want| == i && forall k :: 0 <= k < i ==> want[k] == parents[k].digest
      invariant height == MaxHeight(parents[..i])
      invariant forall k :: 0 <= k < i ==> parents[k].control.workspace == workspace
    {
      if parents[i].control.workspace != workspace {
        return;
      }
      MaxHeightSnoc(parents, i);
      want := want + [parents[i].digest];
      height := if parents[i].control.height > height then parents[i].control.height else height;
    }
    assert parents[..|parents|] == parents;
    same := true;
  }

  /** Second loop of VerifyChild: no parent may deny the author admin rights; the key
      it must sign with is the last parent's. */
  method AuthorKey(parents: seq<Verified>, author: DeviceId) returns (key: Option<Key>)
    requires parents != []
    ensures key.Some? <==> forall p :: p in parents ==> IsAdmin(p.control, author)
    ensures key.Some? ==> key.value == PrincipalOf(parents[|parents| - 1].control, author).value.signing
  {
    key := None;
    for i := 0 to |parents|
      invariant forall k :: 0 <= k < i ==> IsAdmin(parents[k].control, author)
      invariant i > 0 ==> key == Some(PrincipalOf(parents[i - 1].control, author).value.signing)
    {
      if !IsAdmin(parents[i].control, author) {
        return None;
      }
      key := Some(PrincipalOf(parents[i].control, author).value.signing);
    }
  }

  /** The signature verifies under the key that this Control lists for the author. */
  predicate AuthorSigned(v: Verified, blob: SignedControl) {
    Lists(v.control, blob.control.author) && PrincipalOf(v.control, blob.control.author).value.signing in blob.verifies
  }

  method VerifyChild(parents: seq<Verified>, blob: SignedControl) returns (r: Option<Verified>)
    ensures r.Some? <==> ChildRule(parents, blob)
    ensures r.Some? ==> r.value == Verified(blob.control, blob.name)
    ensures r.Some? ==> forall p :: p in parents ==>
              && p.control.workspace == blob.control.workspace && p.control.height < blob.control.height
              && p.digest in blob.control.parents && IsAdmin(p.control, blob.control.author)
    ensures r.Some? ==> forall d :: d in blob.control.parents ==> exists p :: p in parents && p.digest == d
    ensures r.Some? && |parents| > 1 ==> forall q, p :: q in blob.control.principals && p in parents ==>
              && (exists v :: v in parents && Lists(v.control, q.id))
              && (Lists(p.control, q.id) ==> PrincipalOf(p.control, q.id).value.recipient == q.recipient)
              && (q.admin ==> exists v :: v in parents && IsAdmin(v.control, q.id))
    // it accepts whatever an admin of all parents signs that names them, stands one height above, and only inherits
    ensures parents != [] && WellFormed(blob.control) && AuthorSigned(parents[|parents| - 1], blob) ==>
              var c := blob.control;
              && (forall p :: p in parents ==> p.control.workspace == c.workspace && IsAdmin(p.control, c.author))
              && c.parents == SortDigests(DigestsOf(parents)) && c.height == (MaxHeight(parents) + 1) % UINT64
              && (|parents| > 1 ==> forall q :: q in c.principals ==>
                    && (exists v :: v in parents && Lists(v.control, q.id))
                    && (forall v :: v in parents && Lists(v.control, q.id) ==>
                          var was := PrincipalOf(v.control, q.id).value;
                          was.signing.device == q.signing.device && was.recipient == q.recipient)
                    && (q.admin ==> exists v :: v in parents && IsAdmin(v.control, q.id)))
              ==> r.Some?
    ensures r.Some? ==>
              exists p, key :: p in parents && PrincipalOf(p.control, blob.control.author) == Some(key)
                               && key.admin && key.signing in blob.verifies
  {
    r := CheckChild(parents, blob);
    if r.Some? {
      ChildMeans(parents, blob);
    }
  }

  lemma ChildMeans(parents: seq<Verified>, blob: SignedControl)
    requires ChildRule(parents, blob)
    ensures forall p :: p in parents ==> p.digest in blob.control.parents && p.control.height < blob.control.height
    ensures forall d :: d in blob.control.parents ==> exists p :: p in parents && p.digest == d
    ensures exists p, key :: p in parents && PrincipalOf(p.control, blob.control.author) == Some(key)
                             && key.admin && key.signing in blob.verifies
  {
    FollowMeans(parents, blob.control);
    assert parents[|parents| - 1] in parents;
  }

  /** The checks one by one. */
  method CheckChild(parents: seq<Verified>, blob: SignedControl) returns (r: Option<Verified>)
    ensures r.Some? <==> ChildRule(parents, blob)
    ensures r.Some? ==> r.value == Verified(blob.control, blob.name)
  {
    if |parents| == 0 {
      return None;
    }
    var c := blob.control;
    var ok := Validate(c);
    if !ok {
      return None;
    }
    var same, want, height := Expected(parents, c.workspace);
    if !same || c.parents != SortDigests(want) || c.height != (height + 1) % UINT64 {
      return None;
    }
    var key := AuthorKey(parents, c.author);
    if key.None? || key.value !in blob.verifies {
      return None;
    }
    if |parents| > 1 {
      var resolves := CheckResolution(parents, c);
      if !resolves {
        return None;
      }
    }
    r := Some(Verified(c, blob.name));
  }

  lemma FollowMeans(parents: seq<Verified>, c: Control)
    requires FollowRule(parents, c)
    ensures forall p :: p in parents ==> p.digest in c.parents && p.control.height < c.height
    ensures forall d :: d in c.parents ==> exists p :: p in parents && p.digest == d
  {
    ChildAboveParents(parents, c);
    NamesExactly(parents, c.parents);
    forall d | d in c.parents ensures exists p :: p in parents && p.digest == d {
      var i :| 0 <= i < |parents| && parents[i].digest == d;
      assert parents[i] in parents;
    }
  }

  lemma NamesExactly(parents: seq<Verified>, ds: seq<Digest>)
    requires ds == SortDigests(DigestsOf(parents))
    ensures |ds| == |parents|
    ensures forall i :: 0 <= i < |parents| ==> parents[i].digest in ds
    ensures forall d :: d in ds ==> exists i :: 0 <= i < |parents| && parents[i].digest == d
  {
    var want := DigestsOf(parents);
    SortedDigests(want);
    forall i | 0 <= i < |parents| ensures parents[i].digest in ds {
      assert want[i] in want;
    }
    forall d | d in ds ensures exists i :: 0 <= i < |parents| && parents[i].digest == d {
      var i :| 0 <= i < |want| && want[i] == d;
    }
  }

  /** Since height 0 is refused, a child stands strictly above each of its parents even where the 64-bit sum wraps. */
  lemma ChildAboveParents(parents: seq<Verified>, c: Control)
    requires FollowRule(parents, c)
    ensures forall i :: 0 <= i < |parents| ==> parents[i].control.height < c.height
  {
    NamesExactly(parents, c.parents);
    MaxHeightBounds(parents);
    assert c.parents != [] && c.height != 0;
  }
}
