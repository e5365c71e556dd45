/** The DAG of authorized Controls (pkg/wsp/chain.go). */
module Chain {
  import opened Orders
  import opened Digests
  import opened Dag
  import opened Control

  /** Stored bytes that decode to a Control, by the name storage serves them under. */
  type Objects = map<Digest, SignedControl>

  type Controls = map<Digest, Verified>

  function ParentsOf(vs: Controls): Parents {
    map d | d in vs :: vs[d].control.parents
  }

  function ObjectParents(objs: Objects): Parents {
    map d | d in objs :: objs[d].control.parents
  }

  function Content(objs: Objects, d: Digest): Verified
    requires d in objs
  {
    Verified(objs[d].control, d)
  }

  function Resolve(objs: Objects, ps: seq<Digest>): seq<Verified>
    requires forall p :: p in ps ==> p in objs
  {
    seq(|ps|, i requires 0 <= i < |ps| => Content(objs, ps[i]))
  }

  /** The object is what its name says and may follow the parents it names, all of which storage serves. */
  ghost predicate Lawful(objs: Objects, rev: Digest) {
    && rev in objs && objs[rev].name == rev
    && var ps := objs[rev].control.parents;
    && (forall p :: p in ps ==> p in objs)
    && ChildRule(Resolve(objs, ps), objs[rev])
  }

  /** Given that the Controls in `S` have authority, `rev` has it too. */
  ghost predicate Accepts(objs: Objects, S: set<Digest>, rev: Digest) {
    Lawful(objs, rev) && forall p :: p in objs[rev].control.parents ==> p in S
  }

  /** `S` holds the genesis and everything its members authorize. */
  ghost predicate Fixpoint(objs: Objects, genesis: Digest, S: set<Digest>) {
    genesis in S && forall rev :: Accepts(objs, S, rev) ==> rev in S
  }

  /** The Controls with authority: those in every set that holds the genesis and what its members authorize. */
  ghost function Authorized(objs: Objects, genesis: Digest): set<Digest> {
    set d | d in objs.Keys && forall T: set<Digest> :: Fixpoint(objs, genesis, T) ==> d in T
  }

  /** The authorized Controls are themselves such a set, so they are the least one. */
  lemma AuthorizedIsLeast(objs: Objects, genesis: Digest)
    requires genesis in objs
    ensures Fixpoint(objs, genesis, Authorized(objs, genesis))
    ensures forall T: set<Digest> :: Fixpoint(objs, genesis, T) ==> Authorized(objs, genesis) <= T
  {
    var A := Authorized(objs, genesis);
    forall rev | Accepts(objs, A, rev) ensures rev in A {
      forall T: set<Digest> | Fixpoint(objs, genesis, T) ensures rev in T {
        assert Accepts(objs, T, rev);
      }
    }
  }

  /** Every authorized Control other than the genesis is lawful over authorized parents. */
  lemma AuthorizedJustified(objs: Objects, genesis: Digest, d: Digest)
    requires genesis in objs && d in Authorized(objs, genesis) && d != genesis
    ensures Accepts(objs, Authorized(objs, genesis), d)
  {
    AuthorizedIsLeast(objs, genesis);
    var A := Authorized(objs, genesis);
    if !Accepts(objs, A, d) {
      var T := A - {d};
      forall rev | Accepts(objs, T, rev) ensures rev in T {
        assert Accepts(objs, A, rev);
      }
      assert Fixpoint(objs, genesis, T);
    }
  }

  /** The rule looks only at the object and the parents it names. */
  lemma LawfulLocal(objs: Objects, objs2: Objects, rev: Digest)
    requires rev in objs && rev in objs2 && objs[rev] == objs2[rev]
    requires forall p :: p in objs[rev].control.parents ==> p in objs && p in objs2 && objs[p] == objs2[p]
    ensures Lawful(objs, rev) <==> Lawful(objs2, rev)
  {
    var ps := objs[rev].control.parents;
    assert Resolve(objs, ps) == Resolve(objs2, ps);
  }

  /** Storage that serves only part of the objects, but with every object its parents, shows
      exactly its part of the authorized Controls. */
  lemma PartialView(sub: Objects, objs: Objects, genesis: Digest)
    requires genesis in sub && forall d :: d in sub ==> d in objs && objs[d] == sub[d]
    requires forall d, p :: d in sub && p in sub[d].control.parents && p in objs ==> p in sub
    ensures Authorized(sub, genesis) == Authorized(objs, genesis) * sub.Keys
  {
    AuthorizedIsLeast(sub, genesis);
    AuthorizedIsLeast(objs, genesis);
    var A, B := Authorized(sub, genesis), Authorized(objs, genesis);
    forall rev | Accepts(sub, B, rev) ensures rev in B {
      LawfulLocal(sub, objs, rev);
      assert Accepts(objs, B, rev);
    }
    assert Fixpoint(sub, genesis, B);
    var T := A + (objs.Keys - sub.Keys);
    forall rev | Accepts(objs, T, rev) ensures rev in T {
      if rev in sub {
        LawfulLocal(sub, objs, rev);
        assert Accepts(sub, A, rev);
      }
    }
    assert Fixpoint(objs, genesis, T);
  }

  /** Objects nobody with authority signed for change nothing, whoever they name and whoever names them. */
  lemma OutsidersChangeNothing(objs: Objects, more: Objects, genesis: Digest)
    requires genesis in objs && forall d :: d in objs ==> d in more && more[d] == objs[d]
    requires forall d :: d in more && d !in objs ==> !Accepts(more, Authorized(objs, genesis), d)
    ensures Authorized(more, genesis) == Authorized(objs, genesis)
  {
    AuthorizedIsLeast(objs, genesis);
    AuthorizedIsLeast(more, genesis);
    var A, B := Authorized(objs, genesis), Authorized(more, genesis);
    forall rev | Accepts(more, A, rev) ensures rev in A {
      LawfulLocal(objs, more, rev);
      assert Accepts(objs, A, rev);
    }
    assert Fixpoint(more, genesis, A);
    forall rev | Accepts(objs, B, rev) ensures rev in B {
      LawfulLocal(objs, more, rev);
      assert Accepts(more, B, rev);
    }
    assert Fixpoint(objs, genesis, B);
  }

  // ----- the shape of a verified DAG

  /** Every parent a Control of the view names is in the view. */
  ghost predicate Complete(vs: Controls) {
    forall d, p :: d in vs && p in vs[d].control.parents ==> p in vs
  }

  /** What every view of a Control DAG satisfies: one root, parents present, heights strictly increasing. */
  ghost predicate ControlDag(genesis: Digest, vs: Controls) {
    && genesis in vs && vs[genesis].control.parents == []
    && (forall d :: d in vs ==> vs[d].digest == d && WellFormed(vs[d].control))
    && Complete(vs)
    && (forall d, p :: d in vs && p in vs[d].control.parents ==> vs[p].control.height < vs[d].control.height)
    && (forall d :: d in vs && d != genesis ==> vs[d].control.parents != [])
  }

  function Height(vs: Controls): Digest -> nat {
    d => if d in vs then vs[d].control.height else 0
  }

  lemma ControlDagRanked(genesis: Digest, vs: Controls)
    requires ControlDag(genesis, vs)
    ensures Ranked(ParentsOf(vs), Height(vs))
  {
  }

  /** Every Control of a view descends from its genesis and lies at or below one of its heads. */
  lemma {:induction false} DescendsFromGenesis(genesis: Digest, vs: Controls, d: Digest)
    requires ControlDag(genesis, vs) && d in vs
    ensures Reach(ParentsOf(vs), d, genesis)
    decreases vs[d].control.height
  {
    if d == genesis {
      ReachRefl(ParentsOf(vs), d);
    } else {
      var p := vs[d].control.parents[0];
      DescendsFromGenesis(genesis, vs, p);
      ReachStep(ParentsOf(vs), d, p, genesis);
    }
  }

  lemma BelowSomeHead(genesis: Digest, vs: Controls, d: Digest) returns (h: Digest)
    requires ControlDag(genesis, vs) && d in vs
    ensures h in HeadSet(ParentsOf(vs)) && Reach(ParentsOf(vs), h, d)
  {
    var P := ParentsOf(vs);
    ControlDagRanked(genesis, vs);
    HeadsAreMaximal(P, Height(vs));
    h := MaximalAbove(P, Height(vs), P.Keys, d);
  }

  function View(objs: Objects, S: set<Digest>): Controls {
    map d | d in S && d in objs :: Content(objs, d)
  }

  /** The authorized Controls form such a DAG: height 0 is refused, so heights order it even where they wrap. */
  lemma AuthorizedDag(objs: Objects, genesis: Digest, workspace: string)
    requires genesis in objs && GenesisRule(workspace, objs[genesis], genesis)
    ensures ControlDag(genesis, View(objs, Authorized(objs, genesis)))
  {
    AuthorizedIsLeast(objs, genesis);
    var A := Authorized(objs, genesis);
    forall d | d in A && d != genesis
      ensures var c := objs[d].control;
              WellFormed(c) && c.parents != [] && forall p :: p in c.parents ==>
                p in A && objs[p].control.height < c.height
    {
      AuthorizedJustified(objs, genesis, d);
      LawfulParents(objs, d);
    }
  }

  lemma LawfulParents(objs: Objects, d: Digest)
    requires Lawful(objs, d)
    ensures var c := objs[d].control;
            WellFormed(c) && c.parents != [] && forall p :: p in c.parents ==> objs[p].control.height < c.height
  {
    var c := objs[d].control;
    var ps := Resolve(objs, c.parents);
    ChildAboveParents(ps, c);
    forall p | p in c.parents ensures objs[p].control.height < c.height {
      var i :| 0 <= i < |c.parents| && c.parents[i] == p;
      assert ps[i].control == objs[p].control;
    }
  }

  // ----- where members and admins come from

  /** The Controls of a view of which `fact` holds, with their parents. */
  ghost function Where(vs: Controls, fact: Control -> bool): Parents {
    map d | d in vs && fact(vs[d].control) :: vs[d].control.parents
  }

  /** `o` introduced the fact: it is the genesis, or its only parent lacks the fact and has `o`'s author as an admin. */
  ghost predicate Introduces(genesis: Digest, vs: Controls, fact: Control -> bool, o: Digest) {
    && o in vs && fact(vs[o].control)
    && (o == genesis ||
        (|vs[o].control.parents| == 1
         && var p := vs[o].control.parents[0];
            p in vs && !fact(vs[p].control) && IsAdmin(vs[p].control, vs[o].control.author)))
  }

  /** A fact no fork resolution can originate traces back, along Controls that all have it, to where it was introduced. */
  lemma {:induction false} TraceFact(genesis: Digest, vs: Controls, fact: Control -> bool, d: Digest)
    returns (o: Digest)
    requires ControlDag(genesis, vs) && d in vs && fact(vs[d].control)
    requires forall x :: x in vs && |vs[x].control.parents| == 1 ==>
               IsAdmin(vs[vs[x].control.parents[0]].control, vs[x].control.author)
    requires forall x :: x in vs && |vs[x].control.parents| > 1 && fact(vs[x].control) ==>
               exists p :: p in vs[x].control.parents && p in vs && fact(vs[p].control)
    ensures Introduces(genesis, vs, fact, o) && Reach(Where(vs, fact), d, o)
    decreases vs[d].control.height
  {
    var W := Where(vs, fact);
    var ps := vs[d].control.parents;
    if d == genesis || (|ps| == 1 && !fact(vs[ps[0]].control)) {
      o := d;
      ReachRefl(W, d);
    } else {
      var p :| p in ps && fact(vs[p].control);
      o := TraceFact(genesis, vs, fact, p);
      ReachStep(W, d, p, o);
    }
  }

  /** Control `c` lists this device with this encryption recipient. */
  function HasPair(id: DeviceId, recipient: string): Control -> bool {
    c => Lists(c, id) && PrincipalOf(c, id).value.recipient == recipient
  }

  function HasAdmin(id: DeviceId): Control -> bool {
    c => IsAdmin(c, id)
  }

  lemma ResolutionOriginatesNothing(parents: seq<Verified>, c: Control, id: DeviceId, recipient: string)
    requires FollowRule(parents, c) && |parents| > 1
    ensures HasPair(id, recipient)(c) ==> exists v :: v in parents && HasPair(id, recipient)(v.control)
    ensures IsAdmin(c, id) ==> exists v :: v in parents && IsAdmin(v.control, id)
  {
    FindSome(c.principals, id);
    if Lists(c, id) {
      assert Inherited(parents, PrincipalOf(c, id).value);
    }
  }

  /** What a lawful Control inherits: a fork resolution nothing its parents lacked, a
      single-parent Control an author who was an admin. */
  ghost predicate Lineage(vs: Controls, c: Control) {
    && (forall p :: p in c.parents ==> p in vs)
    && (|c.parents| == 1 ==> IsAdmin(vs[c.parents[0]].control, c.author))
    && (|c.parents| > 1 ==> forall id, recipient :: HasPair(id, recipient)(c) ==>
          exists p :: p in c.parents && HasPair(id, recipient)(vs[p].control))
    && (|c.parents| > 1 ==> forall id :: HasAdmin(id)(c) ==>
          exists p :: p in c.parents && HasAdmin(id)(vs[p].control))
  }

  lemma FollowLineage(vs: Controls, parents: seq<Verified>, c: Control)
    requires FollowRule(parents, c) && |parents| == |c.parents|
    requires forall i :: 0 <= i < |parents| ==> c.parents[i] in vs && vs[c.parents[i]] == parents[i]
    ensures Lineage(vs, c)
  {
    assert parents[0] in parents;
    if |c.parents| > 1 {
      forall id, recipient | HasPair(id, recipient)(c)
        ensures exists p :: p in c.parents && HasPair(id, recipient)(vs[p].control)
      {
        ResolutionOriginatesNothing(parents, c, id, recipient);
        var v :| v in parents && HasPair(id, recipient)(v.control);
        var i :| 0 <= i < |parents| && parents[i] == v;
        assert c.parents[i] in c.parents;
      }
      forall id | HasAdmin(id)(c)
        ensures exists p :: p in c.parents && HasAdmin(id)(vs[p].control)
      {
        ResolutionOriginatesNothing(parents, c, id, "");
        var v :| v in parents && IsAdmin(v.control, id);
        var i :| 0 <= i < |parents| && parents[i] == v;
        assert c.parents[i] in c.parents;
      }
    }
  }

  lemma AuthorizedLineage(objs: Objects, genesis: Digest, d: Digest)
    requires genesis in objs
    requires d in Authorized(objs, genesis) && d != genesis
    ensures Lineage(View(objs, Authorized(objs, genesis)), objs[d].control)
  {
    AuthorizedJustified(objs, genesis, d);
    var c := objs[d].control;
    FollowLineage(View(objs, Authorized(objs, genesis)), Resolve(objs, c.parents), c);
  }

  /** Every authorized Control is stored under its own digest; every parent's admins include its author, and it is signed
      under the key that one of them lists for the author. */
  lemma AuthorizedIsSigned(objs: Objects, genesis: Digest, d: Digest) returns (p: Digest)
    requires genesis in objs && d in Authorized(objs, genesis) && d != genesis
    ensures objs[d].name == d && forall q :: q in objs[d].control.parents ==>
              q in Authorized(objs, genesis) && IsAdmin(objs[q].control, objs[d].control.author)
    ensures p in objs[d].control.parents && Lists(objs[p].control, objs[d].control.author)
    ensures PrincipalOf(objs[p].control, objs[d].control.author).value.signing in objs[d].verifies
  {
    AuthorizedJustified(objs, genesis, d);
    var ps := objs[d].control.parents;
    var parents := Resolve(objs, ps);
    forall q | q in ps ensures IsAdmin(objs[q].control, objs[d].control.author) {
      var i :| 0 <= i < |ps| && ps[i] == q;
      assert parents[i] in parents;
    }
    p := ps[|ps| - 1];
    assert parents[|parents| - 1] == Content(objs, p);
  }

  /** A fact of authorized Controls that no fork resolution originates goes back to a Control `o` that introduced it: stored
      under its own digest, and signed under the key of an admin that its only parent, or the genesis itself, lists. */
  lemma TraceAuthorized(objs: Objects, genesis: Digest, workspace: string, fact: Control -> bool, d: Digest)
    returns (o: Digest, lister: Digest, signer: Principal)
    requires genesis in objs && GenesisRule(workspace, objs[genesis], genesis)
    requires d in Authorized(objs, genesis) && fact(objs[d].control)
    requires var vs := View(objs, Authorized(objs, genesis));
             forall x :: x in vs && |vs[x].control.parents| > 1 && fact(vs[x].control) ==>
               exists p :: p in vs[x].control.parents && p in vs && fact(vs[p].control)
    ensures o in Authorized(objs, genesis) && objs[o].name == o && fact(objs[o].control)
    ensures Reach(Where(View(objs, Authorized(objs, genesis)), fact), d, o)
    ensures if o == genesis then lister == o else objs[o].control.parents == [lister]
    ensures lister in Authorized(objs, genesis) && (o != genesis ==> !fact(objs[lister].control))
    ensures PrincipalOf(objs[lister].control, objs[o].control.author) == Some(signer)
    ensures signer.admin && signer.signing in objs[o].verifies
  {
    AuthorizedDag(objs, genesis, workspace);
    var vs := View(objs, Authorized(objs, genesis));
    forall x | x in vs && x != genesis ensures Lineage(vs, vs[x].control) {
      AuthorizedLineage(objs, genesis, x);
    }
    o := TraceFact(genesis, vs, fact, d);
    lister, signer := IntroducerIsSigned(objs, genesis, workspace, fact, o);
  }

  lemma IntroducerIsSigned(objs: Objects, genesis: Digest, workspace: string, fact: Control -> bool, o: Digest)
    returns (lister: Digest, signer: Principal)
    requires genesis in objs && GenesisRule(workspace, objs[genesis], genesis)
    requires Introduces(genesis, View(objs, Authorized(objs, genesis)), fact, o)
    ensures o in Authorized(objs, genesis) && objs[o].name == o && fact(objs[o].control)
    ensures if o == genesis then lister == o else objs[o].control.parents == [lister]
    ensures lister in Authorized(objs, genesis) && (o != genesis ==> !fact(objs[lister].control))
    ensures PrincipalOf(objs[lister].control, objs[o].control.author) == Some(signer)
    ensures signer.admin && signer.signing in objs[o].verifies
  {
    var c := objs[o].control;
    lister := if o == genesis then o else c.parents[0];
    signer := PrincipalOf(objs[lister].control, c.author).value;
    if o != genesis {
      var p := AuthorizedIsSigned(objs, genesis, o);
    }
  }

  lemma PairsAreInherited(objs: Objects, genesis: Digest, id: DeviceId, recipient: string)
    requires genesis in objs && objs[genesis].control.parents == []
    ensures var vs := View(objs, Authorized(objs, genesis));
            forall x :: x in vs && |vs[x].control.parents| > 1 ==>
              && (HasPair(id, recipient)(vs[x].control) ==>
                    exists p :: p in vs[x].control.parents && p in vs && HasPair(id, recipient)(vs[p].control))
              && (HasAdmin(id)(vs[x].control) ==>
                    exists p :: p in vs[x].control.parents && p in vs && HasAdmin(id)(vs[p].control))
  {
    var vs := View(objs, Authorized(objs, genesis));
    forall x | x in vs && |vs[x].control.parents| > 1 ensures Lineage(vs, vs[x].control) {
      AuthorizedLineage(objs, genesis, x);
    }
  }

  /** Every device-recipient pair of an authorized Control traces back, along authorized Controls that all list it, to the
      genesis or to a Control whose one parent lacked it; and an admin listed there signed the Control that brought it. */
  lemma PairProvenance(objs: Objects, genesis: Digest, workspace: string, d: Digest, id: DeviceId, recipient: string)
    returns (o: Digest, lister: Digest, signer: Principal)
    requires genesis in objs && GenesisRule(workspace, objs[genesis], genesis)
    requires d in Authorized(objs, genesis) && HasPair(id, recipient)(objs[d].control)
    ensures o in Authorized(objs, genesis) && objs[o].name == o && HasPair(id, recipient)(objs[o].control)
    ensures Reach(Where(View(objs, Authorized(objs, genesis)), HasPair(id, recipient)), d, o)
    ensures if o == genesis then lister == o else objs[o].control.parents == [lister]
    ensures lister in Authorized(objs, genesis) && (o != genesis ==> !HasPair(id, recipient)(objs[lister].control))
    ensures PrincipalOf(objs[lister].control, objs[o].control.author) == Some(signer)
    ensures signer.admin && signer.signing in objs[o].verifies
  {
    PairsAreInherited(objs, genesis, id, recipient);
    o, lister, signer := TraceAuthorized(objs, genesis, workspace, HasPair(id, recipient), d);
  }

  /** So does every admin flag. */
  lemma AdminProvenance(objs: Objects, genesis: Digest, workspace: string, d: Digest, id: DeviceId)
    returns (o: Digest, lister: Digest, signer: Principal)
    requires genesis in objs && GenesisRule(workspace, objs[genesis], genesis)
    requires d in Authorized(objs, genesis) && IsAdmin(objs[d].control, id)
    ensures o in Authorized(objs, genesis) && objs[o].name == o && IsAdmin(objs[o].control, id)
    ensures Reach(Where(View(objs, Authorized(objs, genesis)), HasAdmin(id)), d, o)
    ensures if o == genesis then lister == o else objs[o].control.parents == [lister]
    ensures lister in Authorized(objs, genesis) && (o != genesis ==> !IsAdmin(objs[lister].control, id))
    ensures PrincipalOf(objs[lister].control, objs[o].control.author) == Some(signer)
    ensures signer.admin && signer.signing in objs[o].verifies
  {
    PairsAreInherited(objs, genesis, id, "");
    o, lister, signer := TraceAuthorized(objs, genesis, workspace, HasAdmin(id), d);
  }
}
