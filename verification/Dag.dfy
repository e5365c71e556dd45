/** The revision graph of pkg/wsp/dag.go: ancestors, heads, merge bases and missing parents. */
module Dag {
  import opened Orders
  import opened Digests

  /** The parents each revision of a graph names, whether or not the graph holds them. */
  type Parents = map<Digest, seq<Digest>>

  /** `a` is reached from `d` by naming `n` parents one after the other, all inside the graph. */
  ghost predicate ReachIn(P: Parents, n: nat, d: Digest, a: Digest) {
    d in P && a in P &&
    if n == 0 then d == a
    else exists p :: p in P[d] && ReachIn(P, n - 1, p, a)
  }

  /** `a` is `d` or an ancestor of `d` inside the graph. */
  ghost predicate Reach(P: Parents, d: Digest, a: Digest) {
    exists n: nat :: ReachIn(P, n, d, a)
  }

  ghost function Anc(P: Parents, d: Digest): set<Digest> {
    set a | a in P.Keys && Reach(P, d, a)
  }

  /** `S` contains the parents its members have inside the graph. */
  ghost predicate Closed(P: Parents, S: set<Digest>) {
    forall d, p :: d in S && d in P && p in P[d] && p in P ==> p in S
  }

  /** Parents inside the graph rank strictly lower: names are digests of what contains them. */
  ghost predicate Ranked(P: Parents, rank: Digest -> nat) {
    forall d, p :: d in P && p in P[d] && p in P ==> rank(p) < rank(d)
  }

  lemma ReachEnds(P: Parents, d: Digest, a: Digest)
    requires Reach(P, d, a)
    ensures d in P && a in P
  {
  }

  lemma ReachRefl(P: Parents, d: Digest)
    requires d in P
    ensures Reach(P, d, d)
  {
    assert ReachIn(P, 0, d, d);
  }

  lemma ReachStep(P: Parents, d: Digest, p: Digest, a: Digest)
    requires d in P && p in P[d] && Reach(P, p, a)
    ensures Reach(P, d, a)
  {
    var n: nat :| ReachIn(P, n, p, a);
    assert ReachIn(P, n + 1, d, a);
  }

  lemma ReachParent(P: Parents, d: Digest, p: Digest)
    requires d in P && p in P[d] && p in P
    ensures Reach(P, d, p)
  {
    ReachRefl(P, p);
    ReachStep(P, d, p, p);
  }

  lemma {:induction false} ReachInTrans(P: Parents, n: nat, m: nat, d: Digest, b: Digest, a: Digest)
    requires ReachIn(P, n, d, b) && ReachIn(P, m, b, a)
    ensures ReachIn(P, n + m, d, a)
  {
    if n > 0 {
      var p :| p in P[d] && ReachIn(P, n - 1, p, b);
      ReachInTrans(P, n - 1, m, p, b, a);
    }
  }

  lemma ReachTrans(P: Parents, d: Digest, b: Digest, a: Digest)
    requires Reach(P, d, b) && Reach(P, b, a)
    ensures Reach(P, d, a)
  {
    var n: nat :| ReachIn(P, n, d, b);
    var m: nat :| ReachIn(P, m, b, a);
    ReachInTrans(P, n, m, d, b, a);
  }

  /** A proper ancestor is reached through a parent. */
  lemma ReachFirst(P: Parents, d: Digest, a: Digest) returns (p: Digest)
    requires Reach(P, d, a) && d != a
    ensures p in P[d] && p in P && Reach(P, p, a)
  {
    var n: nat :| ReachIn(P, n, d, a);
    p :| p in P[d] && ReachIn(P, n - 1, p, a);
  }

  lemma {:induction false} ReachInLast(P: Parents, n: nat, d: Digest, a: Digest) returns (c: Digest)
    requires ReachIn(P, n, d, a) && d != a
    ensures Reach(P, d, c) && a in P[c]
    decreases n
  {
    var p :| p in P[d] && ReachIn(P, n - 1, p, a);
    if p == a {
      ReachRefl(P, d);
      c := d;
    } else {
      c := ReachInLast(P, n - 1, p, a);
      ReachStep(P, d, p, c);
    }
  }

  /** A proper ancestor is named as a parent by some descendant on the way. */
  lemma ReachLast(P: Parents, d: Digest, a: Digest) returns (c: Digest)
    requires Reach(P, d, a) && d != a
    ensures Reach(P, d, c) && c in P && a in P[c] && a in ChildrenNamed(P)
  {
    var n: nat :| ReachIn(P, n, d, a);
    c := ReachInLast(P, n, d, a);
  }

  lemma {:induction false} ReachInInvariant(P: Parents, S: set<Digest>, n: nat, d: Digest, a: Digest)
    requires Closed(P, S) && d in S && ReachIn(P, n, d, a)
    ensures a in S
  {
    if n > 0 {
      var p :| p in P[d] && ReachIn(P, n - 1, p, a);
      ReachInInvariant(P, S, n - 1, p, a);
    }
  }

  /** A parent-closed set holds every ancestor of its members. */
  lemma ReachInvariant(P: Parents, S: set<Digest>, d: Digest, a: Digest)
    requires Closed(P, S) && d in S && Reach(P, d, a)
    ensures a in S
  {
    var n: nat :| ReachIn(P, n, d, a);
    ReachInInvariant(P, S, n, d, a);
  }

  lemma AncClosed(P: Parents, d: Digest)
    ensures Closed(P, Anc(P, d))
  {
    forall x, p | x in Anc(P, d) && x in P && p in P[x] && p in P
      ensures p in Anc(P, d)
    {
      ReachParent(P, x, p);
      ReachTrans(P, d, x, p);
    }
  }

  lemma {:induction false} ReachInRank(P: Parents, rank: Digest -> nat, n: nat, d: Digest, a: Digest)
    requires Ranked(P, rank) && ReachIn(P, n, d, a)
    ensures d == a || rank(a) < rank(d)
  {
    if n > 0 {
      var p :| p in P[d] && ReachIn(P, n - 1, p, a);
      ReachInRank(P, rank, n - 1, p, a);
    }
  }

  /** In a ranked graph a proper ancestor ranks strictly lower. */
  lemma ReachRank(P: Parents, rank: Digest -> nat, d: Digest, a: Digest)
    requires Ranked(P, rank) && Reach(P, d, a)
    ensures d == a || rank(a) < rank(d)
  {
    var n: nat :| ReachIn(P, n, d, a);
    ReachInRank(P, rank, n, d, a);
  }

  /** Ranked graphs have no cycles. */
  lemma ReachAntisymmetric(P: Parents, rank: Digest -> nat, d: Digest, a: Digest)
    requires Ranked(P, rank) && Reach(P, d, a) && Reach(P, a, d)
    ensures d == a
  {
    ReachRank(P, rank, d, a);
    ReachRank(P, rank, a, d);
  }

  // ----- growing and shrinking a graph

  /** The graph `P2` holds the revisions of `P`, under the same parents. */
  ghost predicate Extends(P: Parents, P2: Parents) {
    forall d :: d in P ==> d in P2 && P2[d] == P[d]
  }

  lemma {:induction false} ReachInExtends(P: Parents, P2: Parents, n: nat, d: Digest, a: Digest)
    requires Extends(P, P2) && ReachIn(P, n, d, a)
    ensures ReachIn(P2, n, d, a)
  {
    if n > 0 {
      var p :| p in P[d] && ReachIn(P, n - 1, p, a);
      ReachInExtends(P, P2, n - 1, p, a);
    }
  }

  lemma ReachExtends(P: Parents, P2: Parents, d: Digest, a: Digest)
    requires Extends(P, P2) && Reach(P, d, a)
    ensures Reach(P2, d, a)
  {
    var n: nat :| ReachIn(P, n, d, a);
    ReachInExtends(P, P2, n, d, a);
  }

  /** `P2` adds to `P` only revisions that no revision of `P` names as a parent. */
  ghost predicate GrowsAbove(P: Parents, P2: Parents) {
    && Extends(P, P2)
    && forall d, p :: d in P && p in P[d] && p in P2 ==> p in P
  }

  lemma {:induction false} ReachInGrown(P: Parents, P2: Parents, n: nat, d: Digest, a: Digest)
    requires GrowsAbove(P, P2) && d in P && ReachIn(P2, n, d, a)
    ensures ReachIn(P, n, d, a)
  {
    if n > 0 {
      var p :| p in P2[d] && ReachIn(P2, n - 1, p, a);
      ReachInGrown(P, P2, n - 1, p, a);
    }
  }

  /** Revisions added on top leave the ancestors of every older revision as they were. */
  lemma GrownAncestors(P: Parents, P2: Parents, d: Digest)
    requires GrowsAbove(P, P2) && d in P
    ensures Anc(P2, d) == Anc(P, d)
  {
    forall a | a in Anc(P2, d) ensures a in Anc(P, d) {
      var n: nat :| ReachIn(P2, n, d, a);
      ReachInGrown(P, P2, n, d, a);
    }
    forall a | a in Anc(P, d) ensures a in Anc(P2, d) {
      ReachExtends(P, P2, d, a);
    }
  }

  // ----- maximal members

  /** `h` is in `S` and no other member of `S` has it as an ancestor. */
  ghost predicate MaximalIn(P: Parents, S: set<Digest>, h: Digest) {
    h in S && forall s :: s in S && s != h ==> !Reach(P, s, h)
  }

  ghost function MaximalSet(P: Parents, S: set<Digest>): set<Digest> {
    set h | h in S && MaximalIn(P, S, h)
  }

  /** In a finite ranked graph every member of a set lies at or below a maximal one. */
  lemma {:induction false} MaximalAbove(P: Parents, rank: Digest -> nat, S: set<Digest>, d: Digest) returns (m: Digest)
    requires Ranked(P, rank) && S <= P.Keys && d in S
    ensures MaximalIn(P, S, m) && Reach(P, m, d)
    decreases set s | s in S && Reach(P, s, d) && s != d
  {
    ReachRefl(P, d);
    if MaximalIn(P, S, d) {
      m := d;
    } else {
      var s :| s in S && s != d && Reach(P, s, d);
      forall x | x in S && Reach(P, x, s) && x != s
        ensures Reach(P, x, d) && x != d
      {
        ReachTrans(P, x, s, d);
        if x == d {
          ReachAntisymmetric(P, rank, s, d);
        }
      }
      var A := set x | x in S && Reach(P, x, d) && x != d;
      var B := set x | x in S && Reach(P, x, s) && x != s;
      assert B <= A && s in A && s !in B;
      m := MaximalAbove(P, rank, S, s);
      ReachTrans(P, m, s, d);
    }
  }

  // ----- what the methods compute

  ghost function ChildrenNamed(P: Parents): set<Digest> {
    set d, p | d in P && p in P[d] :: p
  }

  ghost function HeadSet(P: Parents): set<Digest> {
    P.Keys - ChildrenNamed(P)
  }

  ghost function MissingSet(P: Parents): set<Digest> {
    ChildrenNamed(P) - P.Keys
  }

  ghost function CommonAncestors(P: Parents, heads: seq<Digest>): set<Digest> {
    set a | a in P.Keys && forall h :: h in heads ==> Reach(P, h, a)
  }

  ghost function BaseSet(P: Parents, heads: seq<Digest>): set<Digest> {
    if heads == [] then {} else MaximalSet(P, CommonAncestors(P, heads))
  }

  /** The revisions no other names are exactly the revisions with no proper descendant. */
  lemma HeadsAreMaximal(P: Parents, rank: Digest -> nat)
    requires Ranked(P, rank)
    ensures HeadSet(P) == MaximalSet(P, P.Keys)
  {
    forall h | h in HeadSet(P) ensures h in MaximalSet(P, P.Keys) {
      forall s | s in P && s != h ensures !Reach(P, s, h) {
        if Reach(P, s, h) {
          var c := ReachLast(P, s, h);
        }
      }
    }
    forall h | h in MaximalSet(P, P.Keys) ensures h in HeadSet(P) {
      if h in ChildrenNamed(P) {
        var d :| d in P && h in P[d];
        ReachParent(P, d, h);
      }
    }
  }

  /** Every common ancestor of the heads lies at or below one of the merge bases. */
  lemma BasesCoverCommonAncestors(P: Parents, rank: Digest -> nat, heads: seq<Digest>, a: Digest) returns (b: Digest)
    requires Ranked(P, rank) && heads != [] && a in CommonAncestors(P, heads)
    ensures b in BaseSet(P, heads) && Reach(P, b, a)
  {
    b := MaximalAbove(P, rank, CommonAncestors(P, heads), a);
  }

  /** Revisions added on top change no merge base of older heads. */
  lemma GrownBases(P: Parents, P2: Parents, heads: seq<Digest>)
    requires GrowsAbove(P, P2) && forall h :: h in heads ==> h in P
    ensures BaseSet(P2, heads) == BaseSet(P, heads)
  {
    if heads != [] {
      forall h | h in P ensures Anc(P2, h) == Anc(P, h) { GrownAncestors(P, P2, h); }
      assert forall h, a :: h in P && Reach(P2, h, a) ==> a in Anc(P2, h);
      assert forall h, a :: h in P && Reach(P, h, a) ==> a in Anc(P, h);
      var C, C2 := CommonAncestors(P, heads), CommonAncestors(P2, heads);
      forall a | a in C2 ensures a in C {
        assert Reach(P2, heads[0], a);
      }
      forall a | a in C ensures a in C2 {
        assert Reach(P, heads[0], a);
      }
    }
  }

  // ----- graph walks

  /** A walk from `d` that does not enter `stop`: what it has seen, and what still waits. */
  ghost predicate WalkInv(P: Parents, d: Digest, stop: set<Digest>, seen: set<Digest>, waiting: seq<Digest>) {
    && seen <= Anc(P, d) && seen !! stop
    && (forall x :: x in waiting && x in P ==> Reach(P, d, x))
    && (forall x, p :: x in seen && x in P && p in P[x] && p in P ==> p in seen || p in stop || p in waiting)
    && (d in P ==> d in seen || d in stop || d in waiting)
  }

  lemma WalkStart(P: Parents, d: Digest, stop: set<Digest>)
    ensures WalkInv(P, d, stop, {}, [d])
  {
    if d in P { ReachRefl(P, d); }
  }

  /** Taking one waiting revision: it is skipped when seen, stopped at or absent, and otherwise its parents wait. */
  lemma WalkStep(P: Parents, d: Digest, stop: set<Digest>, seen: set<Digest>, waiting: seq<Digest>, cur: Digest,
                 rest: seq<Digest>)
    requires WalkInv(P, d, stop, seen, waiting)
    requires cur in waiting && forall x :: x in waiting <==> x == cur || x in rest
    ensures cur in seen || cur in stop || cur !in P ==> WalkInv(P, d, stop, seen, rest)
    ensures cur !in stop && cur in P ==> WalkInv(P, d, stop, seen + {cur}, rest + P[cur])
  {
    if cur !in stop && cur in P {
      forall p | p in P[cur] && p in P ensures Reach(P, d, p) {
        ReachParent(P, cur, p);
        ReachTrans(P, d, cur, p);
      }
    }
  }

  /** A finished walk has seen every ancestor outside a parent-closed `stop`. */
  lemma WalkEnd(P: Parents, d: Digest, stop: set<Digest>, seen: set<Digest>)
    requires WalkInv(P, d, stop, seen, []) && Closed(P, stop)
    ensures seen == Anc(P, d) - stop
  {
    assert Closed(P, seen + stop);
    forall a | a in Anc(P, d) ensures a in seen + stop {
      ReachInvariant(P, seen + stop, d, a);
    }
  }

  // ----- gathering a graph from named roots

  /** The revisions of `P` that some root is or leads to. */
  ghost function LedTo(P: Parents, roots: seq<Digest>): set<Digest> {
    set d | d in P.Keys && exists l :: l in roots && Reach(P, l, d)
  }

  lemma LedToClosed(P: Parents, roots: seq<Digest>)
    ensures forall d :: d in roots && d in P ==> d in LedTo(P, roots)
    ensures Closed(P, LedTo(P, roots))
  {
    forall d | d in roots && d in P ensures d in LedTo(P, roots) {
      ReachRefl(P, d);
    }
    forall d, p | d in LedTo(P, roots) && d in P && p in P[d] && p in P ensures p in LedTo(P, roots) {
      var l :| l in roots && Reach(P, l, d);
      ReachParent(P, d, p);
      ReachTrans(P, l, d, p);
    }
  }

  /** While fetching: what was tried or waits is among `led`, and nothing named is
      forgotten. `P` is what fetching can yield. */
  ghost predicate GatherInv(P: Parents, led: set<Digest>, roots: seq<Digest>, tried: set<Digest>, queue: seq<Digest>) {
    && (forall d :: d in P && (d in tried || d in queue) ==> d in led)
    && (forall d :: d in roots ==> d in tried || d in queue)
    && (forall d, p :: d in tried && d in P && p in P[d] ==> p in tried || p in queue)
  }

  lemma GatherStart(P: Parents, roots: seq<Digest>, tried: set<Digest>, queue: seq<Digest>)
    requires forall d :: d in roots <==> d in tried || d in queue
    requires forall d :: d in tried && d in P ==> P[d] == []
    ensures GatherInv(P, LedTo(P, roots), roots, tried, queue) && Closed(P, LedTo(P, roots))
  {
    LedToClosed(P, roots);
  }

  lemma GatherNext(P: Parents, led: set<Digest>, roots: seq<Digest>, tried: set<Digest>, queue: seq<Digest>)
    requires GatherInv(P, led, roots, tried, queue) && queue != [] && Closed(P, led)
    ensures queue[0] in tried ==> GatherInv(P, led, roots, tried, queue[1..])
    ensures queue[0] !in P ==> GatherInv(P, led, roots, tried + {queue[0]}, queue[1..])
    ensures queue[0] in P ==> GatherInv(P, led, roots, tried + {queue[0]}, queue[1..] + P[queue[0]])
  {
    assert queue == [queue[0]] + queue[1..];
  }

  /** Once nothing waits, exactly the revisions the roots lead to were tried, in whatever order they came. */
  lemma GatherDone(P: Parents, roots: seq<Digest>, tried: set<Digest>)
    requires GatherInv(P, LedTo(P, roots), roots, tried, [])
    ensures tried * P.Keys == LedTo(P, roots)
  {
    assert Closed(P, tried);
    forall d | d in LedTo(P, roots) ensures d in tried {
      var l :| l in roots && Reach(P, l, d);
      ReachInvariant(P, tried, l, d);
    }
  }

  /** Every name that fetching from these roots comes across, whether it can be fetched or not. */
  ghost function NamesLed(P: Parents, roots: seq<Digest>): set<Digest> {
    Elements(roots) + set d, p | d in LedTo(P, roots) && p in P[d] :: p
  }

  lemma LedIsNamed(P: Parents, roots: seq<Digest>)
    ensures NamesLed(P, roots) * P.Keys == LedTo(P, roots)
  {
    LedToClosed(P, roots);
    forall d | d in LedTo(P, roots) ensures d in NamesLed(P, roots) {
      var l :| l in roots && Reach(P, l, d);
      if l != d {
        var c := ReachLast(P, l, d);
        assert c in LedTo(P, roots);
      }
    }
  }

  ghost predicate GatherNames(names: set<Digest>, tried: set<Digest>, queue: seq<Digest>) {
    forall d :: d in tried || d in queue ==> d in names
  }

  lemma GatherName(P: Parents, roots: seq<Digest>, tried: set<Digest>, queue: seq<Digest>)
    requires GatherInv(P, LedTo(P, roots), roots, tried, queue) && queue != []
    requires GatherNames(NamesLed(P, roots), tried, queue)
    ensures GatherNames(NamesLed(P, roots), tried + {queue[0]}, queue[1..])
    ensures queue[0] in P ==> GatherNames(NamesLed(P, roots), tried + {queue[0]}, queue[1..] + P[queue[0]])
  {
    if queue[0] in P {
      forall p | p in P[queue[0]] ensures p in NamesLed(P, roots) {
        assert queue[0] in LedTo(P, roots);
      }
    }
  }

  /** Once nothing waits, every such name was tried. */
  lemma GatheredNames(P: Parents, roots: seq<Digest>, tried: set<Digest>)
    requires GatherInv(P, LedTo(P, roots), roots, tried, []) && GatherNames(NamesLed(P, roots), tried, [])
    ensures tried == NamesLed(P, roots)
  {
    GatherDone(P, roots, tried);
    assert forall d :: d in LedTo(P, roots) ==> d in tried * P.Keys;
  }

  // ----- the mutable graph

  class Graph {
    var parents: Parents

    constructor ()
      ensures parents == map[]
    {
      parents := map[];
    }

    constructor From(ps: Parents)
      ensures parents == ps
    {
      parents := ps;
    }

    method Add(d: Digest, ps: seq<Digest>)
      modifies this
      ensures parents == old(parents)[d := ps]
    {
      parents := parents[d := ps];
    }

    predicate Has(d: Digest)
      reads this
    {
      d in parents
    }

    /** The child-names loop that Heads and Missing share: every parent any revision names. */
    method Named() returns (child: set<Digest>)
      ensures child == ChildrenNamed(parents)
    {
      child := {};
      var todo := parents.Keys;
      while todo != {}
        invariant todo <= parents.Keys
        invariant child == set d, p | d in parents && d !in todo && p in parents[d] :: p
        decreases todo
      {
        var d :| d in todo;
        var ps := parents[d];
        todo := todo - {d};
        var before := child;
        for i := 0 to |ps|
          invariant child == before + Elements(ps[..i])
        {
          child := child + {ps[i]};
          assert ps[..i + 1] == ps[..i] + [ps[i]];
        }
        assert ps[..|ps|] == ps;
      }
    }

    /** The gaps of the graph: one pass collects all names, a set difference keeps the absent ones. */
    method Missing() returns (out: seq<Digest>)
      ensures StrictlySorted(out) && Elements(out) == MissingSet(parents)
    {
      var child := Named();
      out := Collect(child - parents.Keys);
    }

    /** The set difference the other way round. */
    method Heads() returns (heads: seq<Digest>)
      ensures StrictlySorted(heads) && Elements(heads) == HeadSet(parents)
    {
      var child := Named();
      heads := Collect(parents.Keys - child);
    }

    /** A walk with a stack; names that the graph lacks are popped without effect. */
    method Ancestors(d: Digest) returns (seen: set<Digest>)
      ensures seen == Anc(parents, d)
    {
      seen := {};
      var stack := [d];
      WalkStart(parents, d, {});
      while |stack| > 0
        invariant WalkInv(parents, d, {}, seen, stack) && seen <= parents.Keys
        decreases parents.Keys - seen, |stack|
      {
        var cur, rest := stack[|stack| - 1], stack[..|stack| - 1];
        assert stack == rest + [cur];
        WalkStep(parents, d, {}, seen, stack, cur, rest);
        stack := rest;
        if cur in seen || cur !in parents {
          continue;
        }
        seen := seen + {cur};
        stack := stack + parents[cur];
      }
      assert stack == [];
      WalkEnd(parents, d, {}, seen);
    }

    /** The common ancestors of the heads that are not a proper ancestor of another one, sorted. */
    method MergeBases(heads: seq<Digest>) returns (bases: seq<Digest>)
      ensures StrictlySorted(bases) && Elements(bases) == BaseSet(parents, heads)
    {
      if |heads| == 0 {
        return [];
      }
      var common := Ancestors(heads[0]);
      for i := 1 to |heads|
        invariant common == set a | a in parents && forall h :: h in heads[..i] ==> Reach(parents, h, a)
      {
        var anc := Ancestors(heads[i]);
        assert heads[..i + 1] == heads[..i] + [heads[i]];
        common := set a | a in common && a in anc;
      }
      assert heads[..|heads|] == heads;
      var shadowed := {};
      var todo := common;
      while todo != {}
        invariant todo <= common
        invariant shadowed == set d, a | d in common - todo && a in parents.Keys && Reach(parents, d, a) && a != d :: a
        decreases todo
      {
        var d :| d in todo;
        var anc := Ancestors(d);
        todo := todo - {d};
        shadowed := shadowed + (anc - {d});
      }
      bases := Collect(common - shadowed);
    }
  }
}
