/** The order of a resource's history (chronological in app/history.go): parents before children, then time, then
    digest. The clock only breaks ties. */
module History {
  import opened Orders
  import opened Digests
  import opened Dag
  import opened States

  // ----- order

  /** The parents of a revision that are in the history. */
  function Deps(R: Revisions, d: Digest): set<Digest>
    requires d in R
  {
    set p | p in R[d].parents && p in R
  }

  function TimeOf(R: Revisions, d: Digest): int {
    if d in R then R[d].createdAt else 0
  }

  predicate Earlier(R: Revisions, a: Digest, b: Digest) {
    TimeOf(R, a) < TimeOf(R, b) || (TimeOf(R, a) == TimeOf(R, b) && a < b)
  }

  /** A revision that is not out yet, and whose parents all are. */
  predicate IsReady(R: Revisions, out: set<Digest>, d: Digest) {
    d in R && d !in out && Deps(R, d) <= out
  }

  ghost predicate LeastReady(R: Revisions, out: set<Digest>, d: Digest) {
    IsReady(R, out, d) && forall e :: IsReady(R, out, e) && e != d ==> Earlier(R, d, e)
  }

  /** Every revision once, each time the least by time and then digest of those whose parents are already out. */
  ghost predicate Chronological(R: Revisions, order: seq<Digest>) {
    Elements(order) == R.Keys && Greedy(R, order)
  }

  ghost predicate Greedy(R: Revisions, order: seq<Digest>) {
    forall i :: 0 <= i < |order| ==> LeastReady(R, Elements(order[..i]), order[i])
  }

  lemma EarlierIsStrictTotal(R: Revisions)
    ensures StrictTotal((a, b) => Earlier(R, a, b))
  {
  }

  lemma GreedyPrefix(R: Revisions, order: seq<Digest>, k: nat)
    requires Greedy(R, order) && k <= |order|
    ensures Greedy(R, order[..k])
  {
    forall i | 0 <= i < k ensures LeastReady(R, Elements(order[..k][..i]), order[..k][i]) {
      assert order[..k][..i] == order[..i];
    }
  }

  /** The order is a permutation of the history. */
  lemma {:induction false} GreedyNoDup(R: Revisions, order: seq<Digest>)
    requires Greedy(R, order)
    ensures NoDup(order)
  {
    forall i, j | 0 <= i < j < |order| ensures order[i] != order[j] {
      assert order[i] == order[..j][i] && order[i] in Elements(order[..j]);
      assert LeastReady(R, Elements(order[..j]), order[j]);
    }
  }

  /** No map iteration order and no clock reading decides between two orders: there is only one. */
  lemma {:induction false} OneOrder(R: Revisions, a: seq<Digest>, b: seq<Digest>)
    requires Greedy(R, a) && Greedy(R, b) && |a| == |b|
    ensures a == b
    decreases |a|
  {
    if a != [] {
      var n := |a| - 1;
      GreedyPrefix(R, a, n);
      GreedyPrefix(R, b, n);
      OneOrder(R, a[..n], b[..n]);
      assert LeastReady(R, Elements(a[..n]), a[n]) && LeastReady(R, Elements(b[..n]), b[n]);
      assert IsReady(R, Elements(a[..n]), b[n]);
      assert a == a[..n] + [a[n]] && b == b[..n] + [b[n]];
    }
  }

  lemma {:induction false} NoDupSize(s: seq<Digest>)
    requires NoDup(s)
    ensures |Elements(s)| == |s|
  {
    if s != [] {
      var n := |s| - 1;
      NoDupSize(s[..n]);
      assert Elements(s) == Elements(s[..n]) + {s[n]};
    }
  }

  lemma ChronologicalIsUnique(R: Revisions, a: seq<Digest>, b: seq<Digest>)
    requires Chronological(R, a) && Chronological(R, b)
    ensures a == b
  {
    GreedyNoDup(R, a);
    GreedyNoDup(R, b);
    NoDupSize(a);
    NoDupSize(b);
    OneOrder(R, a, b);
  }

  lemma {:induction false} PrefixKeepsAncestors(R: Revisions, order: seq<Digest>, k: nat, n: nat, d: Digest, a: Digest)
    requires Greedy(R, order) && k <= |order| && d in Elements(order[..k]) && ReachIn(RevisionParents(R), n, d, a)
    ensures a in Elements(order[..k])
    decreases n
  {
    if n > 0 {
      var p :| p in RevisionParents(R)[d] && ReachIn(RevisionParents(R), n - 1, p, a);
      var i :| 0 <= i < k && order[i] == d;
      assert LeastReady(R, Elements(order[..i]), order[i]);
      assert p in Deps(R, d);
      assert forall x :: x in order[..i] ==> x in order[..k];
      PrefixKeepsAncestors(R, order, k, n - 1, p, a);
    }
  }

  /** Whatever the clocks say, every ancestor of a revision comes before it. */
  lemma AncestorsFirst(R: Revisions, order: seq<Digest>, i: nat, a: Digest)
    requires Chronological(R, order) && i < |order|
    requires Reach(RevisionParents(R), order[i], a) && a != order[i]
    ensures a in order[..i]
  {
    var n: nat :| ReachIn(RevisionParents(R), n, order[i], a);
    assert order[..i + 1] == order[..i] + [order[i]];
    PrefixKeepsAncestors(R, order, i + 1, n, order[i], a);
  }

  /** Where ancestry does not decide, the earlier time comes first, and of equal times the smaller digest. */
  lemma TimeDecides(R: Revisions, order: seq<Digest>, i: nat, j: nat)
    requires Chronological(R, order) && i < j < |order| && order[i] in R && order[j] in R
    requires forall p :: p in R[order[j]].parents && p in R ==> p in order[..i]
    ensures R[order[i]].createdAt <= R[order[j]].createdAt
    ensures R[order[i]].createdAt == R[order[j]].createdAt ==> order[i] < order[j]
  {
    GreedyNoDup(R, order);
    assert LeastReady(R, Elements(order[..i]), order[i]);
    assert order[j] !in order[..i];
    assert IsReady(R, Elements(order[..i]), order[j]);
  }

  lemma {:induction false} LowestOf(S: set<Digest>, rank: Digest -> nat) returns (d: Digest)
    requires S != {}
    ensures d in S && forall e :: e in S ==> rank(d) <= rank(e)
    decreases S
  {
    d :| d in S;
    if S != {d} {
      var e := LowestOf(S - {d}, rank);
      d := if rank(e) < rank(d) then e else d;
    }
  }

  lemma SomeReady(R: Revisions, rank: Digest -> nat, out: set<Digest>) returns (d: Digest)
    requires Ranked(RevisionParents(R), rank) && R.Keys - out != {}
    ensures IsReady(R, out, d)
  {
    d := LowestOf(R.Keys - out, rank);
    forall p | p in Deps(R, d) ensures p in out {
      assert p in RevisionParents(R)[d] && p in RevisionParents(R);
    }
  }

  // ----- the sort

  /** How many of a revision's parents are not out yet. */
  ghost function Left(R: Revisions, out: set<Digest>, d: Digest): nat
    requires d in R
  {
    |Deps(R, d) - out|
  }

  ghost predicate ChildLists(R: Revisions, children: map<Digest, seq<Digest>>) {
    && children.Keys == R.Keys
    && (forall p, d {:trigger d in children[p]} :: p in children ==> (d in children[p] <==> d in R && p in Deps(R, d)))
    && (forall p {:trigger children[p]} :: p in children ==> NoDup(children[p]))
  }

  ghost predicate Waits(R: Revisions, out: set<Digest>, waiting: map<Digest, nat>) {
    waiting.Keys == R.Keys && forall d {:trigger waiting[d]} :: d in R ==> waiting[d] == Left(R, out, d)
  }

  ghost predicate ReadyList(R: Revisions, out: set<Digest>, ready: seq<Digest>) {
    NoDup(ready) && forall d {:trigger d in ready} :: d in ready <==> IsReady(R, out, d)
  }

  lemma LeftZero(R: Revisions, out: set<Digest>, d: Digest)
    requires d in R
    ensures Left(R, out, d) == 0 <==> Deps(R, d) <= out
  {
    var left := Deps(R, d) - out;
    assert forall p :: p in Deps(R, d) && p !in out ==> p in left;
    assert left == {} <==> Deps(R, d) <= out;
    assert |left| == 0 <==> left == {};
  }

  lemma LeftDrops(R: Revisions, out: set<Digest>, x: Digest, d: Digest)
    requires d in R && x !in out
    ensures Left(R, out + {x}, d) == if x in Deps(R, d) then Left(R, out, d) - 1 else Left(R, out, d)
  {
    if x in Deps(R, d) {
      assert Deps(R, d) - out == (Deps(R, d) - (out + {x})) + {x};
    } else {
      assert Deps(R, d) - out == Deps(R, d) - (out + {x});
    }
  }

  ghost predicate DistinctParents(R: Revisions) {
    forall d :: d in R ==> NoDup(R[d].parents)
  }

  lemma NotBefore(s: seq<Digest>, i: nat)
    requires NoDup(s) && i < |s|
    ensures s[i] in s && s[i] !in s[..i]
  {
  }

  ghost function KnownIn(R: Revisions, ps: seq<Digest>): set<Digest> {
    set p | p in ps && p in R
  }

  lemma KnownNext(R: Revisions, ps: seq<Digest>, i: nat)
    requires NoDup(ps) && i < |ps|
    ensures ps[i] !in KnownIn(R, ps[..i])
    ensures KnownIn(R, ps[..i + 1]) == if ps[i] in R then KnownIn(R, ps[..i]) + {ps[i]} else KnownIn(R, ps[..i])
  {
    NotBefore(ps, i);
    assert ps[..i + 1] == ps[..i] + [ps[i]];
  }

  /** Counts the parents of one revision that are in the history, and lists it under each. */
  method Enlist(R: Revisions, d: Digest, children: map<Digest, seq<Digest>>)
    returns (n: nat, lists: map<Digest, seq<Digest>>)
    requires d in R && NoDup(R[d].parents) && children.Keys == R.Keys
    ensures n == |Deps(R, d)| && lists.Keys == R.Keys
    ensures forall p :: p in R ==> lists[p] == if p in Deps(R, d) then children[p] + [d] else children[p]
  {
    var ps := R[d].parents;
    n, lists := 0, children;
    ghost var done: set<Digest> := {};
    for i := 0 to |ps|
      invariant done == KnownIn(R, ps[..i])
      invariant n == |done| && lists.Keys == R.Keys
      invariant forall p :: p in R ==> lists[p] == if p in done then children[p] + [d] else children[p]
    {
      KnownNext(R, ps, i);
      if ps[i] in R {
        n := n + 1;
        lists := lists[ps[i] := lists[ps[i]] + [d]];
        done := done + {ps[i]};
      }
    }
    assert ps[..|ps|] == ps && KnownIn(R, ps) == Deps(R, d);
  }

  ghost predicate Released(waiting: map<Digest, nat>, waits: map<Digest, nat>, cs: seq<Digest>) {
    && waits.Keys == waiting.Keys
    && (forall c {:trigger waiting[c]} {:trigger c in cs} :: c in cs ==> c in waiting && waiting[c] > 0)
    && (forall d {:trigger waits[d]} :: d in waits ==> waits[d] == if d in cs then waiting[d] - 1 else waiting[d])
  }

  /** Lets go of the children of a revision that is out: those that wait for no other parent become ready. */
  method Release(cs: seq<Digest>, waiting: map<Digest, nat>, ready: seq<Digest>)
    returns (waits: map<Digest, nat>, more: seq<Digest>)
    requires NoDup(cs) && NoDup(ready)
    requires forall c :: c in cs ==> c in waiting && waiting[c] > 0 && c !in ready
    ensures Released(waiting, waits, cs) && NoDup(more)
    ensures forall d {:trigger d in more} :: d in more <==> d in ready || (d in cs && waiting[d] == 1)
  {
    waits, more := waiting, ready;
    for i := 0 to |cs|
      invariant waits.Keys == waiting.Keys && NoDup(more)
      invariant forall d :: d in waiting ==> waits[d] == if d in cs[..i] then waiting[d] - 1 else waiting[d]
      invariant forall d :: d in more <==> d in ready || (d in cs[..i] && waiting[d] == 1)
    {
      var c := cs[i];
      NotBefore(cs, i);
      assert cs[..i + 1] == cs[..i] + [c];
      waits := waits[c := waits[c] - 1];
      if waits[c] == 0 {
        more := more + [c];
      }
    }
    assert cs[..|cs|] == cs;
  }

  ghost predicate Listed(R: Revisions, done: set<Digest>, children: map<Digest, seq<Digest>>) {
    && children.Keys == R.Keys
    && (forall p, d {:trigger d in children[p]} :: p in children ==>
          (d in children[p] <==> d in R && d in done && p in Deps(R, d)))
    && (forall p {:trigger children[p]} :: p in children ==> NoDup(children[p]))
  }

  lemma ListedNext(R: Revisions, done: set<Digest>, children: map<Digest, seq<Digest>>, d: Digest,
                   lists: map<Digest, seq<Digest>>)
    requires Listed(R, done, children) && d in R && d !in done && lists.Keys == R.Keys
    requires forall p :: p in R ==> lists[p] == if p in Deps(R, d) then children[p] + [d] else children[p]
    ensures Listed(R, done + {d}, lists)
  {
    forall p | p in lists ensures NoDup(lists[p]) {
      assert d !in children[p] && NoDup(children[p]);
    }
  }

  ghost predicate Counted(R: Revisions, done: set<Digest>, waiting: map<Digest, nat>, ready: seq<Digest>) {
    && waiting.Keys == done && NoDup(ready)
    && (forall d {:trigger waiting[d]} :: d in done && d in R ==> waiting[d] == Left(R, {}, d))
    && (forall d {:trigger d in ready} :: d in ready <==> d in done && IsReady(R, {}, d))
  }

  lemma CountedNext(R: Revisions, done: set<Digest>, waiting: map<Digest, nat>, ready: seq<Digest>, d: Digest, n: nat)
    requires Counted(R, done, waiting, ready) && d in R && d !in done && n == |Deps(R, d)|
    ensures Counted(R, done + {d}, waiting[d := n], if n == 0 then ready + [d] else ready)
  {
    LeftZero(R, {}, d);
    assert Deps(R, d) - {} == Deps(R, d);
    var more := if n == 0 then ready + [d] else ready;
    assert d in ready <==> d in done && IsReady(R, {}, d);
    forall e ensures e in more <==> e in done + {d} && IsReady(R, {}, e) {
      assert e in ready <==> e in done && IsReady(R, {}, e);
    }
  }

  lemma Prepared(R: Revisions, children: map<Digest, seq<Digest>>, waiting: map<Digest, nat>, ready: seq<Digest>)
    requires Listed(R, R.Keys, children) && Counted(R, R.Keys, waiting, ready)
    ensures ChildLists(R, children) && Waits(R, {}, waiting) && ReadyList(R, {}, ready)
  {
    forall d ensures d in ready <==> IsReady(R, {}, d) {
      assert d in ready <==> d in R.Keys && IsReady(R, {}, d);
    }
  }

  lemma MoveOne(todo: set<Digest>, done: set<Digest>, d: Digest)
    requires d in todo && todo !! done
    ensures (todo - {d}) !! (done + {d}) && (todo - {d}) + (done + {d}) == todo + done
  {
  }

  method Prepare(R: Revisions)
    returns (waiting: map<Digest, nat>, children: map<Digest, seq<Digest>>, ready: seq<Digest>)
    requires DistinctParents(R)
    ensures ChildLists(R, children) && Waits(R, {}, waiting) && ReadyList(R, {}, ready)
  {
    waiting, children, ready := map[], map d | d in R :: [], [];
    var todo := R.Keys;
    ghost var done: set<Digest> := {};
    while todo != {}
      invariant todo !! done && todo + done == R.Keys
      invariant Listed(R, done, children) && Counted(R, done, waiting, ready)
      decreases todo
    {
      var d :| d in todo;
      waiting, children, ready := EnlistAndCount(R, done, d, waiting, children, ready);
      MoveOne(todo, done, d);
      done, todo := done + {d}, todo - {d};
    }
    assert done == R.Keys;
    Prepared(R, children, waiting, ready);
  }

  method EnlistAndCount(R: Revisions, ghost done: set<Digest>, d: Digest, waiting: map<Digest, nat>,
                        children: map<Digest, seq<Digest>>, ready: seq<Digest>)
    returns (waits: map<Digest, nat>, lists: map<Digest, seq<Digest>>, more: seq<Digest>)
    requires Listed(R, done, children) && Counted(R, done, waiting, ready) && DistinctParents(R) && d in R && d !in done
    ensures Listed(R, done + {d}, lists) && Counted(R, done + {d}, waits, more)
  {
    var n;
    n, lists := Enlist(R, d, children);
    ListedNext(R, done, children, d, lists);
    CountedNext(R, done, waiting, ready, d, n);
    waits := waiting[d := n];
    more := if n == 0 then ready + [d] else ready;
  }

  /** Taking a ready revision out keeps every count right. */
  lemma CountsAfter(R: Revisions, out: set<Digest>, x: Digest, waiting: map<Digest, nat>, waits: map<Digest, nat>,
                    cs: seq<Digest>)
    requires Waits(R, out, waiting) && x !in out && Released(waiting, waits, cs)
    requires forall d {:trigger d in cs} :: d in cs <==> d in R && x in Deps(R, d)
    ensures Waits(R, out + {x}, waits)
  {
    forall d | d in R ensures waits[d] == Left(R, out + {x}, d) {
      LeftDrops(R, out, x, d);
      assert waiting[d] == Left(R, out, d);
      assert d in cs <==> x in Deps(R, d);
    }
  }

  ghost predicate DepsOut(R: Revisions, out: set<Digest>) {
    forall d {:trigger d in out} :: d in out && d in R ==> Deps(R, d) <= out
  }

  lemma ReadyAfter(R: Revisions, out: set<Digest>, x: Digest, d: Digest)
    requires IsReady(R, out, x) && DepsOut(R, out)
    ensures IsReady(R, out + {x}, d) <==>
              (IsReady(R, out, d) && d != x) || (d in R && x in Deps(R, d) && Left(R, out, d) == 1)
  {
    if d in R {
      LeftZero(R, out, d);
      LeftZero(R, out + {x}, d);
      LeftDrops(R, out, x, d);
      assert d in out ==> x !in Deps(R, d);
    }
  }

  lemma ListAfter(R: Revisions, out: set<Digest>, x: Digest, waiting: map<Digest, nat>, cs: seq<Digest>,
                  rest: seq<Digest>, more: seq<Digest>)
    requires IsReady(R, out, x) && DepsOut(R, out) && Waits(R, out, waiting)
    requires forall d {:trigger d in cs} :: d in cs <==> d in R && x in Deps(R, d)
    requires forall d {:trigger d in rest} :: d in rest <==> IsReady(R, out, d) && d != x
    requires forall d {:trigger d in cs} :: d in cs ==> d in waiting
    requires NoDup(more) && forall d {:trigger d in more} :: d in more <==> d in rest || (d in cs && waiting[d] == 1)
    ensures ReadyList(R, out + {x}, more)
  {
    forall d ensures d in more <==> IsReady(R, out + {x}, d) {
      ReadyAfter(R, out, x, d);
      assert d in R ==> waiting[d] == Left(R, out, d);
      assert d in cs <==> d in R && x in Deps(R, d);
      assert d in rest <==> IsReady(R, out, d) && d != x;
    }
  }

  /** Children of a ready revision still wait for it. */
  lemma ChildrenWait(R: Revisions, out: set<Digest>, x: Digest, c: Digest)
    requires c in R && x in Deps(R, c) && x !in out
    ensures Left(R, out, c) > 0 && !IsReady(R, out, c)
  {
    LeftZero(R, out, c);
  }

  ghost predicate LoopInv(R: Revisions, order: seq<Digest>, waiting: map<Digest, nat>, ready: seq<Digest>) {
    && Greedy(R, order) && Elements(order) <= R.Keys && DepsOut(R, Elements(order))
    && Waits(R, Elements(order), waiting) && ReadyList(R, Elements(order), ready)
  }

  lemma GreedyNext(R: Revisions, order: seq<Digest>, x: Digest)
    requires Greedy(R, order) && LeastReady(R, Elements(order), x) && DepsOut(R, Elements(order))
    ensures DepsOut(R, Elements(order + [x])) && Greedy(R, order + [x]) &&
            Elements(order + [x]) == Elements(order) + {x}
  {
    var more := order + [x];
    forall i | 0 <= i < |more| ensures LeastReady(R, Elements(more[..i]), more[i]) {
      assert more[..i] == if i < |order| then order[..i] else order;
    }
  }

  lemma LeastFirst(R: Revisions, out: set<Digest>, sorted: seq<Digest>)
    requires sorted != [] && SortedBy((a, b) => Earlier(R, a, b), sorted)
    requires forall d {:trigger d in sorted} :: d in sorted <==> IsReady(R, out, d)
    ensures LeastReady(R, out, sorted[0]) && SortedBy((a, b) => Earlier(R, a, b), sorted[1..])
    ensures forall d {:trigger d in sorted[1..]} :: d in sorted[1..] <==> IsReady(R, out, d) && d != sorted[0]
  {
    assert sorted[0] in sorted;
    EarlierIsStrictTotal(R);
    TailSorted((a, b) => Earlier(R, a, b), sorted);
    assert forall d :: d in sorted[1..] ==> Earlier(R, sorted[0], d);
  }

  lemma ChildrenOf(R: Revisions, out: set<Digest>, children: map<Digest, seq<Digest>>, waiting: map<Digest, nat>,
                   x: Digest, rest: seq<Digest>)
    requires ChildLists(R, children) && Waits(R, out, waiting) && x in R && x !in out
    requires forall d {:trigger d in rest} :: d in rest ==> IsReady(R, out, d)
    ensures NoDup(children[x]) && forall d {:trigger d in children[x]} :: d in children[x] <==>
              d in R && x in Deps(R, d)
    ensures forall c {:trigger c in children[x]} :: c in children[x] ==> c in waiting && waiting[c] > 0 && c !in rest
  {
    forall c | c in children[x] ensures c in waiting && waiting[c] > 0 && c !in rest {
      ChildrenWait(R, out, x, c);
      assert c in R && waiting[c] == Left(R, out, c);
    }
  }

  /** One round: sorts what is ready, and lets the least out. */
  method TakeLeast(R: Revisions, ghost out: set<Digest>, children: map<Digest, seq<Digest>>, waiting: map<Digest, nat>,
                   ready: seq<Digest>)
    returns (x: Digest, waits: map<Digest, nat>, more: seq<Digest>)
    requires ChildLists(R, children) && Waits(R, out, waiting) && ReadyList(R, out, ready) && DepsOut(R, out) &&
             ready != []
    ensures LeastReady(R, out, x) && Waits(R, out + {x}, waits) && ReadyList(R, out + {x}, more)
  {
    var less := (a: Digest, b: Digest) => Earlier(R, a, b);
    EarlierIsStrictTotal(R);
    SortSorts(less, ready);
    var sorted := Sort(less, ready);
    LeastFirst(R, out, sorted);
    x := sorted[0];
    var rest := sorted[1..];
    ChildrenOf(R, out, children, waiting, x, rest);
    SortedNoDup(R, rest);
    waits, more := Release(children[x], waiting, rest);
    CountsAfter(R, out, x, waiting, waits, children[x]);
    ListAfter(R, out, x, waiting, children[x], rest, more);
  }

  lemma SortedNoDup(R: Revisions, sorted: seq<Digest>)
    requires SortedBy((a, b) => Earlier(R, a, b), sorted)
    ensures NoDup(sorted)
  {
  }

  lemma StartInv(R: Revisions, waiting: map<Digest, nat>, ready: seq<Digest>)
    requires Waits(R, {}, waiting) && ReadyList(R, {}, ready)
    ensures LoopInv(R, [], waiting, ready)
  {
    var none: seq<Digest> := [];
    assert Elements(none) == {};
  }

  lemma RoundKeeps(R: Revisions, order: seq<Digest>, x: Digest, waits: map<Digest, nat>, more: seq<Digest>)
    requires Greedy(R, order) && Elements(order) <= R.Keys && DepsOut(R, Elements(order)) &&
             LeastReady(R, Elements(order), x)
    requires Waits(R, Elements(order) + {x}, waits) && ReadyList(R, Elements(order) + {x}, more)
    ensures LoopInv(R, order + [x], waits, more)
    ensures R.Keys - Elements(order + [x]) < R.Keys - Elements(order)
  {
    GreedyNext(R, order, x);
    assert x in R.Keys - Elements(order);
  }

  lemma NoneReady(R: Revisions, out: set<Digest>)
    requires ReadyList(R, out, [])
    ensures forall d :: !IsReady(R, out, d)
  {
    var none: seq<Digest> := [];
    forall d ensures !IsReady(R, out, d) {
      assert d in none <==> IsReady(R, out, d);
    }
  }

  lemma AllOut(R: Revisions, rank: Digest -> nat, order: seq<Digest>)
    requires Ranked(RevisionParents(R), rank) && Elements(order) <= R.Keys && ReadyList(R, Elements(order), [])
    ensures Elements(order) == R.Keys
  {
    NoneReady(R, Elements(order));
    assert forall d :: d in R.Keys && d !in Elements(order) ==> d in R.Keys - Elements(order);
    if R.Keys - Elements(order) != {} {
      var d := SomeReady(R, rank, Elements(order));
    }
  }

  /** Orders revisions so that every one comes after its parents, and otherwise by time and digest. */
  method ChronologicalOrder(R: Revisions, ghost rank: Digest -> nat) returns (order: seq<Digest>)
    requires Ranked(RevisionParents(R), rank) && DistinctParents(R)
    ensures Chronological(R, order)
  {
    var waiting, children, ready := Prepare(R);
    order := [];
    StartInv(R, waiting, ready);
    while ready != []
      invariant LoopInv(R, order, waiting, ready)
      decreases R.Keys - Elements(order)
    {
      ghost var before := order;
      var x;
      x, waiting, ready := TakeLeast(R, Elements(before), children, waiting, ready);
      RoundKeeps(R, before, x, waiting, ready);
      order := order + [x];
    }
    AllOut(R, rank, order);
  }
}
