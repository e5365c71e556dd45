/** Compacting a history (app/compact.go). */
module Compacting {
  import opened Orders
  import opened Digests
  import opened Dag
  import opened Control
  import opened Compaction

  // ----- the floor

  /** The first parent the graph holds. */
  function FirstPresent(P: Parents, ps: seq<Digest>): Option<Digest> {
    if ps == [] then None else if ps[0] in P then Some(ps[0]) else FirstPresent(P, ps[1..])
  }

  lemma {:induction false} FirstPresentIsParent(P: Parents, ps: seq<Digest>)
    ensures FirstPresent(P, ps).Some? ==> FirstPresent(P, ps).value in ps && FirstPresent(P, ps).value in P
    ensures FirstPresent(P, ps).None? <==> forall p :: p in ps ==> p !in P
  {
    if ps != [] {
      FirstPresentIsParent(P, ps[1..]);
      assert forall p :: p in ps <==> p == ps[0] || p in ps[1..];
    }
  }

  /** `f` is `n` first-parent steps behind `d`. */
  ghost predicate StepsBehind(P: Parents, d: Digest, n: nat, f: Digest)
    decreases n
  {
    d in P &&
    if n == 0 then f == d
    else FirstPresent(P, P[d]).Some? && StepsBehind(P, FirstPresent(P, P[d]).value, n - 1, f)
  }

  lemma {:induction false} StepsBehindExtend(P: Parents, d: Digest, n: nat, f: Digest)
    requires StepsBehind(P, d, n, f)
    ensures f in P && Reach(P, d, f)
    ensures FirstPresent(P, P[f]).Some? ==> StepsBehind(P, d, n + 1, FirstPresent(P, P[f]).value)
    decreases n
  {
    FirstPresentIsParent(P, P[d]);
    if n == 0 {
      ReachRefl(P, d);
    } else {
      var p := FirstPresent(P, P[d]).value;
      StepsBehindExtend(P, p, n - 1, f);
      ReachStep(P, d, p, f);
    }
  }

  /** `floor` is `keep - 1` first-parent steps behind the head, or, if the history is shorter, its first revision. */
  ghost predicate IsFloor(P: Parents, head: Digest, keep: int, floor: Digest) {
    && floor in P
    && exists n: nat :: n < keep && StepsBehind(P, head, n, floor) &&
                        (n == keep - 1 || forall p :: p in P[floor] ==> p !in P)
  }

  /** The chain from the head down to the floor: each link is the first parent that is present, and there are `keep` links
      unless the history ends before. */
  lemma FloorIsBehind(P: Parents, head: Digest, keep: int, floor: Digest) returns (chain: seq<Digest>)
    requires IsFloor(P, head, keep, floor)
    ensures 0 < |chain| <= keep && chain[0] == head && chain[|chain| - 1] == floor
    ensures forall i :: 0 <= i < |chain| ==> chain[i] in P
    ensures forall i :: 0 <= i < |chain| - 1 ==> IsFirstPresent(P, P[chain[i]], chain[i + 1])
    ensures |chain| == keep || forall p :: p in P[floor] ==> p !in P
  {
    var n: nat :| n < keep && StepsBehind(P, head, n, floor) &&
                  (n == keep - 1 || forall p :: p in P[floor] ==> p !in P);
    chain := ChainOf(P, head, n, floor);
  }

  ghost predicate IsFirstPresent(P: Parents, ps: seq<Digest>, p: Digest) {
    p in P && exists k :: 0 <= k < |ps| && ps[k] == p && forall m :: 0 <= m < k ==> ps[m] !in P
  }

  lemma {:induction false} FirstPresentIsFirst(P: Parents, ps: seq<Digest>)
    ensures FirstPresent(P, ps).Some? ==> IsFirstPresent(P, ps, FirstPresent(P, ps).value)
  {
    if ps != [] {
      if ps[0] in P {
        assert ps[0] == FirstPresent(P, ps).value;
      } else {
        FirstPresentIsFirst(P, ps[1..]);
        if FirstPresent(P, ps).Some? {
          var rest, p := ps[1..], FirstPresent(P, ps).value;
          var k :| 0 <= k < |rest| && rest[k] == p && forall m :: 0 <= m < k ==> rest[m] !in P;
          assert ps[k + 1] == p && forall m :: 0 < m < k + 1 ==> ps[m] == rest[m - 1];
        }
      }
    }
  }

  lemma {:induction false} ChainOf(P: Parents, d: Digest, n: nat, f: Digest) returns (chain: seq<Digest>)
    requires StepsBehind(P, d, n, f)
    ensures |chain| == n + 1 && chain[0] == d && chain[n] == f
    ensures forall i :: 0 <= i < |chain| ==> chain[i] in P
    ensures forall i :: 0 <= i < |chain| - 1 ==> IsFirstPresent(P, P[chain[i]], chain[i + 1])
    decreases n
  {
    if n == 0 {
      chain := [d];
    } else {
      FirstPresentIsFirst(P, P[d]);
      var rest := ChainOf(P, FirstPresent(P, P[d]).value, n - 1, f);
      chain := [d] + rest;
    }
  }

  /** Walks keep-1 first-parent steps back from the head, or to the first revision if the history is shorter. */
  method CompactionFloor(g: Graph, head: Digest, keep: nat) returns (floor: Digest)
    requires head in g.parents && keep >= 1
    ensures Reach(g.parents, head, floor) && floor in g.parents
    ensures IsFloor(g.parents, head, keep, floor)
  {
    floor := head;
    ghost var n: nat := 0;
    assert StepsBehind(g.parents, head, 0, floor);
    for i := 1 to keep
      invariant n == i - 1 && StepsBehind(g.parents, head, n, floor)
    {
      StepsBehindExtend(g.parents, head, n, floor);
      FirstPresentIsParent(g.parents, g.parents[floor]);
      var next := FirstPresent(g.parents, g.parents[floor]);
      if next.None? {
        return;
      }
      floor := next.value;
      n := n + 1;
    }
    StepsBehindExtend(g.parents, head, n, floor);
  }

  // ----- what is kept

  /** The ancestors of the head that descend from the floor, both included. */
  ghost function Between(P: Parents, head: Digest, floor: Digest): set<Digest> {
    set d | d in P.Keys && Reach(P, head, d) && Reach(P, d, floor)
  }

  /** The children each ancestor of the head has among those ancestors. */
  method ChildrenWithin(g: Graph, anc: set<Digest>) returns (children: map<Digest, set<Digest>>)
    requires anc <= g.parents.Keys
    ensures forall p :: p in children ==> p in anc
    ensures forall p, d :: p in children && d in children[p] ==> d in anc && p in g.parents[d]
    ensures forall p, d :: d in anc && p in anc && p in g.parents[d] ==> p in children && d in children[p]
  {
    children := map[];
    var todo := anc;
    while todo != {}
      invariant todo <= anc
      invariant forall p :: p in children ==> p in anc
      invariant forall p, d :: p in children && d in children[p] ==> d in anc && p in g.parents[d]
      invariant forall p, d :: d in anc - todo && p in anc && p in g.parents[d] ==> p in children && d in children[p]
      decreases todo
    {
      var d :| d in todo;
      todo := todo - {d};
      children := AddChild(children, anc, d, g.parents[d]);
    }
  }

  method AddChild(before: map<Digest, set<Digest>>, anc: set<Digest>, d: Digest, ps: seq<Digest>)
    returns (after: map<Digest, set<Digest>>)
    ensures forall p :: p in after <==> p in before || (p in anc && p in ps)
    ensures forall p :: p in after ==>
              after[p] == (if p in before then before[p] else {}) + (if p in anc && p in ps then {d} else {})
  {
    after := before;
    for i := 0 to |ps|
      invariant forall p :: p in after <==> p in before || (p in anc && p in ps[..i])
      invariant forall p :: p in after ==>
                  after[p] == (if p in before then before[p] else {}) + (if p in anc && p in ps[..i] then {d} else {})
    {
      var p := ps[i];
      assert ps[..i + 1] == ps[..i] + [p];
      if p in anc {
        after := after[p := (if p in after then after[p] else {}) + {d}];
      }
    }
    assert ps[..|ps|] == ps;
  }

  /** The walk up from the floor: everything kept lies between, and every child of what is kept is kept or waits. */
  ghost predicate KeptInv(P: Parents, head: Digest, floor: Digest, kept: set<Digest>, stack: seq<Digest>) {
    && floor in kept && kept <= Between(P, head, floor)
    && (forall x :: x in stack ==> x in kept)
    && (forall x, c :: x in kept && c in P && Reach(P, head, c) && x in P[c] ==> c in kept || x in stack)
  }

  lemma {:induction false} KeptReaches(P: Parents, head: Digest, floor: Digest, kept: set<Digest>, n: nat, d: Digest)
    requires KeptInv(P, head, floor, kept, []) && Reach(P, head, d) && ReachIn(P, n, d, floor)
    ensures d in kept
  {
    if n > 0 {
      var p :| p in P[d] && ReachIn(P, n - 1, p, floor);
      ReachParent(P, d, p);
      ReachTrans(P, head, d, p);
      KeptReaches(P, head, floor, kept, n - 1, p);
    }
  }

  /** Keeps the children not kept yet and puts them on the stack. */
  method PushNew(children: set<Digest>, kept0: set<Digest>, stack0: seq<Digest>)
    returns (kept: set<Digest>, stack: seq<Digest>)
    ensures kept == kept0 + children
    ensures forall x :: x in stack <==> x in stack0 || (x in children && x !in kept0)
    ensures children <= kept0 ==> stack == stack0
  {
    kept, stack := kept0, stack0;
    var todo := children;
    while todo != {}
      invariant todo <= children && kept == kept0 + (children - todo)
      invariant forall x :: x in stack <==> x in stack0 || (x in children - todo && x !in kept0)
      invariant children <= kept0 ==> stack == stack0
      decreases todo
    {
      var c :| c in todo;
      todo := todo - {c};
      if c !in kept {
        kept := kept + {c};
        stack := stack + [c];
      }
    }
  }

  lemma KeptStep(P: Parents, head: Digest, floor: Digest, kept: set<Digest>, stack: seq<Digest>, cur: Digest,
                 rest: seq<Digest>, children: set<Digest>, stack2: seq<Digest>)
    requires KeptInv(P, head, floor, kept, stack) && cur in stack && forall x :: x in stack <==> x == cur || x in rest
    requires forall c :: c in children <==> c in P && Reach(P, head, c) && cur in P[c]
    requires forall x :: x in stack2 <==> x in rest || (x in children && x !in kept)
    ensures KeptInv(P, head, floor, kept + children, stack2)
  {
    forall c | c in children ensures c in Between(P, head, floor) {
      ReachStep(P, c, cur, floor);
    }
  }

  method KeptRevisions(g: Graph, head: Digest, floor: Digest) returns (kept: set<Digest>)
    requires Reach(g.parents, head, floor)
    ensures kept == Between(g.parents, head, floor)
  {
    ghost var P := g.parents;
    var anc := g.Ancestors(head);
    var children := ChildrenWithin(g, anc);
    ReachEnds(P, head, floor);
    ReachRefl(P, floor);
    kept := {floor};
    var stack := [floor];
    while |stack| > 0
      invariant KeptInv(P, head, floor, kept, stack)
      decreases Between(P, head, floor) - kept, |stack|
    {
      var cur, rest := stack[|stack| - 1], stack[..|stack| - 1];
      assert stack == rest + [cur];
      var cs := if cur in children then children[cur] else {};
      assert cur in kept && cur in anc;
      forall c ensures c in cs <==> c in P && Reach(P, head, c) && cur in P[c] {
        assert c in anc <==> c in P && Reach(P, head, c);
      }
      var kept2, stack2 := PushNew(cs, kept, rest);
      KeptStep(P, head, floor, kept, stack, cur, rest, cs, stack2);
      kept, stack := kept2, stack2;
    }
    assert stack == [];
    forall d | d in Between(P, head, floor) ensures d in kept {
      var n: nat :| ReachIn(P, n, d, floor);
      KeptReaches(P, head, floor, kept, n, d);
    }
  }

  // ----- the records

  /** Signing splits the removed list into records of at most the allowed size, all with the same floor. */
  function Chunks(resource: string, floor: Digest, removed: seq<Digest>, control: Digest,
                  author: DeviceId): (rs: seq<Record>)
    decreases |removed|
  {
    if removed == [] then []
    else if |removed| <= MAX_COMPACTION_REMOVED then [Record(resource, floor, removed, control, author)]
    else [Record(resource, floor, removed[..MAX_COMPACTION_REMOVED], control, author)]
         + Chunks(resource, floor, removed[MAX_COMPACTION_REMOVED..], control, author)
  }

  /** The records are valid, share the floor, and together list exactly what is removed. */
  lemma {:induction false} ChunksCover(resource: string, floor: Digest, removed: seq<Digest>, control: Digest,
                                       author: DeviceId)
    requires resource != "" && StrictlySorted(removed) && floor !in removed
    ensures var rs := Chunks(resource, floor, removed, control, author);
            && (forall r :: r in rs ==> WellFormedRecord(r) && r.floor == floor)
            && (forall r :: r in rs ==> r.resource == resource && r.control == control && r.author == author)
            && (forall d :: d in removed <==> exists r :: r in rs && d in r.removed)
    decreases |removed|
  {
    var rs := Chunks(resource, floor, removed, control, author);
    if removed == [] {
    } else if |removed| <= MAX_COMPACTION_REMOVED {
      assert rs[0] in rs;
    } else {
      var first, rest := removed[..MAX_COMPACTION_REMOVED], removed[MAX_COMPACTION_REMOVED..];
      var tail := Chunks(resource, floor, rest, control, author);
      assert removed == first + rest;
      ChunksCover(resource, floor, rest, control, author);
      assert rs == [Record(resource, floor, first, control, author)] + tail;
      assert forall r :: r in rs <==> r == Record(resource, floor, first, control, author) || r in tail;
    }
  }

  // ----- the whole operation, with storage that may fail after any call

  class ResourceStore {
    var graph: Parents
    var records: seq<Record>
    /** How many more calls succeed before storage fails. */
    var calls: nat

    constructor (g: Parents, rs: seq<Record>, n: nat)
      ensures graph == g && records == rs && calls == n
    {
      graph, records, calls := g, rs, n;
    }

    method Publish(r: Record) returns (ok: bool)
      modifies this
      ensures graph == old(graph) && (ok <==> old(calls) > 0)
      ensures records == if ok then old(records) + [r] else old(records)
      ensures calls == if ok then old(calls) - 1 else 0
    {
      ok := calls > 0;
      if ok {
        records := records + [r];
        calls := calls - 1;
      }
    }

    /** Deleting a revision that is already gone succeeds. */
    method Delete(d: Digest) returns (ok: bool)
      modifies this
      ensures records == old(records) && (ok <==> old(calls) > 0)
      ensures graph == if ok then old(graph) - {d} else old(graph)
      ensures calls == if ok then old(calls) - 1 else 0
    {
      ok := calls > 0;
      if ok {
        graph := graph - {d};
        calls := calls - 1;
      }
    }
  }

  datatype CompactOutcome = InvalidArgument | ConcurrentHeads | NothingToRemove | Stopped | Finished(floor: Digest)

  /** Publishes the records in order, as far as storage lets it. */
  method PublishCompaction(store: ResourceStore, rs: seq<Record>) returns (ok: bool, ghost p: nat)
    modifies store
    ensures store.graph == old(store.graph)
    ensures p <= |rs| && store.records == old(store.records) + rs[..p] && (ok <==> p == |rs|)
    ensures old(store.calls) >= |rs| ==> ok && store.calls == old(store.calls) - |rs|
  {
    p := 0;
    for i := 0 to |rs|
      invariant p == i && store.graph == old(store.graph)
      invariant store.records == old(store.records) + rs[..i]
      invariant old(store.calls) >= i && store.calls == old(store.calls) - i
    {
      assert rs[..i + 1] == rs[..i] + [rs[i]];
      var published := store.Publish(rs[i]);
      if !published {
        return false, p;
      }
      p := p + 1;
    }
    ok := true;
  }

  /** Each of these is listed by some record with this floor. */
  ghost predicate ListedUnder(records: set<Record>, floor: Digest, ds: seq<Digest>) {
    forall d :: d in ds ==> exists r :: r in records && d in r.removed && r.floor == floor
  }

  lemma DeleteListed(records: set<Record>, floor: Digest, ds: seq<Digest>, shown0: set<Digest>, shown: set<Digest>,
                     d: Digest)
    requires ListedUnder(records, floor, ds) && d in ds && floor in shown && floor != d
    requires ShownOrExcused(records, shown0) <= ShownOrExcused(records, shown)
    ensures ShownOrExcused(records, shown0) <= ShownOrExcused(records, shown - {d})
  {
    var r :| r in records && d in r.removed && r.floor == floor;
    DeletionExcused(records, shown, r, d);
  }

  lemma TakeOne(s: seq<Digest>, i: nat)
    requires i < |s|
    ensures Elements(s[..i + 1]) == Elements(s[..i]) + {s[i]}
  {
    assert s[..i + 1] == s[..i] + [s[i]];
  }

  /** Deletes what the published records list; wherever it stops, nothing shown or excused before is lost. */
  method DeleteAll(store: ResourceStore, removed: seq<Digest>, floor: Digest) returns (ok: bool, ghost q: nat)
    requires floor in store.graph && floor !in removed
    requires ListedUnder(Elements(store.records), floor, removed)
    modifies store
    ensures store.records == old(store.records)
    ensures q <= |removed| && store.graph == old(store.graph) - Elements(removed[..q]) && (ok <==> q == |removed|)
    ensures ShownOrExcused(Elements(store.records), old(store.graph).Keys) <=
              ShownOrExcused(Elements(store.records), store.graph.Keys)
    ensures old(store.calls) >= |removed| ==> ok
  {
    ghost var records := Elements(store.records);
    q := 0;
    for i := 0 to |removed|
      invariant q == i && store.records == old(store.records)
      invariant store.graph == old(store.graph) - Elements(removed[..i]) && floor in store.graph
      invariant ShownOrExcused(records, old(store.graph).Keys) <= ShownOrExcused(records, store.graph.Keys)
      invariant old(store.calls) >= i && store.calls == old(store.calls) - i
    {
      var d := removed[i];
      TakeOne(removed, i);
      ghost var shown := store.graph.Keys;
      DeleteListed(records, floor, removed, old(store.graph).Keys, shown, d);
      var deleted := store.Delete(d);
      if !deleted {
        return false, q;
      }
      q := q + 1;
      assert store.graph.Keys == shown - {d};
    }
    ok := true;
  }

  /** What compacting down to this floor removes. */
  ghost function ToRemove(seen: Parents, head: Digest, floor: Digest): seq<Digest> {
    Listing(seen.Keys - Between(seen, head, floor))
  }

  /** How far a compaction got: `p` of its records are published, in order, and, if
      all are, `q` of its deletions are made. */
  ghost predicate Progress(graph: Parents, records: seq<Record>, rs: seq<Record>, removed: seq<Digest>, p: nat, q: nat,
                           graph2: Parents, records2: seq<Record>)
  {
    && p <= |rs| && q <= |removed| && (q > 0 ==> p == |rs|)
    && records2 == records + rs[..p] && graph2 == graph - Elements(removed[..q])
  }

  /** Compacts what a read of this resource saw. `heads` are its trusted heads and `seen` the graph it saw; others may have
      published since. However many storage calls succeed, every revision that was shown or excused stays so. */
  method CompactHistory(store: ResourceStore, resource: string, seen: Parents, heads: seq<Digest>, keep: int,
                        control: Digest, author: DeviceId)
    returns (outcome: CompactOutcome, ghost floor: Digest, ghost p: nat, ghost q: nat)
    requires resource != "" && Extends(seen, store.graph) && forall h :: h in heads ==> h in seen
    modifies store
    ensures ShownOrExcused(Elements(old(store.records)), old(store.graph).Keys) <=
              ShownOrExcused(Elements(store.records), store.graph.Keys)
    ensures outcome.InvalidArgument? <==> keep < 1
    ensures outcome.ConcurrentHeads? <==> keep >= 1 && |heads| != 1
    ensures outcome.InvalidArgument? || outcome.ConcurrentHeads? ==>
              store.graph == old(store.graph) && store.records == old(store.records)
    ensures keep >= 1 && |heads| == 1 ==>
      var removed := ToRemove(seen, heads[0], floor);
      var rs := Chunks(resource, floor, removed, control, author);
      && Reach(seen, heads[0], floor) && IsFloor(seen, heads[0], keep, floor)
      && Progress(old(store.graph), old(store.records), rs, removed, p, q, store.graph, store.records)
      && (outcome.NothingToRemove? <==> removed == [])
      && (outcome.Finished? ==> outcome.floor == floor)
      && (outcome.Finished? <==> removed != [] && p == |rs| && q == |removed|)
    ensures outcome.Finished? ==> forall d ::
              d in store.graph <==>
                d in old(store.graph) && (d in seen ==> Reach(seen, heads[0], d) && Reach(seen, d, outcome.floor))
    ensures forall d :: d in old(store.graph) && d !in store.graph ==> exists r ::
              && r in store.records && d in r.removed && r.floor == floor && floor in store.graph
              && r.resource == resource && r.control == control && r.author == author && WellFormedRecord(r)
    ensures old(store.calls) >= 2 * |seen| ==> !outcome.Stopped?
  {
    floor, p, q := 0, 0, 0;
    if keep < 1 {
      outcome := InvalidArgument;
      return;
    }
    if |heads| != 1 {
      outcome := ConcurrentHeads;
      return;
    }
    var head := heads[0];
    var g := new Graph.From(seen);
    var bottom := CompactionFloor(g, head, keep);
    floor := bottom;
    var kept := KeptRevisions(g, head, bottom);
    var removed := Collect(seen.Keys - kept);
    IsListing(removed);
    ReachRefl(seen, floor);
    assert floor in kept && floor !in Elements(removed);
    if |removed| == 0 {
      assert store.records + Chunks(resource, floor, removed, control, author)[..0] == store.records;
      assert store.graph - Elements(removed[..0]) == store.graph;
      outcome := NothingToRemove;
      return;
    }
    outcome, p, q := PublishThenDelete(store, resource, removed, bottom, control, author);
    Recorded(old(store.graph), old(store.records), resource, floor, removed, control, author, p, q, store.graph,
             store.records);
    assert removed[..|removed|] == removed;
    ListingSize(removed);
    SubsetSize(Elements(removed), seen.Keys);
  }

  /** What is gone is in a record that is out, and the floor is there. */
  lemma Recorded(graph: Parents, records: seq<Record>, resource: string, floor: Digest, removed: seq<Digest>,
                 control: Digest, author: DeviceId, p: nat, q: nat, graph2: Parents, records2: seq<Record>)
    requires resource != "" && StrictlySorted(removed) && floor !in removed && floor in graph
    requires Progress(graph, records, Chunks(resource, floor, removed, control, author), removed, p, q, graph2,
                      records2)
    ensures floor in graph2
    ensures forall d :: d in graph && d !in graph2 ==> exists r ::
              && r in records2 && d in r.removed && r.floor == floor
              && r.resource == resource && r.control == control && r.author == author && WellFormedRecord(r)
  {
    var rs := Chunks(resource, floor, removed, control, author);
    ChunksCover(resource, floor, removed, control, author);
    assert rs[..|rs|] == rs;
    forall d | d in graph && d !in graph2
      ensures exists r ::
                && r in records2 && d in r.removed && r.floor == floor
                && r.resource == resource && r.control == control && r.author == author && WellFormedRecord(r)
    {
      assert d in removed[..q] && d in removed;
      var r :| r in rs && d in r.removed;
      assert r in records2;
    }
  }

  /** The records go out before the first deletion. */
  method PublishThenDelete(store: ResourceStore, resource: string, removed: seq<Digest>, floor: Digest,
                           control: Digest, author: DeviceId)
    returns (outcome: CompactOutcome, ghost p: nat, ghost q: nat)
    requires resource != "" && floor in store.graph && StrictlySorted(removed) && floor !in removed && removed != []
    modifies store
    ensures ShownOrExcused(Elements(old(store.records)), old(store.graph).Keys) <=
              ShownOrExcused(Elements(store.records), store.graph.Keys)
    ensures var rs := Chunks(resource, floor, removed, control, author);
            && Progress(old(store.graph), old(store.records), rs, removed, p, q, store.graph, store.records)
            && (outcome == Finished(floor) <==> p == |rs| && q == |removed|) &&
               (outcome == Finished(floor) || outcome == Stopped)
    ensures old(store.calls) >= 2 * |removed| ==> !outcome.Stopped?
  {
    var rs := Chunks(resource, floor, removed, control, author);
    ChunksCover(resource, floor, removed, control, author);
    ChunksFew(resource, floor, removed, control, author);
    ghost var shown := store.graph.Keys;
    q := 0;
    var published;
    published, p := PublishCompaction(store, rs);
    assert forall r :: r in old(store.records) ==> r in store.records;
    ShownOrExcusedGrows(Elements(old(store.records)), shown, Elements(store.records), shown);
    assert store.graph - Elements(removed[..0]) == store.graph;
    if !published {
      outcome := Stopped;
      return;
    }
    forall d | d in removed ensures exists r :: r in Elements(store.records) && d in r.removed && r.floor == floor {
      var r :| r in rs && d in r.removed;
      assert rs[..p] == rs && r in store.records;
    }
    var deleted;
    deleted, q := DeleteAll(store, removed, floor);
    outcome := if deleted then Finished(floor) else Stopped;
  }

  lemma {:induction false} ChunksFew(resource: string, floor: Digest, removed: seq<Digest>, control: Digest,
                                     author: DeviceId)
    ensures |Chunks(resource, floor, removed, control, author)| <= |removed|
    decreases |removed|
  {
    if |removed| > MAX_COMPACTION_REMOVED {
      ChunksFew(resource, floor, removed[MAX_COMPACTION_REMOVED..], control, author);
    }
  }
}
