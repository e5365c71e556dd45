/** Runs of writers, devices and compactions (app/compact.go). */
module CompactionRuns {
  import opened Orders
  import opened Digests
  import opened Dag
  import opened Control
  import opened Compaction
  import opened Compacting
  import opened Checkpoint
  import opened States
  import opened Reading
  import opened MergedRead

  /** A compaction in progress: records still to publish, then revisions still to delete. */
  datatype Job = Job(floor: Digest, toPublish: seq<Record>, toDelete: set<Digest>)

  /** What storage holds, everything it ever showed, the compactions running, and the heads each device accepted last. */
  datatype System = System(graph: Parents, seen: set<Digest>, records: set<Record>, jobs: set<Job>,
                           accepted: map<DeviceId, set<Digest>>)

  /** One compaction plan over the graph a read saw: the floor stays, and the records together list what goes. */
  ghost predicate Plans(graph: Parents, job: Job) {
    && job.floor in graph && job.floor !in job.toDelete
    && forall d :: d in job.toDelete ==> exists r :: r in job.toPublish && d in r.removed && r.floor == job.floor
  }

  /** No running compaction removes the floor of the other. Compactions that do not overlap satisfy it at once. */
  ghost predicate SparesFloors(a: Job, b: Job) {
    a.floor !in b.toDelete && b.floor !in a.toDelete
  }

  datatype Event =
    | Publish(rev: Digest, parents: seq<Digest>) // by any writer; its parents need not be shown any more
    | Accept(device: DeviceId, heads: set<Digest>) // a device accepts heads of a view it read at any earlier time
    | Start(job: Job)
    | PublishRecord(job: Job) // a running compaction publishes its next record
    | Delete(job: Job, rev: Digest) // a compaction whose records are all out deletes one more revision
    | End(job: Job) // a compaction ends, finished or stopped at any point

  ghost predicate Enabled(s: System, e: Event) {
    match e
    case Publish(rev, _) => rev !in s.graph
    case Accept(_, heads) => heads <= s.seen
    case Start(job) => Plans(s.graph, job) && forall other :: other in s.jobs ==> SparesFloors(job, other)
    case PublishRecord(job) => job in s.jobs && job.toPublish != []
    case Delete(job, rev) => job in s.jobs && job.toPublish == [] && rev in job.toDelete
    case End(job) => job in s.jobs
  }

  function Published(job: Job): Job
    requires job.toPublish != []
  {
    job.(toPublish := job.toPublish[1..])
  }

  ghost function Next(s: System, e: Event): System
    requires Enabled(s, e)
  {
    match e
    case Publish(rev, parents) => s.(graph := s.graph[rev := parents], seen := s.seen + {rev})
    case Accept(device, heads) => s.(accepted := s.accepted[device := heads])
    case Start(job) => s.(jobs := s.jobs + {job})
    case PublishRecord(job) => s.(records := s.records + {job.toPublish[0]}, jobs := s.jobs - {job} + {Published(job)})
    case Delete(_, rev) => s.(graph := s.graph - {rev})
    case End(job) => s.(jobs := s.jobs - {job})
  }

  const INITIAL := System(map[], {}, {}, {}, map[])

  ghost predicate Run(states: seq<System>, events: seq<Event>) {
    && |states| == |events| + 1 && states[0] == INITIAL
    && forall i :: 0 <= i < |events| ==> Enabled(states[i], events[i]) && states[i + 1] == Next(states[i], events[i])
  }

  ghost function Kept(s: System): set<Digest> {
    ShownOrExcused(s.records, s.graph.Keys)
  }

  /** What a running compaction deletes is listed under its floor by a record that is out or still to come. */
  ghost predicate JobInv(graph: Parents, records: set<Record>, job: Job) {
    && job.floor in graph
    && forall d :: d in job.toDelete ==>
         exists r :: (r in records || r in job.toPublish) && d in r.removed && r.floor == job.floor
  }

  ghost predicate Inv(s: System) {
    && (forall job :: job in s.jobs ==> JobInv(s.graph, s.records, job))
    && (forall a, b :: a in s.jobs && b in s.jobs ==> a.floor !in b.toDelete)
    && s.seen <= Kept(s)
    && (forall dev :: dev in s.accepted ==> s.accepted[dev] <= s.seen)
  }

  lemma RecordKeepsJob(graph: Parents, records: set<Record>, job: Job, r: Record, other: Job)
    requires JobInv(graph, records, other)
    ensures JobInv(graph, records + {r}, other)
    ensures other.toPublish != [] && other.toPublish[0] == r ==> JobInv(graph, records + {r}, Published(other))
  {
    assert other.toPublish != [] ==> other.toPublish == [other.toPublish[0]] + other.toPublish[1..];
  }

  /** A deletion keeps everything that was shown or excused among what is shown or excused. */
  lemma DeleteLosesNothing(s: System, job: Job, d: Digest)
    requires Inv(s) && Enabled(s, Delete(job, d))
    ensures Kept(s) <= ShownOrExcused(s.records, s.graph.Keys - {d})
    ensures forall other :: other in s.jobs ==> other.floor in s.graph && other.floor != d
  {
    assert JobInv(s.graph, s.records, job) && job.floor !in job.toDelete;
    var r :| (r in s.records || r in job.toPublish) && d in r.removed && r.floor == job.floor;
    DeletionExcused(s.records, s.graph.Keys, r, d);
    forall other | other in s.jobs ensures other.floor in s.graph && other.floor != d {
      assert JobInv(s.graph, s.records, other) && other.floor !in job.toDelete;
    }
  }

  /** Whatever happens, nothing that was shown or excused is lost. */
  lemma StepLosesNothing(s: System, e: Event)
    requires Inv(s) && Enabled(s, e)
    ensures Kept(s) <= Kept(Next(s, e))
  {
    var t := Next(s, e);
    if e.Delete? {
      DeleteLosesNothing(s, e.job, e.rev);
      assert t.graph.Keys == s.graph.Keys - {e.rev};
    } else {
      ShownOrExcusedGrows(s.records, s.graph.Keys, t.records, t.graph.Keys);
    }
  }

  lemma StepKeepsJobs(s: System, e: Event)
    requires Inv(s) && Enabled(s, e)
    ensures var t := Next(s, e); forall job :: job in t.jobs ==> JobInv(t.graph, t.records, job)
  {
    var t := Next(s, e);
    forall job | job in t.jobs ensures JobInv(t.graph, t.records, job) {
      if job in s.jobs {
        assert JobInv(s.graph, s.records, job);
      }
      if e.Delete? {
        DeleteLosesNothing(s, e.job, e.rev);
      }
      if e.PublishRecord? {
        var r := e.job.toPublish[0];
        RecordKeepsJob(s.graph, s.records, e.job, r, e.job);
        if job in s.jobs { RecordKeepsJob(s.graph, s.records, e.job, r, job); }
      }
    }
  }

  lemma StepKeepsInv(s: System, e: Event)
    requires Inv(s) && Enabled(s, e)
    ensures Inv(Next(s, e))
  {
    StepKeepsJobs(s, e);
    StepLosesNothing(s, e);
  }

  lemma {:induction false} RunKeeps(states: seq<System>, events: seq<Event>, i: nat, j: nat)
    requires Run(states, events) && i <= j < |states|
    ensures Inv(states[j]) && Kept(states[i]) <= Kept(states[j])
    decreases j
  {
    if j > 0 {
      RunKeeps(states, events, if i == j then j - 1 else i, j - 1);
      StepKeepsInv(states[j - 1], events[j - 1]);
      StepLosesNothing(states[j - 1], events[j - 1]);
    }
  }

  /** Over every run, at every point of every compaction, every head any device accepted is shown or excused: the
      checkpoint check passes for every device. */
  lemma CompactionIsNeverARollback(states: seq<System>, events: seq<Event>, i: nat, dev: DeviceId, file: File,
                                   resource: string, heads: seq<Digest>, control: Digest)
    requires Run(states, events) && i < |states|
    requires Elements(Accepted(file, resource).heads) ==
               if dev in states[i].accepted then states[i].accepted[dev] else {}
    ensures Passes(file, AcceptStates(resource, states[i].graph.Keys, Excused(states[i].records, states[i].graph.Keys),
                                      heads, control))
  {
    RunKeeps(states, events, i, i);
    forall d | d in Accepted(file, resource).heads
      ensures d in states[i].graph.Keys || d in Excused(states[i].records, states[i].graph.Keys)
    {
      assert d in Elements(Accepted(file, resource).heads);
    }
  }

  /** What was excused once is shown or excused ever after. */
  lemma ExcusedOnceIsExcusedEver(states: seq<System>, events: seq<Event>, i: nat, j: nat, d: Digest)
    requires Run(states, events) && i <= j < |states| && d in Excused(states[i].records, states[i].graph.Keys)
    ensures d in states[j].graph || d in Excused(states[j].records, states[j].graph.Keys)
  {
    RunKeeps(states, events, i, j);
  }

  /** What CompactHistory sets out to do is such a plan. */
  lemma CompactHistoryPlans(resource: string, graph: Parents, head: Digest, floor: Digest, removed: seq<Digest>,
                            control: Digest, author: DeviceId)
    requires resource != "" && Reach(graph, head, floor)
    requires StrictlySorted(removed) && Elements(removed) == graph.Keys - Between(graph, head, floor)
    ensures Plans(graph, Job(floor, Chunks(resource, floor, removed, control, author), Elements(removed)))
  {
    ReachEnds(graph, head, floor);
    ReachRefl(graph, floor);
    assert floor !in Elements(removed);
    ChunksCover(resource, floor, removed, control, author);
  }

  // ----- CompactHistory is such a compaction

  lemma RunAppend(states: seq<System>, events: seq<Event>, e: Event)
    requires Run(states, events) && Enabled(states[|events|], e)
    ensures Run(states + [Next(states[|events|], e)], events + [e])
  {
    var all, es := states + [Next(states[|events|], e)], events + [e];
    forall i | 0 <= i < |es| ensures Enabled(all[i], es[i]) && all[i + 1] == Next(all[i], es[i]) {
      if i < |events| {
        assert all[i] == states[i] && all[i + 1] == states[i + 1];
      }
    }
  }

  /** From here on, a running compaction publishes `p` more of its records. */
  lemma {:induction false} PublishSome(states: seq<System>, events: seq<Event>, job: Job, p: nat)
    returns (states2: seq<System>, events2: seq<Event>)
    requires Run(states, events) && job in states[|events|].jobs && p <= |job.toPublish|
    ensures Run(states2, events2) && states <= states2
    ensures var s, t := states[|events|], states2[|events2|];
            t.graph == s.graph && t.records == s.records + Elements(job.toPublish[..p]) &&
            job.(toPublish := job.toPublish[p..]) in t.jobs
    decreases p
  {
    if p == 0 {
      states2, events2 := states, events;
      assert Elements(job.toPublish[..0]) == {} && job.toPublish[0..] == job.toPublish;
    } else {
      var e := PublishRecord(job);
      RunAppend(states, events, e);
      var next := states + [Next(states[|events|], e)];
      states2, events2 := PublishSome(next, events + [e], Published(job), p - 1);
      assert job.toPublish[..p] == [job.toPublish[0]] + job.toPublish[1..][..p - 1];
      assert Published(job).toPublish[p - 1..] == job.toPublish[p..];
    }
  }

  /** A compaction whose records are all out deletes these. */
  lemma {:induction false} DeleteSome(states: seq<System>, events: seq<Event>, job: Job, ds: seq<Digest>)
    returns (states2: seq<System>, events2: seq<Event>)
    requires Run(states, events) && job in states[|events|].jobs && job.toPublish == [] && forall d :: d in ds ==>
               d in job.toDelete
    ensures Run(states2, events2) && states <= states2
    ensures var s, t := states[|events|], states2[|events2|];
            t.graph == s.graph - Elements(ds) && t.records == s.records
    decreases |ds|
  {
    if ds == [] {
      states2, events2 := states, events;
    } else {
      var e := Delete(job, ds[0]);
      assert ds[0] in ds && forall d :: d in ds[1..] ==> d in ds;
      RunAppend(states, events, e);
      states2, events2 := DeleteSome(states + [Next(states[|events|], e)], events + [e], job, ds[1..]);
      assert Elements(ds) == {ds[0]} + Elements(ds[1..]);
    }
  }

  /** Wherever CompactHistory stops, with `p` records published and `q` revisions deleted, it has made a run of what
      came before, as long as no compaction that is still running and it remove each other's floors. */
  lemma CompactHistoryIsARun(states: seq<System>, events: seq<Event>, resource: string, seen: Parents, head: Digest,
                             floor: Digest, control: Digest, author: DeviceId, p: nat, q: nat)
    returns (states2: seq<System>, events2: seq<Event>)
    requires Run(states, events) && resource != "" && Reach(seen, head, floor) && Extends(seen, states[|events|].graph)
    requires var removed := ToRemove(seen, head, floor);
             var rs := Chunks(resource, floor, removed, control, author);
             && (forall other :: other in states[|events|].jobs ==>
                   SparesFloors(Job(floor, rs, Elements(removed)), other))
             && p <= |rs| && q <= |removed| && (q > 0 ==> p == |rs|)
    ensures Run(states2, events2) && states <= states2
    ensures var removed := ToRemove(seen, head, floor);
            var s, t := states[|events|], states2[|events2|];
            && t.graph == s.graph - Elements(removed[..q])
            && t.records == s.records + Elements(Chunks(resource, floor, removed, control, author)[..p])
  {
    var removed := ToRemove(seen, head, floor);
    var rs := Chunks(resource, floor, removed, control, author);
    var job := Job(floor, rs, Elements(removed));
    ReachEnds(seen, head, floor);
    CompactHistoryPlans(resource, seen, head, floor, removed, control, author);
    RunAppend(states, events, Start(job));
    states2, events2 := PublishSome(states + [Next(states[|events|], Start(job))], events + [Start(job)], job, p);
    if q > 0 {
      assert rs[p..] == [];
      assert forall d :: d in removed[..q] ==> d in removed && d in Elements(removed);
      var states3, events3 := DeleteSome(states2, events2, job.(toPublish := rs[p..]), removed[..q]);
      states2, events2 := states3, events3;
    } else {
      assert Elements(removed[..0]) == {};
    }
  }

  // ----- what a finished compaction leaves

  function Restricted(states: Revisions, kept: set<Digest>): Revisions {
    map d | d in states && d in kept :: states[d]
  }

  lemma {:induction false} InsideKept(P: Parents, head: Digest, floor: Digest, K: Parents, n: nat, d: Digest, a: Digest)
    requires K == map x | x in P && x in Between(P, head, floor) :: P[x]
    requires ReachIn(P, n, d, a) && Reach(P, head, d) && Reach(P, a, floor)
    ensures Reach(K, d, a)
    decreases n
  {
    if n == 0 {
      ReachRefl(K, d);
    } else {
      var p :| p in P[d] && ReachIn(P, n - 1, p, a);
      ReachParent(P, d, p);
      ReachTrans(P, head, d, p);
      InsideKept(P, head, floor, K, n - 1, p, a);
      assert Reach(P, p, a);
      ReachStep(P, d, p, a);
      ReachTrans(P, d, a, floor);
      assert d in K;
      ReachStep(K, d, p, a);
    }
  }

  /** Inside what is kept, everything is an ancestor of the head, and the head is the only one. */
  lemma KeptGraphShape(P: Parents, rank: Digest -> nat, head: Digest, floor: Digest, K: Parents)
    requires Ranked(P, rank) && Reach(P, head, floor)
    requires K == map x | x in P && x in Between(P, head, floor) :: P[x]
    ensures forall d :: d in K ==> Reach(K, head, d)
    ensures head in K && HeadSet(K) == {head}
  {
    ReachEnds(P, head, floor);
    ReachRefl(P, head);
    forall d | d in K ensures Reach(K, head, d) {
      var n: nat :| ReachIn(P, n, head, d);
      InsideKept(P, head, floor, K, n, head, d);
    }
    forall d | d in K && d != head ensures d in ChildrenNamed(K) {
      var c := ReachLast(K, head, d);
    }
    if head in ChildrenNamed(K) {
      var d :| d in K && head in K[d];
      ReachRank(P, rank, head, d);
    }
  }

  /** Nothing else published, a finished compaction leaves the old trusted head as the only head, above everything kept
      and every floor shown, and still the one the device trusts. */
  lemma FinishedCompactionKeepsTheHead(j: Judge, states: Revisions, rank: Digest -> nat, head: Digest, floor: Digest,
                                       floors: seq<Digest>, records: set<Record>, floors2: seq<Digest>, kept: Revisions)
    requires Ranked(RevisionParents(states), rank)
    requires CurrentHeads(j, states, floors) == {head} && Reach(RevisionParents(states), head, floor)
    requires kept == Restricted(states, Between(RevisionParents(states), head, floor))
    requires Elements(floors2) == FloorsShown(records, kept.Keys)
    ensures HeadSet(RevisionParents(kept)) == {head}
    ensures forall d :: d in kept ==> Reach(RevisionParents(kept), head, d)
    ensures forall f :: f in floors2 ==> Reach(RevisionParents(kept), head, f)
    ensures CurrentHeads(j, kept, floors2) == {head}
  {
    var P := RevisionParents(states);
    KeptGraphShape(P, rank, head, floor, RevisionParents(kept));
    forall f | f in floors2 ensures Reach(RevisionParents(kept), head, f) {
      assert f in Elements(floors2);
    }
    assert head in CurrentHeads(j, states, floors);
    HeadStaysCurrent(j, states, kept, floors, floors2, rank, head);
  }

  /** So such a device reads exactly the content it read before, decided or not, whatever the merge bases were. */
  lemma FinishedCompactionReadsTheSame(j: Judge, states: Revisions, rank: Digest -> nat, head: Digest, floor: Digest,
                                       compacted: Compacted, records: set<Record>, compacted2: Compacted,
                                       kept: Revisions, plain: Digest -> Plain, choices: map<string, Merge.Choice>,
                                       r: ReadResult, r2: ReadResult)
    requires Ranked(RevisionParents(states), rank)
    requires CurrentHeads(j, states, compacted.floors) == {head} && Reach(RevisionParents(states), head, floor)
    requires kept == Restricted(states, Between(RevisionParents(states), head, floor))
    requires Elements(compacted2.floors) == FloorsShown(records, kept.Keys)
    requires ReadOutcome(j, states, compacted, plain, choices, r) &&
             ReadOutcome(j, kept, compacted2, plain, choices, r2)
    ensures r2 == r
  {
    FinishedCompactionKeepsTheHead(j, states, rank, head, floor, compacted.floors, records, compacted2.floors, kept);
    OneHeadRead(j, states, compacted, plain, choices, r, head);
    OneHeadRead(j, kept, compacted2, plain, choices, r2, head);
  }

  /** With its records out, a finished compaction excuses all it removed and loses nothing shown or excused before: every
      parent left missing is excused if it was shown or excused before. */
  lemma FinishedCompactionExcuses(states: Revisions, kept: Revisions, resource: string, floor: Digest,
                                  removed: seq<Digest>, control: Digest, author: DeviceId, records: set<Record>,
                                  records2: set<Record>)
    requires resource != "" && StrictlySorted(removed) && Elements(removed) == states.Keys - kept.Keys && floor in kept
    requires records2 == records + Elements(Chunks(resource, floor, removed, control, author))
    ensures Elements(removed) <= Excused(records2, kept.Keys)
    ensures forall p :: p in MissingSet(RevisionParents(kept)) && p in ShownOrExcused(records, states.Keys) ==>
              p in Excused(records2, kept.Keys)
  {
    var rs := Chunks(resource, floor, removed, control, author);
    assert floor !in Elements(removed);
    ChunksCover(resource, floor, removed, control, author);
    ExcusedIsLeast(records2, kept.Keys);
    forall d | d in removed ensures d in Excused(records2, kept.Keys) {
      var r :| r in rs && d in r.removed;
      assert r in records2 && r.floor in kept.Keys;
    }
    assert forall d :: d in removed <==> d in Elements(removed);
    ShownOrExcusedGrows(records, states.Keys, records2, kept.Keys);
  }

  lemma HeadStaysCurrent(j: Judge, states: Revisions, kept: Revisions, floors: seq<Digest>, floors2: seq<Digest>,
                         rank: Digest -> nat, head: Digest)
    requires Ranked(RevisionParents(states), rank)
    requires forall d :: d in kept ==> d in states && kept[d] == states[d]
    requires head in CurrentHeads(j, states, floors)
    requires forall d :: d in kept ==> Reach(RevisionParents(kept), head, d)
    requires head in kept && Above(RevisionParents(kept), floors2, head)
    ensures CurrentHeads(j, kept, floors2) == {head}
  {
    var K := RevisionParents(kept);
    assert AuthorTrusted(j, kept[head], head);
    assert Trusted(j, kept, floors2, head);
    forall d | d in K && d != head ensures !Reach(K, d, head) {
      if Reach(K, d, head) {
        assert Ranked(K, rank);
        ReachAntisymmetric(K, rank, head, d);
      }
    }
    assert MaximalIn(K, TrustedSet(j, kept, floors2), head);
  }

  lemma OneHeadRead(j: Judge, states: Revisions, compacted: Compacted, plain: Digest -> Plain,
                    choices: map<string, Merge.Choice>, r: ReadResult, head: Digest)
    requires CurrentHeads(j, states, compacted.floors) == {head} && ReadOutcome(j, states, compacted, plain, choices, r)
    ensures r == if plain(head).Readable? then Read([head], plain(head).secrets, []) else Undecryptable
  {
    var heads := HeadList(j, states, compacted.floors);
    ListingSize(heads);
    assert heads[0] in Elements(heads);
    assert heads == [head];
  }
}
