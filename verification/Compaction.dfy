/** What deletion records excuse (pkg/wsp/compaction.go). */
module Compaction {
  import opened Orders
  import opened Digests
  import opened Dag
  import opened Control
  import opened Chain

  const MAX_COMPACTION_REMOVED: nat := 4000

  /** A deletion record: everything listed was removed, the floor and what descends from it was kept. */
  datatype Record = Record(resource: string, floor: Digest, removed: seq<Digest>, control: Digest, author: DeviceId)

  /** Stored bytes of a record: their digest, the record, and the keys the signature verifies under. */
  datatype SignedRecord = SignedRecord(name: Digest, record: Record, verifies: set<Key>)

  /** The structural check every record passes before it is signed or believed. */
  ghost predicate WellFormedRecord(r: Record) {
    && r.resource != ""
    && 0 < |r.removed| <= MAX_COMPACTION_REMOVED
    && StrictlySorted(r.removed)
    && r.floor !in r.removed
  }

  datatype Verdict = Believed | Ignored | NamesHiddenControl

  /** A record counts on the word of an admin of a verified Control; whether its author is still one is not asked. */
  ghost predicate RecordRule(vs: Controls, resource: string, rev: Digest, blob: SignedRecord) {
    && blob.name == rev && WellFormedRecord(blob.record) && blob.record.resource == resource
    && blob.record.control in vs
    && IsAdmin(vs[blob.record.control].control, blob.record.author)
    && PrincipalOf(vs[blob.record.control].control, blob.record.author).value.signing in blob.verifies
  }

  method ValidateRecord(r: Record) returns (ok: bool)
    ensures ok <==> WellFormedRecord(r)
  {
    if r.resource == "" || |r.removed| == 0 || |r.removed| > MAX_COMPACTION_REMOVED {
      return false;
    }
    for i := 0 to |r.removed|
      invariant StrictlySorted(r.removed[..i])
      invariant forall k :: 0 <= k < i ==> r.removed[k] != r.floor
    {
      if (i > 0 && r.removed[i - 1] >= r.removed[i]) || r.removed[i] == r.floor {
        return false;
      }
    }
    assert r.removed[..|r.removed|] == r.removed;
    ok := true;
  }

  method VerifyCompaction(vs: Controls, resource: string, rev: Digest, blob: SignedRecord) returns (v: Verdict)
    ensures v.Believed? <==> RecordRule(vs, resource, rev, blob)
    ensures v.Believed? <==>
              && blob.name == rev && blob.record.resource == resource && WellFormedRecord(blob.record)
              && blob.record.control in vs
              && exists p :: PrincipalOf(vs[blob.record.control].control, blob.record.author) == Some(p)
                             && p.admin && p.signing in blob.verifies
    ensures v.NamesHiddenControl? ==> blob.record.control !in vs
  {
    var ok := ValidateRecord(blob.record);
    if blob.name != rev || !ok || blob.record.resource != resource {
      return Ignored;
    }
    if blob.record.control !in vs {
      return NamesHiddenControl;
    }
    var written := vs[blob.record.control].control;
    if !IsAdmin(written, blob.record.author) ||
       PrincipalOf(written, blob.record.author).value.signing !in blob.verifies {
      return Ignored;
    }
    v := Believed;
  }

  // ----- what the records of a resource excuse

  ghost function Listed(records: set<Record>): set<Digest> {
    set r, d | r in records && d in r.removed :: d
  }

  /** `R` has everything a record lists that is not shown, for each record whose floor is shown or itself in `R`. */
  ghost predicate ExcuseClosed(records: set<Record>, shown: set<Digest>, R: set<Digest>) {
    forall r, d :: r in records && (r.floor in shown || r.floor in R) && d in r.removed && d !in shown ==> d in R
  }

  /** The revisions the records excuse: those in every set that is closed this way. */
  ghost function Excused(records: set<Record>, shown: set<Digest>): set<Digest> {
    set d | d in Listed(records) && forall R: set<Digest> :: ExcuseClosed(records, shown, R) ==> d in R
  }

  /** A device misses nothing it accepted as long as it is among these. */
  ghost function ShownOrExcused(records: set<Record>, shown: set<Digest>): set<Digest> {
    shown + Excused(records, shown)
  }

  lemma ExcusedIsLeast(records: set<Record>, shown: set<Digest>)
    ensures ExcuseClosed(records, shown, Excused(records, shown))
    ensures forall R: set<Digest> :: ExcuseClosed(records, shown, R) ==> Excused(records, shown) <= R
    ensures Excused(records, shown) !! shown
  {
    var E := Excused(records, shown);
    forall r, d | r in records && (r.floor in shown || r.floor in E) && d in r.removed && d !in shown ensures d in E {
      forall R: set<Digest> | ExcuseClosed(records, shown, R) ensures d in R {
        assert r.floor in shown || r.floor in R;
      }
    }
    var L := Listed(records) - shown;
    forall r, d | r in records && d in r.removed && d !in shown ensures d in L {
    }
    assert ExcuseClosed(records, shown, L);
  }

  /** Whatever else changes, nothing that is shown or excused is lost when records are only added and each revision
      that disappears is excused afterwards. */
  lemma ShownOrExcusedGrows(records: set<Record>, shown: set<Digest>, records2: set<Record>, shown2: set<Digest>)
    requires records <= records2
    requires shown <= ShownOrExcused(records2, shown2)
    ensures ShownOrExcused(records, shown) <= ShownOrExcused(records2, shown2)
  {
    ExcusedIsLeast(records, shown);
    ExcusedIsLeast(records2, shown2);
    var E2 := Excused(records2, shown2);
    var R := E2 + shown2;
    forall r, d | r in records && (r.floor in shown || r.floor in R) && d in r.removed && d !in shown ensures d in R {
      assert r.floor in shown2 || r.floor in E2;
    }
    assert ExcuseClosed(records, shown, R);
  }

  /** Deleting a revision that a record with a kept floor lists excuses it, and loses nothing that was excused before. */
  lemma DeletionExcused(records: set<Record>, shown: set<Digest>, r: Record, d: Digest)
    requires r in records && d in r.removed && r.floor in shown && r.floor != d
    ensures d in Excused(records, shown - {d})
    ensures ShownOrExcused(records, shown) <= ShownOrExcused(records, shown - {d})
  {
    ExcusedIsLeast(records, shown - {d});
    ShownOrExcusedGrows(records, shown, records, shown - {d});
  }

  /** Two compactions that started from the same view and both finished excuse everything they removed, unless each
      removed the floor of the other; then they excuse nothing at all. */
  lemma OverlappingCompactions(a: Record, b: Record, shown: set<Digest>)
    requires WellFormedRecord(a) && WellFormedRecord(b)
    requires Elements(a.removed) + Elements(b.removed) !! shown
    requires a.floor in shown || a.floor in b.removed
    requires b.floor in shown || b.floor in a.removed
    ensures Elements(a.removed) + Elements(b.removed) <= Excused({a, b}, shown) <==>
              !(a.floor in b.removed && b.floor in a.removed)
    ensures a.floor in b.removed && b.floor in a.removed ==> Excused({a, b}, shown) == {}
  {
    ExcusedIsLeast({a, b}, shown);
    if a.floor in b.removed && b.floor in a.removed {
      assert a.floor in Elements(b.removed) && b.floor in Elements(a.removed);
      assert ExcuseClosed({a, b}, shown, {});
    }
  }

  // ----- Compute

  /** The two results of reading deletion records against a view: the excused set and the floors in force. */
  datatype Compacted = Compacted(removed: set<Digest>, floors: seq<Digest>)

  const NOTHING_COMPACTED := Compacted({}, [])

  ghost function FloorsShown(records: set<Record>, shown: set<Digest>): set<Digest> {
    set r | r in records && r.floor in shown :: r.floor
  }

  method ShownFloors(records: seq<Record>, g: Graph) returns (floors: seq<Digest>)
    ensures StrictlySorted(floors) && Elements(floors) == FloorsShown(Elements(records), g.parents.Keys)
  {
    floors := [];
    for i := 0 to |records|
      invariant NoDup(floors)
      invariant forall f :: f in floors <==> exists k :: 0 <= k < i && records[k].floor == f && f in g.parents
    {
      if g.Has(records[i].floor) && records[i].floor !in floors {
        floors := floors + [records[i].floor];
      }
    }
    SortedDigests(floors);
    floors := SortDigests(floors);
  }

  /** Adds what one record lists and the view does not show. */
  method Apply(r: Record, g: Graph, before: set<Digest>) returns (after: set<Digest>)
    ensures after == before + (Elements(r.removed) - g.parents.Keys)
  {
    after := before;
    for i := 0 to |r.removed|
      invariant after == before + (Elements(r.removed[..i]) - g.parents.Keys)
    {
      assert r.removed[..i + 1] == r.removed[..i] + [r.removed[i]];
      if !g.Has(r.removed[i]) {
        after := after + {r.removed[i]};
      }
    }
    assert r.removed[..|r.removed|] == r.removed;
  }

  /** Records applied so far are all in, and nothing outside every closed set is. */
  ghost predicate ComputeInv(records: seq<Record>, shown: set<Digest>, applied: seq<bool>, removed: set<Digest>) {
    && |applied| == |records|
    && removed <= Excused(Elements(records), shown)
    && forall i, d :: 0 <= i < |records| && applied[i] && d in records[i].removed && d !in shown ==> d in removed
  }

  lemma ComputeStep(records: seq<Record>, shown: set<Digest>, applied: seq<bool>, removed: set<Digest>, i: nat)
    requires ComputeInv(records, shown, applied, removed) && i < |records|
    requires records[i].floor in shown || records[i].floor in removed
    ensures ComputeInv(records, shown, applied[i := true], removed + (Elements(records[i].removed) - shown))
  {
    ExcusedIsLeast(Elements(records), shown);
    assert records[i] in Elements(records);
  }

  lemma ComputeDone(records: seq<Record>, shown: set<Digest>, applied: seq<bool>, removed: set<Digest>)
    requires ComputeInv(records, shown, applied, removed)
    requires forall i :: 0 <= i < |records| && !applied[i] ==>
               records[i].floor !in shown && records[i].floor !in removed
    ensures removed == Excused(Elements(records), shown)
  {
    ExcusedIsLeast(Elements(records), shown);
    assert ExcuseClosed(Elements(records), shown, removed);
  }

  function Unapplied(applied: seq<bool>): nat {
    if applied == [] then 0 else (if applied[0] then 0 else 1) + Unapplied(applied[1..])
  }

  lemma {:induction false} UnappliedShrinks(applied: seq<bool>, i: nat)
    requires i < |applied| && !applied[i]
    ensures Unapplied(applied[i := true]) < Unapplied(applied)
  {
    var next := applied[i := true];
    if i == 0 {
      assert next[1..] == applied[1..];
    } else {
      assert next[1..] == applied[1..][i - 1 := true];
      UnappliedShrinks(applied[1..], i - 1);
    }
  }

  /** Sweeps over the records until a whole sweep adds nothing. The order of the records decides how many sweeps that takes,
      not what is excused in the end. */
  method Compute(records: seq<Record>, g: Graph) returns (c: Compacted)
    ensures c.removed == Excused(Elements(records), g.parents.Keys)
    ensures StrictlySorted(c.floors) && Elements(c.floors) == FloorsShown(Elements(records), g.parents.Keys)
  {
    ghost var shown := g.parents.Keys;
    var floors := ShownFloors(records, g);
    var removed: set<Digest> := {};
    var applied := seq(|records|, _ => false);
    var progress := true;
    while progress
      invariant ComputeInv(records, shown, applied, removed)
      invariant !progress ==> forall k :: 0 <= k < |records| && !applied[k] ==>
                  records[k].floor !in shown && records[k].floor !in removed
      decreases Unapplied(applied), progress
    {
      progress := false;
      ghost var start, before := applied, removed;
      for i := 0 to |records|
        invariant ComputeInv(records, shown, applied, removed)
        invariant progress ==> Unapplied(applied) < Unapplied(start)
        invariant !progress ==> applied == start && removed == before
        invariant !progress ==>
                    forall k :: 0 <= k < i && !applied[k] ==> records[k].floor !in shown && records[k].floor !in removed
      {
        var r := records[i];
        if applied[i] || (!g.Has(r.floor) && r.floor !in removed) {
          continue;
        }
        ComputeStep(records, shown, applied, removed, i);
        UnappliedShrinks(applied, i);
        applied := applied[i := true];
        progress := true;
        removed := Apply(r, g, removed);
      }
    }
    ComputeDone(records, shown, applied, removed);
    c := Compacted(removed, floors);
  }

  ghost predicate Above(P: Parents, floors: seq<Digest>, d: Digest) {
    forall f :: f in floors ==> Reach(P, d, f)
  }

  /** Decides `Above`: one walk down from `d` per floor. */
  method AboveFloors(c: Compacted, g: Graph, d: Digest) returns (above: bool)
    ensures above <==> Above(g.parents, c.floors, d)
  {
    if |c.floors| == 0 {
      return true;
    }
    var anc := g.Ancestors(d);
    for i := 0 to |c.floors|
      invariant forall k :: 0 <= k < i ==> c.floors[k] in anc
    {
      if c.floors[i] !in anc {
        assert c.floors[i] in c.floors;
        if Reach(g.parents, d, c.floors[i]) {
          ReachEnds(g.parents, d, c.floors[i]);
        }
        return false;
      }
    }
    above := true;
  }
}
