/** Loading before merging (loadResource in app/workspace.go). */
module ResourceRead {
  import opened Orders
  import opened Digests
  import opened Dag
  import opened Compaction
  import opened Checkpoint
  import opened States
  import opened Merge
  import opened Reading
  import opened MergedRead

  /** What a load ends with: nothing there, accepted revisions gone, records that were needed and could not be loaded,
      or a view with what the records say about it. */
  datatype Load =
    | NothingThere
    | RolledBack
    | RecordsFailed
    | Loaded(compacted: Compacted)

  /** What the believed records say about a view. */
  ghost function SaidBy(records: seq<Record>, states: Revisions): Compacted {
    Compacted(Excused(Elements(records), states.Keys), Listing(FloorsShown(Elements(records), states.Keys)))
  }

  /** A parent, or a head this device accepted, is not shown. */
  ghost predicate SomethingMissing(states: Revisions, accepted: seq<Digest>) {
    MissingSet(RevisionParents(states)) != {} || exists a :: a in accepted && a !in states
  }

  ghost predicate ShownOrRemoved(states: Revisions, accepted: seq<Digest>, removed: set<Digest>) {
    forall a :: a in accepted ==> a in states || a in removed
  }

  /** `records` are the believed deletion records, or nothing when loading them fails. */
  ghost function LoadOf(states: Revisions, accepted: seq<Digest>, records: Option<seq<Record>>): Load {
    if states == map[] then if accepted == [] then NothingThere else RolledBack
    else if !SomethingMissing(states, accepted) then Loaded(NOTHING_COMPACTED)
    else if records.None? then RecordsFailed
    else if !ShownOrRemoved(states, accepted, SaidBy(records.value, states).removed) then RolledBack
    else Loaded(SaidBy(records.value, states))
  }

  /** What reading a resource ends with. */
  datatype Result = NotMerged(load: Load) | Merged(read: ReadResult)

  ghost predicate ReadsAs(j: Judge, states: Revisions, records: Option<seq<Record>>, plain: Digest -> Plain,
                          choices: map<string, Choice>, r: Result)
  {
    var load := LoadOf(states, j.accepted.heads, records);
    if load.Loaded? then r.Merged? && ReadOutcome(j, states, load.compacted, plain, choices, r.read)
    else r == NotMerged(load)
  }

  method AllShown(accepted: seq<Digest>, states: Revisions, removed: set<Digest>) returns (ok: bool)
    ensures ok <==> ShownOrRemoved(states, accepted, removed)
  {
    for i := 0 to |accepted|
      invariant forall k :: 0 <= k < i ==> accepted[k] in states || accepted[k] in removed
    {
      if accepted[i] !in states && accepted[i] !in removed {
        assert accepted[i] in accepted;
        return false;
      }
    }
    ok := true;
  }

  lemma GapsAre(states: Revisions)
    ensures MissingSet(RevisionParents(states)) != {} <==>
              exists d, p :: d in states && p in states[d].parents && p !in states
  {
    var P := RevisionParents(states);
    if d, p :| d in states && p in states[d].parents && p !in states {
      assert d in P && p in P[d] && p in ChildrenNamed(P) && p in MissingSet(P);
    }
    if p :| p in MissingSet(P) {
      var d :| d in P && p in P[d];
      assert d in states && p in states[d].parents && p !in states;
    }
  }

  lemma LoadMeans(states: Revisions, accepted: seq<Digest>, records: Option<seq<Record>>)
    requires states != map[]
    ensures SomethingMissing(states, accepted) <==>
              || (exists d, p :: d in states && p in states[d].parents && p !in states)
              || (exists a :: a in accepted && a !in states)
    ensures records.Some? ==> var said := SaidBy(records.value, states);
              && said.removed == Excused(Elements(records.value), states.Keys)
              && forall f :: f in said.floors <==> f in states && exists r :: r in records.value && r.floor == f
  {
    GapsAre(states);
    if records.Some? {
      var floors := SaidBy(records.value, states).floors;
      assert forall f :: f in floors <==> f in Elements(floors);
      forall r | r in records.value ensures r in Elements(records.value) {
      }
    }
  }

  /** Turns to the records when a parent or an accepted head is absent; an accepted head that they do not excuse
      is a rollback. */
  method LoadResource(sv: StateView, accepted: seq<Digest>, records: Option<seq<Record>>) returns (load: Load)
    requires sv.Valid() && sv.compacted == NOTHING_COMPACTED
    modifies sv`compacted
    ensures sv.Valid() && load == LoadOf(sv.states, accepted, records)
    ensures load.Loaded? ==> sv.compacted == load.compacted
    ensures sv.states == map[] ==> load == if accepted == [] then NothingThere else RolledBack
    ensures sv.states != map[] ==>
      var missing := (exists d, p :: d in sv.states && p in sv.states[d].parents && p !in sv.states)
                     || (exists a :: a in accepted && a !in sv.states);
      var excused := if records.Some? then Excused(Elements(records.value), sv.states.Keys) else {};
      var unexcused := exists a :: a in accepted && a !in sv.states && a !in excused;
      && load != NothingThere && (load == RecordsFailed <==> missing && records.None?)
      && (load == RolledBack <==> missing && records.Some? && unexcused)
      && (load.Loaded? && !missing ==> load.compacted == Compacted({}, []))
      && (load.Loaded? && missing ==>
            && load.compacted.removed == excused
            && forall f :: f in load.compacted.floors <==>
                 f in sv.states && exists r :: r in records.value && r.floor == f)
  {
    load := LoadView(sv, accepted, records);
    if |sv.states| > 0 {
      LoadMeans(sv.states, accepted, records);
    }
  }

  /** The steps of that. */
  method LoadView(sv: StateView, accepted: seq<Digest>, records: Option<seq<Record>>) returns (load: Load)
    requires sv.Valid() && sv.compacted == NOTHING_COMPACTED
    modifies sv`compacted
    ensures sv.Valid() && load == LoadOf(sv.states, accepted, records)
    ensures load.Loaded? ==> sv.compacted == load.compacted
  {
    if |sv.states| == 0 {
      return if |accepted| > 0 then RolledBack else NothingThere;
    }
    var missing := sv.graph.Missing();
    assert missing != [] <==> MissingSet(sv.graph.parents) != {} by {
      assert missing != [] ==> missing[0] in Elements(missing);
      assert missing == [] ==> Elements(missing) == {};
    }
    var shown := AllShown(accepted, sv.states, {});
    assert SomethingMissing(sv.states, accepted) <==> missing != [] || !shown;
    if |missing| > 0 || !shown {
        if records.None? {
        return RecordsFailed;
      }
      var said := Compute(records.value, sv.graph);
      IsListing(said.floors);
      assert sv.graph.parents.Keys == sv.states.Keys;
      assert said == SaidBy(records.value, sv.states);
      sv.compacted := said;
    }
    var ok := AllShown(accepted, sv.states, sv.compacted.removed);
    load := if ok then Loaded(sv.compacted) else RolledBack;
  }

  /** Loads a resource and merges it. */
  method ReadResource(s: Session, sv: StateView, accepted: StateAcceptance, records: Option<seq<Record>>,
                      plain: Digest -> Plain, choices: map<string, Choice>,
                      ghost rank: Digest -> nat) returns (r: Result)
    requires s.Valid() && sv.Valid() && sv.compacted == NOTHING_COMPACTED && Ranked(RevisionParents(sv.states), rank)
    modifies s.view`membership, sv`compacted
    ensures s.Valid() && ReadsAs(s.JudgeWith(accepted), sv.states, records, plain, choices, r)
  {
    var load := LoadView(sv, accepted.heads, records);
    if !load.Loaded? {
      return NotMerged(load);
    }
    var read := MergeResource(s, sv, accepted, plain, choices, rank);
    r := Merged(read);
  }

  lemma ReadingIsDetermined(j: Judge, states: Revisions, records: Option<seq<Record>>, plain: Digest -> Plain,
                            choices: map<string, Choice>, r: Result, r2: Result)
    requires ReadsAs(j, states, records, plain, choices, r) && ReadsAs(j, states, records, plain, choices, r2)
    ensures r == r2
  {
    var load := LoadOf(states, j.accepted.heads, records);
    if load.Loaded? {
      ReadIsDetermined(j, states, load.compacted, plain, choices, r.read, r2.read);
    }
  }

  // ----- what untrusted revisions can change

  ghost function FloorsInForce(j: Judge, states: Revisions, records: Option<seq<Record>>): seq<Digest> {
    var load := LoadOf(states, j.accepted.heads, records);
    if load.Loaded? then load.compacted.floors else []
  }

  /** Under other floors, the same heads are current: each is above them, and nothing
      trusted under them is beside the heads. */
  ghost predicate HeadsStand(j: Judge, states: Revisions, heads: seq<Digest>, floors: seq<Digest>) {
    && (forall h :: h in heads ==> Above(RevisionParents(states), floors, h))
    && (forall d :: d in states && Trusted(j, states, floors, d) ==>
          exists h :: h in heads && Reach(RevisionParents(states), h, d))
  }

  lemma SameHeads(j: Judge, states: Revisions, rank: Digest -> nat, floors: seq<Digest>, floors2: seq<Digest>)
    requires Ranked(RevisionParents(states), rank)
    ensures CurrentHeads(j, states, floors2) == CurrentHeads(j, states, floors) <==>
            HeadsStand(j, states, HeadList(j, states, floors), floors2)
  {
    var P := RevisionParents(states);
    var T, T2 := TrustedSet(j, states, floors), TrustedSet(j, states, floors2);
    var heads := HeadList(j, states, floors);
    assert forall h :: h in heads <==> h in Elements(heads);
    if HeadsStand(j, states, heads, floors2) {
      forall h | h in MaximalSet(P, T) ensures h in MaximalSet(P, T2) {
        assert h in heads && h in T2;
        forall s | s in T2 && s != h ensures !Reach(P, s, h) {
          var g :| g in heads && Reach(P, g, s);
          if Reach(P, s, h) {
            ReachTrans(P, g, s, h);
            assert g in T;
            ReachAntisymmetric(P, rank, s, h);
          }
        }
      }
      forall m | m in MaximalSet(P, T2) ensures m in MaximalSet(P, T) {
        var g :| g in heads && Reach(P, g, m);
        assert g in T2;
      }
    } else if MaximalSet(P, T2) == MaximalSet(P, T) {
      forall d | d in states && Trusted(j, states, floors2, d) ensures exists h :: h in heads && Reach(P, h, d) {
        var m := MaximalAbove(P, rank, T2, d);
        assert m in heads;
      }
    }
  }

  lemma HeadsOfRead(j: Judge, states: Revisions, compacted: Compacted, plain: Digest -> Plain,
                    choices: map<string, Choice>, r: ReadResult)
    requires ReadOutcome(j, states, compacted, plain, choices, r) && r.Read?
    ensures r.heads == HeadList(j, states, compacted.floors)
    ensures |r.heads| > 1 ==> Unexcused(states, compacted) == {}
    ensures OutcomeOf(r.heads, Listing(BaseSet(RevisionParents(states), r.heads)), true, plain, choices, r)
  {
  }

  /** Whatever untrusted revisions make of the load, a read that succeeds has the content of trusted revisions alone:
      the heads that the revisions shown before have under the floors now in force, merged against their bases. */
  lemma OutsidersAreNotRead(j: Judge, states: Revisions, states2: Revisions, records: Option<seq<Record>>,
                            plain: Digest -> Plain, choices: map<string, Choice>, r2: Result)
    requires OutsidersAdd(j, states, states2, FloorsInForce(j, states2, records))
    requires ReadsAs(j, states2, records, plain, choices, r2) && r2.Merged? && r2.read.Read?
    ensures r2.read.heads == HeadList(j, states, FloorsInForce(j, states2, records))
    ensures OutcomeOf(r2.read.heads, Listing(BaseSet(RevisionParents(states), r2.read.heads)), true, plain, choices,
                      r2.read)
  {
    var load := LoadOf(states2, j.accepted.heads, records);
    HeadsOfRead(j, states2, load.compacted, plain, choices, r2.read);
    HeadsAreShown(j, states, load.compacted.floors);
    OutsidersMoveNoHead(j, states, states2, load.compacted.floors, HeadList(j, states, load.compacted.floors));
  }

  /** A read that succeeds is the same with untrusted revisions added exactly when the load still succeeds,
      the old heads stand under the floors now in force, and several heads are not kept from merging by a
      parent that is missing and not excused. */
  lemma OutsidersChangeReads(j: Judge, states: Revisions, states2: Revisions, records: Option<seq<Record>>,
                             plain: Digest -> Plain, choices: map<string, Choice>, rank: Digest -> nat, r: Result,
                             r2: Result)
    requires Ranked(RevisionParents(states), rank)
    requires OutsidersAdd(j, states, states2, FloorsInForce(j, states2, records))
    requires ReadsAs(j, states, records, plain, choices, r) && ReadsAs(j, states2, records, plain, choices, r2)
    requires r.Merged? && r.read.Read?
    ensures var load := LoadOf(states2, j.accepted.heads, records);
            r2 == r <==>
              && load.Loaded? && HeadsStand(j, states, r.read.heads, load.compacted.floors)
              && (|r.read.heads| <= 1 || Unexcused(states2, load.compacted) == {})
  {
    var load1, load := LoadOf(states, j.accepted.heads, records), LoadOf(states2, j.accepted.heads, records);
    HeadsOfRead(j, states, load1.compacted, plain, choices, r.read);
    if load.Loaded? {
      var heads := r.read.heads;
      SameHeads(j, states, rank, load1.compacted.floors, load.compacted.floors);
      HeadsAreShown(j, states, load1.compacted.floors);
      OutsidersMoveNoHead(j, states, states2, load.compacted.floors, heads);
      if HeadsStand(j, states, heads, load.compacted.floors) &&
         (|heads| <= 1 || Unexcused(states2, load.compacted) == {}) {
        StandingRead(j, states2, load.compacted, heads, plain, choices, r.read, r2.read);
      } else if r2 == r {
        HeadsOfRead(j, states2, load.compacted, plain, choices, r2.read);
      }
    }
  }

  lemma StandingRead(j: Judge, states: Revisions, compacted: Compacted, heads: seq<Digest>, plain: Digest -> Plain,
                     choices: map<string, Choice>, r: ReadResult, r2: ReadResult)
    requires heads == HeadList(j, states, compacted.floors) && r.Read?
    requires |heads| <= 1 || Unexcused(states, compacted) == {}
    requires OutcomeOf(heads, Listing(BaseSet(RevisionParents(states), heads)), true, plain, choices, r)
    requires ReadOutcome(j, states, compacted, plain, choices, r2)
    ensures r2 == r
  {
    OutcomeDetermined(heads, Listing(BaseSet(RevisionParents(states), heads)), true, plain, choices, r, r2);
  }

  /** Where nothing was missing before, no floor was in force. An untrusted revision that names a missing parent makes
      the records count, and then the read is the same exactly when every head is above every floor they show and, if
      there are several heads, they excuse what is missing. */
  lemma FloorsSwitchedOn(j: Judge, states: Revisions, states2: Revisions, records: Option<seq<Record>>,
                         plain: Digest -> Plain, choices: map<string, Choice>, rank: Digest -> nat, r: Result,
                         r2: Result)
    requires Ranked(RevisionParents(states), rank) && !SomethingMissing(states, j.accepted.heads)
    requires OutsidersAdd(j, states, states2, FloorsInForce(j, states2, records))
    requires ReadsAs(j, states, records, plain, choices, r) && ReadsAs(j, states2, records, plain, choices, r2)
    requires r.Merged? && r.read.Read?
    ensures r2 == r <==>
              || NewlyMissing(states, states2) == {}
              || (&& records.Some?
                  && (forall h :: h in r.read.heads ==>
                        Above(RevisionParents(states), SaidBy(records.value, states2).floors, h))
                  && (|r.read.heads| <= 1 || NewlyMissing(states, states2) <= SaidBy(records.value, states2).removed))
  {
    OutsidersChangeReads(j, states, states2, records, plain, choices, rank, r, r2);
    var load1, load := LoadOf(states, j.accepted.heads, records), LoadOf(states2, j.accepted.heads, records);
    assert load1 == Loaded(NOTHING_COMPACTED) && r.read.heads == HeadList(j, states, []) by {
      HeadsOfRead(j, states, load1.compacted, plain, choices, r.read);
    }
    LoadAfter(states, states2, j.accepted.heads, records);
    if load.Loaded? {
      NoFloorsBefore(j, states, rank, r.read.heads, load.compacted.floors);
    }
  }

  /** Where nothing was missing, what is missing afterwards is what the added revisions name. */
  lemma LoadAfter(states: Revisions, states2: Revisions, accepted: seq<Digest>, records: Option<seq<Record>>)
    requires states != map[] && !SomethingMissing(states, accepted)
    requires forall d :: d in states ==> d in states2 && states2[d] == states[d]
    requires GrowsAbove(RevisionParents(states), RevisionParents(states2))
    ensures var missing := NewlyMissing(states, states2);
            LoadOf(states2, accepted, records) ==
              if missing == {} then Loaded(NOTHING_COMPACTED)
              else if records.None? then RecordsFailed
              else Loaded(SaidBy(records.value, states2))
    ensures forall c: Compacted :: Unexcused(states2, c) == {} <==> NewlyMissing(states, states2) <= c.removed
  {
    OutsidersMissing(states, states2);
    assert MissingSet(RevisionParents(states)) == {};
    forall c: Compacted ensures Unexcused(states2, c) == {} <==> NewlyMissing(states, states2) <= c.removed {
      NothingLeft({}, NewlyMissing(states, states2), c.removed);
      assert {} + NewlyMissing(states, states2) == NewlyMissing(states, states2);
    }
  }

  /** With no floor in force before, the heads stand when they are above those in force now. */
  lemma NoFloorsBefore(j: Judge, states: Revisions, rank: Digest -> nat, heads: seq<Digest>, floors: seq<Digest>)
    requires Ranked(RevisionParents(states), rank) && heads == HeadList(j, states, [])
    ensures HeadsStand(j, states, heads, floors) <==>
              forall h :: h in heads ==> Above(RevisionParents(states), floors, h)
  {
    forall d | d in states && Trusted(j, states, floors, d)
      ensures exists h :: h in heads && Reach(RevisionParents(states), h, d) {
      assert Trusted(j, states, [], d);
      var m := MaximalAbove(RevisionParents(states), rank, TrustedSet(j, states, []), d);
      assert m in Elements(heads);
    }
  }
}
