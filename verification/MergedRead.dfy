/** The content of a resource (mergeResource in app/workspace.go). */
module MergedRead {
  import opened Orders
  import opened Digests
  import opened Dag
  import opened Compaction
  import opened Checkpoint
  import opened States
  import opened Merge
  import opened Reading

  /** What decrypting one revision gives this device. */
  datatype Plain = Readable(secrets: Secrets) | NoKey | Lost

  datatype ReadResult =
    | Read(heads: seq<Digest>, secrets: Secrets, conflicts: seq<Conflict>)
    | NoTrustedHead
    | MissingHistory
    | Undecryptable

  /** Parents some revision names that the view lacks and no compaction excuses. */
  ghost function Unexcused(states: Revisions, compacted: Compacted): set<Digest> {
    MissingSet(RevisionParents(states)) - compacted.removed
  }

  ghost predicate AllReadable(plain: Digest -> Plain, heads: seq<Digest>) {
    forall h :: h in heads ==> plain(h).Readable?
  }

  function MapsOf(plain: Digest -> Plain, heads: seq<Digest>): (ms: seq<Secrets>)
    requires forall h :: h in heads ==> plain(h).Readable?
    ensures |ms| == |heads| && forall i :: 0 <= i < |ms| ==> ms[i] == plain(heads[i]).secrets
  {
    seq(|heads|, i requires 0 <= i < |heads| => plain(heads[i]).secrets)
  }

  /** The maps a merge uses as bases: a base this device cannot read is replaced by every head. */
  ghost function BaseMaps(plain: Digest -> Plain, bases: seq<Digest>, heads: seq<Secrets>): seq<Secrets> {
    if bases == [] then []
    else
      var rest := BaseMaps(plain, bases[..|bases| - 1], heads);
      var b := plain(bases[|bases| - 1]);
      if b.Readable? then rest + [b.secrets] else rest + heads
  }

  ghost function HeadList(j: Judge, states: Revisions, floors: seq<Digest>): seq<Digest> {
    Listing(CurrentHeads(j, states, floors))
  }

  /** What a read must return. */
  ghost predicate ReadOutcome(j: Judge, states: Revisions, compacted: Compacted, plain: Digest -> Plain,
                              choices: map<string, Choice>, r: ReadResult) {
    var heads := HeadList(j, states, compacted.floors);
    var bases := Listing(BaseSet(RevisionParents(states), heads));
    OutcomeOf(heads, bases, Unexcused(states, compacted) == {}, plain, choices, r)
  }

  ghost predicate OutcomeOf(heads: seq<Digest>, bases: seq<Digest>, complete: bool, plain: Digest -> Plain,
                            choices: map<string, Choice>, r: ReadResult) {
    if heads == [] then r == NoTrustedHead
    else if !AllReadable(plain, heads) then r == Undecryptable
    else if |heads| == 1 then r == Read(heads, plain(heads[0]).secrets, [])
    else if !complete then r == MissingHistory
    else if exists b :: b in bases && plain(b).Lost? then r == Undecryptable
    else
      && r.Read? && r.heads == heads
      && Merged(BaseMaps(plain, bases, MapsOf(plain, heads)), MapsOf(plain, heads), choices, r.secrets, r.conflicts)
  }

  method DecryptHeads(plain: Digest -> Plain, heads: seq<Digest>) returns (maps: Option<seq<Secrets>>)
    ensures maps.Some? <==> AllReadable(plain, heads)
    ensures maps.Some? ==> maps.value == MapsOf(plain, heads)
  {
    var out: seq<Secrets> := [];
    for i := 0 to |heads|
      invariant |out| == i && forall k :: 0 <= k < i ==> plain(heads[k]).Readable? && out[k] == plain(heads[k]).secrets
    {
      if !plain(heads[i]).Readable? {
        return None;
      }
      out := out + [plain(heads[i]).secrets];
    }
    maps := Some(out);
  }

  method DecryptBases(plain: Digest -> Plain, bases: seq<Digest>, heads: seq<Secrets>)
    returns (maps: Option<seq<Secrets>>)
    ensures maps.None? <==> exists b :: b in bases && plain(b).Lost?
    ensures maps.Some? ==> maps.value == BaseMaps(plain, bases, heads)
  {
    var out: seq<Secrets> := [];
    for i := 0 to |bases|
      invariant forall k :: 0 <= k < i ==> !plain(bases[k]).Lost?
      invariant out == BaseMaps(plain, bases[..i], heads)
    {
      assert bases[..i + 1][..i] == bases[..i];
      match plain(bases[i])
      case Lost =>
        return None;
      case NoKey =>
        out := out + heads;
      case Readable(m) =>
        out := out + [m];
    }
    assert bases[..|bases|] == bases;
    maps := Some(out);
  }

  /** Reads the resource: one trusted head is its content; several are merged against their merge bases. */
  method MergeResource(s: Session, sv: StateView, accepted: StateAcceptance, plain: Digest -> Plain,
                       choices: map<string, Choice>, ghost rank: Digest -> nat)
    returns (r: ReadResult)
    requires s.Valid() && sv.Valid() && Ranked(RevisionParents(sv.states), rank)
    modifies s.view`membership
    ensures s.Valid()
    ensures ReadOutcome(s.JudgeWith(accepted), sv.states, sv.compacted, plain, choices, r)
  {
    var heads := s.TrustedHeads(sv, accepted, rank);
    var bases := sv.graph.MergeBases(heads);
    IsListing(heads);
    IsListing(bases);
    r := Combine(sv, heads, bases, plain, choices);
  }

  method Combine(sv: StateView, heads: seq<Digest>, bases: seq<Digest>, plain: Digest -> Plain,
                 choices: map<string, Choice>) returns (r: ReadResult)
    requires sv.Valid()
    ensures OutcomeOf(heads, bases, Unexcused(sv.states, sv.compacted) == {}, plain, choices, r)
  {
    if |heads| == 0 {
      return NoTrustedHead;
    }
    var maps := DecryptHeads(plain, heads);
    if maps.None? {
      return Undecryptable;
    }
    if |maps.value| == 1 {
      return Read(heads, maps.value[0], []);
    }
    var missing := sv.MissingParents();
    assert missing == [] <==> Unexcused(sv.states, sv.compacted) == {} by {
      assert missing != [] ==> missing[0] in missing;
      assert forall d :: d in missing <==> d in Unexcused(sv.states, sv.compacted);
    }
    if |missing| > 0 {
      return MissingHistory;
    }
    var baseMaps := DecryptBases(plain, bases, maps.value);
    if baseMaps.None? {
      return Undecryptable;
    }
    var secrets, conflicts := Merge.Merge(baseMaps.value, maps.value, choices);
    r := Read(heads, secrets, conflicts);
  }

  /** A read has one outcome: no order of heads, bases or keys shows in it. */
  lemma ReadIsDetermined(j: Judge, states: Revisions, compacted: Compacted, plain: Digest -> Plain,
                         choices: map<string, Choice>, r: ReadResult, r2: ReadResult)
    requires ReadOutcome(j, states, compacted, plain, choices, r) &&
             ReadOutcome(j, states, compacted, plain, choices, r2)
    ensures r == r2
  {
    var heads := HeadList(j, states, compacted.floors);
    var bases := Listing(BaseSet(RevisionParents(states), heads));
    OutcomeDetermined(heads, bases, Unexcused(states, compacted) == {}, plain, choices, r, r2);
  }

  lemma OutcomeDetermined(heads: seq<Digest>, bases: seq<Digest>, complete: bool, plain: Digest -> Plain,
                          choices: map<string, Choice>, r: ReadResult, r2: ReadResult)
    requires OutcomeOf(heads, bases, complete, plain, choices, r) &&
             OutcomeOf(heads, bases, complete, plain, choices, r2)
    ensures r == r2
  {
    if r.Read? && r2.Read? && |heads| > 1 {
      var ms := MapsOf(plain, heads);
      MergeIgnoresOrder(BaseMaps(plain, bases, ms), BaseMaps(plain, bases, ms), ms, ms, choices, r.secrets, r2.secrets,
                        r.conflicts, r2.conflicts);
    }
  }

  // ----- how a read ends

  /** When a read fails and how: by the current heads, what this device can decrypt, and what is missing. */
  lemma ReadEnds(j: Judge, states: Revisions, compacted: Compacted, plain: Digest -> Plain,
                 choices: map<string, Choice>, r: ReadResult)
    requires ReadOutcome(j, states, compacted, plain, choices, r)
    ensures var current := CurrentHeads(j, states, compacted.floors);
            var bases := BaseSet(RevisionParents(states), HeadList(j, states, compacted.floors));
            var readable := forall h :: h in current ==> plain(h).Readable?;
            && (r.NoTrustedHead? <==> current == {})
            && (r.MissingHistory? <==> |current| > 1 && readable && Unexcused(states, compacted) != {})
            && (r.Undecryptable? <==>
                  || !readable
                  || (|current| > 1 && Unexcused(states, compacted) == {} && exists b :: b in bases && plain(b).Lost?))
            && (r.Read? ==> StrictlySorted(r.heads) && Elements(r.heads) == current)
            && (r.Read? && |current| == 1 ==> r == Read(r.heads, plain(r.heads[0]).secrets, []))
  {
    var current := CurrentHeads(j, states, compacted.floors);
    var heads := HeadList(j, states, compacted.floors);
    var bases := BaseSet(RevisionParents(states), heads);
    ListingSize(heads);
    assert forall h :: h in heads <==> h in Elements(heads);
    assert forall b :: b in Listing(bases) <==> b in Elements(Listing(bases));
    assert heads == [] ==> Elements(heads) == {};
  }

  /** The maps that a merge is based on: each readable base's, and every head's if some base cannot be read. */
  lemma {:induction false} BaseMapsAre(plain: Digest -> Plain, bases: seq<Digest>, heads: seq<Secrets>)
    ensures forall b :: b in bases && plain(b).Readable? ==> plain(b).secrets in BaseMaps(plain, bases, heads)
    ensures forall b, m :: b in bases && !plain(b).Readable? && m in heads ==> m in BaseMaps(plain, bases, heads)
    ensures forall m :: m in BaseMaps(plain, bases, heads) ==>
              || (exists b :: b in bases && plain(b) == Readable(m))
              || (m in heads && exists b :: b in bases && !plain(b).Readable?)
  {
    if bases != [] {
      var front, last := bases[..|bases| - 1], bases[|bases| - 1];
      BaseMapsAre(plain, front, heads);
      assert last in bases && forall b :: b in bases <==> b in front || b == last;
    }
  }

  /** A read that merges several heads is a merge of their contents, of which these are the bases. */
  lemma MergedReadBases(j: Judge, states: Revisions, compacted: Compacted, plain: Digest -> Plain,
                        choices: map<string, Choice>, r: ReadResult)
    returns (ms: seq<Secrets>, maps: seq<Secrets>)
    requires ReadOutcome(j, states, compacted, plain, choices, r) && r.Read? && |r.heads| > 1
    ensures Merged(maps, ms, choices, r.secrets, r.conflicts) && ms != []
    ensures forall m :: m in ms <==> exists h :: h in r.heads && plain(h) == Readable(m)
    ensures forall h :: h in r.heads ==> plain(h).Readable? && plain(h).secrets in ms
    ensures var bases := BaseSet(RevisionParents(states), r.heads);
            && (forall b :: b in bases && plain(b).Readable? ==> plain(b).secrets in maps)
            && (forall b, m :: b in bases && plain(b).NoKey? && m in ms ==> m in maps)
            && (bases == {} ==> maps == [])
  {
    var bases := Listing(BaseSet(RevisionParents(states), r.heads));
    ms := MapsOf(plain, r.heads);
    maps := BaseMaps(plain, bases, ms);
    BaseMapsAre(plain, bases, ms);
    assert forall b :: b in bases <==> b in Elements(bases);
    forall h | h in r.heads ensures plain(h).secrets in ms {
      var i :| 0 <= i < |r.heads| && r.heads[i] == h;
      assert ms[i] in ms;
    }
    assert bases != [] ==> bases[0] in Elements(bases);
  }

  /** The conflict offers what each head says about its key. */
  ghost predicate Offers(c: Conflict, plain: Digest -> Plain, heads: seq<Digest>) {
    forall h :: h in heads ==> plain(h).Readable? && Get(plain(h).secrets, c.key) in c.candidates
  }

  /** A device that cannot read some merge base loses no difference between the heads: every key on which two heads
      differ is either settled by its choice, or absent and reported with every head's value. */
  lemma UnreadableBaseLosesNothing(j: Judge, states: Revisions, compacted: Compacted, plain: Digest -> Plain,
                                   choices: map<string, Choice>, r: ReadResult, h1: Digest, h2: Digest, key: string)
    requires ReadOutcome(j, states, compacted, plain, choices, r) && r.Read? && |r.heads| > 1
    requires h1 in r.heads && h2 in r.heads && plain(h1).Readable? && plain(h2).Readable?
    ensures && (exists b :: b in BaseSet(RevisionParents(states), r.heads) && plain(b).NoKey?)
            && Get(plain(h1).secrets, key) != Get(plain(h2).secrets, key) ==>
              if key in choices then IsChoice(choices[key], key, r.secrets)
              else key !in r.secrets && exists c :: c in r.conflicts && c.key == key && Offers(c, plain, r.heads)
  {
    if && (exists b :: b in BaseSet(RevisionParents(states), r.heads) && plain(b).NoKey?)
       && Get(plain(h1).secrets, key) != Get(plain(h2).secrets, key) {
      var ms, maps := MergedReadBases(j, states, compacted, plain, choices, r);
      DifferenceIsReported(maps, ms, choices, r.secrets, r.conflicts, key, plain(h1).secrets, plain(h2).secrets);
      if key !in choices {
        var c :| c in r.conflicts && c.key == key && OffersAll(c, ms);
        assert Offers(c, plain, r.heads);
      }
    }
  }

  /** No head's edit is lost: where a head differs on a key from a readable merge base, or says something although there
      is no merge base, the read has its value, or the person's choice, or reports a conflict that offers it. */
  lemma ReadLosesNoUpdate(j: Judge, states: Revisions, compacted: Compacted, plain: Digest -> Plain,
                          choices: map<string, Choice>, r: ReadResult, h: Digest, base: Secrets, key: string)
    requires ReadOutcome(j, states, compacted, plain, choices, r) && r.Read? && |r.heads| > 1
    requires var bases := BaseSet(RevisionParents(states), r.heads);
             (exists b :: b in bases && plain(b) == Readable(base)) || (bases == {} && base == map[])
    requires h in r.heads && plain(h).Readable? && Get(plain(h).secrets, key) != Get(base, key)
    ensures || Get(r.secrets, key) == Get(plain(h).secrets, key)
            || (key in choices && IsChoice(choices[key], key, r.secrets))
            || (key !in r.secrets && exists i :: 0 <= i < |r.conflicts| && r.conflicts[i].key == key &&
                                                   Get(plain(h).secrets, key) in r.conflicts[i].candidates)
  {
    var ms, maps := MergedReadBases(j, states, compacted, plain, choices, r);
    assert base in BasesOf(maps);
    NoLostUpdate(maps, ms, choices, r.secrets, r.conflicts, key, plain(h).secrets, base);
  }

  // ----- what untrusted revisions can and cannot change

  /** Storage shows `states2` instead of `states`: more revisions, none named as a parent before, and none trusted under the
      floors in force for `states2`. */
  ghost predicate OutsidersAdd(j: Judge, states: Revisions, states2: Revisions, floors: seq<Digest>) {
    && (forall d :: d in states ==> d in states2 && states2[d] == states[d])
    && GrowsAbove(RevisionParents(states), RevisionParents(states2))
    && (forall d :: d in states2 && d !in states ==> !Trusted(j, states2, floors, d))
  }

  /** Whatever the floors in force, untrusted revisions change neither which heads are
      current under them nor the merge bases. */
  lemma OutsidersMoveNoHead(j: Judge, states: Revisions, states2: Revisions, floors: seq<Digest>, heads: seq<Digest>)
    requires OutsidersAdd(j, states, states2, floors) && forall h :: h in heads ==> h in states
    ensures CurrentHeads(j, states2, floors) == CurrentHeads(j, states, floors)
    ensures BaseSet(RevisionParents(states2), heads) == BaseSet(RevisionParents(states), heads)
  {
    var P, P2 := RevisionParents(states), RevisionParents(states2);
    forall d | d in states ensures Anc(P2, d) == Anc(P, d) { GrownAncestors(P, P2, d); }
    forall d, a | d in states ensures Reach(P2, d, a) <==> Reach(P, d, a) {
      assert a in Anc(P2, d) <==> a in Anc(P, d);
      if Reach(P2, d, a) { ReachEnds(P2, d, a); }
      if Reach(P, d, a) { ReachEnds(P, d, a); }
    }
    forall d | d in states ensures Trusted(j, states2, floors, d) <==> Trusted(j, states, floors, d) {
    }
    assert TrustedSet(j, states2, floors) == TrustedSet(j, states, floors);
    GrownBases(P, P2, heads);
  }

  /** The parents the added revisions name that storage does not show. */
  ghost function NewlyMissing(states: Revisions, states2: Revisions): set<Digest> {
    set d, p | d in states2.Keys - states.Keys && p in states2[d].parents && p !in states2 :: p
  }

  lemma OutsidersMissing(states: Revisions, states2: Revisions)
    requires forall d :: d in states ==> d in states2 && states2[d] == states[d]
    requires GrowsAbove(RevisionParents(states), RevisionParents(states2))
    ensures MissingSet(RevisionParents(states2)) == MissingSet(RevisionParents(states)) + NewlyMissing(states, states2)
  {
    var P, P2 := RevisionParents(states), RevisionParents(states2);
    forall p | p in MissingSet(P) ensures p in MissingSet(P2) {
      var d :| d in P && p in P[d];
      assert d in P2 && p in P2[d];
    }
    forall p | p in NewlyMissing(states, states2) ensures p in MissingSet(P2) {
      var d :| d in states2.Keys - states.Keys && p in states2[d].parents;
      assert d in P2 && p in P2[d];
    }
    forall p | p in MissingSet(P2) ensures p in MissingSet(P) + NewlyMissing(states, states2) {
      var d :| d in P2 && p in P2[d];
      if d in P {
        assert p in P[d];
      }
    }
  }

  /** Under the same floors and records for both reads, untrusted revisions change what a merge returns only by making
      it fail: when several heads must be merged and nothing unexcused was missing before, one that names a parent
      storage neither shows nor excuses does so. What loading makes of floors and records is in ResourceRead. */
  lemma OutsidersInjectNothing(j: Judge, states: Revisions, states2: Revisions, compacted: Compacted,
                               plain: Digest -> Plain, choices: map<string, Choice>, r: ReadResult, r2: ReadResult)
    requires OutsidersAdd(j, states, states2, compacted.floors)
    requires ReadOutcome(j, states, compacted, plain, choices, r)
    requires ReadOutcome(j, states2, compacted, plain, choices, r2)
    ensures r2 == r || r2 == MissingHistory
    ensures var heads := HeadList(j, states, compacted.floors);
            r2 == r <==>
              || Unexcused(states, compacted) != {} || |heads| <= 1 || !AllReadable(plain, heads)
              || NewlyMissing(states, states2) <= compacted.removed
  {
    var heads := HeadList(j, states, compacted.floors);
    var bases := Listing(BaseSet(RevisionParents(states), heads));
    HeadsAreShown(j, states, compacted.floors);
    OutsidersMoveNoHead(j, states, states2, compacted.floors, heads);
    OutsidersMissing(states, states2);
    var before, after := Unexcused(states, compacted) == {}, Unexcused(states2, compacted) == {};
    NothingLeft(MissingSet(RevisionParents(states)), NewlyMissing(states, states2), compacted.removed);
    assert OutcomeOf(heads, bases, before, plain, choices, r) && OutcomeOf(heads, bases, after, plain, choices, r2);
    if before == after {
      OutcomeDetermined(heads, bases, before, plain, choices, r, r2);
    }
  }

  lemma HeadsAreShown(j: Judge, states: Revisions, floors: seq<Digest>)
    ensures forall h :: h in HeadList(j, states, floors) ==> h in states
  {
    assert forall h :: h in HeadList(j, states, floors) ==> h in Elements(HeadList(j, states, floors));
  }

  lemma NothingLeft(a: set<Digest>, b: set<Digest>, removed: set<Digest>)
    ensures (a + b) - removed == {} <==> a - removed == {} && b <= removed
  {
    assert (a + b) - removed == (a - removed) + (b - removed);
    assert forall x :: x in b && x !in removed ==> x in b - removed;
  }

  // ----- two writers at once

  /** Two revisions on one parent that are both heads have that parent as their only merge base. */
  lemma OneBase(P: Parents, rank: Digest -> nat, a: Digest, b: Digest, p: Digest)
    requires Ranked(P, rank) && a in P && b in P && p in P && P[a] == [p] && P[b] == [p]
    requires !Reach(P, a, b) && !Reach(P, b, a)
    ensures BaseSet(P, [a, b]) == {p}
  {
    var heads := [a, b];
    assert a in heads && b in heads && forall h :: h in heads ==> h == a || h == b;
    ReachParent(P, a, p);
    ReachParent(P, b, p);
    assert p in CommonAncestors(P, heads);
    forall x | x in CommonAncestors(P, heads) ensures Reach(P, p, x) {
      ReachRefl(P, a);
      ReachRefl(P, b);
      assert Reach(P, a, x) && Reach(P, b, x) && a != x;
      var q := ReachFirst(P, a, x);
    }
    forall x | x in BaseSet(P, heads) ensures x == p {
    }
    forall x | x in CommonAncestors(P, heads) && x != p ensures !Reach(P, x, p) {
      if Reach(P, x, p) {
        ReachAntisymmetric(P, rank, x, p);
      }
    }
    assert p in BaseSet(P, heads);
  }

  /** Two trusted revisions that edited different keys of one parent are both read, and nothing is asked. */
  lemma BothEditsAreRead(j: Judge, states: Revisions, compacted: Compacted, plain: Digest -> Plain,
                         choices: map<string, Choice>, rank: Digest -> nat, a: Digest, b: Digest, p: Digest,
                         r: ReadResult)
    requires Ranked(RevisionParents(states), rank) && Unexcused(states, compacted) == {}
    requires a < b && CurrentHeads(j, states, compacted.floors) == {a, b}
    requires p in states && states[a].parents == [p] && states[b].parents == [p]
    requires plain(a).Readable? && plain(b).Readable? && plain(p).Readable?
    requires var base := plain(p).secrets;
             forall key :: Get(plain(a).secrets, key) == Get(base, key) || Get(plain(b).secrets, key) == Get(base, key)
    requires ReadOutcome(j, states, compacted, plain, choices, r)
    ensures r.Read? && r.heads == [a, b] && r.conflicts == []
    ensures forall key :: Get(r.secrets, key) ==
              if Get(plain(a).secrets, key) != Get(plain(p).secrets, key) then Get(plain(a).secrets, key)
              else Get(plain(b).secrets, key)
  {
    var P, heads, bases := RevisionParents(states), [a, b], [p];
    assert Elements(heads) == {a, b};
    IsListing(heads);
    assert MaximalIn(P, TrustedSet(j, states, compacted.floors), a) &&
           MaximalIn(P, TrustedSet(j, states, compacted.floors), b) by {
      assert a in CurrentHeads(j, states, compacted.floors) && b in CurrentHeads(j, states, compacted.floors);
    }
    OneBase(P, rank, a, b, p);
    assert Elements(bases) == {p};
    IsListing(bases);
    MergedFromOne(plain, bases, heads, p);
    DisjointEditsSurvive(plain(p).secrets, plain(a).secrets, plain(b).secrets, choices, r.secrets, r.conflicts);
  }

  lemma MergedFromOne(plain: Digest -> Plain, bases: seq<Digest>, heads: seq<Digest>, p: Digest)
    requires bases == [p] && plain(p).Readable? && |heads| == 2 && plain(heads[0]).Readable? &&
             plain(heads[1]).Readable?
    ensures AllReadable(plain, heads) && !exists b :: b in bases && plain(b).Lost?
    ensures MapsOf(plain, heads) == [plain(heads[0]).secrets, plain(heads[1]).secrets]
    ensures BaseMaps(plain, bases, MapsOf(plain, heads)) == [plain(p).secrets]
  {
    assert bases[..0] == [];
  }
}
