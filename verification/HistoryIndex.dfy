/** Listing history with flags remembered from earlier listings (app/history.go, app/history_index.go). */
module HistoryIndex {
  import opened Orders
  import opened Digests
  import opened Dag
  import opened States
  import opened MergedRead
  import opened History

  /** What listing history learned about one revision by decrypting it. */
  datatype Flags = Flags(readable: bool, repeats: bool, repeatParent: Digest)

  type Index = map<Digest, Flags>

  /** The part of the view below the given heads, which is the history that is listed. */
  method HistoryStates(view: Revisions, heads: seq<Digest>) returns (states: Revisions)
    ensures states.Keys == LedTo(RevisionParents(view), heads)
    ensures forall d :: d in states ==> d in view && states[d] == view[d]
  {
    var g := new Graph.From(RevisionParents(view));
    var kept: set<Digest> := {};
    for i := 0 to |heads|
      invariant g.parents == RevisionParents(view)
      invariant kept == LedTo(RevisionParents(view), heads[..i])
    {
      var anc := g.Ancestors(heads[i]);
      assert heads[..i + 1] == heads[..i] + [heads[i]];
      kept := kept + anc;
    }
    assert heads[..|heads|] == heads;
    states := map d | d in view && d in kept :: view[d];
  }

  // ----- what flags mean

  /** A parent that is present, that this device can read, and that has the same content. */
  ghost predicate SameAs(S: Revisions, truth: Digest -> Plain, d: Digest, p: Digest) {
    d in S && p in S[d].parents && p in S && SameContent(truth, d, p)
  }

  ghost predicate SameContent(truth: Digest -> Plain, d: Digest, p: Digest) {
    truth(d).Readable? && truth(p).Readable? && truth(p).secrets == truth(d).secrets
  }

  /** The revision only repeats the content of a parent, as a re-encryption does. */
  ghost predicate Repeats(S: Revisions, truth: Digest -> Plain, d: Digest) {
    exists p :: SameAs(S, truth, d, p)
  }

  /** Which revisions this device can read was recorded right. */
  ghost predicate Truthful(truth: Digest -> Plain, known: Index) {
    forall d :: d in known ==> (known[d].readable <==> truth(d).Readable?)
  }

  /** Decrypting gives what it always gives, or fails for now. */
  ghost predicate Decrypts(plain: Digest -> Plain, truth: Digest -> Plain) {
    forall d :: !truth(d).Lost? && (plain(d).Lost? || plain(d) == truth(d))
  }

  /** A flag still stands unless the parent it names has gone. */
  predicate Stands(S: Revisions, known: Index, d: Digest) {
    d in known && (known[d].repeats ==> known[d].repeatParent in S)
  }

  ghost predicate Shown(S: Revisions, truth: Digest -> Plain, known: Index, d: Digest) {
    && d in S && truth(d).Readable?
    && if Stands(S, known, d) then !known[d].repeats else !Repeats(S, truth, d)
  }

  /** Flags worked out by decrypting. */
  ghost predicate Computed(S: Revisions, truth: Digest -> Plain, d: Digest, f: Flags) {
    && (f.readable <==> truth(d).Readable?)
    && (f.repeats <==> Repeats(S, truth, d))
    && (f.repeats ==> SameAs(S, truth, d, f.repeatParent))
  }

  /** What a listing of `S` leaves in the index. */
  ghost predicate SavedBy(S: Revisions, truth: Digest -> Plain, known: Index, saved: Index) {
    && saved.Keys == S.Keys
    && (forall d :: d in saved ==>
          if Stands(S, known, d) then saved[d] == known[d] else Computed(S, truth, d, saved[d]))
  }

  function Filter(order: seq<Digest>, keep: set<Digest>): seq<Digest> {
    if order == [] then []
    else Filter(order[..|order| - 1], keep) + (if order[|order| - 1] in keep then [order[|order| - 1]] else [])
  }

  ghost function ReadableOnly(S: Revisions, truth: Digest -> Plain): Revisions {
    map d | d in S && truth(d).Readable? :: S[d]
  }

  ghost function ShownSet(S: Revisions, truth: Digest -> Plain, known: Index): set<Digest> {
    KeptIn(S, truth, known, S.Keys)
  }

  /** The entries a listing gives: the readable revisions in chronological order, less those that only repeat a parent. */
  ghost predicate Lists(S: Revisions, truth: Digest -> Plain, known: Index, entries: seq<Digest>) {
    exists order :: Chronological(ReadableOnly(S, truth), order) && entries == Filter(order, ShownSet(S, truth, known))
  }

  // ----- the listing

  /** Whether this device can read a revision, from the index or by decrypting; nothing when decrypting fails. */
  method CanRead(plain: Digest -> Plain, known: Index, d: Digest, ghost truth: Digest -> Plain)
    returns (r: Option<bool>)
    requires Decrypts(plain, truth) && Truthful(truth, known)
    ensures r.Some? ==> (r.value <==> truth(d).Readable?)
    ensures r.None? ==> plain(d).Lost?
  {
    if d in known {
      return Some(known[d].readable);
    }
    r := match plain(d)
      case Readable(_) => Some(true)
      case NoKey => Some(false)
      case Lost => None;
  }

  lemma RepeatsWhen(S: Revisions, truth: Digest -> Plain, d: Digest)
    requires d in S && truth(d).Readable?
    ensures Repeats(S, truth, d) <==>
              exists p :: p in S[d].parents && p in S && truth(p) == Readable(truth(d).secrets)
  {
    if p :| p in S[d].parents && p in S && truth(p) == Readable(truth(d).secrets) {
      assert SameAs(S, truth, d, p);
    }
  }

  lemma {:induction false} FilterKeeps(order: seq<Digest>, keep: set<Digest>)
    ensures forall d :: d in Filter(order, keep) <==> d in order && d in keep
  {
    if order != [] {
      FilterKeeps(order[..|order| - 1], keep);
      assert order == order[..|order| - 1] + [order[|order| - 1]];
    }
  }

  /** A listing without an index has exactly the revisions that this device can read, less those of which a parent in the
      history has equal secrets. */
  lemma FreshListing(S: Revisions, truth: Digest -> Plain, entries: seq<Digest>, d: Digest)
    requires Lists(S, truth, map[], entries)
    ensures d in entries <==>
              && d in S && truth(d).Readable?
              && forall p :: p in S[d].parents && p in S ==> truth(p) != Readable(truth(d).secrets)
  {
    var order: seq<Digest> :|
      Chronological(ReadableOnly(S, truth), order) && entries == Filter(order, ShownSet(S, truth, map[]));
    FilterKeeps(order, ShownSet(S, truth, map[]));
    assert d in order <==> d in Elements(order);
    if d in S && truth(d).Readable? {
      RepeatsWhen(S, truth, d);
    }
  }

  /** The flags of one revision, unless a parent in the history cannot be decrypted at the moment. */
  method WorkOut(S: Revisions, plain: Digest -> Plain, known: Index, d: Digest, ghost truth: Digest -> Plain)
    returns (f: Option<Flags>)
    requires d in S && truth(d).Readable? && Decrypts(plain, truth) && Truthful(truth, known)
    ensures f.Some? ==> Computed(S, truth, d, f.value)
    ensures f.Some? ==>
              (f.value.repeats <==>
                 exists p :: p in S[d].parents && p in S && truth(p) == Readable(truth(d).secrets))
    ensures f.None? ==> exists p :: p in S && plain(p).Lost?
  {
    RepeatsWhen(S, truth, d);
    if !plain(d).Readable? {
      return None;
    }
    var ps := S[d].parents;
    for i := 0 to |ps|
      invariant forall k :: 0 <= k < i ==> !SameAs(S, truth, d, ps[k])
    {
      var p := ps[i];
      if p in S {
        var readable := CanRead(plain, known, p, truth);
        if readable.None? {
          return None;
        }
        if readable.value {
          if !plain(p).Readable? {
            return None;
          }
          if plain(p).secrets == plain(d).secrets {
            assert SameAs(S, truth, d, p);
            return Some(Flags(true, true, p));
          }
        }
      }
    }
    f := Some(Flags(true, false, 0));
  }

  /** The flags of one revision, from the index while they stand, or worked out. */
  method FlagsOf(S: Revisions, plain: Digest -> Plain, known: Index, d: Digest, ghost truth: Digest -> Plain)
    returns (f: Option<Flags>)
    requires d in S && Decrypts(plain, truth) && Truthful(truth, known)
    ensures f.Some? ==> if Stands(S, known, d) then f.value == known[d] else Computed(S, truth, d, f.value)
    ensures f.None? ==> exists p :: p in S && plain(p).Lost?
  {
    if Stands(S, known, d) {
      return Some(known[d]);
    }
    var readable := CanRead(plain, known, d, truth);
    if readable.None? {
      return None;
    }
    if readable.value {
      f := WorkOut(S, plain, known, d, truth);
    } else {
      f := Some(Flags(false, false, 0));
    }
  }

  /** What the loop over the revisions has found out: the flags of those it is
      past, and what the index held of the others. */
  ghost predicate Partway(S: Revisions, truth: Digest -> Plain, known: Index, done: set<Digest>, now: Index) {
    && Truthful(truth, now) && done <= now.Keys
    && (forall d {:trigger now[d]} :: d in done ==>
          if Stands(S, known, d) then now[d] == known[d] else Computed(S, truth, d, now[d]))
    && (forall d {:trigger now[d]} :: d !in done ==> (d in now <==> d in known))
    && (forall d {:trigger known[d]} :: d !in done && d in known ==> d in now && now[d] == known[d])
  }

  lemma PartwayNext(S: Revisions, truth: Digest -> Plain, known: Index, done: set<Digest>, now: Index, d: Digest,
                    f: Flags)
    requires Truthful(truth, known) && Partway(S, truth, known, done, now) && d in S && d !in done
    requires if Stands(S, now, d) then f == now[d] else Computed(S, truth, d, f)
    ensures Partway(S, truth, known, done + {d}, now[d := f])
    ensures f.readable <==> truth(d).Readable?
    ensures f.readable && !f.repeats <==> Shown(S, truth, known, d)
  {
    assert Stands(S, now, d) <==> Stands(S, known, d);
  }

  ghost function ReadIn(truth: Digest -> Plain, ds: set<Digest>): set<Digest> {
    set d | d in ds && truth(d).Readable?
  }

  ghost function KeptIn(S: Revisions, truth: Digest -> Plain, known: Index, ds: set<Digest>): set<Digest> {
    set d | d in ds && Shown(S, truth, known, d)
  }

  lemma SetsNext(S: Revisions, truth: Digest -> Plain, known: Index, ds: set<Digest>, d: Digest)
    ensures ReadIn(truth, ds + {d}) == ReadIn(truth, ds) + (if truth(d).Readable? then {d} else {})
    ensures KeptIn(S, truth, known, ds + {d}) == KeptIn(S, truth, known, ds) +
              (if Shown(S, truth, known, d) then {d} else {})
  {
  }

  function Restricted(S: Revisions, ds: set<Digest>): Revisions {
    map d | d in S && d in ds :: S[d]
  }

  ghost predicate ClassifyInv(S: Revisions, truth: Digest -> Plain, known: Index, done: set<Digest>, now: Index,
                              readable: set<Digest>, keep: set<Digest>) {
    && Partway(S, truth, known, done, now)
    && readable == ReadIn(truth, done) && keep == KeptIn(S, truth, known, done)
  }

  method ClassifyOne(S: Revisions, plain: Digest -> Plain, d: Digest, now: Index, readable: set<Digest>,
                     keep: set<Digest>, ghost known: Index, ghost done: set<Digest>, ghost truth: Digest -> Plain)
    returns (ok: bool, now2: Index, readable2: set<Digest>, keep2: set<Digest>)
    requires Decrypts(plain, truth) && Truthful(truth, known) && d in S && d !in done
    requires ClassifyInv(S, truth, known, done, now, readable, keep)
    ensures ok ==> ClassifyInv(S, truth, known, done + {d}, now2, readable2, keep2)
    ensures !ok ==> exists d :: d in S && plain(d).Lost?
  {
    now2, readable2, keep2 := now, readable, keep;
    var f := FlagsOf(S, plain, now, d, truth);
    if f.None? {
      ok := false;
      return;
    }
    PartwayNext(S, truth, known, done, now, d, f.value);
    SetsNext(S, truth, known, done, d);
    ok, now2 := true, now[d := f.value];
    if f.value.readable {
      readable2 := readable + {d};
      if !f.value.repeats {
        keep2 := keep + {d};
      }
    }
  }

  /** Works out the flags of every revision, in order, and which ones to list. */
  method Classify(S: Revisions, plain: Digest -> Plain, known: Index, ghost truth: Digest -> Plain)
    returns (ok: bool, now: Index, readable: set<Digest>, keep: set<Digest>)
    requires Decrypts(plain, truth) && Truthful(truth, known)
    ensures ok ==> ClassifyInv(S, truth, known, S.Keys, now, readable, keep)
    ensures !ok ==> exists d :: d in S && plain(d).Lost?
  {
    var all := Collect(S.Keys);
    ok, now, readable, keep := true, known, {}, {};
    ghost var done: set<Digest> := {};
    for i := 0 to |all|
      invariant done == Elements(all[..i]) && ClassifyInv(S, truth, known, done, now, readable, keep)
      invariant ok
    {
      ListedOnce(all, i);
      ok, now, readable, keep := ClassifyOne(S, plain, all[i], now, readable, keep, known, done, truth);
      if !ok {
        return;
      }
      done := done + {all[i]};
    }
    assert all[..|all|] == all;
  }

  lemma ListedOnce(all: seq<Digest>, i: nat)
    requires StrictlySorted(all) && i < |all|
    ensures all[i] in Elements(all) && all[i] !in Elements(all[..i])
    ensures Elements(all[..i + 1]) == Elements(all[..i]) + {all[i]}
  {
    assert all[..i + 1] == all[..i] + [all[i]];
  }

  method FilterOrder(order: seq<Digest>, keep: set<Digest>) returns (listed: seq<Digest>)
    ensures listed == Filter(order, keep)
  {
    listed := [];
    for i := 0 to |order|
      invariant listed == Filter(order[..i], keep)
    {
      assert order[..i + 1][..i] == order[..i];
      if order[i] in keep {
        listed := listed + [order[i]];
      }
    }
    assert order[..|order|] == order;
  }

  lemma RestrictedFit(S: Revisions, ds: set<Digest>, rank: Digest -> nat)
    requires Ranked(RevisionParents(S), rank) && DistinctParents(S)
    ensures Ranked(RevisionParents(Restricted(S, ds)), rank) && DistinctParents(Restricted(S, ds))
  {
  }

  lemma SavedAfter(S: Revisions, truth: Digest -> Plain, known: Index, now: Index, saved: Index)
    requires Partway(S, truth, known, S.Keys, now) && saved == map d | d in S && d in now :: now[d]
    ensures SavedBy(S, truth, known, saved)
  {
    forall d | d in saved
      ensures if Stands(S, known, d) then saved[d] == known[d] else Computed(S, truth, d, saved[d]) {
      assert now[d] == saved[d];
    }
  }

  /** Lists the history of a resource, and what it then remembers. A listing may fail only if a decryption does. */
  method List(S: Revisions, plain: Digest -> Plain, known: Index, ghost truth: Digest -> Plain,
              ghost rank: Digest -> nat)
    returns (entries: Option<seq<Digest>>, saved: Index)
    requires Decrypts(plain, truth) && Truthful(truth, known)
    requires Ranked(RevisionParents(S), rank) && DistinctParents(S)
    ensures entries.Some? ==> Lists(S, truth, known, entries.value) && SavedBy(S, truth, known, saved)
    ensures entries.None? ==> saved == known && exists d :: d in S && plain(d).Lost?
  {
    var ok, now, readable, keep := Classify(S, plain, known, truth);
    if !ok {
      return None, known;
    }
    saved := map d | d in S && d in now :: now[d];
    SavedAfter(S, truth, known, now, saved);
    var revisions := Restricted(S, readable);
    RestrictedFit(S, readable, rank);
    assert revisions == ReadableOnly(S, truth);
    var order := ChronologicalOrder(revisions, rank);
    var listed := FilterOrder(order, keep);
    entries := Some(listed);
  }

  // ----- the index agrees with listing afresh

  /** Every flag that stands is what working it out again would give. */
  ghost predicate Sound(S: Revisions, truth: Digest -> Plain, known: Index) {
    && Truthful(truth, known)
    && (forall d :: d in known && d in S && known[d].readable ==>
          if known[d].repeats then known[d].repeatParent in S[d].parents && SameContent(truth, d, known[d].repeatParent)
          else !Repeats(S, truth, d))
  }

  /** Where flags of repeats are right, the index changes what is listed exactly when some
      revision flagged as new now repeats a parent. */
  lemma StaleExactly(S: Revisions, truth: Digest -> Plain, known: Index)
    requires Truthful(truth, known)
    requires forall d :: d in known && d in S && known[d].readable && known[d].repeats ==>
               known[d].repeatParent in S[d].parents && SameContent(truth, d, known[d].repeatParent)
    ensures ShownSet(S, truth, known) == ShownSet(S, truth, map[]) <==>
            forall d :: d in known && d in S && known[d].readable && !known[d].repeats ==> !Repeats(S, truth, d)
  {
    forall d | d in S
      ensures Shown(S, truth, known, d) <==>
                (Shown(S, truth, map[], d) || (d in known && known[d].readable && !known[d].repeats))
    {
      if d in known && known[d].readable && known[d].repeats && known[d].repeatParent in S {
        assert SameAs(S, truth, d, known[d].repeatParent);
      }
    }
    var without: Index := map[];
    var a, b := ShownSet(S, truth, known), ShownSet(S, truth, without);
    assert forall d :: d in a <==> d in S && Shown(S, truth, known, d);
    assert forall d :: d in b <==> d in S && Shown(S, truth, without, d);
    assert forall d :: d in S ==> (Shown(S, truth, without, d) <==> truth(d).Readable? && !Repeats(S, truth, d));
  }

  lemma SoundShowsAll(S: Revisions, truth: Digest -> Plain, known: Index)
    requires Sound(S, truth, known)
    ensures ShownSet(S, truth, known) == ShownSet(S, truth, map[])
  {
    forall d | d in known && d in S && known[d].readable && known[d].repeats
      ensures known[d].repeatParent in S[d].parents && SameContent(truth, d, known[d].repeatParent) {
    }
    StaleExactly(S, truth, known);
  }

  /** From `S` to a later `S2`, revisions keep their content and gain no parent that was missing. */
  ghost predicate GainsNothing(S: Revisions, S2: Revisions) {
    forall d :: d in S && d in S2 ==> S2[d] == S[d] && forall p :: p in S[d].parents && p in S2 ==> p in S
  }

  lemma SavedIsSound(S: Revisions, S2: Revisions, truth: Digest -> Plain, known: Index, saved: Index)
    requires Sound(S2, truth, known) && Truthful(truth, known) && SavedBy(S, truth, known, saved) && GainsNothing(S, S2)
    ensures Sound(S2, truth, saved)
  {
    forall d | d in saved && d in S2 && saved[d].readable
      ensures if saved[d].repeats
              then saved[d].repeatParent in S2[d].parents && SameContent(truth, d, saved[d].repeatParent)
              else !Repeats(S2, truth, d)
    {
      if !Stands(S, known, d) {
        assert S2[d] == S[d];
        forall p | SameAs(S2, truth, d, p) ensures SameAs(S, truth, d, p) {
        }
      }
    }
  }

  /** The index before each listing: empty at first, then what the last listing left, if it could be saved. */
  ghost predicate IndexRun(truth: Digest -> Plain, visits: seq<Revisions>, indexes: seq<Index>) {
    && |indexes| == |visits| + 1 && indexes[0] == map[]
    && (forall i :: 0 <= i < |visits| ==>
          indexes[i + 1] == indexes[i] || SavedBy(visits[i], truth, indexes[i], indexes[i + 1]))
  }

  ghost predicate NoneGains(visits: seq<Revisions>) {
    forall i, k :: 0 <= i < k < |visits| ==> GainsNothing(visits[i], visits[k])
  }

  lemma {:induction false} IndexStaysSound(truth: Digest -> Plain, visits: seq<Revisions>, indexes: seq<Index>, i: nat,
                                           k: nat)
    requires IndexRun(truth, visits, indexes) && NoneGains(visits) && i <= k < |visits|
    ensures Sound(visits[k], truth, indexes[i])
    decreases i
  {
    if i > 0 {
      IndexStaysSound(truth, visits, indexes, i - 1, k);
      if indexes[i] != indexes[i - 1] {
        assert SavedBy(visits[i - 1], truth, indexes[i - 1], indexes[(i - 1) + 1]);
        assert GainsNothing(visits[i - 1], visits[k]);
        SavedIsSound(visits[i - 1], visits[k], truth, indexes[i - 1], indexes[i]);
      }
    }
  }

  /** Whatever index earlier listings left, a listing gives the entries that a listing without any index gives. */
  lemma IndexNeverMatters(truth: Digest -> Plain, visits: seq<Revisions>, indexes: seq<Index>, i: nat,
                          entries: seq<Digest>, afresh: seq<Digest>)
    requires IndexRun(truth, visits, indexes) && NoneGains(visits) && i < |visits|
    requires Lists(visits[i], truth, indexes[i], entries) && Lists(visits[i], truth, map[], afresh)
    ensures Truthful(truth, indexes[i]) && entries == afresh
  {
    IndexStaysSound(truth, visits, indexes, i, i);
    SoundShowsAll(visits[i], truth, indexes[i]);
    var a :| Chronological(ReadableOnly(visits[i], truth), a) &&
             entries == Filter(a, ShownSet(visits[i], truth, indexes[i]));
    var b :| Chronological(ReadableOnly(visits[i], truth), b) && afresh == Filter(b, ShownSet(visits[i], truth, map[]));
    ChronologicalIsUnique(ReadableOnly(visits[i], truth), a, b);
  }

  /** Revisions that appear were never seen or named before: they are added as descendants,
      and what compaction removed stays away. */
  ghost predicate AddsDescendants(visits: seq<Revisions>) {
    && (forall i, k, d :: 0 <= i < k < |visits| && d in visits[i] && d in visits[k] ==> visits[i][d] == visits[k][d])
    && (forall j, d :: 0 < j < |visits| && d in visits[j] && d !in visits[j - 1] ==> Unseen(visits, j, d))
  }

  ghost predicate Unseen(visits: seq<Revisions>, j: int, d: Digest) {
    forall i :: 0 <= i < j <= |visits| ==> NeverNamed(visits[i], d)
  }

  ghost predicate NeverNamed(S: Revisions, p: Digest) {
    p !in S && forall d :: d in S ==> p !in S[d].parents
  }

  /** The step at which a revision appeared, having been absent before. */
  lemma {:induction false} Appeared(visits: seq<Revisions>, i: nat, k: nat, p: Digest) returns (j: nat)
    requires i < k < |visits| && p !in visits[i] && p in visits[k]
    ensures i < j <= k && p in visits[j] && p !in visits[j - 1]
    decreases k
  {
    if p in visits[k - 1] {
      j := Appeared(visits, i, k - 1, p);
    } else {
      j := k;
    }
  }

  lemma UnseenAt(visits: seq<Revisions>, j: int, p: Digest, i: int)
    requires Unseen(visits, j, p) && 0 <= i < j <= |visits|
    ensures NeverNamed(visits[i], p)
  {
  }

  /** Adding descendants and compacting never gives a known revision a parent it lacked. */
  lemma DescendantsGainNothing(visits: seq<Revisions>)
    requires AddsDescendants(visits)
    ensures NoneGains(visits)
  {
    forall i, k | 0 <= i < k < |visits| ensures GainsNothing(visits[i], visits[k]) {
      forall d, p | d in visits[i] && d in visits[k] && p in visits[i][d].parents && p in visits[k]
        ensures p in visits[i] {
        if p !in visits[i] {
          var j := Appeared(visits, i, k, p);
          UnseenAt(visits, j, p, i);
        }
      }
    }
  }
}
