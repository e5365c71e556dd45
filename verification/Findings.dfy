/** Concrete inputs on which the program falls short of what one might expect of it: reads that an untrusted revision
    changes or stops, a change that lands twice, a value that is not concealed, secrets that do not read back. The
    lemmas they belong to say, for all inputs, exactly when each property holds. */
module Findings {
  import opened Orders
  import opened Digests
  import opened Dag
  import opened Control
  import opened Chain
  import opened Membership
  import opened Compaction
  import opened Checkpoint
  import opened States
  import opened Reading
  import MergedRead
  import Forks
  import Mask
  import Dotenv
  import HistoryIndex
  import ResourceRead
  import Writing

  // ----- an untrusted revision can make a read fail

  const MEMBER: Principal := Principal(7, Key(7, 0), "r7", true)
  const REMOVED_MEMBER: Principal := Principal(8, Key(8, 0), "r8", false)

  /** Device 8 was a member until Control 2. */
  const CONTROLS: Controls := map[
    1 := Verified(Control("w", [], 0, [MEMBER, REMOVED_MEMBER], 7), 1),
    2 := Verified(Control("w", [1], 1, [MEMBER], 7), 2)]

  const JUDGE: Judge := Judge(CONTROLS, 2, 7, StateAcceptance([], None))

  /** The member wrote two revisions on one parent. */
  const HONEST: Revisions := map[10 := State("s", [], 2, 7, 0), 11 := State("s", [10], 2, 7, 0),
                                 12 := State("s", [10], 2, 7, 0)]

  /** The removed device, under the Control that still listed it, published a revision that names a parent nobody has. */
  const WITH_OUTSIDER: Revisions := HONEST[13 := State("s", [99], 1, 8, 0)]

  const READABLE: Digest -> MergedRead.Plain := (d: Digest) => MergedRead.Readable(map[])

  lemma MemberTrusted()
    ensures forall d :: d in HONEST ==> Trusted(JUDGE, HONEST, [], d)
    ensures !Trusted(JUDGE, WITH_OUTSIDER, [], 13)
  {
    ReachRefl(ParentsOf(CONTROLS), 2);
    var ps := [MEMBER];
    assert ps[1..] == [] && CONTROLS[2].control.principals == ps;
    assert Find(ps[1..], 8) == None && ps[0].id == 7;
    assert Find(ps, 8) == Find(ps[1..], 8);
    assert Lists(CONTROLS[2].control, 7) && !Lists(CONTROLS[2].control, 8);
    assert AuthorCurrent(CONTROLS, 2, 2, 7) && !AuthorCurrent(CONTROLS, 2, 1, 8);
    assert WITH_OUTSIDER[13] == State("s", [99], 1, 8, 0);
  }

  /** Nothing is above a revision that no revision names as a parent. */
  lemma NothingAbove(P: Parents, s: Digest, h: Digest)
    requires s != h && forall c :: c in P ==> h !in P[c]
    ensures !Reach(P, s, h)
  {
    if Reach(P, s, h) {
      var c := ReachLast(P, s, h);
    }
  }

  lemma MaximalTwo(P: Parents)
    requires P == map[10 := [], 11 := [10], 12 := [10]]
    ensures MaximalSet(P, {10, 11, 12}) == {11, 12}
  {
    ReachParent(P, 11, 10);
    NothingAbove(P, 10, 11);
    NothingAbove(P, 12, 11);
    NothingAbove(P, 10, 12);
    NothingAbove(P, 11, 12);
    var T: set<Digest> := {10, 11, 12};
    assert 11 in T && Reach(P, 11, 10);
  }

  lemma AllTrusted()
    ensures TrustedSet(JUDGE, HONEST, []) == {10, 11, 12}
  {
    MemberTrusted();
  }

  lemma TwoHeads()
    ensures MergedRead.HeadList(JUDGE, HONEST, []) == [11, 12]
  {
    AllTrusted();
    assert RevisionParents(HONEST) == map[10 := [], 11 := [10], 12 := [10]];
    MaximalTwo(RevisionParents(HONEST));
    var list: seq<Digest> := [11, 12];
    assert Elements(list) == {11, 12};
    IsListing(list);
  }

  lemma HonestGraphs()
    ensures RevisionParents(HONEST) == map[10 := [], 11 := [10], 12 := [10]]
    ensures RevisionParents(WITH_OUTSIDER) == map[10 := [], 11 := [10], 12 := [10], 13 := [99]]
  {
  }

  lemma OutsiderGrows()
    ensures forall d :: d in HONEST ==> d in WITH_OUTSIDER && WITH_OUTSIDER[d] == HONEST[d]
    ensures GrowsAbove(RevisionParents(HONEST), RevisionParents(WITH_OUTSIDER))
    ensures forall d :: d in WITH_OUTSIDER && d !in HONEST ==> d == 13
  {
    HonestGraphs();
  }

  lemma OutsiderAdds()
    ensures MergedRead.OutsidersAdd(JUDGE, HONEST, WITH_OUTSIDER, [])
  {
    OutsiderGrows();
    MemberTrusted();
  }

  lemma OutsiderMisses()
    ensures MissingSet(RevisionParents(HONEST)) == {}
    ensures 99 in MergedRead.NewlyMissing(HONEST, WITH_OUTSIDER)
  {
    assert RevisionParents(HONEST) == map[10 := [], 11 := [10], 12 := [10]];
    assert 99 in WITH_OUTSIDER[13].parents && 99 !in WITH_OUTSIDER && 13 in WITH_OUTSIDER.Keys - HONEST.Keys;
  }

  /** With the outsider's revision the read fails; without it, it does not. */
  lemma OutsiderBlocksMerge(r: MergedRead.ReadResult, r2: MergedRead.ReadResult)
    requires MergedRead.ReadOutcome(JUDGE, HONEST, NOTHING_COMPACTED, READABLE, map[], r)
    requires MergedRead.ReadOutcome(JUDGE, WITH_OUTSIDER, NOTHING_COMPACTED, READABLE, map[], r2)
    ensures r.Read? && r2 == MergedRead.MissingHistory
  {
    OutsiderAdds();
    OutsiderMisses();
    assert r.Read? && r2 != r by {
      TwoHeads();
      MergedRead.OutsidersInjectNothing(JUDGE, HONEST, WITH_OUTSIDER, NOTHING_COMPACTED, READABLE, map[], r, r2);
    }
    MergedRead.OutsidersInjectNothing(JUDGE, HONEST, WITH_OUTSIDER, NOTHING_COMPACTED, READABLE, map[], r, r2);
  }

  // ----- an untrusted revision can switch a floor on, which sets a writer's work aside

  /** The member wrote 12 and 20 on one parent; a compaction down to 20 published
      its record and stopped before deleting 10. */
  const BESIDE: Revisions := map[10 := State("s", [], 2, 7, 0), 12 := State("s", [10], 2, 7, 0),
                                 20 := State("s", [10], 2, 7, 0)]

  const BESIDE_OUTSIDER: Revisions := BESIDE[13 := State("s", [99], 1, 8, 0)]

  const STOPPED: seq<Record> := [Record("s", 20, [10], 2, 7)]

  const EDITED: Digest -> MergedRead.Plain :=
    (d: Digest) => MergedRead.Readable(if d == 12 then map["k" := "new"] else map[])

  lemma BesideTrusted()
    ensures forall d :: d in BESIDE ==> Trusted(JUDGE, BESIDE, [], d)
    ensures !AuthorCurrent(CONTROLS, 2, 1, 8) && AuthorCurrent(CONTROLS, 2, 2, 7)
  {
    MemberTrusted();
    ReachRefl(ParentsOf(CONTROLS), 2);
    var ps := [MEMBER];
    assert ps[1..] == [] && CONTROLS[2].control.principals == ps;
    assert Find(ps[1..], 8) == None && ps[0].id == 7;
    assert Find(ps, 8) == Find(ps[1..], 8);
    assert AuthorCurrent(CONTROLS, 2, 2, 7);
  }

  lemma BesideHeads()
    ensures CurrentHeads(JUDGE, BESIDE, []) == {12, 20}
  {
    var P := RevisionParents(BESIDE);
    assert P == map[10 := [], 12 := [10], 20 := [10]];
    BesideTrusted();
    assert TrustedSet(JUDGE, BESIDE, []) == {10, 12, 20};
    ReachParent(P, 12, 10);
    NothingAbove(P, 10, 12);
    NothingAbove(P, 20, 12);
    NothingAbove(P, 10, 20);
    NothingAbove(P, 12, 20);
    assert MaximalSet(P, {10, 12, 20}) == {12, 20} by {
      var T: set<Digest> := {10, 12, 20};
      assert 12 in T && Reach(P, 12, 10);
    }
  }

  lemma BesideFloorHeads()
    ensures CurrentHeads(JUDGE, BESIDE, [20]) == {20}
  {
    var P := RevisionParents(BESIDE);
    assert P == map[10 := [], 12 := [10], 20 := [10]];
    BesideTrusted();
    NothingAbove(P, 10, 20);
    NothingAbove(P, 12, 20);
    ReachRefl(P, 20);
    assert forall d :: Above(P, [20], d) <==> Reach(P, d, 20) by {
      assert 20 in [20];
    }
    assert TrustedSet(JUDGE, BESIDE, [20]) == {20};
    assert MaximalSet(P, {20}) == {20};
  }

  lemma BesideGraphs()
    ensures RevisionParents(BESIDE) == map[10 := [], 12 := [10], 20 := [10]]
    ensures RevisionParents(BESIDE_OUTSIDER) == map[10 := [], 12 := [10], 20 := [10], 13 := [99]]
  {
  }

  lemma BesideMissing()
    ensures MissingSet(RevisionParents(BESIDE)) == {} && 99 in MissingSet(RevisionParents(BESIDE_OUTSIDER))
  {
    BesideGraphs();
    assert 99 in RevisionParents(BESIDE_OUTSIDER)[13];
  }

  lemma BesideGrows()
    ensures forall d :: d in BESIDE ==> d in BESIDE_OUTSIDER && BESIDE_OUTSIDER[d] == BESIDE[d]
    ensures GrowsAbove(RevisionParents(BESIDE), RevisionParents(BESIDE_OUTSIDER))
    ensures forall d :: d in BESIDE_OUTSIDER && d !in BESIDE ==> d == 13
  {
    BesideGraphs();
  }

  lemma BesideAdds(floors: seq<Digest>)
    ensures MergedRead.OutsidersAdd(JUDGE, BESIDE, BESIDE_OUTSIDER, floors)
  {
    BesideGrows();
    assert !Trusted(JUDGE, BESIDE_OUTSIDER, floors, 13) by { BesideTrusted(); }
  }

  lemma BesideLoads()
    ensures ResourceRead.LoadOf(BESIDE, [], Some(STOPPED)) == ResourceRead.Loaded(NOTHING_COMPACTED)
    ensures ResourceRead.LoadOf(BESIDE_OUTSIDER, [], Some(STOPPED)).Loaded?
    ensures ResourceRead.LoadOf(BESIDE_OUTSIDER, [], Some(STOPPED)).compacted.floors == [20]
  {
    BesideMissing();
    assert STOPPED[0] in Elements(STOPPED);
    assert FloorsShown(Elements(STOPPED), BESIDE_OUTSIDER.Keys) == {20};
    var list: seq<Digest> := [20];
    assert Elements(list) == {20};
    IsListing(list);
  }

  const ORDER: Digest -> nat := (d: Digest) => if d == 10 then 0 else 1

  lemma BesideFacts()
    ensures Ranked(RevisionParents(BESIDE), ORDER) && MergedRead.Unexcused(BESIDE, NOTHING_COMPACTED) == {}
    ensures BESIDE[12].parents == [10] && BESIDE[20].parents == [10]
  {
    BesideGraphs();
    BesideMissing();
  }

  lemma OneEdit()
    ensures EDITED(10) == EDITED(20) == MergedRead.Readable(map[]) &&
            EDITED(12) == MergedRead.Readable(map["k" := "new"])
    ensures forall key :: Merge.Get(EDITED(20).secrets, key) == Merge.Get(EDITED(10).secrets, key)
    ensures Merge.Get(EDITED(12).secrets, "k") == Merge.Text("new") &&
            Merge.Get(EDITED(10).secrets, "k") == Merge.Deleted
  {
  }

  lemma EditIsMerged(choices: map<string, Merge.Choice>, r: MergedRead.ReadResult)
    requires MergedRead.ReadOutcome(JUDGE, BESIDE, NOTHING_COMPACTED, EDITED, choices, r)
    ensures r.Read? && Merge.Get(r.secrets, "k") == Merge.Text("new")
  {
    BesideFacts();
    BesideHeads();
    OneEdit();
    MergedRead.BothEditsAreRead(JUDGE, BESIDE, NOTHING_COMPACTED, EDITED, choices, ORDER, 12, 20, 10, r);
  }

  lemma EditIsRead(choices: map<string, Merge.Choice>, r: ResourceRead.Result)
    requires ResourceRead.ReadsAs(JUDGE, BESIDE, Some(STOPPED), EDITED, choices, r)
    ensures r.Merged? && r.read.Read? && Merge.Get(r.read.secrets, "k") == Merge.Text("new")
  {
    BesideLoads();
    EditIsMerged(choices, r.read);
  }

  lemma OnlyFloorIsHead()
    ensures MergedRead.HeadList(JUDGE, BESIDE_OUTSIDER, [20]) == [20]
  {
    BesideFloorHeads();
    BesideAdds([20]);
    var list: seq<Digest> := [20];
    assert Elements(list) == {20};
    IsListing(list);
    MergedRead.OutsidersMoveNoHead(JUDGE, BESIDE, BESIDE_OUTSIDER, [20], list);
  }

  /** With the outsider's revision the read succeeds without the edit that it had before. */
  lemma OutsiderHidesAnEdit(choices: map<string, Merge.Choice>, r: ResourceRead.Result, r2: ResourceRead.Result)
    requires ResourceRead.ReadsAs(JUDGE, BESIDE, Some(STOPPED), EDITED, choices, r)
    requires ResourceRead.ReadsAs(JUDGE, BESIDE_OUTSIDER, Some(STOPPED), EDITED, choices, r2)
    ensures r.Merged? && r.read.Read? && Merge.Get(r.read.secrets, "k") == Merge.Text("new")
    ensures r2 == ResourceRead.Merged(MergedRead.Read([20], map[], []))
  {
    EditIsRead(choices, r);
    BesideLoads();
    OnlyFloorIsHead();
  }

  /** So the next attempt of the call that published 12 does not find it, and applies its change again. */
  lemma FloorHidesOwn(log: seq<Writing.Written>)
    requires |log| == 1 && log[0].rev == 12
    ensures var heads := MergedRead.HeadList(JUDGE, BESIDE_OUTSIDER,
                                             ResourceRead.FloorsInForce(JUDGE, BESIDE_OUTSIDER, Some(STOPPED)));
            heads == [20] && !Writing.Covered(BESIDE_OUTSIDER, heads, log)
  {
    BesideLoads();
    OnlyFloorIsHead();
    BesideGraphs();
    NothingAbove(RevisionParents(BESIDE_OUTSIDER), 20, 12);
  }

  // ----- so a change can land twice

  /** What this device has and what it believes, at every interaction. */
  ghost predicate Settled(env: Writing.Surroundings, k: nat) {
    && env.at(k).available && env.at(k).vs == CONTROLS && env.at(k).head == 2
    && env.at(k).accepted == StateAcceptance([], None) && env.at(k).records == Some(STOPPED)
  }

  /** At first a stale listing hides 20. */
  ghost predicate IsEarly(env: Writing.Surroundings, k: nat) {
    Settled(env, k) && env.at(k).stored == map[10 := BESIDE[10]] && env.at(k).listed == [10]
  }

  /** Later it shows 20, and the outsider's revision. */
  ghost predicate IsLate(env: Writing.Surroundings, k: nat) {
    Settled(env, k) && env.at(k).stored == BESIDE_OUTSIDER - {12} && env.at(k).listed == [10, 20, 13]
  }

  /** The call publishes 12 on 10, the member list moves, and the call tries again. */
  ghost predicate Story(env: Writing.Surroundings, req: Writing.Request) {
    && env.self == 7 && env.resource == "s" && env.own(0) == 12 && env.own(1) == 22
    && (forall d: Digest :: env.plain(d) == MergedRead.Readable(map[])) && (forall k: nat :: env.at(k).now == 0)
    && (forall k: nat :: if k < 3 then IsEarly(env, k) else IsLate(env, k))
    && env.at(2).write == Writing.StoredThenMoved && env.at(5).write == Writing.Stored
    && req.op == Writing.Add && req.choices == map[] && req.seen == None
    && (forall m :: req.change(m) == Writing.Changed(m["k" := "v"]))
  }

  /** A listing of everything shows everything. */
  lemma LedFromAll(all: Revisions, names: seq<Digest>)
    requires forall d :: d in all ==> d in names
    ensures LedFrom(all, names) == all
  {
    LedToClosed(RevisionParents(all), names);
  }

  lemma OneRevisionRead(d: Digest, states: Revisions, compacted: Compacted, plain: Digest -> MergedRead.Plain)
    requires MergedRead.HeadList(JUDGE, states, compacted.floors) == [d] && plain(d) == MergedRead.Readable(map[])
    ensures MergedRead.ReadOutcome(JUDGE, states, compacted, plain, map[], MergedRead.Read([d], map[], []))
  {
  }

  lemma OnlyTen(all: Revisions)
    requires all == map[10 := BESIDE[10]]
    ensures ResourceRead.LoadOf(all, [], Some(STOPPED)) == ResourceRead.Loaded(NOTHING_COMPACTED)
    ensures MergedRead.HeadList(JUDGE, all, []) == [10]
  {
    assert RevisionParents(all) == map[10 := []];
    assert MissingSet(RevisionParents(all)) == {};
    BesideTrusted();
    assert Trusted(JUDGE, all, [], 10);
    assert TrustedSet(JUDGE, all, []) == {10};
    assert CurrentHeads(JUDGE, all, []) == {10};
    var list: seq<Digest> := [10];
    assert Elements(list) == {10};
    IsListing(list);
  }

  lemma EarlyView(env: Writing.Surroundings, k: nat)
    requires IsEarly(env, k) && env.self == 7
    ensures Writing.ViewAt(env, k, []) == map[10 := BESIDE[10]]
    ensures Writing.LoadAt(env, k, []) == ResourceRead.Loaded(NOTHING_COMPACTED)
    ensures Writing.OwnStates([]) == map[]
  {
    var all: Revisions := map[10 := BESIDE[10]];
    assert Writing.OwnStates([]) == map[] && Writing.OwnNames([]) == [];
    assert Writing.ServedAt(env, k, []) == all && env.at(k).listed + [] == [10];
    LedFromAll(all, [10]);
    OnlyTen(all);
  }

  lemma OwnEntry(log: seq<Writing.Written>)
    requires |log| == 1
    ensures Writing.OwnStates(log) == map[log[0].rev := log[0].state] && Writing.OwnNames(log) == [log[0].rev]
    ensures Writing.OwnContent(log) == map[log[0].rev := log[0].secrets]
  {
    assert log[..0] == [];
  }

  lemma LateView(env: Writing.Surroundings, k: nat, log: seq<Writing.Written>)
    requires IsLate(env, k) && |log| == 1 && log[0].rev == 12 && log[0].state == BESIDE[12]
    ensures Writing.ViewAt(env, k, log) == BESIDE_OUTSIDER
    ensures Writing.LoadAt(env, k, log) == ResourceRead.LoadOf(BESIDE_OUTSIDER, [], Some(STOPPED))
  {
    OwnEntry(log);
    assert Writing.ServedAt(env, k, log) == BESIDE_OUTSIDER;
    var names := env.at(k).listed + Writing.OwnNames(log);
    assert names == [10, 20, 13, 12];
    LedFromAll(BESIDE_OUTSIDER, names);
  }

  lemma ReadsBy(env: Writing.Surroundings, session: nat, k: nat, log: seq<Writing.Written>,
                choices: map<string, Merge.Choice>, r: ResourceRead.Result)
    requires env.at(k).available
    requires ResourceRead.ReadsAs(Writing.JudgeAt(env, session, k), Writing.ViewAt(env, k, log), env.at(k).records,
                                  Writing.PlainWith(env, log), choices, r)
    ensures Writing.Reads(env, session, k, log, choices, Writing.StepOf(r))
  {
  }

  lemma DecidesToPublish(env: Writing.Surroundings, req: Writing.Request, a: nat, session: nat,
                         log: seq<Writing.Written>, heads: seq<Digest>, base: Merge.Secrets, secrets: Merge.Secrets)
    requires req.seen == None && req.change(base) == Writing.Changed(secrets)
    requires !Writing.Covered(Writing.ViewAt(env, 3 * a, log), heads, log)
    requires env.at(3 * a + 1).available && Writing.LoadAt(env, 3 * a + 1, log).Loaded?
    requires Writing.HeadsAt(env, session, 3 * a + 1, log) == heads
    ensures Writing.Decide(env, req, a, session, log, Writing.Got(heads, base, [])) ==
              Writing.Publish(Writing.Make(env, a, session, heads, base, secrets))
  {
  }

  lemma Ends(env: Writing.Surroundings, req: Writing.Request, a: nat, session: nat, log: seq<Writing.Written>,
             x: Writing.ReadStep, w: Writing.Written)
    requires a < Writing.Attempts(req.op) && Writing.Reads(env, session, 3 * a, log, req.choices, x)
    requires Writing.Decide(env, req, a, session, log, x) == Writing.Publish(w)
    requires env.at(3 * a + 2).write == Writing.Stored && env.at(3 * a + 3).available
    ensures Writing.Runs(env, req, a, session, log, Writing.Done, log + [w])
  {
    assert Writing.Continues(env, req, a, session, log, x, Writing.Done, log + [w]);
  }

  /** A write that was stored before the member list moved is kept, and the call tries again under the later session. */
  lemma MovedOn(env: Writing.Surroundings, req: Writing.Request, a: nat, session: nat, log: seq<Writing.Written>,
                w: Writing.Written)
    requires a + 1 < Writing.Attempts(req.op)
    requires env.at(3 * a + 2).write == Writing.StoredThenMoved && env.at(3 * a + 2).available
    ensures Writing.VerdictOf(env, req, a, session, Writing.Publish(w)) == Writing.GoOn(3 * a + 2)
    ensures Writing.Logged(env, a, log, Writing.Publish(w)) == log + [w]
  {
  }

  lemma StepsOn(env: Writing.Surroundings, req: Writing.Request, a: nat, session: nat, log: seq<Writing.Written>,
                x: Writing.ReadStep, r: Writing.Attempt, later: nat, next: seq<Writing.Written>,
                outcome: Writing.Outcome, final: seq<Writing.Written>)
    requires a < Writing.Attempts(req.op) && r == Writing.Decide(env, req, a, session, log, x)
    requires Writing.VerdictOf(env, req, a, session, r) == Writing.GoOn(later) && Writing.Logged(env, a, log, r) == next
    requires Writing.Runs(env, req, a + 1, later, next, outcome, final)
    ensures Writing.Continues(env, req, a, session, log, x, outcome, final)
  {
  }

  lemma FromStep(env: Writing.Surroundings, req: Writing.Request, a: nat, session: nat, log: seq<Writing.Written>,
                 x: Writing.ReadStep, outcome: Writing.Outcome, final: seq<Writing.Written>)
    requires a < Writing.Attempts(req.op) && Writing.Reads(env, session, 3 * a, log, req.choices, x)
    requires Writing.Continues(env, req, a, session, log, x, outcome, final)
    ensures Writing.Runs(env, req, a, session, log, outcome, final)
  {
  }

  lemma ReadsOne(d: Digest, states: Revisions, plain: Digest -> MergedRead.Plain)
    requires var load := ResourceRead.LoadOf(states, [], Some(STOPPED));
             load.Loaded? && MergedRead.HeadList(JUDGE, states, load.compacted.floors) == [d]
    requires plain(d) == MergedRead.Readable(map[])
    ensures ResourceRead.ReadsAs(JUDGE, states, Some(STOPPED), plain, map[],
                                 ResourceRead.Merged(MergedRead.Read([d], map[], [])))
  {
    OneRevisionRead(d, states, ResourceRead.LoadOf(states, [], Some(STOPPED)).compacted, plain);
  }

  lemma TheJudge(env: Writing.Surroundings, session: nat, k: nat)
    requires Settled(env, session) && Settled(env, k) && env.self == 7
    ensures Writing.JudgeAt(env, session, k) == JUDGE
  {
  }

  lemma EarlyRead(env: Writing.Surroundings)
    requires IsEarly(env, 0) && env.self == 7 && forall d: Digest :: env.plain(d) == MergedRead.Readable(map[])
    ensures Writing.Reads(env, 0, 0, [], map[], Writing.Got([10], map[], []))
  {
    EarlyView(env, 0);
    OnlyTen(map[10 := BESIDE[10]]);
    TheJudge(env, 0, 0);
    ReadsOne(10, Writing.ViewAt(env, 0, []), Writing.PlainWith(env, []));
    ReadsBy(env, 0, 0, [], map[], ResourceRead.Merged(MergedRead.Read([10], map[], [])));
  }

  lemma LateRead(env: Writing.Surroundings, log: seq<Writing.Written>)
    requires Settled(env, 2) && IsLate(env, 3) && env.self == 7 &&
             forall d: Digest :: env.plain(d) == MergedRead.Readable(map[])
    requires |log| == 1 && log[0].rev == 12 && log[0].state == BESIDE[12]
    ensures Writing.Reads(env, 2, 3, log, map[], Writing.Got([20], map[], []))
  {
    LateView(env, 3, log);
    OwnEntry(log);
    BesideLoads();
    OnlyFloorIsHead();
    TheJudge(env, 2, 3);
    ReadsOne(20, Writing.ViewAt(env, 3, log), Writing.PlainWith(env, log));
    ReadsBy(env, 2, 3, log, map[], ResourceRead.Merged(MergedRead.Read([20], map[], [])));
  }

  lemma EarlyDecision(env: Writing.Surroundings, req: Writing.Request)
    requires IsEarly(env, 0) && IsEarly(env, 1) && env.self == 7 && req.seen == None
    requires forall m :: req.change(m) == Writing.Changed(m["k" := "v"])
    ensures Writing.Decide(env, req, 0, 0, [], Writing.Got([10], map[], [])) ==
              Writing.Publish(Writing.Make(env, 0, 0, [10], map[], map["k" := "v"]))
  {
    EarlyView(env, 1);
    OnlyTen(map[10 := BESIDE[10]]);
    TheJudge(env, 0, 1);
    DecidesToPublish(env, req, 0, 0, [], [10], map[], map["k" := "v"]);
  }

  lemma LateDecision(env: Writing.Surroundings, req: Writing.Request, log: seq<Writing.Written>)
    requires Settled(env, 2) && IsLate(env, 3) && IsLate(env, 4) && env.self == 7 && req.seen == None
    requires |log| == 1 && log[0].rev == 12 && log[0].state == BESIDE[12]
    requires forall m :: req.change(m) == Writing.Changed(m["k" := "v"])
    ensures Writing.Decide(env, req, 1, 2, log, Writing.Got([20], map[], [])) ==
              Writing.Publish(Writing.Make(env, 1, 2, [20], map[], map["k" := "v"]))
  {
    LateView(env, 3, log);
    LateView(env, 4, log);
    BesideLoads();
    FloorHidesOwn(log);
    TheJudge(env, 2, 4);
    DecidesToPublish(env, req, 1, 2, log, [20], map[], map["k" := "v"]);
  }

  lemma LateRun(env: Writing.Surroundings, req: Writing.Request, first: Writing.Written, second: Writing.Written)
    requires Writing.Reads(env, 2, 3, [first], req.choices, Writing.Got([20], map[], [])) && req.op == Writing.Add
    requires Writing.Decide(env, req, 1, 2, [first], Writing.Got([20], map[], [])) == Writing.Publish(second)
    requires env.at(5).write == Writing.Stored && env.at(6).available
    ensures Writing.Runs(env, req, 1, 2, [first], Writing.Done, [first, second])
  {
    Ends(env, req, 1, 2, [first], Writing.Got([20], map[], []), second);
    assert [first] + [second] == [first, second];
  }

  lemma GoesOn(env: Writing.Surroundings, req: Writing.Request, a: nat, session: nat, log: seq<Writing.Written>,
               x: Writing.ReadStep, w: Writing.Written, later: nat, next: seq<Writing.Written>,
               outcome: Writing.Outcome, final: seq<Writing.Written>)
    requires a + 1 < Writing.Attempts(req.op) && Writing.Reads(env, session, 3 * a, log, req.choices, x)
    requires Writing.Decide(env, req, a, session, log, x) == Writing.Publish(w)
    requires env.at(3 * a + 2).write == Writing.StoredThenMoved && env.at(3 * a + 2).available
    requires later == 3 * a + 2 && next == log + [w]
    requires Writing.Runs(env, req, a + 1, later, next, outcome, final)
    ensures Writing.Runs(env, req, a, session, log, outcome, final)
  {
    MovedOn(env, req, a, session, log, w);
    StepsOn(env, req, a, session, log, x, Writing.Publish(w), later, next, outcome, final);
    FromStep(env, req, a, session, log, x, outcome, final);
  }

  lemma LateHalf(env: Writing.Surroundings, req: Writing.Request, a: nat, session: nat, log: seq<Writing.Written>,
                 first: Writing.Written, second: Writing.Written)
    requires Story(env, req) && first.rev == 12 && first.state == BESIDE[12]
    requires second == Writing.Make(env, 1, 2, [20], map[], map["k" := "v"])
    requires a == 1 && session == 2 && log == [first]
    ensures Writing.Runs(env, req, a, session, log, Writing.Done, [first, second])
  {
    assert IsEarly(env, 2) && IsLate(env, 3) && IsLate(env, 4) && IsLate(env, 6);
    LateRead(env, [first]);
    LateDecision(env, req, [first]);
    LateRun(env, req, first, second);
  }

  lemma EarlyHalf(env: Writing.Surroundings, req: Writing.Request, first: Writing.Written)
    requires Story(env, req) && first == Writing.Make(env, 0, 0, [10], map[], map["k" := "v"])
    ensures Writing.Reads(env, 0, 0, [], req.choices, Writing.Got([10], map[], []))
    ensures Writing.Decide(env, req, 0, 0, [], Writing.Got([10], map[], [])) == Writing.Publish(first)
    ensures env.at(2).available
  {
    assert IsEarly(env, 0) && IsEarly(env, 1) && IsEarly(env, 2);
    EarlyRead(env);
    EarlyDecision(env, req);
  }

  lemma BothHalves(env: Writing.Surroundings, req: Writing.Request, a: nat, later: nat, log: seq<Writing.Written>,
                   next: seq<Writing.Written>, first: Writing.Written, second: Writing.Written)
    requires Story(env, req) && first.state == BESIDE[12]
    requires first == Writing.Make(env, 0, 0, [10], map[], map["k" := "v"])
    requires second == Writing.Make(env, 1, 2, [20], map[], map["k" := "v"])
    requires a == 0 && later == 2 && log == [] && next == [first]
    ensures Writing.Runs(env, req, a, a, log, Writing.Done, [first, second])
  {
    assert next == log + [first];
    EarlyHalf(env, req, first);
    LateHalf(env, req, a + 1, later, next, first, second);
    GoesOn(env, req, a, a, log, Writing.Got([10], map[], []), first, later, next, Writing.Done, [first, second]);
  }

  /** The call ends well, both of its revisions are stored, and each applies the change to what it was built on. */
  lemma ChangeLandsTwice(env: Writing.Surroundings, req: Writing.Request) returns (final: seq<Writing.Written>)
    requires Story(env, req)
    ensures Writing.Runs(env, req, 0, 0, [], Writing.Done, final)
    ensures |final| == 2
    ensures forall i :: 0 <= i < 2 ==>
              req.change(final[i].base) == Writing.Changed(final[i].secrets) && final[i].secrets != final[i].base
  {
    var first := Writing.Make(env, 0, 0, [10], map[], map["k" := "v"]);
    var second := Writing.Make(env, 1, 2, [20], map[], map["k" := "v"]);
    final := [first, second];
    assert first.state == BESIDE[12] by { assert IsEarly(env, 0); }
    BothHalves(env, req, 0, 2, [], [first], first, second);
    assert "k" in first.secrets && "k" !in first.base;
  }

  function StoryAt(k: nat): Writing.Moment {
    var write := if k == 2 then Writing.StoredThenMoved else Writing.Stored;
    if k < 3
    then Writing.Moment(true, map[10 := BESIDE[10]], [10], Some(STOPPED), CONTROLS, 2, StateAcceptance([], None),
                        write, 0)
    else Writing.Moment(true, BESIDE_OUTSIDER - {12}, [10, 20, 13], Some(STOPPED), CONTROLS, 2,
                        StateAcceptance([], None), write, 0)
  }

  function StoryName(a: nat): Digest {
    if a == 0 then 12 else if a == 1 then 22 else 100 + a
  }

  function StoryRank(d: Digest): nat {
    if d == 99 then 0 else d + 1
  }

  function StoryEnv(): Writing.Surroundings {
    Writing.Surroundings(StoryAt, StoryName, 1, "s", 7, (d: Digest) => MergedRead.Readable(map[]))
  }

  function StoryRequest(): Writing.Request {
    Writing.Request(Writing.Add, map[], None, (m: Merge.Secrets) => Writing.Changed(m["k" := "v"]))
  }

  /** Such surroundings exist, and they are steady. */
  lemma StoryHappens()
    ensures Story(StoryEnv(), StoryRequest()) && Writing.Steady(StoryEnv(), StoryRank)
  {
    StoryFits();
    StoryMembers();
    StoryNames();
  }

  lemma StoryFits()
    ensures Story(StoryEnv(), StoryRequest())
  {
  }

  lemma BothControlsFit()
    ensures WellFormed(CONTROLS[1].control) && WellFormed(CONTROLS[2].control)
  {
    assert MEMBER in CONTROLS[1].control.principals && MEMBER in CONTROLS[2].control.principals;
  }

  lemma TwoControls()
    ensures ControlDag(1, CONTROLS)
  {
    BothControlsFit();
  }

  lemma LastControl()
    ensures HeadSet(ParentsOf(CONTROLS)) == {2}
  {
    var P := ParentsOf(CONTROLS);
    assert P == map[1 := [], 2 := [1]];
    assert 1 in P[2];
    assert ChildrenNamed(P) == {1};
  }

  lemma StoryMembers()
    ensures Writing.StaysMember(StoryEnv())
  {
    TwoControls();
    LastControl();
    BesideTrusted();
    var env := StoryEnv();
    forall k: nat ensures Writing.Openable(env.genesis, env.at(k)) && env.at(k).head == 2 && env.at(k).vs == CONTROLS {
      assert env.at(k) == StoryAt(k);
    }
  }

  lemma StoryStored(k: nat)
    ensures Writing.ParentsBelow(StoryAt(k).stored, StoryRank)
    ensures Writing.AllBelow(StoryAt(k).stored, StoryRank, if k < 3 then 13 else 23)
    ensures forall d :: d in StoryAt(k).stored ==> d == 10 || d == 20 || d == 13
  {
  }

  lemma StoryBelow(k: nat, a: nat)
    ensures Writing.SeenBy(k, a) ==> Writing.AllBelow(StoryAt(k).stored, StoryRank, StoryRank(StoryName(a)))
    ensures StoryName(a) !in StoryAt(k).stored
  {
    StoryStored(k);
  }

  lemma StoryNames()
    ensures Writing.Names(StoryEnv(), StoryRank)
  {
    var env := StoryEnv();
    forall k: nat ensures Writing.ParentsBelow(env.at(k).stored, StoryRank) {
      StoryStored(k);
    }
    forall k: nat, a: nat
      ensures Writing.SeenBy(k, a) ==> Writing.AllBelow(env.at(k).stored, StoryRank, StoryRank(env.own(a)))
      ensures env.own(a) !in env.at(k).stored
    {
      StoryBelow(k, a);
    }
  }

  // ----- a value that arrives in two writes is not always concealed

  lemma SplitValueShows(values: seq<string>, chunks: seq<string>)
    requires values == ["xabcdefy", "abcdef"] && chunks == ["xabcdef", "y"]
    ensures Mask.Flushed(values, chunks) != Mask.Pass(values, Mask.Concat(chunks))
  {
    var first := "xabcdef";
    assert first[1..] == "abcdef" && "abcdef" in values && "abcdef" <= first[1..];
    assert Mask.StartsWithValue(values, first[1..]);
    assert Mask.ContainsValue(values, first);
    assert first[0] != "abcdef"[0] && |values[0]| > |first|;
    assert forall w :: w in values ==> w == values[0] || w == values[1];
    assert !Mask.StartsWithValue(values, first);
    assert first + "y" == values[0];
    Mask.SplitShows(values, first, "y", chunks);
  }

  // ----- a fork that cannot be resolved

  /** Two heads give device 7 different recipients. */
  lemma RecipientsCanDisagree()
    ensures var heads := [Verified(Control("w", [1], 1, [Principal(7, Key(7, 0), "a", true)], 7), 2),
                          Verified(Control("w", [1], 1, [Principal(7, Key(7, 0), "b", true)], 7), 3)];
            Forks.ForkHeads(heads, "w") && Forks.AdminOfAll(heads, 7) && !Forks.Joinable(heads)
  {
    var heads := [Verified(Control("w", [1], 1, [Principal(7, Key(7, 0), "a", true)], 7), 2),
                  Verified(Control("w", [1], 1, [Principal(7, Key(7, 0), "b", true)], 7), 3)];
    assert Forks.ListedByAll(heads, 7);
    assert PrincipalOf(heads[0].control, 7).value.recipient == "a" &&
           PrincipalOf(heads[1].control, 7).value.recipient == "b";
  }

  // ----- two overlapping compactions that excuse nothing

  lemma CrossingFloors()
    ensures var a, b := Record("s", 1, [2, 3], 9, 7), Record("s", 2, [1, 3], 9, 7);
            WellFormedRecord(a) && WellFormedRecord(b) && Excused({a, b}, {}) == {}
  {
    var a, b := Record("s", 1, [2, 3], 9, 7), Record("s", 2, [1, 3], 9, 7);
    OverlappingCompactions(a, b, {});
  }

  // ----- a remembered flag that no longer holds

  /** Revision 11 was listed while its parent 10, with the same content, was missing; then 10 appears. */
  lemma LateParentIsMissed()
    ensures var S: Revisions := map[10 := State("s", [], 2, 7, 0), 11 := State("s", [10], 2, 7, 0)];
            var known: HistoryIndex.Index := map[11 := HistoryIndex.Flags(true, false, 0)];
            HistoryIndex.Truthful(READABLE, known) &&
            HistoryIndex.ShownSet(S, READABLE, known) != HistoryIndex.ShownSet(S, READABLE, map[])
  {
    var S: Revisions := map[10 := State("s", [], 2, 7, 0), 11 := State("s", [10], 2, 7, 0)];
    var known: HistoryIndex.Index := map[11 := HistoryIndex.Flags(true, false, 0)];
    HistoryIndex.StaleExactly(S, READABLE, known);
    assert HistoryIndex.SameAs(S, READABLE, 11, 10);
  }

  // ----- a map within the limits whose printed form is too long to parse

  function Newlines(n: nat): string {
    if n == 0 then "" else "\n" + Newlines(n - 1)
  }

  lemma {:induction false} NewlinesSize(n: nat)
    ensures Dotenv.Size(Newlines(n)) == n && Dotenv.Size(Dotenv.Escape(Dotenv.EscapeChar, Newlines(n))) == 2 * n
  {
    if n > 0 {
      NewlinesSize(n - 1);
      assert Newlines(n)[1..] == Newlines(n - 1) && Newlines(n)[0] == '\n';
      Dotenv.SizeAppend("\\n", Dotenv.Escape(Dotenv.EscapeChar, Newlines(n - 1)));
      var escaped := "\\n";
      assert escaped[1..] == "n" && Dotenv.Size("n") == 1;
    }
  }

  /** From eight mebibytes of line breaks on, a value within the limits of a secret
      prints to text that the parser refuses. */
  lemma LongValueDoesNotReadBack(n: nat)
    requires Dotenv.MAX_PAYLOAD_BYTES <= 2 * n && n < Dotenv.MAX_PAYLOAD_BYTES
    ensures Dotenv.ValidMap(map["A" := Newlines(n)])
    ensures Dotenv.Imported(Dotenv.Printed(map["A" := Newlines(n)])) != Some(map["A" := Newlines(n)])
  {
    var m: Dotenv.SecretMap := map["A" := Newlines(n)];
    NewlinesSize(n);
    OneEntry(m, "A");
    Dotenv.BothEscape();
    Dotenv.RoundTripExactly(Dotenv.EscapeChar, m);
    PrintedAlone(m, "A");
    LineSizeExactly("A", m["A"]);
  }

  lemma OneEntry(m: Dotenv.SecretMap, key: string)
    requires m.Keys == {key}
    ensures Dotenv.Total(m) == Dotenv.Size(key) + Dotenv.Size(m[key]) && |m| == 1
  {
    Dotenv.TotalWithout(m, key);
    assert m - {key} == map[];
    assert |m| == |m.Keys|;
  }

  lemma LineSizeExactly(key: string, value: string)
    requires key == "A"
    ensures Dotenv.Size(key) == 1 &&
            Dotenv.Size(Dotenv.Line(Dotenv.EscapeChar, key, value)) > Dotenv.Size(Dotenv.Escape(Dotenv.EscapeChar,
                                                                                                value))
  {
    assert key[1..] == "";
    Dotenv.SizeAppend(key + "=\"" + Dotenv.Escape(Dotenv.EscapeChar, value), "\"\n");
    Dotenv.SizeAppend(key + "=\"", Dotenv.Escape(Dotenv.EscapeChar, value));
    Dotenv.SizeAppend(key, "=\"");
  }

  lemma PrintedAlone(m: Dotenv.SecretMap, key: string)
    requires m.Keys == {key}
    ensures Dotenv.Printed(m) == Dotenv.Line(Dotenv.EscapeChar, key, m[key])
  {
    var keys := Dotenv.KeyList(m);
    Dotenv.KeyListCounts(m);
    assert |m| == |m.Keys| == 1;
    assert keys[0] in keys && keys[1..] == [];
    assert Dotenv.Lines(Dotenv.EscapeChar, keys[1..], m) == "";
    assert Dotenv.Line(Dotenv.EscapeChar, key, m[key]) + "" == Dotenv.Line(Dotenv.EscapeChar, key, m[key]);
  }
}
