/** Changing a resource (changeResource in app/secrets.go; writeState and acceptPublished in app/workspace.go): each
    attempt reads, applies the change unless the call's own revision is already in what it read, looks a second
    time, and publishes. What the attempts amount to is `Runs`; that the change lands once follows from it wherever
    no floor hides the call's own revisions. */
module Writing {
  import opened Orders
  import opened Digests
  import opened Dag
  import opened Control
  import opened Chain
  import opened Membership
  import opened Compaction
  import opened Checkpoint
  import opened States
  import opened Merge
  import opened Reading
  import opened MergedRead
  import opened ResourceRead

  datatype Op = Add | Edit | Delete | Sync | Resolve | Restore

  datatype ChangeResult = Changed(secrets: Secrets) | Unchanged | Fails

  /** How one attempt to publish ends. Publishing is atomic: either the revision is stored or it is not. */
  datatype WriteOutcome =
    | MovedBefore // the member list changed before publishing; nothing was stored
    | BlobGone // publishing found an uploaded blob gone; nothing was stored
    | NotStored // publishing failed otherwise; nothing was stored
    | Stored
    | StoredThenMoved // stored, then the member list turned out to have changed
    | StoredThenFailed // stored, but checking the member list again failed

  /** What storage and this device's checkpoint give one interaction of the call: the valid revisions
      others have stored, the names a listing shows of them, which need be neither all nor the same as
      before, and the believed deletion records. */
  datatype Moment = Moment(
    available: bool,
    stored: Revisions,
    listed: seq<Digest>,
    records: Option<seq<Record>>,
    vs: Controls,
    head: Digest,
    accepted: StateAcceptance,
    write: WriteOutcome,
    now: int)

  /** A revision of the call: its name and content, the attempt and session it comes from, and the read it was built on. */
  datatype Written = Written(rev: Digest, state: State, base: Secrets, secrets: Secrets, attempt: nat, session: nat)

  datatype Outcome = Done | Error | ControlKeptMoving | OutOfAttempts

  /** The surroundings of one call: each attempt has three interactions, and its revision would get this name. */
  datatype Surroundings = Surroundings(
    at: nat -> Moment,
    own: nat -> Digest,
    genesis: Digest,
    resource: string,
    self: DeviceId,
    plain: Digest -> Plain)

  /** The caller's request. */
  datatype Request = Request(op: Op, choices: map<string, Choice>, seen: Option<seq<Digest>>,
                             change: Secrets -> ChangeResult)

  function Attempts(op: Op): nat {
    if op.Sync? then 5 else 3
  }

  function OwnStates(log: seq<Written>): Revisions {
    if log == [] then map[]
    else OwnStates(log[..|log| - 1])[log[|log| - 1].rev := log[|log| - 1].state]
  }

  function OwnContent(log: seq<Written>): map<Digest, Secrets> {
    if log == [] then map[]
    else OwnContent(log[..|log| - 1])[log[|log| - 1].rev := log[|log| - 1].secrets]
  }

  function OwnNames(log: seq<Written>): seq<Digest> {
    seq(|log|, i requires 0 <= i < |log| => log[i].rev)
  }

  /** What storage serves by name at interaction `k`: what others stored, and the call's own revisions. */
  function ServedAt(env: Surroundings, k: nat, log: seq<Written>): Revisions {
    env.at(k).stored + OwnStates(log)
  }

  /** The view a load builds: what the listing and the call's own names lead to. */
  ghost function ViewAt(env: Surroundings, k: nat, log: seq<Written>): Revisions {
    LedFrom(ServedAt(env, k, log), env.at(k).listed + OwnNames(log))
  }

  function PlainWith(env: Surroundings, log: seq<Written>): Digest -> Plain {
    (d: Digest) => if d in OwnContent(log) then Readable(OwnContent(log)[d]) else env.plain(d)
  }

  function JudgeAt(env: Surroundings, session: nat, k: nat): Judge {
    Judge(env.at(session).vs, env.at(session).head, env.self, env.at(k).accepted)
  }

  ghost function LoadAt(env: Surroundings, k: nat, log: seq<Written>): Load {
    LoadOf(ViewAt(env, k, log), env.at(k).accepted.heads, env.at(k).records)
  }

  /** The floors in force at interaction `k`. */
  ghost function FloorsAt(env: Surroundings, k: nat, log: seq<Written>): seq<Digest> {
    if LoadAt(env, k, log).Loaded? then LoadAt(env, k, log).compacted.floors else []
  }

  ghost function HeadsAt(env: Surroundings, session: nat, k: nat, log: seq<Written>): seq<Digest> {
    HeadList(JudgeAt(env, session, k), ViewAt(env, k, log), FloorsAt(env, k, log))
  }

  // ----- one attempt, as a specification

  datatype ReadStep =
    | NotFound
    | ReadFailed
    | Got(heads: seq<Digest>, secrets: Secrets, conflicts: seq<Conflict>)

  function StepOf(r: Result): ReadStep {
    if r == NotMerged(NothingThere) then NotFound
    else if r.Merged? && r.read.Read? then Got(r.read.heads, r.read.secrets, r.read.conflicts)
    else ReadFailed
  }

  /** The read at interaction `k`. */
  ghost predicate Reads(env: Surroundings, session: nat, k: nat, log: seq<Written>, choices: map<string, Choice>,
                        x: ReadStep) {
    if !env.at(k).available then x == ReadFailed
    else exists r :: ReadsAs(JudgeAt(env, session, k), ViewAt(env, k, log), env.at(k).records, PlainWith(env, log),
                             choices, r) && x == StepOf(r)
  }

  /** One of the call's revisions is a head or an ancestor of one. */
  ghost predicate Covered(view: Revisions, heads: seq<Digest>, log: seq<Written>) {
    exists h, i :: h in heads && 0 <= i < |log| && Reach(RevisionParents(view), h, log[i].rev)
  }

  /** What an attempt would publish, or how it ends without publishing. */
  datatype Attempt = Publish(w: Written) | Nothing(outcome: Outcome) | TryAgain

  datatype Content = Halt(outcome: Outcome) | Go(secrets: Secrets)

  /** The content to publish: what was read if it already has the change, and otherwise the change applied to it. */
  function ContentOf(change: Secrets -> ChangeResult, covered: bool, base: Secrets, heads: seq<Digest>): Content {
    if covered then Go(base)
    else
      match change(base)
      case Fails => Halt(Error)
      case Unchanged => if |heads| <= 1 then Halt(Done) else Go(base)
      case Changed(secrets) => Go(secrets)
  }

  /** The heads a second look just before publishing finds, if it succeeds. */
  ghost function LatestHeads(env: Surroundings, a: nat, session: nat, log: seq<Written>): Option<seq<Digest>> {
    if env.at(3 * a + 1).available && LoadAt(env, 3 * a + 1, log).Loaded?
    then Some(HeadsAt(env, session, 3 * a + 1, log)) else None
  }

  function Make(env: Surroundings, a: nat, session: nat, parents: seq<Digest>, base: Secrets,
                secrets: Secrets): Written {
    Written(env.own(a), State(env.resource, parents, env.at(session).head, env.self, env.at(3 * a).now), base, secrets,
            a, session)
  }

  /** What attempt `a` comes to before anything is written, given what it read. */
  ghost function Decide(env: Surroundings, req: Request, a: nat, session: nat, log: seq<Written>,
                        x: ReadStep): Attempt {
    match x
    case ReadFailed => Nothing(Error)
    case NotFound =>
      if req.op.Sync? || req.op.Delete? then Nothing(Done)
      else if req.op.Edit? || req.op.Resolve? then Nothing(Error)
      else
        var c := ContentOf(req.change, false, map[], []);
        if c.Halt? then Nothing(c.outcome) else Publish(Make(env, a, session, [], map[], c.secrets))
    case Got(heads, base, conflicts) =>
      if (req.seen.Some? && req.seen.value != heads) || conflicts != [] then Nothing(Error)
      else
        var c := ContentOf(req.change, Covered(ViewAt(env, 3 * a, log), heads, log), base, heads);
        if c.Halt? then Nothing(c.outcome)
        else
          var latest := LatestHeads(env, a, session, log);
          if latest.None? then Nothing(Error)
          else if latest.value != heads then TryAgain
          else Publish(Make(env, a, session, heads, base, c.secrets))
  }

  predicate Lands(w: WriteOutcome) {
    w.Stored? || w.StoredThenMoved? || w.StoredThenFailed?
  }

  /** What the call does after an attempt: stop, or go on under this session. */
  datatype Verdict = Stop(outcome: Outcome) | GoOn(session: nat)

  /** Publishing, the second look at the member list, and accepting what was published. */
  function AfterWrite(env: Surroundings, k: nat, session: nat, last: bool): Verdict {
    var m := env.at(k);
    match m.write
    case NotStored => Stop(Error)
    case StoredThenFailed => Stop(Error)
    case Stored => Stop(if env.at(k + 1).available then Done else Error)
    case BlobGone => if last then Stop(Error) else GoOn(session)
    case _ => if !m.available then Stop(Error) else if last then Stop(ControlKeptMoving) else GoOn(k)
  }

  /** The log after an attempt: it has an entry for the attempt exactly when the attempt
      published and storage kept the revision. */
  function Logged(env: Surroundings, a: nat, log: seq<Written>, r: Attempt): seq<Written> {
    if r.Publish? && Lands(env.at(3 * a + 2).write) then log + [r.w] else log
  }

  function VerdictOf(env: Surroundings, req: Request, a: nat, session: nat, r: Attempt): Verdict {
    match r
    case Nothing(outcome) => Stop(outcome)
    case TryAgain => GoOn(session)
    case Publish(_) => AfterWrite(env, 3 * a + 2, session, a + 1 == Attempts(req.op))
  }

  /** From attempt `a` on, under this session and with this log of stored revisions, the call ends like this. */
  ghost predicate Runs(env: Surroundings, req: Request, a: nat, session: nat, log: seq<Written>, outcome: Outcome,
                       final: seq<Written>)
    decreases Attempts(req.op) - a
  {
    if a >= Attempts(req.op) then outcome == OutOfAttempts && final == log
    else exists x :: Reads(env, session, 3 * a, log, req.choices, x) &&
                     Continues(env, req, a, session, log, x, outcome, final)
  }

  ghost predicate Continues(env: Surroundings, req: Request, a: nat, session: nat, log: seq<Written>, x: ReadStep,
                            outcome: Outcome, final: seq<Written>)
    requires a < Attempts(req.op)
    decreases Attempts(req.op) - a, 0
  {
    var r := Decide(env, req, a, session, log, x);
    var v := VerdictOf(env, req, a, session, r);
    var next := Logged(env, a, log, r);
    match v
    case Stop(o) => outcome == o && final == next
    case GoOn(s) => Runs(env, req, a + 1, s, next, outcome, final)
  }

  // ----- what the proofs need of the surroundings

  predicate Later(k: nat, m: nat) {
    k <= m
  }

  predicate Earlier(a: nat, b: nat) {
    a < b
  }

  /** The last interaction of attempt `a` comes after interaction `k`. */
  predicate SeenBy(k: nat, a: nat) {
    k <= 3 * a + 2
  }

  /** The writer stays a member of an unforked workspace. */
  ghost predicate StaysMember(env: Surroundings) {
    && (forall k: nat :: Openable(env.genesis, env.at(k)))
    && (forall k: nat, m: nat {:trigger Later(k, m)} ::
          Later(k, m) ==> AuthorCurrent(env.at(m).vs, env.at(m).head, env.at(k).head, env.self))
  }

  ghost predicate Openable(genesis: Digest, m: Moment) {
    ControlDag(genesis, m.vs) && HeadSet(ParentsOf(m.vs)) == {m.head}
  }

  ghost predicate ParentsBelow(states: Revisions, rank: Digest -> nat) {
    forall d, p :: d in states && p in states[d].parents ==> rank(p) < rank(d)
  }

  ghost predicate AllBelow(states: Revisions, rank: Digest -> nat, top: nat) {
    forall d :: d in states ==> rank(d) < top
  }

  /** Names are digests: parents rank below children, and nothing stored before a revision was made is above it. */
  ghost predicate Names(env: Surroundings, rank: Digest -> nat) {
    && (forall k: nat :: ParentsBelow(env.at(k).stored, rank))
    && (forall a: nat, k: nat {:trigger SeenBy(k, a)} :: SeenBy(k, a) ==>
          AllBelow(env.at(k).stored, rank, rank(env.own(a))))
    && (forall a: nat, b: nat {:trigger Earlier(a, b)} :: Earlier(a, b) ==> rank(env.own(a)) < rank(env.own(b)))
    && (forall a: nat, k: nat :: env.own(a) !in env.at(k).stored)
  }

  ghost predicate Steady(env: Surroundings, rank: Digest -> nat) {
    StaysMember(env) && Names(env, rank)
  }

  // ----- the call's own revisions

  ghost predicate LogNames(env: Surroundings, a: nat, session: nat, log: seq<Written>) {
    && (forall i :: 0 <= i < |log| ==> log[i].rev == env.own(log[i].attempt) && log[i].attempt < a)
    && (forall i, j :: 0 <= i < j < |log| ==> log[i].attempt < log[j].attempt)
    && (forall i :: 0 <= i < |log| ==> log[i].session <= session)
    && (forall i :: 0 <= i < |log| ==>
          log[i].state.author == env.self && log[i].state.control == env.at(log[i].session).head)
  }

  ghost predicate OwnBelow(own: Revisions, rank: Digest -> nat, top: nat) {
    ParentsBelow(own, rank) && AllBelow(own, rank, top)
  }

  ghost predicate LogInv(env: Surroundings, rank: Digest -> nat, a: nat, session: nat, log: seq<Written>) {
    && session <= 3 * a && LogNames(env, a, session, log)
    && OwnBelow(OwnStates(log), rank, rank(env.own(a)))
  }

  ghost predicate DistinctNames(log: seq<Written>) {
    forall i, j :: 0 <= i < j < |log| ==> log[i].rev != log[j].rev
  }

  lemma LogDistinct(env: Surroundings, rank: Digest -> nat, a: nat, session: nat, log: seq<Written>)
    requires Names(env, rank) && LogNames(env, a, session, log)
    ensures DistinctNames(log)
  {
    forall i, j | 0 <= i < j < |log| ensures log[i].rev != log[j].rev {
      assert Earlier(log[i].attempt, log[j].attempt);
    }
  }

  lemma {:induction false} OwnStatesKeys(log: seq<Written>)
    requires DistinctNames(log)
    ensures forall d :: d in OwnStates(log) ==>
              exists i :: 0 <= i < |log| && log[i].rev == d && OwnStates(log)[d] == log[i].state
    ensures forall i :: 0 <= i < |log| ==> log[i].rev in OwnStates(log) && OwnStates(log)[log[i].rev] == log[i].state
  {
    if log != [] {
      OwnStatesKeys(log[..|log| - 1]);
    }
  }

  lemma RankedPart(all: Revisions, names: seq<Digest>, rank: Digest -> nat)
    requires ParentsBelow(all, rank)
    ensures Ranked(RevisionParents(LedFrom(all, names)), rank)
  {
  }

  lemma ViewRanked(env: Surroundings, rank: Digest -> nat, k: nat, log: seq<Written>)
    requires Names(env, rank) && ParentsBelow(OwnStates(log), rank)
    ensures Ranked(RevisionParents(ViewAt(env, k, log)), rank)
  {
    assert ParentsBelow(env.at(k).stored, rank);
    assert ParentsBelow(ServedAt(env, k, log), rank);
    RankedPart(ServedAt(env, k, log), env.at(k).listed + OwnNames(log), rank);
  }

  lemma OwnIsNamed(log: seq<Written>, listed: seq<Digest>, i: nat)
    requires i < |log|
    ensures log[i].rev in listed + OwnNames(log)
  {
    assert OwnNames(log)[i] == log[i].rev;
  }

  /** A view holds what is listed and stored. */
  lemma ListedIsShown(env: Surroundings, k: nat, log: seq<Written>, d: Digest)
    requires d in env.at(k).listed && d in env.at(k).stored && d !in OwnStates(log)
    ensures d in ViewAt(env, k, log) && ViewAt(env, k, log)[d] == env.at(k).stored[d]
  {
    LedToClosed(RevisionParents(ServedAt(env, k, log)), env.at(k).listed + OwnNames(log));
  }

  /** Whatever the listing hides, every view holds the call's own revisions. */
  lemma OwnIsShown(env: Surroundings, rank: Digest -> nat, a: nat, session: nat, log: seq<Written>, i: nat, k: nat)
    requires Names(env, rank) && LogNames(env, a, session, log) && i < |log|
    ensures log[i].rev in ViewAt(env, k, log) && ViewAt(env, k, log)[log[i].rev] == log[i].state
  {
    LogDistinct(env, rank, a, session, log);
    OwnStatesKeys(log);
    OwnIsNamed(log, env.at(k).listed, i);
    var all := ServedAt(env, k, log);
    assert log[i].rev in all && all[log[i].rev] == log[i].state;
    LedToClosed(RevisionParents(all), env.at(k).listed + OwnNames(log));
  }

  /** A revision of this call that no floor excludes is trusted by every later read: some head
      of that read is it or descends from it. */
  lemma OwnIsCovered(env: Surroundings, rank: Digest -> nat, a: nat, session: nat, log: seq<Written>, i: nat)
    returns (h: Digest)
    requires Steady(env, rank) && LogInv(env, rank, a, session, log) && i < |log|
    requires Above(RevisionParents(ViewAt(env, 3 * a, log)), FloorsAt(env, 3 * a, log), log[i].rev)
    ensures h in HeadsAt(env, session, 3 * a, log) && Reach(RevisionParents(ViewAt(env, 3 * a, log)), h, log[i].rev)
  {
    var k := 3 * a;
    var view, floors, j := ViewAt(env, k, log), FloorsAt(env, k, log), JudgeAt(env, session, k);
    OwnIsShown(env, rank, a, session, log, i, k);
    ViewRanked(env, rank, k, log);
    assert Later(log[i].session, session);
    assert Trusted(j, view, floors, log[i].rev);
    h := MaximalAbove(RevisionParents(view), rank, TrustedSet(j, view, floors), log[i].rev);
    assert h in Elements(HeadsAt(env, session, k, log));
  }

  lemma LogAdvance(env: Surroundings, rank: Digest -> nat, a: nat, session: nat, session2: nat, log: seq<Written>)
    requires Names(env, rank) && LogInv(env, rank, a, session, log) && session <= session2 <= 3 * a + 2
    ensures LogInv(env, rank, a + 1, session2, log)
  {
    assert Earlier(a, a + 1);
  }

  lemma WithNew(log: seq<Written>, w: Written)
    ensures OwnStates(log + [w]) == OwnStates(log)[w.rev := w.state]
  {
    assert (log + [w])[..|log|] == log;
  }

  /** A revision that attempt `a` may publish. */
  ghost predicate Fits(env: Surroundings, a: nat, session: nat, log: seq<Written>, w: Written) {
    && w.attempt == a && w.session == session && w.rev == env.own(a)
    && w.state.author == env.self && w.state.control == env.at(session).head
    && forall p :: p in w.state.parents ==> p in ServedAt(env, 3 * a, log)
  }

  lemma LogNamesAppend(env: Surroundings, a: nat, session: nat, session2: nat, log: seq<Written>, w: Written)
    requires LogNames(env, a, session, log) && session <= session2 && Fits(env, a, session, log, w)
    ensures LogNames(env, a + 1, session2, log + [w])
  {
  }

  lemma ParentsOfNew(env: Surroundings, rank: Digest -> nat, a: nat, session: nat, log: seq<Written>, w: Written)
    requires Names(env, rank) && LogInv(env, rank, a, session, log) && Fits(env, a, session, log, w)
    ensures forall p :: p in w.state.parents ==> rank(p) < rank(w.rev)
  {
    assert SeenBy(3 * a, a);
    assert AllBelow(env.at(3 * a).stored, rank, rank(env.own(a)));
  }

  lemma AppendBelow(own: Revisions, rank: Digest -> nat, rev: Digest, state: State, next: nat)
    requires OwnBelow(own, rank, rank(rev)) && rank(rev) < next
    requires forall p :: p in state.parents ==> rank(p) < rank(rev)
    ensures OwnBelow(own[rev := state], rank, next)
  {
  }

  lemma LogAppend(env: Surroundings, rank: Digest -> nat, a: nat, session: nat, session2: nat, log: seq<Written>,
                  w: Written)
    requires Names(env, rank) && LogInv(env, rank, a, session, log) && session <= session2 <= 3 * a + 2
    requires Fits(env, a, session, log, w)
    ensures LogInv(env, rank, a + 1, session2, log + [w])
  {
    LogNamesAppend(env, a, session, session2, log, w);
    ParentsOfNew(env, rank, a, session, log, w);
    WithNew(log, w);
    assert Earlier(a, a + 1);
    AppendBelow(OwnStates(log), rank, w.rev, w.state, rank(env.own(a + 1)));
  }

  // ----- what every run does

  /** The revision's parents are exactly the trusted heads of its read, found again just before publishing, and its base
      is what that read merged; or the resource had no revision. */
  ghost predicate BuiltOn(env: Surroundings, req: Request, before: seq<Written>, w: Written) {
    var k := 3 * w.attempt;
    || (ViewAt(env, k, before) == map[] && w.state.parents == [] && w.base == map[])
    || (&& w.state.parents == HeadsAt(env, w.session, k, before)
        && LatestHeads(env, w.attempt, w.session, before) == Some(w.state.parents)
        && Reads(env, w.session, k, before, req.choices, Got(w.state.parents, w.base, [])))
  }

  /** The content is the change applied to the base, or, if the change has nothing to change, a merge of several heads. */
  ghost predicate Carries(change: Secrets -> ChangeResult, w: Written) {
    || change(w.base) == Changed(w.secrets)
    || (change(w.base) == Unchanged && w.secrets == w.base && |w.state.parents| > 1)
  }

  /** The change is applied exactly when no earlier revision of the call is at or below a head it was built on. */
  ghost predicate AppliedWhenNeeded(env: Surroundings, req: Request, before: seq<Written>, w: Written) {
    if Covered(ViewAt(env, 3 * w.attempt, before), w.state.parents, before) then w.secrets == w.base
    else Carries(req.change, w)
  }

  ghost predicate Entry(env: Surroundings, rank: Digest -> nat, req: Request, before: seq<Written>, w: Written) {
    && LogInv(env, rank, w.attempt, w.session, before) && Fits(env, w.attempt, w.session, before, w)
    && BuiltOn(env, req, before, w) && AppliedWhenNeeded(env, req, before, w)
    && Lands(env.at(3 * w.attempt + 2).write)
  }

  /** Each revision of a log has a property, given the log before it. */
  ghost predicate Every(property: (seq<Written>, Written) -> bool, log: seq<Written>) {
    log == [] || (Every(property, log[..|log| - 1]) && property(log[..|log| - 1], log[|log| - 1]))
  }

  lemma {:induction false} EveryAt(property: (seq<Written>, Written) -> bool, log: seq<Written>, i: nat)
    requires Every(property, log) && i < |log|
    ensures property(log[..i], log[i])
  {
    var front := log[..|log| - 1];
    if i < |log| - 1 {
      EveryAt(property, front, i);
      assert front[..i] == log[..i] && front[i] == log[i];
    }
  }

  lemma EveryAppend(property: (seq<Written>, Written) -> bool, log: seq<Written>, w: Written)
    requires Every(property, log) && property(log, w)
    ensures Every(property, log + [w])
  {
    assert (log + [w])[..|log|] == log;
  }

  ghost function IsEntry(env: Surroundings, rank: Digest -> nat, req: Request): (seq<Written>, Written) -> bool {
    (before: seq<Written>, w: Written) => Entry(env, rank, req, before, w)
  }

  ghost predicate AllEntries(env: Surroundings, rank: Digest -> nat, req: Request, log: seq<Written>) {
    Every(IsEntry(env, rank, req), log)
  }

  lemma EntryAt(env: Surroundings, rank: Digest -> nat, req: Request, log: seq<Written>, i: nat)
    requires AllEntries(env, rank, req, log) && i < |log|
    ensures Entry(env, rank, req, log[..i], log[i])
  {
    EveryAt(IsEntry(env, rank, req), log, i);
    assert IsEntry(env, rank, req)(log[..i], log[i]);
  }

  lemma MergedHeads(j: Judge, states: Revisions, records: Option<seq<Record>>, plain: Digest -> Plain,
                    choices: map<string, Choice>, r: Result)
    requires ReadsAs(j, states, records, plain, choices, r) && r.Merged? && r.read.Read?
    ensures r.read.heads == HeadList(j, states, LoadOf(states, j.accepted.heads, records).compacted.floors)
    ensures r.read.heads != [] && forall h :: h in r.read.heads ==> h in states
  {
    var compacted := LoadOf(states, j.accepted.heads, records).compacted;
    HeadsOfRead(j, states, compacted, plain, choices, r.read);
    HeadsAreShown(j, states, compacted.floors);
  }

  lemma GotHeads(env: Surroundings, session: nat, k: nat, log: seq<Written>, choices: map<string, Choice>, x: ReadStep)
    requires Reads(env, session, k, log, choices, x)
    ensures x.Got? ==> x.heads == HeadsAt(env, session, k, log) && x.heads != []
    ensures x.Got? ==> forall h :: h in x.heads ==> h in ViewAt(env, k, log)
    ensures x.NotFound? ==> ViewAt(env, k, log) == map[]
  {
    if x.Got? {
      var j, view := JudgeAt(env, session, k), ViewAt(env, k, log);
      var records, plain := env.at(k).records, PlainWith(env, log);
      var r :| ReadsAs(j, view, records, plain, choices, r) && x == StepOf(r);
      MergedHeads(j, view, records, plain, choices, r);
    }
  }

  /** What a publishing attempt publishes. */
  ghost predicate Fresh(env: Surroundings, req: Request, a: nat, session: nat, log: seq<Written>, w: Written) {
    Fits(env, a, session, log, w) && BuiltOn(env, req, log, w) && AppliedWhenNeeded(env, req, log, w)
  }

  lemma FirstFits(env: Surroundings, req: Request, a: nat, session: nat, log: seq<Written>, secrets: Secrets)
    requires ViewAt(env, 3 * a, log) == map[] && req.change(map[]) == Changed(secrets)
    ensures Fresh(env, req, a, session, log, Make(env, a, session, [], map[], secrets))
  {
  }

  lemma MadeFits(env: Surroundings, a: nat, session: nat, log: seq<Written>, heads: seq<Digest>, base: Secrets,
                 secrets: Secrets)
    requires forall h :: h in heads ==> h in ViewAt(env, 3 * a, log)
    ensures Fits(env, a, session, log, Make(env, a, session, heads, base, secrets))
  {
  }

  lemma MadeApplies(env: Surroundings, req: Request, a: nat, session: nat, log: seq<Written>, heads: seq<Digest>,
                    base: Secrets, secrets: Secrets)
    requires ContentOf(req.change, Covered(ViewAt(env, 3 * a, log), heads, log), base, heads) == Go(secrets)
    ensures AppliedWhenNeeded(env, req, log, Make(env, a, session, heads, base, secrets))
  {
  }

  lemma MadeIsBuilt(env: Surroundings, req: Request, a: nat, session: nat, log: seq<Written>, heads: seq<Digest>,
                    base: Secrets, secrets: Secrets)
    requires Reads(env, session, 3 * a, log, req.choices, Got(heads, base, []))
    requires heads == HeadsAt(env, session, 3 * a, log) && LatestHeads(env, a, session, log) == Some(heads)
    ensures BuiltOn(env, req, log, Make(env, a, session, heads, base, secrets))
  {
  }

  lemma BasedFits(env: Surroundings, req: Request, a: nat, session: nat, log: seq<Written>, heads: seq<Digest>,
                  base: Secrets, secrets: Secrets)
    requires Reads(env, session, 3 * a, log, req.choices, Got(heads, base, []))
    requires ContentOf(req.change, Covered(ViewAt(env, 3 * a, log), heads, log), base, heads) == Go(secrets)
    requires LatestHeads(env, a, session, log) == Some(heads)
    ensures Fresh(env, req, a, session, log, Make(env, a, session, heads, base, secrets))
  {
    GotHeads(env, session, 3 * a, log, req.choices, Got(heads, base, []));
    MadeFits(env, a, session, log, heads, base, secrets);
    MadeApplies(env, req, a, session, log, heads, base, secrets);
    MadeIsBuilt(env, req, a, session, log, heads, base, secrets);
  }

  lemma DecidedFromHeads(env: Surroundings, req: Request, a: nat, session: nat, log: seq<Written>, x: ReadStep,
                         w: Written)
    requires x.Got? && Decide(env, req, a, session, log, x) == Publish(w)
    ensures x == Got(x.heads, x.secrets, []) && w == Make(env, a, session, x.heads, x.secrets, w.secrets)
    ensures ContentOf(req.change, Covered(ViewAt(env, 3 * a, log), x.heads, log), x.secrets, x.heads) == Go(w.secrets)
    ensures LatestHeads(env, a, session, log) == Some(x.heads)
  {
  }

  lemma PublishedIsFresh(env: Surroundings, req: Request, a: nat, session: nat, log: seq<Written>, x: ReadStep)
    requires Reads(env, session, 3 * a, log, req.choices, x)
    ensures var r := Decide(env, req, a, session, log, x);
            r.Publish? ==> Fresh(env, req, a, session, log, r.w)
  {
    var r := Decide(env, req, a, session, log, x);
    if r.Publish? {
      if x.NotFound? {
        GotHeads(env, session, 3 * a, log, req.choices, x);
        FirstFits(env, req, a, session, log, r.w.secrets);
      } else {
        DecidedFromHeads(env, req, a, session, log, x, r.w);
        BasedFits(env, req, a, session, log, x.heads, x.secrets, r.w.secrets);
      }
    }
  }

  /** What a run keeps from attempt to attempt. */
  ghost predicate Kept(env: Surroundings, rank: Digest -> nat, req: Request, a: nat, session: nat, log: seq<Written>) {
    LogInv(env, rank, a, session, log) && AllEntries(env, rank, req, log)
  }

  lemma StoredKeeps(env: Surroundings, rank: Digest -> nat, req: Request, a: nat, session: nat, session2: nat,
                    log: seq<Written>, w: Written)
    requires Names(env, rank) && Kept(env, rank, req, a, session, log) && session <= session2 <= 3 * a + 2
    requires Fresh(env, req, a, session, log, w) && Lands(env.at(3 * a + 2).write)
    ensures Kept(env, rank, req, a + 1, session2, log + [w])
  {
    assert LogInv(env, rank, a + 1, session2, log + [w]) by { LogAppend(env, rank, a, session, session2, log, w); }
    FreshIsEntry(env, rank, req, a, session, log, w);
    EveryAppend(IsEntry(env, rank, req), log, w);
  }

  lemma FreshIsEntry(env: Surroundings, rank: Digest -> nat, req: Request, a: nat, session: nat, log: seq<Written>,
                     w: Written)
    requires LogInv(env, rank, a, session, log) && Fresh(env, req, a, session, log, w) && Lands(env.at(3 * a + 2).write)
    ensures Entry(env, rank, req, log, w)
  {
    assert w.attempt == a && w.session == session;
  }

  lemma AttemptKeeps(env: Surroundings, rank: Digest -> nat, req: Request, a: nat, session: nat, log: seq<Written>,
                     x: ReadStep, session2: nat)
    requires Names(env, rank) && Kept(env, rank, req, a, session, log)
    requires Reads(env, session, 3 * a, log, req.choices, x) && session <= session2 <= 3 * a + 2
    ensures var next := Logged(env, a, log, Decide(env, req, a, session, log, x));
            log <= next && Kept(env, rank, req, a + 1, session2, next)
  {
    var r := Decide(env, req, a, session, log, x);
    if r.Publish? && Lands(env.at(3 * a + 2).write) {
      PublishedIsFresh(env, req, a, session, log, x);
      StoredKeeps(env, rank, req, a, session, session2, log, r.w);
    } else {
      LogAdvance(env, rank, a, session, session2, log);
    }
  }

  lemma NextSession(env: Surroundings, req: Request, a: nat, session: nat, r: Attempt)
    requires session <= 3 * a
    ensures VerdictOf(env, req, a, session, r).GoOn? ==>
              session <= VerdictOf(env, req, a, session, r).session <= 3 * a + 2
  {
  }

  /** The first attempt of a run: what it leaves, and how the run goes on from there, if it does. */
  lemma FirstAttempt(env: Surroundings, req: Request, a: nat, session: nat, log: seq<Written>, outcome: Outcome,
                     final: seq<Written>)
    returns (x: ReadStep, next: seq<Written>, session2: nat, over: bool)
    requires a < Attempts(req.op) && session <= 3 * a && Runs(env, req, a, session, log, outcome, final)
    ensures Reads(env, session, 3 * a, log, req.choices, x)
    ensures next == Logged(env, a, log, Decide(env, req, a, session, log, x)) && session <= session2 <= 3 * a + 2
    ensures over ==> final == next &&
                     VerdictOf(env, req, a, session, Decide(env, req, a, session, log, x)) == Stop(outcome)
    ensures !over ==> Runs(env, req, a + 1, session2, next, outcome, final)
  {
    x :| Reads(env, session, 3 * a, log, req.choices, x) && Continues(env, req, a, session, log, x, outcome, final);
    var r := Decide(env, req, a, session, log, x);
    var v := VerdictOf(env, req, a, session, r);
    NextSession(env, req, a, session, r);
    next, over := Logged(env, a, log, r), v.Stop?;
    session2 := if v.GoOn? then v.session else session;
  }

  lemma FirstKeeps(env: Surroundings, rank: Digest -> nat, req: Request, a: nat, session: nat, log: seq<Written>,
                   outcome: Outcome, final: seq<Written>)
    returns (b: nat, next: seq<Written>, session2: nat, over: bool)
    requires Names(env, rank) && Kept(env, rank, req, a, session, log) && a < Attempts(req.op)
    requires Runs(env, req, a, session, log, outcome, final)
    ensures b == a + 1 && log <= next && Kept(env, rank, req, b, session2, next)
    ensures if over then final == next else Runs(env, req, b, session2, next, outcome, final)
  {
    var x;
    b := a + 1;
    x, next, session2, over := FirstAttempt(env, req, a, session, log, outcome, final);
    AttemptKeeps(env, rank, req, a, session, log, x, session2);
  }

  /** Every stored revision of a run was published by an attempt that storage kept, is built on
      exactly the trusted heads it read, and applies the change exactly when no earlier revision of
      the call is among what those heads lead to. */
  lemma {:induction false} RunIsBuilt(env: Surroundings, rank: Digest -> nat, req: Request, a: nat, session: nat,
                                      log: seq<Written>, outcome: Outcome, final: seq<Written>)
    requires Names(env, rank) && Kept(env, rank, req, a, session, log)
    requires Runs(env, req, a, session, log, outcome, final)
    ensures log <= final && AllEntries(env, rank, req, final)
    decreases Attempts(req.op) - a
  {
    if a < Attempts(req.op) {
      var b, next, session2, over := FirstKeeps(env, rank, req, a, session, log, outcome, final);
      if !over {
        RunIsBuilt(env, rank, req, b, session2, next, outcome, final);
      }
    }
  }

  lemma StartInv(env: Surroundings, rank: Digest -> nat, req: Request)
    ensures Kept(env, rank, req, 0, 0, [])
  {
  }

  lemma EntryCovers(env: Surroundings, rank: Digest -> nat, req: Request, before: seq<Written>, w: Written, m: nat)
    requires Steady(env, rank) && Entry(env, rank, req, before, w) && m < |before|
    requires var k := 3 * w.attempt;
             Above(RevisionParents(ViewAt(env, k, before)), FloorsAt(env, k, before), before[m].rev)
    ensures w.secrets == w.base
    ensures exists h :: h in w.state.parents &&
                        Reach(RevisionParents(ViewAt(env, 3 * w.attempt, before)), h, before[m].rev)
  {
    OwnIsShown(env, rank, w.attempt, w.session, before, m, 3 * w.attempt);
    var h := OwnIsCovered(env, rank, w.attempt, w.session, before, m);
    assert Covered(ViewAt(env, 3 * w.attempt, before), w.state.parents, before);
  }

  /** Where a run applies the change again, some floor in force at that read
      excludes each of the call's earlier revisions. */
  lemma AppliedAgainOnlyBehindFloors(env: Surroundings, rank: Digest -> nat, req: Request, log: seq<Written>, i: nat,
                                     m: nat)
    requires Steady(env, rank) && AllEntries(env, rank, req, log) && m < i < |log|
    requires var k := 3 * log[i].attempt;
             Above(RevisionParents(ViewAt(env, k, log[..i])), FloorsAt(env, k, log[..i]), log[m].rev)
    ensures log[i].secrets == log[i].base && Descends(env, log, i, log[m].rev)
  {
    assert Entry(env, rank, req, log[..i], log[i]) by { EntryAt(env, rank, req, log, i); }
    assert log[..i][m] == log[m];
    EntryCovers(env, rank, req, log[..i], log[i], m);
  }

  /** A revision trusted in this read is, or descends from, one of the call's own. */
  ghost predicate OwnWorkTrusted(env: Surroundings, session: nat, k: nat, log: seq<Written>) {
    exists t, m :: t in TrustedSet(JudgeAt(env, session, k), ViewAt(env, k, log), FloorsAt(env, k, log))
                   && 0 <= m < |log| && Reach(RevisionParents(ViewAt(env, k, log)), t, log[m].rev)
  }

  lemma CoveredExactly(env: Surroundings, rank: Digest -> nat, a: nat, session: nat, log: seq<Written>)
    requires Names(env, rank) && LogInv(env, rank, a, session, log)
    ensures Covered(ViewAt(env, 3 * a, log), HeadsAt(env, session, 3 * a, log), log) <==>
              OwnWorkTrusted(env, session, 3 * a, log)
  {
    var k := 3 * a;
    var view, heads := ViewAt(env, k, log), HeadsAt(env, session, k, log);
    var P, T := RevisionParents(view), TrustedSet(JudgeAt(env, session, k), view, FloorsAt(env, k, log));
    ViewRanked(env, rank, k, log);
    assert forall h :: h in heads <==> h in Elements(heads);
    if OwnWorkTrusted(env, session, k, log) {
      var t, m :| t in T && 0 <= m < |log| && Reach(P, t, log[m].rev);
      var h := MaximalAbove(P, rank, T, t);
      ReachTrans(P, h, t, log[m].rev);
      assert h in heads;
    }
  }

  /** Exactly when a stored revision applies the change: when nothing its read trusted is, or descends from, an earlier
      revision of the call. Otherwise it has merged content only. */
  lemma AppliedExactlyWhen(env: Surroundings, rank: Digest -> nat, req: Request, outcome: Outcome, final: seq<Written>,
                           i: nat)
    requires Names(env, rank) && Runs(env, req, 0, 0, [], outcome, final) && i < |final|
    ensures if OwnWorkTrusted(env, final[i].session, 3 * final[i].attempt, final[..i])
            then final[i].secrets == final[i].base
            else Carries(req.change, final[i])
  {
    StartInv(env, rank, req);
    RunIsBuilt(env, rank, req, 0, 0, [], outcome, final);
    assert Entry(env, rank, req, final[..i], final[i]) by { EntryAt(env, rank, req, final, i); }
    EntryExactly(env, rank, req, final[..i], final[i]);
  }

  lemma EntryExactly(env: Surroundings, rank: Digest -> nat, req: Request, before: seq<Written>, w: Written)
    requires Names(env, rank) && Entry(env, rank, req, before, w)
    ensures if OwnWorkTrusted(env, w.session, 3 * w.attempt, before) then w.secrets == w.base
            else Carries(req.change, w)
  {
    CoveredExactly(env, rank, w.attempt, w.session, before);
    if ViewAt(env, 3 * w.attempt, before) == map[] {
      assert !Covered(ViewAt(env, 3 * w.attempt, before), w.state.parents, before);
    }
  }

  /** A parent of the revision is `rev` or descends from it in the view it was built on. */
  ghost predicate Descends(env: Surroundings, log: seq<Written>, i: nat, rev: Digest)
    requires i < |log|
  {
    exists h :: h in log[i].state.parents && Reach(RevisionParents(ViewAt(env, 3 * log[i].attempt, log[..i])), h, rev)
  }

  /** No floor in force at a later read excludes an earlier revision of the call. */
  ghost predicate NoFloorHides(env: Surroundings, log: seq<Written>) {
    forall m, i :: 0 <= m < i < |log| ==>
      Above(RevisionParents(ViewAt(env, 3 * log[i].attempt, log[..i])), FloorsAt(env, 3 * log[i].attempt, log[..i]),
            log[m].rev)
  }

  /** The change is in the first revision and in no other; the others have merged content and descend from it. */
  ghost predicate LandsOnce(env: Surroundings, req: Request, log: seq<Written>) {
    && (log != [] ==> Carries(req.change, log[0]))
    && (forall i :: 0 < i < |log| ==> log[i].secrets == log[i].base && Descends(env, log, i, log[0].rev))
  }

  /** Across all attempts of a call the change lands in exactly one of the revisions it stored, unless a floor hides
      them: whatever the listings show, whoever else writes, and whatever others' revisions disappear. */
  lemma ChangeLandsOnce(env: Surroundings, rank: Digest -> nat, req: Request, outcome: Outcome, final: seq<Written>)
    requires Steady(env, rank) && Runs(env, req, 0, 0, [], outcome, final) && NoFloorHides(env, final)
    ensures LandsOnce(env, req, final) && AllEntries(env, rank, req, final)
  {
    StartInv(env, rank, req);
    RunIsBuilt(env, rank, req, 0, 0, [], outcome, final);
    if final != [] {
      EntryAt(env, rank, req, final, 0);
    }
    forall i | 0 < i < |final| ensures final[i].secrets == final[i].base && Descends(env, final, i, final[0].rev) {
      AppliedAgainOnlyBehindFloors(env, rank, req, final, i, 0);
    }
  }

  // ----- where no floor hides the call's revisions

  /** Without deletion records there are no floors. */
  lemma NoRecordsHideNothing(env: Surroundings, log: seq<Written>)
    requires forall k: nat :: env.at(k).records == None || env.at(k).records == Some([])
    ensures NoFloorHides(env, log)
  {
    var none: seq<Digest> := [];
    assert Elements(none) == {};
    IsListing(none);
    forall k: nat, before ensures FloorsAt(env, k, before) == [] {
      assert env.at(k).records.Some? ==>
               FloorsShown(Elements(env.at(k).records.value), ViewAt(env, k, before).Keys) == {};
    }
  }

  ghost predicate Includes(small: Revisions, big: Revisions) {
    forall d :: d in small ==> d in big && big[d] == small[d]
  }

  /** Nothing stored is deleted meanwhile. */
  ghost predicate NothingDeleted(env: Surroundings) {
    forall k: nat, m: nat {:trigger Later(k, m)} :: Later(k, m) ==> Includes(env.at(k).stored, env.at(m).stored)
  }

  lemma ReachLed(all: Revisions, names: seq<Digest>, d: Digest, a: Digest)
    requires Reach(RevisionParents(all), d, a) && d in LedFrom(all, names)
    ensures Reach(RevisionParents(LedFrom(all, names)), d, a)
  {
    var P, led := RevisionParents(all), RevisionParents(LedFrom(all, names));
    LedToClosed(P, names);
    assert GrowsAbove(led, P);
    GrownAncestors(led, P, d);
    ReachEnds(P, d, a);
    assert a in Anc(P, d);
  }

  lemma ReachServed(small: Revisions, names: seq<Digest>, big: Revisions, d: Digest, a: Digest)
    requires Includes(small, big) && Reach(RevisionParents(LedFrom(small, names)), d, a)
    ensures Reach(RevisionParents(big), d, a)
  {
    ReachExtends(RevisionParents(LedFrom(small, names)), RevisionParents(big), d, a);
  }

  lemma {:induction false} OwnGrows(log: seq<Written>, m: nat)
    requires DistinctNames(log) && m <= |log|
    ensures Includes(OwnStates(log[..m]), OwnStates(log))
  {
    OwnStatesKeys(log);
    OwnStatesKeys(log[..m]);
    forall d | d in OwnStates(log[..m]) ensures d in OwnStates(log) && OwnStates(log)[d] == OwnStates(log[..m])[d] {
      var i :| 0 <= i < m && log[..m][i].rev == d && OwnStates(log[..m])[d] == log[..m][i].state;
      assert log[..m][i] == log[i];
    }
  }

  lemma ServedGrows(env: Surroundings, rank: Digest -> nat, a: nat, session: nat, log: seq<Written>, m: nat, k: nat,
                    k2: nat)
    requires Names(env, rank) && LogNames(env, a, session, log) && m <= |log| &&
             Includes(env.at(k).stored, env.at(k2).stored)
    ensures Includes(ServedAt(env, k, log[..m]), ServedAt(env, k2, log))
  {
    LogDistinct(env, rank, a, session, log);
    OwnGrows(log, m);
    OwnNotStored(env, rank, a, session, log, k2);
  }

  lemma OwnNotStored(env: Surroundings, rank: Digest -> nat, a: nat, session: nat, log: seq<Written>, k: nat)
    requires Names(env, rank) && LogNames(env, a, session, log)
    ensures OwnStates(log).Keys !! env.at(k).stored.Keys
  {
    LogDistinct(env, rank, a, session, log);
    OwnStatesKeys(log);
    forall d | d in OwnStates(log) ensures d !in env.at(k).stored {
      var i :| 0 <= i < |log| && log[i].rev == d;
      assert env.own(log[i].attempt) !in env.at(k).stored;
    }
  }

  /** Above the floors when it was made, a revision of the call stays above the
      same floors, whatever later listings hide. */
  lemma StaysAbove(env: Surroundings, rank: Digest -> nat, a: nat, session: nat, log: seq<Written>, m: nat, k: nat,
                   floors: seq<Digest>, p: Digest)
    requires Names(env, rank) && LogNames(env, a, session, log) && m < |log|
    requires Includes(env.at(3 * log[m].attempt).stored, env.at(k).stored)
    requires p in log[m].state.parents && Above(RevisionParents(ViewAt(env, 3 * log[m].attempt, log[..m])), floors, p)
    ensures Above(RevisionParents(ViewAt(env, k, log)), floors, log[m].rev)
  {
    var k0, rev := 3 * log[m].attempt, log[m].rev;
    var small, big, names := ServedAt(env, k0, log[..m]), ServedAt(env, k, log), env.at(k).listed + OwnNames(log);
    ServedGrows(env, rank, a, session, log, m, k0, k);
    OwnIsShown(env, rank, a, session, log, m, k);
    forall f | f in floors ensures Reach(RevisionParents(ViewAt(env, k, log)), rev, f) {
      ReachServed(small, env.at(k0).listed + OwnNames(log[..m]), big, p, f);
      ReachStep(RevisionParents(big), rev, p, f);
      ReachLed(big, names, rev, f);
    }
  }

  /** The same floors are in force at each read that a stored revision was built on. */
  ghost predicate SameFloors(env: Surroundings, log: seq<Written>, floors: seq<Digest>) {
    forall i :: 0 <= i < |log| ==> FloorsAt(env, 3 * log[i].attempt, log[..i]) == floors
  }

  /** If nothing is deleted meanwhile and the floors stay the same, no listing can
      make a floor hide the call's revisions. */
  lemma SameFloorsHideNothing(env: Surroundings, rank: Digest -> nat, req: Request, log: seq<Written>,
                              floors: seq<Digest>)
    requires Names(env, rank) && NothingDeleted(env) && AllEntries(env, rank, req, log) && SameFloors(env, log, floors)
    ensures NoFloorHides(env, log)
  {
    forall m, i | 0 <= m < i < |log|
      ensures Above(RevisionParents(ViewAt(env, 3 * log[i].attempt, log[..i])),
                    FloorsAt(env, 3 * log[i].attempt, log[..i]), log[m].rev)
    {
      SameFloorsAt(env, rank, req, log, floors, m, i);
    }
  }

  lemma SameFloorsAt(env: Surroundings, rank: Digest -> nat, req: Request, log: seq<Written>, floors: seq<Digest>,
                     m: nat, i: nat)
    requires Names(env, rank) && NothingDeleted(env) && AllEntries(env, rank, req, log) && m < i < |log|
    requires FloorsAt(env, 3 * log[m].attempt, log[..m]) == floors
    ensures Above(RevisionParents(ViewAt(env, 3 * log[i].attempt, log[..i])), floors, log[m].rev)
  {
    var before, w := log[..i], log[i];
    assert before[m] == log[m] && before[..m] == log[..m];
    assert BuiltOn(env, req, before[..m], before[m]) by { EntryAt(env, rank, req, log, m); }
    assert LogNames(env, w.attempt, w.session, before) by { EntryAt(env, rank, req, log, i); }
    StillAbove(env, rank, req, before, m, w.attempt, w.session, floors);
  }

  lemma StillAbove(env: Surroundings, rank: Digest -> nat, req: Request, log: seq<Written>, m: nat, a: nat,
                   session: nat, floors: seq<Digest>)
    requires Names(env, rank) && NothingDeleted(env) && LogNames(env, a, session, log) && m < |log|
    requires BuiltOn(env, req, log[..m], log[m]) && FloorsAt(env, 3 * log[m].attempt, log[..m]) == floors
    ensures Above(RevisionParents(ViewAt(env, 3 * a, log)), floors, log[m].rev)
  {
    assert Later(3 * log[m].attempt, 3 * a);
    if floors != [] {
      BuiltAbove(env, req, log[..m], log[m], floors);
      StaysAbove(env, rank, a, session, log, m, 3 * a, floors, log[m].state.parents[0]);
    }
  }

  /** What a revision is built on is above the floors in force. */
  lemma BuiltAbove(env: Surroundings, req: Request, before: seq<Written>, w: Written, floors: seq<Digest>)
    requires BuiltOn(env, req, before, w) && FloorsAt(env, 3 * w.attempt, before) == floors && floors != []
    ensures w.state.parents != []
    ensures Above(RevisionParents(ViewAt(env, 3 * w.attempt, before)), floors, w.state.parents[0])
  {
    var k := 3 * w.attempt;
    assert ViewAt(env, k, before) != map[];
    GotHeads(env, w.session, k, before, req.choices, Got(w.state.parents, w.base, []));
    assert w.state.parents[0] in Elements(HeadsAt(env, w.session, k, before));
  }

  // ----- a call that succeeds

  /** The change has nothing to do: a read of the call, or an empty resource, is left as it is. */
  ghost predicate NothingToDo(env: Surroundings, req: Request, a: nat, session: nat, log: seq<Written>) {
    exists x ::
      && Reads(env, session, 3 * a, log, req.choices, x) && (x.NotFound? || x.Got?)
      && (if x.Got? then |x.heads| <= 1 && req.change(x.secrets) == Unchanged
          else req.op.Sync? || req.op.Delete? || req.change(map[]) == Unchanged)
  }

  lemma DoneDecided(env: Surroundings, req: Request, a: nat, session: nat, log: seq<Written>, x: ReadStep)
    requires Decide(env, req, a, session, log, x) == Nothing(Done)
    ensures x.NotFound? || x.Got?
    ensures if x.Got? then |x.heads| <= 1 && req.change(x.secrets) == Unchanged
            else req.op.Sync? || req.op.Delete? || req.change(map[]) == Unchanged
  {
  }

  lemma DoneMeans(env: Surroundings, req: Request, a: nat, session: nat, log: seq<Written>, x: ReadStep)
    requires Reads(env, session, 3 * a, log, req.choices, x)
    requires VerdictOf(env, req, a, session, Decide(env, req, a, session, log, x)) == Stop(Done)
    ensures Logged(env, a, log, Decide(env, req, a, session, log, x)) != [] || NothingToDo(env, req, a, session, log)
  {
    var r := Decide(env, req, a, session, log, x);
    if !r.Publish? {
      DoneDecided(env, req, a, session, log, x);
    }
  }

  /** A call that reports success stored a revision, or found at some attempt, having
      stored none, that there was nothing to do. */
  lemma {:induction false} DoneIsDone(env: Surroundings, req: Request, a: nat, session: nat, log: seq<Written>,
                                      final: seq<Written>)
    returns (b: nat, s: nat)
    requires session <= 3 * a && Runs(env, req, a, session, log, Done, final)
    ensures final != [] || NothingToDo(env, req, b, s, [])
    decreases Attempts(req.op) - a
  {
    b, s := a, session;
    var x, next, session2, over := FirstAttempt(env, req, a, session, log, Done, final);
    if over {
      DoneMeans(env, req, a, session, log, x);
      assert next == [] ==> log == [];
    } else {
      b, s := DoneIsDone(env, req, a + 1, session2, next, final);
    }
  }

  // ----- how a call ends

  lemma ReadsOnce(env: Surroundings, session: nat, k: nat, log: seq<Written>, choices: map<string, Choice>, x: ReadStep,
                  y: ReadStep)
    requires Reads(env, session, k, log, choices, x) && Reads(env, session, k, log, choices, y)
    ensures x == y
  {
    if env.at(k).available {
      var j, view := JudgeAt(env, session, k), ViewAt(env, k, log);
      var records, plain := env.at(k).records, PlainWith(env, log);
      var r :| ReadsAs(j, view, records, plain, choices, r) && x == StepOf(r);
      var r2 :| ReadsAs(j, view, records, plain, choices, r2) && y == StepOf(r2);
      ReadingIsDetermined(j, view, records, plain, choices, r, r2);
    }
  }

  /** What an attempt reads: nothing exactly where storage shows nothing and nothing was accepted before; the trusted
      heads and their merge where the load and the merge succeed; and otherwise it fails. */
  lemma ReadGives(env: Surroundings, session: nat, k: nat, log: seq<Written>, choices: map<string, Choice>, x: ReadStep)
    requires Reads(env, session, k, log, choices, x)
    ensures x.NotFound? <==>
              env.at(k).available && ViewAt(env, k, log) == map[] && env.at(k).accepted.heads == []
    ensures x.Got? <==>
              && env.at(k).available && LoadAt(env, k, log).Loaded?
              && exists r: ReadResult :: r.Read? && ReadOutcome(JudgeAt(env, session, k), ViewAt(env, k, log),
                                                    LoadAt(env, k, log).compacted, PlainWith(env, log), choices, r)
    ensures x.Got? ==> ReadOutcome(JudgeAt(env, session, k), ViewAt(env, k, log), LoadAt(env, k, log).compacted,
                                   PlainWith(env, log), choices, Read(x.heads, x.secrets, x.conflicts))
  {
    if env.at(k).available && LoadAt(env, k, log).Loaded? {
      var j, view, compacted := JudgeAt(env, session, k), ViewAt(env, k, log), LoadAt(env, k, log).compacted;
      var r: Result :| ReadsAs(j, view, env.at(k).records, PlainWith(env, log), choices, r) && x == StepOf(r);
      forall r2 | ReadOutcome(j, view, compacted, PlainWith(env, log), choices, r2) ensures r2 == r.read {
        ReadIsDetermined(j, view, compacted, PlainWith(env, log), choices, r2, r.read);
      }
    }
  }

  lemma RunStep(env: Surroundings, req: Request, a: nat, session: nat, log: seq<Written>, x: ReadStep,
                outcome: Outcome, final: seq<Written>)
    requires a < Attempts(req.op) && Runs(env, req, a, session, log, outcome, final)
    requires Reads(env, session, 3 * a, log, req.choices, x)
    ensures Continues(env, req, a, session, log, x, outcome, final)
  {
    var y :| Reads(env, session, 3 * a, log, req.choices, y) && Continues(env, req, a, session, log, y, outcome, final);
    ReadsOnce(env, session, 3 * a, log, req.choices, x, y);
  }

  /** An attempt that publishes nothing ends the call, or leads to the next attempt under the same session and log. */
  lemma StepWithout(env: Surroundings, req: Request, a: nat, session: nat, log: seq<Written>, x: ReadStep, r: Attempt,
                    outcome: Outcome, final: seq<Written>)
    requires a < Attempts(req.op) && Runs(env, req, a, session, log, outcome, final)
    requires Reads(env, session, 3 * a, log, req.choices, x) && r == Decide(env, req, a, session, log, x)
    ensures r.Nothing? ==> outcome == r.outcome && final == log
    ensures r.TryAgain? ==> Runs(env, req, a + 1, session, log, outcome, final)
  {
    RunStep(env, req, a, session, log, x, outcome, final);
  }

  lemma StepPublishing(env: Surroundings, req: Request, a: nat, session: nat, log: seq<Written>, x: ReadStep,
                       w: Written, outcome: Outcome, final: seq<Written>)
    requires a < Attempts(req.op) && Runs(env, req, a, session, log, outcome, final)
    requires Reads(env, session, 3 * a, log, req.choices, x) && Publish(w) == Decide(env, req, a, session, log, x)
    ensures WriteEnds(env, req, a, session, log, w, outcome, final)
  {
    RunStep(env, req, a, session, log, x, outcome, final);
    VerdictEnds(env, req, a, session, log, w, VerdictOf(env, req, a, session, Publish(w)),
                Logged(env, a, log, Publish(w)), outcome, final);
  }

  lemma VerdictEnds(env: Surroundings, req: Request, a: nat, session: nat, log: seq<Written>, w: Written, v: Verdict,
                    next: seq<Written>, outcome: Outcome, final: seq<Written>)
    requires v == VerdictOf(env, req, a, session, Publish(w)) && next == Logged(env, a, log, Publish(w))
    requires v.Stop? ==> outcome == v.outcome && final == next
    requires v.GoOn? ==> Runs(env, req, a + 1, v.session, next, outcome, final)
    ensures WriteEnds(env, req, a, session, log, w, outcome, final)
  {
  }

  /** A call has five attempts when it synchronises and three otherwise; when they are used up it fails. */
  lemma LastAttemptEnds(env: Surroundings, req: Request, session: nat, log: seq<Written>, outcome: Outcome,
                        final: seq<Written>)
    requires Runs(env, req, if req.op.Sync? then 5 else 3, session, log, outcome, final)
    ensures outcome == OutOfAttempts && final == log
  {
  }

  /** A failed read ends the call; so does one with conflicts, or with other heads than those the caller saw. */
  lemma ReadEndsCall(env: Surroundings, req: Request, a: nat, session: nat, log: seq<Written>, x: ReadStep,
                     outcome: Outcome, final: seq<Written>)
    requires a < if req.op.Sync? then 5 else 3
    requires Runs(env, req, a, session, log, outcome, final) && Reads(env, session, 3 * a, log, req.choices, x)
    requires x.ReadFailed? || (x.Got? && (x.conflicts != [] || (req.seen.Some? && req.seen.value != x.heads)))
    ensures outcome == Error && final == log
  {
    RunStep(env, req, a, session, log, x, outcome, final);
  }

  /** On a resource without revisions, synchronising and deleting have nothing to do, editing and resolving fail, and adding
      and restoring publish a first revision unless the change fails or changes nothing. */
  lemma EmptyResourceEnds(env: Surroundings, req: Request, a: nat, session: nat, log: seq<Written>, outcome: Outcome,
                          final: seq<Written>)
    requires a < if req.op.Sync? then 5 else 3
    requires Runs(env, req, a, session, log, outcome, final)
    requires Reads(env, session, 3 * a, log, req.choices, NotFound)
    ensures env.at(3 * a).available && ViewAt(env, 3 * a, log) == map[] && env.at(3 * a).accepted.heads == []
    ensures match req.op
            case Sync => outcome == Done && final == log
            case Delete => outcome == Done && final == log
            case Edit => outcome == Error && final == log
            case Resolve => outcome == Error && final == log
            case _ =>
              match req.change(map[])
              case Fails => outcome == Error && final == log
              case Unchanged => outcome == Done && final == log
              case Changed(secrets) =>
                WriteEnds(env, req, a, session, log, Published(env, a, session, [], map[], secrets), outcome, final)
  {
    NotFoundMeans(env, session, 3 * a, log, req.choices);
    var r := Decide(env, req, a, session, log, NotFound);
    if r.Publish? {
      StepPublishing(env, req, a, session, log, NotFound, r.w, outcome, final);
    } else {
      StepWithout(env, req, a, session, log, NotFound, r, outcome, final);
    }
  }

  lemma NotFoundMeans(env: Surroundings, session: nat, k: nat, log: seq<Written>, choices: map<string, Choice>)
    requires Reads(env, session, k, log, choices, NotFound)
    ensures env.at(k).available && ViewAt(env, k, log) == map[] && env.at(k).accepted.heads == []
  {
  }

  /** The revision that attempt `a` publishes: on these parents, for this resource, by this device under the member list of
      its session. */
  function Published(env: Surroundings, a: nat, session: nat, parents: seq<Digest>, base: Secrets,
                     secrets: Secrets): Written {
    Written(env.own(a), State(env.resource, parents, env.at(session).head, env.self, env.at(3 * a).now), base, secrets,
            a, session)
  }

  /** How the call ends once attempt `a` publishes `w`: stored and accepted it succeeds; a lost blob or a moved member list
      makes it try again, in the latter case under the new list, unless this was the last attempt; all else fails. */
  ghost predicate WriteEnds(env: Surroundings, req: Request, a: nat, session: nat, log: seq<Written>, w: Written,
                            outcome: Outcome, final: seq<Written>) {
    var last := a + 1 == if req.op.Sync? then 5 else 3;
    match env.at(3 * a + 2).write
    case Stored => outcome == (if env.at(3 * a + 3).available then Done else Error) && final == log + [w]
    case StoredThenFailed => outcome == Error && final == log + [w]
    case NotStored => outcome == Error && final == log
    case BlobGone =>
      if last then outcome == Error && final == log else Runs(env, req, a + 1, session, log, outcome, final)
    case MovedBefore =>
      if !env.at(3 * a + 2).available then outcome == Error && final == log
      else if last then outcome == ControlKeptMoving && final == log
      else Runs(env, req, a + 1, 3 * a + 2, log, outcome, final)
    case StoredThenMoved =>
      if !env.at(3 * a + 2).available then outcome == Error && final == log + [w]
      else if last then outcome == ControlKeptMoving && final == log + [w]
      else Runs(env, req, a + 1, 3 * a + 2, log + [w], outcome, final)
  }

  /** From a read without conflicts, with the heads the caller saw: a change that fails, or has nothing to do on one head,
      ends the call; and so does a second look that fails. */
  lemma ChangeEnds(env: Surroundings, req: Request, a: nat, session: nat, log: seq<Written>, heads: seq<Digest>,
                   base: Secrets, outcome: Outcome, final: seq<Written>)
    requires a < if req.op.Sync? then 5 else 3
    requires Runs(env, req, a, session, log, outcome, final)
    requires Reads(env, session, 3 * a, log, req.choices, Got(heads, base, []))
    requires req.seen.None? || req.seen.value == heads
    ensures !Covered(ViewAt(env, 3 * a, log), heads, log) && req.change(base).Fails? ==>
              outcome == Error && final == log
    ensures !Covered(ViewAt(env, 3 * a, log), heads, log) && req.change(base).Unchanged? && |heads| <= 1 ==>
              outcome == Done && final == log
    ensures (Covered(ViewAt(env, 3 * a, log), heads, log) || req.change(base).Changed?) &&
            (!env.at(3 * a + 1).available || !LoadAt(env, 3 * a + 1, log).Loaded?) ==>
              outcome == Error && final == log
  {
    DecideGot(env, req, a, session, log, heads, base);
    var x := Got(heads, base, []);
    StepOn(env, req, a, session, log, x, Decide(env, req, a, session, log, x), outcome, final);
  }

  lemma StepOn(env: Surroundings, req: Request, a: nat, session: nat, log: seq<Written>, x: ReadStep, r: Attempt,
               outcome: Outcome, final: seq<Written>)
    requires a < Attempts(req.op) && Runs(env, req, a, session, log, outcome, final)
    requires Reads(env, session, 3 * a, log, req.choices, x) && r == Decide(env, req, a, session, log, x)
    ensures r.Nothing? ==> outcome == r.outcome && final == log
    ensures r.TryAgain? ==> Runs(env, req, a + 1, session, log, outcome, final)
    ensures r.Publish? ==> WriteEnds(env, req, a, session, log, r.w, outcome, final)
  {
    if r.Publish? {
      StepPublishing(env, req, a, session, log, x, r.w, outcome, final);
    } else {
      StepWithout(env, req, a, session, log, x, r, outcome, final);
    }
  }

  /** Otherwise a second look that finds other heads makes the call try again, under the same member
      list; one that finds the same heads makes it publish on exactly these, with the change, or with
      what was merged if that has the change. */
  lemma ChangeGoesOn(env: Surroundings, req: Request, a: nat, session: nat, log: seq<Written>, heads: seq<Digest>,
                     base: Secrets, secrets: Secrets, outcome: Outcome, final: seq<Written>)
    requires a < if req.op.Sync? then 5 else 3
    requires Runs(env, req, a, session, log, outcome, final)
    requires Reads(env, session, 3 * a, log, req.choices, Got(heads, base, []))
    requires req.seen.None? || req.seen.value == heads
    requires if Covered(ViewAt(env, 3 * a, log), heads, log) then secrets == base
             else || req.change(base) == Changed(secrets)
                  || (req.change(base).Unchanged? && |heads| > 1 && secrets == base)
    requires env.at(3 * a + 1).available && LoadAt(env, 3 * a + 1, log).Loaded?
    ensures HeadsAt(env, session, 3 * a + 1, log) != heads ==> Runs(env, req, a + 1, session, log, outcome, final)
    ensures HeadsAt(env, session, 3 * a + 1, log) == heads ==>
              WriteEnds(env, req, a, session, log, Published(env, a, session, heads, base, secrets), outcome, final)
  {
    var x := Got(heads, base, []);
    var r := Decide(env, req, a, session, log, x);
    assert r == if HeadsAt(env, session, 3 * a + 1, log) != heads then TryAgain
                else Publish(Published(env, a, session, heads, base, secrets)) by {
      DecideGot(env, req, a, session, log, heads, base);
    }
    StepOn(env, req, a, session, log, x, r, outcome, final);
  }

  lemma DecideGot(env: Surroundings, req: Request, a: nat, session: nat, log: seq<Written>, heads: seq<Digest>,
                  base: Secrets)
    requires req.seen.None? || req.seen.value == heads
    ensures Decide(env, req, a, session, log, Got(heads, base, [])) ==
              var covered := Covered(ViewAt(env, 3 * a, log), heads, log);
              var c := req.change(base);
              if !covered && c.Fails? then Nothing(Error)
              else if !covered && c.Unchanged? && |heads| <= 1 then Nothing(Done)
              else if !env.at(3 * a + 1).available || !LoadAt(env, 3 * a + 1, log).Loaded? then Nothing(Error)
              else if HeadsAt(env, session, 3 * a + 1, log) != heads then TryAgain
              else Publish(Published(env, a, session, heads, base, if !covered && c.Changed? then c.secrets else base))
  {
    var covered := Covered(ViewAt(env, 3 * a, log), heads, log);
    ContentIs(req.change, covered, base, heads);
    var c, latest := ContentOf(req.change, covered, base, heads), LatestHeads(env, a, session, log);
    assert Decide(env, req, a, session, log, Got(heads, base, [])) ==
             if c.Halt? then Nothing(c.outcome) else if latest.None? then Nothing(Error)
             else if latest.value != heads then TryAgain
             else Publish(Make(env, a, session, heads, base, c.secrets));
  }

  lemma ContentIs(change: Secrets -> ChangeResult, covered: bool, base: Secrets, heads: seq<Digest>)
    ensures ContentOf(change, covered, base, heads) ==
              if !covered && change(base).Fails? then Halt(Error)
              else if !covered && change(base).Unchanged? && |heads| <= 1 then Halt(Done)
              else Go(if !covered && change(base).Changed? then change(base).secrets else base)
  {
  }

  lemma DecidedOnSeen(env: Surroundings, req: Request, a: nat, session: nat, log: seq<Written>, x: ReadStep)
    requires Decide(env, req, a, session, log, x).Publish? && req.seen.Some?
    ensures var w := Decide(env, req, a, session, log, x).w;
            w.attempt == a && (w.state.parents == req.seen.value || (x.NotFound? && w.state.parents == []))
  {
  }

  /** The entry's parents are the heads the caller saw; only the first revision of an empty resource has none. */
  ghost predicate OnSeen(env: Surroundings, req: Request, final: seq<Written>, i: nat)
    requires req.seen.Some? && i < |final|
  {
    && final[i].attempt < (if req.op.Sync? then 5 else 3)
    && (final[i].state.parents == req.seen.value
        || (final[i].state.parents == [] && ViewAt(env, 3 * final[i].attempt, final[..i]) == map[]))
  }

  /** Whatever happens between the attempts, a revision of a call that names the heads its caller saw has exactly these as
      parents, or is the first of its resource; and there is at most one for each of the attempts. */
  lemma {:induction false} OnlySeenIsPublished(env: Surroundings, req: Request, a: nat, session: nat,
                                               log: seq<Written>, outcome: Outcome, final: seq<Written>)
    requires req.seen.Some? && session <= 3 * a && Runs(env, req, a, session, log, outcome, final)
    ensures log <= final
    ensures forall i :: |log| <= i < |final| ==> OnSeen(env, req, final, i)
    decreases Attempts(req.op) - a
  {
    if a < Attempts(req.op) {
      var x, next, session2, over := FirstAttempt(env, req, a, session, log, outcome, final);
      SeenStep(env, req, a, session, log, x);
      if !over {
        OnlySeenIsPublished(env, req, a + 1, session2, next, outcome, final);
      }
      SeenSoFar(env, req, log, next, final);
    }
  }

  lemma SeenSoFar(env: Surroundings, req: Request, log: seq<Written>, next: seq<Written>, final: seq<Written>)
    requires req.seen.Some? && log <= next <= final
    requires forall i :: |log| <= i < |next| ==> OnSeen(env, req, next, i)
    requires forall i :: |next| <= i < |final| ==> OnSeen(env, req, final, i)
    ensures forall i :: |log| <= i < |final| ==> OnSeen(env, req, final, i)
  {
    forall i | |log| <= i < |final| ensures OnSeen(env, req, final, i) {
      if i < |next| {
        assert OnSeen(env, req, next, i) && final[i] == next[i] && final[..i] == next[..i];
      } else {
        assert OnSeen(env, req, final, i);
      }
    }
  }

  lemma SeenStep(env: Surroundings, req: Request, a: nat, session: nat, log: seq<Written>, x: ReadStep)
    requires req.seen.Some? && a < Attempts(req.op) && Reads(env, session, 3 * a, log, req.choices, x)
    ensures var next := Logged(env, a, log, Decide(env, req, a, session, log, x));
            log <= next && forall i :: |log| <= i < |next| ==> OnSeen(env, req, next, i)
  {
    var r := Decide(env, req, a, session, log, x);
    if r.Publish? {
      DecidedOnSeen(env, req, a, session, log, x);
      if x.NotFound? {
        NotFoundMeans(env, session, 3 * a, log, req.choices);
      }
      AddsSeen(env, req, log, r.w);
    }
  }

  lemma AddsSeen(env: Surroundings, req: Request, log: seq<Written>, w: Written)
    requires req.seen.Some? && w.attempt < Attempts(req.op)
    requires w.state.parents == req.seen.value || (w.state.parents == [] && ViewAt(env, 3 * w.attempt, log) == map[])
    ensures log <= log + [w] && forall i :: |log| <= i < |log + [w]| ==> OnSeen(env, req, log + [w], i)
  {
    assert (log + [w])[..|log|] == log && (log + [w])[|log|] == w;
    forall i | |log| <= i < |log + [w]| ensures OnSeen(env, req, log + [w], i) {
      assert i == |log|;
    }
  }

  // ----- the program

  /** What the call's own publishing leaves in storage. */
  class Bucket {
    var stored: Revisions

    /** Publishes a revision; it is stored or it is not. */
    method Publish(w: Written, outcome: WriteOutcome)
      modifies this
      ensures stored == if Lands(outcome) then old(stored)[w.rev := w.state] else old(stored)
    {
      if Lands(outcome) {
        stored := stored[w.rev := w.state];
      }
    }
  }

  /** The session opened at interaction `session`. */
  method OpenSession(env: Surroundings, session: nat) returns (s: Session)
    requires Openable(env.genesis, env.at(session))
    ensures fresh(s) && fresh(s.view)
    ensures s.Valid() && s.view.verified == env.at(session).vs && s.head == env.at(session).head && s.self == env.self
  {
    var m := env.at(session);
    assert m.head in HeadSet(ParentsOf(m.vs));
    assert Elements([m.head]) == {m.head};
    var view := new ControlView(env.genesis, m.vs, [m.head]);
    s := new Session(view, m.head, env.self);
  }

  method FetchView(env: Surroundings, k: nat, log: seq<Written>) returns (sv: StateView)
    ensures fresh(sv) && fresh(sv.graph)
    ensures sv.Valid() && sv.states == ViewAt(env, k, log) && sv.compacted == NOTHING_COMPACTED
  {
    var states := FetchLed(ServedAt(env, k, log), env.at(k).listed + OwnNames(log));
    sv := new StateView(states);
  }

  /** Loads and merges the resource. */
  method ReadAt(env: Surroundings, session: nat, k: nat, log: seq<Written>, choices: map<string, Choice>,
                ghost rank: Digest -> nat)
    returns (x: ReadStep)
    requires Openable(env.genesis, env.at(session)) && Ranked(RevisionParents(ViewAt(env, k, log)), rank)
    ensures Reads(env, session, k, log, choices, x)
  {
    if !env.at(k).available {
      return ReadFailed;
    }
    var s := OpenSession(env, session);
    var sv := FetchView(env, k, log);
    var r := ReadResource(s, sv, env.at(k).accepted, env.at(k).records, PlainWith(env, log), choices, rank);
    assert s.JudgeWith(env.at(k).accepted) == JudgeAt(env, session, k);
    x := StepOf(r);
  }

  /** Looks once more just before publishing. */
  method SecondLook(env: Surroundings, a: nat, session: nat, log: seq<Written>, ghost rank: Digest -> nat)
    returns (latest: Option<seq<Digest>>)
    requires Openable(env.genesis, env.at(session)) && Ranked(RevisionParents(ViewAt(env, 3 * a + 1, log)), rank)
    ensures latest == LatestHeads(env, a, session, log)
  {
    var k := 3 * a + 1;
    if !env.at(k).available {
      return None;
    }
    var s := OpenSession(env, session);
    var sv := FetchView(env, k, log);
    var load := LoadView(sv, env.at(k).accepted.heads, env.at(k).records);
    if !load.Loaded? {
      return None;
    }
    var heads := s.TrustedHeads(sv, env.at(k).accepted, rank);
    IsListing(heads);
    assert s.JudgeWith(env.at(k).accepted) == JudgeAt(env, session, k);
    latest := Some(heads);
  }

  /** Whether one of the call's revisions is among what the read's heads lead to. */
  method PublishedInRead(view: Revisions, heads: seq<Digest>, log: seq<Written>) returns (covered: bool)
    ensures covered <==> Covered(view, heads, log)
  {
    ghost var P := RevisionParents(view);
    var g := new Graph.From(RevisionParents(view));
    for i := 0 to |heads|
      invariant g.parents == P
      invariant forall k, m :: 0 <= k < i && 0 <= m < |log| ==> !Reach(P, heads[k], log[m].rev)
    {
      var anc := g.Ancestors(heads[i]);
      for m := 0 to |log|
        invariant g.parents == P && anc == Anc(P, heads[i])
        invariant forall n :: 0 <= n < m ==> !Reach(P, heads[i], log[n].rev)
      {
        if log[m].rev in anc {
          assert heads[i] in heads && Reach(P, heads[i], log[m].rev);
          return true;
        }
        if Reach(P, heads[i], log[m].rev) {
          ReachEnds(P, heads[i], log[m].rev);
        }
      }
    }
    covered := false;
  }

  /** The part of an attempt between its read and its write, for a resource that has revisions. */
  method Prepare(env: Surroundings, req: Request, a: nat, session: nat, log: seq<Written>, x: ReadStep,
                 ghost rank: Digest -> nat)
    returns (r: Attempt)
    requires Openable(env.genesis, env.at(session)) && Ranked(RevisionParents(ViewAt(env, 3 * a + 1, log)), rank)
    requires x.Got?
    ensures r == Decide(env, req, a, session, log, x)
  {
    if (req.seen.Some? && req.seen.value != x.heads) || |x.conflicts| > 0 {
      return Nothing(Error);
    }
    var view := FetchLed(ServedAt(env, 3 * a, log), env.at(3 * a).listed + OwnNames(log));
    var covered := PublishedInRead(view, x.heads, log);
    var c := ContentOf(req.change, covered, x.secrets, x.heads);
    if c.Halt? {
      return Nothing(c.outcome);
    }
    var latest := SecondLook(env, a, session, log, rank);
    if latest.None? {
      return Nothing(Error);
    }
    r := if latest.value != x.heads then TryAgain else Publish(Make(env, a, session, x.heads, x.secrets, c.secrets));
  }

  /** The part of an attempt between its read and its write, when nothing could be read. */
  method PrepareNew(env: Surroundings, req: Request, a: nat, session: nat, log: seq<Written>, x: ReadStep)
    returns (r: Attempt)
    requires !x.Got?
    ensures r == Decide(env, req, a, session, log, x)
  {
    if x.ReadFailed? {
      return Nothing(Error);
    }
    if req.op.Sync? || req.op.Delete? {
      return Nothing(Done);
    }
    if req.op.Edit? || req.op.Resolve? {
      return Nothing(Error);
    }
    var c := ContentOf(req.change, false, map[], []);
    r := if c.Halt? then Nothing(c.outcome) else Publish(Make(env, a, session, [], map[], c.secrets));
  }

  lemma Sessions(env: Surroundings, rank: Digest -> nat, a: nat, session: nat, log: seq<Written>)
    requires Steady(env, rank) && LogInv(env, rank, a, session, log)
    ensures Openable(env.genesis, env.at(session))
    ensures Ranked(RevisionParents(ViewAt(env, 3 * a, log)), rank) &&
            Ranked(RevisionParents(ViewAt(env, 3 * a + 1, log)), rank)
  {
    ViewRanked(env, rank, 3 * a, log);
    ViewRanked(env, rank, 3 * a + 1, log);
  }

  /** One attempt, from reading to publishing. */
  method OneAttempt(bucket: Bucket, env: Surroundings, req: Request, a: nat, session: nat, log: seq<Written>,
                    ghost rank: Digest -> nat)
    returns (ghost x: ReadStep, v: Verdict, next: seq<Written>)
    requires Steady(env, rank) && LogInv(env, rank, a, session, log)
    modifies bucket
    ensures Reads(env, session, 3 * a, log, req.choices, x)
    ensures var r := Decide(env, req, a, session, log, x);
            v == VerdictOf(env, req, a, session, r) && next == Logged(env, a, log, r)
    ensures bucket.stored ==
              if next == log then old(bucket.stored) else old(bucket.stored)[next[|log|].rev := next[|log|].state]
    ensures next == log || (|next| == |log| + 1 && next[..|log|] == log)
  {
    Sessions(env, rank, a, session, log);
    var read := ReadAt(env, session, 3 * a, log, req.choices, rank);
    x := read;
    var r;
    if read.Got? {
      r := Prepare(env, req, a, session, log, read, rank);
    } else {
      r := PrepareNew(env, req, a, session, log, read);
    }
    if r.Publish? {
      bucket.Publish(r.w, env.at(3 * a + 2).write);
    }
    v, next := VerdictOf(env, req, a, session, r), Logged(env, a, log, r);
  }

  /** However the rest of the call ends, the whole call ends so. */
  ghost predicate LeadsTo(env: Surroundings, req: Request, a: nat, session: nat, log: seq<Written>) {
    forall o, f :: Runs(env, req, a, session, log, o, f) ==> Runs(env, req, 0, 0, [], o, f)
  }

  lemma StepLeads(env: Surroundings, req: Request, a: nat, session: nat, log: seq<Written>, x: ReadStep)
    requires a < Attempts(req.op) && LeadsTo(env, req, a, session, log) &&
             Reads(env, session, 3 * a, log, req.choices, x)
    ensures var r := Decide(env, req, a, session, log, x);
            var next := Logged(env, a, log, r);
            match VerdictOf(env, req, a, session, r)
            case Stop(o) => Runs(env, req, 0, 0, [], o, next)
            case GoOn(s) => LeadsTo(env, req, a + 1, s, next)
  {
    var r := Decide(env, req, a, session, log, x);
    var next := Logged(env, a, log, r);
    match VerdictOf(env, req, a, session, r)
    case Stop(o) =>
      assert Continues(env, req, a, session, log, x, o, next);
      assert Runs(env, req, a, session, log, o, next);
    case GoOn(s) =>
      forall o, f | Runs(env, req, a + 1, s, next, o, f) ensures Runs(env, req, 0, 0, [], o, f) {
        assert Continues(env, req, a, session, log, x, o, f);
        assert Runs(env, req, a, session, log, o, f);
      }
  }

  lemma StoredNext(before: Revisions, log: seq<Written>, next: seq<Written>, stored: Revisions)
    requires next == log || (|next| == |log| + 1 && next[..|log|] == log)
    requires stored == if next == log then before + OwnStates(log)
             else (before + OwnStates(log))[next[|log|].rev := next[|log|].state]
    ensures stored == before + OwnStates(next)
  {
    if next != log {
      assert next[..|next| - 1] == log;
    }
  }

  /** Applies one change to a resource. The call is a run of its attempts, and leaves in
      storage exactly the revisions of its log. */
  method ChangeResource(bucket: Bucket, env: Surroundings, req: Request, ghost rank: Digest -> nat)
    returns (outcome: Outcome, log: seq<Written>)
    requires Steady(env, rank)
    modifies bucket
    ensures Runs(env, req, 0, 0, [], outcome, log)
    ensures bucket.stored == old(bucket.stored) + OwnStates(log)
  {
    var session: nat := 0;
    log := [];
    ghost var before := bucket.stored;
    StartInv(env, rank, req);
    assert before + OwnStates([]) == before;
    for a := 0 to Attempts(req.op)
      invariant Kept(env, rank, req, a, session, log)
      invariant LeadsTo(env, req, a, session, log)
      invariant bucket.stored == before + OwnStates(log)
    {
      ghost var x;
      var v, next;
      x, v, next := OneAttempt(bucket, env, req, a, session, log, rank);
      StepLeads(env, req, a, session, log, x);
      StoredNext(before, log, next, bucket.stored);
      if v.Stop? {
        return v.outcome, next;
      }
      NextSession(env, req, a, session, Decide(env, req, a, session, log, x));
      AttemptKeeps(env, rank, req, a, session, log, x, v.session);
      session, log := v.session, next;
    }
    assert Runs(env, req, Attempts(req.op), session, log, OutOfAttempts, log);
    outcome := OutOfAttempts;
  }
}
