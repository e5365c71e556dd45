/** Founding a workspace and pinning its root (app/init.go). */
module Founding {
  import opened Orders
  import opened Digests

  /** What a checkout trusts: the workspace called so, as founded by this genesis Control. */
  datatype Root = Root(workspace: string, genesis: Digest)

  /** A pin file: missing, unreadable, or holding a root. */
  datatype Pin = NoPin | CorruptPin | Pinned(root: Root)

  /** Pins are kept per workspace and per checkout. */
  datatype PinKey = OfWorkspace(workspace: string) | OfRepository(path: string)

  /** What a founding record file holds; `genuine` says its signed bytes verify as the genesis its root names. */
  datatype Record =
    | Garbage
    | Record(root: Root, repository: string, previous: Pin, genuine: bool)

  datatype Config = Config(workspace: string, genesis: Option<Digest>)

  /** What outlives a crash: enbu.toml, this checkout's founding records, the device's pins, and storage.
      `published` is the history of the genesis Controls this checkout published. */
  datatype Disk = Disk(config: Config, pending: map<Root, Record>, pins: map<PinKey, Pin>,
                       controls: set<Root>, requests: set<Digest>, published: set<Root>)

  /** One durable write. */
  datatype Write =
    | SaveRecord(record: Record)
    | SaveConfig(genesis: Digest)
    | PublishGenesis(root: Root)
    | SetPin(key: PinKey, root: Root)
    | DropRecord(root: Root)

  function PinAt(pins: map<PinKey, Pin>, key: PinKey): Pin {
    if key in pins then pins[key] else NoPin
  }

  function Written(d: Disk, w: Write): Disk {
    match w
    case SaveRecord(r) => if r.Record? then d.(pending := d.pending[r.root := r]) else d
    case SaveConfig(g) => d.(config := d.config.(genesis := Some(g)))
    case PublishGenesis(root) => d.(controls := d.controls + {root}, published := d.published + {root})
    case SetPin(key, root) => d.(pins := d.pins[key := Pinned(root)])
    case DropRecord(root) => d.(pending := d.pending - {root})
  }

  function AllWritten(d: Disk, ws: seq<Write>): Disk {
    if ws == [] then d else Written(AllWritten(d, ws[..|ws| - 1]), ws[|ws| - 1])
  }

  lemma WrittenNext(d: Disk, ws: seq<Write>, w: Write)
    ensures AllWritten(d, ws + [w]) == Written(AllWritten(d, ws), w)
  {
    assert (ws + [w])[..|ws|] == ws;
  }

  datatype Outcome =
    | Refused
    | Stopped // the process died before its next durable write
    | Finished(founded: bool, replaced: Option<Root>)

  /** Everything one run of init would write, in order, and how it would end. */
  datatype Course = Course(writes: seq<Write>, outcome: Outcome)

  // ----- pinning

  /** What a compare-and-set of a pin file does: `expected` is the only pin that may be replaced, when given. */
  function PinOutcome(pin: Pin, root: Root, replace: bool, expected: Option<Pin>): (allowed: bool)
    ensures expected.Some? && allowed ==> pin == Pinned(root) || pin == expected.value
    ensures !replace && allowed ==> pin == Pinned(root) || pin == NoPin
  {
    if pin.CorruptPin? && (!replace || expected.Some?) then false
    else if pin == Pinned(root) then true
    else if expected.Some? && pin != expected.value then false
    else pin == NoPin || replace
  }

  predicate Agrees(pin: Pin, root: Root) {
    pin == NoPin || pin == Pinned(root)
  }

  function PinWrites(key: PinKey, pin: Pin, root: Root): seq<Write> {
    if pin == Pinned(root) then [] else [SetPin(key, root)]
  }

  function Previous(wp: Pin, rp: Pin, root: Root): Option<Root> {
    if wp.Pinned? && wp.root != root then Some(wp.root)
    else if rp.Pinned? && rp.root != root then Some(rp.root)
    else None
  }

  // ----- what a run of init amounts to

  predicate ValidRecord(r: Record, root: Root, path: string) {
    r.Record? && r.root == root && r.repository == path && r.genuine
  }

  /** A run that finds no genesis in enbu.toml founds one, if nothing is trusted and storage is empty. */
  function FoundingCourse(d: Disk, path: string, accept: bool, made: Digest): Course
  {
    var root := Root(d.config.workspace, made);
    var rp := PinAt(d.pins, OfRepository(path));
    if accept || PinAt(d.pins, OfWorkspace(root.workspace)) != NoPin || d.controls != {} || d.requests != {} ||
       rp == CorruptPin then
      Course([], Refused)
    else
      Course([SaveRecord(Record(root, path, rp, true)), SaveConfig(made), PublishGenesis(root),
              SetPin(OfWorkspace(root.workspace), root)]
             + PinWrites(OfRepository(path), rp, root) + [DropRecord(root)],
             Finished(true, None))
  }

  /** A run that finds a genesis and this checkout's founding record for it
      publishes the recorded bytes again if it must. */
  function RecoveryCourse(d: Disk, path: string, accept: bool, root: Root): Course
    requires root in d.pending
  {
    var wp, rp := PinAt(d.pins, OfWorkspace(root.workspace)), PinAt(d.pins, OfRepository(path));
    var r := d.pending[root];
    if !ValidRecord(r, root, path) || wp == CorruptPin || rp == CorruptPin then Course([], Refused)
    else if !accept && (!Agrees(wp, root) || (rp != Pinned(root) && rp != r.previous)) then Course([], Refused)
    else if wp == Pinned(root) && root !in d.controls then Course([], Refused)
    else
      var founded := !accept && (wp != Pinned(root) || rp != Pinned(root));
      Course((if wp != Pinned(root) then [PublishGenesis(root)] else [])
             + PinWrites(OfWorkspace(root.workspace), wp, root) + PinWrites(OfRepository(path), rp, root) +
               [DropRecord(root)],
             Finished(founded, if founded then None else Previous(wp, rp, root)))
  }

  /** Verifying a genesis trusts it on first use, or again; only a person's confirmation replaces a pin, or `founding`,
      the repository pin that a founding record authorizes to replace. */
  function VerifyCourse(d: Disk, path: string, accept: bool, root: Root, founding: Option<Pin>): Course {
    var wp, rp := PinAt(d.pins, OfWorkspace(root.workspace)), PinAt(d.pins, OfRepository(path));
    var first := PinWrites(OfWorkspace(root.workspace), wp, root);
    if !accept && (!Agrees(wp, root) || (founding.None? && !Agrees(rp, root))) then Course([], Refused)
    else if root !in d.controls then Course([], Refused)
    else if founding.Some? && rp != Pinned(root) && (rp == CorruptPin || rp != founding.value)
      then Course(first, Refused)
    else Course(first + PinWrites(OfRepository(path), rp, root),
                Finished(founding.Some?, if founding.Some? then None else Previous(wp, rp, root)))
  }

  function InitCourse(d: Disk, path: string, accept: bool, made: Digest): Course {
    if d.config.genesis.None? then FoundingCourse(d, path, accept, made)
    else
      var root := Root(d.config.workspace, d.config.genesis.value);
      if root in d.pending then RecoveryCourse(d, path, accept, root) else VerifyCourse(d, path, accept, root, None)
  }

  /** What a run leaves behind when it dies after `steps` durable writes. */
  function AfterInit(d: Disk, path: string, accept: bool, made: Digest, steps: nat): Disk {
    var ws := InitCourse(d, path, accept, made).writes;
    AllWritten(d, if steps <= |ws| then ws[..steps] else ws)
  }

  // ----- the program

  /** From `d`, a process with `n` durable writes left set out to make `ws`: it
      made them all, or died after the first `n`. */
  ghost predicate Did(d: Disk, n: nat, ws: seq<Write>, d2: Disk, n2: nat, alive: bool) {
    && (alive <==> |ws| <= n)
    && d2 == AllWritten(d, if alive then ws else ws[..n])
    && n2 == if alive then n - |ws| else 0
  }

  lemma {:induction false} AllWrittenThen(d: Disk, a: seq<Write>, b: seq<Write>)
    ensures AllWritten(AllWritten(d, a), b) == AllWritten(d, a + b)
  {
    if b == [] {
      assert a + b == a;
    } else {
      var c := b[..|b| - 1];
      AllWrittenThen(d, a, c);
      assert (a + b)[..|a + b| - 1] == a + c;
    }
  }

  lemma DidThen(d: Disk, n: nat, a: seq<Write>, d1: Disk, n1: nat, b: seq<Write>, d2: Disk, n2: nat, alive: bool)
    requires Did(d, n, a, d1, n1, true) && Did(d1, n1, b, d2, n2, alive)
    ensures Did(d, n, a + b, d2, n2, alive)
  {
    var made := if alive then b else b[..n1];
    AllWrittenThen(d, a, made);
    assert !alive ==> (a + b)[..n] == a + made;
  }

  lemma DiedBefore(d: Disk, n: nat, a: seq<Write>, d1: Disk, n1: nat, b: seq<Write>)
    requires Did(d, n, a, d1, n1, false)
    ensures Did(d, n, a + b, d1, n1, false)
  {
    assert (a + b)[..n] == a[..n];
  }

  /** A checkout on a device, with a process that dies when it has made `left` more durable writes. */
  class Checkout {
    const path: string
    var config: Config
    var pending: map<Root, Record>
    var pins: map<PinKey, Pin>
    var controls: set<Root>
    var requests: set<Digest>
    ghost var published: set<Root>
    var left: nat

    ghost function OnDisk(): Disk
      reads this
    {
      Disk(config, pending, pins, controls, requests, published)
    }

    /** Makes one durable write, unless the process has died. */
    method Put(w: Write) returns (alive: bool)
      modifies this
      ensures Did(old(OnDisk()), old(left), [w], OnDisk(), left, alive)
    {
      WrittenNext(OnDisk(), [], w);
      assert [] + [w] == [w];
      if left == 0 {
        return false;
      }
      left := left - 1;
      match w {
        case SaveRecord(r) => if r.Record? { pending := pending[r.root := r]; }
        case SaveConfig(g) => config := config.(genesis := Some(g));
        case PublishGenesis(root) => controls := controls + {root}; published := published + {root};
        case SetPin(key, root) => pins := pins[key := Pinned(root)];
        case DropRecord(root) => pending := pending - {root};
      }
      alive := true;
    }

    /** Reports whether another root is pinned, or the pin cannot be read. */
    method Check(key: PinKey, root: Root) returns (ok: bool)
      ensures ok <==> Agrees(PinAt(pins, key), root)
    {
      var pin := PinAt(pins, key);
      if pin == CorruptPin {
        return false;
      }
      ok := !(pin != NoPin && pin != Pinned(root));
    }

    /** Compare-and-set of a pin. */
    method PinRoot(key: PinKey, root: Root, replace: bool, expected: Option<Pin>)
      returns (allowed: bool, alive: bool, previous: Pin)
      modifies this
      ensures previous == PinAt(old(pins), key)
      ensures allowed == PinOutcome(previous, root, replace, expected)
      ensures Did(old(OnDisk()), old(left), if allowed then PinWrites(key, previous, root) else [], OnDisk(), left,
                  alive)
    {
      previous, alive, allowed := PinAt(pins, key), true, false;
      if previous == CorruptPin && (!replace || expected.Some?) {
        return;
      }
      if previous == Pinned(root) {
        allowed := true;
        return;
      }
      if (expected.Some? && previous != expected.value) || (previous != NoPin && !replace) {
        return;
      }
      allowed := true;
      alive := Put(SetPin(key, root));
    }

    /** Verifies that storage holds the trusted genesis, and pins it. `founding` is the
        repository pin that founding may replace. */
    method VerifyControl(root: Root, accept: bool, founding: Option<Pin>) returns (r: Outcome)
      requires founding.Some? ==> !accept
      modifies this
      ensures var course := VerifyCourse(old(OnDisk()), path, accept, root, founding);
              && Did(old(OnDisk()), old(left), course.writes, OnDisk(), left, r != Stopped)
              && (r != Stopped ==> r == course.outcome)
    {
      var key, repo := OfWorkspace(root.workspace), OfRepository(path);
      if !accept {
        var ok := Check(key, root);
        if !ok {
          return Refused;
        }
        if founding.None? {
          ok := Check(repo, root);
          if !ok {
            return Refused;
          }
        }
      }
      if root !in controls {
        return Refused;
      }
      ghost var d, n := OnDisk(), left;
      ghost var first, second := PinWrites(key, PinAt(pins, key), root), PinWrites(repo, PinAt(pins, repo), root);
      var allowed, alive, previous := PinRoot(key, root, accept, None);
      if !alive {
        DiedBefore(d, n, first, OnDisk(), left, second);
        return Stopped;
      }
      ghost var d1, n1 := OnDisk(), left;
      assert PinAt(pins, repo) == PinAt(d.pins, repo) by { OtherPins(d, key, root, repo); }
      var previous2;
      allowed, alive, previous2 := PinRoot(repo, root, accept || founding.Some?, founding);
      if !allowed {
        return Refused;
      }
      DidThen(d, n, first, d1, n1, second, OnDisk(), left, alive);
      if !alive {
        return Stopped;
      }
      var replaced := None;
      if founding.None? {
        if previous.Pinned? && previous.root != root {
          replaced := Some(previous.root);
        } else if previous2.Pinned? && previous2.root != root {
          replaced := Some(previous2.root);
        }
      }
      r := Finished(founding.Some?, replaced);
    }

    /** Records the founding, then names the new genesis in enbu.toml. */
    method Found(made: Digest) returns (r: Outcome)
      requires config.genesis.None?
      modifies this
      ensures var d := old(OnDisk());
              var course := FoundingCourse(d, path, false, made);
              && (r == Refused <==> course.outcome == Refused)
              && (r == Refused ==> OnDisk() == d && left == old(left))
              && (r != Refused ==> Did(d, old(left), RecordWrites(d, path, made), OnDisk(), left, r != Stopped))
    {
      var repo := OfRepository(path);
      if PinAt(pins, OfWorkspace(config.workspace)) != NoPin || controls != {} || requests != {} ||
         PinAt(pins, repo) == CorruptPin {
        return Refused;
      }
      ghost var d, n := OnDisk(), left;
      var root := Root(config.workspace, made);
      var save := SaveRecord(Record(root, path, PinAt(pins, repo), true));
      assert [save] + [SaveConfig(made)] == RecordWrites(d, path, made);
      var alive := Put(save);
      if !alive {
        DiedBefore(d, n, [save], OnDisk(), left, [SaveConfig(made)]);
        return Stopped;
      }
      ghost var d1, n1 := OnDisk(), left;
      alive := Put(SaveConfig(made));
      DidThen(d, n, [save], d1, n1, [SaveConfig(made)], OnDisk(), left, alive);
      r := if alive then Finished(true, None) else Stopped;
    }

    /** Finishes the founding that this checkout recorded. */
    method Recover(root: Root, accept: bool) returns (r: Outcome)
      requires root in pending
      modifies this
      ensures var course := RecoveryCourse(old(OnDisk()), path, accept, root);
              && Did(old(OnDisk()), old(left), course.writes, OnDisk(), left, r != Stopped)
              && (r != Stopped ==> r == course.outcome)
    {
      var wp, rp, record := PinAt(pins, OfWorkspace(root.workspace)), PinAt(pins, OfRepository(path)), pending[root];
      if !ValidRecord(record, root, path) || wp == CorruptPin {
        return Refused;
      }
      if !accept && wp != NoPin && wp != Pinned(root) {
        return Refused;
      }
      if rp == CorruptPin || (!accept && rp != Pinned(root) && rp != record.previous) {
        return Refused;
      }
      ghost var d, n := OnDisk(), left;
      ghost var course := RecoveryCourse(d, path, accept, root);
      var founded := !accept && (wp != Pinned(root) || rp != Pinned(root));
      var founding := if founded then Some(record.previous) else None;
      RecoveryParts(d, path, accept, root);
      ghost var publish, rest := PublishWrites(d, root),
                                 CommitCourse(AllWritten(d, PublishWrites(d, root)), path, accept, root,
                                              founding).writes;
      var alive := true;
      if wp != Pinned(root) {
        alive := Put(PublishGenesis(root));
      }
      if !alive {
        DiedBefore(d, n, publish, OnDisk(), left, rest);
        return Stopped;
      }
      ghost var d1, n1 := OnDisk(), left;
      r := Commit(root, accept, founding);
      DidThen(d, n, publish, d1, n1, rest, OnDisk(), left, r != Stopped);
    }

    /** Verifies and pins, then drops the founding record. */
    method Commit(root: Root, accept: bool, founding: Option<Pin>) returns (r: Outcome)
      requires founding.Some? ==> !accept
      modifies this
      ensures var course := CommitCourse(old(OnDisk()), path, accept, root, founding);
              && Did(old(OnDisk()), old(left), course.writes, OnDisk(), left, r != Stopped)
              && (r != Stopped ==> r == course.outcome)
    {
      ghost var d, n, verify := OnDisk(), left, VerifyCourse(OnDisk(), path, accept, root, founding);
      r := VerifyControl(root, accept, founding);
      ghost var d1, n1 := OnDisk(), left;
      if r == Refused || r == Stopped {
        if r == Stopped && verify.outcome != Refused {
          DiedBefore(d, n, verify.writes, d1, n1, [DropRecord(root)]);
        }
        return;
      }
      var alive := Put(DropRecord(root));
      DidThen(d, n, verify.writes, d1, n1, [DropRecord(root)], OnDisk(), left, alive);
      if !alive {
        r := Stopped;
      }
    }

    /** Verifies the trusted genesis, founding it first when there is none: a new one, or the one this checkout recorded. */
    method EnsureControl(accept: bool, made: Digest) returns (r: Outcome)
      modifies this
      ensures var course := InitCourse(old(OnDisk()), path, accept, made);
              && Did(old(OnDisk()), old(left), course.writes, OnDisk(), left, r != Stopped)
              && (r != Stopped ==> r == course.outcome)
      ensures old(left) >= 6 ==> r != Stopped
      // a genesis is named and this checkout has no founding record of it
      ensures var root := RootOf(old(OnDisk()), made);
              var wp, rp := PinAt(old(pins), OfWorkspace(root.workspace)), PinAt(old(pins), OfRepository(path));
              r != Stopped && old(config).genesis.Some? && root !in old(pending) ==>
                (r.Finished? <==>
                   && root in old(controls)
                   && (accept || ((wp == NoPin || wp == Pinned(root)) && (rp == NoPin || rp == Pinned(root)))))
      // it has a founding record of it
      ensures var root := RootOf(old(OnDisk()), made);
              var wp, rp := PinAt(old(pins), OfWorkspace(root.workspace)), PinAt(old(pins), OfRepository(path));
              r != Stopped && old(config).genesis.Some? && root in old(pending) ==>
                (r.Finished? <==>
                   && old(pending)[root].Record? && old(pending)[root].root == root
                   && old(pending)[root].repository == path && old(pending)[root].genuine
                   && wp != CorruptPin && rp != CorruptPin && (wp == Pinned(root) ==> root in old(controls))
                   && (accept || ((wp == NoPin || wp == Pinned(root))
                                  && (rp == Pinned(root) || rp == old(pending)[root].previous))))
      // none is named
      ensures var root := RootOf(old(OnDisk()), made);
              r != Stopped && old(config).genesis.None? ==>
                (r.Finished? <==>
                   && !accept && old(controls) == {} && old(requests) == {}
                   && PinAt(old(pins), OfWorkspace(root.workspace)) == NoPin
                   && PinAt(old(pins), OfRepository(path)) != CorruptPin)
      // what is left and what is reported
      ensures r.Refused? ==> OnDisk() == old(OnDisk())
      ensures r.Finished? ==>
                var root := RootOf(old(OnDisk()), made);
                && config == Config(root.workspace, Some(root.genesis)) && root in controls
                && controls == old(controls) + {root} && pending == old(pending) - {root} && requests == old(requests)
                && forall k :: PinAt(pins, k) ==
                     if k == OfWorkspace(root.workspace) || k == OfRepository(path) then Pinned(root)
                     else PinAt(old(pins), k)
      ensures r.Finished? ==>
                var root := RootOf(old(OnDisk()), made);
                var wp, rp := PinAt(old(pins), OfWorkspace(root.workspace)), PinAt(old(pins), OfRepository(path));
                && (r.founded <==>
                      || old(config).genesis.None?
                      || (root in old(pending) && !accept && (wp != Pinned(root) || rp != Pinned(root))))
                && r.replaced ==
                     if r.founded then None
                     else if wp.Pinned? && wp.root != root then Some(wp.root)
                     else if rp.Pinned? && rp.root != root then Some(rp.root) else None
    {
      ghost var d, n := OnDisk(), left;
      r := RunInit(accept, made);
      CourseEnds(d, path, accept, made);
      CourseLeaves(d, path, accept, made);
      ghost var ws := InitCourse(d, path, accept, made).writes;
      assert r == Refused ==> ws == [] && AllWritten(d, ws) == d;
    }

    /** The run itself. */
    method RunInit(accept: bool, made: Digest) returns (r: Outcome)
      modifies this
      ensures var course := InitCourse(old(OnDisk()), path, accept, made);
              && Did(old(OnDisk()), old(left), course.writes, OnDisk(), left, r != Stopped)
              && (r != Stopped ==> r == course.outcome)
    {
      ghost var d, n := OnDisk(), left;
      if config.genesis == None {
        if accept {
          return Refused;
        }
        r := Found(made);
        if r == Refused {
          return;
        }
        ghost var d1, n1 := OnDisk(), left;
        ghost var record := RecordWrites(d, path, made);
        FoundingIsRecovery(d, path, made);
        ghost var rest := RecoveryCourse(AllWritten(d, record), path, false, Root(d.config.workspace, made)).writes;
        if r == Stopped {
          DiedBefore(d, n, record, d1, n1, rest);
          return;
        }
        r := Recover(Root(config.workspace, made), false);
        DidThen(d, n, record, d1, n1, rest, OnDisk(), left, r != Stopped);
        return;
      }
      var root := Root(config.workspace, config.genesis.value);
      if root in pending {
        r := Recover(root, accept);
      } else {
        r := VerifyControl(root, accept, None);
      }
    }
  }

  function RecordWrites(d: Disk, path: string, made: Digest): seq<Write> {
    [SaveRecord(Record(Root(d.config.workspace, made), path, PinAt(d.pins, OfRepository(path)), true)),
     SaveConfig(made)]
  }

  function CommitCourse(d: Disk, path: string, accept: bool, root: Root, founding: Option<Pin>): Course {
    var verify := VerifyCourse(d, path, accept, root, founding);
    if verify.outcome == Refused then verify else Course(verify.writes + [DropRecord(root)], verify.outcome)
  }

  function PublishWrites(d: Disk, root: Root): seq<Write> {
    if PinAt(d.pins, OfWorkspace(root.workspace)) != Pinned(root) then [PublishGenesis(root)] else []
  }

  /** A recovery publishes if it must and then commits. */
  lemma RecoveryParts(d: Disk, path: string, accept: bool, root: Root)
    requires root in d.pending && ValidRecord(d.pending[root], root, path)
    requires var wp, rp := PinAt(d.pins, OfWorkspace(root.workspace)), PinAt(d.pins, OfRepository(path));
             wp != CorruptPin && rp != CorruptPin &&
             (accept || (Agrees(wp, root) && (rp == Pinned(root) || rp == d.pending[root].previous)))
    ensures var wp, rp := PinAt(d.pins, OfWorkspace(root.workspace)), PinAt(d.pins, OfRepository(path));
            var founding := if !accept && (wp != Pinned(root) || rp != Pinned(root))
                            then Some(d.pending[root].previous) else None;
            var commit := CommitCourse(AllWritten(d, PublishWrites(d, root)), path, accept, root, founding);
            var course := RecoveryCourse(d, path, accept, root);
            PublishWrites(d, root) + commit.writes == course.writes && commit.outcome == course.outcome
  {
    WrittenNext(d, [], PublishGenesis(root));
    assert [] + [PublishGenesis(root)] == [PublishGenesis(root)];
    assert AllWritten(d, PublishWrites(d, root)).pins == d.pins;
  }

  /** Once recorded, a founding goes on exactly as a recovery of it would. */
  lemma FoundingIsRecovery(d: Disk, path: string, made: Digest)
    requires d.config.genesis.None?
    requires FoundingCourse(d, path, false, made).outcome != Refused
    ensures var d1 := AllWritten(d, RecordWrites(d, path, made));
            var root := Root(d.config.workspace, made);
            && d1.config == d.config.(genesis := Some(made)) && root in d1.pending
            && RecordWrites(d, path, made) + RecoveryCourse(d1, path, false, root).writes ==
                 FoundingCourse(d, path, false, made).writes
            && RecoveryCourse(d1, path, false, root).outcome == FoundingCourse(d, path, false, made).outcome
  {
    var ws := RecordWrites(d, path, made);
    WrittenNext(d, [], ws[0]);
    WrittenNext(d, [ws[0]], ws[1]);
    assert [] + [ws[0]] == [ws[0]] && [ws[0]] + [ws[1]] == ws;
    assert AllWritten(d, ws) == Written(Written(d, ws[0]), ws[1]);
  }

  lemma OtherPins(d: Disk, key: PinKey, root: Root, other: PinKey)
    requires key != other
    ensures PinAt(AllWritten(d, PinWrites(key, PinAt(d.pins, key), root)).pins, other) == PinAt(d.pins, other)
  {
    WrittenNext(d, [], SetPin(key, root));
    assert [] + [SetPin(key, root)] == [SetPin(key, root)];
  }

  // ----- pins

  ghost predicate SetsPin(ws: seq<Write>, key: PinKey) {
    exists w :: w in ws && w.SetPin? && w.key == key
  }

  ghost predicate PinsOnly(ws: seq<Write>, root: Root) {
    forall w :: w in ws && w.SetPin? ==> w.root == root
  }

  lemma {:induction false} PinsAfter(d: Disk, ws: seq<Write>, root: Root, key: PinKey)
    requires PinsOnly(ws, root)
    ensures var pin := PinAt(AllWritten(d, ws).pins, key);
            if SetsPin(ws, key) then pin == Pinned(root) else pin == PinAt(d.pins, key)
  {
    if ws != [] {
      var front, w := ws[..|ws| - 1], ws[|ws| - 1];
      assert ws == front + [w] && w in ws;
      assert forall v :: v in front ==> v in ws;
      PinsAfter(d, front, root, key);
      assert SetsPin(ws, key) <==> SetsPin(front, key) || (w.SetPin? && w.key == key);
    }
  }

  /** The root a run works on: the one enbu.toml names, or the one it founds. */
  function RootOf(d: Disk, made: Digest): Root {
    Root(d.config.workspace, if d.config.genesis.Some? then d.config.genesis.value else made)
  }

  /** A founding record, or a founding under way, names the repository pin it may replace. */
  ghost predicate Authorized(d: Disk, path: string, root: Root) {
    || d.config.genesis.None?
    || (root in d.pending && d.pending[root] == Record(root, path, PinAt(d.pins, OfRepository(path)), true))
  }

  /** Why a run that nobody confirmed may set this pin. */
  ghost predicate MaySet(d: Disk, path: string, root: Root, key: PinKey) {
    var pin := PinAt(d.pins, key);
    pin == NoPin || (key == OfRepository(path) && pin != CorruptPin && Authorized(d, path, root))
  }

  lemma SetsAfterPinWrites(key: PinKey, pin: Pin, root: Root)
    ensures PinsOnly(PinWrites(key, pin, root), root)
    ensures forall k :: SetsPin(PinWrites(key, pin, root), k) ==> k == key && pin != Pinned(root)
    ensures pin != Pinned(root) ==> SetsPin(PinWrites(key, pin, root), key)
    ensures forall w :: w in PinWrites(key, pin, root) ==> w.SetPin?
  {
    if pin != Pinned(root) {
      assert SetPin(key, root) in PinWrites(key, pin, root);
    }
  }

  lemma SetsAppend(a: seq<Write>, b: seq<Write>, root: Root)
    requires PinsOnly(a, root) && PinsOnly(b, root)
    ensures PinsOnly(a + b, root)
    ensures forall k :: SetsPin(a + b, k) <==> SetsPin(a, k) || SetsPin(b, k)
  {
    assert forall w :: w in a + b <==> w in a || w in b;
  }

  /** A verifying, recovering or founding run sets only the two pins of its root, where they differ. */
  lemma BothPinsSet(d: Disk, path: string, pre: seq<Write>, post: seq<Write>, root: Root)
    requires forall w :: w in pre + post ==> !w.SetPin?
    ensures var key, repo := OfWorkspace(root.workspace), OfRepository(path);
            var ws := pre + PinWrites(key, PinAt(d.pins, key), root) + PinWrites(repo, PinAt(d.pins, repo), root) +
                        post;
            PinsOnly(ws, root) && forall k :: SetsPin(ws, k) <==>
              (k == key || k == repo) && PinAt(d.pins, k) != Pinned(root)
  {
    var key, repo := OfWorkspace(root.workspace), OfRepository(path);
    var a, b := PinWrites(key, PinAt(d.pins, key), root), PinWrites(repo, PinAt(d.pins, repo), root);
    SetsAfterPinWrites(key, PinAt(d.pins, key), root);
    SetsAfterPinWrites(repo, PinAt(d.pins, repo), root);
    assert forall w :: w in pre || w in post ==> w in pre + post;
    SetsAppend(pre, a, root);
    SetsAppend(pre + a, b, root);
    SetsAppend(pre + a + b, post, root);
  }

  ghost predicate SetsBoth(d: Disk, path: string, ws: seq<Write>, root: Root) {
    PinsOnly(ws, root) && forall k :: SetsPin(ws, k) <==>
      (k == OfWorkspace(root.workspace) || k == OfRepository(path)) && PinAt(d.pins, k) != Pinned(root)
  }

  lemma CourseSetsBoth(d: Disk, path: string, accept: bool, made: Digest)
    ensures var course := InitCourse(d, path, accept, made);
            if course.outcome == Refused then course.writes == [] else SetsBoth(d, path, course.writes, RootOf(d, made))
  {
    var course, root := InitCourse(d, path, accept, made), RootOf(d, made);
    var key, repo := OfWorkspace(root.workspace), OfRepository(path);
    var a, b := PinWrites(key, PinAt(d.pins, key), root), PinWrites(repo, PinAt(d.pins, repo), root);
    if course.outcome != Refused {
      if d.config.genesis.None? {
        var pre := RecordWrites(d, path, made) + [PublishGenesis(root)];
        BothPinsSet(d, path, pre, [DropRecord(root)], root);
        assert pre + a + b + [DropRecord(root)] == course.writes;
      } else if root in d.pending {
        var pre := PublishWrites(d, root);
        BothPinsSet(d, path, pre, [DropRecord(root)], root);
        assert pre + a + b + [DropRecord(root)] == course.writes;
      } else {
        BothPinsSet(d, path, [], [], root);
        assert [] + a + b + [] == course.writes;
      }
    }
  }

  lemma CourseMaySet(d: Disk, path: string, made: Digest, key: PinKey)
    requires InitCourse(d, path, false, made).outcome != Refused
    requires key == OfWorkspace(RootOf(d, made).workspace) || key == OfRepository(path)
    ensures PinAt(d.pins, key) == Pinned(RootOf(d, made)) || MaySet(d, path, RootOf(d, made), key)
  {
  }

  /** Nobody confirmed a new genesis: a pin stays, or goes from none to the run's root, or is the repository pin that a
      founding record of this checkout names as its predecessor. */
  lemma PinsMoveAsAuthorized(d: Disk, path: string, made: Digest, steps: nat, key: PinKey)
    ensures var d2, root := AfterInit(d, path, false, made, steps), RootOf(d, made);
            var before, after := PinAt(d.pins, key), PinAt(d2.pins, key);
            after != before ==> after == Pinned(root) && MaySet(d, path, root, key)
  {
    var course, root := InitCourse(d, path, false, made), RootOf(d, made);
    var ws := if steps <= |course.writes| then course.writes[..steps] else course.writes;
    CourseSetsBoth(d, path, false, made);
    assert forall w :: w in ws ==> w in course.writes;
    PinsAfter(d, ws, root, key);
    if SetsPin(ws, key) {
      assert SetsPin(course.writes, key);
      CourseMaySet(d, path, made, key);
    }
  }

  ghost predicate Settled(d: Disk, path: string, root: Root) {
    && d.config == Config(root.workspace, Some(root.genesis))
    && PinAt(d.pins, OfWorkspace(root.workspace)) == Pinned(root)
    && PinAt(d.pins, OfRepository(path)) == Pinned(root)
    && root in d.controls
  }

  lemma {:induction false} KeepsConfig(d: Disk, ws: seq<Write>)
    requires forall w :: w in ws ==> !w.SaveConfig?
    ensures AllWritten(d, ws).config == d.config && d.controls <= AllWritten(d, ws).controls
    ensures forall r :: PublishGenesis(r) in ws ==> r in AllWritten(d, ws).controls
  {
    if ws != [] {
      var front, w := ws[..|ws| - 1], ws[|ws| - 1];
      assert ws == front + [w] && w in ws;
      assert forall v :: v in front ==> v in ws;
      KeepsConfig(d, front);
    }
  }

  lemma NamedPublishes(d: Disk, path: string, accept: bool, made: Digest)
    requires d.config.genesis.Some? && InitCourse(d, path, accept, made).outcome.Finished?
    ensures var ws := InitCourse(d, path, accept, made).writes;
            (forall w :: w in ws ==> !w.SaveConfig?) &&
            (RootOf(d, made) in d.controls || PublishGenesis(RootOf(d, made)) in ws)
  {
    var ws, root := InitCourse(d, path, accept, made).writes, RootOf(d, made);
    if root in d.pending && PublishWrites(d, root) != [] {
      assert ws[0] == PublishGenesis(root);
    }
  }

  lemma NamedFinishes(d: Disk, path: string, accept: bool, made: Digest)
    requires d.config.genesis.Some? && InitCourse(d, path, accept, made).outcome.Finished?
    ensures Settled(AllWritten(d, InitCourse(d, path, accept, made).writes), path, RootOf(d, made))
  {
    var ws, root := InitCourse(d, path, accept, made).writes, RootOf(d, made);
    assert SetsBoth(d, path, ws, root) by { CourseSetsBoth(d, path, accept, made); }
    PinsAfter(d, ws, root, OfWorkspace(root.workspace));
    PinsAfter(d, ws, root, OfRepository(path));
    NamedPublishes(d, path, accept, made);
    KeepsConfig(d, ws);
  }

  /** A run that succeeds leaves both pins at the genesis enbu.toml names, which
      storage holds; a refused run writes nothing. */
  lemma FinishedMeansPinned(d: Disk, path: string, accept: bool, made: Digest)
    ensures var course := InitCourse(d, path, accept, made);
            if course.outcome.Finished? then Settled(AllWritten(d, course.writes), path, RootOf(d, made))
            else course == Course([], Refused)
  {
    var course, root := InitCourse(d, path, accept, made), RootOf(d, made);
    if course.outcome.Finished? {
      if d.config.genesis.None? {
        FoundingIsRecovery(d, path, made);
        var record := RecordWrites(d, path, made);
        var d1 := AllWritten(d, record);
        AllWrittenThen(d, record, RecoveryCourse(d1, path, false, root).writes);
        NamedFinishes(d1, path, false, made);
      } else {
        NamedFinishes(d, path, accept, made);
      }
    }
  }

  // ----- how a run ends, and what it leaves

  /** When a run succeeds, and what it reports, by the pins, enbu.toml, the founding record and storage it finds. */
  lemma CourseEnds(d: Disk, path: string, accept: bool, made: Digest)
    ensures var course, root := InitCourse(d, path, accept, made), RootOf(d, made);
            var wp, rp := PinAt(d.pins, OfWorkspace(root.workspace)), PinAt(d.pins, OfRepository(path));
            && |course.writes| <= 6 && (course.outcome.Finished? || course == Course([], Refused))
            && (course.outcome.Finished? <==>
                  if d.config.genesis.None? then
                    !accept && d.controls == {} && d.requests == {} && wp == NoPin && rp != CorruptPin
                  else if root !in d.pending then
                    && root in d.controls
                    && (accept || ((wp == NoPin || wp == Pinned(root)) && (rp == NoPin || rp == Pinned(root))))
                  else
                    && d.pending[root].Record? && d.pending[root].root == root
                    && d.pending[root].repository == path && d.pending[root].genuine
                    && wp != CorruptPin && rp != CorruptPin && (wp == Pinned(root) ==> root in d.controls)
                    && (accept || ((wp == NoPin || wp == Pinned(root))
                                   && (rp == Pinned(root) || rp == d.pending[root].previous))))
            && (course.outcome.Finished? ==>
                  && (course.outcome.founded <==>
                        || d.config.genesis.None?
                        || (root in d.pending && !accept && (wp != Pinned(root) || rp != Pinned(root))))
                  && course.outcome.replaced ==
                       if course.outcome.founded then None
                       else if wp.Pinned? && wp.root != root then Some(wp.root)
                       else if rp.Pinned? && rp.root != root then Some(rp.root) else None)
  {
    FinishedMeansPinned(d, path, accept, made);
  }

  /** Besides pins, these writes touch only this root. */
  ghost predicate AboutRoot(ws: seq<Write>, root: Root) {
    forall w :: w in ws ==>
      match w
      case SaveRecord(r) => r.Record? && r.root == root
      case PublishGenesis(r) => r == root
      case DropRecord(r) => r == root
      case _ => true
  }

  lemma {:induction false} RootOnly(d: Disk, ws: seq<Write>, root: Root)
    requires AboutRoot(ws, root)
    ensures var d2 := AllWritten(d, ws);
            && d2.pending - {root} == d.pending - {root} && d2.requests == d.requests
            && d2.controls + {root} == d.controls + {root}
  {
    if ws != [] {
      var front, w := ws[..|ws| - 1], ws[|ws| - 1];
      assert ws == front + [w] && w in ws;
      assert forall v :: v in front ==> v in ws;
      RootOnly(d, front, root);
    }
  }

  lemma CourseAboutRoot(d: Disk, path: string, accept: bool, made: Digest)
    requires InitCourse(d, path, accept, made).outcome.Finished?
    ensures var ws, root := InitCourse(d, path, accept, made).writes, RootOf(d, made);
            && AboutRoot(ws, root)
            && (d.config.genesis.Some? && root !in d.pending ==> forall w :: w in ws ==> w.SetPin?)
            && (d.config.genesis.None? || root in d.pending ==> ws != [] && ws[|ws| - 1] == DropRecord(root))
  {
  }

  /** A run that succeeds pins its root, drops the record, leaves storage with the root, and changes nothing else. */
  lemma CourseLeaves(d: Disk, path: string, accept: bool, made: Digest)
    requires InitCourse(d, path, accept, made).outcome.Finished? || InitCourse(d, path, accept, made).outcome.Refused?
    ensures var course, root := InitCourse(d, path, accept, made), RootOf(d, made);
            var d2 := AllWritten(d, course.writes);
            course.outcome.Finished? ==>
              && d2.config == Config(root.workspace, Some(root.genesis)) && root in d2.controls
              && d2.controls == d.controls + {root} && d2.pending == d.pending - {root} && d2.requests == d.requests
              && forall k :: PinAt(d2.pins, k) ==
                   if k == OfWorkspace(root.workspace) || k == OfRepository(path) then Pinned(root)
                   else PinAt(d.pins, k)
  {
    var course, root := InitCourse(d, path, accept, made), RootOf(d, made);
    if course.outcome.Finished? {
      var ws, d2 := course.writes, AllWritten(d, course.writes);
      FinishedMeansPinned(d, path, accept, made);
      CourseAboutRoot(d, path, accept, made);
      RootOnly(d, ws, root);
      assert d2.controls == d2.controls + {root};
      RecordGone(d, ws, root);
      CourseSetsBoth(d, path, accept, made);
      forall k ensures PinAt(d2.pins, k) ==
                         if k == OfWorkspace(root.workspace) || k == OfRepository(path) then Pinned(root)
                         else PinAt(d.pins, k)
      {
        PinsAfter(d, ws, root, k);
      }
    }
  }

  lemma RecordGone(d: Disk, ws: seq<Write>, root: Root)
    requires AboutRoot(ws, root)
    ensures ws != [] && ws[|ws| - 1] == DropRecord(root) ==> AllWritten(d, ws).pending == d.pending - {root}
    ensures root !in d.pending && (forall w :: w in ws ==> w.SetPin?) ==>
              AllWritten(d, ws).pending == d.pending - {root}
  {
    RootOnly(d, ws, root);
    if ws != [] && ws[|ws| - 1] == DropRecord(root) {
      assert AllWritten(d, ws).pending == AllWritten(d, ws[..|ws| - 1]).pending - {root};
      assert AllWritten(d, ws).pending == AllWritten(d, ws).pending - {root};
    }
    if root !in d.pending && forall w :: w in ws ==> w.SetPin? {
      NoRecords(d, ws);
      assert d.pending - {root} == d.pending;
    }
  }

  // ----- founding survives any crash

  /** Where a founding of this checkout can stand: not begun, or recorded and named, published before the workspace pin is
      set, which is set before the repository pin moves from what it was, after which the record may go. */
  ghost predicate Underway(d: Disk, path: string, workspace: string, prior: Pin) {
    var wp, rp := PinAt(d.pins, OfWorkspace(workspace)), PinAt(d.pins, OfRepository(path));
    && d.config.workspace == workspace && prior != CorruptPin
    && match d.config.genesis
       case None => wp == NoPin && rp == prior && d.controls == {} && d.requests == {} && d.published == {}
       case Some(g) =>
         var root := Root(workspace, g);
         && d.published <= {root} && d.published <= d.controls
         && (wp == NoPin || (wp == Pinned(root) && d.published == {root}))
         && (rp == prior || (rp == Pinned(root) && wp == Pinned(root)))
         && (root in d.pending ==> d.pending[root] == Record(root, path, prior, true))
         && (root in d.pending || (wp == Pinned(root) && rp == Pinned(root)))
  }

  /** The next write of a recovery comes when it is due. */
  ghost predicate Due(d: Disk, path: string, workspace: string, w: Write) {
    var wp, rp := PinAt(d.pins, OfWorkspace(workspace)), PinAt(d.pins, OfRepository(path));
    && d.config.genesis.Some?
    && var root := Root(workspace, d.config.genesis.value);
       match w
       case PublishGenesis(r) => r == root && root in d.pending
       case SetPin(key, r) => r == root && root in d.pending &&
                              ((key == OfWorkspace(workspace) && d.published == {root}) ||
                               (key == OfRepository(path) && wp == Pinned(root)))
       case DropRecord(r) => r == root && wp == Pinned(root) && rp == Pinned(root)
       case _ => false
  }

  lemma DueKeeps(d: Disk, path: string, workspace: string, prior: Pin, w: Write)
    requires Underway(d, path, workspace, prior) && Due(d, path, workspace, w)
    ensures Underway(Written(d, w), path, workspace, prior)
  {
  }

  lemma WrittenPrefix(d: Disk, ws: seq<Write>, i: nat)
    requires i < |ws|
    ensures AllWritten(d, ws[..i + 1]) == Written(AllWritten(d, ws[..i]), ws[i])
  {
    assert ws[..i + 1] == ws[..i] + [ws[i]];
    WrittenNext(d, ws[..i], ws[i]);
  }

  /** Each write comes when it is due. */
  ghost predicate AllDue(d: Disk, path: string, workspace: string, ws: seq<Write>)
    decreases |ws|
  {
    ws == [] || (Due(d, path, workspace, ws[0]) && AllDue(Written(d, ws[0]), path, workspace, ws[1..]))
  }

  lemma DueNext(d: Disk, path: string, workspace: string, w: Write, ws: seq<Write>)
    requires Due(d, path, workspace, w) && AllDue(Written(d, w), path, workspace, ws)
    ensures AllDue(d, path, workspace, [w] + ws)
  {
    assert ([w] + ws)[1..] == ws;
  }

  /** Once the workspace pin is set, the repository pin may move and the record may go. */
  lemma FinishDue(d: Disk, path: string, workspace: string, root: Root)
    requires d.config == Config(workspace, Some(root.genesis)) && root.workspace == workspace && root in d.pending
    requires PinAt(d.pins, OfWorkspace(workspace)) == Pinned(root)
    ensures AllDue(d, path, workspace,
                   PinWrites(OfRepository(path), PinAt(d.pins, OfRepository(path)), root) + [DropRecord(root)])
  {
    var repo := OfRepository(path);
    var rp := PinAt(d.pins, repo);
    var d3 := if rp != Pinned(root) then Written(d, SetPin(repo, root)) else d;
    var drop := [DropRecord(root)];
    DueNext(d3, path, workspace, DropRecord(root), []);
    assert drop + [] == drop;
    if rp != Pinned(root) {
      DueNext(d, path, workspace, SetPin(repo, root), drop);
    } else {
      assert [] + drop == drop;
    }
  }

  /** Every write of a recovery comes when it is due. */
  lemma RecoveryDue(d: Disk, path: string, workspace: string, prior: Pin)
    requires Underway(d, path, workspace, prior) && d.config.genesis.Some? &&
             Root(workspace, d.config.genesis.value) in d.pending
    ensures var course := RecoveryCourse(d, path, false, Root(workspace, d.config.genesis.value));
            course.outcome.Finished? && AllDue(d, path, workspace, course.writes)
  {
    var root := Root(workspace, d.config.genesis.value);
    var key, repo := OfWorkspace(workspace), OfRepository(path);
    var rest := PinWrites(repo, PinAt(d.pins, repo), root) + [DropRecord(root)];
    var ws := RecoveryCourse(d, path, false, root).writes;
    if PinAt(d.pins, key) == Pinned(root) {
      FinishDue(d, path, workspace, root);
      assert rest == ws;
    } else {
      var d1 := Written(d, PublishGenesis(root));
      var d2 := Written(d1, SetPin(key, root));
      FinishDue(d2, path, workspace, root);
      assert PinAt(d2.pins, repo) == PinAt(d.pins, repo);
      DueNext(d1, path, workspace, SetPin(key, root), rest);
      DueNext(d, path, workspace, PublishGenesis(root), [SetPin(key, root)] + rest);
      assert [PublishGenesis(root)] + ([SetPin(key, root)] + rest) == ws;
    }
  }

  lemma WrittenFirst(d: Disk, w: Write, ws: seq<Write>)
    ensures AllWritten(d, [w] + ws) == AllWritten(Written(d, w), ws)
  {
    AllWrittenThen(d, [w], ws);
    WrittenNext(d, [], w);
    assert [] + [w] == [w];
  }

  lemma {:induction false} PrefixKeeps(d: Disk, path: string, workspace: string, prior: Pin, ws: seq<Write>, n: nat)
    requires Underway(d, path, workspace, prior) && AllDue(d, path, workspace, ws) && n <= |ws|
    ensures Underway(AllWritten(d, ws[..n]), path, workspace, prior)
    decreases n
  {
    if n > 0 {
      DueKeeps(d, path, workspace, prior, ws[0]);
      PrefixKeeps(Written(d, ws[0]), path, workspace, prior, ws[1..], n - 1);
      assert ws[..n] == [ws[0]] + ws[1..][..n - 1];
      WrittenFirst(d, ws[0], ws[1..][..n - 1]);
    }
  }

  lemma NamedKeeps(d: Disk, path: string, workspace: string, prior: Pin, made: Digest, n: nat)
    requires Underway(d, path, workspace, prior) && d.config.genesis.Some?
    ensures InitCourse(d, path, false, made).outcome.Finished?
    ensures n <= |InitCourse(d, path, false, made).writes| ==>
              Underway(AllWritten(d, InitCourse(d, path, false, made).writes[..n]), path, workspace, prior)
  {
    var root := Root(workspace, d.config.genesis.value);
    var ws := InitCourse(d, path, false, made).writes;
    if root in d.pending {
      RecoveryDue(d, path, workspace, prior);
      if n <= |ws| {
        PrefixKeeps(d, path, workspace, prior, ws, n);
      }
    } else {
      assert root in d.controls;
      assert ws == [];
      assert AllWritten(d, []) == d;
    }
  }

  /** Wherever a run of init dies, the founding is still under way. */
  lemma CrashKeepsFounding(d: Disk, path: string, workspace: string, prior: Pin, made: Digest, steps: nat)
    requires Underway(d, path, workspace, prior)
    ensures InitCourse(d, path, false, made).outcome.Finished?
    ensures Underway(AfterInit(d, path, false, made, steps), path, workspace, prior)
  {
    var ws := InitCourse(d, path, false, made).writes;
    var n := if steps <= |ws| then steps else |ws|;
    assert ws[..|ws|] == ws;
    if d.config.genesis.None? {
      var record, root := RecordWrites(d, path, made), Root(workspace, made);
      FoundingIsRecovery(d, path, made);
      var d1 := AllWritten(d, record);
      WrittenPrefix(d, record, 0);
      WrittenPrefix(d, record, 1);
      assert record[..2] == record && record[..0] == [];
      assert Underway(AllWritten(d, record[..1]), path, workspace, prior);
      assert Underway(d1, path, workspace, prior);
      if n < 2 {
        assert ws[..n] == record[..n];
      } else {
        var rest := RecoveryCourse(d1, path, false, root).writes;
        NamedKeeps(d1, path, workspace, prior, made, n - 2);
        assert ws[..n] == record + rest[..n - 2];
        AllWrittenThen(d, record, rest[..n - 2]);
      }
    } else {
      NamedKeeps(d, path, workspace, prior, made, n);
    }
  }

  // ----- whole histories

  /** A run of init that dies after some writes, or a change from outside: enbu.toml
      comes from Git, and storage is anyone's. */
  datatype Event =
    | Init(accept: bool, made: Digest, steps: nat)
    | Outside(config: Config, controls: set<Root>, requests: set<Digest>)

  function After(d: Disk, path: string, e: Event): Disk {
    match e
    case Init(accept, made, steps) => AfterInit(d, path, accept, made, steps)
    case Outside(config, controls, requests) => d.(config := config, controls := controls, requests := requests)
  }

  function AfterAll(d: Disk, path: string, events: seq<Event>): Disk {
    if events == [] then d else After(AfterAll(d, path, events[..|events| - 1]), path, events[|events| - 1])
  }

  /** Nobody confirms a new genesis, enbu.toml is left alone, and storage only gains objects, once a genesis is named. */
  ghost predicate Undisturbed(d: Disk, e: Event) {
    match e
    case Init(accept, _, _) => !accept
    case Outside(config, controls, requests) => d.config.genesis.Some? && config == d.config && d.controls <= controls
  }

  ghost predicate UndisturbedRun(d: Disk, path: string, events: seq<Event>) {
    forall i :: 0 <= i < |events| ==> Undisturbed(AfterAll(d, path, events[..i]), events[i])
  }

  lemma {:induction false} RunKeepsFounding(d: Disk, path: string, workspace: string, prior: Pin, events: seq<Event>)
    requires Underway(d, path, workspace, prior) && UndisturbedRun(d, path, events)
    ensures Underway(AfterAll(d, path, events), path, workspace, prior)
  {
    if events != [] {
      var front, e := events[..|events| - 1], events[|events| - 1];
      forall i | 0 <= i < |front| ensures Undisturbed(AfterAll(d, path, front[..i]), front[i]) {
        assert front[..i] == events[..i];
      }
      RunKeepsFounding(d, path, workspace, prior, front);
      if e.Init? {
        CrashKeepsFounding(AfterAll(d, path, front), path, workspace, prior, e.made, e.steps);
      }
    }
  }

  /** From every crash point of every earlier run, one run of init that is not cut short succeeds, and then the configured
      genesis, the workspace pin, the repository pin and the only genesis this checkout ever published are the same. */
  lemma FoundingSurvivesCrashes(d: Disk, path: string, workspace: string, prior: Pin, events: seq<Event>, made: Digest)
    requires Underway(d, path, workspace, prior) && UndisturbedRun(d, path, events)
    ensures var d2 := AfterAll(d, path, events);
            var course := InitCourse(d2, path, false, made);
            && course.outcome.Finished?
            && Settled(AllWritten(d2, course.writes), path, RootOf(d2, made))
            && AllWritten(d2, course.writes).published == {RootOf(d2, made)}
  {
    var d2 := AfterAll(d, path, events);
    var ws := InitCourse(d2, path, false, made).writes;
    RunKeepsFounding(d, path, workspace, prior, events);
    CrashKeepsFounding(d2, path, workspace, prior, made, |ws|);
    assert ws[..|ws|] == ws;
    FinishedMeansPinned(d2, path, false, made);
  }

  /** Nothing this checkout runs founds a workspace: there is no founding record, and enbu.toml always names a genesis. */
  ghost predicate NoFounding(d: Disk, events: seq<Event>) {
    && d.pending == map[] && d.config.genesis.Some?
    && (forall e :: e in events && e.Outside? ==> e.config.genesis.Some?)
  }

  lemma {:induction false} NoRecords(d: Disk, ws: seq<Write>)
    requires forall w :: w in ws ==> w.PublishGenesis? || w.SetPin?
    ensures AllWritten(d, ws).pending == d.pending && AllWritten(d, ws).config == d.config
  {
    if ws != [] {
      assert ws[|ws| - 1] in ws;
      assert forall v :: v in ws[..|ws| - 1] ==> v in ws;
      NoRecords(d, ws[..|ws| - 1]);
    }
  }

  lemma {:induction false} StaysUnfounded(d: Disk, path: string, events: seq<Event>)
    requires NoFounding(d, events)
    ensures NoFounding(AfterAll(d, path, events), [])
  {
    if events != [] {
      var front, e := events[..|events| - 1], events[|events| - 1];
      assert e in events && forall v :: v in front ==> v in events;
      StaysUnfounded(d, path, front);
      var d1 := AfterAll(d, path, front);
      if e.Init? {
        var ws := InitCourse(d1, path, e.accept, e.made).writes;
        NoRecords(d1, if e.steps <= |ws| then ws[..e.steps] else ws);
      }
    }
  }

  /** Whatever enbu.toml and storage are changed to, a workspace's pin never moves unless a person confirms it; nor does the
      repository's pin, unless this checkout founds a workspace itself. */
  lemma {:induction false} PinsOutlastTheConfig(d: Disk, path: string, events: seq<Event>, key: PinKey)
    requires forall e :: e in events && e.Init? ==> !e.accept
    requires PinAt(d.pins, key).Pinned?
    requires key == OfRepository(path) ==> NoFounding(d, events)
    ensures PinAt(AfterAll(d, path, events).pins, key) == PinAt(d.pins, key)
  {
    if events != [] {
      var front, e := events[..|events| - 1], events[|events| - 1];
      assert e in events && forall v :: v in front ==> v in events;
      PinsOutlastTheConfig(d, path, front, key);
      var d1 := AfterAll(d, path, front);
      if e.Init? {
        if key == OfRepository(path) {
          StaysUnfounded(d, path, front);
        }
        PinsMoveAsAuthorized(d1, path, e.made, e.steps, key);
      }
    }
  }
}
