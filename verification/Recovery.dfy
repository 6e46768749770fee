/** Ingest nodes that crash and replay within the document-mode protocol: which
tombstones of replacing writes are still owed, by whom, and whether every one of
them is landed in the end. A node holds what it queued and what it owes in memory
only; its log keeps the records not yet confirmed. */
module Recovery {
  import opened Prelude
  import opened TombstoneTable
  import opened Metastore
  import opened DocProtocol
  import opened DocProtocolSteps
  import opened DocProtocolTheorems

  /** `home` is the node whose log holds a write. `flagged` writes carry a tombstone:
      those under an id the client gave. */
  datatype System = System(
    s: State,
    home: map<Version, nat>,
    flagged: set<Version>,
    queued: set<Version>,
    owed: set<Version>)

  datatype Move =
    /** A write is appended to its node's log and queued; its tombstone is owed. */
    | Write(n: nat, v: Version, flag: bool)
    /** Owed tombstones of a node land, at once or on a later attempt. */
    | Land(n: nat, batch: seq<Version>, after: Table)
    | Cut(n: nat, batch: seq<Version>)
    | ConfirmFlushed(n: nat, vs: set<Version>)
    /** Everything the node held in memory is gone. */
    | Crash(n: nat)
    /** The restarted node replays records of its log. */
    | Recover(n: nat, vs: set<Version>)
    /** A step of anyone else: deletes, publishes, rewrites, purges, retention. */
    | Shared(st: Step)

  ghost const START: System := System(INITIAL, map[], {}, {}, {})

  ghost predicate AtHome(y: System, n: nat, v: Version) {
    v in y.home && y.home[v] == n
  }

  function BoundOf(v: Version): NewTombstone {
    NewTombstone(v.id, v.stamp)
  }

  function Bounds(batch: seq<Version>): seq<NewTombstone> {
    seq(|batch|, i requires 0 <= i < |batch| => BoundOf(batch[i]))
  }

  ghost predicate Landed(y: System, v: Version) {
    BoundOf(v) in y.s.landed
  }

  /** What a move does to the shared state. */
  ghost function StepOf(m: Move): Option<Step> {
    match m
    case Write(_, v, _) => Some(Accept(v))
    case Land(_, batch, after) => Some(Upsert(Bounds(batch), after))
    case Cut(_, batch) => Some(Stage(batch))
    case ConfirmFlushed(_, vs) => Some(Confirm(vs))
    case Crash(_) => None
    case Recover(_, _) => None
    case Shared(st) => Some(st)
  }

  ghost predicate CanMove(y: System, m: Move) {
    && (StepOf(m).Some? ==> Enabled(y.s, StepOf(m).value))
    && match m
       case Write(n, v, flag) => v !in y.s.accepted
       case Land(n, batch, after) => forall v :: v in batch ==> v in y.owed && AtHome(y, n, v)
       case Cut(n, batch) => forall v :: v in batch ==> v in y.queued && AtHome(y, n, v)
       case ConfirmFlushed(n, vs) => forall v :: v in vs ==> v in y.queued && AtHome(y, n, v)
       case Crash(n) => true
       case Recover(n, vs) => forall v :: v in vs ==> v in y.s.pending && AtHome(y, n, v)
       case Shared(st) => !st.Accept? && !st.Stage? && !st.Confirm?
  }

  ghost function Moved(y: System, m: Move): System
    requires CanMove(y, m)
  {
    var s := if StepOf(m).Some? then Apply(y.s, StepOf(m).value) else y.s;
    match m
    case Write(n, v, flag) =>
      var carried := if flag then {v} else {};
      System(s, y.home[v := n], y.flagged + carried, y.queued + {v}, y.owed + carried)
    case Land(n, batch, after) => y.(s := s, owed := y.owed - Elements(batch))
    case Cut(n, batch) => y.(s := s)
    case ConfirmFlushed(n, vs) => y.(s := s, queued := y.queued - vs)
    case Crash(n) => Crashed(y, n)
    case Recover(n, vs) => y.(queued := y.queued + vs, owed := y.owed + vs * y.flagged)
    case Shared(st) => y.(s := s)
  }

  ghost function Elsewhere(y: System, n: nat, vs: set<Version>): set<Version> {
    set v | v in vs && !AtHome(y, n, v)
  }

  ghost function Crashed(y: System, n: nat): System {
    y.(queued := Elsewhere(y, n, y.queued), owed := Elsewhere(y, n, y.owed))
  }

  ghost predicate SystemRun(ys: seq<System>, ms: seq<Move>) {
    && |ys| == |ms| + 1 && ys[0] == START
    && forall i :: 0 <= i < |ms| ==> Follows(ys, ms, i)
  }

  ghost predicate Follows(ys: seq<System>, ms: seq<Move>, i: nat) {
    i < |ms| && i + 1 < |ys| && CanMove(ys[i], ms[i]) && ys[i + 1] == Moved(ys[i], ms[i])
  }

  // ---- what every move keeps ----

  /** A queued write's tombstone has landed or is owed; a write is in the log until
      some published split serves it. */
  ghost predicate Tracked(y: System) {
    && y.home.Keys == y.s.accepted && y.flagged <= y.s.accepted && y.queued <= y.s.accepted && y.owed <= y.flagged
    && (forall v :: v in y.queued && v in y.flagged ==> v in y.owed || Landed(y, v))
    && (forall v :: v in y.s.accepted ==> v in y.s.pending || v in y.s.served)
  }

  /** What a step does to the parts a node relies on. */
  lemma StepHistory(s: State, st: Step)
    requires Enabled(s, st)
    ensures var s' := Apply(s, st);
            && s.landed <= s'.landed && s.served <= s'.served
            && s'.accepted == (if st.Accept? then s.accepted + {st.v} else s.accepted)
            && s'.pending == (if st.Accept? then s.pending + {st.v}
                              else if st.Confirm? then s.pending - st.vs else s.pending)
  {
    match st
    case Accept(_) =>
    case Confirm(_) =>
    case _ =>
  }

  lemma LandedAll(y: System, m: Move, v: Version)
    requires CanMove(y, m) && m.Land? && v in m.batch
    ensures Landed(Moved(y, m), v)
  {
    var i :| 0 <= i < |m.batch| && m.batch[i] == v;
    assert Bounds(m.batch)[i] == BoundOf(v);
  }

  lemma MoveKeepsTracked(y: System, m: Move)
    requires Tracked(y) && CanMove(y, m)
    ensures Tracked(Moved(y, m))
  {
    if StepOf(m).Some? {
      StepHistory(y.s, StepOf(m).value);
    }
    var y' := Moved(y, m);
    forall v | v in y'.queued && v in y'.flagged
      ensures v in y'.owed || Landed(y', v)
    {
      if m.Land? && v in m.batch {
        LandedAll(y, m, v);
      }
    }
  }

  lemma {:induction false} RunKeepsTracked(ys: seq<System>, ms: seq<Move>, i: nat)
    requires SystemRun(ys, ms) && i < |ys|
    ensures Tracked(ys[i]) && Inv(ys[i].s)
  {
    if i == 0 {
      InitialInv();
    } else {
      RunKeepsTracked(ys, ms, i - 1);
      assert Follows(ys, ms, i - 1);
      MoveKeepsTracked(ys[i - 1], ms[i - 1]);
      if StepOf(ms[i - 1]).Some? {
        StepKeepsInv(ys[i - 1].s, StepOf(ms[i - 1]).value);
      }
    }
  }

  // ---- which tombstones are safe ----

  /** The write's tombstone landed, or a live process will land it, or a replay will. */
  ghost predicate Safe(y: System, v: Version) {
    v in y.flagged ==> Landed(y, v) || v in y.owed || v in y.s.pending
  }

  /** Safe whatever crashes next. */
  ghost predicate CrashProof(y: System, v: Version) {
    v in y.flagged ==> Landed(y, v) || v in y.s.pending
  }

  lemma CrashProofIff(y: System, v: Version)
    requires Tracked(y)
    ensures CrashProof(y, v) <==> Safe(y, v) && forall n :: Safe(Crashed(y, n), v)
  {
    if v in y.flagged {
      assert v in y.home;
      var gone := Crashed(y, y.home[v]);
      assert v !in gone.owed;
    }
  }

  /** A move keeps a tombstone safe exactly unless it is the crash of the process that
      owes it after the record was confirmed. */
  lemma MoveSafeIff(y: System, m: Move, v: Version)
    requires Tracked(y) && CanMove(y, m) && Safe(y, v)
    ensures Safe(Moved(y, m), v) <==> !(m.Crash? && v in y.owed && AtHome(y, m.n, v) && !CrashProof(y, v))
  {
    if StepOf(m).Some? {
      StepHistory(y.s, StepOf(m).value);
    }
    if m.Land? && v in m.batch {
      LandedAll(y, m, v);
    }
  }

  /** Move `i` confirms the record before its tombstone has landed. */
  ghost predicate EarlyConfirm(ys: seq<System>, ms: seq<Move>, v: Version, i: nat) {
    && i < |ms| && i < |ys| && ms[i].ConfirmFlushed?
    && v in ms[i].vs && v in ys[i].flagged && !Landed(ys[i], v)
  }

  lemma ProofKeptIff(ys: seq<System>, ms: seq<Move>, v: Version, i: nat)
    requires SystemRun(ys, ms) && i < |ms| && CrashProof(ys[i], v)
    ensures CrashProof(ys[i + 1], v) <==> !EarlyConfirm(ys, ms, v, i)
  {
    assert Follows(ys, ms, i);
    if StepOf(ms[i]).Some? {
      StepHistory(ys[i].s, StepOf(ms[i]).value);
    }
  }

  lemma {:induction false} ProofUpTo(ys: seq<System>, ms: seq<Move>, v: Version, i: nat)
    requires SystemRun(ys, ms) && i < |ys| && forall k :: 0 <= k < i ==> !EarlyConfirm(ys, ms, v, k)
    ensures CrashProof(ys[i], v)
  {
    if i > 0 {
      ProofUpTo(ys, ms, v, i - 1);
      ProofKeptIff(ys, ms, v, i - 1);
    }
  }

  lemma EarlyConfirmExposes(ys: seq<System>, ms: seq<Move>, v: Version, i: nat)
    requires SystemRun(ys, ms) && EarlyConfirm(ys, ms, v, i)
    ensures !CrashProof(ys[i + 1], v)
  {
    assert Follows(ys, ms, i);
  }

  /** A crash between the log append and the upsert is repaired by the replay, at every
      point of a run, exactly when the run confirms no record before its tombstone landed. */
  lemma RepairedIff(ys: seq<System>, ms: seq<Move>, v: Version)
    requires SystemRun(ys, ms)
    ensures (forall i :: 0 <= i < |ys| ==> CrashProof(ys[i], v)) <==>
            (forall i :: 0 <= i < |ms| ==> !EarlyConfirm(ys, ms, v, i))
  {
    if forall i :: 0 <= i < |ms| ==> !EarlyConfirm(ys, ms, v, i) {
      forall i | 0 <= i < |ys|
        ensures CrashProof(ys[i], v)
      {
        ProofUpTo(ys, ms, v, i);
      }
    }
    forall i | 0 <= i < |ms| && EarlyConfirm(ys, ms, v, i)
      ensures !CrashProof(ys[i + 1], v)
    {
      EarlyConfirmExposes(ys, ms, v, i);
    }
  }

  /** The records a node's log still holds. */
  ghost predicate IsLogOf(y: System, n: nat, vs: set<Version>) {
    forall v :: v in vs <==> v in y.s.pending && AtHome(y, n, v)
  }

  /** What a crashed node knows once it has replayed its log: every record of it is queued
      again, and of the tombstones it owes exactly those of the flagged records. Nothing
      else changes, and no other node notices. */
  lemma ReplayTakesUp(y: System, n: nat, vs: set<Version>)
    requires Tracked(y) && IsLogOf(y, n, vs)
    ensures CanMove(y, Crash(n)) && CanMove(Crashed(y, n), Recover(n, vs))
    ensures var up := Moved(Moved(y, Crash(n)), Recover(n, vs));
            && up.s == y.s && up.home == y.home && up.flagged == y.flagged
            && (forall v :: AtHome(y, n, v) ==> (v in up.queued <==> v in vs))
            && (forall v :: AtHome(y, n, v) ==> (v in up.owed <==> v in vs && v in y.flagged))
            && (forall v :: !AtHome(y, n, v) ==> (v in up.queued <==> v in y.queued) && (v in up.owed <==> v in y.owed))
  {
  }

  /** A node crashes, replays its log and lands what it then owes: the tombstone of every
      write it ever flagged has landed, if each had landed or was still in the log, and
      it owes nothing any more. */
  lemma ReplayRepairs(y: System, n: nat, vs: set<Version>, up: System, batch: seq<Version>, after: Table)
    requires Tracked(y) && IsLogOf(y, n, vs) && forall v :: AtHome(y, n, v) ==> CrashProof(y, v)
    requires CanMove(Crashed(y, n), Recover(n, vs)) && up == Moved(Crashed(y, n), Recover(n, vs))
    requires CanMove(up, Land(n, batch, after)) && forall v :: v in up.owed && AtHome(y, n, v) ==> v in batch
    ensures var done := Moved(up, Land(n, batch, after));
            && (forall v :: v in y.flagged && AtHome(y, n, v) ==> Landed(done, v))
            && (forall v :: v in done.owed ==> !AtHome(y, n, v) && v in y.owed)
            && (forall v :: AtHome(y, n, v) ==> (v in done.queued <==> v in y.s.pending))
  {
    ReplayTakesUp(y, n, vs);
    var land := Land(n, batch, after);
    StepHistory(up.s, StepOf(land).value);
    forall v | v in y.flagged && AtHome(y, n, v)
      ensures Landed(Moved(up, land), v)
    {
      if v in y.s.pending {
        LandedAll(up, land, v);
      }
    }
  }

  /** Right after an early confirm, the crash of the node loses the tombstone: the run
      cut there and continued by the crash is a run, and nobody owes it any more. */
  lemma EarlyConfirmLoses(ys: seq<System>, ms: seq<Move>, v: Version, i: nat)
    requires SystemRun(ys, ms) && EarlyConfirm(ys, ms, v, i)
    ensures v in ys[i + 1].home
    ensures var gone := Crashed(ys[i + 1], ys[i + 1].home[v]);
            SystemRun(ys[..i + 2] + [gone], ms[..i + 1] + [Crash(ys[i + 1].home[v])]) && Lost(gone, v)
  {
    RunKeepsTracked(ys, ms, i);
    RunKeepsTracked(ys, ms, i + 1);
    EarlyConfirmExposes(ys, ms, v, i);
    assert Follows(ys, ms, i);
    var y, n := ys[i + 1], ys[i + 1].home[v];
    var ys', ms' := ys[..i + 2] + [Crashed(y, n)], ms[..i + 1] + [Crash(n)];
    forall k | 0 <= k < |ms'|
      ensures Follows(ys', ms', k)
    {
      assert k <= i ==> Follows(ys, ms, k);
    }
  }

  /** Nobody will land the tombstone any more. */
  ghost predicate Lost(y: System, v: Version) {
    v in y.flagged && !Safe(y, v)
  }

  /** A lost tombstone stays lost, unless someone upserts that very bound again. */
  lemma LostStays(y: System, m: Move, v: Version)
    requires Tracked(y) && CanMove(y, m) && Lost(y, v)
    ensures Lost(Moved(y, m), v) || (m.Shared? && m.st.Upsert? && BoundOf(v) in m.st.items)
  {
    if StepOf(m).Some? {
      StepHistory(y.s, StepOf(m).value);
    }
    if m.Land? {
      assert forall i :: 0 <= i < |m.batch| ==> m.batch[i] in y.owed && m.batch[i] != v;
    }
  }

  // ---- what that means for a search ----

  /** Whatever crashed and was replayed, in a run without early confirms: once nothing of
      an id is in a log or owed, its newest write alone is visible, or its delete. */
  lemma RecoveredConverges(ys: seq<System>, ms: seq<Move>, id: string)
    requires SystemRun(ys, ms) && forall v: Version, i :: 0 <= i < |ms| && v.id == id ==> !EarlyConfirm(ys, ms, v, i)
    requires var y := ys[|ms|];
             forall v :: v in y.s.accepted && v.id == id ==>
               v !in y.s.pending && v !in y.owed && (v !in y.flagged ==> !Replaces(y.s, v))
    ensures Settled(ys[|ms|].s, id)
    ensures var s := ys[|ms|].s;
            forall v :: Visible(s, v) && v.id == id ==>
              && v in s.accepted && (forall w :: w in s.accepted && w.id == id ==> w.stamp <= v.stamp)
              && forall b :: b in s.landed && b.id == id ==> b.before <= v.stamp
  {
    var y := ys[|ms|];
    RunKeepsTracked(ys, ms, |ms|);
    forall v | v in y.s.accepted && v.id == id
      ensures v in y.s.served && (Replaces(y.s, v) ==> NewTombstone(id, v.stamp) in y.s.landed)
    {
      ProofUpTo(ys, ms, v, |ms|);
    }
    LastWriterWins(y.s, id);
  }

  // ---- the order is not kept by the code ----

  const OLDER := Version("a", 1)
  const NEWER := Version("a", 2)

  ghost const LOSING: seq<Move> := [
    Write(0, OLDER, false), Write(0, NEWER, true), Cut(0, [OLDER, NEWER]), Shared(Publish(0)),
    ConfirmFlushed(0, {OLDER, NEWER}), Crash(0)]

  ghost function After(splits: seq<Split>, pending: set<Version>, served: set<Version>): State {
    State(Table(map[], 1), splits, map[], pending, {OLDER, NEWER}, {}, {}, served, {})
  }

  ghost const LOSING_STATES: seq<System> :=
    var home, both := map[OLDER := 0, NEWER := 0], {OLDER, NEWER};
    var staged, published := Split([OLDER, NEWER], 0, Staged), Split([OLDER, NEWER], 0, Published);
    [START,
     System(State(Table(map[], 1), [], map[], {OLDER}, {OLDER}, {}, {}, {}, {}), map[OLDER := 0], {}, {OLDER}, {}),
     System(After([], both, {}), home, {NEWER}, both, {NEWER}),
     System(After([staged], both, {}), home, {NEWER}, both, {NEWER}),
     System(After([published], both, both), home, {NEWER}, both, {NEWER}),
     System(After([published], {}, both), home, {NEWER}, {}, {NEWER}),
     System(After([published], {}, both), home, {NEWER}, {}, {})]

  lemma LosingStep(i: nat)
    requires i < 6
    ensures Follows(LOSING_STATES, LOSING, i)
  {
  }

  /** A write and its replacement are flushed, published and confirmed before the
      replacement's tombstone lands; the node crashes. Nothing is left to replay, and
      both versions stay visible. */
  lemma ConfirmedThenCrashed()
    ensures SystemRun(LOSING_STATES, LOSING)
    ensures var y := LOSING_STATES[6];
            && Lost(y, NEWER) && y.s.pending == {} && y.owed == {}
            && Visible(y.s, OLDER) && Visible(y.s, NEWER)
  {
    forall i | 0 <= i < 6
      ensures Follows(LOSING_STATES, LOSING, i)
    {
      LosingStep(i);
    }
    var y := LOSING_STATES[6];
    assert y.s.splits[0].state == Published && OLDER in y.s.splits[0].docs && NEWER in y.s.splits[0].docs;
  }
}
