/** Group commit across concurrent appenders.
Each append flushes its records under the writer lock, then syncs the segments
it rotated out, and then either finds that someone else's fsync already covered
its records or runs one itself under the sync gate. The fsync reaches one
segment file, but `synced` is advanced to a record count that spans segments. */
module GroupCommit {
  import opened Prelude

  datatype Phase =
    | Flushed
    /** Rotated-out segments synced; about to consult `synced`. */
    | SealedSynced
    | AtGate
    | Snapped(covered: nat)
    | Fsynced(covered: nat)
    | Returned

  /** One append: records `lo..hi` of the flush order, the segments `from..fd`
      it rotated out, and `fd`, the file it would sync. */
  datatype Appender = Appender(phase: Phase, lo: nat, hi: nat, from: nat, fd: nat)

  /** `log[r]` is the segment record `r` was flushed to; `written` is its length. */
  datatype State = State(
    log: seq<nat>,
    current: nat,
    durable: set<nat>,
    synced: nat,
    gate: Option<nat>,
    apps: map<nat, Appender>)

  datatype Step =
    /** Flush a batch: the segment of each record, and the current segment after. */
    | Flush(a: nat, segs: seq<nat>, fd: nat)
    | SyncSealed(a: nat)
    | Skip(a: nat)
    | TakeGate(a: nat)
    | Recheck(a: nat)
    | Snap(a: nat)
    | Fsync(a: nat)
    | Advance(a: nat)

  ghost const INITIAL := State([], 0, {}, 0, None, map[])

  predicate Active(s: State, a: nat) {
    a in s.apps && s.apps[a].phase != Returned
  }

  predicate Rotates(ap: Appender) {
    ap.from != ap.fd
  }

  ghost predicate InPhase(s: State, a: nat, p: Phase) {
    a in s.apps && s.apps[a].phase == p
  }

  /** A batch fills segments in order, from the current one to the last it opened. */
  ghost predicate FillsInOrder(s: State, segs: seq<nat>, fd: nat) {
    && s.current <= fd
    && (forall i :: 0 <= i < |segs| ==> s.current <= segs[i] <= fd)
    && (forall i, j :: 0 <= i < j < |segs| ==> segs[i] <= segs[j])
  }

  ghost predicate Enabled(s: State, st: Step) {
    match st
    case Flush(a, segs, fd) => a !in s.apps && FillsInOrder(s, segs, fd)
    case SyncSealed(a) => InPhase(s, a, Flushed)
    case Skip(a) => InPhase(s, a, SealedSynced) && s.apps[a].hi <= s.synced
    case TakeGate(a) => InPhase(s, a, SealedSynced) && s.gate == None
    case Recheck(a) => InPhase(s, a, AtGate) && s.apps[a].hi <= s.synced
    case Snap(a) => InPhase(s, a, AtGate) && s.synced < s.apps[a].hi
    case Fsync(a) => a in s.apps && s.apps[a].phase.Snapped?
    case Advance(a) => a in s.apps && s.apps[a].phase.Fsynced?
  }

  /** An append that rotates overlaps no other append; others may overlap freely. */
  ghost predicate RotationAlone(s: State, st: Step) {
    st.Flush? ==>
      forall b :: Active(s, b) ==> st.fd == s.current && !Rotates(s.apps[b])
  }

  ghost function AfterFlush(s: State, a: nat, segs: seq<nat>, fd: nat): State {
    s.(log := s.log + segs, current := fd,
       apps := s.apps[a := Appender(Flushed, |s.log|, |s.log| + |segs|, s.current, fd)])
  }

  ghost function Move(s: State, a: nat, p: Phase): State
    requires a in s.apps
  {
    s.(apps := s.apps[a := s.apps[a].(phase := p)])
  }

  /** The records of segments `lo..hi` that are with the OS now. */
  ghost function RecordsIn(log: seq<nat>, lo: nat, hi: nat): set<nat> {
    set r: nat | r < |log| && lo <= log[r] < hi
  }

  ghost function Apply(s: State, st: Step): State
    requires Enabled(s, st)
  {
    match st
    case Flush(a, segs, fd) => AfterFlush(s, a, segs, fd)
    case SyncSealed(a) =>
      Move(s, a, SealedSynced).(durable := s.durable + RecordsIn(s.log, s.apps[a].from, s.apps[a].fd))
    case Skip(a) => Move(s, a, Returned)
    case TakeGate(a) => Move(s, a, AtGate).(gate := Some(a))
    case Recheck(a) => Move(s, a, Returned).(gate := None)
    case Snap(a) => Move(s, a, Snapped(|s.log|))
    case Fsync(a) =>
      Move(s, a, Fsynced(s.apps[a].phase.covered))
        .(durable := s.durable + RecordsIn(s.log, s.apps[a].fd, s.apps[a].fd + 1))
    case Advance(a) =>
      Move(s, a, Returned).(gate := None,
        synced := if s.synced < s.apps[a].phase.covered then s.apps[a].phase.covered else s.synced)
  }

  // ---- the invariant ----

  ghost predicate Mine(ap: Appender, r: nat) {
    ap.lo <= r < ap.hi
  }

  /** A rotating append still has sealed segments to sync. */
  ghost predicate SealedPending(ap: Appender) {
    ap.phase == Flushed && Rotates(ap)
  }

  ghost predicate AppOk(s: State, a: nat)
    requires a in s.apps
  {
    var ap := s.apps[a];
    && ap.lo <= ap.hi <= |s.log|
    && (Active(s, a) ==> ap.fd == s.current && ap.from <= ap.fd)
    && (ap.phase == Returned ==> forall r :: Mine(ap, r) ==> r in s.durable)
    && (ap.phase.Snapped? ==> ap.hi <= ap.phase.covered <= |s.log|)
    && (ap.phase.Fsynced? ==> ap.hi <= ap.phase.covered && forall r :: 0 <= r < ap.phase.covered ==> r in s.durable)
  }

  ghost predicate OwnedByActive(s: State, r: nat) {
    exists a :: Active(s, a) && Mine(s.apps[a], r)
  }

  ghost predicate PendingSealed(s: State, r: nat) {
    exists a :: Active(s, a) && SealedPending(s.apps[a]) && r < |s.log| && s.apps[a].from <= s.log[r] < s.apps[a].fd
  }

  ghost predicate Inv(s: State) {
    && (forall r :: 0 <= r < |s.log| ==> s.log[r] <= s.current)
    && (forall a :: a in s.apps ==> AppOk(s, a))
    // A rotating append is alone.
    && (forall a, b :: Active(s, a) && Active(s, b) && Rotates(s.apps[a]) ==> a == b)
    // Whatever is not durable belongs to an append still under way.
    && (forall r :: 0 <= r < |s.log| && r !in s.durable ==> OwnedByActive(s, r))
    // Whatever lies in an older segment is durable, or about to be synced by the append that sealed it.
    && (forall r :: 0 <= r < |s.log| && s.log[r] != s.current ==> r in s.durable || PendingSealed(s, r))
    // `synced` only ever counts durable records.
    && (forall r :: 0 <= r < s.synced ==> r in s.durable)
  }

  lemma InitialInv()
    ensures Inv(INITIAL)
  {
  }

  // ---- every step keeps it ----

  /** While an append is under way, older segments are durable but for what it
      sealed itself and has not synced yet. */
  lemma OlderIsDurable(s: State, a: nat, r: nat)
    requires Inv(s) && Active(s, a) && r < |s.log| && s.log[r] != s.current
    ensures r in s.durable || (SealedPending(s.apps[a]) && s.apps[a].from <= s.log[r] < s.apps[a].fd)
  {
  }

  /** Moving one append to another phase, while durability only grows. */
  lemma MoveKeepsInv(s: State, s': State, a: nat, p: Phase)
    requires Inv(s) && Active(s, a)
    requires s' == Move(s, a, p).(durable := s'.durable, synced := s'.synced, gate := s'.gate)
    requires s.durable <= s'.durable && AppOk(s', a)
    requires p != Flushed
    requires forall r :: 0 <= r < |s.log| && s.apps[a].from <= s.log[r] < s.apps[a].fd && SealedPending(s.apps[a]) ==>
               r in s'.durable
    requires forall r :: 0 <= r < s'.synced ==> r in s'.durable
    ensures Inv(s')
  {
    forall b | b in s'.apps
      ensures AppOk(s', b)
    {
      assert AppOk(s, b);
    }
    forall b, c | Active(s', b) && Active(s', c) && Rotates(s'.apps[b])
      ensures b == c
    {
      assert Active(s, b) && Active(s, c) && Rotates(s.apps[b]);
    }
    forall r | 0 <= r < |s'.log| && r !in s'.durable
      ensures OwnedByActive(s', r)
    {
      assert OwnedByActive(s, r);
      var b :| Active(s, b) && Mine(s.apps[b], r);
      assert Mine(s'.apps[b], r);
      assert b != a || p != Returned;
      assert Active(s', b) && Mine(s'.apps[b], r);
    }
    forall r | 0 <= r < |s'.log| && s'.log[r] != s'.current
      ensures r in s'.durable || PendingSealed(s', r)
    {
      OlderIsDurable(s, a, r);
    }
  }

  lemma SyncSealedKeepsInv(s: State, a: nat)
    requires Inv(s) && Enabled(s, SyncSealed(a))
    ensures Inv(Apply(s, SyncSealed(a)))
  {
    assert AppOk(s, a);
    MoveKeepsInv(s, Apply(s, SyncSealed(a)), a, SealedSynced);
  }

  lemma SkipKeepsInv(s: State, a: nat)
    requires Inv(s) && Enabled(s, Skip(a))
    ensures Inv(Apply(s, Skip(a)))
  {
    assert AppOk(s, a);
    MoveKeepsInv(s, Apply(s, Skip(a)), a, Returned);
  }

  lemma GateKeepsInv(s: State, st: Step)
    requires Inv(s) && Enabled(s, st) && (st.TakeGate? || st.Recheck? || st.Snap?)
    ensures Inv(Apply(s, st))
  {
    assert AppOk(s, st.a);
    match st
    case TakeGate(a) => MoveKeepsInv(s, Apply(s, st), a, AtGate);
    case Recheck(a) => MoveKeepsInv(s, Apply(s, st), a, Returned);
    case Snap(a) => MoveKeepsInv(s, Apply(s, st), a, Snapped(|s.log|));
  }

  /** One fsync of the current segment covers every record flushed so far: older
      segments are durable already. */
  lemma FsyncKeepsInv(s: State, a: nat)
    requires Inv(s) && Enabled(s, Fsync(a))
    ensures Inv(Apply(s, Fsync(a)))
  {
    var s' := Apply(s, Fsync(a));
    assert AppOk(s, a);
    forall r | 0 <= r < s.apps[a].phase.covered
      ensures r in s'.durable
    {
      if s.log[r] != s.current {
        OlderIsDurable(s, a, r);
      }
    }
    MoveKeepsInv(s, s', a, Fsynced(s.apps[a].phase.covered));
  }

  lemma AdvanceKeepsInv(s: State, a: nat)
    requires Inv(s) && Enabled(s, Advance(a))
    ensures Inv(Apply(s, Advance(a)))
  {
    assert AppOk(s, a);
    MoveKeepsInv(s, Apply(s, Advance(a)), a, Returned);
  }

  lemma FlushKeepsInv(s: State, a: nat, segs: seq<nat>, fd: nat)
    requires Inv(s) && Enabled(s, Flush(a, segs, fd)) && RotationAlone(s, Flush(a, segs, fd))
    ensures Inv(Apply(s, Flush(a, segs, fd)))
  {
    var s' := Apply(s, Flush(a, segs, fd));
    assert Active(s', a);
    forall b | b in s'.apps
      ensures AppOk(s', b)
    {
      if b != a {
        assert AppOk(s, b);
        assert Active(s', b) <==> Active(s, b);
      }
    }
    forall r | 0 <= r < |s'.log| && r !in s'.durable
      ensures OwnedByActive(s', r)
    {
      if r < |s.log| {
        assert OwnedByActive(s, r);
        var b :| Active(s, b) && Mine(s.apps[b], r);
        assert Active(s', b) && Mine(s'.apps[b], r);
      } else {
        assert Mine(s'.apps[a], r);
      }
    }
    FlushKeepsOlder(s, a, segs, fd);
  }

  lemma FlushKeepsOlder(s: State, a: nat, segs: seq<nat>, fd: nat)
    requires Inv(s) && Enabled(s, Flush(a, segs, fd)) && RotationAlone(s, Flush(a, segs, fd))
    ensures var s' := Apply(s, Flush(a, segs, fd));
            forall r :: 0 <= r < |s'.log| && s'.log[r] != s'.current ==> r in s'.durable || PendingSealed(s', r)
  {
    var s' := Apply(s, Flush(a, segs, fd));
    forall r | 0 <= r < |s'.log| && s'.log[r] != s'.current
      ensures r in s'.durable || PendingSealed(s', r)
    {
      if r < |s.log| {
        if OwnedByActive(s, r) {
          var b :| Active(s, b) && Mine(s.apps[b], r);
          OlderIsDurable(s, b, r);
        }
      } else {
        assert s'.log[r] == segs[r - |s.log|];
        assert Active(s', a) && SealedPending(s'.apps[a]);
      }
    }
  }

  lemma StepKeepsInv(s: State, st: Step)
    requires Inv(s) && Enabled(s, st) && RotationAlone(s, st)
    ensures Inv(Apply(s, st))
  {
    match st
    case Flush(a, segs, fd) => FlushKeepsInv(s, a, segs, fd);
    case SyncSealed(a) => SyncSealedKeepsInv(s, a);
    case Skip(a) => SkipKeepsInv(s, a);
    case TakeGate(a) => GateKeepsInv(s, st);
    case Recheck(a) => GateKeepsInv(s, st);
    case Snap(a) => GateKeepsInv(s, st);
    case Fsync(a) => FsyncKeepsInv(s, a);
    case Advance(a) => AdvanceKeepsInv(s, a);
  }

  ghost predicate Run(states: seq<State>, steps: seq<Step>) {
    && |states| == |steps| + 1
    && states[0] == INITIAL
    && forall i :: 0 <= i < |steps| ==> Enabled(states[i], steps[i]) && states[i + 1] == Apply(states[i], steps[i])
  }

  lemma {:induction false} RunKeepsInv(states: seq<State>, steps: seq<Step>, i: nat)
    requires Run(states, steps) && i < |states|
    requires forall k :: 0 <= k < |steps| ==> RotationAlone(states[k], steps[k])
    ensures Inv(states[i])
  {
    if i == 0 {
      InitialInv();
    } else {
      RunKeepsInv(states, steps, i - 1);
      StepKeepsInv(states[i - 1], steps[i - 1]);
    }
  }

  /** Over every interleaving in which a rotating append overlaps no other: an
      append that returned has all its records on durable storage, whether it
      ran the fsync or skipped it. */
  lemma ReturnedIsDurable(states: seq<State>, steps: seq<Step>, i: nat, a: nat, r: nat)
    requires Run(states, steps) && i < |states|
    requires forall k :: 0 <= k < |steps| ==> RotationAlone(states[k], steps[k])
    requires InPhase(states[i], a, Returned) && Mine(states[i].apps[a], r)
    ensures r in states[i].durable
  {
    RunKeepsInv(states, steps, i);
    assert AppOk(states[i], a);
  }

  // ---- exactly when it holds ----

  /** The fsync about to run reaches every record its snapshot counts: each lies in the
      file being synced or is durable already. */
  ghost predicate Reaches(s: State, a: nat)
    requires Enabled(s, Fsync(a))
  {
    forall r :: 0 <= r < s.apps[a].phase.covered && r < |s.log| ==> s.log[r] == s.apps[a].fd || r in s.durable
  }

  ghost predicate AppendSound(s: State, ap: Appender) {
    && ap.hi <= |s.log|
    && (ap.phase == Returned ==> forall r :: Mine(ap, r) ==> r in s.durable)
    && (ap.phase.Snapped? ==> ap.hi <= ap.phase.covered <= |s.log|)
    && (ap.phase.Fsynced? ==>
          ap.hi <= ap.phase.covered <= |s.log| && forall r :: 0 <= r < ap.phase.covered ==> r in s.durable)
  }

  /** Returned appends are durable, and what is or will be counted as synced is. */
  ghost predicate Sound(s: State) {
    && s.synced <= |s.log| && (forall r :: 0 <= r < s.synced ==> r in s.durable)
    && (forall a :: a in s.apps ==> AppendSound(s, s.apps[a]))
  }

  lemma OthersStaySound(s: State, st: Step, b: nat)
    requires Sound(s) && Enabled(s, st) && b != st.a && b in s.apps
    ensures AppendSound(Apply(s, st), Apply(s, st).apps[b])
  {
    assert AppendSound(s, s.apps[b]);
  }

  /** Whatever the interleaving, rotating or not, a step keeps this exactly unless it
      is an fsync that does not reach what its snapshot counts. */
  lemma StepSoundIff(s: State, st: Step)
    requires Sound(s) && Enabled(s, st)
    ensures Sound(Apply(s, st)) <==> (st.Fsync? ==> Reaches(s, st.a))
  {
    var s' := Apply(s, st);
    if !st.Flush? {
      assert AppendSound(s, s.apps[st.a]);
    }
    forall b | b in s'.apps && b != st.a
      ensures AppendSound(s', s'.apps[b])
    {
      OthersStaySound(s, st, b);
    }
    if st.Fsync? {
      var covered := s.apps[st.a].phase.covered;
      assert forall r :: 0 <= r < covered ==> (r in s'.durable <==> s.log[r] == s.apps[st.a].fd || r in s.durable);
      assert AppendSound(s', s'.apps[st.a]) <==> forall r :: 0 <= r < covered ==> r in s'.durable;
    } else {
      assert AppendSound(s', s'.apps[st.a]);
    }
  }

  /** Over every run in which each fsync reaches what it counts, rotations and all, an
      append that returned has all its records on durable storage. */
  lemma {:induction false} ReachedIsDurable(states: seq<State>, steps: seq<Step>, i: nat)
    requires Run(states, steps) && i < |states|
    requires forall k :: 0 <= k < i && steps[k].Fsync? ==> Reaches(states[k], steps[k].a)
    ensures Sound(states[i])
    ensures forall a, r :: InPhase(states[i], a, Returned) && Mine(states[i].apps[a], r) ==> r in states[i].durable
  {
    if i > 0 {
      ReachedIsDurable(states, steps, i - 1);
      StepSoundIff(states[i - 1], steps[i - 1]);
    }
    assert forall a :: a in states[i].apps ==> AppendSound(states[i], states[i].apps[a]);
  }

  /** Once every earlier append has returned, the next may rotate, and while none rotates
      any number may overlap. */
  lemma RotationAllowed(s: State, a: nat, segs: seq<nat>, fd: nat)
    requires forall b :: b in s.apps ==>
               s.apps[b].phase == Returned || (fd == s.current && s.apps[b].from == s.apps[b].fd)
    ensures RotationAlone(s, Flush(a, segs, fd))
  {
  }

  // ---- the gate ----

  ghost predicate Inside(s: State, a: nat) {
    a in s.apps && (s.apps[a].phase == AtGate || s.apps[a].phase.Snapped? || s.apps[a].phase.Fsynced?)
  }

  /** The gate is held by whoever is inside. */
  ghost predicate GateInv(s: State) {
    forall a: nat :: Inside(s, a) <==> s.gate == Some(a)
  }

  lemma {:induction false} GateExclusive(states: seq<State>, steps: seq<Step>, i: nat)
    requires Run(states, steps) && i < |states|
    ensures GateInv(states[i])
    ensures forall a: nat, b: nat :: Inside(states[i], a) && Inside(states[i], b) ==> a == b
  {
    if i > 0 {
      GateExclusive(states, steps, i - 1);
      var s, st := states[i - 1], steps[i - 1];
      forall a: nat | a != st.a
        ensures Inside(states[i], a) <==> Inside(s, a)
      {
      }
      assert !st.Flush? && !st.SyncSealed? && !st.Skip? && !st.TakeGate? ==> Inside(s, st.a);
    }
  }

  /** No append is ever stuck: it has a next step, and exactly one choice at each turn, or
      it waits for the one inside the gate, which has one. */
  lemma NeverStuck(s: State, a: nat)
    requires GateInv(s) && Active(s, a)
    ensures InPhase(s, a, Flushed) ==> Enabled(s, SyncSealed(a))
    ensures InPhase(s, a, SealedSynced) && s.gate == None ==> Enabled(s, TakeGate(a))
    ensures InPhase(s, a, SealedSynced) && s.gate != None ==> Inside(s, s.gate.value)
    ensures InPhase(s, a, SealedSynced) ==> (Enabled(s, Skip(a)) <==> s.apps[a].hi <= s.synced)
    ensures InPhase(s, a, AtGate) ==> (Enabled(s, Recheck(a)) <==> !Enabled(s, Snap(a)))
    ensures InPhase(s, a, AtGate) ==> (Enabled(s, Recheck(a)) <==> s.apps[a].hi <= s.synced)
    ensures Inside(s, a) ==>
              Enabled(s, Recheck(a)) || Enabled(s, Snap(a)) || Enabled(s, Fsync(a)) || Enabled(s, Advance(a))
  {
  }

  // ---- the hypothesis is needed ----

  /** Append 0 writes record 0 to segment 0; append 1 rotates and writes record 1
      to segment 1. Append 0 then syncs segment 0 but counts both records as
      synced, so append 1 skips its fsync and returns with record 1 not durable. */
  ghost const RACE: seq<Step> := [
    Flush(0, [0], 0), Flush(1, [1], 1), SyncSealed(0), TakeGate(0), Snap(0), Fsync(0), Advance(0),
    SyncSealed(1), Skip(1)]

  ghost function RacePair(durable: set<nat>, synced: nat, gate: Option<nat>, first: Phase, second: Phase): State {
    State([0, 1], 1, durable, synced, gate, map[0 := Appender(first, 0, 1, 0, 0), 1 := Appender(second, 1, 2, 0, 1)])
  }

  ghost const RACE_STATES: seq<State> := [
    INITIAL,
    State([0], 0, {}, 0, None, map[0 := Appender(Flushed, 0, 1, 0, 0)]),
    RacePair({}, 0, None, Flushed, Flushed),
    RacePair({}, 0, None, SealedSynced, Flushed),
    RacePair({}, 0, Some(0), AtGate, Flushed),
    RacePair({}, 0, Some(0), Snapped(2), Flushed),
    RacePair({0}, 0, Some(0), Fsynced(2), Flushed),
    RacePair({0}, 2, None, Returned, Flushed),
    RacePair({0}, 2, None, Returned, SealedSynced),
    RacePair({0}, 2, None, Returned, Returned)]

  lemma RaceSegments()
    ensures RecordsIn([0, 1], 0, 1) == {0} && RecordsIn([0, 1], 0, 0) == {}
  {
  }

  lemma RaceSteps()
    ensures Run(RACE_STATES, RACE)
  {
    forall i | 0 <= i < 9
      ensures Enabled(RACE_STATES[i], RACE[i]) && RACE_STATES[i + 1] == Apply(RACE_STATES[i], RACE[i])
    {
      RaceStep(i);
    }
  }

  lemma RaceStep(i: nat)
    requires i < 9
    ensures Enabled(RACE_STATES[i], RACE[i]) && RACE_STATES[i + 1] == Apply(RACE_STATES[i], RACE[i])
  {
    if i < 2 {
      RaceFlush(i);
    } else if i < 6 {
      RaceFsync(i);
    } else {
      RaceReturn(i);
    }
  }

  lemma RaceFlush(i: nat)
    requires i < 2
    ensures Enabled(RACE_STATES[i], RACE[i]) && RACE_STATES[i + 1] == Apply(RACE_STATES[i], RACE[i])
  {
    assert Apply(RACE_STATES[i], RACE[i]).log == if i == 0 then [0] else [0, 1];
  }

  lemma RaceFsync(i: nat)
    requires 2 <= i < 6
    ensures Enabled(RACE_STATES[i], RACE[i]) && RACE_STATES[i + 1] == Apply(RACE_STATES[i], RACE[i])
  {
    RaceSegments();
  }

  lemma RaceReturn(i: nat)
    requires 6 <= i < 9
    ensures Enabled(RACE_STATES[i], RACE[i]) && RACE_STATES[i + 1] == Apply(RACE_STATES[i], RACE[i])
  {
    RaceSegments();
  }

  /** Without the hypothesis a returned append can lose its record in a crash. */
  lemma RotationRaceLosesRecord()
    ensures Run(RACE_STATES, RACE)
    ensures var s := RACE_STATES[9]; InPhase(s, 1, Returned) && Mine(s.apps[1], 1) && 1 !in s.durable
  {
    RaceSteps();
  }
}
