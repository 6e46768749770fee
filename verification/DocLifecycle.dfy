/** What the control leader's work achieves: a finished rewrite retires its sources,
raises the floor tombstones are purged under, and lets a purge go through. */
module DocLifecycle {
  import opened Prelude
  import opened TombstoneTable
  import opened TombstoneCache
  import opened Metastore
  import opened DocProtocol
  import opened DocProtocolSteps
  import opened DocProtocolTheorems

  // ---- what a finished job leaves behind ----

  /** The job's rows aside, nothing but the job itself changes. */
  ghost predicate OnlyTouches(s: State, s': State, n: nat)
    requires n in s.jobs
  {
    && |s'.splits| == |s.splits| && s' == s.(splits := s'.splits, jobs := s'.jobs)
    && (forall k :: 0 <= k < |s.splits| && !Touches(s.jobs[n], k) ==> s'.splits[k] == s.splits[k])
    && (forall k :: 0 <= k < |s.splits| ==> s'.splits[k].docs == s.splits[k].docs)
    && s'.jobs == s.jobs - {n}
  }

  /** After a swap a search sees the rewritten split, up to date to the list's end, and
      none of its sources. */
  lemma SwapTakesEffect(s: State, n: nat)
    requires Inv(s) && Enabled(s, Swap(n))
    ensures var s', j := Apply(s, Swap(n)), s.jobs[n];
            && OnlyTouches(s, s', n)
            && (forall i :: 0 <= i < |j.sources| ==> s'.splits[j.sources[i]].state == MarkedForDelete)
            && s'.splits[j.output.value].state == Published && s'.splits[j.output.value].applied == LastOrd(j.list)
            && s'.splits[j.output.value].docs == Output(s, n)
  {
    assert JobOk(s, s.jobs[n]);
  }

  /** Sources with nothing left to show are retired, with no split in their place. */
  lemma DropTakesEffect(s: State, n: nat)
    requires Inv(s) && Enabled(s, DropSources(n))
    ensures var s', j := Apply(s, DropSources(n)), s.jobs[n];
            && OnlyTouches(s, s', n)
            && forall i :: 0 <= i < |j.sources| ==> s'.splits[j.sources[i]].state == MarkedForDelete
  {
    assert JobOk(s, s.jobs[n]);
  }

  /** A source with nothing hidden stays as it is, up to date to the list's end. */
  lemma MarkTakesEffect(s: State, n: nat)
    requires Inv(s) && Enabled(s, MarkApplied(n))
    ensures var s', k := Apply(s, MarkApplied(n)), s.jobs[n].sources[0];
            && OnlyTouches(s, s', n)
            && s'.splits[k].state == Published && LastOrd(s.jobs[n].list) <= s'.splits[k].applied
  {
    assert JobOk(s, s.jobs[n]);
  }

  /** Retention hides a whole split, and only that one. */
  lemma RetainTakesEffect(s: State, k: nat)
    requires Inv(s) && Enabled(s, Retain(k))
    ensures var s' := Apply(s, Retain(k));
            && |s'.splits| == |s.splits| && s'.table == s.table && s'.pending == s.pending
            && s'.splits[k].state == MarkedForDelete
            && (forall i :: 0 <= i < |s.splits| && i != k ==> s'.splits[i] == s.splits[i])
            && forall v :: v in s'.dropped <==> v in s.dropped || v in s.splits[k].docs
  {
  }

  // ---- the floor ----

  /** The splits that keep a row from being purged. */
  ghost function Blockers(s: State, ord: nat): set<nat> {
    set k | 0 <= k < |s.splits| && s.splits[k].state != MarkedForDelete && s.splits[k].applied < ord
  }

  lemma FloorIsNoBlockers(s: State, id: string)
    requires id in s.table.rows
    ensures BelowFloor(s.table, s.splits, id) <==> Blockers(s, s.table.rows[id].ord) == {}
  {
    var blockers := Blockers(s, s.table.rows[id].ord);
    if BelowFloor(s.table, s.splits, id) {
      assert forall k :: k !in blockers;
    } else {
      var k :| 0 <= k < |s.splits| && Live(s.splits[k]) && s.splits[k].applied < s.table.rows[id].ord;
      assert k in blockers;
    }
  }

  /** The steps that end a job with its work done. */
  ghost predicate Finishes(st: Step, n: nat) {
    st == Swap(n) || st == DropSources(n) || st == MarkApplied(n)
  }

  /** A finished job takes exactly its sources out of the way of every row its list
      reaches: nothing else stops or starts blocking. */
  lemma JobLiftsFloor(s: State, st: Step, n: nat, ord: nat)
    requires Inv(s) && Enabled(s, st) && Finishes(st, n) && ord <= LastOrd(s.jobs[n].list)
    ensures Blockers(Apply(s, st), ord) == Blockers(s, ord) - Elements(s.jobs[n].sources)
  {
    match st
    case Swap(_) => SwapLifts(s, n, ord);
    case DropSources(_) => DropLifts(s, n, ord);
    case MarkApplied(_) => MarkLifts(s, n, ord);
  }

  lemma SwapLifts(s: State, n: nat, ord: nat)
    requires Inv(s) && Enabled(s, Swap(n)) && ord <= LastOrd(s.jobs[n].list)
    ensures Blockers(Apply(s, Swap(n)), ord) == Blockers(s, ord) - Elements(s.jobs[n].sources)
  {
    SwapTakesEffect(s, n);
    assert JobOk(s, s.jobs[n]);
    SourcesStepAside(s, Apply(s, Swap(n)), n, ord);
  }

  lemma DropLifts(s: State, n: nat, ord: nat)
    requires Inv(s) && Enabled(s, DropSources(n)) && ord <= LastOrd(s.jobs[n].list)
    ensures Blockers(Apply(s, DropSources(n)), ord) == Blockers(s, ord) - Elements(s.jobs[n].sources)
  {
    DropTakesEffect(s, n);
    SourcesStepAside(s, Apply(s, DropSources(n)), n, ord);
  }

  lemma MarkLifts(s: State, n: nat, ord: nat)
    requires Inv(s) && Enabled(s, MarkApplied(n)) && ord <= LastOrd(s.jobs[n].list)
    ensures Blockers(Apply(s, MarkApplied(n)), ord) == Blockers(s, ord) - Elements(s.jobs[n].sources)
  {
    MarkTakesEffect(s, n);
    SourcesStepAside(s, Apply(s, MarkApplied(n)), n, ord);
  }

  lemma SourcesStepAside(s: State, s': State, n: nat, ord: nat)
    requires n in s.jobs && OnlyTouches(s, s', n)
    requires forall i :: 0 <= i < |s.jobs[n].sources| ==>
               var k := s.jobs[n].sources[i];
               k < |s'.splits| && (s'.splits[k].state == MarkedForDelete || ord <= s'.splits[k].applied)
    requires var out := s.jobs[n].output;
             out.Some? ==>
               && out.value < |s.splits|
               && ord <= s.splits[out.value].applied && ord <= s'.splits[out.value].applied
    ensures Blockers(s', ord) == Blockers(s, ord) - Elements(s.jobs[n].sources)
  {
    forall k: nat | k < |s.splits|
      ensures k in Blockers(s', ord) <==> k in Blockers(s, ord) && k !in s.jobs[n].sources
    {
      assert Touches(s.jobs[n], k) || s'.splits[k] == s.splits[k];
    }
  }

  /** Jobs over all the splits in its way let a row its list reaches be purged, once no
      unflushed write needs it. */
  lemma LastJobFreesRow(s: State, st: Step, n: nat, id: string)
    requires Inv(s) && Enabled(s, st) && Finishes(st, n) && id in s.table.rows
    requires s.table.rows[id].ord <= LastOrd(s.jobs[n].list)
    requires Blockers(s, s.table.rows[id].ord) <= Elements(s.jobs[n].sources)
    ensures PurgeInGrace(Apply(s, st), {id}) ==> Enabled(Apply(s, st), Purge({id}))
  {
    JobLiftsFloor(s, st, n, s.table.rows[id].ord);
    assert Apply(s, st).table == s.table;
    FloorIsNoBlockers(Apply(s, st), id);
  }

  /** What the purge statement deletes, within the grace period, is a purge step. */
  lemma PurgeIsStep(s: State, cutoff: int, limit: nat, gone: set<string>)
    requires PurgedOldest(s.table, s.splits, cutoff, limit, gone) && PurgeInGrace(s, gone)
    ensures Enabled(s, Purge(gone)) && Apply(s, Purge(gone)).table == DropRows(s.table, gone)
  {
    FloorHolds(s.table, s.splits, cutoff, limit, gone);
  }

  // ---- one whole life ----

  const OLDER := Version("a", 1)
  const NEWER := Version("a", 2)

  /** Two writes of one id, the newer one's tombstone, a rewrite, a purge, and retention. */
  ghost const LIFE: seq<Step> := [
    Accept(OLDER), Accept(NEWER), Stage([OLDER, NEWER]), Publish(0), Confirm({OLDER, NEWER}),
    Upsert([NewTombstone("a", 2)], Table(map["a" := Row(1, 2, 0)], 2)),
    StartJob(0, [0]), ReadPage(0, 10, [Tombstone(1, "a", 2)]), StageRebuilt(0), Swap(0), Purge({"a"}), Retain(1)]

  ghost function Living(rows: map<string, Row>, next: nat, splits: seq<Split>, jobs: map<nat, Job>,
                        purged: set<NewTombstone>): State {
    State(Table(rows, next), splits, jobs, {}, {OLDER, NEWER},
          if next == 1 then {} else {NewTombstone("a", 2)}, purged, {OLDER, NEWER}, {})
  }

  ghost const LIFE_STATES: seq<State> :=
    var both, row, bound := {OLDER, NEWER}, map["a" := Row(1, 2, 0)], NewTombstone("a", 2);
    var source, gone := Split([OLDER, NEWER], 0, Published), Split([OLDER, NEWER], 0, MarkedForDelete);
    var list := [Tombstone(1, "a", 2)];
    [INITIAL,
     State(Table(map[], 1), [], map[], {OLDER}, {OLDER}, {}, {}, {}, {}),
     State(Table(map[], 1), [], map[], both, both, {}, {}, {}, {}),
     State(Table(map[], 1), [Split([OLDER, NEWER], 0, Staged)], map[], both, both, {}, {}, {}, {}),
     State(Table(map[], 1), [source], map[], both, both, {}, {}, both, {}),
     Living(map[], 1, [source], map[], {}),
     Living(row, 2, [source], map[], {}),
     Living(row, 2, [source], map[0 := Job([0], [0], [], false, None)], {}),
     Living(row, 2, [source], map[0 := Job([0], [0], list, true, None)], {}),
     Living(row, 2, [source, Split([NEWER], 1, Staged)], map[0 := Job([0], [0], list, true, Some(1))], {}),
     Living(row, 2, [gone, Split([NEWER], 1, Published)], map[], {}),
     Living(map[], 2, [gone, Split([NEWER], 1, Published)], map[], {bound}),
     Living(map[], 2, [gone, Split([NEWER], 1, MarkedForDelete)], map[], {bound}).(dropped := {NEWER})]

  ghost predicate LifeStep(i: nat) {
    i < 12 && Enabled(LIFE_STATES[i], LIFE[i]) && LIFE_STATES[i + 1] == Apply(LIFE_STATES[i], LIFE[i])
  }

  lemma Born()
    ensures LifeStep(0) && LifeStep(1) && LifeStep(2) && LifeStep(3) && LifeStep(4)
  {
  }

  lemma Replaced()
    ensures LifeStep(5) && LifeStep(6)
  {
    FirstUpsert(NewTombstone("a", 2), Table(map["a" := Row(1, 2, 0)], 2));
    assert Seeds(LIFE_STATES[6].splits, [0]) == [0];
  }

  lemma Listed()
    ensures LifeStep(7)
  {
    assert [] + [Tombstone(1, "a", 2)] == [Tombstone(1, "a", 2)];
  }

  lemma KeepsNewer(list: seq<Tombstone>)
    requires list == [Tombstone(1, "a", 2)]
    ensures Keep([OLDER, NEWER], 0, list) == [NEWER]
  {
    assert list[0].ord == 1 && Hides(list[0], OLDER) && Dropped(list, 0, OLDER) && !Dropped(list, 0, NEWER);
    assert [OLDER, NEWER][..1] == [OLDER] && [OLDER][..0] == [];
    assert Keep([OLDER], 0, list) == [];
  }

  lemma RebuiltAlone(splits: seq<Split>, k: nat, seed: nat, list: seq<Tombstone>)
    requires k < |splits|
    ensures Rebuilt(splits, [k], [seed], list) == Keep(splits[k].docs, seed, list)
  {
    assert [k][..0] == [] && [seed][..0] == [];
    assert Rebuilt(splits, [k][..0], [seed][..0], list) == [];
  }

  lemma Rebuild()
    ensures LifeStep(8)
  {
    var s := LIFE_STATES[8];
    KeepsNewer(s.jobs[0].list);
    RebuiltAlone(s.splits, 0, 0, s.jobs[0].list);
  }

  lemma Swapped()
    ensures LifeStep(9)
  {
    var s := LIFE_STATES[9];
    assert SwapRows(s.splits, [0], 1) == LIFE_STATES[10].splits;
  }

  lemma PurgedAfter()
    ensures LifeStep(10)
  {
    var s := LIFE_STATES[10];
    assert DropRows(s.table, {"a"}).rows == map[];
    assert BoundsOf(s.table, {"a"}) == {NewTombstone("a", 2)};
  }

  lemma Expired()
    ensures LifeStep(11)
  {
    var s := LIFE_STATES[11];
    assert MarkRows(s.splits, [1]) == LIFE_STATES[12].splits;
  }

  lemma LifeGoesOn(i: nat)
    requires i < 12
    ensures LifeStep(i)
  {
    if i < 5 {
      Born();
    } else if i < 7 {
      Replaced();
    } else if i == 7 {
      Listed();
    } else if i == 8 {
      Rebuild();
    } else if i == 9 {
      Swapped();
    } else if i == 10 {
      PurgedAfter();
    } else {
      Expired();
    }
  }

  lemma LifeShows(i: nat)
    requires 5 <= i <= 12
    ensures Visible(LIFE_STATES[i], NEWER) <==> i <= 11
    ensures Visible(LIFE_STATES[i], OLDER) <==> i == 5
  {
    var s := LIFE_STATES[i];
    assert i <= 9 ==> s.splits[0] == Split([OLDER, NEWER], 0, Published);
    assert 10 <= i <= 11 ==> s.splits[1] == Split([NEWER], 1, Published);
  }

  /** Before the replacement's tombstone both versions are returned, after it only the
      newer one, through rewrite and purge, with the older one gone from every live split
      and the table empty; after retention none. */
  lemma WholeLife()
    ensures Run(LIFE_STATES, LIFE)
    ensures forall i :: 5 <= i <= 12 ==> (Visible(LIFE_STATES[i], NEWER) <==> i <= 11)
    ensures forall i :: 5 <= i <= 12 ==> (Visible(LIFE_STATES[i], OLDER) <==> i == 5)
    ensures LIFE_STATES[11].table.rows == map[] && !InLive(LIFE_STATES[11], OLDER)
  {
    LifeRuns();
    forall i | 5 <= i <= 12
      ensures Visible(LIFE_STATES[i], NEWER) <==> i <= 11
      ensures Visible(LIFE_STATES[i], OLDER) <==> i == 5
    {
      LifeShows(i);
    }
    LifeEnds();
  }

  lemma LifeRuns()
    ensures Run(LIFE_STATES, LIFE)
  {
    forall i | 0 <= i < 12
      ensures Enabled(LIFE_STATES[i], LIFE[i]) && LIFE_STATES[i + 1] == Apply(LIFE_STATES[i], LIFE[i])
    {
      LifeGoesOn(i);
    }
  }

  lemma LifeEnds()
    ensures LIFE_STATES[11].table.rows == map[] && !InLive(LIFE_STATES[11], OLDER)
  {
  }
}
