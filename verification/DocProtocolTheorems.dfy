/** What the document-mode protocol guarantees in every reachable state. */
module DocProtocolTheorems {
  import opened Prelude
  import opened TombstoneTable
  import opened TombstoneCache
  import opened Metastore
  import opened DocProtocol
  import opened DocProtocolSteps

  ghost predicate Visible(s: State, v: Version) {
    InPublished(s, v) && !TableHides(s.table, v)
  }

  // ---- last writer wins ----

  /** Nothing a search can see is older than any bound that ever landed, even
      after the row itself was raised, applied by a rewrite, or purged. */
  lemma VisibleIsNewest(s: State, v: Version, b: NewTombstone)
    requires Inv(s) && Visible(s, v) && b in s.landed && b.id == v.id
    ensures b.before <= v.stamp
  {
    if v.stamp < b.before {
      var k :| 0 <= k < |s.splits| && s.splits[k].state == Published && v in s.splits[k].docs;
      assert Live(s.splits[k]) && InFlight(s, v);
      if !InTable(s.table, b) {
        var p :| p in s.purged && p.id == b.id && b.before <= p.before;
        assert Below(p, v);
        assert false;
      }
    }
  }

  /** The write replaced an older one. A write under a fresh generated id does not. */
  ghost predicate Replaces(s: State, v: Version) {
    exists u :: u in s.accepted && u.id == v.id && u.stamp < v.stamp
  }

  /** Every write of `id` has left the ingest buffers, and the tombstone of every
      write that replaced an older one has landed. */
  ghost predicate Settled(s: State, id: string) {
    forall v :: v in s.accepted && v.id == id ==>
      v in s.served && (Replaces(s, v) ==> NewTombstone(id, v.stamp) in s.landed)
  }

  /** Once an id has settled, whatever is visible is the newest write of it, and
      nothing is visible if a delete is newer than every write. */
  lemma LastWriterWins(s: State, id: string)
    requires Inv(s) && Settled(s, id)
    ensures forall v :: Visible(s, v) && v.id == id ==>
              && v in s.accepted
              && (forall w :: w in s.accepted && w.id == id ==> w.stamp <= v.stamp)
              && (forall b :: b in s.landed && b.id == id ==> b.before <= v.stamp)
    ensures forall v :: v in s.accepted && v.id == id && v !in s.dropped &&
                        (forall b :: b in s.landed && b.id == id ==> b.before <= v.stamp) ==>
              Visible(s, v)
  {
    forall v | Visible(s, v) && v.id == id
      ensures v in s.accepted
      ensures forall w :: w in s.accepted && w.id == id ==> w.stamp <= v.stamp
      ensures forall b :: b in s.landed && b.id == id ==> b.before <= v.stamp
    {
      var k :| 0 <= k < |s.splits| && s.splits[k].state == Published && v in s.splits[k].docs;
      forall b | b in s.landed && b.id == id
        ensures b.before <= v.stamp
      {
        VisibleIsNewest(s, v, b);
      }
      forall w | w in s.accepted && w.id == id
        ensures w.stamp <= v.stamp
      {
        assert v.stamp < w.stamp ==> Replaces(s, w) && NewTombstone(id, w.stamp) in s.landed;
      }
    }
    forall v | v in s.accepted && v.id == id && v !in s.dropped &&
               (forall b :: b in s.landed && b.id == id ==> b.before <= v.stamp)
      ensures Visible(s, v)
    {
      assert !Superseded(s.landed, v);
      assert InPublished(s, v);
      NotHiddenAbove(s, v);
    }
  }

  lemma NotHiddenAbove(s: State, v: Version)
    requires TableInv(s) && forall b :: b in s.landed && b.id == v.id ==> b.before <= v.stamp
    ensures !TableHides(s.table, v)
  {
    if v.id in s.table.rows {
      assert NewTombstone(v.id, s.table.rows[v.id].before) in s.landed;
    }
  }

  /** The same, over whole runs: any order, batching and repetition of accepts,
      upserts, flushes, rewrites and purges. */
  lemma RunConverges(states: seq<State>, steps: seq<Step>, id: string)
    requires Run(states, steps) && Settled(states[|steps|], id)
    ensures var s := states[|steps|];
            forall v, w :: Visible(s, v) && v.id == id && w in s.accepted && w.id == id ==> w.stamp <= v.stamp
    ensures var s := states[|steps|];
            forall v, b :: Visible(s, v) && v.id == id && b in s.landed && b.id == id ==> b.before <= v.stamp
    ensures var s := states[|steps|];
            forall v :: v in s.accepted && v.id == id && v !in s.dropped &&
                        (forall b :: b in s.landed && b.id == id ==> b.before <= v.stamp) ==>
              Visible(s, v)
  {
    RunKeepsInv(states, steps, |steps|);
    LastWriterWins(states[|steps|], id);
  }

  // ---- every reader's view is the table's ----

  /** A search node's list, stale entries and purged entries included, hides
      exactly what the table hides in every split it can search. */
  lemma ListViewAgrees(s: State, list: seq<Tombstone>, v: Version)
    requires Inv(s) && FullyRead(list, s.table) && ListLanded(s.landed, list) && InLive(s, v)
    ensures (exists i :: 0 <= i < |list| && Hides(list[i], v)) <==> TableHides(s.table, v)
  {
    if i :| 0 <= i < |list| && Hides(list[i], v) {
      BelowLandedIsHidden(s, NewTombstone(list[i].id, list[i].before), v);
    }
    if TableHides(s.table, v) {
      assert Entry(s.table, v.id) in list;
      var i :| 0 <= i < |list| && list[i] == Entry(s.table, v.id);
      assert Hides(list[i], v);
    }
  }

  lemma BelowLandedIsHidden(s: State, b: NewTombstone, v: Version)
    requires Inv(s) && b in s.landed && Below(b, v) && InLive(s, v)
    ensures TableHides(s.table, v)
  {
    if !InTable(s.table, b) {
      var p :| p in s.purged && p.id == b.id && b.before <= p.before;
      assert Below(p, v) && InFlight(s, v);
    }
  }

  /** A split's cached exclusion set, built from the tombstones `processed` so
      far on a reader opened at the split's applied ordinal, excludes exactly
      what the table hides, whichever lists it was extended from. */
  lemma ExclusionViewAgrees(s: State, k: nat, seed: nat, processed: set<Tombstone>, v: Version)
    requires Inv(s) && k < |s.splits| && Live(s.splits[k]) && v in s.splits[k].docs
    requires seed <= s.splits[k].applied
    requires forall t :: t in processed ==> NewTombstone(t.id, t.before) in s.landed
    requires forall id :: id in s.table.rows && seed < s.table.rows[id].ord ==> Entry(s.table, id) in processed
    ensures (exists t :: t in processed && Hides(t, v)) <==> TableHides(s.table, v)
  {
    if t :| t in processed && Hides(t, v) {
      assert InLive(s, v);
      BelowLandedIsHidden(s, NewTombstone(t.id, t.before), v);
    }
    if TableHides(s.table, v) {
      assert Clean(s.table, s.splits[k]);
      assert Hides(Entry(s.table, v.id), v);
    }
  }

  // ---- maintenance never changes what a search returns ----

  ghost function Occurs(docs: seq<Version>, v: Version): nat {
    if docs == [] then 0
    else Occurs(docs[..|docs| - 1], v) + (if docs[|docs| - 1] == v then 1 else 0)
  }

  ghost function Contribution(sp: Split, t: Table, v: Version): nat {
    if sp.state == Published && !TableHides(t, v) then Occurs(sp.docs, v) else 0
  }

  /** How many copies of `v` a match-all search returns. */
  ghost function Results(splits: seq<Split>, t: Table, v: Version): nat {
    if splits == [] then 0
    else Results(splits[..|splits| - 1], t, v) + Contribution(splits[|splits| - 1], t, v)
  }

  ghost function SourceResults(splits: seq<Split>, sources: seq<nat>, t: Table, v: Version): nat
    requires forall i :: 0 <= i < |sources| ==> sources[i] < |splits|
  {
    if sources == [] then 0
    else
      var n := |sources| - 1;
      SourceResults(splits, sources[..n], t, v) + Contribution(splits[sources[n]], t, v)
  }

  lemma {:induction false} ReplaceRow(splits: seq<Split>, t: Table, k: nat, sp: Split, v: Version)
    requires k < |splits|
    ensures Results(splits[k := sp], t, v) + Contribution(splits[k], t, v) ==
            Results(splits, t, v) + Contribution(sp, t, v)
  {
    var n := |splits| - 1;
    if k < n {
      ReplaceRow(splits[..n], t, k, sp, v);
      assert splits[k := sp][..n] == splits[..n][k := sp];
    } else {
      assert splits[k := sp][..n] == splits[..n];
    }
  }

  /** Marking rows removes exactly what they contributed. */
  lemma {:induction false} MarkRemoves(splits: seq<Split>, t: Table, sources: seq<nat>, v: Version)
    requires Distinct(sources) && forall i :: 0 <= i < |sources| ==> sources[i] < |splits|
    ensures Results(MarkRows(splits, sources), t, v) + SourceResults(splits, sources, t, v) == Results(splits, t, v)
  {
    if sources == [] {
      assert MarkRows(splits, sources) == splits;
    } else {
      var n := |sources| - 1;
      var k := sources[n];
      var rest := MarkRows(splits, sources[..n]);
      var marked := rest[k].(state := MarkedForDelete);
      MarkRemoves(splits, t, sources[..n], v);
      MarkOneMore(splits, sources);
      ReplaceRow(rest, t, k, marked, v);
    }
  }

  lemma MarkOneMore(splits: seq<Split>, sources: seq<nat>)
    requires sources != [] && Distinct(sources) && forall i :: 0 <= i < |sources| ==> sources[i] < |splits|
    ensures var n := |sources| - 1;
            var k := sources[n];
            var rest := MarkRows(splits, sources[..n]);
            rest[k] == splits[k] && MarkRows(splits, sources) == rest[k := splits[k].(state := MarkedForDelete)]
  {
    var n := |sources| - 1;
    assert sources == sources[..n] + [sources[n]];
    assert sources[n] !in sources[..n];
  }

  lemma {:induction false} SourceResultsFrame(a: seq<Split>, b: seq<Split>, sources: seq<nat>, t: Table, v: Version)
    requires forall i :: 0 <= i < |sources| ==> sources[i] < |a| && sources[i] < |b| && a[sources[i]] == b[sources[i]]
    ensures SourceResults(a, sources, t, v) == SourceResults(b, sources, t, v)
  {
    if sources != [] {
      SourceResultsFrame(a, b, sources[..|sources| - 1], t, v);
    }
  }

  /** The swap's balance sheet for any rows at all: results lose what the sources
      contributed and gain what the replacement holds. */
  lemma SwapBalance(splits: seq<Split>, t: Table, sources: seq<nat>, replacement: nat, v: Version)
    requires Distinct(sources) && forall i :: 0 <= i < |sources| ==> sources[i] < |splits|
    requires Publishable(splits, replacement) && replacement !in sources
    ensures Results(SwapRows(splits, sources, replacement), t, v) + SourceResults(splits, sources, t, v) ==
            Results(splits, t, v) + (if TableHides(t, v) then 0 else Occurs(splits[replacement].docs, v))
  {
    var published := PublishRow(splits, replacement);
    ReplaceRow(splits, t, replacement, published[replacement], v);
    MarkRemoves(published, t, sources, v);
    SourceResultsFrame(published, splits, sources, t, v);
  }

  lemma {:induction false} KeepLosesNothingVisible(docs: seq<Version>, seed: nat, list: seq<Tombstone>, v: Version)
    requires !Dropped(list, seed, v) || v !in docs
    ensures Occurs(Keep(docs, seed, list), v) == Occurs(docs, v)
  {
    if docs != [] {
      var n := |docs| - 1;
      assert docs == docs[..n] + [docs[n]];
      KeepLosesNothingVisible(docs[..n], seed, list, v);
      if !Dropped(list, seed, docs[n]) {
        OccursAppend(Keep(docs[..n], seed, list), [docs[n]], v);
      } else {
        assert Keep(docs, seed, list) == Keep(docs[..n], seed, list);
      }
    }
  }

  lemma {:induction false} OccursAppend(a: seq<Version>, b: seq<Version>, v: Version)
    ensures Occurs(a + b, v) == Occurs(a, v) + Occurs(b, v)
  {
    if b == [] {
      assert a + b == a;
    } else {
      var n := |b| - 1;
      assert (a + b)[..|a + b| - 1] == a + b[..n];
      OccursAppend(a, b[..n], v);
    }
  }

  /** The rewrite holds exactly the visible documents of its sources. */
  lemma {:induction false} RebuiltResults(splits: seq<Split>, t: Table, sources: seq<nat>, seeds: seq<nat>,
                                          list: seq<Tombstone>, v: Version)
    requires |seeds| == |sources|
    requires forall i :: 0 <= i < |sources| ==> sources[i] < |splits| && splits[sources[i]].state == Published
    requires forall i :: 0 <= i < |sources| ==> DropsHidden(t, splits[sources[i]].docs, seeds[i], list)
    ensures !TableHides(t, v) ==>
              Occurs(Rebuilt(splits, sources, seeds, list), v) == SourceResults(splits, sources, t, v)
    ensures TableHides(t, v) ==> SourceResults(splits, sources, t, v) == 0
  {
    if sources != [] {
      var n := |sources| - 1;
      RebuiltResults(splits, t, sources[..n], seeds[..n], list, v);
      if !TableHides(t, v) {
        OccursAppend(Rebuilt(splits, sources[..n], seeds[..n], list), Keep(splits[sources[n]].docs, seeds[n], list), v);
        KeepLosesNothingVisible(splits[sources[n]].docs, seeds[n], list, v);
      }
    }
  }

  lemma JobResults(s: State, n: nat, v: Version)
    requires Inv(s) && n in s.jobs
    ensures SourceResults(s.splits, s.jobs[n].sources, s.table, v) ==
            if TableHides(s.table, v) then 0 else Occurs(Output(s, n), v)
  {
    var j := s.jobs[n];
    forall i | 0 <= i < |j.sources|
      ensures DropsHidden(s.table, s.splits[j.sources[i]].docs, j.seeds[i], j.list)
    {
      assert SourceOk(s, j, i);
    }
    RebuiltResults(s.splits, s.table, j.sources, j.seeds, j.list, v);
  }

  /** Swapping a rewrite in conserves the results, document for document, although
      bounds may have been raised or purged since its tombstone list was read. */
  lemma SwapKeepsResults(s: State, n: nat, v: Version)
    requires Inv(s) && Enabled(s, Swap(n))
    ensures Results(Apply(s, Swap(n)).splits, Apply(s, Swap(n)).table, v) == Results(s.splits, s.table, v)
  {
    var j := s.jobs[n];
    JobResults(s, n, v);
    SwapBalance(s.splits, s.table, j.sources, j.output.value, v);
  }

  lemma DropSourcesKeepsResults(s: State, n: nat, v: Version)
    requires Inv(s) && Enabled(s, DropSources(n))
    ensures Results(Apply(s, DropSources(n)).splits, Apply(s, DropSources(n)).table, v) == Results(s.splits, s.table, v)
  {
    JobResults(s, n, v);
    MarkRemoves(s.splits, s.table, s.jobs[n].sources, v);
  }

  lemma {:induction false} OccursOnlyIfIn(docs: seq<Version>, v: Version)
    ensures Occurs(docs, v) > 0 <==> v in docs
  {
    if docs != [] {
      var n := |docs| - 1;
      assert docs == docs[..n] + [docs[n]];
      OccursOnlyIfIn(docs[..n], v);
    }
  }

  lemma {:induction false} SameRowsSameResults(a: seq<Split>, b: seq<Split>, t: Table, t': Table, v: Version)
    requires |a| == |b|
    requires forall k :: 0 <= k < |a| ==> a[k].docs == b[k].docs && a[k].state == b[k].state
    requires forall k :: 0 <= k < |a| && a[k].state == Published && v in a[k].docs ==>
               (TableHides(t, v) <==> TableHides(t', v))
    ensures Results(a, t, v) == Results(b, t', v)
  {
    if a != [] {
      var n := |a| - 1;
      SameRowsSameResults(a[..n], b[..n], t, t', v);
      OccursOnlyIfIn(a[n].docs, v);
    }
  }

  /** Purging conserves the results. */
  lemma PurgeKeepsResults(s: State, ids: set<string>, v: Version)
    requires Inv(s) && Enabled(s, Purge(ids))
    ensures Results(Apply(s, Purge(ids)).splits, Apply(s, Purge(ids)).table, v) == Results(s.splits, s.table, v)
  {
    var s' := Apply(s, Purge(ids));
    forall k | 0 <= k < |s.splits| && s.splits[k].state == Published && v in s.splits[k].docs
      ensures TableHides(s.table, v) <==> TableHides(s'.table, v)
    {
      if v.id in ids {
        assert Live(s.splits[k]) && InLive(s, v);
        PurgedHidNothing(s, ids, v);
      }
    }
    SameRowsSameResults(s.splits, s'.splits, s.table, s'.table, v);
  }

  lemma AppendStaged(splits: seq<Split>, t: Table, sp: Split, v: Version)
    requires sp.state == Staged
    ensures Results(splits + [sp], t, v) == Results(splits, t, v)
  {
    assert (splits + [sp])[..|splits|] == splits;
  }

  /** The steps of the control leader, and the bookkeeping steps of writers. */
  predicate Maintenance(st: Step) {
    !st.Upsert? && !st.Publish? && !st.Retain?
  }

  /** None of them adds, loses or duplicates a result: every document a search
      returned before is returned as often after. */
  lemma MaintenanceKeepsResults(s: State, st: Step, v: Version)
    requires Inv(s) && Enabled(s, st) && Maintenance(st)
    ensures Results(Apply(s, st).splits, Apply(s, st).table, v) == Results(s.splits, s.table, v)
  {
    match st
    case Swap(n) => SwapKeepsResults(s, n, v);
    case DropSources(n) => DropSourcesKeepsResults(s, n, v);
    case Purge(ids) => PurgeKeepsResults(s, ids, v);
    case MarkApplied(_) => SameRowsSameResults(s.splits, Apply(s, st).splits, s.table, s.table, v);
    case StageRebuilt(n) => AppendStaged(s.splits, s.table, Split(Output(s, n), LastOrd(s.jobs[n].list), Staged), v);
    case Stage(batch) => AppendStaged(s.splits, s.table, Split(batch, 0, Staged), v);
    case Accept(_) =>
    case Confirm(_) =>
    case StartJob(_, _) =>
    case ReadPage(_, _, _) =>
    case AbortJob(_) =>
  }

  lemma MaintenanceStepInRun(states: seq<State>, steps: seq<Step>, i: nat, v: Version)
    requires Run(states, steps) && i < |steps| && Maintenance(steps[i])
    ensures Results(states[i + 1].splits, states[i + 1].table, v) == Results(states[i].splits, states[i].table, v)
  {
    RunKeepsInv(states, steps, i);
    MaintenanceKeepsResults(states[i], steps[i], v);
  }

  lemma {:induction false} UnchangedAlong(counts: seq<nat>, lo: nat, hi: nat)
    requires lo <= hi < |counts| && forall i :: lo <= i < hi ==> counts[i + 1] == counts[i]
    ensures counts[hi] == counts[lo]
  {
    if lo < hi {
      UnchangedAlong(counts, lo, hi - 1);
      assert counts[hi - 1 + 1] == counts[hi - 1];
    }
  }

  /** Hence over any stretch of a run made of maintenance steps only. */
  lemma MaintenanceRunKeepsResults(states: seq<State>, steps: seq<Step>, lo: nat, hi: nat, v: Version)
    requires Run(states, steps) && lo <= hi <= |steps|
    requires forall i :: lo <= i < hi ==> Maintenance(steps[i])
    ensures Results(states[hi].splits, states[hi].table, v) == Results(states[lo].splits, states[lo].table, v)
  {
    var counts := seq(|states|, i requires 0 <= i < |states| => Results(states[i].splits, states[i].table, v));
    forall i | lo <= i < hi
      ensures counts[i + 1] == counts[i]
    {
      MaintenanceStepInRun(states, steps, i, v);
    }
    UnchangedAlong(counts, lo, hi);
  }

  // ---- the hypotheses are needed ----

  /** Purge the rows; then a buffered write is flushed and its split published. */
  ghost predicate Resurrects(s: State, ids: set<string>, v: Version) {
    var purged, n := AfterPurge(s, ids), |s.splits|;
    && Superseded(s.landed, v) && Enabled(purged, Stage([v]))
    && var staged := Apply(purged, Stage([v]));
       Enabled(staged, Publish(n)) && Visible(Apply(staged, Publish(n)), v)
  }

  lemma LateFlush(s: State, ids: set<string>, v: Version)
    requires JobInv(s) && v in s.pending
    ensures Enabled(AfterPurge(s, ids), Stage([v]))
    ensures var staged := Apply(AfterPurge(s, ids), Stage([v]));
            && Enabled(staged, Publish(|s.splits|))
            && (Visible(Apply(staged, Publish(|s.splits|)), v) <==> !TableHides(DropRows(s.table, ids), v))
  {
    var staged, n := Apply(AfterPurge(s, ids), Stage([v])), |s.splits|;
    forall m | m in s.jobs
      ensures !Touches(s.jobs[m], n)
    {
      assert JobOk(s, s.jobs[m]);
    }
    assert staged.splits[n] == Split([v], 0, Staged);
    assert Apply(staged, Publish(n)).splits[n] == Split([v], 0, Published);
    assert InPublished(Apply(staged, Publish(n)), v);
  }

  /** The floor alone does not make a purge safe: it is safe exactly when no
      buffered write is hidden by a purged row. Otherwise publishing that write
      brings a replaced or deleted version back. */
  lemma PurgeSafeIffInGrace(s: State, ids: set<string>)
    requires Inv(s) && ids <= s.table.rows.Keys
    ensures PurgeInGrace(s, ids) <==> forall v :: v in s.pending ==> !Resurrects(s, ids, v)
  {
    forall v | v in s.pending
      ensures Resurrects(s, ids, v) <==> v.id in ids && TableHides(s.table, v)
    {
      LateFlush(s, ids, v);
      if TableHides(s.table, v) {
        assert Below(NewTombstone(v.id, s.table.rows[v.id].before), v);
      }
      if Superseded(s.landed, v) {
        var b :| b in s.landed && Below(b, v);
        if !InTable(s.table, b) {
          var p :| p in s.purged && p.id == b.id && b.before <= p.before;
          assert InFlight(s, v) && Below(p, v);
        }
      }
    }
  }

  /** The row may go as far as the splits are concerned, but the purge brings `v` back. */
  ghost predicate RevivedBy(s: State, id: string, v: Version) {
    id in s.table.rows && BelowFloor(s.table, s.splits, id) && Resurrects(s, {id}, v)
  }

  /** A write is buffered, its delete lands, and the delete's row is purged before the
      flush: no split is live, so the floor does not object, and the write comes back. */
  lemma PurgeRevivesDeleted()
    ensures var v, delete := Version("a", 1), NewTombstone("a", 2);
            var table := Table(map["a" := Row(1, 2, 0)], 2);
            var steps := [Accept(v), Upsert([delete], table)];
            exists states: seq<State> :: Run(states, steps) && RevivedBy(states[2], "a", v)
  {
    var v, delete := Version("a", 1), NewTombstone("a", 2);
    var table := Table(map["a" := Row(1, 2, 0)], 2);
    var written := Apply(INITIAL, Accept(v));
    FirstUpsert(delete, table);
    var deleted := Apply(written, Upsert([delete], table));
    var states := [INITIAL, written, deleted];
    assert Run(states, [Accept(v), Upsert([delete], table)]);
    RevivesPending(deleted, delete, v);
    assert RevivedBy(states[2], "a", v);
  }

  /** With no splits and no jobs, purging a row brings a buffered write it hides back. */
  lemma RevivesPending(s: State, b: NewTombstone, v: Version)
    requires s.jobs == map[] && s.splits == [] && b.id in s.table.rows
    requires v in s.pending && b in s.landed && Below(b, v)
    ensures RevivedBy(s, b.id, v)
  {
    LateFlush(s, {b.id}, v);
  }

  lemma FirstUpsert(b: NewTombstone, t: Table)
    requires t == Table(map[b.id := Row(1, b.before, 0)], 2)
    ensures Upserted(INITIAL.table, t, [b])
  {
    assert [b][..0] == [];
    assert forall id :: MaxFor([b], id) == if id == b.id then Some(b.before) else None;
  }

  /** How many copies of `v` the sources hold, whatever their states. */
  ghost function SourceOccurs(splits: seq<Split>, sources: seq<nat>, v: Version): nat
    requires forall i :: 0 <= i < |sources| ==> sources[i] < |splits|
  {
    if sources == [] then 0
    else SourceOccurs(splits, sources[..|sources| - 1], v) + Occurs(splits[sources[|sources| - 1]].docs, v)
  }

  /** A rewrite that drops only hidden versions holds every copy of a visible one. */
  lemma {:induction false} RebuiltOccurs(splits: seq<Split>, t: Table, sources: seq<nat>, seeds: seq<nat>,
                                         list: seq<Tombstone>, v: Version)
    requires |seeds| == |sources| && !TableHides(t, v)
    requires forall i :: 0 <= i < |sources| ==> sources[i] < |splits|
    requires forall i :: 0 <= i < |sources| ==> DropsHidden(t, splits[sources[i]].docs, seeds[i], list)
    ensures Occurs(Rebuilt(splits, sources, seeds, list), v) == SourceOccurs(splits, sources, v)
  {
    if sources != [] {
      var n := |sources| - 1;
      RebuiltOccurs(splits, t, sources[..n], seeds[..n], list, v);
      OccursAppend(Rebuilt(splits, sources[..n], seeds[..n], list), Keep(splits[sources[n]].docs, seeds[n], list), v);
      KeepLosesNothingVisible(splits[sources[n]].docs, seeds[n], list, v);
    }
  }

  /** A source that a search still sees, or that does not hold the version. */
  ghost predicate StillCounts(sp: Split, v: Version) {
    sp.state == Published || v !in sp.docs
  }

  lemma {:induction false} AllCountIff(splits: seq<Split>, sources: seq<nat>, t: Table, v: Version)
    requires (forall i :: 0 <= i < |sources| ==> sources[i] < |splits|) && !TableHides(t, v)
    ensures SourceResults(splits, sources, t, v) <= SourceOccurs(splits, sources, v)
    ensures SourceResults(splits, sources, t, v) == SourceOccurs(splits, sources, v) <==>
            forall i :: 0 <= i < |sources| ==> StillCounts(splits[sources[i]], v)
  {
    if sources != [] {
      var n := |sources| - 1;
      AllCountIff(splits, sources[..n], t, v);
      OccursOnlyIfIn(splits[sources[n]].docs, v);
      assert forall i :: 0 <= i < n ==> sources[..n][i] == sources[i];
    }
  }

  lemma {:induction false} HiddenContributesNothing(splits: seq<Split>, sources: seq<nat>, t: Table, v: Version)
    requires (forall i :: 0 <= i < |sources| ==> sources[i] < |splits|) && TableHides(t, v)
    ensures SourceResults(splits, sources, t, v) == 0
  {
    if sources != [] {
      HiddenContributesNothing(splits, sources[..|sources| - 1], t, v);
    }
  }

  /** The swap transaction does not look at its sources' states. Swapping in a
      rewrite conserves a version's results exactly when the version is hidden or
      every source that holds it is still published: the guard the statement lacks. */
  lemma SwapConservesIff(splits: seq<Split>, t: Table, sources: seq<nat>, seeds: seq<nat>, list: seq<Tombstone>,
                         replacement: nat, v: Version)
    requires Distinct(sources) && |seeds| == |sources| && forall i :: 0 <= i < |sources| ==> sources[i] < |splits|
    requires Publishable(splits, replacement) && replacement !in sources
    requires splits[replacement].docs == Rebuilt(splits, sources, seeds, list)
    requires forall i :: 0 <= i < |sources| ==> DropsHidden(t, splits[sources[i]].docs, seeds[i], list)
    ensures Results(SwapRows(splits, sources, replacement), t, v) == Results(splits, t, v) <==>
            TableHides(t, v) || forall i :: 0 <= i < |sources| ==> StillCounts(splits[sources[i]], v)
  {
    SwapBalance(splits, t, sources, replacement, v);
    if TableHides(t, v) {
      HiddenContributesNothing(splits, sources, t, v);
    } else {
      RebuiltOccurs(splits, t, sources, seeds, list, v);
      AllCountIff(splits, sources, t, v);
    }
  }

  lemma SwapRevivesMarkedSource(v: Version)
    ensures var splits := [Split([v], 0, MarkedForDelete), Split([v], 0, Staged)];
            var t := Table(map[], 1);
            Results(splits, t, v) == 0 && Results(SwapRows(splits, [0], 1), t, v) == 1
  {
    var splits := [Split([v], 0, MarkedForDelete), Split([v], 0, Staged)];
    var t := Table(map[], 1);
    SwapBalance(splits, t, [0], 1, v);
    assert Occurs([v], v) == 1;
    assert SourceResults(splits, [0], t, v) == 0;
    assert splits[..1] == [splits[0]];
    assert Results(splits[..1], t, v) == 0;
  }
}
