/** Every step of the document-mode protocol keeps the protocol's invariant. */
module DocProtocolSteps {
  import opened Prelude
  import opened TombstoneTable
  import opened TombstoneCache
  import opened Metastore
  import opened DocProtocol

  /** A job depends only on the rows it touches, the table and what has landed. */
  lemma JobFrame(s: State, s': State, j: Job)
    requires JobOk(s, j) && s'.table == s.table && s'.landed == s.landed && |s.splits| <= |s'.splits|
    requires forall k :: 0 <= k < |s.splits| && Touches(j, k) ==> s'.splits[k] == s.splits[k]
    ensures JobOk(s', j)
  {
    forall i | 0 <= i < |j.sources|
      ensures s'.splits[j.sources[i]] == s.splits[j.sources[i]]
    {
      assert Touches(j, j.sources[i]);
    }
    SameSourcesSameOutput(s.splits, s'.splits, j.sources, j.seeds, j.list);
    forall i | 0 <= i < |j.sources|
      ensures SourceOk(s', j, i)
    {
      assert SourceOk(s, j, i);
    }
    assert j.output.Some? ==> Touches(j, j.output.value);
  }

  /** Jobs still under way are not disturbed by what happens to rows they do not touch. */
  lemma JobsFrame(s: State, s': State)
    requires JobInv(s) && s'.table == s.table && s'.landed == s.landed && |s.splits| <= |s'.splits|
    requires forall n :: n in s'.jobs ==> n in s.jobs && s'.jobs[n] == s.jobs[n]
    requires forall n, k ::
               n in s'.jobs && 0 <= k < |s.splits| && Touches(s'.jobs[n], k) ==> s'.splits[k] == s.splits[k]
    ensures JobInv(s')
  {
    forall n | n in s'.jobs
      ensures JobOk(s', s'.jobs[n])
    {
      JobFrame(s, s', s.jobs[n]);
    }
  }

  /** A job may begin or move on, keeping away from the others. */
  lemma JobChanged(s: State, n: nat, j: Job)
    requires JobInv(s) && JobOk(s, j)
    requires forall m :: m in s.jobs && m != n ==> Apart(j, s.jobs[m]) && Apart(s.jobs[m], j)
    ensures JobInv(s.(jobs := s.jobs[n := j]))
  {
    var s' := s.(jobs := s.jobs[n := j]);
    forall m | m in s'.jobs
      ensures JobOk(s', s'.jobs[m])
    {
      JobFrame(s, s', s'.jobs[m]);
    }
  }

  // ---- writers ----

  lemma AcceptKeepsInv(s: State, v: Version)
    requires Inv(s) && Enabled(s, Accept(v))
    ensures Inv(Apply(s, Accept(v)))
  {
    var s' := Apply(s, Accept(v));
    assert forall w :: InLive(s', w) <==> InLive(s, w);
    assert forall w :: InPublished(s', w) <==> InPublished(s, w);
    JobsFrame(s, s');
  }

  lemma UpsertKeepsTable(s: State, items: seq<NewTombstone>, t: Table)
    requires Inv(s) && Upserted(s.table, t, items)
    ensures var s' := Apply(s, Upsert(items, t)); TableInv(s') && LandedInv(s')
  {
    var s' := Apply(s, Upsert(items, t));
    forall id | id in t.rows
      ensures NewTombstone(id, t.rows[id].before) in s'.landed
    {
      assert RowUpserted(s.table, t, items, id);
    }
    forall b | b in s'.landed
      ensures InTable(t, b) || InPurged(s.purged, b)
    {
      UpsertJoins(s.table, t, items, b.id);
    }
  }

  lemma UpsertKeepsSplits(s: State, items: seq<NewTombstone>, t: Table)
    requires Inv(s) && Upserted(s.table, t, items)
    ensures var s' := Apply(s, Upsert(items, t));
            PurgedInv(s') && AppliedInv(s') && AcceptedInv(s') && ServedInv(s')
  {
    var s' := Apply(s, Upsert(items, t));
    forall p, v | p in s'.purged && InFlight(s', v) && Below(p, v)
      ensures TableHides(t, v)
    {
      assert InLive(s', v) ==> InLive(s, v);
      UpsertKeepsHiding(s.table, t, items, v);
    }
    forall k | 0 <= k < |s'.splits|
      ensures s'.splits[k].applied < t.next && Clean(t, s'.splits[k])
    {
      UpsertKeepsClean(s.table, t, items, s.splits[k]);
    }
    forall v | v in s'.served
      ensures InPublished(s', v) || v in s'.dropped || Superseded(s'.landed, v)
    {
      assert InPublished(s, v) ==> InPublished(s', v);
    }
  }

  lemma UpsertKeepsClean(t: Table, t': Table, items: seq<NewTombstone>, sp: Split)
    requires Upserted(t, t', items) && sp.applied < t.next && Clean(t, sp)
    ensures Clean(t', sp)
  {
    forall v | v in sp.docs && v.id in t'.rows && t'.rows[v.id].ord <= sp.applied
      ensures t'.rows[v.id].before <= v.stamp
    {
      UpsertKeepsOldRows(t, t', items, v.id);
    }
  }

  lemma UpsertKeepsJob(s: State, items: seq<NewTombstone>, t: Table, j: Job)
    requires Inv(s) && Upserted(s.table, t, items) && JobOk(s, j)
    ensures JobOk(Apply(s, Upsert(items, t)), j)
  {
    var s' := Apply(s, Upsert(items, t));
    assert SomeUpsert(s.table, t);
    CoversKept(j.list, s.table, t);
    forall i | 0 <= i < |j.sources|
      ensures SourceOk(s', j, i)
    {
      assert SourceOk(s, j, i);
      forall v | v in s.splits[j.sources[i]].docs && Dropped(j.list, j.seeds[i], v)
        ensures TableHides(t, v)
      {
        UpsertKeepsHiding(s.table, t, items, v);
      }
    }
  }

  lemma UpsertKeepsInv(s: State, items: seq<NewTombstone>, t: Table)
    requires Inv(s) && Enabled(s, Upsert(items, t))
    ensures Inv(Apply(s, Upsert(items, t)))
  {
    UpsertKeepsTable(s, items, t);
    UpsertKeepsSplits(s, items, t);
    forall n | n in s.jobs
      ensures JobOk(Apply(s, Upsert(items, t)), s.jobs[n])
    {
      UpsertKeepsJob(s, items, t, s.jobs[n]);
    }
  }

  /** Adding a staged split whose documents are already in flight. */
  lemma StagingKeepsInv(s: State, sp: Split)
    requires Inv(s) && sp.state == Staged
    requires sp.applied < s.table.next && Clean(s.table, sp)
    requires forall v :: v in sp.docs ==> v in s.accepted && InFlight(s, v)
    ensures Inv(s.(splits := s.splits + [sp]))
  {
    var s' := s.(splits := s.splits + [sp]);
    forall v | InFlight(s', v)
      ensures InFlight(s, v)
    {
      if v !in s'.pending {
        var k :| 0 <= k < |s'.splits| && Live(s'.splits[k]) && v in s'.splits[k].docs;
        if k < |s.splits| {
          assert s'.splits[k] == s.splits[k];
        }
      }
    }
    forall v | v in s'.served
      ensures InPublished(s', v) || v in s'.dropped || Superseded(s'.landed, v)
    {
      if InPublished(s, v) {
        var k :| 0 <= k < |s.splits| && s.splits[k].state == Published && v in s.splits[k].docs;
        assert s'.splits[k] == s.splits[k];
      }
    }
    JobsFrame(s, s');
  }

  /** What a rewrite produces depends on its sources' documents only. */
  lemma {:induction false} SameSourcesSameOutput(a: seq<Split>, b: seq<Split>, sources: seq<nat>, seeds: seq<nat>,
                                                 list: seq<Tombstone>)
    requires |seeds| == |sources|
    requires forall i :: 0 <= i < |sources| ==>
               sources[i] < |a| && sources[i] < |b| && a[sources[i]].docs == b[sources[i]].docs
    ensures Rebuilt(a, sources, seeds, list) == Rebuilt(b, sources, seeds, list)
  {
    if sources != [] {
      var n := |sources| - 1;
      SameSourcesSameOutput(a, b, sources[..n], seeds[..n], list);
    }
  }

  lemma StageKeepsInv(s: State, batch: seq<Version>)
    requires Inv(s) && Enabled(s, Stage(batch))
    ensures Inv(Apply(s, Stage(batch)))
  {
    StagingKeepsInv(s, Split(batch, 0, Staged));
  }

  lemma PublishKeepsInv(s: State, k: nat)
    requires Inv(s) && Enabled(s, Publish(k))
    ensures Inv(Apply(s, Publish(k)))
  {
    var s' := Apply(s, Publish(k));
    JobsFrame(s, s');
    forall v | InLive(s', v)
      ensures InLive(s, v)
    {
      var i :| 0 <= i < |s'.splits| && Live(s'.splits[i]) && v in s'.splits[i].docs;
      assert Live(s.splits[i]) && v in s.splits[i].docs;
    }
    forall v | v in s'.served
      ensures InPublished(s', v) || v in s'.dropped || Superseded(s'.landed, v)
    {
      if v in s.splits[k].docs {
        assert s'.splits[k].state == Published;
      } else if InPublished(s, v) {
        var i :| 0 <= i < |s.splits| && s.splits[i].state == Published && v in s.splits[i].docs;
        assert s'.splits[i].state == Published && v in s'.splits[i].docs;
      }
    }
    forall i | 0 <= i < |s'.splits|
      ensures s'.splits[i].applied < s'.table.next && Clean(s'.table, s'.splits[i])
    {
      assert Clean(s.table, s.splits[i]);
    }
  }

  lemma ConfirmKeepsInv(s: State, vs: set<Version>)
    requires Inv(s) && Enabled(s, Confirm(vs))
    ensures Inv(Apply(s, Confirm(vs)))
  {
    var s' := Apply(s, Confirm(vs));
    assert forall w :: InLive(s', w) <==> InLive(s, w);
    assert forall w :: InPublished(s', w) <==> InPublished(s, w);
    JobsFrame(s, s');
  }

  // ---- the control leader ----

  /** Changing only the jobs keeps everything that does not mention them. */
  lemma JobsOnlyKeepInv(s: State, jobs: map<nat, Job>)
    requires Inv(s) && JobInv(s.(jobs := jobs))
    ensures Inv(s.(jobs := jobs))
  {
    var s' := s.(jobs := jobs);
    assert forall w :: InLive(s', w) <==> InLive(s, w);
    assert forall w :: InPublished(s', w) <==> InPublished(s, w);
  }

  lemma StartJobKeepsInv(s: State, n: nat, sources: seq<nat>)
    requires Inv(s) && Enabled(s, StartJob(n, sources))
    ensures Inv(Apply(s, StartJob(n, sources)))
  {
    var s' := Apply(s, StartJob(n, sources));
    var j := s'.jobs[n];
    forall i | 0 <= i < |j.sources|
      ensures SourceOk(s, j, i)
    {
      assert j.seeds[i] == s.splits[sources[i]].applied;
    }
    assert Covers(j.list, s.table);
    JobChanged(s, n, j);
    JobsOnlyKeepInv(s, s'.jobs);
  }

  lemma PageDropsHidden(s: State, docs: seq<Version>, seed: nat, list: seq<Tombstone>, limit: nat, page: seq<Tombstone>)
    requires DropsHidden(s.table, docs, seed, list) && IsPage(s.table, LastOrd(list), limit, page)
    ensures DropsHidden(s.table, docs, seed, list + page)
  {
    forall v | v in docs && Dropped(list + page, seed, v)
      ensures TableHides(s.table, v)
    {
      var i :| 0 <= i < |list + page| && seed < (list + page)[i].ord && Hides((list + page)[i], v);
      if i < |list| {
        assert (list + page)[i] == list[i];
        assert Dropped(list, seed, v);
      } else {
        assert RowAfter(s.table, LastOrd(list), page[i - |list|].id);
      }
    }
  }

  lemma PageKeepsJob(s: State, j: Job, limit: nat, page: seq<Tombstone>)
    requires Inv(s) && JobOk(s, j) && !j.done && 0 < limit && IsPage(s.table, LastOrd(j.list), limit, page)
    ensures JobOk(s, j.(list := j.list + page, done := |page| < limit))
  {
    var j' := j.(list := j.list + page, done := |page| < limit);
    if page == [] {
      assert j'.list == j.list;
    } else {
      PageExtends(j.list, s.table, limit, page);
    }
    forall i | 0 <= i < |j'.list|
      ensures NewTombstone(j'.list[i].id, j'.list[i].before) in s.landed
    {
      if |j.list| <= i {
        assert RowAfter(s.table, LastOrd(j.list), page[i - |j.list|].id);
      }
    }
    forall i | 0 <= i < |j'.sources|
      ensures SourceOk(s, j', i)
    {
      assert SourceOk(s, j, i);
      PageDropsHidden(s, s.splits[j.sources[i]].docs, j.seeds[i], j.list, limit, page);
    }
  }

  lemma ReadPageKeepsInv(s: State, n: nat, limit: nat, page: seq<Tombstone>)
    requires Inv(s) && Enabled(s, ReadPage(n, limit, page))
    ensures Inv(Apply(s, ReadPage(n, limit, page)))
  {
    var s' := Apply(s, ReadPage(n, limit, page));
    PageKeepsJob(s, s.jobs[n], limit, page);
    assert forall k :: Touches(s'.jobs[n], k) <==> Touches(s.jobs[n], k);
    JobChanged(s, n, s'.jobs[n]);
    JobsOnlyKeepInv(s, s'.jobs);
  }

  lemma {:induction false} KeepSubset(docs: seq<Version>, seed: nat, list: seq<Tombstone>, v: Version)
    ensures v in Keep(docs, seed, list) <==> v in docs && !Dropped(list, seed, v)
  {
    if docs != [] {
      var n := |docs| - 1;
      KeepSubset(docs[..n], seed, list, v);
      assert docs == docs[..n] + [docs[n]];
    }
  }

  /** A version is in the rewrite exactly when some source keeps it. */
  lemma {:induction false} RebuiltFrom(splits: seq<Split>, sources: seq<nat>, seeds: seq<nat>,
                                       list: seq<Tombstone>, v: Version)
    requires |seeds| == |sources|
    requires forall i :: 0 <= i < |sources| ==> sources[i] < |splits|
    ensures v in Rebuilt(splits, sources, seeds, list) <==>
            exists i :: 0 <= i < |sources| && v in splits[sources[i]].docs && !Dropped(list, seeds[i], v)
  {
    if sources != [] {
      var n := |sources| - 1;
      RebuiltFrom(splits, sources[..n], seeds[..n], list, v);
      KeepSubset(splits[sources[n]].docs, seeds[n], list, v);
      assert forall i :: 0 <= i < n ==> sources[..n][i] == sources[i] && seeds[..n][i] == seeds[i];
    }
  }

  /** The rewritten split really has applied the list it claims to have applied. */
  lemma OutputClean(s: State, n: nat)
    requires Inv(s) && n in s.jobs
    ensures Clean(s.table, Split(Output(s, n), LastOrd(s.jobs[n].list), Staged))
  {
    var j := s.jobs[n];
    forall v | v in Output(s, n) && v.id in s.table.rows && s.table.rows[v.id].ord <= LastOrd(j.list)
      ensures s.table.rows[v.id].before <= v.stamp
    {
      RebuiltFrom(s.splits, j.sources, j.seeds, j.list, v);
      var i :| 0 <= i < |j.sources| && v in s.splits[j.sources[i]].docs && !Dropped(j.list, j.seeds[i], v);
      assert SourceOk(s, j, i);
      SourceCleanThrough(s.table, s.splits[j.sources[i]], j.seeds[i], j.list, v);
    }
  }

  lemma SourceCleanThrough(t: Table, sp: Split, seed: nat, list: seq<Tombstone>, v: Version)
    requires Clean(t, sp) && Covers(list, t) && seed <= sp.applied
    requires v in sp.docs && !Dropped(list, seed, v)
    requires v.id in t.rows && t.rows[v.id].ord <= LastOrd(list)
    ensures t.rows[v.id].before <= v.stamp
  {
    if seed < t.rows[v.id].ord {
      var i :| 0 <= i < |list| && list[i] == Entry(t, v.id);
      assert !Hides(list[i], v);
    }
  }

  lemma StageRebuiltKeepsInv(s: State, n: nat)
    requires Inv(s) && Enabled(s, StageRebuilt(n))
    ensures Inv(Apply(s, StageRebuilt(n)))
  {
    var j := s.jobs[n];
    var sp := Split(Output(s, n), LastOrd(j.list), Staged);
    OutputClean(s, n);
    forall v | v in sp.docs
      ensures v in s.accepted && InFlight(s, v)
    {
      RebuiltFrom(s.splits, j.sources, j.seeds, j.list, v);
      var i :| 0 <= i < |j.sources| && v in s.splits[j.sources[i]].docs;
      assert Live(s.splits[j.sources[i]]);
    }
    StagingKeepsInv(s, sp);
    StagedOutput(s, n, sp);
    JobsOnlyKeepInv(s.(splits := s.splits + [sp]), Apply(s, StageRebuilt(n)).jobs);
  }

  /** The job names the split it just staged; no other job can know of it. */
  lemma StagedOutput(s: State, n: nat, sp: Split)
    requires Inv(s) && n in s.jobs && s.jobs[n].done && s.jobs[n].output.None?
    requires sp == Split(Output(s, n), LastOrd(s.jobs[n].list), Staged) && JobInv(s.(splits := s.splits + [sp]))
    ensures JobInv(s.(splits := s.splits + [sp], jobs := s.jobs[n := s.jobs[n].(output := Some(|s.splits|))]))
  {
    var s1, j := s.(splits := s.splits + [sp]), s.jobs[n];
    var j' := j.(output := Some(|s.splits|));
    SameSourcesSameOutput(s.splits, s1.splits, j.sources, j.seeds, j.list);
    forall i | 0 <= i < |j.sources|
      ensures SourceOk(s1, j', i)
    {
      assert SourceOk(s1, j, i);
    }
    forall m | m in s.jobs && m != n
      ensures Apart(j', s.jobs[m]) && Apart(s.jobs[m], j')
    {
      assert Apart(j, s.jobs[m]) && Apart(s.jobs[m], j);
      assert JobOk(s, s.jobs[m]) && !Touches(s.jobs[m], |s.splits|);
    }
    JobChanged(s1, n, j');
  }

  /** Dropping the sources of a finished rewrite loses nothing, provided every
      version they keep is in a published split. */
  lemma RetireSourcesKeepsServed(s: State, s': State, n: nat)
    requires Inv(s) && n in s.jobs
    requires s'.served == s.served && s'.dropped == s.dropped && s'.landed == s.landed
    requires |s'.splits| == |s.splits|
    requires forall k :: 0 <= k < |s.splits| && s.splits[k].state == Published && k !in s.jobs[n].sources ==>
               s'.splits[k] == s.splits[k]
    requires forall v :: v in Output(s, n) ==> InPublished(s', v)
    ensures ServedInv(s')
  {
    var j := s.jobs[n];
    forall v | v in s'.served
      ensures InPublished(s', v) || v in s'.dropped || Superseded(s'.landed, v)
    {
      if InPublished(s, v) {
        var k :| 0 <= k < |s.splits| && s.splits[k].state == Published && v in s.splits[k].docs;
        if k in j.sources {
          var i :| 0 <= i < |j.sources| && j.sources[i] == k;
          RebuiltFrom(s.splits, j.sources, j.seeds, j.list, v);
          if Dropped(j.list, j.seeds[i], v) {
            DroppedIsSuperseded(s, j, v, j.seeds[i]);
          }
        } else {
          assert s'.splits[k].state == Published;
        }
      }
    }
  }

  lemma DroppedIsSuperseded(s: State, j: Job, v: Version, seed: nat)
    requires JobOk(s, j) && Dropped(j.list, seed, v)
    ensures Superseded(s.landed, v)
  {
    var i :| 0 <= i < |j.list| && seed < j.list[i].ord && Hides(j.list[i], v);
    assert Below(NewTombstone(j.list[i].id, j.list[i].before), v);
  }

  /** Row states may move towards "marked" and jobs may end: nothing new comes alive. */
  lemma RetiringKeepsRest(s: State, s': State)
    requires Inv(s)
    requires s'.table == s.table && s'.pending == s.pending && s'.accepted == s.accepted
    requires s'.landed == s.landed && s'.purged == s.purged
    requires |s'.splits| == |s.splits|
    requires forall k :: 0 <= k < |s.splits| ==>
               s'.splits[k].docs == s.splits[k].docs && s'.splits[k].applied == s.splits[k].applied &&
               (Live(s'.splits[k]) ==> Live(s.splits[k]))
    ensures TableInv(s') && LandedInv(s') && PurgedInv(s') && AppliedInv(s') && AcceptedInv(s')
  {
    forall v | InLive(s', v)
      ensures InLive(s, v)
    {
      var k :| 0 <= k < |s'.splits| && Live(s'.splits[k]) && v in s'.splits[k].docs;
      assert Live(s.splits[k]) && v in s.splits[k].docs;
    }
    forall k | 0 <= k < |s'.splits|
      ensures s'.splits[k].applied < s'.table.next && Clean(s'.table, s'.splits[k])
    {
      assert Clean(s.table, s.splits[k]);
    }
  }

  /** Ending job `n` with changes to its own rows only leaves the other jobs alone. */
  lemma EndedKeepsJobs(s: State, s': State, n: nat)
    requires Inv(s) && n in s.jobs && s'.jobs == s.jobs - {n}
    requires s'.table == s.table && s'.landed == s.landed && |s'.splits| == |s.splits|
    requires forall k :: 0 <= k < |s.splits| && !Touches(s.jobs[n], k) ==> s'.splits[k] == s.splits[k]
    ensures JobInv(s')
  {
    forall m, k | m in s'.jobs && 0 <= k < |s.splits| && Touches(s'.jobs[m], k)
      ensures s'.splits[k] == s.splits[k]
    {
      assert Apart(s.jobs[m], s.jobs[n]);
    }
    JobsFrame(s, s');
  }

  lemma SwapKeepsInv(s: State, n: nat)
    requires Inv(s) && Enabled(s, Swap(n))
    ensures Inv(Apply(s, Swap(n)))
  {
    var s' := Apply(s, Swap(n));
    var out := s.jobs[n].output.value;
    assert s'.splits[out] == s.splits[out].(state := Published);
    RetiringKeepsRest(s, s');
    RetireSourcesKeepsServed(s, s', n);
    EndedKeepsJobs(s, s', n);
  }

  lemma DropSourcesKeepsInv(s: State, n: nat)
    requires Inv(s) && Enabled(s, DropSources(n))
    ensures Inv(Apply(s, DropSources(n)))
  {
    var s' := Apply(s, DropSources(n));
    RetiringKeepsRest(s, s');
    RetireSourcesKeepsServed(s, s', n);
    EndedKeepsJobs(s, s', n);
  }

  lemma MarkAppliedKeepsInv(s: State, n: nat)
    requires Inv(s) && Enabled(s, MarkApplied(n))
    ensures Inv(Apply(s, MarkApplied(n)))
  {
    var s' := Apply(s, MarkApplied(n));
    var j := s.jobs[n];
    OutputClean(s, n);
    assert SourceOk(s, j, 0);
    forall i | 0 <= i < |s'.splits|
      ensures s'.splits[i].applied < s'.table.next && Clean(s'.table, s'.splits[i])
    {
      assert Clean(s.table, s.splits[i]);
    }
    RaisingKeepsMembership(s, s', j.sources[0]);
    EndedKeepsJobs(s, s', n);
  }

  lemma RaisingKeepsMembership(s: State, s': State, k: nat)
    requires Inv(s) && k < |s.splits|
    requires s' == s.(splits := s'.splits, jobs := s'.jobs) && |s'.splits| == |s.splits|
    requires forall i :: 0 <= i < |s.splits| ==>
               s'.splits[i].docs == s.splits[i].docs && s'.splits[i].state == s.splits[i].state
    ensures TableInv(s') && LandedInv(s') && PurgedInv(s') && AcceptedInv(s') && ServedInv(s')
  {
    forall v
      ensures InLive(s', v) ==> InLive(s, v)
      ensures InPublished(s, v) ==> InPublished(s', v)
    {
      if InLive(s', v) {
        var i :| 0 <= i < |s'.splits| && Live(s'.splits[i]) && v in s'.splits[i].docs;
        assert Live(s.splits[i]) && v in s.splits[i].docs;
      }
      if InPublished(s, v) {
        var i :| 0 <= i < |s.splits| && s.splits[i].state == Published && v in s.splits[i].docs;
        assert s'.splits[i].state == Published && v in s'.splits[i].docs;
      }
    }
  }

  /** The floor makes a purge harmless: nothing in flight was hidden by a purged row. */
  lemma PurgedHidNothing(s: State, ids: set<string>, v: Version)
    requires Inv(s) && Enabled(s, Purge(ids)) && InFlight(s, v) && v.id in ids
    ensures !TableHides(s.table, v)
  {
    if v !in s.pending {
      var k :| 0 <= k < |s.splits| && Live(s.splits[k]) && v in s.splits[k].docs;
      assert BelowFloor(s.table, s.splits, v.id);
      assert Clean(s.table, s.splits[k]);
    }
  }

  lemma PurgeKeepsTable(s: State, ids: set<string>)
    requires Inv(s) && Enabled(s, Purge(ids))
    ensures var s' := Apply(s, Purge(ids)); TableInv(s') && LandedInv(s')
  {
    var s' := Apply(s, Purge(ids));
    forall b | b in s'.landed
      ensures InTable(s'.table, b) || InPurged(s'.purged, b)
    {
      if InTable(s.table, b) {
        if b.id in ids {
          assert NewTombstone(b.id, s.table.rows[b.id].before) in s'.purged;
        }
      } else {
        var p :| p in s.purged && p.id == b.id && b.before <= p.before;
        assert p in s'.purged;
      }
    }
  }

  lemma PurgeKeepsSplits(s: State, ids: set<string>)
    requires Inv(s) && Enabled(s, Purge(ids))
    ensures var s' := Apply(s, Purge(ids));
            PurgedInv(s') && AppliedInv(s') && AcceptedInv(s') && ServedInv(s')
  {
    var s' := Apply(s, Purge(ids));
    forall p, v | p in s'.purged && InFlight(s', v) && Below(p, v)
      ensures TableHides(s'.table, v)
    {
      assert InLive(s', v) ==> InLive(s, v);
      if v.id in ids {
        PurgedHidNothing(s, ids, v);
      }
    }
    forall k | 0 <= k < |s'.splits|
      ensures s'.splits[k].applied < s'.table.next && Clean(s'.table, s'.splits[k])
    {
      assert Clean(s.table, s.splits[k]);
    }
    assert forall w :: InPublished(s, w) ==> InPublished(s', w);
  }

  lemma PurgeKeepsJob(s: State, ids: set<string>, j: Job)
    requires Inv(s) && Enabled(s, Purge(ids)) && JobOk(s, j)
    ensures JobOk(Apply(s, Purge(ids)), j)
  {
    var s' := Apply(s, Purge(ids));
    assert Purged(s.table, s'.table);
    CoversKept(j.list, s.table, s'.table);
    forall i | 0 <= i < |j.sources|
      ensures SourceOk(s', j, i)
    {
      assert SourceOk(s, j, i);
      forall v | v in s.splits[j.sources[i]].docs && Dropped(j.list, j.seeds[i], v)
        ensures TableHides(s'.table, v)
      {
        assert Live(s.splits[j.sources[i]]);
        if v.id in ids {
          PurgedHidNothing(s, ids, v);
        }
      }
    }
  }

  lemma PurgeKeepsInv(s: State, ids: set<string>)
    requires Inv(s) && Enabled(s, Purge(ids))
    ensures Inv(Apply(s, Purge(ids)))
  {
    PurgeKeepsTable(s, ids);
    PurgeKeepsSplits(s, ids);
    forall n | n in s.jobs
      ensures JobOk(Apply(s, Purge(ids)), s.jobs[n])
    {
      PurgeKeepsJob(s, ids, s.jobs[n]);
    }
  }

  lemma RetainKeepsInv(s: State, k: nat)
    requires Inv(s) && Enabled(s, Retain(k))
    ensures Inv(Apply(s, Retain(k)))
  {
    var s' := Apply(s, Retain(k));
    RetiringKeepsRest(s, s');
    forall v | v in s'.served
      ensures InPublished(s', v) || v in s'.dropped || Superseded(s'.landed, v)
    {
      RetainServes(s, k, v);
    }
    JobsFrame(s, s');
  }

  lemma RetainServes(s: State, k: nat, v: Version)
    requires Inv(s) && Enabled(s, Retain(k)) && v in s.served
    ensures var s' := Apply(s, Retain(k)); InPublished(s', v) || v in s'.dropped || Superseded(s'.landed, v)
  {
    var s' := Apply(s, Retain(k));
    if InPublished(s, v) {
      var i :| 0 <= i < |s.splits| && s.splits[i].state == Published && v in s.splits[i].docs;
      if i != k {
        assert s'.splits[i] == s.splits[i];
      }
    }
  }

  // ---- runs ----

  lemma AbortJobKeepsInv(s: State, n: nat)
    requires Inv(s) && n in s.jobs
    ensures Inv(Apply(s, AbortJob(n)))
  {
    JobsFrame(s, Apply(s, AbortJob(n)));
    JobsOnlyKeepInv(s, s.jobs - {n});
  }

  lemma StepKeepsInv(s: State, st: Step)
    requires Inv(s) && Enabled(s, st)
    ensures Inv(Apply(s, st))
  {
    match st
    case Accept(v) => AcceptKeepsInv(s, v);
    case Upsert(items, after) => UpsertKeepsInv(s, items, after);
    case Stage(batch) => StageKeepsInv(s, batch);
    case Publish(k) => PublishKeepsInv(s, k);
    case Confirm(vs) => ConfirmKeepsInv(s, vs);
    case StartJob(n, sources) => StartJobKeepsInv(s, n, sources);
    case ReadPage(n, limit, page) => ReadPageKeepsInv(s, n, limit, page);
    case StageRebuilt(n) => StageRebuiltKeepsInv(s, n);
    case Swap(n) => SwapKeepsInv(s, n);
    case DropSources(n) => DropSourcesKeepsInv(s, n);
    case MarkApplied(n) => MarkAppliedKeepsInv(s, n);
    case AbortJob(n) => AbortJobKeepsInv(s, n);
    case Purge(ids) => PurgeKeepsInv(s, ids);
    case Retain(k) => RetainKeepsInv(s, k);
  }

  /** The states a run passes through, one step at a time. */
  ghost predicate Run(states: seq<State>, steps: seq<Step>) {
    && |states| == |steps| + 1
    && states[0] == INITIAL
    && forall i :: 0 <= i < |steps| ==> Enabled(states[i], steps[i]) && states[i + 1] == Apply(states[i], steps[i])
  }

  lemma {:induction false} RunKeepsInv(states: seq<State>, steps: seq<Step>, i: nat)
    requires Run(states, steps) && i < |states|
    ensures Inv(states[i])
  {
    if i == 0 {
      InitialInv();
    } else {
      RunKeepsInv(states, steps, i - 1);
      StepKeepsInv(states[i - 1], steps[i - 1]);
    }
  }
}
