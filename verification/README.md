# rSearch, modelled in Dafny

rSearch is a log and document search server. This project models the parts of it
whose correctness spans many steps or many functions, and proves what they promise.

- **Document-mode versioning.** `SeqClock` is the hybrid clock that stamps writes.
  `TombstoneTable`, `TombstoneCache` and `Exclusions` are the table of "hide versions
  older than this" bounds, the search nodes' incrementally paged copy of it, and the
  per-split sets of hidden documents. `Metastore` holds the atomic table steps.
  `DocProtocol`, `DocProtocolSteps` and `DocProtocolTheorems` put writers, flushes,
  merges, compaction, retention and purges, any number of rewrite jobs at once, together
  as one step system, with an invariant every step keeps and the theorems over all runs.
  `DocLifecycle` says what a finished rewrite achieves, for the table and for purges.
  `DocLifecycle` says what a finished rewrite achieves, for the table and for purges.
  `DocReaders` adds the search nodes to it: lists loaded page by page and readers that
  fold them in, at any point of any run. `Bulk`, `Flush` and `Replay` are the order of
  effects of a bulk request, the confirm discipline of the flush loop, and replay.
  `Recovery` adds crashing and replaying ingest nodes to the step system.
- **Search paging.** `Ranking` is the theory of selecting, truncating, merging and
  resuming. `TimestampPaging` is the default order. `Lexico`, `SortKeys`, `SortCursor`,
  `TopHeap` and `FieldPaging` are sorts on fields. `TimePruning` is the choice of splits.
- **Write-ahead log.** `Bytes`, `Framing` and `WalCodec` are the file format with a torn
  tail, `Wal` the segment lifecycle, crash and replay, `GroupCommit` the fsync protocol.
- **Block cache and bundles.** `Bundle`, `BlockRead`, `CacheTiers`, `BlockStore`,
  `SingleFlight`.
- **Two algorithms.** `SkipScan` lists JSON paths of a term dictionary; `Glob` is the two
  glob matchers.
- **Shared.** `Prelude` has options, the 64-bit range and document addresses; `Counting`
  is used by `Bulk`, `Flush` and `Replay`.

`dafny verify dfyconfig.toml` checks everything.

## Where the code and its promises differ

Each of these has a concrete failing input and an exact condition, stated as lemmas
or as methods that call the code's model on that input; the two are named in brackets.

- The comment on the clock's `stamp_after` says it returns the lowest salted stamp past
  the last one. It does so only if the salt is no greater than the last stamp's low bits.
  (`LowerStampSkipped`, `StampAfterIsLowestIff`)
- An append that skipped its own fsync can return before its record is durable if
  another append rotates at the same time. (`RotationRaceLosesRecord`, `StepSoundIff`)
- A flush that drops documents of a re-created index and later finds the index deleted
  confirms the dropped records twice (`RecreatedThenDeleted`, `ConfirmedOnceIff`), and a
  double confirm can unlink a segment whose other records were never confirmed.
  (`DoubleConfirmLosesRecord`, `ConfirmKeepsInvIff`)
- A replay opens segment files as it goes; an empty segment can be unlinked before that.
  (`EmptySegmentEndsReplay`, `UnreadSegmentKeptIff`)
- Replay batches the tombstones it re-issues, so a record is re-queued before its
  tombstone unless it completes a batch; its comment says the reverse order.
  (`LateTombstone`, `TombstoneFirstIff`) The convergence theorem covers both orders.
- The bulk handler's comment says a crash between the log append and a replacement's
  upsert is repaired on replay. It is not once the flush confirmed the record before the
  upsert landed. (`ConfirmedThenCrashed`, `RepairedIff`)
- A purge spares rows some live split has not applied, but a buffered write is in no
  split yet. (`PurgeRevivesDeleted`, `PurgeSafeIffInGrace`)
- The disk cache adopts blocks of an earlier run by name and length, and neither tells
  the block size. (`StaleBlockServed`, `AdoptionSafeIff`) The server always passes the
  same one.
- Swapping splits does not look at the sources' states, so a source marked for delete
  meanwhile comes back. (`SwapRevivesMarkedSource`, `SwapConservesIff`)
- A range with both operators of a side, or with a timestamp as a second field, can
  prune a split that holds a match. (`LooserLowerWins`, `LowerSoundIff`;
  `LooserUpperWins`, `UpperSoundIff`; `SecondFieldPrunes`, `LeafRangeSoundIff`)
- A keyword substitute for missing values can read as equal to a different cursor
  string. (`SubstituteCollapses`, `KeyForFaithfulIff`)

One more has an exact condition: a cursor survives its trip through JSON exactly away
from the extreme 64-bit integers (`CursorRoundTripIff`). An append refused for an
over-long name leaves the files of segments its rotations dropped on disk (`AppendBatch`).

## Model

| member | source | states |
|---|---|---|
| SeqClock.NextExceedsIff | crates/rsearch-ingest/src/pipeline.rs:84-109 | a minted stamp exceeds the clock exactly while the clock is below the top of the range |
| SeqClock.NextCarriesSaltIff | crates/rsearch-ingest/src/pipeline.rs:84-109 | the low ten bits are the node's salt exactly when the stamp did not saturate, or the salt is all ones |
| SeqClock.NextFollowsWall | crates/rsearch-ingest/src/pipeline.rs:84-109 | a stamp never lags the wall clock; it is the wall clock's own salted stamp while the clock is behind it, else the stamp one slot past the clock |
| SeqClock.StampExample | crates/rsearch-ingest/src/pipeline.rs:84-109 | salt 1 at the first microsecond gives stamp 1025; after stamp 5000 at the second, 5121 |
| SeqClock.StampAfterIsLowestIff | crates/rsearch-ingest/src/pipeline.rs:82-91 | the stamp after `last` is the lowest salted stamp above it exactly when the salt is no greater than `last`'s own low bits; the comment's unconditional claim is false |
| SeqClock.LowerStampSkipped | crates/rsearch-ingest/src/pipeline.rs:82-91 | salt 5 after stamp 0: the lowest salted stamp 5 is skipped |
| SeqClock.SeqClock.Observe | crates/rsearch-ingest/src/pipeline.rs:77-80 | the clock becomes the maximum of itself and the stamp seen |
| SeqClock.SeqClock.Next | crates/rsearch-ingest/src/pipeline.rs:94-109 | mints the next stamp, above the clock and carrying the salt, and leaves the clock there |
| SeqClock.ClocksOnlyAdvance | crates/rsearch-ingest/src/pipeline.rs:60-109 | over any interleaving of mints and observations on any nodes, no clock goes back |
| SeqClock.MintedExceedsPast | crates/rsearch-ingest/src/pipeline.rs:60-109 | a stamp exceeds every earlier stamp of the node and everything it observed |
| SeqClock.StampsAreUnique | crates/rsearch-ingest/src/pipeline.rs:38-63 | nodes with different salts never mint the same stamp, nor does one node twice |
| SeqClock.ObservedBoundNeverHides | crates/rsearch-server/src/bulk_api.rs:482-511 | a write stamped after its node observed an id's bound is not hidden by that bound |
| TombstoneTable.UpsertJoins | crates/rsearch-metastore/src/tombstones.rs:46-87 | an upsert joins each id's bound with the greatest bound the batch carries |
| TombstoneTable.UpsertKeepsHiding | crates/rsearch-metastore/src/tombstones.rs:46-87 | after an upsert a version is hidden exactly if it was hidden or the batch hides it |
| TombstoneTable.UpsertKeepsOldRows | crates/rsearch-metastore/src/tombstones.rs:69-87 | a row whose ordinal is below the ones drawn is the old row unchanged: a raised row is always re-sequenced |
| TombstoneTable.RunBound | crates/rsearch-metastore/src/tombstones.rs:46-87 | after any run of batches an id's bound is the greatest ever offered |
| TombstoneTable.RunsConverge | crates/rsearch-metastore/src/tombstones.rs:46-87 | two runs that offer the same bounds in any order, batching and repetition end with the same bounds |
| TombstoneCache.TombstonesSince | crates/rsearch-metastore/src/tombstones.rs:114-133 | a page is the lowest-numbered rows past the cursor, ascending, at most the limit |
| TombstoneCache.LoadPages | crates/rsearch-search/src/executor.rs:414-467 | with writes landing between page reads, the loaded list is ascending, starts with what it started from, adds only rows that existed, and holds every row at the last read; it gives up only when more rows were numbered than the pages read could hold |
| TombstoneCache.StreamTombstones.Refresh | crates/rsearch-search/src/executor.rs:383-467 | the cached list becomes such a load, or on a failure nothing changes; a rebuild keeps no entry that was not a row of some snapshot read, a refresh only extends the list; a failure means more rows than the page budget |
| TombstoneCache.ListBoundIsTableBound | crates/rsearch-search/src/executor.rs:414-467 | with upserts only, the list's greatest bound for every id is the table's bound at the last page read |
| TombstoneCache.ListReachesBound | crates/rsearch-search/src/executor.rs:414-467 | with purges too, the list's greatest bound is never below the table's |
| Exclusions.PartitionPoint | crates/rsearch-index/src/exclusions.rs:130-135 | the first index past the applied ordinal, by binary search |
| Exclusions.HiddenBy | crates/rsearch-index/src/exclusions.rs:157-174 | the documents of a segment one tombstone hides: its id's postings with a lower stamp |
| Exclusions.SegmentAdditions | crates/rsearch-index/src/exclusions.rs:145-176 | skipping tombstones at or below the split's lowest stamp changes nothing |
| Exclusions.Extended | crates/rsearch-index/src/exclusions.rs:87-113 | every segment's list becomes exactly the hidden documents, sorted, once each, with the total kept |
| Exclusions.SplitReader.SeedAppliedThrough | crates/rsearch-index/src/exclusions.rs:181-199 | the seed takes effect only while nothing has been applied |
| Exclusions.SplitReader.ApplyTombstones | crates/rsearch-index/src/exclusions.rs:117-179 | for any ascending list, grown, rebuilt or shorter, the set stays exactly the documents hidden by the tombstones processed, which are the old ones and the list's tail |
| Exclusions.TracksKept | crates/rsearch-index/src/exclusions.rs:117-179 | rows raised or purged later do not invalidate what was folded in |
| Exclusions.ApplyTracks | crates/rsearch-search/src/executor.rs:500-546 | a reader seeded at an ordinal has folded in every row past it once the list it applies is fully read |
| Exclusions.DocCountMinusSet | crates/rsearch-search/src/executor.rs:1149-1159 | over all segments of a split, document count minus set size is the number of documents no applied tombstone hides |
| Metastore.Metastore.UpsertTombstones | crates/rsearch-metastore/src/tombstones.rs:46-87 | the batch collapses to one bound per id; a lower bound is refused, a higher one raises the row and gives it a new ordinal |
| Metastore.Collapse | crates/rsearch-metastore/src/tombstones.rs:66-79 | each id once, with its greatest bound |
| Metastore.Metastore.MarkTombstonesApplied | crates/rsearch-metastore/src/tombstones.rs:209-225 | no row's applied ordinal goes back, the named one reaches the given ordinal, and no row's documents or state change; an unknown split is ignored |
| Metastore.Metastore.PurgeTombstones | crates/rsearch-metastore/src/tombstones.rs:227-255 | removes the oldest rows that are past the cutoff and applied by every live split, at most the limit |
| Metastore.FloorHolds | crates/rsearch-metastore/src/tombstones.rs:235-247 | what is purged is past the cutoff and applied by every split not marked for delete; with room left, an old row stays only if some such split has not applied it |
| Metastore.Metastore.StageSplit | crates/rsearch-metastore/src/metastore.rs:300-325 | the new row is publishable and no search can see it: every published row was published before |
| Metastore.Metastore.PublishSplit | crates/rsearch-metastore/src/metastore.rs:408-421 | succeeds exactly for a staged row, which can then not be published again; a refusal changes nothing, and no row's documents or applied ordinal change |
| Metastore.Metastore.MarkSplitsForDelete | crates/rsearch-metastore/src/metastore.rs:423-432 | a row is live afterwards exactly if it was and is not named; no documents or applied ordinals change |
| Metastore.Metastore.SwapSplits | crates/rsearch-metastore/src/control.rs:56-81 | publishes the replacement and marks the sources, or neither |
| DocProtocolSteps.UpsertKeepsInv | crates/rsearch-metastore/src/tombstones.rs:46-87 | an upsert from any writer keeps the protocol invariant |
| DocProtocolSteps.PublishKeepsInv | crates/rsearch-ingest/src/pipeline.rs:921-1010 | publishing a flushed split keeps the invariant |
| DocProtocolSteps.ReadPageKeepsInv | crates/rsearch-server/src/control.rs:656-681 | a job's page read, with writes landing in between, keeps the invariant |
| DocProtocolSteps.OutputClean | crates/rsearch-server/src/control.rs:687-790 | a rebuilt split holds no version hidden by a present tombstone up to the ordinal it records |
| DocProtocolSteps.SwapKeepsInv | crates/rsearch-server/src/control.rs:608-651 | swapping merged or compacted splits keeps the invariant, with any number of other jobs under way |
| DocProtocolSteps.DropSourcesKeepsInv | crates/rsearch-server/src/control.rs:877-920 | dropping sources that rebuilt to nothing keeps the invariant |
| DocProtocolSteps.MarkAppliedKeepsInv | crates/rsearch-server/src/control.rs:877-920 | recording a clean split as applied keeps the invariant |
| DocProtocolSteps.PurgedHidNothing | crates/rsearch-server/src/control.rs:994-1007 | a purged row hid nothing any live split holds |
| DocProtocolSteps.PurgeKeepsInv | crates/rsearch-server/src/control.rs:994-1007 | a purge within the grace period keeps the invariant |
| DocProtocolSteps.StepKeepsInv | crates/rsearch-server/src/control.rs:608-1006 | every step, of any number of concurrent rewrite jobs on disjoint sources, keeps it, in particular: a live split with applied ordinal N holds no version hidden by a present tombstone of ordinal at most N |
| DocProtocolSteps.RunKeepsInv | crates/rsearch-server/src/control.rs:608-1006 | so it holds in every reachable state |
| DocProtocolTheorems.VisibleIsNewest | crates/rsearch-metastore/src/tombstones.rs:46-87 | no visible version is below any bound that ever landed, even one since purged |
| DocProtocolTheorems.LastWriterWins | crates/rsearch-server/src/bulk_api.rs:735-957 | once the writes of an id have left the buffers and the tombstones of those that replaced an older one have landed, what is visible is its newest write, the newest undeleted write is visible, and nothing is if a delete is newer |
| DocProtocolTheorems.RunConverges | crates/rsearch-ingest/src/pipeline.rs:531-600 | the same at the end of any run: any order, batching and repetition of accepts, upserts, flushes, rewrites and purges |
| DocProtocolTheorems.ListViewAgrees | crates/rsearch-search/src/executor.rs:383-467 | a search node's fully read list hides exactly what the table hides, in every split it can search |
| DocProtocolTheorems.ExclusionViewAgrees | crates/rsearch-index/src/exclusions.rs:108-199 | so does what a reader seeded at the split's applied ordinal has processed |
| DocReaders.StepIsGentle | crates/rsearch-metastore/src/tombstones.rs:46-87 | every step of the protocol changes the table only in ways a loaded list and a folded-in set survive |
| DocReaders.SharedKeepsInv | crates/rsearch-search/src/executor.rs:383-546 | any protocol step keeps what the search nodes rely on |
| DocReaders.LoadPageKeepsInv | crates/rsearch-search/src/executor.rs:414-467 | so does a page read into a list being loaded |
| DocReaders.ApplyListKeepsInv | crates/rsearch-search/src/executor.rs:500-546 | so does a reader folding the cached list in |
| DocReaders.FoldAdvances | crates/rsearch-index/src/exclusions.rs:128-179 | folding a list in, even an older one, never sets a reader back: it moves to the list's end if that is further on |
| DocReaders.LoadFinishes | crates/rsearch-search/src/executor.rs:414-467 | a load ends exactly at a short page, and then holds every row there is |
| DocReaders.ApplyingCatchesUp | crates/rsearch-search/src/executor.rs:500-546 | applying a finished list brings any reader up to date |
| DocReaders.RefreshCatchesUp | crates/rsearch-search/src/executor.rs:383-467 | loading the rest of the table, onto the cached list or from scratch, and applying it brings any reader up to date; loaded from scratch the list is the table, purged rows forgotten |
| DocReaders.SystemRunKeepsInv | crates/rsearch-search/src/executor.rs:383-546 | so it holds at every point of every run of writers, jobs, list loads, failed loads and readers together |
| DocReaders.ReaderAgrees | crates/rsearch-search/src/executor.rs:500-546 | at every point a reader never excludes what the table does not hide, and one that has applied a fully read list excludes exactly what the table hides |
| DocReaders.ExclusionSetAgrees | crates/rsearch-index/src/exclusions.rs:108-199 | the per-segment document list a reader holds is, once up to date, exactly the segment's documents the table hides |
| DocReaders.WatchedExcludes | crates/rsearch-search/src/executor.rs:383-546 | a ten-move run: two writes and a tombstone, then a node opens the split, loads its list and applies it; it excludes the replaced version and not the newer one |
| DocProtocolTheorems.SwapKeepsResults | crates/rsearch-metastore/src/control.rs:56-81 | a swap neither loses nor duplicates a search result |
| DocProtocolTheorems.DropSourcesKeepsResults | crates/rsearch-server/src/control.rs:877-920 | dropping fully hidden sources changes no result |
| DocProtocolTheorems.PurgeKeepsResults | crates/rsearch-metastore/src/tombstones.rs:227-255 | a purge changes no result |
| DocProtocolTheorems.MaintenanceKeepsResults | crates/rsearch-server/src/control.rs:608-1006 | no maintenance step changes how often a search returns any version |
| DocProtocolTheorems.MaintenanceRunKeepsResults | crates/rsearch-server/src/control.rs:608-1006 | nor does any stretch of a run made of such steps |
| DocLifecycle.SwapTakesEffect | crates/rsearch-metastore/src/control.rs:56-81 | a swap retires every source, publishes the rewritten split with exactly the rebuilt documents and the applied ordinal of the list's end, and changes no other row |
| DocLifecycle.DropTakesEffect | crates/rsearch-server/src/control.rs:877-920 | sources that rebuilt to nothing are retired with nothing in their place, and no other row changes |
| DocLifecycle.MarkTakesEffect | crates/rsearch-server/src/control.rs:877-920 | a source with nothing hidden stays published and reaches the list's last ordinal, and no other row changes |
| DocLifecycle.RetainTakesEffect | crates/rsearch-metastore/src/metastore.rs:423-432 | retention takes one split and exactly its documents out of every search |
| DocLifecycle.JobLiftsFloor | crates/rsearch-server/src/control.rs:608-1006 | a finished job takes exactly its sources out of the way of every row its list reaches: no other split stops or starts blocking a purge |
| DocLifecycle.LastJobFreesRow | crates/rsearch-metastore/src/tombstones.rs:227-255 | once jobs over the splits in its way are done, a row can be purged |
| DocLifecycle.PurgeIsStep | crates/rsearch-metastore/src/tombstones.rs:227-255 | what the purge statement deletes, within the grace period, is a purge step of the protocol |
| DocLifecycle.WholeLife | crates/rsearch-server/src/control.rs:608-1006 | a twelve-step run from two writes to retention: both versions are returned before the tombstone, only the newer one after it, through rewrite and purge, none after retention; the older one leaves every live split and the table ends empty |
| DocProtocolTheorems.PurgeSafeIffInGrace | crates/rsearch-metastore/src/tombstones.rs:227-255 | staging and publishing any buffered write after a purge brings no replaced version back exactly when no buffered write is hidden by a purged row |
| DocProtocolTheorems.PurgeRevivesDeleted | crates/rsearch-metastore/src/tombstones.rs:227-255 | a buffered write, its landed delete, and a purge before the flush: the floor does not object and the deleted write comes back |
| Recovery.MoveKeepsTracked | crates/rsearch-server/src/bulk_api.rs:735-957 | writes, landings, flushes, confirms, crashes and replays keep: a queued write's tombstone has landed or is owed, and a write is in its log until a split serves it |
| Recovery.CrashProofIff | crates/rsearch-server/src/bulk_api.rs:735-741 | a tombstone has landed or its record is unconfirmed exactly when it is safe now and after the crash of any node |
| Recovery.MoveSafeIff | crates/rsearch-server/src/bulk_api.rs:735-741 | a move keeps a tombstone landed, owed or replayable exactly unless it is the crash of the node that owes it after the record was confirmed |
| Recovery.RepairedIff | crates/rsearch-server/src/bulk_api.rs:735-741 | a crash at any point of a run is repaired by replay exactly when the run confirms no record before its tombstone landed |
| Recovery.ReplayTakesUp | crates/rsearch-ingest/src/pipeline.rs:531-600 | after a crash and a replay of its log a node has queued again exactly that log's records and owes exactly the tombstones of the flagged ones; no other node notices |
| Recovery.ReplayRepairs | crates/rsearch-server/src/bulk_api.rs:735-741 | crash, replay, and one landing of what is then owed: the tombstone of every write the node flagged has landed, if each had landed or was still in the log |
| Recovery.EarlyConfirmLoses | crates/rsearch-ingest/src/pipeline.rs:829-905 | after any such confirm, the crash of the node leaves the tombstone to nobody |
| Recovery.LostStays | crates/rsearch-server/src/bulk_api.rs:927-957 | and no later move lands it, unless someone offers that very bound again |
| Recovery.RecoveredConverges | crates/rsearch-server/src/bulk_api.rs:735-957 | in a run without such confirms, whatever crashed and was replayed, once nothing of an id is in a log or owed only its newest write is visible, or nothing if a delete is newer |
| Recovery.ConfirmedThenCrashed | crates/rsearch-server/src/bulk_api.rs:735-741 | a six-move run that loses a tombstone: nothing is left to replay and both versions stay visible |
| DocProtocolTheorems.SwapConservesIff | crates/rsearch-metastore/src/control.rs:56-81 | whatever the source rows' states, a swap conserves a version's results exactly when the table hides it or every source that holds it still counts |
| DocProtocolTheorems.SwapRevivesMarkedSource | crates/rsearch-metastore/src/control.rs:56-81 | a source marked for delete during the rewrite comes back |
| Bulk.CollectDeletes | crates/rsearch-server/src/bulk_api.rs:742-790 | a tombstone for exactly the deletes on document-mode streams |
| Bulk.DeleteFields | crates/rsearch-server/src/bulk_api.rs:742-790 | field by field: a delete's bound is its own stamp, on its own stream and id, and every document-mode delete has one |
| Bulk.CopyFields | crates/rsearch-server/src/bulk_api.rs:802-827 | every logged copy is one write's for one of its routes, under that write's id and stamp, flagged exactly if the client chose the id and the route is in document mode |
| Bulk.EveryRouteCopied | crates/rsearch-server/src/bulk_api.rs:802-827 | every write has such a copy for each of its routes |
| Bulk.ReplacementsMean | crates/rsearch-server/src/bulk_api.rs:874-890 | a replacement tombstone for exactly the accepted copies flagged as replacing |
| Bulk.ReplacementFields | crates/rsearch-server/src/bulk_api.rs:874-890 | field by field: a replacement's bound is the accepted copy's own stamp, so the write itself stays visible, on its own stream and id, and every such copy has one |
| Bulk.WriteStatusMeans | crates/rsearch-server/src/bulk_api.rs:901-921 | an item succeeds if any copy was accepted, else 429 if any queue was full, else 500 |
| Bulk.EnqueueAll | crates/rsearch-server/src/bulk_api.rs:855-927 | every copy is enqueued once in append order, every item answered once at its own position |
| Bulk.HandleBulk | crates/rsearch-server/src/bulk_api.rs:735-957 | deletes land before the log append or the request fails with nothing done; the append fails exactly when there are copies and it does not land, leaving the deletes and the copies written before the failure, neither enqueued nor confirmed; otherwise everything landed, the effects come in the stated order, and every item is told: a delete done exactly if its stream is known and holds documents, else 400; a write done if a copy of its own was accepted, else 429 if a queue of its own was full, else 500; an unresolved update 500 |
| Bulk.EnqueuedOnce | crates/rsearch-server/src/bulk_api.rs:848-889 | every copy is enqueued exactly once and gets one verdict |
| Bulk.EnqueuedInOrder | crates/rsearch-server/src/bulk_api.rs:848-889 | copies are enqueued in order, and a confirmation directly follows the enqueue it answers |
| Bulk.LeftBehindMeans | crates/rsearch-server/src/bulk_api.rs:813-845 | a failed append leaves nothing if no copy got in, else exactly the copies that did |
| Bulk.ConfirmedIff | crates/rsearch-server/src/bulk_api.rs:891-899 | a copy turned away is confirmed in the log exactly once, an accepted one not at all |
| Bulk.ReplacementAfterDurable | crates/rsearch-server/src/bulk_api.rs:735-957 | a replacement's tombstone goes out last, after the append holding its flagged record landed and after that copy was then accepted; before it only the deletes are upserted |
| Replay.HandleOne | crates/rsearch-ingest/src/pipeline.rs:538-589 | one replayed record: put its tombstone by, upsert a completed batch, then queue it or confirm it; it stops exactly when something it needs fails, with exactly the completed batch done if that landed first |
| Replay.Replay | crates/rsearch-ingest/src/pipeline.rs:531-600 | replay succeeds exactly when nothing fails, with exactly the whole list of effects; otherwise it stopped at the first record that does not go through, or at the last upsert, with exactly the effects before that; the clock has observed the greatest stamp of the flagged records, or nothing |
| Replay.SmoothIff | crates/rsearch-ingest/src/pipeline.rs:538-600 | nothing fails exactly if every record is read, every stream and worker asked for is found, and every batch of a thousand tombstones lands, the last however short |
| Replay.StoppedShort | crates/rsearch-ingest/src/pipeline.rs:531-600 | what a stopped replay did lies between the records before the failing one and that one's own |
| Replay.StoppedRows | crates/rsearch-ingest/src/pipeline.rs:538-559 | a stopped replay has upserted every batch completed before the record it stopped at, and the one that record completes if it landed |
| Replay.EveryTombstoneLands | crates/rsearch-ingest/src/pipeline.rs:538-600 | when replay returns, the tombstones of exactly the flagged records have been upserted, each once, in log order |
| Replay.BatchesAreFull | crates/rsearch-ingest/src/pipeline.rs:554-600 | every batch holds a thousand tombstones but for the last, which is never empty and goes out last of all |
| Replay.HandledOnce | crates/rsearch-ingest/src/pipeline.rs:560-589 | a whole replay queues each record exactly once if it parses and its worker takes it, and confirms it exactly once otherwise |
| Replay.TombstoneFirstIff | crates/rsearch-ingest/src/pipeline.rs:538-589 | a replayed replacement's tombstone precedes its own re-queueing exactly when its rank among the flagged records is a multiple of 1,000 |
| Replay.LateTombstone | crates/rsearch-ingest/src/pipeline.rs:538-600 | one flagged record is queued first and its tombstone upserted after |
| Flush.Flush | crates/rsearch-ingest/src/pipeline.rs:813-905 | the flush ends at the first round that publishes, finds the index deleted or empties the batch, and is still retrying only if none does; every record is published, given up or still held, and confirmed accordingly; it is given up exactly if a look-up of the rounds done found the index under another row than its own, or the first look-up found none and the worker started on another row |
| Flush.UnknownExample | crates/rsearch-ingest/src/pipeline.rs:846-864 | one document, a failed look-up and a build that lands: the document is published |
| Flush.ConfirmedOnceIff | crates/rsearch-ingest/src/pipeline.rs:813-905 | each record is confirmed at most once exactly when no round found the index deleted after failed attempts with part of the batch given up and part still held |
| Flush.AllConfirmed | crates/rsearch-ingest/src/pipeline.rs:829-905 | once the flush ends, exactly the batch's records have been confirmed |
| Flush.RecreatedThenDeleted | crates/rsearch-ingest/src/pipeline.rs:836-852 | a flush that meets a re-created index, a failed attempt, then a deletion confirms a record twice |
| WalCodec.ReadRecord | crates/rsearch-ingest/src/wal.rs:408-458 | one read attempt yields the decoded record or stops, as DecodesIff says |
| WalCodec.SegmentCursor.Advance | crates/rsearch-ingest/src/wal.rs:408-475 | the cursor yields the next record of the file, or nothing is left |
| WalCodec.CountRecords | crates/rsearch-ingest/src/wal.rs:121-140 | the opening pass counts exactly the records a reader will yield |
| WalCodec.DecodeWhole | crates/rsearch-ingest/src/wal.rs:207-240 | a record of either version is read back unchanged whatever follows it |
| WalCodec.DecodeTorn | crates/rsearch-ingest/src/wal.rs:408-458 | a record cut anywhere is not read at all |
| WalCodec.TornTail | crates/rsearch-ingest/src/wal.rs:395-475 | cut a file of any records, old and new mixed, at any byte: exactly the records that fit before the cut are read, unchanged |
| WalCodec.RoundTrip | crates/rsearch-ingest/src/wal.rs:207-240 | a whole file reads back as written |
| WalCodec.FrameExample | crates/rsearch-ingest/src/wal.rs:218-239 | the bytes of one record of each version, length fields, flags and stamp little-endian |
| WalCodec.DecodesIff | crates/rsearch-ingest/src/wal.rs:408-458 | a record is read exactly if the bytes start with its frame; any other length, checksum, flag or field ends the segment |
| WalCodec.ReadsExactly | crates/rsearch-ingest/src/wal.rs:395-475 | of any file whatever, reading yields the one list of records whose frames the file starts with and that no further frame follows |
| WalCodec.BadChecksumEnds | crates/rsearch-ingest/src/wal.rs:425-427 | a record whose stored checksum is not its payload's ends the segment: exactly the records before it are read |
| WalCodec.BadChecksumExample | crates/rsearch-ingest/src/wal.rs:425-427 | ten bytes with the checksum 8 where 7 is due are no record |
| Framing.ReadTorn | crates/rsearch-ingest/src/wal.rs:408-458 | for any self-delimiting frames, reading a cut file yields the frames that fit |
| Framing.FitIsGreatest | crates/rsearch-ingest/src/wal.rs:408-458 | as many frames fit as are together no longer than the cut |
| Wal.SegmentBytesExact | crates/rsearch-ingest/src/wal.rs:240 | the length counted against the segment limit is the length of the segment file |
| Wal.AppendKeepsInv | crates/rsearch-ingest/src/wal.rs:240-253 | a write keeps: the current segment is tracked and unsealed, every outstanding count is records written minus confirmed |
| Wal.SealKeepsInv | crates/rsearch-ingest/src/wal.rs:291-318 | so does a rotation |
| Wal.ExhaustedIff | crates/rsearch-ingest/src/wal.rs:340-353 | nothing is outstanding in a tracked segment exactly when every record of it is confirmed |
| Wal.CollectKeepsInv | crates/rsearch-ingest/src/wal.rs:340-353 | only fully confirmed segments are collected |
| Wal.VictimsAre | crates/rsearch-ingest/src/wal.rs:340-353 | what is collected is exactly the fully confirmed segments other than the current one |
| Wal.UnconfirmedIsTracked | crates/rsearch-ingest/src/wal.rs:321-353 | an unconfirmed record's segment is still tracked and on disk |
| Wal.ConfirmKeepsInv | crates/rsearch-ingest/src/wal.rs:321-334 | confirming a record not confirmed before keeps the counts right |
| Wal.ConfirmKeepsInvIff | crates/rsearch-ingest/src/wal.rs:321-334 | confirming any record keeps the invariant exactly when it was not confirmed before or its segment has nothing left to count down |
| Wal.CrashSurvives | crates/rsearch-ingest/src/wal.rs:408-483 | whatever bytes past the durable part a crash cuts off, every durable record is read back, and what is read back is what the file starts with |
| Wal.FitIsEncodable | crates/rsearch-ingest/src/wal.rs:207-216 | the name check lets through exactly what the format can read back, stamps and payloads in range |
| Wal.ReplayInOrder | crates/rsearch-ingest/src/wal.rs:486-505 | a replay yields records in append order |
| Wal.ReplayIsComplete | crates/rsearch-ingest/src/wal.rs:104-180 | after a crash at any point a drained replay yields every unconfirmed durable record, in append order |
| Wal.DrainReplay | crates/rsearch-ingest/src/wal.rs:486-505 | the lazy iterator fails exactly if a listed segment was unlinked before it was opened, else yields the whole history |
| Wal.ReplayNames | crates/rsearch-ingest/src/wal.rs:486-505 | the records a replay yields are the ones its identities name, one for one |
| Wal.RecoverAfterCrash | crates/rsearch-ingest/src/wal.rs:104-180 | after a crash that cuts each file anywhere past its durable records, the drained iterator returns records of the log in append order, each once, every durable unconfirmed one among them |
| Wal.UnreadSegmentKeptIff | crates/rsearch-ingest/src/wal.rs:340-353 | a segment not yet replayed survives a collection exactly if it is not empty |
| Wal.EmptySegmentEndsReplay | crates/rsearch-ingest/src/wal.rs:486-505 | an empty segment collected before the replay reaches it makes the replay fail |
| Wal.DoubleConfirmLosesRecord | crates/rsearch-ingest/src/wal.rs:321-353 | two records, the first confirmed twice: the unconfirmed second one loses its file |
| Wal.Wal.constructor | crates/rsearch-ingest/src/wal.rs:104-180 | opening tracks every existing segment, closed and with all its records outstanding, forgets none and starts an empty one, numbered one past the highest |
| Wal.Wal.AppendBatch | crates/rsearch-ingest/src/wal.rs:190-286 | the records before the first over-long name are appended in order; on success all are stored under the positions returned, and durable; only full segments are rotated out; rotations drop exactly the fully confirmed segments, whose files are unlinked on success and stay after a refusal |
| Wal.Wal.ConfirmBatch | crates/rsearch-ingest/src/wal.rs:321-334 | counts drop by one per position; a segment stays tracked exactly if it is the current one or holds an unconfirmed record, and exactly the files of the others are unlinked |
| Wal.OpenedInv | crates/rsearch-ingest/src/wal.rs:104-180 | an opened log satisfies the invariant |
| GroupCommit.FsyncKeepsInv | crates/rsearch-ingest/src/wal.rs:273-285 | one fsync of the current segment makes everything flushed so far durable |
| GroupCommit.FlushKeepsInv | crates/rsearch-ingest/src/wal.rs:198-261 | a batch that rotates alone leaves every older record durable or owned by it |
| GroupCommit.StepKeepsInv | crates/rsearch-ingest/src/wal.rs:190-286 | every step of every appender keeps the group-commit invariant |
| GroupCommit.ReturnedIsDurable | crates/rsearch-ingest/src/wal.rs:190-286 | over every interleaving in which a rotating append overlaps no other, a returned append's records are durable even if it skipped its own fsync |
| GroupCommit.StepSoundIff | crates/rsearch-ingest/src/wal.rs:265-285 | whatever rotates, a step keeps returned and counted records durable exactly unless it is an fsync whose snapshot counts a record neither in the file it syncs nor already durable |
| GroupCommit.ReachedIsDurable | crates/rsearch-ingest/src/wal.rs:190-286 | so over every run in which each fsync reaches what it counts, returned appends are durable |
| GroupCommit.GateExclusive | crates/rsearch-ingest/src/wal.rs:275-284 | over every run at most one append is inside the sync gate, and it holds it |
| GroupCommit.NeverStuck | crates/rsearch-ingest/src/wal.rs:265-286 | an append under way has a next step or waits for the one inside the gate, which has one; whether it skips its fsync is decided by the count alone |
| GroupCommit.RotationRaceLosesRecord | crates/rsearch-ingest/src/wal.rs:275-284 | without that hypothesis a returned append's record can be lost |
| Ranking.MergeTruncated | crates/rsearch-search/src/executor.rs:793-845 | truncating every part to k and taking the first k of the rest is taking the first k of everything |
| Ranking.TopIsPrefix | crates/rsearch-search/src/executor.rs:840-845 | a shorter selection is a prefix of a longer one |
| Ranking.SessionIsSorted | crates/rsearch-search/src/executor.rs:1058-1100 | pages that each resume after the last hit join to a prefix of the whole sorted list |
| Ranking.SessionComplete | crates/rsearch-search/src/executor.rs:1058-1100 | followed to a short page they are the whole list, each member once |
| TopHeap.TopHeap.Collect | crates/rsearch-search/src/sort.rs:1069-1100 | the bounded heap keeps the first `limit` of what it was shown |
| TopHeap.TopHeap.Harvest | crates/rsearch-search/src/sort.rs:1102-1134 | the harvest is sort-then-truncate of everything shown |
| TimestampPaging.CollectorMatchesMerge | crates/rsearch-search/src/executor.rs:1100-1126 | the collector's greatest-first, possibly negated key orders hits as the merge does and un-negates to the hit's own values |
| TimestampPaging.ResultOrderMeans | crates/rsearch-search/src/executor.rs:793-845 | newest first or oldest first as asked, then by stamp the same way, then by split, segment and document number upwards |
| TimestampPaging.KeyRestoredIff | crates/rsearch-search/src/executor.rs:1112-1126 | the key gives the values back exactly if it is not negated or neither is the least integer |
| TimestampPaging.CollectedTop | crates/rsearch-search/src/executor.rs:1164-1202 | what the collector keeps, its keys turned back into values, is the first hits in merge order |
| TimestampPaging.ClauseExactIff | crates/rsearch-search/src/executor.rs:1058-1100 | the clause admits exactly the documents past the cursor, legacy ones as -1, if and only if the split has stamps, the order is descending, or the cursor stamp is at least -1 |
| TimestampPaging.AdmitsMeans | crates/rsearch-search/src/executor.rs:1058-1100 | past the cursor means strictly later in the requested direction, equal timestamps told apart by the stamp if the cursor has one |
| TimestampPaging.OutsideHasNoHits | crates/rsearch-search/src/executor.rs:718-733 | a split skipped as already paged holds no document past the cursor |
| TimestampPaging.SearchSplit | crates/rsearch-search/src/executor.rs:1164-1230 | one split yields its first `limit` hits past the cursor |
| TimestampPaging.Search | crates/rsearch-search/src/executor.rs:793-845 | a page is the requested slice of the whole sorted result |
| TimestampPaging.HitsNameDocs | crates/rsearch-search/src/executor.rs:1164-1230 | a split's hits carry the address, timestamp and stamp of its own documents, -1 for a missing stamp: each that the cursor admits and no others |
| TimestampPaging.UniverseMeans | crates/rsearch-search/src/executor.rs:793-845 | what a search ranks is every document of every split that the cursor admits |
| TimestampPaging.SearchExample | crates/rsearch-search/src/executor.rs:793-845 | two documents with the extremes a column can hold, one without a stamp, come newest first or oldest first |
| TimestampPaging.ResumeIsAfter | crates/rsearch-search/src/executor.rs:1058-1100 | resuming from a hit's own key resumes exactly after the hit |
| TimestampPaging.PagingVisitsEverything | crates/rsearch-search/src/executor.rs:1058-1126 | successive pages concatenate to the whole sorted result with no gap or repeat, in both directions |
| SortKeys.ValuesOrdered | crates/rsearch-search/src/sort.rs:312-333 | values of one type, missing placed either way, are strictly and totally ordered |
| SortKeys.MixedNumbers | crates/rsearch-search/src/sort.rs:312-333 | a whole number and a fraction compare by value, in keys as in values |
| SortKeys.KindsOrdered | crates/rsearch-search/src/sort.rs:354-362 | whatever kinds meet, booleans come before numbers, numbers before texts, texts before addresses, in keys as in values |
| Lexico.LessIsBefore | crates/rsearch-search/src/sort.rs:312-333 | texts compare at the first position where they differ, else the shorter first |
| SortKeys.KeyIsExtreme | crates/rsearch-search/src/sort.rs:731-768 | picking among a document's ordinals picks its largest or smallest value |
| SortKeys.KeyForFaithfulIff | crates/rsearch-search/src/sort.rs:771-788 | doubled ordinals order two strings as the strings themselves unless both are absent from the same dictionary gap |
| SortKeys.CursorEmbeds | crates/rsearch-search/src/sort.rs:771-806 | a document's key compares with any cursor value's key as the values compare |
| SortKeys.KeysEmbed | crates/rsearch-search/src/sort.rs:683-714 | the keys of a segment's documents order as their values |
| SortKeys.SubstituteCollapses | crates/rsearch-search/src/sort.rs:774-781 | a keyword substitute absent from the dictionary reads as equal to a smaller cursor string in its gap |
| SortCursor.ParseBackIff | crates/rsearch-search/src/sort.rs:335-352 | a reported value parses back to itself if and only if it is not a number that also marks a missing value |
| SortCursor.MissingMarkers | crates/rsearch-search/src/sort.rs:335-352 | a missing number is reported as the extreme no value passes, on the side where missing values sort; a missing boolean as the extreme 32-bit number, a missing double as an infinity by name, a missing text or address as null |
| SortCursor.ClientValues | crates/rsearch-search/src/sort.rs:507-560 | what else a client may write for a value, numbers as text, times, booleans, null, and what is refused |
| SortCursor.CursorAcceptedIff | crates/rsearch-search/src/sort.rs:578-617 | a cursor is accepted exactly with a value per field and at most two tiebreaks that all parse, and means those values, the timestamp moved into range |
| SortCursor.CursorRoundTripIff | crates/rsearch-search/src/sort.rs:578-617 | a hit's reported values are always accepted as a cursor, and resume exactly at the hit if and only if none is a missing marker and the timestamp is in range |
| FieldPaging.HitOrderTotal | crates/rsearch-search/src/sort.rs:383-398 | result order is strict and total over hits of all splits |
| FieldPaging.HitOrderMeans | crates/rsearch-search/src/sort.rs:383-398 | the first field that differs decides: the smaller first if ascending, the larger if descending, a missing one where its placement and the direction put it; with none, the newer timestamp, the newer stamp, the lower address |
| FieldPaging.HitMeans | crates/rsearch-search/src/sort.rs:963-977 | a hit reports what its document sorts by: its extreme value, else the substitute, else missing |
| FieldPaging.RankedEmbeds | crates/rsearch-search/src/sort.rs:909-923 | key order within a segment is value order |
| FieldPaging.AfterCursorExact | crates/rsearch-search/src/sort.rs:979-1002 | the collector's test, in key space, admits exactly the documents whose values are strictly past the cursor |
| FieldPaging.AdmitsMeans | crates/rsearch-search/src/sort.rs:979-1002 | what past the cursor means over values: the first field that differs decides; a document equal in every field is past no cursor without a timestamp, else exactly if it is older, or as old and below the stamp the cursor then has to have |
| FieldPaging.CollectSegment | crates/rsearch-search/src/sort.rs:1069-1134 | one segment yields its first `limit` documents past the cursor, in result order |
| FieldPaging.SearchSplit | crates/rsearch-search/src/sort.rs:1050-1063 | merging segment fruits yields the split's first `limit` |
| FieldPaging.Search | crates/rsearch-search/src/executor.rs:793-845 | a page of a field sort is the requested slice of the whole sorted result past the cursor |
| FieldPaging.UniverseMeans | crates/rsearch-search/src/sort.rs:909-1134 | what a search ranks is one hit for every matched document the cursor admits, naming its document and carrying what it sorts by |
| FieldPaging.SearchExample | crates/rsearch-search/src/executor.rs:793-845 | two documents with values 1 and 2 come in that order ascending and in the other descending |
| FieldPaging.NoColumnExample | crates/rsearch-search/src/sort.rs:716-730 | a segment without the column holds its documents all the same, each without a value |
| FieldPaging.ResumeIsAfter | crates/rsearch-search/src/sort.rs:637-652 | handing back a hit's JSON sort values resumes exactly after it |
| FieldPaging.PagingVisitsEverything | crates/rsearch-search/src/sort.rs:909-1134 | following each last hit's reported values visits every document exactly once, in order, across all segments and splits |
| TimePruning.ScanTimeBounds | crates/rsearch-search/src/query_dsl.rs:267-310 | the scan tightens the running bounds to exactly the meet of what the tree asks for in conjunctive context |
| TimePruning.HarvestTightest | crates/rsearch-search/src/query_dsl.rs:262-310 | what is harvested is exactly the latest start and the earliest end that a range in conjunctive context asks for, open where none does |
| TimePruning.FilteredQuery | crates/rsearch-search/src/query_dsl.rs:262-310 | a query filtered from one time on and excluding up to another is pruned soundly, at the first time and not at the second, under each of the three timestamp names and under no other |
| TimePruning.OpsSound | crates/rsearch-search/src/query_dsl.rs:601-652 | a timestamp the translated range admits lies within the harvested bounds when the operator that wins a side is the tighter |
| TimePruning.LowerSoundIff | crates/rsearch-search/src/query_dsl.rs:635-642 | with both `gt` and `gte`, the harvested start is sound exactly when `gt` is not the larger |
| TimePruning.UpperSoundIff | crates/rsearch-search/src/query_dsl.rs:635-642 | with both `lt` and `lte`, the harvested end is sound exactly when `lt` is not the smaller |
| TimePruning.LooserLowerWins | crates/rsearch-search/src/query_dsl.rs:635-642 | later than 10 and not before 5: 7 matches and is pruned |
| TimePruning.LooserUpperWins | crates/rsearch-search/src/query_dsl.rs:635-642 | before 5 and not after 10: 7 matches and is pruned |
| TimePruning.PlainRangeOk | crates/rsearch-search/src/query_dsl.rs:255-310 | later fields of a range body that give no readable time are no obstacle |
| TimePruning.BoolMatches | crates/rsearch-search/src/query_dsl.rs:365-399 | a bool query matches exactly what every `must` and `filter` clause matches and no `must_not` clause does, and, with neither `must` nor `filter`, some `should` clause if there is any |
| TimePruning.TranslateMeans | crates/rsearch-search/src/query_dsl.rs:320-399 | a tree is translated exactly if it is understood, and the translation matches exactly the documents that satisfy the tree, all four sections and the last operator of each range side included |
| TimePruning.HarvestSound | crates/rsearch-search/src/query_dsl.rs:255-310 | every document the translated query matches lies within the harvested bounds |
| TimePruning.SecondFieldPrunes | crates/rsearch-search/src/query_dsl.rs:601-612 | a timestamp as second field of a range body is harvested but not translated, so a matching document can be pruned |
| TimePruning.LeafRangeSoundIff | crates/rsearch-search/src/query_dsl.rs:601-612 | a range over another field, one every document may satisfy, is pruned soundly exactly when nothing is harvested from it |
| TimePruning.SplitBuilder.AddDocument | crates/rsearch-index/src/builder.rs:99-119 | the advertised ranges are exactly the accepted documents' own; a rejected one widens nothing |
| TimePruning.SplitBuilder.Finish | crates/rsearch-index/src/builder.rs:129-167 | an empty split is refused, any other described exactly |
| TimePruning.SplitsForQuery | crates/rsearch-metastore/src/metastore.rs:447-468 | the published splits overlapping the bounds |
| TimePruning.OverlapsMeans | crates/rsearch-metastore/src/metastore.rs:447-468 | left out are exactly the splits wholly before the start or after the end, that is, unless the bounds contradict themselves, those whose time range has no timestamp within them |
| TimePruning.PrunedHasNoMatch | crates/rsearch-metastore/src/metastore.rs:447-468 | a split left out holds no match |
| TimePruning.PruneSplits | crates/rsearch-search/src/executor.rs:611-615 | searching the kept splits finds the same documents as searching all, and what is not kept is exactly what is unpublished or wholly out of the harvested bounds |
| Bundle.ListFiles | crates/rsearch-index/src/split_file.rs:80-93 | the directory's files without lock files, by name |
| Bundle.BundledMeans | crates/rsearch-index/src/split_file.rs:80-93 | what is bundled is every regular file whose name does not end in `.lock` |
| Bundle.WriteBundle | crates/rsearch-index/src/split_file.rs:75-127 | the object opens to the metadata returned, whose spans hold exactly the files' bytes |
| Bundle.OpenFindsMeta | crates/rsearch-index/src/reader.rs:86-112 | opening finds the metadata that was written |
| Bundle.OpenSucceedsIff | crates/rsearch-index/src/reader.rs:86-112 | opening succeeds exactly when the object ends in decodable metadata, its length and the magic |
| Bundle.FooterExample | crates/rsearch-index/src/split_file.rs:120-127 | the bytes of a footer: the metadata, its length in eight little-endian bytes, and `RSPLIT01` |
| BlockRead.BuildRuns | crates/rsearch-index/src/storage_directory.rs:128-136 | contiguous runs covering exactly the claimed blocks, no two of them touching |
| BlockRead.ReadAhead | crates/rsearch-index/src/storage_directory.rs:137-139 | read-ahead adds exactly the blocks after the last run, at most `readahead` of them and within the file |
| BlockRead.CutRuns | crates/rsearch-index/src/storage_directory.rs:140-147 | chunks no longer than one request, covering exactly the runs |
| BlockRead.PlanChunks | crates/rsearch-index/src/storage_directory.rs:124-147 | the requests cover exactly the claimed blocks and the read-ahead, each for one block or at most eight mebibytes |
| BlockRead.FetchChunk | crates/rsearch-index/src/storage_directory.rs:150-177 | a chunk is the file's own bytes; it fails exactly when storage fails or answers short |
| BlockRead.SplitBlocks | crates/rsearch-index/src/storage_directory.rs:179-191 | a chunk's pieces are exactly its blocks of the file |
| BlockRead.FetchChunks | crates/rsearch-index/src/storage_directory.rs:150-201 | fails exactly when some chunk is denied, else holds exactly the chunks' blocks |
| BlockRead.Fetch | crates/rsearch-index/src/storage_directory.rs:115-201 | what is fetched and cached is exactly the claimed blocks and the read-ahead; it fails only if storage denies a request for such blocks alone |
| BlockRead.OneRound | crates/rsearch-index/src/storage_directory.rs:63-96 | one pass: a slot is filled and a block cached exactly if it was, or the look-up finds it, or the pass asks for it; the pass waits exactly if another reader holds a block it lacks, and fails only on a denied request for blocks it lacks and may claim, or their read-ahead |
| BlockRead.Assemble | crates/rsearch-index/src/storage_directory.rs:97-109 | the blocks glued together are the requested range |
| BlockRead.Read | crates/rsearch-index/src/storage_directory.rs:43-110 | whatever is cached, evicted, claimed elsewhere or failing, the answer is exactly the range, an error exactly for an invalid range, and the cache stays coherent; a range the first pass finds cached is answered whatever storage and other readers do; a failure names a denied request for blocks no pass so far found cached or free, or their read-ahead; waiting names, for every pass, a block held elsewhere in every pass so far and cached in none; one clear pass gives the bytes; a read of one pass leaves its blocks cached |
| BlockRead.CachedIsClear | crates/rsearch-index/src/storage_directory.rs:63-76 | a range the first pass finds cached leaves storage and other readers nothing to hold up |
| BlockRead.FileHandle | crates/rsearch-index/src/storage_directory.rs:223-236 | a bundled file is found by name exactly if it was bundled |
| BlockRead.ReadBundled | crates/rsearch-index/src/storage_directory.rs:43-110 | reading a range of a bundled file by name returns those bytes of the original file, for sure if they are cached or once a pass is clear |
| CacheTiers.DropRefines | crates/rsearch-index/src/cache.rs:404-412 | dropping a block keeps the two maps inverse and the byte total exact |
| CacheTiers.AddRefines | crates/rsearch-index/src/cache.rs:444-451 | so does adding one as the most recent |
| CacheTiers.EvictStep | crates/rsearch-index/src/cache.rs:453-468 | the lowest tick is always the least recently used block; reaching the new one means nothing else is left |
| CacheTiers.EvictIsLeast | crates/rsearch-index/src/cache.rs:453-468 | what survives fits the budget or is the new block alone, and one block more would not have fitted |
| CacheTiers.DiskTier.Touch | crates/rsearch-index/src/cache.rs:389-401 | a held block becomes the most recent, nothing else moves |
| CacheTiers.DiskTier.Forget | crates/rsearch-index/src/cache.rs:404-414 | the block is gone, the rest unchanged |
| CacheTiers.DiskTier.Insert | crates/rsearch-index/src/cache.rs:417-478 | the block is the most recent and exactly the least recently used ones past the budget are evicted; a failed write changes nothing |
| CacheTiers.MemoryShard.InsertMemory | crates/rsearch-index/src/cache.rs:255-270 | within budget always, and the block just put is never the one evicted |
| BlockStore.SplitBlocks.GetBlock | crates/rsearch-index/src/cache.rs:213-240 | a block comes from memory, or from a readable disk file of the expected length, which is promoted; a file that is gone or of another length is dropped |
| BlockStore.SplitBlocks.PutBlock | crates/rsearch-index/src/cache.rs:242-253 | a fetched block goes to both tiers, to memory alone if the disk write fails |
| BlockStore.PutThenGet | crates/rsearch-index/src/cache.rs:213-253 | what is put is got back, from memory or from its file, and is on disk exactly if that was written; of the other blocks exactly the evicted ones go, and nothing held is changed |
| BlockStore.GetPromotes | crates/rsearch-index/src/cache.rs:226-236 | a block served from disk is served from memory the next time, if it fits there |
| BlockStore.GetDrops | crates/rsearch-index/src/cache.rs:226-239 | a get drops the block's file exactly if, the block not being in memory, the file cannot be read or has a wrong length; it touches no other |
| BlockStore.ReopenAdopts | crates/rsearch-index/src/cache.rs:354-385 | a cache opened over the files an earlier one left serves exactly the readable ones of the length asked for |
| BlockStore.RunKeepsHeld | crates/rsearch-index/src/cache.rs:141-385 | over every run of reads, writes, evictions, failures and restarts everything held was cut at a block size in use so far |
| BlockStore.PassesIff | crates/rsearch-index/src/cache.rs:226-239 | a block of another size past the first passes the length check exactly when it is the short last one at one size and full at the other |
| BlockStore.AdoptionSafeIff | crates/rsearch-index/src/cache.rs:354-385 | for every content of a file of that length, a served adopted block is the file's own exactly when it cannot be confused that way |
| BlockStore.ServedIsOwn | crates/rsearch-index/src/cache.rs:213-240 | so in every run a served block is the file's own unless a size used earlier can be confused with the current one there |
| BlockStore.CachedIsCoherent | crates/rsearch-index/src/cache.rs:213-240 | with one block size, whatever a reader finds cached is coherent, which block reads rely on |
| BlockStore.StaleBlockServed | crates/rsearch-index/src/cache.rs:354-385 | a three-byte file cached at block size 2 and reopened at 1: its third byte is served for its second |
| SingleFlight.SplitCache.Claim | crates/rsearch-index/src/cache.rs:276-293 | the wanted blocks split into those not in flight, now claimed, and those that were |
| SingleFlight.SplitCache.Release | crates/rsearch-index/src/cache.rs:337-348 | dropping a claim releases its blocks and no others |
| SingleFlight.ClaimTakes | crates/rsearch-index/src/cache.rs:276-293 | a claim step takes what nobody is fetching and leaves the rest to those who are |
| SingleFlight.GoesOn | crates/rsearch-index/src/storage_directory.rs:63-94 | a reader that has arrived or found nothing left to wait for can claim again, and nobody else notices |
| SingleFlight.FetchEnds | crates/rsearch-index/src/storage_directory.rs:63-94 | a reader whose fetch succeeded waits for exactly what it found taken, and goes on at once if that was nothing or the fetch failed |
| SingleFlight.StepKeepsInv | crates/rsearch-index/src/cache.rs:276-348 | the in-flight set stays the disjoint union of what live claims own |
| SingleFlight.RunKeepsInv | crates/rsearch-index/src/cache.rs:276-348 | over every interleaving of claims, fetch ends, failures and waits |
| SingleFlight.ReachableInv | crates/rsearch-index/src/cache.rs:276-348 | in particular from no readers at all |
| SingleFlight.WaitsOnFetcher | crates/rsearch-index/src/storage_directory.rs:63-94 | a blocked reader owns nothing and waits only for readers that are fetching |
| SingleFlight.EndingsFreeEveryone | crates/rsearch-index/src/storage_directory.rs:63-94 | however the live fetches end, once each has, nothing is in flight and every waiting reader can go on |
| SingleFlight.SomeEndingEnabled | crates/rsearch-index/src/cache.rs:337-348 | while anything is in flight some fetch can end |
| SkipScan.ProbeFinds | crates/rsearch-index/src/dynamic_paths.rs:98-111 | a prefix probe finds a key with the prefix exactly if there is one |
| SkipScan.KeyMeans | crates/rsearch-index/src/dynamic_paths.rs:40-51 | a key of a path, the end-of-path byte, a type byte and a value reports that path with the type the byte stands for, if any |
| SkipScan.SkipsOnePath | crates/rsearch-index/src/dynamic_paths.rs:112-117 | the next bound skips exactly the current path's terms and keeps its children |
| SkipScan.SegmentFieldTypes | crates/rsearch-index/src/dynamic_paths.rs:73-120 | the skip-scan returns what a walk of every key would, visits each path once, and errs exactly if some key is malformed |
| SkipScan.DynamicFieldTypes | crates/rsearch-index/src/dynamic_paths.rs:73-120 | the same over all segments |
| SkipScan.DecodeInjective | crates/rsearch-index/src/dynamic_paths.rs:141-147 | distinct paths without a backslash decode differently |
| SkipScan.DecodeExample | crates/rsearch-index/src/dynamic_paths.rs:141-147 | nested keys are shown with a dot between them and a backslash before a dot of their own |
| SkipScan.DecodeCollides | crates/rsearch-index/src/dynamic_paths.rs:141-147 | with a backslash two paths can decode alike |
| Glob.SplitMeans | crates/rsearch-server/src/auth.rs:164-171 | a name matches a glob exactly if it is the pattern's pieces with any run at each star |
| Glob.GreedyStep | crates/rsearch-server/src/auth.rs:177-182 | taking a piece's first occurrence loses no match |
| Glob.StreamGlobMatches | crates/rsearch-server/src/auth.rs:164-183 | accepts exactly the names the glob matches |
| Glob.GlobMatches | crates/rsearch-common/src/config.rs:485-509 | accepts exactly the names the glob matches, hence agrees with the other matcher |
| Glob.VerdictMeans | crates/rsearch-common/src/config.rs:464-481 | `-` and a pattern denies, `+` and a pattern or a pattern alone permits |
| Glob.AutoCreateAllows | crates/rsearch-common/src/config.rs:464-481 | a name is admitted exactly if some entry permits it and no earlier one permits or denies it |

## Left out

- The index library (postings, columns, query parser, aggregations): a segment is its documents' values and a sorted dictionary; leaf queries, time literals, text and JSON conversions and the checksum are function parameters.
- SQL text and connections: each statement or transaction is one atomic step on a table.
- Real I/O, tasks and timers: interleavings, cache contents, failures and crashes are parameters or steps; elapsed time is not modelled, so the purge's grace period is the condition that no unflushed write is hidden by a purged row.
- Legacy splits without ids in the versioning protocol: they can hold no tombstoned version; they are modelled in the timestamp cursor.
- Retiring and purging whole streams, schema upgrade and inventory backfill: they would add easy steps of the same shape.
- `SortedDocSet` and the exclusion query's iterator: they only walk the exact list.
- Totals, track limits and aggregation merging in a search: sums over splits.
- Sorting by a mapped field absent from an old split's schema, and resolving sort clauses: branch-by-branch lookups.
- Floating point: doubles are reals, so signed zeros, infinities and NaN are not modelled, and mixed integer/double comparison is exact instead of rounded; the theorems compare values of one type.
- The limit on splits per query and the order in which splits are listed: a query over the limit is refused.
- Parsing block file names and deleting stray files when the disk tier is rebuilt: a restarted cache starts from the block files. `BlockStore` leaves the choice of evicted blocks open; `CacheTiers` has it.
- The library heap's internal layout: the bounded heap is a bag whose last member can be found.
- Splitting and trimming the auto-create setting: `AutoCreateAllows` starts from the list of entries.
- Non-UTF-8 path bytes in the skip-scan: decoding is modelled on valid text.
- Routing rules, update scripts, validation and refresh in a bulk request: the model starts from planned items.
- Alerts, authentication tokens, sessions, replication, peer transfer, LogQL, syslog and GELF, the HTTP layer and the UI: plumbing, or no law to state.
- FieldPaging.PagingVisitsEverything: assumes unique (timestamp, `_seq`) pairs, no value equal to a missing marker, and a keyword substitute only where the segment's dictionary holds it or no document needs it, because each is shown to be needed or breaks ties.
- TimestampPaging.PagingVisitsEverything: assumes unique (timestamp, `_seq`) pairs, because a cursor cannot tell equal keys apart, and no timestamp equal to the least integer, which a date in nanoseconds cannot hold and `KeyRestoredIff` shows an ascending key would not give back.
- Recovery.RecoveredConverges: assumes that a write under a generated id is not newer than another write of that id, because such a write carries no tombstone.
- WalCodec.TornTail: assumes a payload below 2^32 bytes, because the length field truncates longer ones.
- Wal.Wal.ConfirmBatch: asks for records not confirmed before, because `ConfirmKeepsInvIff` shows exactly when a repeated one breaks the counts.
- Replay.Replay: the stream lookup and the worker lookup of a record are one yes or no each, and the counter of queued documents is not modelled.
- Flush.Flush: a batch whose attempts all fail is left in the retry loop at the end of the given rounds.
- BlockRead.Read: the read loop is followed for a given finite list of passes; it may still be waiting at the end only if another reader held one wanted, uncached block in every one.
