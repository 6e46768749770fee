/** The metastore rows the document-mode protocol shares between nodes: one
stream's tombstone table and its splits. Every method is one statement or one
transaction, i.e. one atomic step. */
module Metastore {
  import opened Prelude
  import opened TombstoneTable

  datatype SplitState = Staged | Published | MarkedForDelete

  /** A split row with the documents of the immutable split it names.
      `applied`: the split holds nothing hidden by a tombstone of that ordinal or below. */
  datatype Split = Split(docs: seq<Version>, applied: nat, state: SplitState)

  predicate Live(s: Split) {
    s.state != MarkedForDelete
  }

  // ---- the statements as functions of the rows ----

  /** Row `k` may be moved from staged to published. */
  predicate Publishable(splits: seq<Split>, k: int) {
    0 <= k < |splits| && splits[k].state == Staged
  }

  function PublishRow(splits: seq<Split>, k: nat): (r: seq<Split>)
    requires k < |splits|
  {
    splits[k := splits[k].(state := Published)]
  }

  function MarkRows(splits: seq<Split>, ids: seq<nat>): (r: seq<Split>)
    ensures |r| == |splits|
    ensures forall k :: 0 <= k < |splits| ==>
              r[k] == if k in ids then splits[k].(state := MarkedForDelete) else splits[k]
  {
    seq(|splits|, k requires 0 <= k < |splits| =>
      if k in ids then splits[k].(state := MarkedForDelete) else splits[k])
  }

  /** The swap transaction: publish the replacement, then mark its sources. */
  function SwapRows(splits: seq<Split>, sources: seq<nat>, replacement: nat): (r: seq<Split>)
    requires replacement < |splits|
  {
    MarkRows(PublishRow(splits, replacement), sources)
  }

  ghost predicate SameButState(a: seq<Split>, b: seq<Split>) {
    |a| == |b| && forall i :: 0 <= i < |a| ==> b[i].docs == a[i].docs && b[i].applied == a[i].applied
  }

  ghost predicate SameButApplied(a: seq<Split>, b: seq<Split>) {
    |a| == |b| && forall i :: 0 <= i < |a| ==> b[i].docs == a[i].docs && b[i].state == a[i].state
  }

  function RaiseApplied(splits: seq<Split>, k: nat, through: nat): (r: seq<Split>)
    requires k < |splits|
  {
    splits[k := splits[k].(applied := if splits[k].applied < through then through else splits[k].applied)]
  }

  /** Every live split has applied the row's ordinal, so none can hold a version it hides. */
  predicate BelowFloor(t: Table, splits: seq<Split>, id: string)
    requires id in t.rows
  {
    forall k :: 0 <= k < |splits| && Live(splits[k]) ==> t.rows[id].ord <= splits[k].applied
  }

  predicate Purgeable(t: Table, splits: seq<Split>, cutoff: int, id: string) {
    id in t.rows && t.rows[id].created < cutoff && BelowFloor(t, splits, id)
  }

  function DropRows(t: Table, ids: set<string>): (r: Table) {
    Table(map id | id in t.rows && id !in ids :: t.rows[id], t.next)
  }

  /** `DELETE ... ORDER BY created_at LIMIT limit`: the oldest purgeable rows, at most `limit`. */
  ghost predicate PurgedOldest(t: Table, splits: seq<Split>, cutoff: int, limit: nat, gone: set<string>) {
    && |gone| <= limit
    && (forall id :: id in gone ==> Purgeable(t, splits, cutoff, id))
    && (forall id :: Purgeable(t, splits, cutoff, id) && id !in gone ==>
          |gone| == limit && forall g :: g in gone ==> t.rows[g].created <= t.rows[id].created)
  }

  /** What is purged is old and applied by every split not marked for delete; what is
      old and stays, with room left, is still needed by one. */
  lemma FloorHolds(t: Table, splits: seq<Split>, cutoff: int, limit: nat, gone: set<string>)
    requires PurgedOldest(t, splits, cutoff, limit, gone)
    ensures forall id :: id in gone ==> id in t.rows && t.rows[id].created < cutoff
    ensures forall id, k :: id in gone && 0 <= k < |splits| && splits[k].state != MarkedForDelete ==>
              t.rows[id].ord <= splits[k].applied
    ensures |gone| < limit ==> forall id :: id in t.rows && id !in gone && t.rows[id].created < cutoff ==>
              exists k :: 0 <= k < |splits| && splits[k].state != MarkedForDelete && splits[k].applied < t.rows[id].ord
  {
    forall id | |gone| < limit && id in t.rows && id !in gone && t.rows[id].created < cutoff
      ensures exists k :: && 0 <= k < |splits| && splits[k].state != MarkedForDelete
                          && splits[k].applied < t.rows[id].ord
    {
      assert !Purgeable(t, splits, cutoff, id);
    }
  }

  function UpsertRow(t: Table, id: string, before: int, now: int): Table {
    if id in t.rows && before <= t.rows[id].before then t
    else Table(t.rows[id := Row(t.next, before, now)], t.next + 1)
  }

  ghost predicate Written(t: Table, t': Table, items: seq<NewTombstone>, now: int, id: string)
    requires id in t'.rows
  {
    RowUpserted(t, t', items, id) && (Raises(t, items, id) ==> t'.rows[id].created == now)
  }

  /** The statement half way: every id outside `todo` has been dealt with. */
  ghost predicate PartlyUpserted(t: Table, t': Table, items: seq<NewTombstone>, todo: set<string>, now: int) {
    && Valid(t')
    && t.next <= t'.next
    && (forall id :: id in t'.rows <==> id in t.rows || (MaxFor(items, id).Some? && id !in todo))
    && (forall id :: id in t'.rows && id in todo ==> t'.rows[id] == t.rows[id])
    && (forall id :: id in t'.rows && id !in todo ==> Written(t, t', items, now, id))
  }

  lemma UpsertOneMore(t: Table, u: Table, items: seq<NewTombstone>, todo: set<string>, id: string, now: int)
    requires PartlyUpserted(t, u, items, todo, now)
    requires id in todo && MaxFor(items, id).Some?
    ensures PartlyUpserted(t, UpsertRow(u, id, MaxFor(items, id).value, now), items, todo - {id}, now)
  {
    var u' := UpsertRow(u, id, MaxFor(items, id).value, now);
    assert Valid(u');
    forall x | x in u'.rows && x !in todo - {id}
      ensures Written(t, u', items, now, x)
    {
      if x != id {
        assert Written(t, u, items, now, x);
      }
    }
  }

  lemma UpsertComplete(t: Table, t': Table, items: seq<NewTombstone>, now: int)
    requires PartlyUpserted(t, t', items, {}, now)
    ensures Upserted(t, t', items)
    ensures forall id :: id in t'.rows && Raises(t, items, id) ==> t'.rows[id].created == now
  {
    forall id | id in t'.rows
      ensures RowUpserted(t, t', items, id) && (Raises(t, items, id) ==> t'.rows[id].created == now)
    {
      assert Written(t, t', items, now, id);
    }
  }

  class Metastore {
    var table: Table
    var splits: seq<Split>

    constructor ()
      ensures Valid(table) && table == Table(map[], 1) && splits == []
    {
      table := Table(map[], 1);
      splits := [];
    }

    /** Collapse the batch to one bound per id, then insert or raise. */
    method UpsertTombstones(items: seq<NewTombstone>, now: int)
      requires Valid(table)
      modifies this`table
      ensures Upserted(old(table), table, items)
      ensures forall id :: id in table.rows && Raises(old(table), items, id) ==> table.rows[id].created == now
    {
      if items == [] {
        return;
      }
      var grouped := Collapse(items);
      var todo := grouped.Keys;
      ghost var t := table;
      while todo != {}
        invariant todo <= grouped.Keys
        invariant PartlyUpserted(t, table, items, todo, now)
        decreases todo
      {
        var id :| id in todo;
        UpsertOneMore(t, table, items, todo, id, now);
        todo := todo - {id};
        table := UpsertRow(table, id, grouped[id], now);
      }
      UpsertComplete(t, table, items, now);
    }

    /** `GREATEST(applied, through)`: the split is known to have applied everything up to
        `through`, no split is ever known to have applied less than before, and nothing
        else about any split changes. An unknown split is a no-op. */
    method MarkTombstonesApplied(k: nat, through: nat)
      modifies this`splits
      ensures SameButApplied(old(splits), splits)
      ensures forall i :: 0 <= i < |splits| ==> old(splits)[i].applied <= splits[i].applied
      ensures k < |splits| ==> through <= splits[k].applied && splits[k].applied in {through, old(splits)[k].applied}
      ensures forall i :: 0 <= i < |splits| && i != k ==> splits[i] == old(splits)[i]
      ensures splits == if k < |old(splits)| then RaiseApplied(old(splits), k, through) else old(splits)
    {
      if k < |splits| {
        splits := RaiseApplied(splits, k, through);
      }
    }

    /** Delete the oldest rows every live split has applied, at most `limit` of them. */
    method PurgeTombstones(cutoff: int, limit: nat) returns (removed: nat, ghost gone: set<string>)
      requires Valid(table)
      modifies this`table
      ensures PurgedOldest(old(table), splits, cutoff, limit, gone)
      ensures table == DropRows(old(table), gone) && Valid(table) && removed == |gone|
      ensures forall id :: id in gone ==> id in old(table).rows && old(table).rows[id].created < cutoff
      ensures forall id :: id in table.rows <==> id in old(table).rows && id !in gone
      ensures forall id :: id in table.rows ==> table.rows[id] == old(table).rows[id]
      ensures table.next == old(table).next
      ensures forall id, k :: id in gone && 0 <= k < |splits| && splits[k].state != MarkedForDelete ==>
                old(table).rows[id].ord <= splits[k].applied
      ensures |gone| < limit ==> forall id :: id in table.rows && table.rows[id].created < cutoff ==>
                exists k :: && 0 <= k < |splits| && splits[k].state != MarkedForDelete
                            && splits[k].applied < table.rows[id].ord
    {
      ghost var t := table;
      var victims: set<string> := {};
      while |victims| < limit
        invariant |victims| <= limit && table == t
        invariant forall id :: id in victims ==> Purgeable(table, splits, cutoff, id)
        invariant forall id, g :: Purgeable(table, splits, cutoff, id) && id !in victims && g in victims ==>
                    table.rows[g].created <= table.rows[id].created
      {
        var oldest := OldestPurgeable(table, splits, cutoff, victims);
        if oldest.None? {
          break;
        }
        victims := victims + {oldest.value};
      }
      gone := victims;
      removed := |victims|;
      FloorHolds(t, splits, cutoff, limit, gone);
      table := DropRows(table, victims);
    }

    /** The new row can be published and is not searched before that; the others are as they were. */
    method StageSplit(docs: seq<Version>, applied: nat) returns (k: nat)
      modifies this`splits
      ensures |splits| == k + 1 && splits[..k] == old(splits)
      ensures Publishable(splits, k) && splits[k].docs == docs && splits[k].applied == applied
      ensures forall i :: 0 <= i < |splits| && splits[i].state == Published ==>
                i < k && old(splits)[i].state == Published
    {
      k := |splits|;
      splits := splits + [Split(docs, applied, Staged)];
    }

    /** staged -> published, once: the row cannot be published again. Anything else is
        a conflict and changes nothing. No row's documents or applied ordinal change. */
    method PublishSplit(k: nat) returns (ok: bool)
      modifies this`splits
      ensures ok <==> Publishable(old(splits), k)
      ensures SameButState(old(splits), splits)
      ensures ok ==> splits[k].state == Published && !Publishable(splits, k)
      ensures forall i :: 0 <= i < |splits| && (i != k || !ok) ==> splits[i] == old(splits)[i]
      ensures splits == if ok then PublishRow(old(splits), k) else old(splits)
    {
      ok := Publishable(splits, k);
      if ok {
        splits := PublishRow(splits, k);
      }
    }

    /** Exactly the named rows, and those that already were, are dead afterwards; an
        unknown id is ignored and no row's documents or applied ordinal change. */
    method MarkSplitsForDelete(ids: seq<nat>)
      modifies this`splits
      ensures SameButState(old(splits), splits)
      ensures forall i :: 0 <= i < |splits| ==> (Live(splits[i]) <==> Live(old(splits)[i]) && i !in ids)
      ensures forall i :: 0 <= i < |splits| && i !in ids ==> splits[i] == old(splits)[i]
      ensures splits == MarkRows(old(splits), ids)
    {
      splits := MarkRows(splits, ids);
    }

    /** All or nothing: rolled back when the replacement is not staged. */
    method SwapSplits(sources: seq<nat>, replacement: nat) returns (ok: bool)
      modifies this`splits
      ensures ok == Publishable(old(splits), replacement)
      ensures SameButState(old(splits), splits)
      ensures ok ==> forall i :: 0 <= i < |splits| ==>
                splits[i].state == if i in sources then MarkedForDelete
                                   else if i == replacement then Published else old(splits)[i].state
      ensures splits == if ok then SwapRows(old(splits), sources, replacement) else old(splits)
    {
      var published := PublishSplit(replacement);
      ok := published;
      if published {
        MarkSplitsForDelete(sources);
      }
    }
  }

  /** One id's group holds its largest bound. */
  ghost predicate GroupedAs(grouped: map<string, int>, best: Option<int>, id: string) {
    if best.None? then id !in grouped else id in grouped && grouped[id] == best.value
  }

  lemma GroupNext(grouped: map<string, int>, items: seq<NewTombstone>, i: nat, id: string)
    requires i < |items| && GroupedAs(grouped, MaxFor(items[..i], id), id)
    ensures var item := items[i];
            var raised :=
              if item.id !in grouped || grouped[item.id] < item.before then grouped[item.id := item.before]
              else grouped;
            GroupedAs(raised, MaxFor(items[..i + 1], id), id)
  {
    assert items[..i + 1][..i] == items[..i];
  }

  /** `GROUP BY id` with `MAX(before_seq)`. */
  method Collapse(items: seq<NewTombstone>) returns (grouped: map<string, int>)
    ensures forall id :: GroupedAs(grouped, MaxFor(items, id), id)
  {
    grouped := map[];
    for i := 0 to |items|
      invariant forall id :: GroupedAs(grouped, MaxFor(items[..i], id), id)
    {
      var item := items[i];
      var raised :=
        if item.id !in grouped || grouped[item.id] < item.before then grouped[item.id := item.before] else grouped;
      ghost var next := items[..i + 1];
      forall id
        ensures GroupedAs(raised, MaxFor(next, id), id)
      {
        GroupNext(grouped, items, i, id);
      }
      grouped := raised;
    }
    assert items[..|items|] == items;
  }

  /** The oldest purgeable row outside `taken`. */
  method OldestPurgeable(t: Table, splits: seq<Split>, cutoff: int, taken: set<string>) returns (oldest: Option<string>)
    ensures oldest.None? ==> forall id :: Purgeable(t, splits, cutoff, id) ==> id in taken
    ensures oldest.Some? ==> Purgeable(t, splits, cutoff, oldest.value) && oldest.value !in taken
    ensures oldest.Some? ==> forall id :: Purgeable(t, splits, cutoff, id) && id !in taken ==>
              t.rows[oldest.value].created <= t.rows[id].created
  {
    oldest := None;
    var todo := t.rows.Keys;
    while todo != {}
      invariant todo <= t.rows.Keys
      invariant oldest.None? ==> forall id :: Purgeable(t, splits, cutoff, id) ==> id in taken || id in todo
      invariant oldest.Some? ==> Purgeable(t, splits, cutoff, oldest.value) && oldest.value !in taken
      invariant oldest.Some? ==> forall id :: Purgeable(t, splits, cutoff, id) && id !in taken ==>
                  id in todo || t.rows[oldest.value].created <= t.rows[id].created
      decreases todo
    {
      var id :| id in todo;
      todo := todo - {id};
      if id !in taken && Purgeable(t, splits, cutoff, id) &&
         (oldest.None? || t.rows[id].created < t.rows[oldest.value].created)
      {
        oldest := Some(id);
      }
    }
  }
}
