/** The `doc_tombstones` table of one document-mode stream.
A row says "hide every version of this id stamped below `before`". There is at
most one row per id; raising a row's bound also draws it a fresh ordinal, so a
reader that pages by ordinal meets the raised row again. */
module TombstoneTable {
  import opened Prelude

  /** One write of a document: its id and its `_seq` stamp. */
  datatype Version = Version(id: string, stamp: int)

  /** A bound to record: versions of `id` stamped below `before` are hidden. */
  datatype NewTombstone = NewTombstone(id: string, before: int)

  /** A tombstone as readers page it: a bound with its ordinal. */
  datatype Tombstone = Tombstone(ord: nat, id: string, before: int)

  datatype Row = Row(ord: nat, before: int, created: int)

  /** The rows by id, and the next ordinal the identity column will draw. */
  datatype Table = Table(rows: map<string, Row>, next: nat)

  predicate Hides(t: Tombstone, v: Version) {
    t.id == v.id && v.stamp < t.before
  }

  predicate TableHides(t: Table, v: Version) {
    v.id in t.rows && v.stamp < t.rows[v.id].before
  }

  /** Ordinals start at 1, are below the next one to draw, and name one row each. */
  ghost predicate Valid(t: Table) {
    && 1 <= t.next
    && (forall id :: id in t.rows ==> 1 <= t.rows[id].ord < t.next)
    && (forall a, b :: a in t.rows && b in t.rows && t.rows[a].ord == t.rows[b].ord ==> a == b)
  }

  function Entry(t: Table, id: string): Tombstone
    requires id in t.rows
  {
    Tombstone(t.rows[id].ord, id, t.rows[id].before)
  }

  function Bound(t: Table, id: string): Option<int> {
    if id in t.rows then Some(t.rows[id].before) else None
  }

  /** Least upper bound of two optional bounds; `None` is "no bound". */
  function Join(a: Option<int>, b: Option<int>): Option<int> {
    match (a, b)
    case (None, _) => b
    case (_, None) => a
    case (Some(x), Some(y)) => if x < y then b else a
  }

  /** The greatest bound a batch carries for `id`. */
  function MaxFor(items: seq<NewTombstone>, id: string): (m: Option<int>)
    ensures m.None? <==> forall i :: 0 <= i < |items| ==> items[i].id != id
    ensures m.Some? ==> NewTombstone(id, m.value) in items
    ensures m.Some? ==> forall i :: 0 <= i < |items| && items[i].id == id ==> items[i].before <= m.value
  {
    if items == [] then None
    else
      var rest := MaxFor(items[..|items| - 1], id);
      var last := items[|items| - 1];
      if last.id == id then Join(rest, Some(last.before)) else rest
  }

  // ---- the effect of one upsert statement ----

  /** The batch carries a bound for `id` that the statement will write: the id
      has no row yet, or the bound is strictly greater than the row's. */
  predicate Raises(t: Table, items: seq<NewTombstone>, id: string) {
    var m := MaxFor(items, id);
    m.Some? && (id in t.rows ==> t.rows[id].before < m.value)
  }

  ghost predicate RowUpserted(t: Table, t': Table, items: seq<NewTombstone>, id: string)
    requires id in t'.rows
  {
    if Raises(t, items, id) then
      t'.rows[id].before == MaxFor(items, id).value && t.next <= t'.rows[id].ord
    else
      id in t.rows && t'.rows[id] == t.rows[id]
  }

  /** What one upsert promises: duplicates collapse to their greatest bound, a
      greater bound replaces the row and re-sequences it above every ordinal
      drawn before, and a lower or equal bound leaves the row as it was. */
  ghost predicate Upserted(t: Table, t': Table, items: seq<NewTombstone>) {
    && Valid(t')
    && t.next <= t'.next
    && (forall id :: id in t'.rows <==> id in t.rows || MaxFor(items, id).Some?)
    && (forall id :: id in t'.rows ==> RowUpserted(t, t', items, id))
  }

  /** An upsert is a join in the lattice of bounds. */
  lemma UpsertJoins(t: Table, t': Table, items: seq<NewTombstone>, id: string)
    requires Upserted(t, t', items)
    ensures Bound(t', id) == Join(Bound(t, id), MaxFor(items, id))
  {
    if id in t'.rows {
      assert RowUpserted(t, t', items, id);
    }
  }

  /** Hiding only ever grows under an upsert, and every bound of the batch takes effect. */
  lemma UpsertKeepsHiding(t: Table, t': Table, items: seq<NewTombstone>, v: Version)
    requires Upserted(t, t', items)
    ensures TableHides(t', v) <==>
            TableHides(t, v) || exists i :: 0 <= i < |items| && items[i].id == v.id && v.stamp < items[i].before
  {
    UpsertJoins(t, t', items, v.id);
    var m := MaxFor(items, v.id);
    if m.Some? && v.stamp < m.value {
      var i :| 0 <= i < |items| && items[i] == NewTombstone(v.id, m.value);
    }
  }

  /** A row keeps its ordinal only if the upsert left it untouched. */
  lemma UpsertKeepsOldRows(t: Table, t': Table, items: seq<NewTombstone>, id: string)
    requires Upserted(t, t', items)
    requires id in t'.rows && t'.rows[id].ord < t.next
    ensures id in t.rows && t'.rows[id] == t.rows[id]
  {
    assert RowUpserted(t, t', items, id);
  }

  // ---- whole runs of upserts ----

  function Flatten(batches: seq<seq<NewTombstone>>): seq<NewTombstone> {
    if batches == [] then [] else Flatten(batches[..|batches| - 1]) + batches[|batches| - 1]
  }

  ghost predicate UpsertRun(tables: seq<Table>, batches: seq<seq<NewTombstone>>) {
    && |tables| == |batches| + 1
    && forall i :: 0 <= i < |batches| ==> Upserted(tables[i], tables[i + 1], batches[i])
  }

  lemma {:induction false} MaxForAppend(a: seq<NewTombstone>, b: seq<NewTombstone>, id: string)
    ensures MaxFor(a + b, id) == Join(MaxFor(a, id), MaxFor(b, id))
  {
    if b == [] {
      assert a + b == a;
    } else {
      assert (a + b)[..|a + b| - 1] == a + b[..|b| - 1];
      MaxForAppend(a, b[..|b| - 1], id);
    }
  }

  /** After any run of batches each id's bound is the greatest one ever offered. */
  lemma {:induction false} RunBound(tables: seq<Table>, batches: seq<seq<NewTombstone>>, id: string)
    requires UpsertRun(tables, batches)
    ensures Bound(tables[|batches|], id) == Join(Bound(tables[0], id), MaxFor(Flatten(batches), id))
  {
    var n := |batches|;
    if n > 0 {
      RunBound(tables[..n], batches[..n - 1], id);
      UpsertJoins(tables[n - 1], tables[n], batches[n - 1], id);
      MaxForAppend(Flatten(batches[..n - 1]), batches[n - 1], id);
    }
  }

  /** Order, batching and repetition do not matter: two runs that start with the
      same bounds and offer the same set of bounds end with the same bounds. */
  lemma RunsConverge(tables: seq<Table>, batches: seq<seq<NewTombstone>>,
                     tables': seq<Table>, batches': seq<seq<NewTombstone>>, id: string)
    requires UpsertRun(tables, batches) && UpsertRun(tables', batches')
    requires Bound(tables[0], id) == Bound(tables'[0], id)
    requires forall b :: b in Flatten(batches) <==> b in Flatten(batches')
    ensures Bound(tables[|batches|], id) == Bound(tables'[|batches'|], id)
  {
    RunBound(tables, batches, id);
    RunBound(tables', batches', id);
    MaxForMonotone(Flatten(batches), Flatten(batches'), id);
    MaxForMonotone(Flatten(batches'), Flatten(batches), id);
  }

  lemma MaxForMonotone(a: seq<NewTombstone>, b: seq<NewTombstone>, id: string)
    requires forall x :: x in a ==> x in b
    ensures Join(MaxFor(a, id), MaxFor(b, id)) == MaxFor(b, id)
  {
    var m := MaxFor(a, id);
    if m.Some? {
      assert NewTombstone(id, m.value) in b;
    }
  }
}
