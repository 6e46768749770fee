/** The reader side of the tombstone table: pages by ordinal, and the
per-stream list a search node extends incrementally between rebuilds while
other nodes keep writing to the table. */
module TombstoneCache {
  import opened Prelude
  import opened TombstoneTable

  /** Rows fetched per round trip. */
  const TOMBSTONE_PAGE: nat := 10_000

  // ---- pages ----

  ghost predicate Ascending(list: seq<Tombstone>) {
    forall i, j :: 0 <= i < j < |list| ==> list[i].ord < list[j].ord
  }

  /** Highest ordinal of an ascending list, 0 when empty: the cursor a reader resumes from. */
  function LastOrd(list: seq<Tombstone>): nat {
    if list == [] then 0 else list[|list| - 1].ord
  }

  predicate RowAfter(t: Table, after: nat, id: string) {
    id in t.rows && after < t.rows[id].ord
  }

  /** `page` is `SELECT ... WHERE seq > after ORDER BY seq LIMIT limit`. */
  ghost predicate IsPage(t: Table, after: nat, limit: nat, page: seq<Tombstone>) {
    && Ascending(page)
    && |page| <= limit
    && (forall i :: 0 <= i < |page| ==> RowAfter(t, after, page[i].id) && page[i] == Entry(t, page[i].id))
    && (forall id :: RowAfter(t, after, id) && Entry(t, id) !in page ==>
          |page| == limit && LastOrd(page) < t.rows[id].ord)
  }

  /** The row with the lowest ordinal above `after`, if there is one. */
  method FirstAfter(t: Table, after: nat) returns (first: Option<Tombstone>)
    requires Valid(t)
    ensures first.None? ==> forall id :: !RowAfter(t, after, id)
    ensures first.Some? ==> RowAfter(t, after, first.value.id) && first.value == Entry(t, first.value.id)
    ensures first.Some? ==> forall id :: RowAfter(t, after, id) ==> first.value.ord <= t.rows[id].ord
  {
    first := None;
    var todo := t.rows.Keys;
    while todo != {}
      invariant todo <= t.rows.Keys
      invariant first.None? ==> forall id :: RowAfter(t, after, id) ==> id in todo
      invariant first.Some? ==> RowAfter(t, after, first.value.id) && first.value == Entry(t, first.value.id)
      invariant first.Some? ==>
                  forall id :: RowAfter(t, after, id) ==> id in todo || first.value.ord <= t.rows[id].ord
      decreases todo
    {
      var id :| id in todo;
      todo := todo - {id};
      if after < t.rows[id].ord && (first.None? || t.rows[id].ord < first.value.ord) {
        first := Some(Entry(t, id));
      }
    }
  }

  /** The lowest rows past the cursor so far. */
  ghost predicate PageSoFar(t: Table, after: nat, page: seq<Tombstone>) {
    && Ascending(page)
    && (forall i :: 0 <= i < |page| ==> RowAfter(t, after, page[i].id) && page[i] == Entry(t, page[i].id))
    && (forall id :: RowAfter(t, after, id) && Entry(t, id) !in page ==> page == [] || LastOrd(page) < t.rows[id].ord)
  }

  lemma PageGrows(t: Table, after: nat, page: seq<Tombstone>, e: Tombstone)
    requires Valid(t) && PageSoFar(t, after, page)
    requires RowAfter(t, if page == [] then after else LastOrd(page), e.id) && e == Entry(t, e.id) && after <= e.ord
    requires forall id :: RowAfter(t, if page == [] then after else LastOrd(page), id) ==> e.ord <= t.rows[id].ord
    requires page != [] ==> after < LastOrd(page)
    ensures PageSoFar(t, after, page + [e])
  {
    var out := page + [e];
    forall i, j | 0 <= i < j < |out|
      ensures out[i].ord < out[j].ord
    {
      assert j == |page| ==> out[i].ord <= LastOrd(page);
    }
    forall id | RowAfter(t, after, id) && Entry(t, id) !in out
      ensures LastOrd(out) < t.rows[id].ord
    {
      assert e in out && Entry(t, id) !in page;
      assert t.rows[id].ord != e.ord;
    }
  }

  method TombstonesSince(t: Table, after: nat, limit: nat) returns (page: seq<Tombstone>)
    requires Valid(t)
    ensures IsPage(t, after, limit, page)
  {
    page := [];
    while |page| < limit
      invariant |page| <= limit && PageSoFar(t, after, page) && (page != [] ==> after < LastOrd(page))
    {
      var cursor := if page == [] then after else LastOrd(page);
      var first := FirstAfter(t, cursor);
      if first.None? {
        forall id | RowAfter(t, after, id)
          ensures Entry(t, id) in page
        {
          assert !RowAfter(t, cursor, id);
        }
        return;
      }
      PageGrows(t, after, page, first.value);
      page := page + [first.value];
    }
  }

  // ---- the cached list against a changing table ----

  /** What other writers may do to the table between two page reads. */
  ghost predicate Purged(t: Table, t': Table) {
    t'.next == t.next && forall id :: id in t'.rows ==> id in t.rows && t'.rows[id] == t.rows[id]
  }

  ghost predicate SomeUpsert(t: Table, t': Table) {
    exists items :: Upserted(t, t', items)
  }

  ghost predicate Changed(t: Table, t': Table) {
    SomeUpsert(t, t') || Purged(t, t')
  }

  /** The table as each page read sees it: any writes may land in between. */
  ghost predicate Snapshots(tables: seq<Table>) {
    && (forall k :: 0 <= k < |tables| ==> Valid(tables[k]))
    && (forall k :: 0 < k < |tables| ==> Changed(tables[k - 1], tables[k]))
  }

  ghost predicate UpsertsOnly(tables: seq<Table>) {
    forall k :: 0 < k < |tables| ==> SomeUpsert(tables[k - 1], tables[k])
  }

  /** The list holds every row of the table up to its own cursor. */
  ghost predicate Covers(list: seq<Tombstone>, t: Table) {
    && Ascending(list)
    && LastOrd(list) < t.next
    && forall id :: id in t.rows && t.rows[id].ord <= LastOrd(list) ==> Entry(t, id) in list
  }

  /** No entry claims more than the table does. */
  ghost predicate Dominated(list: seq<Tombstone>, t: Table) {
    forall i :: 0 <= i < |list| ==> list[i].id in t.rows && list[i].before <= t.rows[list[i].id].before
  }

  /** The list holds every row of the table. */
  ghost predicate FullyRead(list: seq<Tombstone>, t: Table) {
    Ascending(list) && forall id :: id in t.rows ==> Entry(t, id) in list
  }

  lemma CoversKept(list: seq<Tombstone>, t: Table, t': Table)
    requires Valid(t) && Covers(list, t) && Changed(t, t')
    ensures Covers(list, t')
  {
    if SomeUpsert(t, t') {
      var items :| Upserted(t, t', items);
      forall id | id in t'.rows && t'.rows[id].ord <= LastOrd(list)
        ensures Entry(t', id) in list
      {
        UpsertKeepsOldRows(t, t', items, id);
      }
    }
  }

  lemma DominatedKept(list: seq<Tombstone>, t: Table, t': Table)
    requires Dominated(list, t) && SomeUpsert(t, t')
    ensures Dominated(list, t')
  {
    var items :| Upserted(t, t', items);
    forall i | 0 <= i < |list|
      ensures list[i].id in t'.rows && list[i].before <= t'.rows[list[i].id].before
    {
      UpsertJoins(t, t', items, list[i].id);
    }
  }

  lemma PageKeepsAscending(list: seq<Tombstone>, t: Table, limit: nat, page: seq<Tombstone>)
    requires Ascending(list) && IsPage(t, LastOrd(list), limit, page)
    ensures Ascending(list + page)
  {
    var out := list + page;
    forall i, j | 0 <= i < j < |out|
      ensures out[i].ord < out[j].ord
    {
      if i < |list| && |list| <= j {
        assert list[i].ord <= LastOrd(list) && RowAfter(t, LastOrd(list), page[j - |list|].id);
      }
    }
  }

  /** Every row at or below the page's end, and every row at all when the page
      was short, is now in the list. */
  lemma PageAddsRow(list: seq<Tombstone>, t: Table, limit: nat, page: seq<Tombstone>, id: string)
    requires Covers(list, t) && IsPage(t, LastOrd(list), limit, page)
    requires id in t.rows && (t.rows[id].ord <= LastOrd(page) || |page| < limit)
    ensures Entry(t, id) in list + page
  {
    if LastOrd(list) < t.rows[id].ord {
      assert RowAfter(t, LastOrd(list), id);
      assert Entry(t, id) in page;
    } else {
      assert Entry(t, id) in list;
    }
  }

  lemma PageExtends(list: seq<Tombstone>, t: Table, limit: nat, page: seq<Tombstone>)
    requires Valid(t) && Covers(list, t) && IsPage(t, LastOrd(list), limit, page) && page != []
    ensures Covers(list + page, t)
    ensures |page| < limit ==> FullyRead(list + page, t)
  {
    PageKeepsAscending(list, t, limit, page);
    assert RowAfter(t, LastOrd(list), page[|page| - 1].id);
    assert LastOrd(list + page) == LastOrd(page);
    forall id | id in t.rows && (t.rows[id].ord <= LastOrd(page) || |page| < limit)
      ensures Entry(t, id) in list + page
    {
      PageAddsRow(list, t, limit, page, id);
    }
  }

  /** A page's ordinals climb by at least one a row. */
  lemma {:induction false} PageAdvances(t: Table, after: nat, limit: nat, page: seq<Tombstone>, i: nat)
    requires IsPage(t, after, limit, page) && i < |page|
    ensures after + i < page[i].ord
  {
    assert RowAfter(t, after, page[i].id);
    if i > 0 {
      PageAdvances(t, after, limit, page, i - 1);
    }
  }

  lemma PageDominated(list: seq<Tombstone>, t: Table, limit: nat, page: seq<Tombstone>)
    requires IsPage(t, LastOrd(list), limit, page) && Dominated(list, t)
    ensures Dominated(list + page, t)
  {
    var out := list + page;
    forall i | 0 <= i < |out|
      ensures out[i].id in t.rows && out[i].before <= t.rows[out[i].id].before
    {
      if |list| <= i {
        assert out[i] == page[i - |list|] && RowAfter(t, LastOrd(list), page[i - |list|].id);
      }
    }
  }

  lemma EmptyPageMeansDone(list: seq<Tombstone>, t: Table, limit: nat, page: seq<Tombstone>)
    requires Covers(list, t) && IsPage(t, LastOrd(list), limit, page) && page == [] && 0 < limit
    ensures FullyRead(list, t)
  {
    forall id | id in t.rows
      ensures Entry(t, id) in list
    {
      if LastOrd(list) < t.rows[id].ord {
        assert RowAfter(t, LastOrd(list), id);
        assert false;
      }
    }
  }

  /** The entry was a row of some snapshot. */
  ghost predicate ReadFrom(tables: seq<Table>, e: Tombstone) {
    exists k :: 0 <= k < |tables| && e.id in tables[k].rows && e == Entry(tables[k], e.id)
  }

  /** Every entry past the first `kept` was a row of some snapshot. */
  ghost predicate Traceable(tables: seq<Table>, list: seq<Tombstone>, kept: nat) {
    forall i :: kept <= i < |list| ==> ReadFrom(tables, list[i])
  }

  lemma PageTraceable(tables: seq<Table>, k: nat, list: seq<Tombstone>, kept: nat, limit: nat, page: seq<Tombstone>)
    requires k < |tables| && kept <= |list| && Traceable(tables, list, kept)
    requires IsPage(tables[k], LastOrd(list), limit, page)
    ensures Traceable(tables, list + page, kept)
  {
    forall i | kept <= i < |list + page|
      ensures ReadFrom(tables, (list + page)[i])
    {
      if |list| <= i {
        assert RowAfter(tables[k], LastOrd(list), page[i - |list|].id);
      }
    }
  }

  class StreamTombstones {
    /** The cached list, absent until first loaded. */
    var entries: Option<seq<Tombstone>>

    constructor ()
      ensures entries == None
    {
      entries := None;
    }

    /** What a refresh starts from: the cached list, or nothing on a rebuild. */
    function Base(rebuild: bool): seq<Tombstone>
      reads this
    {
      if !rebuild && entries.Some? then entries.value else []
    }

    /** One refresh: reload from scratch when asked (or when nothing is cached),
        otherwise extend the cached list from its last ordinal. The k-th page
        read sees `tables[k]`; `done` is false when the reads ran past the last
        snapshot given, in which case the cache is left as it was: then every page
        was full, so the table has drawn more ordinals than those pages hold. `at` is
        the snapshot the final page was read from. */
    method Refresh(tables: seq<Table>, rebuild: bool) returns (done: bool, at: nat)
      requires |tables| > 0 && Snapshots(tables)
      requires Covers(Base(rebuild), tables[0])
      modifies this
      ensures !done ==> entries == old(entries)
      ensures !done ==> |tables| * 10_000 < tables[|tables| - 1].next
      ensures done ==> entries.Some? && LoadedFrom(tables, old(Base(rebuild)), at, entries.value)
      ensures done && rebuild ==> forall e :: e in entries.value ==> ReadFrom(tables, e)
      ensures done && !rebuild && old(entries).Some? ==> old(entries).value <= entries.value
    {
      var list;
      done, at, list := LoadPages(tables, Base(rebuild));
      if done {
        entries := Some(list);
      }
    }
  }

  /** Only upserts landed, from a start that claims no more than the table did. */
  ghost predicate Sound(tables: seq<Table>, base: seq<Tombstone>) {
    |tables| > 0 && UpsertsOnly(tables) && Dominated(base, tables[0])
  }

  /** What a finished load holds, relative to the snapshot its last page was read from. */
  ghost predicate LoadedFrom(tables: seq<Table>, base: seq<Tombstone>, at: nat, list: seq<Tombstone>) {
    && at < |tables| && Covers(list, tables[at]) && FullyRead(list, tables[at]) && base <= list
    && Traceable(tables, list, |base|) && (Sound(tables, base) ==> Dominated(list, tables[at]))
  }

  /** A load that has read `k` full pages. */
  ghost predicate Loading(tables: seq<Table>, base: seq<Tombstone>, list: seq<Tombstone>, k: nat) {
    && k <= |tables| && base <= list && Traceable(tables, list, |base|)
    && k * TOMBSTONE_PAGE <= LastOrd(list) && (k > 0 ==> LastOrd(list) < tables[k - 1].next)
    && (k < |tables| ==> Covers(list, tables[k]) && (Sound(tables, base) ==> Dominated(list, tables[k])))
  }

  lemma LoadNext(tables: seq<Table>, base: seq<Tombstone>, list: seq<Tombstone>, k: nat, page: seq<Tombstone>)
    requires k < |tables| && Snapshots(tables) && Loading(tables, base, list, k)
    requires IsPage(tables[k], LastOrd(list), TOMBSTONE_PAGE, page)
    ensures |page| < TOMBSTONE_PAGE ==> LoadedFrom(tables, base, k, list + page)
    ensures |page| >= TOMBSTONE_PAGE ==> Loading(tables, base, list + page, k + 1)
  {
    var t := tables[k];
    PageTraceable(tables, k, list, |base|, TOMBSTONE_PAGE, page);
    if Sound(tables, base) {
      PageDominated(list, t, TOMBSTONE_PAGE, page);
    }
    if page == [] {
      assert list + page == list;
      EmptyPageMeansDone(list, t, TOMBSTONE_PAGE, page);
    } else {
      PageExtends(list, t, TOMBSTONE_PAGE, page);
      PageAdvances(t, LastOrd(list), TOMBSTONE_PAGE, page, |page| - 1);
      if k + 1 < |tables| {
        assert Changed(tables[k], tables[k + 1]);
        CoversKept(list + page, t, tables[k + 1]);
        if Sound(tables, base) {
          DominatedKept(list + page, t, tables[k + 1]);
        }
      }
    }
  }

  lemma LoadBegins(tables: seq<Table>, base: seq<Tombstone>)
    requires |tables| > 0 && Covers(base, tables[0])
    ensures Loading(tables, base, base, 0)
  {
  }

  lemma LoadOverruns(tables: seq<Table>, base: seq<Tombstone>, list: seq<Tombstone>)
    requires |tables| > 0 && Loading(tables, base, list, |tables|)
    ensures |tables| * TOMBSTONE_PAGE < tables[|tables| - 1].next
  {
  }

  /** Page after page until a short one. */
  method LoadPages(tables: seq<Table>, base: seq<Tombstone>) returns (done: bool, at: nat, list: seq<Tombstone>)
    requires |tables| > 0 && Snapshots(tables) && Covers(base, tables[0])
    ensures !done ==> |tables| * TOMBSTONE_PAGE < tables[|tables| - 1].next
    ensures done ==> LoadedFrom(tables, base, at, list)
  {
    list, at := base, 0;
    LoadBegins(tables, base);
    while at < |tables|
      invariant at <= |tables| && Loading(tables, base, list, at)
    {
      var page := TombstonesSince(tables[at], LastOrd(list), TOMBSTONE_PAGE);
      LoadNext(tables, base, list, at, page);
      list := list + page;
      if |page| < TOMBSTONE_PAGE {
        return true, at, list;
      }
      at := at + 1;
    }
    LoadOverruns(tables, base, list);
    return false, at, list;
  }

  function AsBounds(list: seq<Tombstone>): seq<NewTombstone> {
    seq(|list|, i requires 0 <= i < |list| => NewTombstone(list[i].id, list[i].before))
  }

  /** A fully read, dominated list gives every id exactly the table's bound:
      the stale entries a raised row leaves behind never matter. */
  lemma ListBoundIsTableBound(list: seq<Tombstone>, t: Table, id: string)
    requires FullyRead(list, t) && Dominated(list, t)
    ensures MaxFor(AsBounds(list), id) == Bound(t, id)
  {
    if id in t.rows {
      ListReachesBound(list, t, id);
    }
    ListStaysWithin(list, t, id);
  }

  lemma ListStaysWithin(list: seq<Tombstone>, t: Table, id: string)
    requires Dominated(list, t)
    ensures var m := MaxFor(AsBounds(list), id); m.Some? ==> id in t.rows && m.value <= t.rows[id].before
  {
    var bounds := AsBounds(list);
    var m := MaxFor(bounds, id);
    if m.Some? {
      var j :| 0 <= j < |bounds| && bounds[j] == NewTombstone(id, m.value);
      assert list[j].id == id && list[j].before == m.value;
    }
  }

  lemma ListReachesBound(list: seq<Tombstone>, t: Table, id: string)
    requires id in t.rows && Entry(t, id) in list
    ensures MaxFor(AsBounds(list), id).Some? && t.rows[id].before <= MaxFor(AsBounds(list), id).value
  {
    var i :| 0 <= i < |list| && list[i] == Entry(t, id);
    assert AsBounds(list)[i] == NewTombstone(id, t.rows[id].before);
  }
}
