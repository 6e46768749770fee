/** Search nodes within the document-mode protocol: a cached tombstone list loaded
page by page, and readers whose exclusion sets are extended from it, interleaved
with every step of the writers and the control leader. */
module DocReaders {
  import opened Prelude
  import opened TombstoneTable
  import opened TombstoneCache
  import opened Metastore
  import opened Exclusions
  import opened DocProtocol
  import opened DocProtocolSteps
  import opened DocProtocolTheorems
  import opened DocLifecycle

  /** A reader of split `k`, opened at `seed`. */
  datatype Reader = Reader(k: nat, seed: nat, applied: nat, processed: set<Tombstone>)

  /** `cached` serves queries; `loading` is a refresh under way. */
  datatype System = System(
    s: State,
    cached: seq<Tombstone>,
    loading: Option<seq<Tombstone>>,
    readers: map<nat, Reader>)

  datatype Move =
    | Shared(st: Step)
    /** A refresh from the cached list, or from scratch. */
    | BeginLoad(rebuild: bool)
    | LoadPage(limit: nat, page: seq<Tombstone>)
    | FailLoad
    /** The split row was read when its applied ordinal was `seed`. */
    | Open(r: nat, k: nat, seed: nat)
    | ApplyList(r: nat)

  ghost const START: System := System(INITIAL, [], None, map[])

  ghost predicate CanMove(y: System, m: Move) {
    match m
    case Shared(st) => Enabled(y.s, st)
    case BeginLoad(_) => y.loading.None?
    case LoadPage(limit, page) =>
      y.loading.Some? && 0 < limit && IsPage(y.s.table, LastOrd(y.loading.value), limit, page)
    case FailLoad => y.loading.Some?
    case Open(r, k, seed) => r !in y.readers && k < |y.s.splits| && seed <= y.s.splits[k].applied
    case ApplyList(r) => r in y.readers
  }

  ghost function Moved(y: System, m: Move): System
    requires CanMove(y, m)
  {
    match m
    case Shared(st) => y.(s := Apply(y.s, st))
    case BeginLoad(rebuild) => y.(loading := Some(if rebuild then [] else y.cached))
    case LoadPage(limit, page) =>
      var list := y.loading.value + page;
      if |page| < limit then y.(cached := list, loading := None) else y.(loading := Some(list))
    case FailLoad => y.(loading := None)
    case Open(r, k, seed) => y.(readers := y.readers[r := Reader(k, seed, seed, {})])
    case ApplyList(r) => y.(readers := y.readers[r := Folded(y.readers[r], y.cached)])
  }

  ghost function Folded(q: Reader, list: seq<Tombstone>): Reader {
    var pending := Pending(list, q.applied);
    q.(processed := q.processed + pending, applied := if pending == {} then q.applied else LastOrd(list))
  }

  /** Folding a list in, even one older than the last, never sets a reader back: it moves
      to the list's end if that is further on, and stays put otherwise. */
  lemma FoldAdvances(q: Reader, list: seq<Tombstone>)
    requires Ascending(list)
    ensures Folded(q, list).applied == if q.applied < LastOrd(list) then LastOrd(list) else q.applied
    ensures q.processed <= Folded(q, list).processed
  {
    var pending := Pending(list, q.applied);
    if q.applied < LastOrd(list) {
      assert list[|list| - 1] in pending;
    } else {
      assert forall i :: 0 <= i < |list| ==> list[i].ord <= LastOrd(list);
      assert pending == {};
    }
  }

  // ---- what every move keeps ----

  ghost predicate ListOk(s: State, list: seq<Tombstone>) {
    Covers(list, s.table) && ListLanded(s.landed, list)
  }

  ghost predicate ReaderOk(s: State, q: Reader) {
    && q.k < |s.splits| && q.seed <= s.splits[q.k].applied
    && Tracks(q.processed, q.seed, q.applied, s.table)
    && forall t :: t in q.processed ==> NewTombstone(t.id, t.before) in s.landed
  }

  ghost predicate SystemInv(y: System) {
    && Inv(y.s) && ListOk(y.s, y.cached) && (y.loading.Some? ==> ListOk(y.s, y.loading.value))
    && forall r :: r in y.readers ==> ReaderOk(y.s, y.readers[r])
  }

  lemma StartInv()
    ensures SystemInv(START)
  {
    InitialInv();
  }

  /** What readers rely on in a step of the others. */
  lemma StepIsGentle(s: State, st: Step)
    requires Enabled(s, st)
    ensures var s' := Apply(s, st);
            && (s'.table == s.table || Changed(s.table, s'.table))
            && s.landed <= s'.landed && |s.splits| <= |s'.splits|
            && forall k :: 0 <= k < |s.splits| ==>
                 s'.splits[k].docs == s.splits[k].docs && s.splits[k].applied <= s'.splits[k].applied
  {
    match st
    case Upsert(items, after) => assert SomeUpsert(s.table, after);
    case Purge(ids) => assert Purged(s.table, Apply(s, st).table);
    case _ =>
  }

  lemma ListKept(s: State, s': State, list: seq<Tombstone>)
    requires Valid(s.table) && ListOk(s, list) && s.landed <= s'.landed
    requires s'.table == s.table || Changed(s.table, s'.table)
    ensures ListOk(s', list)
  {
    if s'.table != s.table {
      CoversKept(list, s.table, s'.table);
    }
  }

  lemma SharedKeepsInv(y: System, st: Step)
    requires SystemInv(y) && Enabled(y.s, st)
    ensures SystemInv(Moved(y, Shared(st)))
  {
    var s, s' := y.s, Apply(y.s, st);
    StepKeepsInv(s, st);
    StepIsGentle(s, st);
    ListKept(s, s', y.cached);
    if y.loading.Some? {
      ListKept(s, s', y.loading.value);
    }
    forall r | r in y.readers
      ensures ReaderOk(s', y.readers[r])
    {
      if s'.table != s.table {
        TracksKept(y.readers[r].processed, y.readers[r].seed, y.readers[r].applied, s.table, s'.table);
      }
    }
  }

  lemma LoadPageKeepsInv(y: System, limit: nat, page: seq<Tombstone>)
    requires SystemInv(y) && CanMove(y, LoadPage(limit, page))
    ensures SystemInv(Moved(y, LoadPage(limit, page)))
    ensures |page| < limit ==> FullyRead(Moved(y, LoadPage(limit, page)).cached, y.s.table)
  {
    var list := y.loading.value;
    if page == [] {
      assert list + page == list;
      EmptyPageMeansDone(list, y.s.table, limit, page);
    } else {
      PageExtends(list, y.s.table, limit, page);
      forall i | 0 <= i < |list + page|
        ensures NewTombstone((list + page)[i].id, (list + page)[i].before) in y.s.landed
      {
        if |list| <= i {
          assert RowAfter(y.s.table, LastOrd(list), page[i - |list|].id);
        }
      }
    }
  }

  lemma ApplyListKeepsInv(y: System, r: nat)
    requires SystemInv(y) && r in y.readers
    ensures SystemInv(Moved(y, ApplyList(r)))
  {
    var q := y.readers[r];
    ApplyTracks(q.processed, q.seed, q.applied, y.s.table, y.cached);
    forall t | t in Pending(y.cached, q.applied)
      ensures NewTombstone(t.id, t.before) in y.s.landed
    {
      var i :| 0 <= i < |y.cached| && y.cached[i] == t;
    }
  }

  lemma MoveKeepsInv(y: System, m: Move)
    requires SystemInv(y) && CanMove(y, m)
    ensures SystemInv(Moved(y, m))
  {
    match m
    case Shared(st) => SharedKeepsInv(y, st);
    case BeginLoad(_) =>
    case LoadPage(limit, page) => LoadPageKeepsInv(y, limit, page);
    case FailLoad =>
    case Open(_, k, _) => assert y.s.splits[k].applied < y.s.table.next;
    case ApplyList(r) => ApplyListKeepsInv(y, r);
  }

  // ---- runs ----

  ghost predicate Follows(ys: seq<System>, ms: seq<Move>, i: nat) {
    i < |ms| && i + 1 < |ys| && CanMove(ys[i], ms[i]) && ys[i + 1] == Moved(ys[i], ms[i])
  }

  ghost predicate SystemRun(ys: seq<System>, ms: seq<Move>) {
    |ys| == |ms| + 1 && ys[0] == START && forall i :: 0 <= i < |ms| ==> Follows(ys, ms, i)
  }

  lemma {:induction false} SystemRunKeepsInv(ys: seq<System>, ms: seq<Move>, i: nat)
    requires SystemRun(ys, ms) && i < |ys|
    ensures SystemInv(ys[i])
  {
    if i == 0 {
      StartInv();
    } else {
      SystemRunKeepsInv(ys, ms, i - 1);
      assert Follows(ys, ms, i - 1);
      MoveKeepsInv(ys[i - 1], ms[i - 1]);
    }
  }

  // ---- what loading and applying achieve ----

  /** A load that has read a short page is finished, and holds every row there is; one
      that has read a full page goes on. */
  lemma LoadFinishes(y: System, limit: nat, page: seq<Tombstone>)
    requires SystemInv(y) && CanMove(y, LoadPage(limit, page))
    ensures var y' := Moved(y, LoadPage(limit, page));
            && (y'.loading.None? <==> |page| < limit)
            && (y'.loading.None? ==> FullyRead(y'.cached, y'.s.table))
            && (y'.loading.Some? ==> y'.cached == y.cached && y'.loading.value == y.loading.value + page)
  {
    LoadPageKeepsInv(y, limit, page);
    var y' := Moved(y, LoadPage(limit, page));
    if |page| < limit {
      forall id | id in y.s.table.rows
        ensures Entry(y.s.table, id) in y.loading.value + page
      {
        if !RowAfter(y.s.table, LastOrd(y.loading.value), id) {
          assert Entry(y.s.table, id) in y.loading.value;
        }
      }
    }
  }

  /** A reader that applies a finished list is up to date, whatever it had applied. */
  lemma ApplyingCatchesUp(y: System, r: nat)
    requires SystemInv(y) && r in y.readers && FullyRead(y.cached, y.s.table)
    ensures var y' := Moved(y, ApplyList(r)); UpToDate(y', y'.readers[r])
  {
    var q, q' := y.readers[r], Folded(y.readers[r], y.cached);
    forall t | t in y.cached
      ensures t.ord <= q'.applied
    {
      LastIsGreatest(y.cached, t);
      assert t in Pending(y.cached, q.applied) || t.ord <= q.applied;
    }
  }

  lemma LastIsGreatest(list: seq<Tombstone>, t: Tombstone)
    requires Ascending(list) && t in list
    ensures t.ord <= LastOrd(list)
  {
    var i :| 0 <= i < |list| && list[i] == t;
    assert i < |list| - 1 ==> list[i].ord < list[|list| - 1].ord;
  }

  /** A short page from the start holds exactly the table's rows. */
  lemma PageIsTable(t: Table, limit: nat, page: seq<Tombstone>)
    requires Valid(t) && IsPage(t, 0, limit, page) && |page| < limit
    ensures forall e :: e in page <==> e.id in t.rows && e == Entry(t, e.id)
  {
    forall id | id in t.rows
      ensures Entry(t, id) in page
    {
      assert RowAfter(t, 0, id);
    }
  }

  /** Loading the rest of the table in one page, onto the cached list or from scratch, and
      applying the result brings any reader up to date; loaded from scratch the list is
      the table, rows purged since forgotten. */
  lemma RefreshCatchesUp(y: System, rebuild: bool, limit: nat, page: seq<Tombstone>, r: nat)
    requires SystemInv(y) && y.loading.None? && r in y.readers && |page| < limit
    requires IsPage(y.s.table, if rebuild then 0 else LastOrd(y.cached), limit, page)
    ensures CanMove(y, BeginLoad(rebuild)) && CanMove(Moved(y, BeginLoad(rebuild)), LoadPage(limit, page))
    ensures var loaded := Moved(Moved(y, BeginLoad(rebuild)), LoadPage(limit, page));
            && loaded.cached == (if rebuild then page else y.cached + page)
            && loaded.s == y.s && loaded.loading.None? && loaded.readers == y.readers
            && (rebuild ==> forall t :: t in loaded.cached <==> t.id in y.s.table.rows && t == Entry(y.s.table, t.id))
            && var done := Moved(loaded, ApplyList(r)); UpToDate(done, done.readers[r])
  {
    var begun := Moved(y, BeginLoad(rebuild));
    assert LastOrd(begun.loading.value) == if rebuild then 0 else LastOrd(y.cached);
    MoveKeepsInv(y, BeginLoad(rebuild));
    MoveKeepsInv(begun, LoadPage(limit, page));
    LoadFinishes(begun, limit, page);
    ApplyingCatchesUp(Moved(begun, LoadPage(limit, page)), r);
    assert [] + page == page;
    if rebuild {
      PageIsTable(y.s.table, limit, page);
    }
  }

  /** A load that fails leaves the cached list as it was, and another can begin. */
  lemma FailedLoadForgotten(y: System, rebuild: bool)
    requires y.loading.Some?
    ensures CanMove(y, FailLoad) && CanMove(Moved(y, FailLoad), BeginLoad(rebuild))
    ensures Moved(y, FailLoad) == y.(loading := None)
  {
  }

  /** A reader may be opened at any applied ordinal its split has had, the present one
      included. */
  lemma OpensAtPresent(y: System, r: nat, k: nat)
    requires r !in y.readers && k < |y.s.splits|
    ensures CanMove(y, Open(r, k, y.s.splits[k].applied))
    ensures var q := Moved(y, Open(r, k, y.s.splits[k].applied)).readers[r];
            q.k == k && q.seed == q.applied == y.s.splits[k].applied && forall v :: !Excludes(q, v)
  {
  }

  // ---- what a search on the node excludes ----

  ghost predicate Excludes(q: Reader, v: Version) {
    exists t :: t in q.processed && Hides(t, v)
  }

  /** The node's list has been applied to the reader and nothing has landed since it was loaded. */
  ghost predicate UpToDate(y: System, q: Reader) {
    FullyRead(y.cached, y.s.table) && Pending(y.cached, q.applied) == {}
  }

  lemma EveryRowProcessed(y: System, q: Reader, id: string)
    requires ReaderOk(y.s, q) && UpToDate(y, q) && id in y.s.table.rows && q.seed < y.s.table.rows[id].ord
    ensures Entry(y.s.table, id) in q.processed
  {
    assert Entry(y.s.table, id) in y.cached && Entry(y.s.table, id) !in Pending(y.cached, q.applied);
  }

  /** In every reachable state, whatever was loaded, reloaded or applied when: a
      reader never excludes a document the table does not hide, and an up to date
      one excludes exactly what the table hides. */
  lemma ReaderAgrees(ys: seq<System>, ms: seq<Move>, i: nat, r: nat, v: Version)
    requires SystemRun(ys, ms) && i < |ys| && r in ys[i].readers
    requires var y, q := ys[i], ys[i].readers[r];
             q.k < |y.s.splits| && Live(y.s.splits[q.k]) && v in y.s.splits[q.k].docs
    ensures Excludes(ys[i].readers[r], v) ==> TableHides(ys[i].s.table, v)
    ensures UpToDate(ys[i], ys[i].readers[r]) ==> (Excludes(ys[i].readers[r], v) <==> TableHides(ys[i].s.table, v))
  {
    var y, q := ys[i], ys[i].readers[r];
    SystemRunKeepsInv(ys, ms, i);
    if t :| t in q.processed && Hides(t, v) {
      assert InLive(y.s, v);
      BelowLandedIsHidden(y.s, NewTombstone(t.id, t.before), v);
    }
    if UpToDate(y, q) {
      forall id | id in y.s.table.rows && q.seed < y.s.table.rows[id].ord
        ensures Entry(y.s.table, id) in q.processed
      {
        EveryRowProcessed(y, q, id);
      }
      ExclusionViewAgrees(y.s, q.k, q.seed, q.processed, v);
    }
  }

  // ---- and hence its exclusion set ----

  /** A document of a segment as a version of the split. */
  ghost function VersionOf(d: Doc): Version
    requires d.stamp.Some?
  {
    Version(d.id, d.stamp.value)
  }

  /** The set a split reader holds for one segment, exact for what was processed
      (which `SplitReader` keeps), is what the table hides: document by document. */
  lemma ExclusionSetAgrees(ys: seq<System>, ms: seq<Move>, i: nat, r: nat, seg: Segment, list: seq<nat>, d: nat)
    requires SystemRun(ys, ms) && i < |ys| && r in ys[i].readers && d < |seg| && seg[d].stamp.Some?
    requires var y, q := ys[i], ys[i].readers[r];
             && q.k < |y.s.splits| && Live(y.s.splits[q.k]) && VersionOf(seg[d]) in y.s.splits[q.k].docs
             && Exact(list, seg, q.processed)
    ensures d in list ==> TableHides(ys[i].s.table, VersionOf(seg[d]))
    ensures UpToDate(ys[i], ys[i].readers[r]) ==> (d in list <==> TableHides(ys[i].s.table, VersionOf(seg[d])))
  {
    var q, v := ys[i].readers[r], VersionOf(seg[d]);
    assert forall t :: HidesDoc(t, seg[d]) <==> Hides(t, v);
    assert d in list <==> Excludes(q, v);
    ReaderAgrees(ys, ms, i, r, v);
  }

  // ---- a search node watching ----

  /** The first six steps of a document's life, two writes and the newer one's tombstone;
      then a node opens the split, loads its list and applies it. */
  ghost const WATCHED: seq<Move> :=
    [Shared(LIFE[0]), Shared(LIFE[1]), Shared(LIFE[2]), Shared(LIFE[3]), Shared(LIFE[4]), Shared(LIFE[5]),
     Open(0, 0, 0), BeginLoad(false), LoadPage(10, [Tombstone(1, "a", 2)]), ApplyList(0)]

  ghost function Watching(i: nat, cached: seq<Tombstone>, loading: Option<seq<Tombstone>>,
                          readers: map<nat, Reader>): System
    requires i < |LIFE_STATES|
  {
    System(LIFE_STATES[i], cached, loading, readers)
  }

  ghost const WATCHED_STATES: seq<System> :=
    var list, unread := [Tombstone(1, "a", 2)], map[0 := Reader(0, 0, 0, {})];
    [Watching(0, [], None, map[]), Watching(1, [], None, map[]), Watching(2, [], None, map[]),
     Watching(3, [], None, map[]), Watching(4, [], None, map[]), Watching(5, [], None, map[]),
     Watching(6, [], None, map[]), Watching(6, [], None, unread), Watching(6, [], Some([]), unread),
     Watching(6, list, None, unread), Watching(6, list, None, map[0 := Reader(0, 0, 1, {Tombstone(1, "a", 2)})])]

  lemma WatchedShared(i: nat)
    requires i < 6
    ensures Follows(WATCHED_STATES, WATCHED, i)
  {
    LifeGoesOn(i);
  }

  lemma WatchedOpens()
    ensures Follows(WATCHED_STATES, WATCHED, 6) && Follows(WATCHED_STATES, WATCHED, 7)
  {
  }

  /** The one page of a table with one row. */
  lemma OneRowPage(t: Table, id: string, limit: nat)
    requires t.rows.Keys == {id} && 0 < t.rows[id].ord && 1 < limit
    ensures IsPage(t, 0, limit, [Entry(t, id)])
  {
    assert [Entry(t, id)][0] == Entry(t, id);
  }

  /** Read onto an empty list, it ends the load. */
  lemma OneRowLoads(y: System, id: string, limit: nat)
    requires y.s.table.rows.Keys == {id} && 0 < y.s.table.rows[id].ord && 1 < limit && y.loading == Some([])
    ensures var page := [Entry(y.s.table, id)];
            && CanMove(y, LoadPage(limit, page))
            && Moved(y, LoadPage(limit, page)) == y.(cached := page, loading := None)
  {
    OneRowPage(y.s.table, id, limit);
    assert [] + [Entry(y.s.table, id)] == [Entry(y.s.table, id)];
  }

  lemma WatchedLoads()
    ensures Follows(WATCHED_STATES, WATCHED, 8)
  {
    assert LIFE_STATES[6].table.rows.Keys == {"a"};
    OneRowLoads(WATCHED_STATES[8], "a", 10);
  }

  lemma WatchedApplies()
    ensures Follows(WATCHED_STATES, WATCHED, 9)
  {
    var list := [Tombstone(1, "a", 2)];
    assert list[0] in list && Pending(list, 0) == {Tombstone(1, "a", 2)};
    assert Folded(Reader(0, 0, 0, {}), list) == Reader(0, 0, 1, {Tombstone(1, "a", 2)});
  }

  /** The node then excludes the replaced version and not the newer one. */
  lemma WatchedExcludes()
    ensures SystemRun(WATCHED_STATES, WATCHED)
    ensures var q := WATCHED_STATES[10].readers[0]; Excludes(q, OLDER) && !Excludes(q, NEWER)
  {
    forall i | 0 <= i < 10
      ensures Follows(WATCHED_STATES, WATCHED, i)
    {
      if i < 6 {
        WatchedShared(i);
      } else if i < 8 {
        WatchedOpens();
      } else if i < 9 {
        WatchedLoads();
      } else {
        WatchedApplies();
      }
    }
    assert Hides(Tombstone(1, "a", 2), OLDER);
  }
}
