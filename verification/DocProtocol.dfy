/** The document-mode versioning protocol as a step system.
Writers make a version WAL-durable, upsert a tombstone for it, build and
publish splits and confirm their log; the control leader rewrites splits
without the versions tombstones hide, records how far a split has applied
them, and purges tombstones no split needs. The state keeps, beside the
shared rows, a history of what happened: which versions were accepted, which
bounds ever landed in the table, which were purged, which versions were ever
served by a published split, and which were dropped by retention. */
module DocProtocol {
  import opened Prelude
  import opened TombstoneTable
  import opened TombstoneCache
  import opened Metastore

  /** One rewrite by the control leader, between reading its source rows and
      its outcome. `seeds[i]` is the applied ordinal of source `i` as read;
      `list` is the tombstone list paged so far. */
  datatype Job = Job(sources: seq<nat>, seeds: seq<nat>, list: seq<Tombstone>, done: bool, output: Option<nat>)

  datatype State = State(
    table: Table,
    splits: seq<Split>,
    /** The rewrites under way, by an arbitrary name. */
    jobs: map<nat, Job>,
    /** WAL-durable versions not yet confirmed: buffered, or awaiting replay. */
    pending: set<Version>,
    accepted: set<Version>,
    landed: set<NewTombstone>,
    purged: set<NewTombstone>,
    served: set<Version>,
    dropped: set<Version>)

  datatype Step =
    | Accept(v: Version)
    | Upsert(items: seq<NewTombstone>, after: Table)
    | Stage(batch: seq<Version>)
    | Publish(k: nat)
    | Confirm(vs: set<Version>)
    | StartJob(n: nat, sources: seq<nat>)
    | ReadPage(n: nat, limit: nat, page: seq<Tombstone>)
    | StageRebuilt(n: nat)
    | Swap(n: nat)
    | DropSources(n: nat)
    | MarkApplied(n: nat)
    | AbortJob(n: nat)
    | Purge(ids: set<string>)
    | Retain(k: nat)

  ghost const INITIAL: State := State(Table(map[], 1), [], map[], {}, {}, {}, {}, {}, {})

  ghost predicate Below(b: NewTombstone, v: Version) {
    b.id == v.id && v.stamp < b.before
  }

  ghost predicate InLive(s: State, v: Version) {
    exists k :: 0 <= k < |s.splits| && Live(s.splits[k]) && v in s.splits[k].docs
  }

  ghost predicate InPublished(s: State, v: Version) {
    exists k :: 0 <= k < |s.splits| && s.splits[k].state == Published && v in s.splits[k].docs
  }

  /** The version may still reach, or be in, a split a search can see. */
  ghost predicate InFlight(s: State, v: Version) {
    v in s.pending || InLive(s, v)
  }

  // ---- what a rewrite keeps ----

  /** Some listed tombstone newer than the source's seed hides the version. */
  ghost predicate Dropped(list: seq<Tombstone>, seed: nat, v: Version) {
    exists i :: 0 <= i < |list| && seed < list[i].ord && Hides(list[i], v)
  }

  ghost function Keep(docs: seq<Version>, seed: nat, list: seq<Tombstone>): seq<Version> {
    if docs == [] then []
    else
      Keep(docs[..|docs| - 1], seed, list) +
      (if Dropped(list, seed, docs[|docs| - 1]) then [] else [docs[|docs| - 1]])
  }

  /** The documents of the replacement split: every source in turn, hidden versions skipped. */
  ghost function Rebuilt(splits: seq<Split>, sources: seq<nat>, seeds: seq<nat>, list: seq<Tombstone>): seq<Version>
    requires |seeds| == |sources|
    requires forall i :: 0 <= i < |sources| ==> sources[i] < |splits|
  {
    if sources == [] then []
    else
      var n := |sources| - 1;
      Rebuilt(splits, sources[..n], seeds[..n], list) + Keep(splits[sources[n]].docs, seeds[n], list)
  }

  ghost predicate Distinct(xs: seq<nat>) {
    forall i, j :: 0 <= i < j < |xs| ==> xs[i] != xs[j]
  }

  ghost predicate SourcesOk(splits: seq<Split>, sources: seq<nat>) {
    Distinct(sources) &&
    forall i :: 0 <= i < |sources| ==> sources[i] < |splits| && splits[sources[i]].state == Published
  }

  ghost predicate JobShape(s: State, j: Job) {
    |j.seeds| == |j.sources| && SourcesOk(s.splits, j.sources)
  }

  ghost predicate Touches(j: Job, k: nat) {
    k in j.sources || j.output == Some(k)
  }

  ghost predicate Touched(s: State, k: nat) {
    exists n :: n in s.jobs && Touches(s.jobs[n], k)
  }

  /** The job has its whole list and has not written its output. */
  ghost predicate ReadyJob(s: State, n: nat) {
    n in s.jobs && JobShape(s, s.jobs[n]) && s.jobs[n].done && s.jobs[n].output.None?
  }

  // ---- steps ----

  /** A write arriving now is not stamped below a bound that was already purged. */
  ghost predicate AcceptInGrace(s: State, v: Version) {
    forall p :: p in s.purged ==> !Below(p, v)
  }

  /** No unconfirmed write is hidden by a row about to be purged. */
  ghost predicate PurgeInGrace(s: State, ids: set<string>) {
    forall v :: v in s.pending && v.id in ids ==> !TableHides(s.table, v)
  }

  ghost predicate Enabled(s: State, st: Step) {
    match st
    case Accept(v) => AcceptInGrace(s, v)
    case Upsert(items, after) => Upserted(s.table, after, items)
    case Stage(batch) => forall v :: v in batch ==> v in s.pending
    case Publish(k) => Publishable(s.splits, k) && !Touched(s, k)
    case Confirm(vs) => vs <= s.served
    case StartJob(n, sources) =>
      n !in s.jobs && SourcesOk(s.splits, sources) && forall i :: 0 <= i < |sources| ==> !Touched(s, sources[i])
    case ReadPage(n, limit, page) =>
      n in s.jobs && !s.jobs[n].done && 0 < limit && IsPage(s.table, LastOrd(s.jobs[n].list), limit, page)
    case StageRebuilt(n) => ReadyJob(s, n) && Output(s, n) != []
    case Swap(n) =>
      n in s.jobs && JobShape(s, s.jobs[n]) && s.jobs[n].output.Some? && Publishable(s.splits, s.jobs[n].output.value)
    case DropSources(n) => ReadyJob(s, n) && Output(s, n) == []
    case MarkApplied(n) =>
      ReadyJob(s, n) && |s.jobs[n].sources| == 1 && Output(s, n) == s.splits[s.jobs[n].sources[0]].docs
    case AbortJob(n) => n in s.jobs
    case Purge(ids) =>
      ids <= s.table.rows.Keys && (forall id :: id in ids ==> BelowFloor(s.table, s.splits, id)) && PurgeInGrace(s, ids)
    case Retain(k) => k < |s.splits| && !Touched(s, k)
  }

  /** The documents job `n` rewrites its sources to. */
  ghost function Output(s: State, n: nat): seq<Version>
    requires n in s.jobs && JobShape(s, s.jobs[n])
  {
    Rebuilt(s.splits, s.jobs[n].sources, s.jobs[n].seeds, s.jobs[n].list)
  }

  ghost function Elements<T(!new)>(xs: seq<T>): set<T> {
    set x | x in xs
  }

  ghost function BoundsOf(t: Table, ids: set<string>): set<NewTombstone> {
    set id | id in ids && id in t.rows :: NewTombstone(id, t.rows[id].before)
  }

  ghost function Seeds(splits: seq<Split>, sources: seq<nat>): seq<nat>
    requires forall i :: 0 <= i < |sources| ==> sources[i] < |splits|
  {
    seq(|sources|, i requires 0 <= i < |sources| => splits[sources[i]].applied)
  }

  /** What a purge does, in its grace period or not. */
  ghost function AfterPurge(s: State, ids: set<string>): State {
    s.(table := DropRows(s.table, ids), purged := s.purged + BoundsOf(s.table, ids))
  }

  ghost function Apply(s: State, st: Step): State
    requires Enabled(s, st)
  {
    match st
    case Accept(v) => s.(pending := s.pending + {v}, accepted := s.accepted + {v})
    case Upsert(items, after) => s.(table := after, landed := s.landed + Elements(items))
    case Stage(batch) => s.(splits := s.splits + [Split(batch, 0, Staged)])
    case Publish(k) =>
      s.(splits := PublishRow(s.splits, k), served := s.served + Elements(s.splits[k].docs))
    case Confirm(vs) => s.(pending := s.pending - vs)
    case StartJob(n, sources) => s.(jobs := s.jobs[n := Job(sources, Seeds(s.splits, sources), [], false, None)])
    case ReadPage(n, limit, page) =>
      s.(jobs := s.jobs[n := s.jobs[n].(list := s.jobs[n].list + page, done := |page| < limit)])
    case StageRebuilt(n) =>
      s.(splits := s.splits + [Split(Output(s, n), LastOrd(s.jobs[n].list), Staged)],
         jobs := s.jobs[n := s.jobs[n].(output := Some(|s.splits|))])
    case Swap(n) =>
      s.(splits := SwapRows(s.splits, s.jobs[n].sources, s.jobs[n].output.value), jobs := s.jobs - {n})
    case DropSources(n) => s.(splits := MarkRows(s.splits, s.jobs[n].sources), jobs := s.jobs - {n})
    case MarkApplied(n) =>
      s.(splits := RaiseApplied(s.splits, s.jobs[n].sources[0], LastOrd(s.jobs[n].list)), jobs := s.jobs - {n})
    case AbortJob(n) => s.(jobs := s.jobs - {n})
    case Purge(ids) => AfterPurge(s, ids)
    case Retain(k) => s.(splits := MarkRows(s.splits, [k]), dropped := s.dropped + Elements(s.splits[k].docs))
  }

  // ---- what every step keeps ----

  ghost predicate TableInv(s: State) {
    Valid(s.table) && forall id :: id in s.table.rows ==> NewTombstone(id, s.table.rows[id].before) in s.landed
  }

  ghost predicate InTable(t: Table, b: NewTombstone) {
    b.id in t.rows && b.before <= t.rows[b.id].before
  }

  ghost predicate InPurged(purged: set<NewTombstone>, b: NewTombstone) {
    exists p :: p in purged && p.id == b.id && b.before <= p.before
  }

  /** A bound that ever landed is still in the table, or a bound at least as great was purged. */
  ghost predicate LandedInv(s: State) {
    forall b :: b in s.landed ==> InTable(s.table, b) || InPurged(s.purged, b)
  }

  /** Whatever a purged bound would hide is hidden by the table anyway. */
  ghost predicate PurgedInv(s: State) {
    forall p, v :: p in s.purged && InFlight(s, v) && Below(p, v) ==> TableHides(s.table, v)
  }

  /** A split holds no version hidden by a present tombstone it claims to have applied. */
  ghost predicate Clean(t: Table, sp: Split) {
    forall v :: v in sp.docs && v.id in t.rows && t.rows[v.id].ord <= sp.applied ==> t.rows[v.id].before <= v.stamp
  }

  ghost predicate AppliedInv(s: State) {
    forall k :: 0 <= k < |s.splits| ==> s.splits[k].applied < s.table.next && Clean(s.table, s.splits[k])
  }

  ghost predicate AcceptedInv(s: State) {
    s.pending <= s.accepted &&
    forall k, v :: 0 <= k < |s.splits| && v in s.splits[k].docs ==> v in s.accepted
  }

  ghost predicate Superseded(landed: set<NewTombstone>, v: Version) {
    exists b :: b in landed && Below(b, v)
  }

  /** A version once served stays served, unless something newer superseded it
      or retention dropped it: no rewrite loses a document. */
  ghost predicate ServedInv(s: State) {
    forall v :: v in s.served ==> InPublished(s, v) || v in s.dropped || Superseded(s.landed, v)
  }

  /** Whatever the rewrite leaves out is hidden by the table as it is now. */
  ghost predicate DropsHidden(t: Table, docs: seq<Version>, seed: nat, list: seq<Tombstone>) {
    forall v :: v in docs && Dropped(list, seed, v) ==> TableHides(t, v)
  }

  ghost predicate ListLanded(landed: set<NewTombstone>, list: seq<Tombstone>) {
    forall i :: 0 <= i < |list| ==> NewTombstone(list[i].id, list[i].before) in landed
  }

  ghost predicate SourceOk(s: State, j: Job, i: nat)
    requires i < |j.sources| && JobShape(s, j)
  {
    && j.seeds[i] <= s.splits[j.sources[i]].applied
    && DropsHidden(s.table, s.splits[j.sources[i]].docs, j.seeds[i], j.list)
  }

  ghost predicate OutputOk(s: State, j: Job)
    requires JobShape(s, j)
  {
    j.output.Some? ==>
      && j.output.value < |s.splits| && j.output.value !in j.sources
      && s.splits[j.output.value] == Split(Rebuilt(s.splits, j.sources, j.seeds, j.list), LastOrd(j.list), Staged)
  }

  ghost predicate JobOk(s: State, j: Job) {
    && JobShape(s, j)
    && ListLanded(s.landed, j.list)
    && Covers(j.list, s.table)
    && (forall i :: 0 <= i < |j.sources| ==> SourceOk(s, j, i))
    && (j.output.Some? ==> j.done)
    && OutputOk(s, j)
  }

  /** No split is read or written by both jobs. */
  ghost predicate Apart(a: Job, b: Job) {
    forall k :: Touches(a, k) ==> !Touches(b, k)
  }

  ghost predicate JobInv(s: State) {
    && (forall n :: n in s.jobs ==> JobOk(s, s.jobs[n]))
    && (forall n, m :: n in s.jobs && m in s.jobs && n != m ==> Apart(s.jobs[n], s.jobs[m]))
  }

  ghost predicate Inv(s: State) {
    && TableInv(s) && LandedInv(s) && PurgedInv(s) && AppliedInv(s)
    && AcceptedInv(s) && ServedInv(s) && JobInv(s)
  }

  lemma InitialInv()
    ensures Inv(INITIAL)
  {
  }

}
