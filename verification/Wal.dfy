/** Segment lifecycle of the write-ahead log: append, rotate, confirm, unlink,
crash and replay. Positions name only a segment; records are told apart here by
an identity the code does not store, their segment and their index in it. */
module Wal {
  import opened Prelude
  import opened Bytes
  import opened Framing
  import opened WalCodec

  datatype SegmentState = SegmentState(outstanding: nat, closed: bool)

  datatype Position = Position(segment: nat)

  /** Identity of a record: segment and index within it. */
  type RecordId = (nat, nat)

  // ---- the bookkeeping ----

  /** One confirmed position: decrement, saturating; an untracked segment is ignored. */
  function ConfirmOne(segments: map<nat, SegmentState>, pos: Position): map<nat, SegmentState> {
    if pos.segment !in segments then segments
    else
      var s := segments[pos.segment];
      segments[pos.segment := s.(outstanding := if s.outstanding == 0 then 0 else s.outstanding - 1)]
  }

  function ConfirmAll(segments: map<nat, SegmentState>, positions: seq<Position>): map<nat, SegmentState> {
    if positions == [] then segments
    else ConfirmOne(ConfirmAll(segments, positions[..|positions| - 1]), positions[|positions| - 1])
  }

  lemma {:induction false} ConfirmedKeys(segments: map<nat, SegmentState>, positions: seq<Position>)
    ensures ConfirmAll(segments, positions).Keys == segments.Keys
  {
    if positions != [] {
      ConfirmedKeys(segments, positions[..|positions| - 1]);
    }
  }

  /** Fully confirmed sealed segments. */
  function Victims(segments: map<nat, SegmentState>): set<nat> {
    set s | s in segments && segments[s].closed && segments[s].outstanding == 0
  }

  // ---- the whole log, with its history ----

  /** `len`: bytes written to the current segment.
      `log`: every record ever written, by segment, unlinked segments included.
      `disk`: the segment files that exist. `durable`: how many records of each
      segment are on durable storage. `confirmed`: the records confirmed so far. */
  datatype Log = Log(
    current: nat,
    len: nat,
    segments: map<nat, SegmentState>,
    log: map<nat, seq<Record>>,
    disk: set<nat>,
    durable: map<nat, nat>,
    confirmed: set<RecordId>)

  function SegmentBytes(rs: seq<Record>): nat {
    if rs == [] then 0 else SegmentBytes(rs[..|rs| - 1]) + 8 + PayloadLen(rs[|rs| - 1])
  }

  /** The counted length is the length of the segment file. */
  lemma {:induction false} SegmentBytesExact(crc: Crc, rs: seq<Record>)
    requires forall r :: r in rs ==> WithinLimits(r)
    ensures SegmentBytes(rs) == |EncodeAll(crc, rs)|
  {
    if rs != [] {
      var init, last := rs[..|rs| - 1], rs[|rs| - 1];
      SegmentBytesExact(crc, init);
      assert Frames(crc, rs) == Frames(crc, init) + [Frame(crc, last)];
      ConcatLast(Frames(crc, init), Frame(crc, last));
    }
  }

  /** The identities of the first `n` records of a segment. */
  ghost function Ids(segment: nat, n: nat): (ids: set<RecordId>)
    ensures forall id :: id in ids <==> id.0 == segment && id.1 < n
    ensures |ids| == n
  {
    if n == 0 then {} else Ids(segment, n - 1) + {(segment, n - 1)}
  }

  ghost function IdSet(ids: seq<RecordId>): set<RecordId> {
    set id | id in ids
  }

  ghost function InSegment(ids: set<RecordId>, segment: nat): set<RecordId> {
    set id | id in ids && id.0 == segment
  }

  ghost predicate TrackedOk(l: Log, s: nat)
    requires s in l.segments && s in l.log
  {
    && (l.segments[s].closed <==> s != l.current)
    && l.segments[s].outstanding + |InSegment(l.confirmed, s)| == |l.log[s]|
  }

  /** The current segment is tracked and unsealed, every other tracked one is
      sealed; outstanding counts are exact; a segment leaves tracking, and its
      file the disk, only once every one of its records is confirmed. */
  ghost predicate Inv(l: Log) {
    && l.current in l.segments
    && l.segments.Keys <= l.disk <= l.log.Keys
    && l.log.Keys == l.durable.Keys
    && l.len == SegmentBytes(l.log[l.current])
    && (forall s :: s in l.log ==> s <= l.current && l.durable[s] <= |l.log[s]|)
    && (forall id :: id in l.confirmed ==> id.0 in l.log && id.1 < |l.log[id.0]|)
    && (forall s :: s in l.segments ==> TrackedOk(l, s))
    && (forall s :: s in l.log && s !in l.segments ==> Ids(s, |l.log[s]|) <= l.confirmed)
  }

  function Append(l: Log, r: Record): Log
    requires l.current in l.segments && l.current in l.log
  {
    var c := l.current;
    l.(len := l.len + 8 + PayloadLen(r),
       segments := l.segments[c := l.segments[c].(outstanding := l.segments[c].outstanding + 1)],
       log := l.log[c := l.log[c] + [r]])
  }

  /** Seal the current segment and open the next one. */
  function Seal(l: Log): Log
    requires l.current in l.segments
  {
    var c := l.current;
    l.(current := c + 1, len := 0,
       segments := l.segments[c := l.segments[c].(closed := true)][c + 1 := SegmentState(0, false)],
       log := l.log[c + 1 := []], disk := l.disk + {c + 1}, durable := l.durable[c + 1 := 0])
  }

  function Collect(l: Log): Log {
    l.(segments := l.segments - Victims(l.segments))
  }

  function Unlink(l: Log, gone: set<nat>): Log {
    l.(disk := l.disk - gone)
  }

  function Sync(l: Log, s: nat): Log
    requires s in l.log
  {
    l.(durable := l.durable[s := |l.log[s]|])
  }

  function Confirm(l: Log, id: RecordId): Log {
    l.(segments := ConfirmOne(l.segments, Position(id.0)), confirmed := l.confirmed + {id})
  }

  lemma SubsetSameSize<T>(a: set<T>, b: set<T>)
    requires a <= b && |a| == |b|
    ensures a == b
  {
    assert b == a + (b - a);
  }

  lemma SubsetSmaller<T>(a: set<T>, b: set<T>)
    requires a <= b
    ensures |a| <= |b|
  {
    assert b == a + (b - a);
  }

  lemma ConfirmedWithin(l: Log, s: nat)
    requires Inv(l) && s in l.log
    ensures InSegment(l.confirmed, s) <= Ids(s, |l.log[s]|)
    ensures |InSegment(l.confirmed, s)| <= |l.log[s]|
  {
    SubsetSmaller(InSegment(l.confirmed, s), Ids(s, |l.log[s]|));
  }

  lemma AppendKeepsInv(l: Log, r: Record)
    requires Inv(l)
    ensures Inv(Append(l, r))
  {
    var l' := Append(l, r);
    assert l'.log[l.current][..|l.log[l.current]|] == l.log[l.current];
    forall s | s in l'.segments
      ensures TrackedOk(l', s)
    {
      assert TrackedOk(l, s);
    }
  }

  lemma SealKeepsInv(l: Log)
    requires Inv(l)
    ensures Inv(Seal(l))
  {
    var l' := Seal(l);
    forall s | s in l'.segments
      ensures TrackedOk(l', s)
    {
      if s == l'.current {
        assert InSegment(l'.confirmed, s) == {};
      } else {
        assert TrackedOk(l, s);
      }
    }
  }

  /** Nothing is outstanding in a tracked segment exactly when every record of it is
      confirmed. */
  lemma ExhaustedIff(l: Log, s: nat)
    requires Inv(l) && s in l.segments
    ensures l.segments[s].outstanding == 0 <==> Ids(s, |l.log[s]|) <= l.confirmed
  {
    var here, all := InSegment(l.confirmed, s), Ids(s, |l.log[s]|);
    assert TrackedOk(l, s);
    ConfirmedWithin(l, s);
    assert all <= l.confirmed <==> here == all;
    if |here| == |all| {
      SubsetSameSize(here, all);
    }
  }

  ghost predicate AllConfirmed(l: Log, s: nat) {
    s in l.log && Ids(s, |l.log[s]|) <= l.confirmed
  }

  /** What a collection drops: the tracked segments every record of which is confirmed,
      but for the current one. */
  lemma VictimsAre(l: Log)
    requires Inv(l)
    ensures Victims(l.segments) <= l.segments.Keys <= l.disk
    ensures forall s :: s in Victims(l.segments) <==> s in l.segments && s != l.current && AllConfirmed(l, s)
  {
    forall s | s in l.segments
      ensures s in Victims(l.segments) <==> s != l.current && AllConfirmed(l, s)
    {
      ExhaustedIff(l, s);
      assert TrackedOk(l, s);
    }
  }

  lemma CollectKeepsInv(l: Log)
    requires Inv(l)
    ensures Inv(Collect(l))
  {
    var l' := Collect(l);
    assert TrackedOk(l, l.current);
    forall s | s in l'.segments
      ensures TrackedOk(l', s)
    {
      assert TrackedOk(l, s);
    }
    forall s | s in l'.log && s !in l'.segments
      ensures Ids(s, |l'.log[s]|) <= l'.confirmed
    {
      if s in l.segments {
        ExhaustedIff(l, s);
      }
    }
  }

  lemma UnlinkKeepsInv(l: Log, gone: set<nat>)
    requires Inv(l) && gone !! l.segments.Keys
    ensures Inv(Unlink(l, gone))
  {
    forall s | s in l.segments
      ensures TrackedOk(Unlink(l, gone), s)
    {
      assert TrackedOk(l, s);
    }
  }

  lemma SyncKeepsInv(l: Log, s: nat)
    requires Inv(l) && s in l.log
    ensures Inv(Sync(l, s))
  {
    forall x | x in l.segments
      ensures TrackedOk(Sync(l, s), x)
    {
      assert TrackedOk(l, x);
    }
  }

  /** The record exists and was not confirmed before. */
  ghost predicate Unconfirmed(l: Log, id: RecordId) {
    id.0 in l.log && id.1 < |l.log[id.0]| && id !in l.confirmed
  }

  /** An unconfirmed record's segment is still tracked, with something outstanding. */
  lemma UnconfirmedIsTracked(l: Log, id: RecordId)
    requires Inv(l) && Unconfirmed(l, id)
    ensures id.0 in l.segments && l.segments[id.0].outstanding > 0 && id.0 in l.disk
  {
    var s := id.0;
    assert id in Ids(s, |l.log[s]|);
    assert TrackedOk(l, s);
    ConfirmedWithin(l, s);
    if |InSegment(l.confirmed, s)| == |l.log[s]| {
      SubsetSameSize(InSegment(l.confirmed, s), Ids(s, |l.log[s]|));
      assert false;
    }
  }

  lemma ConfirmKeepsInv(l: Log, id: RecordId)
    requires Inv(l) && Unconfirmed(l, id)
    ensures Inv(Confirm(l, id))
  {
    var l' := Confirm(l, id);
    UnconfirmedIsTracked(l, id);
    forall s | s in l'.segments
      ensures TrackedOk(l', s)
    {
      assert TrackedOk(l, s);
      if s == id.0 {
        assert InSegment(l'.confirmed, s) == InSegment(l.confirmed, s) + {id};
      } else {
        assert InSegment(l'.confirmed, s) == InSegment(l.confirmed, s);
      }
    }
  }

  /** Confirming a record of the log keeps the invariant exactly when it was not
      confirmed before, or its segment has nothing left to count down. */
  lemma ConfirmKeepsInvIff(l: Log, id: RecordId)
    requires Inv(l) && id.0 in l.log && id.1 < |l.log[id.0]|
    ensures Inv(Confirm(l, id)) <==>
            id !in l.confirmed || id.0 !in l.segments || l.segments[id.0].outstanding == 0
  {
    if id !in l.confirmed {
      ConfirmKeepsInv(l, id);
    } else {
      assert l.confirmed + {id} == l.confirmed;
      if id.0 !in l.segments || l.segments[id.0].outstanding == 0 {
        assert Confirm(l, id).segments == l.segments;
      } else {
        assert TrackedOk(l, id.0) && !TrackedOk(Confirm(l, id), id.0);
      }
    }
  }

  /** Two records in a sealed segment, the first confirmed twice: the second, never
      confirmed, loses its file. */
  lemma DoubleConfirmLosesRecord(r: Record)
    ensures var l := Opened(map[0 := [r, r]], 1);
            var twice := Confirm(Confirm(l, (0, 0)), (0, 0));
            && Inv(l) && Unconfirmed(l, (0, 0)) && Unconfirmed(twice, (0, 1)) && 0 in twice.disk
            && 0 !in Unlink(Collect(twice), Victims(twice.segments)).disk
  {
    OpenedInv(map[0 := [r, r]], 1);
    var l := Opened(map[0 := [r, r]], 1);
    assert l.segments[0] == SegmentState(2, true);
    var once := Confirm(l, (0, 0));
    assert once.segments[0] == SegmentState(1, true);
    assert Confirm(once, (0, 0)).segments[0] == SegmentState(0, true);
  }

  // ---- history as one sequence ----

  /** Every record ever written, in append order. */
  ghost function History(log: map<nat, seq<Record>>, n: nat): seq<Record> {
    if n == 0 then [] else History(log, n - 1) + (if n - 1 in log then log[n - 1] else [])
  }

  lemma {:induction false} HistoryFrame(a: map<nat, seq<Record>>, b: map<nat, seq<Record>>, n: nat)
    requires forall s :: s < n ==> (s in a <==> s in b) && (s in a ==> a[s] == b[s])
    ensures History(a, n) == History(b, n)
  {
    if n > 0 {
      HistoryFrame(a, b, n - 1);
    }
  }

  lemma HistoryAppend(l: Log, r: Record)
    requires Inv(l)
    ensures History(Append(l, r).log, l.current + 1) == History(l.log, l.current + 1) + [r]
  {
    HistoryFrame(l.log, Append(l, r).log, l.current);
  }

  lemma HistoryRotated(l: Log)
    requires Inv(l)
    ensures var l' := Collect(Seal(l)); History(l'.log, l'.current + 1) == History(l.log, l.current + 1)
  {
    HistoryFrame(l.log, Seal(l).log, l.current + 1);
  }

  // ---- crash and replay ----

  /** How many records of each file survive a crash: at least what was durable. */
  ghost predicate Survives(l: Log, kept: map<nat, nat>) {
    && kept.Keys == l.disk
    && (forall s :: s in l.disk && s in l.log && s in l.durable ==> l.durable[s] <= kept[s] <= |l.log[s]|)
  }

  ghost predicate Encodable(crc: Crc, rs: seq<Record>) {
    IsCrc(crc) && forall r :: r in rs ==> WithinLimits(r)
  }

  /** A byte of a segment's file at or past the end of its first `durable` records. */
  ghost predicate CutPast(crc: Crc, rs: seq<Record>, durable: nat, cut: nat)
    requires Encodable(crc, rs) && durable <= |rs|
  {
    |Concat(Frames(crc, rs)[..durable])| <= cut <= |EncodeAll(crc, rs)|
  }

  /** `read` is what is read back from a segment's file after a crash cut it at some
      byte, at or past the end of its durable records. */
  ghost predicate CrashLeaves(crc: Crc, rs: seq<Record>, durable: nat, read: seq<Record>) {
    && Encodable(crc, rs) && durable <= |rs|
    && exists cut: nat :: CutPast(crc, rs, durable, cut) && read == DecodeAll(crc, EncodeAll(crc, rs)[..cut])
  }

  lemma CrashKeepsDurable(crc: Crc, rs: seq<Record>, durable: nat, read: seq<Record>)
    requires CrashLeaves(crc, rs, durable, read)
    ensures durable <= |read| && read <= rs
  {
    var cut: nat :| CutPast(crc, rs, durable, cut) && read == DecodeAll(crc, EncodeAll(crc, rs)[..cut]);
    TornTail(crc, rs, cut);
    FitIsGreatest(Frames(crc, rs), cut, durable);
  }

  ghost function Sizes(read: map<nat, seq<Record>>): map<nat, nat> {
    map s | s in read :: |read[s]|
  }

  /** Whatever bytes a crash cuts off past the durable part, every durable record is
      read back, and what is read back of a file is the records it starts with. */
  lemma CrashSurvives(crc: Crc, l: Log, read: map<nat, seq<Record>>)
    requires Inv(l) && read.Keys == l.disk
    requires forall s :: s in l.disk && s in l.log ==> CrashLeaves(crc, l.log[s], l.durable[s], read[s])
    ensures Survives(l, Sizes(read)) && forall s :: s in read ==> read[s] <= l.log[s]
  {
    forall s | s in l.disk
      ensures l.durable[s] <= |read[s]| && read[s] <= l.log[s]
    {
      CrashKeepsDurable(crc, l.log[s], l.durable[s], read[s]);
    }
  }

  ghost function SegmentIds(segment: nat, n: nat): (ids: seq<RecordId>)
    ensures |ids| == n && forall i :: 0 <= i < n ==> ids[i] == (segment, i)
  {
    seq(n, i => (segment, i))
  }

  /** What a drained replay of segments below `n` yields, in order. */
  ghost function ReplayIds(kept: map<nat, nat>, n: nat): seq<RecordId> {
    if n == 0 then []
    else ReplayIds(kept, n - 1) + (if n - 1 in kept then SegmentIds(n - 1, kept[n - 1]) else [])
  }

  ghost predicate Before(a: RecordId, b: RecordId) {
    a.0 < b.0 || (a.0 == b.0 && a.1 < b.1)
  }

  ghost predicate InOrder(ids: seq<RecordId>) {
    forall i, j :: 0 <= i < j < |ids| ==> Before(ids[i], ids[j])
  }

  lemma {:induction false} ReplayMembers(kept: map<nat, nat>, n: nat, id: RecordId)
    ensures id in ReplayIds(kept, n) <==> id.0 < n && id.0 in kept && id.1 < kept[id.0]
  {
    if n > 0 {
      ReplayMembers(kept, n - 1, id);
      if n - 1 in kept && id.0 == n - 1 && id.1 < kept[n - 1] {
        assert SegmentIds(n - 1, kept[n - 1])[id.1] == id;
      }
    }
  }

  lemma {:induction false} ReplayInOrder(kept: map<nat, nat>, n: nat, i: nat, j: nat)
    requires i < j < |ReplayIds(kept, n)|
    ensures Before(ReplayIds(kept, n)[i], ReplayIds(kept, n)[j])
  {
    var earlier := ReplayIds(kept, n - 1);
    if j < |earlier| {
      ReplayInOrder(kept, n - 1, i, j);
    } else if i < |earlier| {
      assert earlier[i] in earlier;
      ReplayMembers(kept, n - 1, earlier[i]);
    }
  }

  /** After a crash at any point, a fully drained replay yields every unconfirmed
      durable record, each once and in append order. */
  lemma ReplayIsComplete(l: Log, kept: map<nat, nat>)
    requires Inv(l) && Survives(l, kept)
    ensures forall id :: Unconfirmed(l, id) && id.1 < l.durable[id.0] ==> id in ReplayIds(kept, l.current + 1)
    ensures forall id :: id in ReplayIds(kept, l.current + 1) ==> id.0 in l.log && id.1 < |l.log[id.0]|
    ensures InOrder(ReplayIds(kept, l.current + 1))
  {
    forall id | Unconfirmed(l, id) && id.1 < l.durable[id.0]
      ensures id in ReplayIds(kept, l.current + 1)
    {
      UnconfirmedIsTracked(l, id);
      ReplayMembers(kept, l.current + 1, id);
    }
    forall id | id in ReplayIds(kept, l.current + 1)
      ensures id.0 in l.log && id.1 < |l.log[id.0]|
    {
      ReplayMembers(kept, l.current + 1, id);
    }
    var ids := ReplayIds(kept, l.current + 1);
    forall i, j | 0 <= i < j < |ids|
      ensures Before(ids[i], ids[j])
    {
      ReplayInOrder(kept, l.current + 1, i, j);
    }
  }

  /** The lazy replay iterator, drained: it opens each segment file it was given
      at start-up in turn, and fails if one is gone by the time it gets there. */
  method DrainReplay(listed: set<nat>, dir: map<nat, seq<Record>>, n: nat) returns (failed: bool, out: seq<Record>)
    requires forall s :: s in listed ==> s < n
    requires dir.Keys <= listed
    ensures failed <==> exists s :: s in listed && s !in dir
    ensures !failed ==> out == History(dir, n)
  {
    out := [];
    failed := false;
    for s := 0 to n
      invariant forall x :: x in listed && x < s ==> x in dir
      invariant out == History(dir, s)
    {
      if s in listed {
        if s !in dir {
          return true, out;
        }
        out := out + dir[s];
      }
    }
  }

  /** The records a replay yields are the ones its identities name, one for one. */
  lemma {:induction false} ReplayNames(read: map<nat, seq<Record>>, n: nat, i: nat)
    ensures |History(read, n)| == |ReplayIds(Sizes(read), n)|
    ensures i < |History(read, n)| ==>
              var id := ReplayIds(Sizes(read), n)[i];
              id.0 in read && id.1 < |read[id.0]| && History(read, n)[i] == read[id.0][id.1]
  {
    if n > 0 {
      ReplayNames(read, n - 1, i);
    }
  }

  /** `out` is the records of the log named by `ids`, in append order, each once, and
      every record that was durable and not confirmed is among them. */
  ghost predicate Recovers(l: Log, ids: seq<RecordId>, out: seq<Record>) {
    && |out| == |ids| && InOrder(ids) && (forall i :: 0 <= i < |ids| ==> Stored(l, ids[i], out[i]))
    && (forall id :: Unconfirmed(l, id) && IsDurable(l, id) ==> id in ids)
  }

  lemma NamedIsStored(l: Log, read: map<nat, seq<Record>>, n: nat, i: nat)
    requires i < |History(read, n)| && forall s :: s in read ==> s in l.log && read[s] <= l.log[s]
    ensures i < |ReplayIds(Sizes(read), n)| && Stored(l, ReplayIds(Sizes(read), n)[i], History(read, n)[i])
  {
    ReplayNames(read, n, i);
  }

  lemma HistoryRecovers(l: Log, read: map<nat, seq<Record>>)
    requires Inv(l) && Survives(l, Sizes(read)) && forall s :: s in read ==> s in l.log && read[s] <= l.log[s]
    ensures Recovers(l, ReplayIds(Sizes(read), l.current + 1), History(read, l.current + 1))
  {
    AllNamedStored(l, read, l.current + 1);
    ReplayIsComplete(l, Sizes(read));
  }

  lemma AllNamedStored(l: Log, read: map<nat, seq<Record>>, n: nat)
    requires forall s :: s in read ==> s in l.log && read[s] <= l.log[s]
    ensures var ids, out := ReplayIds(Sizes(read), n), History(read, n);
            |out| == |ids| && forall i :: 0 <= i < |ids| ==> Stored(l, ids[i], out[i])
  {
    ReplayNames(read, n, 0);
    forall i | 0 <= i < |History(read, n)|
      ensures Stored(l, ReplayIds(Sizes(read), n)[i], History(read, n)[i])
    {
      NamedIsStored(l, read, n, i);
    }
  }

  /** A crash at any point of the log's life, cutting each file anywhere past its
      durable records; then what the drained iterator returns from what is left. */
  method RecoverAfterCrash(ghost crc: Crc, ghost l: Log, read: map<nat, seq<Record>>, n: nat)
    returns (failed: bool, out: seq<Record>, ghost ids: seq<RecordId>)
    requires Inv(l) && read.Keys == l.disk && n == l.current + 1
    requires forall s :: s in l.disk && s in l.log ==> CrashLeaves(crc, l.log[s], l.durable[s], read[s])
    ensures !failed && Recovers(l, ids, out)
  {
    CrashSurvives(crc, l, read);
    HistoryRecovers(l, read);
    ids := ReplayIds(Sizes(read), n);
    failed, out := DrainReplay(read.Keys, read, n);
  }

  /** While a replay has read only segments below `p`, one collection keeps an
      unread segment exactly when it holds a record: an empty one is unlinked
      under the iterator, which then fails and yields nothing past it. */
  lemma UnreadSegmentKeptIff(l: Log, p: nat, s: nat)
    requires Inv(l) && s in l.segments && p <= s < l.current
    requires forall id :: id in l.confirmed ==> id.0 < p
    ensures s in Collect(l).segments <==> l.log[s] != []
  {
    assert TrackedOk(l, s);
    assert InSegment(l.confirmed, s) == {};
  }

  /** An empty segment and one with a record: a collection before the replay gets there
      makes it fail at the first. */
  method EmptySegmentEndsReplay(r: Record) returns (failed: bool, out: seq<Record>)
    ensures failed
  {
    var dir := map[0 := [], 1 := [r]];
    var left := Collect(Opened(dir, 2));
    assert Opened(dir, 2).segments[0] == SegmentState(0, true);
    failed, out := DrainReplay(dir.Keys, map s | s in dir && s in left.segments :: dir[s], 2);
  }

  // ---- the log itself ----

  predicate NamesFit(r: Record) {
    |r.stream| < FLAG && (r.V2? ==> |r.id| < FLAG)
  }

  /** The name check lets through exactly what the length fields can tell from a flag. */
  lemma FitIsEncodable(r: Record)
    ensures WithinLimits(r) ==> NamesFit(r)
    ensures NamesFit(r) && (r.V2? ==> IsI64(r.stamp)) && PayloadLen(r) < 0x1_0000_0000 ==> WithinLimits(r)
  {
  }

  ghost predicate AllFit(rs: seq<Record>) {
    forall r :: r in rs ==> NamesFit(r)
  }

  lemma TakeOneMore(rs: seq<Record>, i: nat)
    requires i < |rs|
    ensures rs[..i + 1] == rs[..i] + [rs[i]]
    ensures AllFit(rs[..i + 1]) <==> AllFit(rs[..i]) && NamesFit(rs[i])
  {
    assert rs[..i + 1] == rs[..i] + [rs[i]];
    if AllFit(rs[..i + 1]) {
      forall r | r in rs[..i]
        ensures NamesFit(r)
      {
        assert r in rs[..i + 1];
      }
      assert rs[i] in rs[..i + 1];
    }
  }

  /** `written` records went in: all of them, or those before the first over-long name. */
  ghost predicate StoppedAt(items: seq<Record>, written: nat, ok: bool) {
    && written <= |items|
    && AllFit(items[..written])
    && (ok <==> written == |items|)
    && (!ok ==> !NamesFit(items[written]))
  }

  ghost predicate Stored(l: Log, id: RecordId, r: Record) {
    id.0 in l.log && id.1 < |l.log[id.0]| && l.log[id.0][id.1] == r
  }

  ghost predicate IsDurable(l: Log, id: RecordId) {
    id.0 in l.durable && id.1 < l.durable[id.0]
  }

  /** A batch so far: each record is stored under its identity, in append order,
      in a segment this batch sealed or in the current one. */
  ghost predicate BatchSoFar(l: Log, items: seq<Record>, positions: seq<Position>, ids: seq<RecordId>,
                             sealedSegs: seq<nat>) {
    && |positions| == |ids| == |items|
    && (forall i :: 0 <= i < |sealedSegs| ==> sealedSegs[i] in l.log)
    && (forall i :: 0 <= i < |items| ==> positions[i].segment == ids[i].0 && Stored(l, ids[i], items[i]))
    && (forall i :: 0 <= i < |items| ==> ids[i].0 in sealedSegs || ids[i].0 == l.current)
    && InOrder(ids)
  }

  lemma BatchRotated(l: Log, items: seq<Record>, positions: seq<Position>, ids: seq<RecordId>, sealedSegs: seq<nat>)
    requires Inv(l) && BatchSoFar(l, items, positions, ids, sealedSegs)
    ensures BatchSoFar(Collect(Seal(l)), items, positions, ids, sealedSegs + [l.current])
  {
    forall i | 0 <= i < |items|
      ensures Stored(Collect(Seal(l)), ids[i], items[i])
    {
      assert Stored(l, ids[i], items[i]);
    }
  }

  lemma BatchWritten(l: Log, items: seq<Record>, r: Record, positions: seq<Position>, ids: seq<RecordId>,
                     sealedSegs: seq<nat>)
    requires Inv(l) && BatchSoFar(l, items, positions, ids, sealedSegs)
    ensures BatchSoFar(Append(l, r), items + [r], positions + [Position(l.current)],
                       ids + [(l.current, |l.log[l.current]|)], sealedSegs)
  {
    forall i | 0 <= i < |items|
      ensures Stored(Append(l, r), ids[i], items[i]) && Before(ids[i], (l.current, |l.log[l.current]|))
    {
      assert Stored(l, ids[i], items[i]);
    }
  }

  /** The current segment was below the limit whenever a record was added to it. */
  ghost predicate GrewBelow(l: Log, maxSegmentBytes: nat) {
    l.current in l.log &&
    (|l.log[l.current]| > 1 ==> SegmentBytes(l.log[l.current][..|l.log[l.current]| - 1]) < maxSegmentBytes)
  }

  /** The current segment takes another record: it is below the limit, or empty. */
  ghost predicate HasRoom(l: Log, maxSegmentBytes: nat) {
    l.current in l.log && (l.len < maxSegmentBytes || l.log[l.current] == [])
  }

  lemma GrewBelowWritten(l: Log, r: Record, maxSegmentBytes: nat)
    requires Inv(l) && HasRoom(l, maxSegmentBytes)
    ensures GrewBelow(Append(l, r), maxSegmentBytes)
  {
    var grown := Append(l, r).log[l.current];
    assert grown[..|grown| - 1] == l.log[l.current];
  }

  /** Every segment sealed between `l0` and `l` had reached the limit. */
  ghost predicate SealedFull(l0: Log, l: Log, maxSegmentBytes: nat) {
    forall s :: l0.current <= s < l.current ==> s in l.log && maxSegmentBytes <= SegmentBytes(l.log[s])
  }

  lemma RotatedFull(l0: Log, l: Log, maxSegmentBytes: nat)
    requires Inv(l) && SealedFull(l0, l, maxSegmentBytes) && maxSegmentBytes <= l.len
    ensures SealedFull(l0, Collect(Seal(l)), maxSegmentBytes)
  {
  }

  lemma WrittenFull(l0: Log, l: Log, r: Record, maxSegmentBytes: nat)
    requires Inv(l) && SealedFull(l0, l, maxSegmentBytes)
    ensures SealedFull(l0, Append(l, r), maxSegmentBytes)
  {
  }

  /** Where an append stands: everything done so far, from `l0`. */
  ghost predicate Writing(l0: Log, l: Log, done: seq<Record>, positions: seq<Position>, ids: seq<RecordId>,
                          sealedSegs: seq<nat>, maxSegmentBytes: nat) {
    && Inv(l) && GrewBelow(l, maxSegmentBytes) && SealedFull(l0, l, maxSegmentBytes) && l.confirmed == l0.confirmed
    && History(l.log, l.current + 1) == History(l0.log, l0.current + 1) + done
    && BatchSoFar(l, done, positions, ids, sealedSegs)
  }

  /** The segments after `from`, up to `to'`. */
  ghost function Between(from: nat, to': nat): (r: set<nat>)
    ensures forall s :: s in r <==> from < s <= to'
  {
    if to' <= from then {} else Between(from, to' - 1) + {to'}
  }

  /** What the rotations between `l0` and `l` drop: the sealed segments with every record
      confirmed, if there was a rotation at all. */
  ghost predicate Dropped(l0: Log, l: Log, s: nat) {
    && l0.current < l.current && (s in l0.segments || l0.current < s)
    && s < l.current && s in l.log && Ids(s, |l.log[s]|) <= l.confirmed
  }

  ghost function AllDropped(l0: Log, l: Log): set<nat> {
    set s | s in l.log && Dropped(l0, l, s)
  }

  /** Which segments are tracked, which were found exhausted, which files exist. */
  ghost predicate Tracking(l0: Log, l: Log, victims: set<nat>) {
    && l0.current <= l.current && victims == AllDropped(l0, l)
    && l.segments.Keys == l0.segments.Keys + Between(l0.current, l.current) - victims
    && l.disk == l0.disk + Between(l0.current, l.current)
  }

  lemma RotateKeepsInv(l: Log, maxSegmentBytes: nat)
    requires Inv(l)
    ensures Inv(Collect(Seal(l))) && GrewBelow(Collect(Seal(l)), maxSegmentBytes)
  {
    SealKeepsInv(l);
    CollectKeepsInv(Seal(l));
  }

  lemma RotateKeepsTracking(l0: Log, l: Log, victims: set<nat>)
    requires Inv(l) && Tracking(l0, l, victims)
    ensures Tracking(l0, Collect(Seal(l)), victims + Victims(Seal(l).segments))
  {
    RotateVictims(l0, l, victims);
    RotatedKeys(l0, l, victims);
    BetweenGrows(l0.disk, l0.current, l.current);
  }

  lemma RotatedKeys(l0: Log, l: Log, victims: set<nat>)
    requires l.current in l.segments && Tracking(l0, l, victims)
    ensures Collect(Seal(l)).segments.Keys ==
            l0.segments.Keys + Between(l0.current, l.current + 1) - (victims + Victims(Seal(l).segments))
  {
    assert !Dropped(l0, l, l.current + 1);
    RotateKeys(l, victims, l0.segments.Keys + Between(l0.current, l.current));
    BetweenGrows(l0.segments.Keys, l0.current, l.current);
  }

  lemma BetweenGrows(base: set<nat>, from: nat, to': nat)
    requires from <= to'
    ensures base + Between(from, to' + 1) == base + Between(from, to') + {to' + 1}
  {
  }

  lemma RotateVictims(l0: Log, l: Log, victims: set<nat>)
    requires Inv(l) && Tracking(l0, l, victims)
    ensures victims + Victims(Seal(l).segments) == AllDropped(l0, Collect(Seal(l)))
  {
    SealKeepsInv(l);
    forall s: nat
      ensures s in victims + Victims(Seal(l).segments) <==> Dropped(l0, Collect(Seal(l)), s)
    {
      RotateDrops(l0, l, victims, s);
    }
  }

  lemma RotateKeys(l: Log, victims: set<nat>, all: set<nat>)
    requires l.current in l.segments && l.segments.Keys == all - victims && l.current + 1 !in victims
    ensures Collect(Seal(l)).segments.Keys == all + {l.current + 1} - (victims + Victims(Seal(l).segments))
  {
  }

  lemma RotateDrops(l0: Log, l: Log, victims: set<nat>, s: nat)
    requires Inv(l) && Inv(Seal(l)) && Tracking(l0, l, victims)
    ensures Dropped(l0, Collect(Seal(l)), s) <==> s in victims || s in Victims(Seal(l).segments)
  {
    if s in Seal(l).segments {
      assert TrackedOk(Seal(l), s);
      ExhaustedIff(Seal(l), s);
    }
  }

  lemma WriteKeepsTracking(l0: Log, l: Log, r: Record, victims: set<nat>)
    requires Inv(l) && Tracking(l0, l, victims)
    ensures Tracking(l0, Append(l, r), victims)
  {
    var l' := Append(l, r);
    assert l'.segments.Keys == l.segments.Keys;
    forall s: nat
      ensures Dropped(l0, l', s) <==> Dropped(l0, l, s)
    {
    }
  }

  lemma RotateKeeps(l0: Log, l: Log, done: seq<Record>, positions: seq<Position>, ids: seq<RecordId>,
                    sealedSegs: seq<nat>, maxSegmentBytes: nat)
    requires Writing(l0, l, done, positions, ids, sealedSegs, maxSegmentBytes) && maxSegmentBytes <= l.len
    ensures Writing(l0, Collect(Seal(l)), done, positions, ids, sealedSegs + [l.current], maxSegmentBytes)
  {
    RotateKeepsInv(l, maxSegmentBytes);
    RotatedFull(l0, l, maxSegmentBytes);
    BatchRotated(l, done, positions, ids, sealedSegs);
    HistoryRotated(l);
  }

  lemma WriteKeeps(l0: Log, l: Log, done: seq<Record>, r: Record, positions: seq<Position>, ids: seq<RecordId>,
                   sealedSegs: seq<nat>, maxSegmentBytes: nat)
    requires Writing(l0, l, done, positions, ids, sealedSegs, maxSegmentBytes)
    requires HasRoom(l, maxSegmentBytes)
    ensures Writing(l0, Append(l, r), done + [r], positions + [Position(l.current)],
                    ids + [(l.current, |l.log[l.current]|)], sealedSegs, maxSegmentBytes)
  {
    AppendKeepsInv(l, r);
    GrewBelowWritten(l, r, maxSegmentBytes);
    WrittenFull(l0, l, r, maxSegmentBytes);
    BatchWritten(l, done, r, positions, ids, sealedSegs);
    HistoryAppend(l, r);
  }

  /** Where an append stands, the segments it tracks and drops included. */
  ghost predicate Underway(l0: Log, l: Log, done: seq<Record>, positions: seq<Position>, ids: seq<RecordId>,
                           sealedSegs: seq<nat>, victims: set<nat>, maxSegmentBytes: nat) {
    Writing(l0, l, done, positions, ids, sealedSegs, maxSegmentBytes) && Tracking(l0, l, victims)
  }

  lemma RotateGoesOn(l0: Log, l: Log, done: seq<Record>, positions: seq<Position>, ids: seq<RecordId>,
                     sealedSegs: seq<nat>, victims: set<nat>, maxSegmentBytes: nat)
    requires Underway(l0, l, done, positions, ids, sealedSegs, victims, maxSegmentBytes) && maxSegmentBytes <= l.len
    ensures Underway(l0, Collect(Seal(l)), done, positions, ids, sealedSegs + [l.current],
                     victims + Victims(Seal(l).segments), maxSegmentBytes)
  {
    RotateKeeps(l0, l, done, positions, ids, sealedSegs, maxSegmentBytes);
    RotateKeepsTracking(l0, l, victims);
  }

  lemma WriteGoesOn(l0: Log, l: Log, done: seq<Record>, r: Record, positions: seq<Position>, ids: seq<RecordId>,
                    sealedSegs: seq<nat>, victims: set<nat>, maxSegmentBytes: nat)
    requires Underway(l0, l, done, positions, ids, sealedSegs, victims, maxSegmentBytes)
    requires HasRoom(l, maxSegmentBytes)
    ensures Underway(l0, Append(l, r), done + [r], positions + [Position(l.current)],
                     ids + [(l.current, |l.log[l.current]|)], sealedSegs, victims, maxSegmentBytes)
  {
    WriteKeeps(l0, l, done, r, positions, ids, sealedSegs, maxSegmentBytes);
    WriteKeepsTracking(l0, l, r, victims);
  }

  /** Rotate when the current segment is full. */
  method RotateIfFull(ghost l0: Log, l: Log, ghost done: seq<Record>, ghost positions: seq<Position>,
                      ghost ids: seq<RecordId>, sealedSegs: seq<nat>, victims: set<nat>, maxSegmentBytes: nat)
    returns (l': Log, sealedSegs': seq<nat>, victims': set<nat>)
    requires Underway(l0, l, done, positions, ids, sealedSegs, victims, maxSegmentBytes)
    ensures Underway(l0, l', done, positions, ids, sealedSegs', victims', maxSegmentBytes)
    ensures HasRoom(l', maxSegmentBytes)
  {
    l', sealedSegs', victims' := l, sealedSegs, victims;
    if l.len >= maxSegmentBytes {
      RotateGoesOn(l0, l, done, positions, ids, sealedSegs, victims, maxSegmentBytes);
      l' := Seal(l);
      victims' := victims + Victims(l'.segments);
      l' := Collect(l');
      sealedSegs' := sealedSegs + [l.current];
    }
  }

  /** Rotate if need be, then write one record unless a name is too long for it. */
  method WriteOne(ghost l0: Log, l: Log, ghost done: seq<Record>, item: Record, positions: seq<Position>,
                  ghost ids: seq<RecordId>, sealedSegs: seq<nat>, victims: set<nat>, maxSegmentBytes: nat)
    returns (l': Log, ok: bool, positions': seq<Position>, ghost ids': seq<RecordId>,
             sealedSegs': seq<nat>, victims': set<nat>)
    requires Underway(l0, l, done, positions, ids, sealedSegs, victims, maxSegmentBytes)
    ensures ok == NamesFit(item)
    ensures Underway(l0, l', if ok then done + [item] else done, positions', ids', sealedSegs', victims',
                     maxSegmentBytes)
  {
    positions', ids' := positions, ids;
    l', sealedSegs', victims' := RotateIfFull(l0, l, done, positions, ids, sealedSegs, victims, maxSegmentBytes);
    ok := NamesFit(item);
    if ok {
      WriteGoesOn(l0, l', done, item, positions, ids, sealedSegs', victims', maxSegmentBytes);
      ids' := ids + [(l'.current, |l'.log[l'.current]|)];
      positions' := positions + [Position(l'.current)];
      l' := Append(l', item);
    }
  }

  /** The part of an append that runs under the writer lock: rotate when the
      current segment is full, then write, record by record. Returns the segments
      the batch sealed and the exhausted ones it found. */
  method WriteRecords(l0: Log, items: seq<Record>, maxSegmentBytes: nat)
    returns (l: Log, ok: bool, ghost written: nat, positions: seq<Position>, ghost ids: seq<RecordId>,
             sealedSegs: seq<nat>, victims: set<nat>)
    requires Inv(l0) && GrewBelow(l0, maxSegmentBytes)
    ensures StoppedAt(items, written, ok)
    ensures Underway(l0, l, items[..written], positions, ids, sealedSegs, victims, maxSegmentBytes)
  {
    l, positions, ids, sealedSegs, victims := l0, [], [], [], {};
    for i := 0 to |items|
      invariant AllFit(items[..i])
      invariant Underway(l0, l, items[..i], positions, ids, sealedSegs, victims, maxSegmentBytes)
    {
      TakeOneMore(items, i);
      l, ok, positions, ids, sealedSegs, victims :=
        WriteOne(l0, l, items[..i], items[i], positions, ids, sealedSegs, victims, maxSegmentBytes);
      if !ok {
        return l, false, i, positions, ids, sealedSegs, victims;
      }
    }
    ok, written := true, |items|;
  }

  /** Syncing a list of segments makes all their records durable and touches nothing else. */
  method SyncEach(l0: Log, sealedSegs: seq<nat>) returns (l: Log)
    requires Inv(l0) && forall i :: 0 <= i < |sealedSegs| ==> sealedSegs[i] in l0.log
    ensures Inv(l) && l == l0.(durable := l.durable)
    ensures forall s :: s in l.log ==> l.durable[s] == if s in sealedSegs then |l.log[s]| else l0.durable[s]
  {
    l := l0;
    for i := 0 to |sealedSegs|
      invariant Inv(l) && l == l0.(durable := l.durable)
      invariant forall s :: s in l.log ==> l.durable[s] == if s in sealedSegs[..i] then |l.log[s]| else l0.durable[s]
    {
      assert sealedSegs[..i + 1] == sealedSegs[..i] + [sealedSegs[i]];
      SyncKeepsInv(l, sealedSegs[i]);
      l := Sync(l, sealedSegs[i]);
    }
    assert sealedSegs[..|sealedSegs|] == sealedSegs;
  }

  lemma BatchDurable(l: Log, items: seq<Record>, positions: seq<Position>, ids: seq<RecordId>, sealedSegs: seq<nat>)
    requires Inv(l) && BatchSoFar(l, items, positions, ids, sealedSegs)
    requires forall s :: s in l.log && (s in sealedSegs || s == l.current) ==> l.durable[s] == |l.log[s]|
    ensures forall i :: 0 <= i < |items| ==> Stored(l, ids[i], items[i]) && IsDurable(l, ids[i])
  {
    forall i | 0 <= i < |items|
      ensures Stored(l, ids[i], items[i]) && IsDurable(l, ids[i])
    {
      assert Stored(l, ids[i], items[i]);
    }
  }

  lemma BatchFrame(l: Log, l': Log, items: seq<Record>, positions: seq<Position>, ids: seq<RecordId>,
                   sealedSegs: seq<nat>)
    requires BatchSoFar(l, items, positions, ids, sealedSegs) && l'.log == l.log && l'.current == l.current
    ensures BatchSoFar(l', items, positions, ids, sealedSegs)
  {
    forall i | 0 <= i < |items|
      ensures Stored(l', ids[i], items[i])
    {
      assert Stored(l, ids[i], items[i]);
    }
  }

  /** What an append answers: the positions of its records, in order, each stored
      and durable; or a refusal at the first over-long name, with the records
      before it written. */
  ghost predicate AppendedOk(l: Log, items: seq<Record>, positions: seq<Position>, ids: seq<RecordId>) {
    && |positions| == |ids| == |items| && InOrder(ids)
    && (forall i :: 0 <= i < |items| ==>
          positions[i].segment == ids[i].0 && Stored(l, ids[i], items[i]) && IsDurable(l, ids[i]))
  }

  /** One past the highest existing segment, or zero. */
  method NextSegment(existing: set<nat>) returns (next: nat)
    ensures forall s :: s in existing ==> s < next
    ensures next == 0 || next - 1 in existing
  {
    next := 0;
    var todo := existing;
    while todo != {}
      invariant todo <= existing
      invariant forall s :: s in existing ==> s in todo || s < next
      invariant next == 0 || next - 1 in existing
      decreases todo
    {
      var s :| s in todo;
      todo := todo - {s};
      if next <= s {
        next := s + 1;
      }
    }
  }

  class Wal {
    const maxSegmentBytes: nat
    var inner: Log

    ghost predicate Valid()
      reads this
    {
      Inv(inner) && GrewBelow(inner, maxSegmentBytes)
    }

    /** Open over the segment files a previous run left: count each file's
        records, seal it, and start a fresh segment after the highest. */
    constructor (dir: map<nat, seq<Record>>, maxSegmentBytes: nat)
      ensures Valid() && this.maxSegmentBytes == maxSegmentBytes
      ensures forall s :: s in dir ==> s < inner.current
      ensures inner.current == 0 || inner.current - 1 in dir
      ensures inner == Opened(dir, inner.current)
      ensures Adopted(dir, inner)
    {
      var next := NextSegment(dir.Keys);
      OpenedInv(dir, next);
      OpenedAdopts(dir, next);
      this.maxSegmentBytes := maxSegmentBytes;
      inner := Opened(dir, next);
    }

    /** Write a batch, rotating as needed, and return once all of it is synced. */
    method AppendBatch(items: seq<Record>)
      returns (ok: bool, ghost written: nat, positions: seq<Position>, ghost ids: seq<RecordId>,
               ghost dropped: set<nat>)
      requires Valid()
      modifies this
      ensures Valid() && inner.confirmed == old(inner.confirmed)
      ensures StoppedAt(items, written, ok)
      ensures History(inner.log, inner.current + 1) ==
              History(old(inner.log), old(inner.current) + 1) + items[..written]
      ensures ok ==> AppendedOk(inner, items, positions, ids)
      ensures SealedFull(old(inner), inner, maxSegmentBytes)
      ensures forall s: nat :: s in dropped <==> Dropped(old(inner), inner, s)
      ensures var added := Between(old(inner.current), inner.current);
              && inner.segments.Keys == old(inner.segments).Keys + added - dropped
              && inner.disk == old(inner.disk) + added - (if ok then dropped else {})
    {
      var l, sealedSegs, victims;
      l, ok, written, positions, ids, sealedSegs, victims := WriteRecords(inner, items, maxSegmentBytes);
      dropped := victims;
      if !ok {
        inner := l;
        return;
      }
      assert items[..|items|] == items;
      l := FinishAppend(l, items, positions, ids, sealedSegs, victims);
      inner := l;
    }

    /** Count records off as published, and remove the segments with none left. The
        identities say which record each position stands for: none twice. */
    method ConfirmBatch(positions: seq<Position>, ids: seq<RecordId>)
      requires Valid() && |ids| == |positions|
      requires forall i :: 0 <= i < |ids| ==> ids[i].0 == positions[i].segment && Unconfirmed(inner, ids[i])
      requires forall i, j :: 0 <= i < j < |ids| ==> ids[i] != ids[j]
      modifies this
      ensures Valid()
      ensures inner.confirmed == old(inner.confirmed) + IdSet(ids)
      ensures inner.segments ==
              ConfirmAll(old(inner.segments), positions) - Victims(ConfirmAll(old(inner.segments), positions))
      ensures inner.disk == old(inner.disk) - Victims(ConfirmAll(old(inner.segments), positions))
      ensures forall s :: s in inner.segments <==>
                s in old(inner.segments) && (s == inner.current || !AllConfirmed(inner, s))
      ensures old(inner.disk) - inner.disk == old(inner.segments).Keys - inner.segments.Keys
      ensures inner.log == old(inner.log) && inner.durable == old(inner.durable) && inner.current == old(inner.current)
    {
      var l := DecrementEach(inner, positions, ids);
      var victims := Victims(l.segments);
      VictimsAre(l);
      ConfirmedKeys(inner.segments, positions);
      CollectKeepsInv(l);
      l := Collect(l);
      UnlinkKeepsInv(l, victims);
      inner := Unlink(l, victims);
    }
  }

  /** The decrements of a confirm, position by position. */
  method DecrementEach(l0: Log, positions: seq<Position>, ids: seq<RecordId>) returns (l: Log)
    requires Inv(l0) && |ids| == |positions|
    requires forall i :: 0 <= i < |ids| ==> ids[i].0 == positions[i].segment && Unconfirmed(l0, ids[i])
    requires forall i, j :: 0 <= i < j < |ids| ==> ids[i] != ids[j]
    ensures Inv(l)
    ensures l.segments == ConfirmAll(l0.segments, positions)
    ensures l.confirmed == l0.confirmed + IdSet(ids)
    ensures l == l0.(segments := l.segments, confirmed := l.confirmed)
  {
    l := l0;
    for i := 0 to |positions|
      invariant Confirming(l0, l, positions, ids, i)
    {
      ConfirmNext(l0, l, positions, ids, i);
      l := l.(segments := ConfirmOne(l.segments, positions[i]), confirmed := l.confirmed + {ids[i]});
    }
    assert positions[..|positions|] == positions;
    assert ids[..|ids|] == ids;
  }

  /** Where a confirm stands after `k` positions. */
  ghost predicate Confirming(l0: Log, l: Log, positions: seq<Position>, ids: seq<RecordId>, k: nat)
    requires k <= |positions| == |ids|
  {
    && Inv(l)
    && l.segments == ConfirmAll(l0.segments, positions[..k])
    && l.confirmed == l0.confirmed + IdSet(ids[..k])
    && l == l0.(segments := l.segments, confirmed := l.confirmed)
  }

  lemma ConfirmNext(l0: Log, l: Log, positions: seq<Position>, ids: seq<RecordId>, k: nat)
    requires k < |positions| == |ids| && Confirming(l0, l, positions, ids, k)
    requires ids[k].0 == positions[k].segment && Unconfirmed(l0, ids[k]) && ids[k] !in ids[..k]
    ensures Confirming(l0, Confirm(l, ids[k]), positions, ids, k + 1)
  {
    ConfirmKeepsInv(l, ids[k]);
    ConfirmAllNext(l0.segments, positions, k);
    OneMoreId(ids, k);
  }

  lemma ConfirmAllNext(segments: map<nat, SegmentState>, positions: seq<Position>, k: nat)
    requires k < |positions|
    ensures ConfirmAll(segments, positions[..k + 1]) == ConfirmOne(ConfirmAll(segments, positions[..k]), positions[k])
  {
    assert positions[..k + 1][..k] == positions[..k];
  }

  lemma OneMoreId(ids: seq<RecordId>, k: nat)
    requires k < |ids|
    ensures IdSet(ids[..k + 1]) == IdSet(ids[..k]) + {ids[k]}
  {
    assert ids[..k + 1] == ids[..k] + [ids[k]];
  }

  /** The log as opened over existing segment files. */
  function Opened(dir: map<nat, seq<Record>>, next: nat): Log {
    Log(next, 0,
        (map s | s in dir :: SegmentState(|dir[s]|, true))[next := SegmentState(0, false)],
        dir[next := []], dir.Keys + {next},
        (map s | s in dir :: |dir[s]|)[next := 0], {})
  }

  /** Every segment found is tracked, sealed and with all its records outstanding; beside
      them there is only the current one, empty. */
  ghost predicate Adopted(dir: map<nat, seq<Record>>, l: Log) {
    && (forall s :: s in dir && s != l.current ==>
          && s in l.segments && l.segments[s] == SegmentState(|dir[s]|, true)
          && s in l.log && l.log[s] == dir[s])
    && l.segments.Keys == l.disk == l.log.Keys == dir.Keys + {l.current}
    && l.current in l.log && l.log[l.current] == [] && l.len == 0 && l.confirmed == {}
  }

  lemma OpenedAdopts(dir: map<nat, seq<Record>>, next: nat)
    ensures Adopted(dir, Opened(dir, next))
  {
  }

  lemma OpenedInv(dir: map<nat, seq<Record>>, next: nat)
    requires forall s :: s in dir ==> s < next
    ensures Inv(Opened(dir, next))
  {
    var l := Opened(dir, next);
    forall s | s in l.segments
      ensures TrackedOk(l, s)
    {
      assert InSegment(l.confirmed, s) == {};
    }
  }

  /** After the writer lock is released: sync what the batch sealed, unlink what
      it found exhausted, sync the current segment. */
  method FinishAppend(l0: Log, ghost items: seq<Record>, ghost positions: seq<Position>, ghost ids: seq<RecordId>,
                      sealedSegs: seq<nat>, victims: set<nat>) returns (l: Log)
    requires Inv(l0) && BatchSoFar(l0, items, positions, ids, sealedSegs)
    requires victims !! l0.segments.Keys
    ensures Inv(l) && l == l0.(disk := l0.disk - victims, durable := l.durable)
    ensures AppendedOk(l, items, positions, ids)
  {
    l := SyncEach(l0, sealedSegs);
    UnlinkKeepsInv(l, victims);
    l := Unlink(l, victims);
    SyncKeepsInv(l, l.current);
    l := Sync(l, l.current);
    BatchFrame(l0, l, items, positions, ids, sealedSegs);
    BatchDurable(l, items, positions, ids, sealedSegs);
  }
}
