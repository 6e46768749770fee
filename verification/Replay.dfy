/** Replaying the recovered log into the ingest pipeline: each record is queued for
indexing again, and records flagged as replacements re-issue their tombstones in
batches. Tombstone rows are named by the record they come from. */
module Replay {
  import opened Counting

  const TOMBSTONE_BATCH: nat := 1_000

  datatype Record = Record(seqno: nat, flagged: bool, parses: bool)

  /** What each record meets: can it be read, is its stream found when its tombstone is
      built, is its worker found, does the worker take it; and does the `k`-th upsert land. */
  datatype World = World(
    readable: nat -> bool,
    streams: nat -> bool,
    routes: nat -> bool,
    sends: nat -> bool,
    lands: nat -> bool)

  datatype Effect = Upsert(batch: seq<nat>) | Enqueue(record: nat) | Confirm(record: nat)

  datatype Outcome = Done(count: nat) | Failed

  // ---- what replay should do ----

  /** The flagged records among the first `n`, in log order. */
  function Flagged(records: seq<Record>, n: nat): seq<nat>
    requires n <= |records|
  {
    if n == 0 then [] else Flagged(records, n - 1) + (if records[n - 1].flagged then [n - 1] else [])
  }

  lemma {:induction false} FlaggedMembers(records: seq<Record>, n: nat, m: nat)
    requires n <= |records|
    ensures m in Flagged(records, n) <==> m < n && records[m].flagged
  {
    if n > 0 {
      FlaggedMembers(records, n - 1, m);
    }
  }

  /** The rank of record `n` among the flagged ones, counting from one. */
  function Rank(records: seq<Record>, n: nat): nat
    requires n < |records|
  {
    |Flagged(records, n)| + 1
  }

  /** The tombstones not yet upserted after `n` records: the last incomplete batch. */
  function Left(records: seq<Record>, n: nat): seq<nat>
    requires n <= |records|
  {
    if n == 0 then []
    else
      var left := Left(records, n - 1);
      if !records[n - 1].flagged then left else if |left| + 1 == TOMBSTONE_BATCH then [] else left + [n - 1]
  }

  /** Record `n` completes a batch. */
  predicate Fills(records: seq<Record>, n: nat)
    requires n < |records|
  {
    records[n].flagged && |Left(records, n)| + 1 == TOMBSTONE_BATCH
  }

  /** The batches the first `n` records complete. */
  function Filled(records: seq<Record>, n: nat): nat
    requires n <= |records|
  {
    if n == 0 then 0 else Filled(records, n - 1) + if Fills(records, n - 1) then 1 else 0
  }

  /** What becomes of record `n` itself. */
  function Own(records: seq<Record>, w: World, n: nat): Effect
    requires n < |records|
  {
    if records[n].parses && w.sends(n) then Enqueue(n) else Confirm(n)
  }

  /** The effects of the first `n` records when nothing fails. */
  function Effects(records: seq<Record>, w: World, n: nat): seq<Effect>
    requires n <= |records|
  {
    if n == 0 then []
    else
      var filled := if Fills(records, n - 1) then [Upsert(Left(records, n - 1) + [n - 1])] else [];
      Effects(records, w, n - 1) + filled + [Own(records, w, n - 1)]
  }

  /** The effects of a replay that succeeds. */
  function Whole(records: seq<Record>, w: World): seq<Effect> {
    var left := Left(records, |records|);
    Effects(records, w, |records|) + (if left == [] then [] else [Upsert(left)])
  }

  /** Record `n` goes through: it is read, its stream and worker are found when they
      are asked for, and the batch it completes lands. */
  predicate GoesThrough(records: seq<Record>, w: World, n: nat)
    requires n < |records|
  {
    && w.readable(n) && (records[n].flagged ==> w.streams(n)) && (records[n].parses ==> w.routes(n))
    && (Fills(records, n) ==> w.lands(Filled(records, n)))
  }

  /** The effects of a replay that stops at record `n`: those of the records before it,
      and the batch it completed if that landed before it stopped. */
  function Stopped(records: seq<Record>, w: World, n: nat): seq<Effect>
    requires n < |records|
  {
    var landed := Fills(records, n) && w.readable(n) && w.streams(n) && w.lands(Filled(records, n));
    Effects(records, w, n) + if landed then [Upsert(Left(records, n) + [n])] else []
  }

  /** Record `n` is the first that does not go through. */
  ghost predicate StopsAt(records: seq<Record>, w: World, n: nat) {
    n < |records| && !GoesThrough(records, w, n) && forall m :: 0 <= m < n ==> GoesThrough(records, w, m)
  }

  /** Nothing fails, the last upsert included. */
  ghost predicate Smooth(records: seq<Record>, w: World) {
    && (forall n :: 0 <= n < |records| ==> GoesThrough(records, w, n))
    && (Left(records, |records|) != [] ==> w.lands(Filled(records, |records|)))
  }

  // ---- the loop ----

  /** Batches are exact: what is left is the remainder of the count. */
  lemma {:induction false} LeftIsRemainder(records: seq<Record>, n: nat)
    requires n <= |records|
    ensures |Left(records, n)| < TOMBSTONE_BATCH
    ensures |Flagged(records, n)| == Filled(records, n) * TOMBSTONE_BATCH + |Left(records, n)|
  {
    if n > 0 {
      LeftIsRemainder(records, n - 1);
    }
  }

  lemma {:induction false} LeftMembers(records: seq<Record>, n: nat, m: nat)
    requires n <= |records| && m in Left(records, n)
    ensures m < n && records[m].flagged
  {
    if m in Left(records, n - 1) {
      LeftMembers(records, n - 1, m);
    }
  }

  lemma FillsIffRank(records: seq<Record>, n: nat)
    requires n < |records| && records[n].flagged
    ensures Fills(records, n) <==> Rank(records, n) % TOMBSTONE_BATCH == 0
  {
    LeftIsRemainder(records, n);
    var q, k := Filled(records, n), |Left(records, n)| + 1;
    assert Rank(records, n) == q * TOMBSTONE_BATCH + k;
  }

  lemma {:induction false} EffectsPrefix(records: seq<Record>, w: World, n: nat, m: nat)
    requires n <= m <= |records|
    ensures Effects(records, w, n) <= Effects(records, w, m)
  {
    if n < m {
      EffectsPrefix(records, w, n, m - 1);
    }
  }

  /** A replay stopped at record `n` did all of the records before it, and not all of it. */
  lemma StoppedShort(records: seq<Record>, w: World, n: nat)
    requires n < |records|
    ensures Effects(records, w, n) <= Stopped(records, w, n) < Effects(records, w, n + 1)
    ensures Stopped(records, w, n) < Effects(records, w, |records|)
  {
    EffectsPrefix(records, w, n + 1, |records|);
  }

  /** Every record is read, every flagged one's stream and every readable document's
      worker are found, and every batch of a thousand tombstones lands, the last one
      however short. */
  ghost predicate Untroubled(records: seq<Record>, w: World) {
    && (forall n :: 0 <= n < |records| ==> w.readable(n))
    && (forall n :: 0 <= n < |records| && records[n].flagged ==> w.streams(n))
    && (forall n :: 0 <= n < |records| && records[n].parses ==> w.routes(n))
    && (forall b: nat :: b * 1000 < |Flagged(records, |records|)| ==> w.lands(b))
  }

  lemma {:induction false} FlaggedGrows(records: seq<Record>, n: nat, m: nat)
    requires n <= m <= |records|
    ensures |Flagged(records, n)| <= |Flagged(records, m)|
  {
    if n < m {
      FlaggedGrows(records, n, m - 1);
    }
  }

  /** Batch `b` is the one some record completes, or it is not complete. */
  lemma {:induction false} CompletedBy(records: seq<Record>, n: nat, b: nat) returns (m: nat)
    requires n <= |records| && b < Filled(records, n)
    ensures m < n && Fills(records, m) && Filled(records, m) == b
  {
    if b < Filled(records, n - 1) {
      m := CompletedBy(records, n - 1, b);
    } else {
      m := n - 1;
    }
  }

  lemma BatchLands(records: seq<Record>, w: World, b: nat)
    requires Smooth(records, w) && b * 1000 < |Flagged(records, |records|)|
    ensures w.lands(b)
  {
    LeftIsRemainder(records, |records|);
    if b < Filled(records, |records|) {
      var m := CompletedBy(records, |records|, b);
      assert GoesThrough(records, w, m);
    }
  }

  lemma BatchIsAsked(records: seq<Record>, n: nat)
    requires n < |records| && Fills(records, n)
    ensures Filled(records, n) * 1000 < |Flagged(records, |records|)|
  {
    LeftIsRemainder(records, n);
    FlaggedGrows(records, n + 1, |records|);
  }

  lemma SmoothIff(records: seq<Record>, w: World)
    ensures Smooth(records, w) <==> Untroubled(records, w)
  {
    if Smooth(records, w) {
      forall n | 0 <= n < |records|
        ensures w.readable(n) && (records[n].flagged ==> w.streams(n)) && (records[n].parses ==> w.routes(n))
      {
        assert GoesThrough(records, w, n);
      }
      forall b: nat | b * 1000 < |Flagged(records, |records|)|
        ensures w.lands(b)
      {
        BatchLands(records, w, b);
      }
    }
    if Untroubled(records, w) {
      forall n | 0 <= n < |records|
        ensures GoesThrough(records, w, n)
      {
        if Fills(records, n) {
          BatchIsAsked(records, n);
          assert w.lands(Filled(records, n));
        }
      }
      LeftIsRemainder(records, |records|);
      assert Left(records, |records|) != [] ==> w.lands(Filled(records, |records|));
    }
  }

  /** One record: put its tombstone by, upsert the batch if that completes it, then
      queue the record again, or confirm it if it is corrupt or its worker is gone. */
  method HandleOne(records: seq<Record>, w: World, n: nat, before: seq<Effect>, left: seq<nat>, filled: nat, seen: nat)
    returns (ok: bool, trace: seq<Effect>, pending: seq<nat>, upserts: nat, observed: nat)
    requires n < |records| && before == Effects(records, w, n)
    requires left == Left(records, n) && filled == Filled(records, n)
    ensures ok <==> GoesThrough(records, w, n)
    ensures trace == if ok then Effects(records, w, n + 1) else Stopped(records, w, n)
    ensures ok ==> pending == Left(records, n + 1) && upserts == Filled(records, n + 1)
    ensures seen <= observed && (ok && records[n].flagged ==> records[n].seqno <= observed)
    ensures observed == seen || (records[n].flagged && observed == records[n].seqno)
  {
    LeftIsRemainder(records, n);
    ok, trace, pending, upserts, observed := false, before, left, filled, seen;
    if !w.readable(n) {
      return;
    }
    if records[n].flagged {
      if !w.streams(n) {
        return;
      }
      pending := pending + [n];
      observed := if observed < records[n].seqno then records[n].seqno else observed;
      if |pending| >= TOMBSTONE_BATCH {
        if !w.lands(upserts) {
          return;
        }
        trace := trace + [Upsert(pending)];
        pending, upserts := [], upserts + 1;
      }
    }
    if !records[n].parses {
      trace := trace + [Confirm(n)];
      return true, trace, pending, upserts, observed;
    }
    if !w.routes(n) {
      return;
    }
    trace := trace + [if w.sends(n) then Enqueue(n) else Confirm(n)];
    ok := true;
  }

  /** Replay the records in log order. It succeeds exactly when nothing fails, and then
      does exactly the whole; otherwise it stops at the first record that does not go
      through, or at the last upsert, having done everything before. */
  method Replay(records: seq<Record>, w: World) returns (r: Outcome, trace: seq<Effect>, observed: nat)
    ensures r.Done? <==> Smooth(records, w)
    ensures r.Done? <==> Untroubled(records, w)
    ensures r.Done? ==> r.count == |records| && trace == Whole(records, w)
    ensures r.Failed? ==>
              || trace == Effects(records, w, |records|)
              || exists n :: StopsAt(records, w, n) && trace == Stopped(records, w, n)
    ensures (exists n :: StopsAt(records, w, n)) ==> trace != Effects(records, w, |records|)
    ensures r.Done? ==> forall n :: 0 <= n < |records| && records[n].flagged ==> records[n].seqno <= observed
    ensures observed == 0 || exists n :: 0 <= n < |records| && records[n].flagged && records[n].seqno == observed
  {
    SmoothIff(records, w);
    trace, observed := [], 0;
    var pending: seq<nat>, upserts, ok := [], 0, true;
    for n := 0 to |records|
      invariant trace == Effects(records, w, n) && pending == Left(records, n) && upserts == Filled(records, n)
      invariant forall m :: 0 <= m < n ==> GoesThrough(records, w, m)
      invariant forall m :: 0 <= m < n && records[m].flagged ==> records[m].seqno <= observed
      invariant observed == 0 || exists m :: 0 <= m < n && records[m].flagged && records[m].seqno == observed
    {
      ok, trace, pending, upserts, observed := HandleOne(records, w, n, trace, pending, upserts, observed);
      if !ok {
        assert StopsAt(records, w, n);
        StoppedShort(records, w, n);
        return Failed, trace, observed;
      }
    }
    if pending != [] {
      if !w.lands(upserts) {
        return Failed, trace, observed;
      }
      trace := trace + [Upsert(pending)];
    }
    return Done(|records|), trace, observed;
  }

  // ---- every tombstone lands ----

  /** The tombstone rows of a trace, in the order they were upserted. */
  function Rows(trace: seq<Effect>): seq<nat> {
    if trace == [] then []
    else
      var last := trace[|trace| - 1];
      Rows(trace[..|trace| - 1]) + if last.Upsert? then last.batch else []
  }

  lemma RowsAdd(trace: seq<Effect>, e: Effect)
    ensures Rows(trace + [e]) == Rows(trace) + if e.Upsert? then e.batch else []
  {
    assert (trace + [e])[..|trace|] == trace;
  }

  lemma {:induction false} RowsSoFar(records: seq<Record>, w: World, n: nat)
    requires n <= |records|
    ensures Rows(Effects(records, w, n)) + Left(records, n) == Flagged(records, n)
  {
    if n > 0 {
      RowsSoFar(records, w, n - 1);
      RowsOfOne(records, w, n - 1);
      LedgerNext(records, n - 1, Rows(Effects(records, w, n - 1)), Rows(Effects(records, w, n)));
    }
  }

  /** What is upserted and what is left, put together, grow by each flagged record. */
  lemma LedgerNext(records: seq<Record>, n: nat, rows: seq<nat>, rows': seq<nat>)
    requires n < |records| && rows + Left(records, n) == Flagged(records, n)
    requires rows' == if Fills(records, n) then rows + (Left(records, n) + [n]) else rows
    ensures rows' + Left(records, n + 1) == Flagged(records, n + 1)
  {
    assert rows + (Left(records, n) + [n]) == Flagged(records, n) + [n];
  }

  lemma RowsOfOne(records: seq<Record>, w: World, n: nat)
    requires n < |records|
    ensures var rows := Rows(Effects(records, w, n));
            Rows(Effects(records, w, n + 1)) == if Fills(records, n) then rows + (Left(records, n) + [n]) else rows
  {
    var before, own := Effects(records, w, n), Own(records, w, n);
    if Fills(records, n) {
      var filled := Upsert(Left(records, n) + [n]);
      RowsAdd(before, filled);
      RowsAdd(before + [filled], own);
    } else {
      RowsAdd(before, own);
      assert before + [] == before;
    }
  }

  /** When replay returns, the tombstone of every flagged record has been upserted:
      each once, in log order, and no others. */
  lemma EveryTombstoneLands(records: seq<Record>, w: World)
    ensures Rows(Whole(records, w)) == Flagged(records, |records|)
    ensures forall n :: n in Rows(Whole(records, w)) <==> 0 <= n < |records| && records[n].flagged
  {
    forall n: nat
      ensures n in Flagged(records, |records|) <==> n < |records| && records[n].flagged
    {
      FlaggedMembers(records, |records|, n);
    }
    var all, left := Effects(records, w, |records|), Left(records, |records|);
    RowsSoFar(records, w, |records|);
    if left == [] {
      assert all + [] == all;
    } else {
      RowsAdd(all, Upsert(left));
    }
  }

  /** What a stopped replay has upserted: every complete batch before the record it
      stopped at, and the one that record completes if it landed. */
  lemma StoppedRows(records: seq<Record>, w: World, n: nat)
    requires n < |records|
    ensures var landed := Fills(records, n) && w.readable(n) && w.streams(n) && w.lands(Filled(records, n));
            if landed then Rows(Stopped(records, w, n)) == Flagged(records, n + 1)
            else Rows(Stopped(records, w, n)) + Left(records, n) == Flagged(records, n)
  {
    RowsSoFar(records, w, n);
    var before := Effects(records, w, n);
    RowsAdd(before, Upsert(Left(records, n) + [n]));
    assert before + [] == before;
    assert Rows(before) + (Left(records, n) + [n]) == Rows(before) + Left(records, n) + [n];
  }

  /** Batches hold a thousand tombstones; only the last may hold fewer, and then it is the
      last thing the replay does. None is empty. */
  ghost predicate FullBatches(trace: seq<Effect>, n: nat) {
    forall i :: 0 <= i < |trace| && trace[i].Upsert? ==>
      |trace[i].batch| == 1000 || (0 < |trace[i].batch| < 1000 && n <= i == |trace| - 1)
  }

  lemma {:induction false} EffectsFull(records: seq<Record>, w: World, n: nat)
    requires n <= |records|
    ensures forall i :: 0 <= i < |Effects(records, w, n)| && Effects(records, w, n)[i].Upsert? ==>
              |Effects(records, w, n)[i].batch| == 1000
  {
    if n > 0 {
      EffectsFull(records, w, n - 1);
    }
  }

  lemma BatchesAreFull(records: seq<Record>, w: World)
    ensures FullBatches(Whole(records, w), |Effects(records, w, |records|)|)
  {
    EffectsFull(records, w, |records|);
    LeftIsRemainder(records, |records|);
  }

  // ---- every record is dealt with once ----

  /** What one more record adds to the count of an effect that is no upsert. */
  lemma CountRecord(records: seq<Record>, w: World, n: nat, e: Effect)
    requires n < |records| && !e.Upsert?
    ensures Count(Effects(records, w, n + 1), e) ==
            Count(Effects(records, w, n), e) + if Own(records, w, n) == e then 1 else 0
  {
    var before, own := Effects(records, w, n), Own(records, w, n);
    if Fills(records, n) {
      var filled := Upsert(Left(records, n) + [n]);
      CountNext(before, filled, e);
      CountNext(before + [filled], own, e);
    } else {
      assert before + [] == before;
      CountNext(before, own, e);
    }
  }

  lemma {:induction false} HandledSoFar(records: seq<Record>, w: World, n: nat, k: nat, e: Effect)
    requires n <= |records| && k < |records| && !e.Upsert? && e.record == k
    ensures Count(Effects(records, w, n), e) == if k < n && Own(records, w, k) == e then 1 else 0
  {
    if n > 0 {
      var m := n - 1;
      CountRecord(records, w, m, e);
      HandledSoFar(records, w, m, k, e);
    }
  }

  /** In a whole replay each record is queued once if its payload parses and its worker
      takes it, and confirmed once, never queued, otherwise. */
  lemma HandledOnce(records: seq<Record>, w: World, k: nat)
    requires k < |records|
    ensures Count(Whole(records, w), Enqueue(k)) == if records[k].parses && w.sends(k) then 1 else 0
    ensures Count(Whole(records, w), Confirm(k)) == if records[k].parses && w.sends(k) then 0 else 1
  {
    var all, left := Effects(records, w, |records|), Left(records, |records|);
    HandledSoFar(records, w, |records|, k, Enqueue(k));
    HandledSoFar(records, w, |records|, k, Confirm(k));
    if left == [] {
      assert all + [] == all;
    } else {
      CountNext(all, Upsert(left), Enqueue(k));
      CountNext(all, Upsert(left), Confirm(k));
    }
  }

  // ---- in what order ----

  /** The tombstone of record `n` is upserted before the record is queued again. */
  ghost predicate TombstoneFirst(trace: seq<Effect>, n: nat) {
    exists i, j :: 0 <= i < j < |trace| && trace[i].Upsert? && n in trace[i].batch && trace[j] == Enqueue(n)
  }

  /** The effects of the first `n` records are about those records only. */
  lemma {:induction false} EffectsAbout(records: seq<Record>, w: World, n: nat, e: Effect)
    requires n <= |records| && e in Effects(records, w, n)
    ensures if e.Upsert? then forall m :: m in e.batch ==> m < n else e.record < n
  {
    if e in Effects(records, w, n - 1) {
      EffectsAbout(records, w, n - 1, e);
    } else if e.Upsert? {
      forall m | m in e.batch
        ensures m < n
      {
        if m != n - 1 {
          LeftMembers(records, n - 1, m);
        }
      }
    }
  }

  /** What comes after the effects of the first `n` records queues none of those. */
  lemma {:induction false} LaterAbout(records: seq<Record>, w: World, n: nat, m: nat, j: nat)
    requires n <= m <= |records| && |Effects(records, w, n)| <= j < |Effects(records, w, m)|
    ensures Effects(records, w, m)[j].Enqueue? ==> n <= Effects(records, w, m)[j].record
  {
    if |Effects(records, w, m - 1)| <= j {
      EffectsPrefix(records, w, n, m - 1);
    } else {
      LaterAbout(records, w, n, m - 1, j);
    }
  }

  /** In a whole replay record `n` is queued in one place: right after the effects of
      the records before it, and the batch it fills if it fills one. */
  lemma QueuedOnce(records: seq<Record>, w: World, n: nat, j: nat)
    requires n < |records| && j < |Whole(records, w)| && Whole(records, w)[j] == Enqueue(n)
    ensures j == |Effects(records, w, n)| + if Fills(records, n) then 1 else 0
  {
    var all := Effects(records, w, |records|);
    EffectsPrefix(records, w, n, n + 1);
    EffectsPrefix(records, w, n + 1, |records|);
    assert all[j] == Enqueue(n);
    if j < |Effects(records, w, n)| {
      assert Effects(records, w, n)[j] in Effects(records, w, n);
      EffectsAbout(records, w, n, Enqueue(n));
    } else if |Effects(records, w, n + 1)| <= j {
      LaterAbout(records, w, n + 1, |records|, j);
    }
  }

  /** A replayed replacement's tombstone is upserted before the record is queued again
      exactly when the record's rank among the flagged ones is a multiple of the batch:
      the others are queued first, their older versions still visible. */
  lemma TombstoneFirstIff(records: seq<Record>, w: World, n: nat)
    requires n < |records| && records[n].flagged && records[n].parses && w.sends(n)
    ensures TombstoneFirst(Whole(records, w), n) <==> Rank(records, n) % TOMBSTONE_BATCH == 0
  {
    var trace, before := Whole(records, w), Effects(records, w, n);
    EffectsPrefix(records, w, n, n + 1);
    EffectsPrefix(records, w, n + 1, |records|);
    FillsIffRank(records, n);
    if Fills(records, n) {
      assert trace[|before|] == Upsert(Left(records, n) + [n]) && trace[|before| + 1] == Enqueue(n);
    } else {
      forall i, j | 0 <= i < j < |trace| && trace[i].Upsert? && trace[j] == Enqueue(n)
        ensures n !in trace[i].batch
      {
        QueuedOnce(records, w, n, j);
        assert before[i] in before;
        EffectsAbout(records, w, n, before[i]);
      }
    }
  }

  /** One flagged record: it is queued, and only then its tombstone upserted. */
  method LateTombstone() returns (trace: seq<Effect>)
    ensures trace == [Enqueue(0), Upsert([0])] && !TombstoneFirst(trace, 0)
  {
    var records := [Record(7, true, true)];
    var w := World(_ => true, _ => true, _ => true, _ => true, _ => true);
    var r, observed;
    r, trace, observed := Replay(records, w);
    assert Left(records, 1) == [0];
    TombstoneFirstIff(records, w, 0);
  }
}
