/** The flush loop: a worker's batch is retried until published, with documents of
a deleted or re-created index dropped, and every record confirmed in the log. */
module Flush {
  import opened Counting

  /** A buffered document: its record's own identity and the stream row it was accepted against. */
  datatype Item = Item(record: nat, streamId: nat)

  datatype Resolved = Live(id: nat) | Deleted | Unknown

  datatype Attempt = Published | NothingIndexable | Failed

  /** What one attempt meets: the stream lookup, then the build-upload-publish. */
  datatype Round = Round(resolved: Resolved, attempt: Attempt)

  datatype Ending = IndexDeleted | Emptied | SplitPublished | Skipped | Retrying

  function Stale(batch: seq<Item>, target: nat): seq<Item> {
    if batch == [] then []
    else
      var last := batch[|batch| - 1];
      Stale(batch[..|batch| - 1], target) + if last.streamId != target then [last] else []
  }

  function Kept(batch: seq<Item>, target: nat): seq<Item> {
    if batch == [] then []
    else Kept(batch[..|batch| - 1], target) + if batch[|batch| - 1].streamId == target then [batch[|batch| - 1]] else []
  }

  /** Stale and kept items partition the batch by stream row. */
  lemma {:induction false} SplitCount(batch: seq<Item>, target: nat, x: Item)
    ensures Count(Stale(batch, target), x) == if x.streamId != target then Count(batch, x) else 0
    ensures Count(Kept(batch, target), x) == if x.streamId == target then Count(batch, x) else 0
  {
    if batch != [] {
      var n := |batch| - 1;
      SplitCount(batch[..n], target, x);
      var last := batch[n];
      CountAppend(Stale(batch[..n], target), if last.streamId != target then [last] else [], x);
      CountAppend(Kept(batch[..n], target), if last.streamId == target then [last] else [], x);
      assert [last][..0] == [];
    }
  }

  /** The row the worker is bound to after the lookups of the first `k` rounds. */
  function Target(start: nat, rounds: seq<Round>, k: nat): nat
    requires k <= |rounds|
  {
    if k == 0 then start
    else match rounds[k - 1].resolved
      case Live(id) => id
      case _ => Target(start, rounds, k - 1)
  }

  /** In the first `k` rounds the worker was bound to another row than the item's: some
      lookup found the index under that row, or the worker started there and the first
      lookup did not find the index under any. A lookup that fails binds it to nothing new. */
  ghost predicate Outdated(x: Item, start: nat, rounds: seq<Round>, k: nat)
    requires k <= |rounds|
  {
    || (exists j :: 0 <= j < k && rounds[j].resolved.Live? && rounds[j].resolved.id != x.streamId)
    || (0 < k && !rounds[0].resolved.Live? && x.streamId != start)
  }

  /** One item's copies: given up or still held, and given up exactly if outdated. */
  ghost predicate Accounted(all: seq<Item>, batch: seq<Item>, dropped: seq<Item>, outdated: bool, x: Item) {
    && Count(dropped, x) == (if outdated then Count(all, x) else 0)
    && Count(batch, x) == if outdated then 0 else Count(all, x)
  }

  ghost predicate Progress(all: seq<Item>, batch: seq<Item>, dropped: seq<Item>, start: nat, rounds: seq<Round>, k: nat)
    requires k <= |rounds|
  {
    forall x :: Accounted(all, batch, dropped, Outdated(x, start, rounds, k), x)
  }

  lemma OutdatedNext(x: Item, start: nat, rounds: seq<Round>, k: nat)
    requires k < |rounds|
    ensures Outdated(x, start, rounds, k + 1) <==>
            Outdated(x, start, rounds, k) || x.streamId != Target(start, rounds, k + 1)
  {
    if 0 < k && !Outdated(x, start, rounds, k) {
      BoundToOwn(x, start, rounds, k);
    }
  }

  /** An item never outdated so far is of the row the worker is bound to now. */
  lemma {:induction false} BoundToOwn(x: Item, start: nat, rounds: seq<Round>, k: nat)
    requires 0 < k <= |rounds| && !Outdated(x, start, rounds, k)
    ensures Target(start, rounds, k) == x.streamId
  {
    if !rounds[k - 1].resolved.Live? && 1 < k {
      BoundToOwn(x, start, rounds, k - 1);
    }
  }

  lemma DropStep(all: seq<Item>, batch: seq<Item>, dropped: seq<Item>, start: nat, rounds: seq<Round>, k: nat)
    requires k < |rounds| && Progress(all, batch, dropped, start, rounds, k)
    ensures var t := Target(start, rounds, k + 1);
            Progress(all, Kept(batch, t), dropped + Stale(batch, t), start, rounds, k + 1)
  {
    var next, t := k + 1, Target(start, rounds, k + 1);
    var batch', dropped' := Kept(batch, t), dropped + Stale(batch, t);
    forall x
      ensures Accounted(all, batch', dropped', Outdated(x, start, rounds, next), x)
    {
      assert Accounted(all, batch, dropped, Outdated(x, start, rounds, k), x);
      OutdatedNext(x, start, rounds, k);
      SplitCount(batch, t, x);
      CountAppend(dropped, Stale(batch, t), x);
    }
  }

  lemma {:induction false} KeptAll(batch: seq<Item>, target: nat)
    ensures Stale(batch, target) == [] ==> Kept(batch, target) == batch
  {
    if batch != [] {
      KeptAll(batch[..|batch| - 1], target);
      assert batch == batch[..|batch| - 1] + [batch[|batch| - 1]];
    }
  }

  /** How often one item is confirmed. */
  ghost predicate Confirms(confirms: seq<Item>, dropped: seq<Item>, all: seq<Item>, ending: Ending, x: Item) {
    match ending
    case IndexDeleted => Count(confirms, x) == Count(dropped, x) + Count(all, x)
    case Retrying => Count(confirms, x) == Count(dropped, x)
    case _ => Count(confirms, x) == Count(all, x)
  }

  /** How the flush leaves one item after `k` rounds. */
  ghost predicate Settled(all: seq<Item>, start: nat, rounds: seq<Round>, k: nat, ending: Ending,
                          confirms: seq<Item>, dropped: seq<Item>, published: seq<Item>, x: Item)
    requires k <= |rounds|
  {
    && Confirms(confirms, dropped, all, ending, x)
    && Count(dropped, x) == (if Outdated(x, start, rounds, k) then Count(all, x) else 0)
    && Count(published, x) == (if ending == SplitPublished then Count(all, x) - Count(dropped, x) else 0)
  }

  /** What the log is told, given what the flush ended with. */
  ghost function Told(all: seq<Item>, batch: seq<Item>, dropped: seq<Item>, ending: Ending): seq<Item> {
    match ending
    case IndexDeleted => dropped + all
    case Retrying => dropped
    case _ => dropped + batch
  }

  lemma EndWith(all: seq<Item>, batch: seq<Item>, dropped: seq<Item>, start: nat, rounds: seq<Round>, k: nat,
                ending: Ending)
    requires k <= |rounds| && Progress(all, batch, dropped, start, rounds, k)
    requires ending == Emptied ==> batch == []
    ensures var published := if ending == SplitPublished then batch else [];
            forall x :: Settled(all, start, rounds, k, ending, Told(all, batch, dropped, ending), dropped, published, x)
  {
    var confirms := Told(all, batch, dropped, ending);
    var published := if ending == SplitPublished then batch else [];
    forall x
      ensures Settled(all, start, rounds, k, ending, confirms, dropped, published, x)
    {
      assert Accounted(all, batch, dropped, Outdated(x, start, rounds, k), x);
      CountAppend(dropped, all, x);
      CountAppend(dropped, batch, x);
    }
  }

  // ---- when a flush ends, and how ----

  /** Some item of a non-empty batch is still bound to the worker's row. */
  ghost predicate Held(all: seq<Item>, start: nat, rounds: seq<Round>, j: nat)
    requires j <= |rounds|
  {
    all == [] || exists x :: Count(all, x) > 0 && !Outdated(x, start, rounds, j)
  }

  /** The first `k` rounds all found the index, failed to publish, and left something to publish. */
  ghost predicate KeptTrying(all: seq<Item>, start: nat, rounds: seq<Round>, k: nat)
    requires k <= |rounds|
  {
    forall j :: 0 <= j < k ==>
      !rounds[j].resolved.Deleted? && rounds[j].attempt.Failed? && Held(all, start, rounds, j + 1)
  }

  /** How the flush ended, in terms of what its rounds met. */
  ghost predicate EndedAt(all: seq<Item>, start: nat, rounds: seq<Round>, ending: Ending, k: nat) {
    k <= |rounds| &&
    match ending
    case IndexDeleted => k < |rounds| && KeptTrying(all, start, rounds, k) && rounds[k].resolved.Deleted?
    case Retrying => k == |rounds| && KeptTrying(all, start, rounds, k)
    case _ =>
      && 0 < k && KeptTrying(all, start, rounds, k - 1) && !rounds[k - 1].resolved.Deleted?
      && (ending == Emptied <==> !Held(all, start, rounds, k))
      && (ending == SplitPublished ==> rounds[k - 1].attempt.Published?)
      && (ending == Skipped ==> rounds[k - 1].attempt.NothingIndexable?)
  }

  lemma HeldIff(all: seq<Item>, batch: seq<Item>, dropped: seq<Item>, start: nat, rounds: seq<Round>, k: nat)
    requires k <= |rounds| && Progress(all, batch, dropped, start, rounds, k)
    ensures Held(all, start, rounds, k) <==> all == [] || batch != []
    ensures all == [] ==> batch == []
  {
    if batch != [] {
      var x := batch[|batch| - 1];
      assert Count(batch, x) > 0 && Accounted(all, batch, dropped, Outdated(x, start, rounds, k), x);
    }
    assert forall x :: batch == [] && Count(all, x) > 0 ==>
      Accounted(all, batch, dropped, Outdated(x, start, rounds, k), x);
  }

  lemma HeldAtFirst(all: seq<Item>, start: nat, rounds: seq<Round>)
    ensures Held(all, start, rounds, 0)
  {
    if all != [] {
      assert Count(all, all[|all| - 1]) > 0 && !Outdated(all[|all| - 1], start, rounds, 0);
    }
  }

  /** One round that finds the index: what is given up, and whether anything is left to publish. */
  lemma TryRound(all: seq<Item>, batch: seq<Item>, dropped: seq<Item>, start: nat, rounds: seq<Round>, n: nat)
    requires n < |rounds| && Progress(all, batch, dropped, start, rounds, n) && KeptTrying(all, start, rounds, n)
    ensures var t := Target(start, rounds, n + 1);
            var kept, gone := Kept(batch, t), Stale(batch, t);
            && Progress(all, kept, dropped + gone, start, rounds, n + 1)
            && (gone == [] ==> kept == batch && dropped + gone == dropped)
            && (Held(all, start, rounds, n + 1) <==> gone == [] || kept != [])
  {
    var t := Target(start, rounds, n + 1);
    var kept, gone := Kept(batch, t), Stale(batch, t);
    DropStep(all, batch, dropped, start, rounds, n);
    KeptAll(batch, t);
    HeldIff(all, kept, dropped + gone, start, rounds, n + 1);
    HeldIff(all, batch, dropped, start, rounds, n);
    HeldAtFirst(all, start, rounds);
    assert n > 0 ==> Held(all, start, rounds, n - 1 + 1);
  }

  lemma TriedOnceMore(all: seq<Item>, start: nat, rounds: seq<Round>, n: nat)
    requires n < |rounds| && KeptTrying(all, start, rounds, n) && Held(all, start, rounds, n + 1)
    requires !rounds[n].resolved.Deleted? && rounds[n].attempt.Failed?
    ensures KeptTrying(all, start, rounds, n + 1)
  {
  }

  /** Everything a flush answers for. */
  ghost predicate Flushed(all: seq<Item>, start: nat, rounds: seq<Round>, ending: Ending, confirms: seq<Item>,
                          dropped: seq<Item>, published: seq<Item>, k: nat) {
    EndedAt(all, start, rounds, ending, k) &&
    forall x :: Settled(all, start, rounds, k, ending, confirms, dropped, published, x)
  }

  lemma EndDeleted(all: seq<Item>, batch: seq<Item>, dropped: seq<Item>, start: nat, rounds: seq<Round>, n: nat)
    requires n < |rounds| && Progress(all, batch, dropped, start, rounds, n) && KeptTrying(all, start, rounds, n)
    requires rounds[n].resolved.Deleted?
    ensures Flushed(all, start, rounds, IndexDeleted, dropped + all, dropped, [], n)
  {
    EndWith(all, batch, dropped, start, rounds, n, IndexDeleted);
  }

  lemma EndRetrying(all: seq<Item>, batch: seq<Item>, dropped: seq<Item>, start: nat, rounds: seq<Round>)
    requires Progress(all, batch, dropped, start, rounds, |rounds|) && KeptTrying(all, start, rounds, |rounds|)
    ensures Flushed(all, start, rounds, Retrying, dropped, dropped, [], |rounds|)
  {
    EndWith(all, batch, dropped, start, rounds, |rounds|, Retrying);
  }

  lemma EndEmptied(all: seq<Item>, dropped: seq<Item>, start: nat, rounds: seq<Round>, n: nat)
    requires n < |rounds| && Progress(all, [], dropped, start, rounds, n + 1) && KeptTrying(all, start, rounds, n)
    requires !rounds[n].resolved.Deleted? && !Held(all, start, rounds, n + 1)
    ensures Flushed(all, start, rounds, Emptied, dropped, dropped, [], n + 1)
  {
    EndWith(all, [], dropped, start, rounds, n + 1, Emptied);
    assert dropped + [] == dropped;
  }

  lemma EndAttempted(all: seq<Item>, batch: seq<Item>, dropped: seq<Item>, start: nat, rounds: seq<Round>, n: nat,
                     ending: Ending)
    requires n < |rounds| && Progress(all, batch, dropped, start, rounds, n + 1) && KeptTrying(all, start, rounds, n)
    requires !rounds[n].resolved.Deleted? && Held(all, start, rounds, n + 1)
    requires if ending == SplitPublished then rounds[n].attempt.Published?
             else ending == Skipped && rounds[n].attempt.NothingIndexable?
    ensures Flushed(all, start, rounds, ending, dropped + batch, dropped,
                    if ending == SplitPublished then batch else [], n + 1)
  {
    EndWith(all, batch, dropped, start, rounds, n + 1, ending);
  }

  /** Flush a batch. `confirms` lists every confirmation sent to the log, in order;
      `dropped` is what was given up for a re-created index, after `k` lookups that
      found the index. */
  method Flush(all: seq<Item>, start: nat, rounds: seq<Round>)
    returns (ending: Ending, confirms: seq<Item>, dropped: seq<Item>, published: seq<Item>, k: nat)
    ensures Flushed(all, start, rounds, ending, confirms, dropped, published, k)
  {
    var batch, target := all, start;
    dropped := [];
    for n := 0 to |rounds|
      invariant target == Target(start, rounds, n) && Progress(all, batch, dropped, start, rounds, n)
      invariant KeptTrying(all, start, rounds, n)
    {
      if rounds[n].resolved.Deleted? {
        EndDeleted(all, batch, dropped, start, rounds, n);
        return IndexDeleted, dropped + all, dropped, [], n;
      }
      if rounds[n].resolved.Live? {
        target := rounds[n].resolved.id;
      }
      TryRound(all, batch, dropped, start, rounds, n);
      var stale := Stale(batch, target);
      if stale != [] {
        batch := Kept(batch, target);
        dropped := dropped + stale;
        if batch == [] {
          EndEmptied(all, dropped, start, rounds, n);
          return Emptied, dropped, dropped, [], n + 1;
        }
      }
      match rounds[n].attempt
      case Published =>
        EndAttempted(all, batch, dropped, start, rounds, n, SplitPublished);
        return SplitPublished, dropped + batch, dropped, batch, n + 1;
      case NothingIndexable =>
        EndAttempted(all, batch, dropped, start, rounds, n, Skipped);
        return Skipped, dropped + batch, dropped, [], n + 1;
      case Failed =>
        TriedOnceMore(all, start, rounds, n);
    }
    EndRetrying(all, batch, dropped, start, rounds);
    return Retrying, dropped, dropped, [], |rounds|;
  }

  /** Lookups that fail give nothing up: what is bound to the starting row stays. */
  lemma UnknownKeeps(x: Item, start: nat, rounds: seq<Round>, k: nat)
    requires k <= |rounds| && x.streamId == start && forall j :: 0 <= j < k ==> rounds[j].resolved.Unknown?
    ensures !Outdated(x, start, rounds, k)
  {
  }

  /** One document, one lookup that fails and one build that lands: it is published. */
  method UnknownExample() returns (ending: Ending, published: seq<Item>)
    ensures ending == SplitPublished && Count(published, Item(7, 1)) == 1
  {
    var x, rounds := Item(7, 1), [Round(Unknown, Published)];
    var all := [x];
    var confirms, dropped, k;
    ending, confirms, dropped, published, k := Flush(all, 1, rounds);
    CountOne(x, x);
    UnknownKeeps(x, 1, rounds, k);
    assert Settled(all, 1, rounds, k, ending, confirms, dropped, published, x);
    assert k == 1 ==> Held(all, 1, rounds, 1);
  }

  // ---- how often each record is confirmed ----

  ghost predicate AtMostOnce(s: seq<Item>) {
    forall x :: Count(s, x) <= 1
  }

  /** The index was found deleted at round `k` after failed attempts, when some of the
      batch had been given up for a re-created index and some was still held. */
  ghost predicate DeletedAfterRebind(all: seq<Item>, start: nat, rounds: seq<Round>, k: nat) {
    && k < |rounds| && rounds[k].resolved.Deleted?
    && (forall j :: 0 <= j < k ==> !rounds[j].resolved.Deleted? && rounds[j].attempt.Failed?)
    && (exists x :: Count(all, x) > 0 && Outdated(x, start, rounds, k))
    && (exists x :: Count(all, x) > 0 && !Outdated(x, start, rounds, k))
  }

  lemma HeldBefore(all: seq<Item>, start: nat, rounds: seq<Round>, j: nat, k: nat, x: Item)
    requires j <= k <= |rounds| && Count(all, x) > 0 && !Outdated(x, start, rounds, k)
    ensures Held(all, start, rounds, j)
  {
    assert !Outdated(x, start, rounds, j);
  }

  /** Rounds like that lead the flush to end there, on the deleted index. */
  lemma EndsDeleted(all: seq<Item>, start: nat, rounds: seq<Round>, ending: Ending, k: nat, at: nat)
    requires EndedAt(all, start, rounds, ending, k) && DeletedAfterRebind(all, start, rounds, at)
    ensures ending == IndexDeleted && k == at
  {
    var x :| Count(all, x) > 0 && !Outdated(x, start, rounds, at);
    forall j | 0 <= j <= at
      ensures Held(all, start, rounds, j)
    {
      HeldBefore(all, start, rounds, j, at, x);
    }
  }

  lemma TwiceIff(all: seq<Item>, start: nat, rounds: seq<Round>, k: nat, ending: Ending, confirms: seq<Item>,
                 dropped: seq<Item>, published: seq<Item>)
    requires k <= |rounds| && AtMostOnce(all)
    requires forall x :: Settled(all, start, rounds, k, ending, confirms, dropped, published, x)
    ensures AtMostOnce(confirms) <==>
            !(ending == IndexDeleted && exists x :: Count(all, x) > 0 && Outdated(x, start, rounds, k))
  {
    forall x
      ensures Count(confirms, x) <= 1 <==>
              !(ending == IndexDeleted && Count(all, x) > 0 && Outdated(x, start, rounds, k))
    {
      assert Settled(all, start, rounds, k, ending, confirms, dropped, published, x);
      assert Count(all, x) <= 1;
    }
  }

  /** For a batch without repeats, whatever the flush met: each record is confirmed at
      most once exactly when no round found the index deleted after failed attempts
      with part of the batch already given up and part still held. */
  lemma ConfirmedOnceIff(all: seq<Item>, start: nat, rounds: seq<Round>, k: nat, ending: Ending, confirms: seq<Item>,
                         dropped: seq<Item>, published: seq<Item>)
    requires AtMostOnce(all) && Flushed(all, start, rounds, ending, confirms, dropped, published, k)
    ensures AtMostOnce(confirms) <==> !exists at :: DeletedAfterRebind(all, start, rounds, at)
  {
    TwiceIff(all, start, rounds, k, ending, confirms, dropped, published);
    if at :| DeletedAfterRebind(all, start, rounds, at) {
      EndsDeleted(all, start, rounds, ending, k, at);
    }
    if ending == IndexDeleted && exists x :: Count(all, x) > 0 && Outdated(x, start, rounds, k) {
      var x :| Count(all, x) > 0 && Outdated(x, start, rounds, k);
      assert 0 < k && all != [];
      assert Held(all, start, rounds, k - 1 + 1);
      assert DeletedAfterRebind(all, start, rounds, k);
    }
  }

  /** Every record of the batch is confirmed once the flush has ended. */
  lemma AllConfirmed(all: seq<Item>, start: nat, rounds: seq<Round>, k: nat, ending: Ending, confirms: seq<Item>,
                     dropped: seq<Item>, published: seq<Item>, x: Item)
    requires k <= |rounds| && ending != Retrying
    requires Settled(all, start, rounds, k, ending, confirms, dropped, published, x)
    ensures Count(confirms, x) > 0 <==> Count(all, x) > 0
  {
  }

  /** A re-created index, a failed attempt, then a deletion: record 7 is confirmed twice. */
  method RecreatedThenDeleted() returns (confirms: seq<Item>)
    ensures Count(confirms, Item(7, 1)) == 2
  {
    var all, rounds := [Item(7, 1), Item(8, 2)], [Round(Live(2), Failed), Round(Deleted, Failed)];
    var ending, dropped, published, k;
    ending, confirms, dropped, published, k := Flush(all, 1, rounds);
    assert Target(1, rounds, 1) == 2;
    assert all[..1] == [Item(7, 1)] && all[..1][..0] == [];
    assert Count(all, Item(7, 1)) == 1 && Count(all, Item(8, 2)) == 1;
    assert Outdated(Item(7, 1), 1, rounds, 1) && !Outdated(Item(8, 2), 1, rounds, 1);
    assert DeletedAfterRebind(all, 1, rounds, 1);
    EndsDeleted(all, 1, rounds, ending, k, 1);
    assert Settled(all, 1, rounds, k, ending, confirms, dropped, published, Item(7, 1));
  }
}
