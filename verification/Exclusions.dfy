/** Resolving tombstones against an immutable split: the cached set of excluded
documents, extended incrementally as newer tombstones arrive. */
module Exclusions {
  import opened Prelude
  import opened TombstoneTable
  import opened TombstoneCache

  /** A document as its segment stores it: its `_id` term and its `_seq` column value. */
  datatype Doc = Doc(id: string, stamp: Option<int>)

  type Segment = seq<Doc>

  predicate HidesDoc(t: Tombstone, d: Doc) {
    t.id == d.id && d.stamp.Some? && d.stamp.value < t.before
  }

  // ---- sorted, duplicate-free doc lists ----

  ghost predicate StrictlySorted(s: seq<nat>) {
    forall i, j :: 0 <= i < j < |s| ==> s[i] < s[j]
  }

  /** Insert into a sorted list unless already there. */
  function InsertSorted(s: seq<nat>, x: nat): (r: seq<nat>)
    requires StrictlySorted(s)
    ensures StrictlySorted(r)
    ensures forall y :: y in r <==> y in s || y == x
  {
    if s == [] then [x]
    else if x < s[0] then [x] + s
    else if x == s[0] then s
    else
      var rest := InsertSorted(s[1..], x);
      assert forall i :: 0 <= i < |rest| ==> rest[i] in rest && s[0] < rest[i];
      [s[0]] + rest
  }

  /** `sort_unstable` then `dedup` of a list merged onto an already sorted one. */
  function MergeSorted(s: seq<nat>, added: seq<nat>): (r: seq<nat>)
    requires StrictlySorted(s)
    ensures StrictlySorted(r)
    ensures forall y :: y in r <==> y in s || y in added
    decreases |added|
  {
    if added == [] then s
    else MergeSorted(InsertSorted(s, added[0]), added[1..])
  }

  function TotalLen(lists: seq<seq<nat>>): nat {
    if lists == [] then 0 else TotalLen(lists[..|lists| - 1]) + |lists[|lists| - 1]|
  }

  // ---- what the set must be ----

  /** Some tombstone of the collection hides document `d` of the segment. */
  ghost predicate HiddenDoc(seg: Segment, applied: set<Tombstone>, d: nat) {
    d < |seg| && exists t :: t in applied && HidesDoc(t, seg[d])
  }

  /** The list is exactly the hidden documents, in order, once each. */
  ghost predicate Exact(list: seq<nat>, seg: Segment, applied: set<Tombstone>) {
    StrictlySorted(list) && forall d: nat :: d in list <==> HiddenDoc(seg, applied, d)
  }

  /** The tombstones past the ordinal already applied. */
  ghost function Pending(ts: seq<Tombstone>, after: nat): set<Tombstone> {
    set t | t in ts && after < t.ord
  }

  /** First index whose ordinal is past `after`, in an ascending list. */
  method PartitionPoint(ts: seq<Tombstone>, after: nat) returns (start: nat)
    requires Ascending(ts)
    ensures start <= |ts|
    ensures forall i :: 0 <= i < |ts| ==> (i < start <==> ts[i].ord <= after)
  {
    start := 0;
    var hi := |ts|;
    while start < hi
      invariant 0 <= start <= hi <= |ts|
      invariant forall i :: 0 <= i < start ==> ts[i].ord <= after
      invariant forall i :: hi <= i < |ts| ==> after < ts[i].ord
    {
      var mid := (start + hi) / 2;
      if ts[mid].ord <= after {
        start := mid + 1;
      } else {
        hi := mid;
      }
    }
  }

  /** The postings of an id in a segment: its documents, ascending. */
  ghost predicate IsPostings(seg: Segment, id: string, docs: seq<nat>) {
    StrictlySorted(docs) && forall d: nat :: d in docs <==> d < |seg| && seg[d].id == id
  }

  method ReadPostings(seg: Segment, id: string) returns (docs: seq<nat>)
    ensures IsPostings(seg, id, docs)
  {
    docs := [];
    for d := 0 to |seg|
      invariant StrictlySorted(docs)
      invariant forall x: nat :: x in docs <==> x < d && seg[x].id == id
    {
      if seg[d].id == id {
        assert forall i :: 0 <= i < |docs| ==> docs[i] in docs;
        docs := docs + [d];
      }
    }
  }

  /** The documents one tombstone hides, walking the postings of its id. */
  method HiddenBy(seg: Segment, t: Tombstone) returns (docs: seq<nat>)
    ensures forall d: nat :: d in docs <==> d < |seg| && HidesDoc(t, seg[d])
    ensures forall d: nat :: d in docs <==>
              d < |seg| && seg[d].id == t.id && seg[d].stamp.Some? && seg[d].stamp.value < t.before
  {
    var postings := ReadPostings(seg, t.id);
    docs := [];
    for i := 0 to |postings|
      invariant forall d: nat :: d in docs <==> d in postings[..i] && d < |seg| && HidesDoc(t, seg[d])
    {
      var doc := postings[i];
      assert doc in postings;
      assert postings[..i + 1] == postings[..i] + [doc];
      if seg[doc].stamp.Some? && seg[doc].stamp.value < t.before {
        docs := docs + [doc];
      }
    }
    assert postings[..|postings|] == postings;
  }

  /** The split's lowest stamp, when it is known, really is a lower bound. */
  ghost predicate MinStamp(seg: Segment, seqMin: Option<int>) {
    forall d :: 0 <= d < |seg| && seqMin.Some? && seg[d].stamp.Some? ==> seqMin.value <= seg[d].stamp.value
  }

  ghost predicate AnyHides(ts: seq<Tombstone>, doc: Doc) {
    exists i :: 0 <= i < |ts| && HidesDoc(ts[i], doc)
  }

  lemma AnyHidesOneMore(ts: seq<Tombstone>, i: nat, doc: Doc)
    requires i < |ts|
    ensures AnyHides(ts[..i + 1], doc) <==> AnyHides(ts[..i], doc) || HidesDoc(ts[i], doc)
  {
    if k :| 0 <= k < i && HidesDoc(ts[..i][k], doc) {
      assert ts[..i + 1][k] == ts[..i][k];
    }
    assert ts[..i + 1][i] == ts[i];
  }

  /** Every document of one segment hidden by a pending tombstone; tombstones at
      or below the split's lowest stamp are skipped without a lookup. */
  method SegmentAdditions(seg: Segment, seqMin: Option<int>, pending: seq<Tombstone>) returns (added: seq<nat>)
    requires MinStamp(seg, seqMin)
    ensures forall d: nat :: d in added <==> d < |seg| && AnyHides(pending, seg[d])
  {
    added := [];
    for i := 0 to |pending|
      invariant forall d: nat :: d in added <==> d < |seg| && AnyHides(pending[..i], seg[d])
    {
      var t := pending[i];
      forall d: nat | d < |seg|
        ensures AnyHides(pending[..i + 1], seg[d]) <==> AnyHides(pending[..i], seg[d]) || HidesDoc(t, seg[d])
      {
        AnyHidesOneMore(pending, i, seg[d]);
      }
      if seqMin.Some? && t.before <= seqMin.value {
        assert forall d :: 0 <= d < |seg| ==> !HidesDoc(t, seg[d]);
      } else {
        var docs := HiddenBy(seg, t);
        added := added + docs;
      }
    }
    assert pending[..|pending|] == pending;
  }

  /** Folding in the additions of the pending tombstones keeps the list exact. */
  lemma ExtendExact(list: seq<nat>, seg: Segment, applied: set<Tombstone>, pending: seq<Tombstone>, added: seq<nat>)
    requires Exact(list, seg, applied)
    requires forall d: nat :: d in added <==> d < |seg| && AnyHides(pending, seg[d])
    ensures Exact(MergeSorted(list, added), seg, applied + (set t | t in pending))
  {
    var all := applied + (set t | t in pending);
    forall d: nat
      ensures HiddenDoc(seg, all, d) <==> HiddenDoc(seg, applied, d) || d in added
    {
      if d < |seg| {
        if t :| t in applied && HidesDoc(t, seg[d]) {
          assert t in all;
        }
        if i :| 0 <= i < |pending| && HidesDoc(pending[i], seg[d]) {
          assert pending[i] in all;
        }
      }
    }
  }

  /** Fold the pending tombstones into every segment's list. */
  method Extended(lists: seq<seq<nat>>, segments: seq<Segment>, seqMin: Option<int>, pending: seq<Tombstone>,
                  ghost applied: set<Tombstone>) returns (next: seq<seq<nat>>, total: nat)
    requires |lists| == |segments|
    requires forall k :: 0 <= k < |segments| ==> MinStamp(segments[k], seqMin) && Exact(lists[k], segments[k], applied)
    ensures |next| == |segments| && total == TotalLen(next)
    ensures forall k :: 0 <= k < |segments| ==> Exact(next[k], segments[k], applied + (set t | t in pending))
  {
    next, total := [], 0;
    for k := 0 to |segments|
      invariant |next| == k && total == TotalLen(next)
      invariant forall i :: 0 <= i < k ==> Exact(next[i], segments[i], applied + (set t | t in pending))
    {
      var added := SegmentAdditions(segments[k], seqMin, pending);
      ExtendExact(lists[k], segments[k], applied, pending, added);
      var docs := if added == [] then lists[k] else MergeSorted(lists[k], added);
      assert (next + [docs])[..k] == next;
      next := next + [docs];
      total := total + |docs|;
    }
  }

  class SplitReader {
    const segments: seq<Segment>
    /** False for a split written before documents carried ids. */
    const hasIds: bool
    const seqMin: Option<int>
    var appliedThrough: nat
    var perSegment: seq<seq<nat>>
    var total: nat
    /** The ordinal the reader was opened at: what it skips hides nothing here. */
    ghost var seed: nat
    /** The tombstones folded in so far. */
    ghost var processed: set<Tombstone>

    ghost predicate Valid()
      reads this
    {
      && |perSegment| == |segments|
      && total == TotalLen(perSegment)
      && (forall k :: 0 <= k < |segments| ==> MinStamp(segments[k], seqMin))
      && (forall k :: 0 <= k < |segments| ==> Exact(perSegment[k], segments[k], if hasIds then processed else {}))
      && (forall t :: t in processed ==> t.ord <= appliedThrough)
      && seed <= appliedThrough
      && (appliedThrough == 0 ==> seed == 0 && processed == {})
    }

    constructor (segments: seq<Segment>, hasIds: bool, seqMin: Option<int>)
      requires forall k :: 0 <= k < |segments| ==> MinStamp(segments[k], seqMin)
      ensures Valid() && this.segments == segments && this.hasIds == hasIds && this.seqMin == seqMin
      ensures appliedThrough == seed == 0 && processed == {}
    {
      this.segments, this.hasIds, this.seqMin := segments, hasIds, seqMin;
      appliedThrough, seed, processed, total := 0, 0, {}, 0;
      perSegment := seq(|segments|, _ => []);
      new;
      EmptyTotal(perSegment);
    }

    /** Start at `through`: only while nothing has been applied yet. */
    method SeedAppliedThrough(through: nat)
      requires Valid()
      modifies this`appliedThrough, this`seed
      ensures Valid()
      ensures appliedThrough == if old(appliedThrough) == 0 && total == 0 then through else old(appliedThrough)
      ensures seed == if old(appliedThrough) == 0 && total == 0 then through else old(seed)
    {
      if appliedThrough == 0 && total == 0 && through > 0 {
        appliedThrough := through;
        seed := through;
      }
    }

    /** Fold the tail of `ts` past the applied ordinal into the set. Whatever the
        caller's list (grown, rebuilt from scratch, or older than the last one),
        the set stays exactly the documents hidden by every tombstone folded in. */
    method ApplyTombstones(ts: seq<Tombstone>)
      requires Valid() && Ascending(ts)
      modifies this
      ensures Valid() && seed == old(seed)
      ensures processed == old(processed) + Pending(ts, old(appliedThrough))
      ensures appliedThrough ==
              if Pending(ts, old(appliedThrough)) == {} then old(appliedThrough) else LastOrd(ts)
    {
      var start := PartitionPoint(ts, appliedThrough);
      var pending := ts[start..];
      PendingIsTail(ts, start, appliedThrough);
      if pending == [] {
        assert Pending(ts, appliedThrough) == {};
        return;
      }
      assert pending[0] in Pending(ts, appliedThrough);
      ghost var applied := processed + (set t | t in pending);
      if hasIds {
        perSegment, total := Extended(perSegment, segments, seqMin, pending, processed);
      }
      processed := applied;
      appliedThrough := pending[|pending| - 1].ord;
    }
  }

  lemma EmptyTotal(lists: seq<seq<nat>>)
    requires forall k :: 0 <= k < |lists| ==> lists[k] == []
    ensures TotalLen(lists) == 0
  {
  }

  lemma PendingIsTail(ts: seq<Tombstone>, start: nat, after: nat)
    requires Ascending(ts) && start <= |ts|
    requires forall i :: 0 <= i < |ts| ==> (i < start <==> ts[i].ord <= after)
    ensures (set t | t in ts[start..]) == Pending(ts, after)
    ensures forall t :: t in ts[start..] ==> t.ord <= LastOrd(ts)
  {
    forall t | t in Pending(ts, after)
      ensures t in ts[start..]
    {
      var i :| 0 <= i < |ts| && ts[i] == t;
      assert ts[start..][i - start] == t;
    }
  }

  // ---- the set against a changing table ----

  /** Every row between the seed and the applied ordinal has been folded in. */
  ghost predicate Tracks(processed: set<Tombstone>, seed: nat, applied: nat, t: Table) {
    applied < t.next &&
    forall id :: id in t.rows && seed < t.rows[id].ord <= applied ==> Entry(t, id) in processed
  }

  /** Rows raised or purged meanwhile do not matter to what was folded in. */
  lemma TracksKept(processed: set<Tombstone>, seed: nat, applied: nat, t: Table, t': Table)
    requires Valid(t) && Tracks(processed, seed, applied, t) && Changed(t, t')
    ensures Tracks(processed, seed, applied, t')
  {
    if SomeUpsert(t, t') {
      var items :| Upserted(t, t', items);
      forall id | id in t'.rows && seed < t'.rows[id].ord <= applied
        ensures Entry(t', id) in processed
      {
        UpsertKeepsOldRows(t, t', items, id);
      }
    }
  }

  /** Applying any list that covers the table up to its own end, however old it
      is, leaves the set tracking the table through the new applied ordinal; a
      list that was fully read leaves no row untracked. */
  lemma ApplyTracks(processed: set<Tombstone>, seed: nat, applied: nat, t: Table, list: seq<Tombstone>)
    requires Tracks(processed, seed, applied, t) && Covers(list, t)
    ensures var through := if Pending(list, applied) == {} then applied else LastOrd(list);
            Tracks(processed + Pending(list, applied), seed, through, t)
    ensures FullyRead(list, t) ==>
              forall id :: id in t.rows && seed < t.rows[id].ord ==> Entry(t, id) in processed + Pending(list, applied)
  {
    var through := if Pending(list, applied) == {} then applied else LastOrd(list);
    forall id | id in t.rows && seed < t.rows[id].ord && (t.rows[id].ord <= through || FullyRead(list, t))
      ensures Entry(t, id) in processed + Pending(list, applied)
    {
      if applied < t.rows[id].ord {
        assert Entry(t, id) in list;
        assert Entry(t, id) in Pending(list, applied);
      }
    }
  }

  // ---- the live count ----

  /** How many of the first `n` documents no applied tombstone hides. */
  ghost function LiveCount(seg: Segment, applied: set<Tombstone>, n: nat): nat
    requires n <= |seg|
  {
    if n == 0 then 0
    else LiveCount(seg, applied, n - 1) + (if HiddenDoc(seg, applied, n - 1) then 0 else 1)
  }

  lemma {:induction false} LivePrefix(list: seq<nat>, seg: Segment, applied: set<Tombstone>, n: nat, k: nat)
    requires Exact(list, seg, applied) && n <= |seg| && k <= |list|
    requires forall i :: 0 <= i < |list| ==> (i < k <==> list[i] < n)
    ensures k + LiveCount(seg, applied, n) == n
  {
    if n == 0 {
    } else if HiddenDoc(seg, applied, n - 1) {
      var i :| 0 <= i < |list| && list[i] == n - 1;
      assert list[k - 1] < n;
      assert i == k - 1;
      LivePrefix(list, seg, applied, n - 1, k - 1);
    } else {
      assert forall i :: 0 <= i < |list| ==> list[i] in list;
      LivePrefix(list, seg, applied, n - 1, k);
    }
  }

  lemma SegmentLive(list: seq<nat>, seg: Segment, applied: set<Tombstone>)
    requires Exact(list, seg, applied)
    ensures |seg| - |list| == LiveCount(seg, applied, |seg|)
  {
    assert forall i :: 0 <= i < |list| ==> list[i] in list && HiddenDoc(seg, applied, list[i]);
    LivePrefix(list, seg, applied, |seg|, |list|);
  }

  function DocCount(segments: seq<Segment>): nat {
    if segments == [] then 0 else DocCount(segments[..|segments| - 1]) + |segments[|segments| - 1]|
  }

  /** How many documents of the split no applied tombstone hides. */
  ghost function TotalLive(segments: seq<Segment>, applied: set<Tombstone>): nat {
    if segments == [] then 0
    else
      var n := |segments| - 1;
      TotalLive(segments[..n], applied) + LiveCount(segments[n], applied, |segments[n]|)
  }

  /** Document count minus set size, over all segments, is the number of documents left visible. */
  lemma {:induction false} DocCountMinusSet(lists: seq<seq<nat>>, segments: seq<Segment>, applied: set<Tombstone>)
    requires |lists| == |segments| && forall k :: 0 <= k < |segments| ==> Exact(lists[k], segments[k], applied)
    ensures DocCount(segments) - TotalLen(lists) == TotalLive(segments, applied)
  {
    if segments != [] {
      var n := |segments| - 1;
      DocCountMinusSet(lists[..n], segments[..n], applied);
      SegmentLive(lists[n], segments[n], applied);
    }
  }
}
