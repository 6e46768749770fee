/** Paging in timestamp order: per-split top-k, the `search_after` clause, splits
skipped as already paged, and the global merge. */
module TimestampPaging {
  import opened Prelude
  import opened Ranking

  /** A matching document: its timestamp, its `_seq` (absent in a legacy split)
      and its address within the split. */
  datatype Doc = Doc(ts: int, stamp: Option<int>, segment: nat, doc: nat)

  /** What the merge orders: the sort key, legacy documents as stamp -1, and the
      document's global address. */
  datatype Hit = Hit(ts: int, stamp: int, split: nat, segment: nat, doc: nat)

  datatype Split = Split(hasSeq: bool, timeStart: int, timeEnd: int, docs: seq<Doc>)

  datatype Cursor = Cursor(ts: int, stamp: Option<int>)

  // ---- orders ----

  predicate KeyBefore(desc: bool, ts: int, stamp: int, ts': int, stamp': int) {
    if desc then ts > ts' || (ts == ts' && stamp > stamp')
    else ts < ts' || (ts == ts' && stamp < stamp')
  }

  function AddressOf(h: Hit): Address {
    Address(h.split, h.segment, h.doc)
  }

  /** The merge order: timestamp and stamp in the requested direction, then address ascending. */
  predicate HitBefore(desc: bool, a: Hit, b: Hit) {
    KeyBefore(desc, a.ts, a.stamp, b.ts, b.stamp) ||
    (a.ts == b.ts && a.stamp == b.stamp && AddressOf(a).Before(AddressOf(b)))
  }

  function ResultOrder(desc: bool): Order<Hit> {
    (a: Hit, b: Hit) => HitBefore(desc, a, b)
  }

  /** Newest first or oldest first, then by stamp the same way, then by split, segment
      and document number, always upwards. */
  lemma ResultOrderMeans(desc: bool, a: Hit, b: Hit)
    ensures a.ts < b.ts ==> (HitBefore(desc, a, b) <==> !desc) && (HitBefore(desc, b, a) <==> desc)
    ensures a.ts == b.ts && a.stamp < b.stamp ==>
              (HitBefore(desc, a, b) <==> !desc) && (HitBefore(desc, b, a) <==> desc)
    ensures a.ts == b.ts && a.stamp == b.stamp ==>
              (HitBefore(desc, a, b) <==>
                 a.split < b.split || (a.split == b.split &&
                   (a.segment < b.segment || (a.segment == b.segment && a.doc < b.doc))))
  {
  }

  lemma ResultOrderTotal(desc: bool, s: set<Hit>)
    ensures Total(ResultOrder(desc), s)
  {
  }

  function SaturatingNeg(x: int): int {
    if x == I64_MIN then I64_MAX else -x
  }

  /** The collector's key: greatest first, so ascending order negates both legs. */
  function CollectorKey(desc: bool, ts: int, stamp: int): (int, int) {
    if desc then (ts, stamp) else (SaturatingNeg(ts), SaturatingNeg(stamp))
  }

  /** The collector ranks by greatest key, ties by ascending address. */
  predicate CollectorBefore(desc: bool, a: Hit, b: Hit) {
    var ka, kb := CollectorKey(desc, a.ts, a.stamp), CollectorKey(desc, b.ts, b.stamp);
    ka.0 > kb.0 || (ka.0 == kb.0 && ka.1 > kb.1) || (ka == kb && AddressOf(a).Before(AddressOf(b)))
  }

  predicate InRange(h: Hit) {
    I64_MIN < h.ts <= I64_MAX && -1 <= h.stamp <= I64_MAX
  }

  /** The values the key stands for. */
  function KeyValues(desc: bool, k: (int, int)): (int, int) {
    if desc then k else (SaturatingNeg(k.0), SaturatingNeg(k.1))
  }

  /** The key gives the values back exactly if no negated one is the least integer. */
  lemma KeyRestoredIff(desc: bool, ts: int, stamp: int)
    requires IsI64(ts) && IsI64(stamp)
    ensures KeyValues(desc, CollectorKey(desc, ts, stamp)) == (ts, stamp) <==>
            desc || (ts != I64_MIN && stamp != I64_MIN)
  {
  }

  /** Truncating a split by the collector's key is truncating it in merge order,
      and un-negating the key gives the hit back. */
  lemma CollectorMatchesMerge(desc: bool, a: Hit, b: Hit)
    requires InRange(a) && InRange(b)
    ensures CollectorBefore(desc, a, b) <==> HitBefore(desc, a, b)
    ensures KeyValues(desc, CollectorKey(desc, a.ts, a.stamp)) == (a.ts, a.stamp)
  {
  }

  // ---- the cursor ----

  function StampOf(d: Doc): int {
    if d.stamp.Some? then d.stamp.value else -1
  }

  /** Strictly past the cursor in (timestamp, stamp) order; a bare timestamp
      cursor means strictly past the timestamp. */
  predicate PastCursor(desc: bool, c: Cursor, ts: int, stamp: int) {
    if c.stamp.None? then (if desc then ts < c.ts else ts > c.ts)
    else KeyBefore(desc, c.ts, c.stamp.value, ts, stamp)
  }

  /** The range clause a split adds to its page query, built for its own schema. */
  predicate CursorClause(hasSeq: bool, desc: bool, c: Cursor, d: Doc) {
    var pastTs := if desc then d.ts < c.ts else c.ts < d.ts;
    if c.stamp.None? then pastTs
    else if hasSeq then
      var pastSeq := d.stamp.Some? && (if desc then d.stamp.value < c.stamp.value else c.stamp.value < d.stamp.value);
      pastTs || (d.ts == c.ts && pastSeq)
    else if desc && c.stamp.value >= 0 then d.ts <= c.ts
    else pastTs
  }

  /** Documents carry a stamp exactly when their split's schema does. */
  predicate DocOk(hasSeq: bool, d: Doc) {
    d.stamp.Some? <==> hasSeq
  }

  /** The clause admits exactly what lies strictly past the cursor, for all the
      documents of a split, exactly when the cursor's stamp is one a hit can
      report (at least -1), or the order is descending, or the split has stamps. */
  lemma ClauseExactIff(hasSeq: bool, desc: bool, c: Cursor)
    ensures (forall d :: DocOk(hasSeq, d) ==>
               (CursorClause(hasSeq, desc, c, d) <==> PastCursor(desc, c, d.ts, StampOf(d))))
            <==> hasSeq || desc || c.stamp.None? || -1 <= c.stamp.value
  {
    if !hasSeq && !desc && c.stamp.Some? && c.stamp.value < -1 {
      var d := Doc(c.ts, None, 0, 0);
      assert DocOk(hasSeq, d) && !CursorClause(hasSeq, desc, c, d) && PastCursor(desc, c, d.ts, StampOf(d));
    }
  }

  // ---- one split ----

  function HitOf(split: nat, d: Doc): Hit {
    Hit(d.ts, StampOf(d), split, d.segment, d.doc)
  }

  /** Timestamps are milliseconds of a nanosecond date, so never the least integer. */
  ghost predicate SplitOk(s: Split) {
    && (forall i :: 0 <= i < |s.docs| ==> InRange(HitOf(0, s.docs[i])))
    && (forall i :: 0 <= i < |s.docs| ==> DocOk(s.hasSeq, s.docs[i]) && s.timeStart <= s.docs[i].ts <= s.timeEnd)
    && (forall i, j :: 0 <= i < j < |s.docs| ==>
          s.docs[i].segment != s.docs[j].segment || s.docs[i].doc != s.docs[j].doc)
  }

  ghost predicate CursorOk(c: Option<Cursor>) {
    c.Some? && c.value.stamp.Some? ==> -1 <= c.value.stamp.value
  }

  predicate Admits(desc: bool, c: Option<Cursor>, ts: int, stamp: int) {
    c.None? || PastCursor(desc, c.value, ts, stamp)
  }

  /** The hits of one split that belong to the page's universe. */
  ghost function SplitHits(desc: bool, c: Option<Cursor>, split: nat, s: Split): set<Hit> {
    set i | 0 <= i < |s.docs| && Admits(desc, c, s.docs[i].ts, StampOf(s.docs[i])) :: HitOf(split, s.docs[i])
  }

  /** The hit names the document: its address, its timestamp, and its stamp or -1. */
  ghost predicate Names(h: Hit, split: nat, d: Doc) {
    && h.split == split && h.segment == d.segment && h.doc == d.doc && h.ts == d.ts
    && h.stamp == match d.stamp case Some(stamp) => stamp case None => -1
  }

  /** A split's hits name its own documents, each that the cursor admits and no others. */
  lemma HitsNameDocs(desc: bool, c: Option<Cursor>, split: nat, s: Split)
    ensures forall h :: h in SplitHits(desc, c, split, s) ==>
              exists i :: 0 <= i < |s.docs| && Names(h, split, s.docs[i]) && Admits(desc, c, h.ts, h.stamp)
    ensures forall i, h :: 0 <= i < |s.docs| && Names(h, split, s.docs[i]) && Admits(desc, c, h.ts, h.stamp) ==>
              h in SplitHits(desc, c, split, s)
  {
    forall h | h in SplitHits(desc, c, split, s)
      ensures exists i :: 0 <= i < |s.docs| && Names(h, split, s.docs[i]) && Admits(desc, c, h.ts, h.stamp)
    {
      var i :| 0 <= i < |s.docs| && Admits(desc, c, s.docs[i].ts, StampOf(s.docs[i])) && h == HitOf(split, s.docs[i]);
      assert Names(h, split, s.docs[i]);
    }
  }

  /** What the cursor admits, said out: everything without one; else what comes strictly
      later in the requested direction, equal timestamps told apart by the stamp if the
      cursor has one. */
  lemma AdmitsMeans(desc: bool, c: Option<Cursor>, ts: int, stamp: int)
    ensures c.None? ==> Admits(desc, c, ts, stamp)
    ensures c.Some? && desc ==> (Admits(desc, c, ts, stamp) <==>
              || ts < c.value.ts
              || (ts == c.value.ts && c.value.stamp.Some? && stamp < c.value.stamp.value))
    ensures c.Some? && !desc ==> (Admits(desc, c, ts, stamp) <==>
              || ts > c.value.ts
              || (ts == c.value.ts && c.value.stamp.Some? && stamp > c.value.stamp.value))
  {
  }

  /** A split wholly on the already-paged side is skipped. */
  predicate OutsideCursor(desc: bool, c: Option<Cursor>, s: Split) {
    c.Some? && (if desc then s.timeStart > c.value.ts else s.timeEnd < c.value.ts)
  }

  lemma OutsideHasNoHits(desc: bool, c: Option<Cursor>, split: nat, s: Split)
    requires SplitOk(s) && OutsideCursor(desc, c, s)
    ensures SplitHits(desc, c, split, s) == {}
  {
  }

  /** Filter one split's documents through its own cursor clause. */
  method CollectSplit(desc: bool, c: Option<Cursor>, split: nat, s: Split) returns (hits: seq<Hit>)
    requires SplitOk(s) && CursorOk(c)
    ensures NoRepeats(hits) && Elems(hits) == SplitHits(desc, c, split, s)
  {
    hits := [];
    if c.Some? {
      ClauseExactIff(s.hasSeq, desc, c.value);
    }
    for i := 0 to |s.docs|
      invariant NoRepeats(hits)
      invariant forall h :: h in hits <==>
                  exists k :: && 0 <= k < i && Admits(desc, c, s.docs[k].ts, StampOf(s.docs[k]))
                              && h == HitOf(split, s.docs[k])
    {
      var d := s.docs[i];
      if c.None? || CursorClause(s.hasSeq, desc, c.value, d) {
        assert HitOf(split, d) !in hits;
        hits := hits + [HitOf(split, d)];
      }
    }
  }

  function CollectorOrder(desc: bool): Order<Hit> {
    (a: Hit, b: Hit) => CollectorBefore(desc, a, b)
  }

  lemma CollectorOrderTotal(desc: bool, s: set<Hit>)
    requires forall h :: h in s ==> InRange(h)
    ensures Total(CollectorOrder(desc), s)
  {
    forall x, y, z | x in s && y in s && z in s
      ensures !CollectorBefore(desc, x, x) && (x != y ==> CollectorBefore(desc, x, y) || CollectorBefore(desc, y, x))
      ensures CollectorBefore(desc, x, y) && CollectorBefore(desc, y, z) ==> CollectorBefore(desc, x, z)
    {
      CollectorMatchesMerge(desc, x, y);
      CollectorMatchesMerge(desc, y, x);
      CollectorMatchesMerge(desc, y, z);
      CollectorMatchesMerge(desc, x, z);
      CollectorMatchesMerge(desc, x, x);
    }
  }

  /** The hit made of a collected key and address. */
  function Restored(desc: bool, h: Hit): Hit {
    var (ts, stamp) := KeyValues(desc, CollectorKey(desc, h.ts, h.stamp));
    Hit(ts, stamp, h.split, h.segment, h.doc)
  }

  /** What the collector kept, its keys turned back into values, is the first hits in
      merge order. */
  lemma CollectedTop(desc: bool, s: set<Hit>, limit: nat, collected: seq<Hit>, top: seq<Hit>)
    requires (forall h :: h in s ==> InRange(h)) && IsTop(CollectorOrder(desc), s, limit, collected)
    requires |top| == |collected| && forall i :: 0 <= i < |top| ==> top[i] == Restored(desc, collected[i])
    ensures IsTop(ResultOrder(desc), s, limit, top)
  {
    var restore := (h: Hit) => Restored(desc, h);
    forall x, y | x in s && y in s
      ensures restore(x) == x && (CollectorBefore(desc, x, y) ==> HitBefore(desc, restore(x), restore(y)))
    {
      CollectorMatchesMerge(desc, x, y);
      CollectorMatchesMerge(desc, y, x);
    }
    CollectorOrderTotal(desc, s);
    ResultOrderTotal(desc, s);
    TopMapped(CollectorOrder(desc), s, limit, collected, ResultOrder(desc), s, restore, top);
  }

  /** One split's page candidates: its first `limit` hits in merge order. */
  method SearchSplit(desc: bool, c: Option<Cursor>, split: nat, s: Split, limit: nat) returns (top: seq<Hit>)
    requires SplitOk(s) && CursorOk(c)
    ensures IsTop(ResultOrder(desc), SplitHits(desc, c, split, s), limit, top)
  {
    if OutsideCursor(desc, c, s) {
      OutsideHasNoHits(desc, c, split, s);
      return [];
    }
    var hits := CollectSplit(desc, c, split, s);
    CollectorOrderTotal(desc, Elems(hits));
    var collected := TakeTop(CollectorOrder(desc), hits, limit);
    top := seq(|collected|, i requires 0 <= i < |collected| => Restored(desc, collected[i]));
    CollectedTop(desc, Elems(hits), limit, collected, top);
  }

  // ---- the search ----

  ghost function PartsOf(desc: bool, c: Option<Cursor>, splits: seq<Split>): seq<set<Hit>> {
    seq(|splits|, p requires 0 <= p < |splits| => SplitHits(desc, c, p, splits[p]))
  }

  /** Every matching hit past the cursor, over all splits. */
  ghost function Universe(desc: bool, c: Option<Cursor>, splits: seq<Split>): set<Hit> {
    Union(PartsOf(desc, c, splits))
  }

  /** Every split's candidates. */
  method SearchSplits(desc: bool, c: Option<Cursor>, splits: seq<Split>, limit: nat) returns (tops: seq<seq<Hit>>)
    requires (forall p :: 0 <= p < |splits| ==> SplitOk(splits[p])) && CursorOk(c)
    ensures Truncated(ResultOrder(desc), PartsOf(desc, c, splits), limit, tops)
  {
    tops := [];
    for p := 0 to |splits|
      invariant |tops| == p
      invariant forall q :: 0 <= q < p ==> IsTop(ResultOrder(desc), SplitHits(desc, c, q, splits[q]), limit, tops[q])
    {
      var top := SearchSplit(desc, c, p, splits[p], limit);
      tops := tops + [top];
    }
  }

  lemma SplitsDisjoint(desc: bool, c: Option<Cursor>, splits: seq<Split>)
    ensures Disjoint(PartsOf(desc, c, splits))
  {
    var parts := PartsOf(desc, c, splits);
    forall p, q | 0 <= p < q < |parts|
      ensures parts[p] !! parts[q]
    {
      assert forall h: Hit :: h in parts[p] ==> h.split == p;
      assert forall h: Hit :: h in parts[q] ==> h.split == q;
    }
  }

  /** The search: `from`/`size` slice the whole sorted result past the cursor. */
  method Search(desc: bool, c: Option<Cursor>, splits: seq<Split>, from: nat, size: nat) returns (page: seq<Hit>)
    requires (forall p :: 0 <= p < |splits| ==> SplitOk(splits[p])) && CursorOk(c)
    ensures IsPage(ResultOrder(desc), Universe(desc, c, splits), from, size, page)
  {
    var limit := if from + size == 0 then 1 else from + size;
    var tops := SearchSplits(desc, c, splits, limit);
    ResultOrderTotal(desc, Universe(desc, c, splits));
    SplitsDisjoint(desc, c, splits);
    page := MergePage(ResultOrder(desc), tops, limit, PartsOf(desc, c, splits), from, size);
  }

  // ---- paging sessions ----

  /** The cursor a client builds from a hit's reported sort values. */
  function CursorOf(h: Hit): Cursor {
    Cursor(h.ts, Some(h.stamp))
  }

  /** No two hits share a (timestamp, stamp) key. */
  ghost predicate UniqueKeys(s: set<Hit>) {
    forall a, b :: a in s && b in s && a.ts == b.ts && a.stamp == b.stamp ==> a == b
  }

  lemma UniverseMembers(desc: bool, c: Option<Cursor>, splits: seq<Split>, h: Hit)
    ensures h in Universe(desc, c, splits) <==>
            h in Universe(desc, None, splits) && Admits(desc, c, h.ts, h.stamp)
  {
    var parts, all := PartsOf(desc, c, splits), PartsOf(desc, None, splits);
    if h in Universe(desc, c, splits) {
      var p :| 0 <= p < |parts| && h in parts[p];
      assert h in all[p];
    }
    if h in Universe(desc, None, splits) && Admits(desc, c, h.ts, h.stamp) {
      var p :| 0 <= p < |all| && h in all[p];
      assert h in parts[p];
    }
  }

  /** Resuming from a hit's reported key resumes exactly after the hit. */
  lemma ResumeIsAfter(desc: bool, splits: seq<Split>, h: Hit)
    requires h in Universe(desc, None, splits) && UniqueKeys(Universe(desc, None, splits))
    ensures Universe(desc, Some(CursorOf(h)), splits) == After(ResultOrder(desc), Universe(desc, None, splits), h)
  {
    forall x
      ensures x in Universe(desc, Some(CursorOf(h)), splits) <==>
              x in After(ResultOrder(desc), Universe(desc, None, splits), h)
    {
      UniverseMembers(desc, Some(CursorOf(h)), splits, x);
      if x in Universe(desc, None, splits) && x.ts == h.ts && x.stamp == h.stamp {
        assert x == h;
      }
    }
  }

  /** The cursor page `n` is requested with. */
  ghost function PageCursor(pages: seq<seq<Hit>>, n: nat): Option<Cursor>
    requires n <= |pages|
  {
    if n == 0 || pages[n - 1] == [] then None else Some(CursorOf(pages[n - 1][|pages[n - 1]| - 1]))
  }

  ghost predicate Paged(desc: bool, splits: seq<Split>, k: nat, pages: seq<seq<Hit>>, n: nat)
    requires n < |pages|
  {
    IsTop(ResultOrder(desc), Universe(desc, PageCursor(pages, n), splits), k, pages[n])
  }

  lemma {:induction false} PagedIsSession(desc: bool, splits: seq<Split>, k: nat, pages: seq<seq<Hit>>, n: nat)
    requires UniqueKeys(Universe(desc, None, splits)) && n < |pages|
    requires forall i :: 0 <= i < |pages| ==> Paged(desc, splits, k, pages, i)
    ensures PageOk(ResultOrder(desc), Universe(desc, None, splits), k, pages, n)
    ensures forall i :: 0 <= i < |pages[n]| ==> pages[n][i] in Universe(desc, None, splits)
  {
    assert Paged(desc, splits, k, pages, n);
    if n > 0 && pages[n - 1] != [] {
      PagedIsSession(desc, splits, k, pages, n - 1);
      ResumeIsAfter(desc, splits, pages[n - 1][|pages[n - 1]| - 1]);
    }
  }

  /** Successive `search_after` pages, followed to a short page, concatenate to the
      whole result in order: every hit once, none skipped, in either direction. */
  lemma PagingVisitsEverything(desc: bool, splits: seq<Split>, k: nat, pages: seq<seq<Hit>>)
    requires UniqueKeys(Universe(desc, None, splits))
    requires forall n :: 0 <= n < |pages| ==> Paged(desc, splits, k, pages, n)
    requires forall n :: 0 <= n < |pages| - 1 ==> pages[n] != []
    requires pages != [] && |pages[|pages| - 1]| < k
    ensures IsTop(ResultOrder(desc), Universe(desc, None, splits), |Universe(desc, None, splits)|, Joined(pages))
    ensures Elems(Joined(pages)) == Universe(desc, None, splits)
  {
    forall n | 0 <= n < |pages|
      ensures PageOk(ResultOrder(desc), Universe(desc, None, splits), k, pages, n)
    {
      PagedIsSession(desc, splits, k, pages, n);
    }
    ResultOrderTotal(desc, Universe(desc, None, splits));
    SessionComplete(ResultOrder(desc), Universe(desc, None, splits), k, pages);
  }

  // ---- said over documents ----

  /** The universe of a search is every document of every split that the cursor admits. */
  lemma UniverseMeans(desc: bool, c: Option<Cursor>, splits: seq<Split>, h: Hit)
    ensures h in Universe(desc, c, splits) <==>
            exists p, i :: && 0 <= p < |splits| && 0 <= i < |splits[p].docs| && Names(h, p, splits[p].docs[i])
                           && Admits(desc, c, h.ts, h.stamp)
  {
    var parts := PartsOf(desc, c, splits);
    forall p | 0 <= p < |splits|
      ensures h in parts[p] <==>
              exists i :: && 0 <= i < |splits[p].docs| && Names(h, p, splits[p].docs[i])
                          && Admits(desc, c, h.ts, h.stamp)
    {
      HitsNameDocs(desc, c, p, splits[p]);
    }
    assert h in Universe(desc, c, splits) <==> exists p :: 0 <= p < |parts| && h in parts[p];
  }

  lemma ExampleOk()
    ensures SplitOk(Split(false, 10, 10, [Doc(10, None, 0, 7)]))
    ensures SplitOk(Split(true, 0, I64_MAX, [Doc(I64_MAX, Some(I64_MAX), 3, 5), Doc(0, Some(0), 3, 6)]))
    ensures SplitOk(Split(true, 0, I64_MAX, [Doc(I64_MAX, Some(I64_MAX), 3, 5)]))
  {
  }

  lemma ExampleHits(desc: bool, splits: seq<Split>)
    requires splits == [Split(false, 10, 10, [Doc(10, None, 0, 7)]),
                        Split(true, 0, I64_MAX, [Doc(I64_MAX, Some(I64_MAX), 3, 5)])]
    ensures forall h :: h in Universe(desc, None, splits) <==>
              h == Hit(I64_MAX, I64_MAX, 1, 3, 5) || h == Hit(10, -1, 0, 0, 7)
  {
    var newer, older := Hit(I64_MAX, I64_MAX, 1, 3, 5), Hit(10, -1, 0, 0, 7);
    assert Names(older, 0, splits[0].docs[0]) && Names(newer, 1, splits[1].docs[0]);
    forall h: Hit
      ensures h in Universe(desc, None, splits) <==> h == newer || h == older
    {
      UniverseMeans(desc, None, splits, h);
    }
  }

  /** Two documents, one of them in a split from before stamps, and the extremes a column
      can hold: newest first they come in this order, oldest first in the other. */
  method SearchExample(desc: bool) returns (page: seq<Hit>)
    ensures var newer, older := Hit(I64_MAX, I64_MAX, 1, 3, 5), Hit(10, -1, 0, 0, 7);
            page == if desc then [newer, older] else [older, newer]
  {
    var splits := [Split(false, 10, 10, [Doc(10, None, 0, 7)]),
                   Split(true, 0, I64_MAX, [Doc(I64_MAX, Some(I64_MAX), 3, 5)])];
    ExampleOk();
    page := Search(desc, None, splits, 0, 2);
    ghost var newer, older := Hit(I64_MAX, I64_MAX, 1, 3, 5), Hit(10, -1, 0, 0, 7);
    ExampleHits(desc, splits);
    ResultOrderMeans(desc, older, newer);
    TwoInOrder(ResultOrder(desc), Universe(desc, None, splits), if desc then newer else older,
               if desc then older else newer, page);
  }
}
