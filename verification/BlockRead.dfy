/** Reading a range of a bundled file through aligned, cached blocks. */
module BlockRead {
  import opened Prelude
  import opened Bytes
  import Bundle

  const FETCH_CHUNK_BYTES: nat := 0x80_0000

  type Content = seq<Byte>

  // ---- blocks ----

  /** Where block `index` starts: `index * bs`. */
  function Place(index: nat, bs: nat): nat {
    if index == 0 then 0 else Place(index - 1, bs) + bs
  }

  lemma {:induction false} PlaceIsProduct(index: nat, bs: nat)
    ensures Place(index, bs) == index * bs
  {
    if index > 0 {
      PlaceIsProduct(index - 1, bs);
    }
  }

  lemma {:induction false} PlaceMonotone(i: nat, j: nat, bs: nat)
    requires i < j
    ensures Place(i, bs) + bs <= Place(j, bs)
  {
    if i + 1 < j {
      PlaceMonotone(i, j - 1, bs);
    }
  }

  lemma {:induction false} PlaceAdds(i: nat, j: nat, bs: nat)
    ensures Place(i + j, bs) == Place(i, bs) + Place(j, bs)
  {
    if j > 0 {
      PlaceAdds(i, j - 1, bs);
    }
  }

  /** The block holding byte `x`. */
  lemma PlaceOfByte(x: nat, bs: nat)
    requires 0 < bs
    ensures Place(x / bs, bs) <= x < Place(x / bs, bs) + bs
  {
    PlaceIsProduct(x / bs, bs);
  }

  /** How many bytes block `index` has: `bs`, or what is left of the file. */
  function BlockLen(len: int, bs: nat, index: nat): int {
    Min(len - Place(index, bs), bs)
  }

  predicate InFile(f: Content, bs: nat, index: nat) {
    Place(index, bs) < |f|
  }

  /** A block of the file: `bs` bytes, the last one short. */
  function BlockOf(f: Content, bs: nat, index: nat): Content
    requires InFile(f, bs, index)
  {
    f[Place(index, bs)..Place(index, bs) + BlockLen(|f|, bs, index)]
  }

  function TotalBlocks(len: nat, bs: nat): nat
    requires 0 < bs
  {
    (len + bs - 1) / bs
  }

  lemma BlocksInFile(len: nat, bs: nat, index: nat)
    requires 0 < bs
    ensures Place(index, bs) < len <==> index < TotalBlocks(len, bs)
  {
    var t := TotalBlocks(len, bs);
    PlaceOfByte(len + bs - 1, bs);
    if index < t {
      PlaceMonotone(index, t, bs);
    } else if t < index {
      PlaceMonotone(t, index, bs);
    }
  }

  lemma SliceOfSlice(f: Content, a: nat, b: nat, x: nat, y: nat)
    requires a <= b <= |f| && x <= y <= b - a
    ensures f[a..b][x..y] == f[a + x..a + y]
  {
    assert forall i :: 0 <= i < y - x ==> f[a..b][x..y][i] == f[a + x..a + y][i];
  }

  lemma SlicesMeet(f: Content, a: nat, b: nat, c: nat)
    requires a <= b <= c <= |f|
    ensures f[a..b] + f[b..c] == f[a..c]
  {
  }

  // ---- the cache ----

  /** Every cached block is the file's own. */
  ghost predicate Coherent(cache: map<nat, Content>, f: Content, bs: nat)
    requires 0 < bs
  {
    forall i :: i in cache ==> InFile(f, bs, i) && cache[i] == BlockOf(f, bs, i)
  }

  // ---- fetching ----

  /** A half-open run of block indices. */
  datatype Run = Run(start: nat, end: nat)

  ghost predicate Covers(runs: seq<Run>, i: nat) {
    exists r :: r in runs && r.start <= i < r.end
  }

  ghost predicate RunsOk(runs: seq<Run>, total: nat) {
    forall r :: r in runs ==> r.start < r.end <= total
  }

  ghost predicate Ascending(indices: seq<nat>, total: nat) {
    && (forall i, j :: 0 <= i < j < |indices| ==> indices[i] < indices[j])
    && (forall i :: 0 <= i < |indices| ==> indices[i] < total)
  }

  /** No two runs touch: contiguous blocks share a run. */
  ghost predicate Apart(runs: seq<Run>) {
    forall i, j :: 0 <= i < j < |runs| ==> runs[i].end < runs[j].start
  }

  /** Contiguous runs of the indices: they cover the indices and nothing else. */
  method BuildRuns(indices: seq<nat>, total: nat) returns (runs: seq<Run>)
    requires Ascending(indices, total)
    ensures RunsOk(runs, total) && Apart(runs) && (runs == [] <==> indices == [])
    ensures forall i: nat :: Covers(runs, i) <==> i in indices
    ensures runs != [] ==> runs[|runs| - 1].end == indices[|indices| - 1] + 1
  {
    runs := [];
    for n := 0 to |indices|
      invariant RunsOk(runs, total) && Apart(runs) && (runs == [] <==> n == 0)
      invariant forall i: nat :: Covers(runs, i) <==> i in indices[..n]
      invariant 0 < n ==> runs[|runs| - 1].end == indices[n - 1] + 1
    {
      var index := indices[n];
      assert indices[..n + 1] == indices[..n] + [index];
      if runs != [] && runs[|runs| - 1].end == index {
        RunGrows(runs, index, total);
        runs := runs[|runs| - 1 := Run(runs[|runs| - 1].start, index + 1)];
      } else {
        RunStarts(runs, index, total);
        runs := runs + [Run(index, index + 1)];
      }
    }
    assert indices[..|indices|] == indices;
  }

  lemma RunGrows(runs: seq<Run>, index: nat, total: nat)
    requires RunsOk(runs, total) && Apart(runs) && runs != [] && runs[|runs| - 1].end == index < total
    ensures var grown := runs[|runs| - 1 := Run(runs[|runs| - 1].start, index + 1)];
            && RunsOk(grown, total) && Apart(grown)
            && forall i: nat :: Covers(grown, i) <==> Covers(runs, i) || i == index
  {
    assert runs[|runs| - 1] in runs;
    GrownRun(runs, index + 1);
  }

  lemma RunStarts(runs: seq<Run>, index: nat, total: nat)
    requires RunsOk(runs, total) && Apart(runs) && (runs == [] || runs[|runs| - 1].end < index) && index < total
    ensures var added := runs + [Run(index, index + 1)];
            && RunsOk(added, total) && Apart(added)
            && forall i: nat :: Covers(added, i) <==> Covers(runs, i) || i == index
  {
    AddedRun(runs, Run(index, index + 1));
    forall i | 0 <= i < |runs|
      ensures runs[i].end < index
    {
      assert runs[|runs| - 1] in runs;
      assert i < |runs| - 1 ==> runs[i].end < runs[|runs| - 1].start;
    }
  }

  /** One more run covers what it spans, and uncovers nothing. */
  lemma AddedRun(runs: seq<Run>, run: Run)
    ensures forall i: nat :: Covers(runs + [run], i) <==> Covers(runs, i) || run.start <= i < run.end
    ensures forall r :: r in runs + [run] <==> r in runs || r == run
  {
    forall i: nat
      ensures Covers(runs + [run], i) <==> Covers(runs, i) || run.start <= i < run.end
    {
      if run.start <= i < run.end {
        assert run in runs + [run];
      } else if Covers(runs, i) {
        var r :| r in runs && r.start <= i < r.end;
        assert r in runs + [run];
      }
    }
  }

  /** Moving the last run's end up to `end` covers the blocks in between. */
  lemma GrownRun(runs: seq<Run>, end: nat)
    requires runs != [] && runs[|runs| - 1].start < runs[|runs| - 1].end <= end
    ensures var last := runs[|runs| - 1];
            var grown := runs[|runs| - 1 := Run(last.start, end)];
            && (forall i: nat :: Covers(grown, i) <==> Covers(runs, i) || last.end <= i < end)
            && (forall r :: r in grown ==> r in runs || r == Run(last.start, end))
  {
    var last, rest := runs[|runs| - 1], runs[..|runs| - 1];
    AddedRun(rest, last);
    AddedRun(rest, Run(last.start, end));
    assert runs == rest + [last];
    assert runs[|runs| - 1 := Run(last.start, end)] == rest + [Run(last.start, end)];
  }

  /** Extend the last run by the read-ahead, up to the end of the file: at most
      `readahead` blocks more. */
  method ReadAhead(runs: seq<Run>, readahead: nat, total: nat) returns (out: seq<Run>)
    requires RunsOk(runs, total)
    ensures RunsOk(out, total) && (runs == [] ==> out == [])
    ensures runs != [] ==> var edge := runs[|runs| - 1].end;
              forall i: nat :: Covers(out, i) <==> Covers(runs, i) || edge <= i < Min(edge + readahead, total)
  {
    out := runs;
    if runs != [] {
      var last := runs[|runs| - 1];
      assert last in runs;
      GrownRun(runs, Min(last.end + readahead, total));
      out := runs[|runs| - 1 := Run(last.start, Min(last.end + readahead, total))];
    }
  }

  /** Cut every run into request-sized chunks, covering the same blocks. */
  method CutRuns(runs: seq<Run>, chunk: nat, total: nat) returns (chunks: seq<Run>)
    requires 0 < chunk && RunsOk(runs, total)
    ensures RunsOk(chunks, total) && forall i: nat :: Covers(chunks, i) <==> Covers(runs, i)
    ensures forall c :: c in chunks ==> c.end - c.start <= chunk
  {
    chunks := [];
    for n := 0 to |runs|
      invariant RunsOk(chunks, total) && forall i: nat :: Covers(chunks, i) <==> Covers(runs[..n], i)
      invariant forall c :: c in chunks ==> c.end - c.start <= chunk
    {
      var run := runs[n];
      assert run in runs;
      ghost var before := chunks;
      var start := run.start;
      while start < run.end
        invariant run.start <= start <= run.end && RunsOk(chunks, total)
        invariant forall c :: c in chunks ==> c.end - c.start <= chunk
        invariant forall i: nat :: Covers(chunks, i) <==> Covers(before, i) || run.start <= i < start
      {
        var c := Run(start, Min(start + chunk, run.end));
        AddedRun(chunks, c);
        chunks := chunks + [c];
        start := c.end;
      }
      AddedRun(runs[..n], run);
      assert runs[..n + 1] == runs[..n] + [run];
    }
    assert runs[..|runs|] == runs;
  }

  /** Storage answers with the object's bytes, possibly short, or fails. */
  type Storage = (nat, nat) -> Option<Content>

  ghost predicate Honest(storage: Storage, obj: Content) {
    forall a, b :: 0 <= a <= b <= |obj| && storage(a, b).Some? ==>
      |storage(a, b).value| <= b - a && storage(a, b).value == obj[a..a + |storage(a, b).value|]
  }

  /** The object holds the file at `offset`. */
  ghost predicate Located(obj: Content, offset: nat, f: Content) {
    offset + |f| <= |obj| && obj[offset..offset + |f|] == f
  }

  /** A non-empty run of blocks the file has. */
  ghost predicate ChunkOk(chunk: Run, len: nat, bs: nat) {
    && chunk.start < chunk.end && Place(chunk.end - 1, bs) < len
    && Place(chunk.start, bs) < Min(Place(chunk.end, bs), len)
  }

  lemma ChunkInFile(chunk: Run, len: nat, bs: nat)
    requires 0 < bs && chunk.start < chunk.end <= TotalBlocks(len, bs)
    ensures ChunkOk(chunk, len, bs)
  {
    BlocksInFile(len, bs, chunk.start);
    BlocksInFile(len, bs, chunk.end - 1);
    PlaceMonotone(chunk.start, chunk.end, bs);
  }

  /** Storage fails the request for a chunk, or answers it with too few bytes. */
  ghost predicate Denied(storage: Storage, offset: nat, len: nat, bs: nat, chunk: Run)
    requires ChunkOk(chunk, len, bs)
  {
    var from, to' := Place(chunk.start, bs), Min(Place(chunk.end, bs), len);
    var answer := storage(offset + from, offset + to');
    answer.None? || |answer.value| < to' - from
  }

  /** One ranged request; a short answer is an error. */
  method FetchChunk(storage: Storage, ghost obj: Content, offset: nat, ghost f: Content, len: nat, bs: nat, chunk: Run)
    returns (data: Option<Content>)
    requires 0 < bs && Honest(storage, obj) && Located(obj, offset, f) && len == |f|
    requires ChunkOk(chunk, len, bs)
    ensures data.None? <==> Denied(storage, offset, len, bs, chunk)
    ensures data.Some? ==> data.value == f[Place(chunk.start, bs)..Min(Place(chunk.end, bs), len)]
  {
    var from, to' := Place(chunk.start, bs), Min(Place(chunk.end, bs), len);
    var answer := storage(offset + from, offset + to');
    if answer.None? || |answer.value| != to' - from {
      return None;
    }
    SliceOfSlice(obj, offset, offset + len, from, to');
    return answer;
  }

  /** Cut a chunk's bytes into blocks. */
  method SplitBlocks(ghost f: Content, bs: nat, chunk: Run, data: Content) returns (blocks: map<nat, Content>)
    requires 0 < bs && ChunkOk(chunk, |f|, bs)
    requires data == f[Place(chunk.start, bs)..Min(Place(chunk.end, bs), |f|)]
    ensures Coherent(blocks, f, bs) && forall i :: i in blocks <==> chunk.start <= i < chunk.end
  {
    blocks := map[];
    var index, off := chunk.start, 0;
    while off < |data|
      invariant chunk.start <= index <= chunk.end && off <= |data|
      invariant off < |data| ==> index < chunk.end && Place(chunk.start, bs) + off == Place(index, bs)
      invariant off == |data| ==> index == chunk.end
      invariant Coherent(blocks, f, bs) && forall i :: i in blocks <==> chunk.start <= i < index
      decreases |data| - off
    {
      var next := Min(off + bs, |data|);
      PieceIsBlock(f, bs, chunk, data, index, off);
      blocks := blocks[index := data[off..next]];
      off, index := next, index + 1;
    }
  }

  lemma PieceIsBlock(f: Content, bs: nat, chunk: Run, data: Content, index: nat, off: nat)
    requires 0 < bs && ChunkOk(chunk, |f|, bs) && chunk.start <= index < chunk.end
    requires data == f[Place(chunk.start, bs)..Min(Place(chunk.end, bs), |f|)]
    requires off < |data| && Place(chunk.start, bs) + off == Place(index, bs)
    ensures InFile(f, bs, index) && data[off..Min(off + bs, |data|)] == BlockOf(f, bs, index)
    ensures off + bs < |data| ==> index + 1 < chunk.end
    ensures off + bs >= |data| ==> index + 1 == chunk.end
  {
    PieceBounds(|f|, bs, chunk, index);
    SliceOfSlice(f, Place(chunk.start, bs), Min(Place(chunk.end, bs), |f|), off, Min(off + bs, |data|));
  }

  lemma PieceBounds(len: nat, bs: nat, chunk: Run, index: nat)
    requires 0 < bs && ChunkOk(chunk, len, bs) && chunk.start <= index < chunk.end
    ensures var stop := Min(Place(chunk.end, bs), len);
            && Place(index, bs) < len
            && Place(index, bs) + BlockLen(len, bs, index) == Min(Place(index, bs) + bs, stop)
            && (Place(index, bs) + bs < stop <==> index + 1 < chunk.end)
  {
    if index + 1 < chunk.end {
      PlaceMonotone(index, chunk.end - 1, bs);
      PlaceMonotone(index + 1, chunk.end, bs);
      if index + 1 < chunk.end - 1 {
        PlaceMonotone(index + 1, chunk.end - 1, bs);
      }
    }
  }

  /** The blocks a fetch asks for: the claimed ones and the read-ahead after the last. */
  ghost predicate Asked(indices: seq<nat>, readahead: nat, total: nat, i: nat) {
    i in indices || (indices != [] && indices[|indices| - 1] < i <= indices[|indices| - 1] + readahead && i < total)
  }

  /** The requests of a fetch: exactly those blocks, each request for one block or for
      at most eight mebibytes. */
  method PlanChunks(indices: seq<nat>, readahead: nat, bs: nat, total: nat) returns (chunks: seq<Run>)
    requires 0 < bs && Ascending(indices, total)
    ensures RunsOk(chunks, total) && forall i: nat :: Covers(chunks, i) <==> Asked(indices, readahead, total, i)
    ensures forall c :: c in chunks ==> c.end == c.start + 1 || Place(c.end, bs) - Place(c.start, bs) <= 8 * 1024 * 1024
  {
    var chunkBlocks := if FETCH_CHUNK_BYTES / bs == 0 then 1 else FETCH_CHUNK_BYTES / bs;
    var runs := BuildRuns(indices, total);
    var extended := ReadAhead(runs, readahead, total);
    chunks := CutRuns(extended, chunkBlocks, total);
    forall c | c in chunks
      ensures c.end == c.start + 1 || Place(c.end, bs) - Place(c.start, bs) <= 8 * 1024 * 1024
    {
      if FETCH_CHUNK_BYTES / bs != 0 {
        ChunkBytes(c, bs);
      }
    }
  }

  lemma ChunkBytes(c: Run, bs: nat)
    requires 0 < bs && c.start < c.end <= c.start + FETCH_CHUNK_BYTES / bs
    ensures Place(c.end, bs) - Place(c.start, bs) <= FETCH_CHUNK_BYTES
  {
    var n, most := c.end - c.start, FETCH_CHUNK_BYTES / bs;
    PlaceAdds(c.start, n, bs);
    if n < most {
      PlaceMonotone(n, most, bs);
    }
    PlaceOfByte(FETCH_CHUNK_BYTES, bs);
  }

  /** Storage denies a request for blocks all of which the fetch asks for. */
  ghost predicate Denies(storage: Storage, offset: nat, len: nat, bs: nat, indices: seq<nat>, readahead: nat)
    requires 0 < bs
  {
    exists c: Run ::
      && ChunkOk(c, len, bs) && Denied(storage, offset, len, bs, c)
      && forall i: nat :: c.start <= i < c.end ==> Asked(indices, readahead, TotalBlocks(len, bs), i)
  }

  /** Fetch the claimed blocks, the last run extended by the read-ahead. What comes
      back, and goes into the cache, is those blocks of the file and no others; only
      a denied request for some of them fails the fetch. */
  method Fetch(storage: Storage, ghost obj: Content, offset: nat, ghost f: Content, len: nat, bs: nat,
               indices: seq<nat>, readahead: nat)
    returns (out: Option<map<nat, Content>>)
    requires 0 < bs && Honest(storage, obj) && Located(obj, offset, f) && len == |f|
    requires indices != [] && Ascending(indices, TotalBlocks(len, bs))
    ensures out.None? ==> Denies(storage, offset, len, bs, indices, readahead)
    ensures out.Some? ==> Coherent(out.value, f, bs)
    ensures out.Some? ==> forall i :: i in out.value <==> Asked(indices, readahead, TotalBlocks(len, bs), i)
  {
    var total := TotalBlocks(len, bs);
    var chunks := PlanChunks(indices, readahead, bs, total);
    out := FetchChunks(storage, obj, offset, f, len, bs, chunks);
    if out.None? {
      ghost var c :| c in chunks && ChunkOk(c, len, bs) && Denied(storage, offset, len, bs, c);
      assert forall i: nat :: c.start <= i < c.end ==> Covers(chunks, i);
    }
  }

  /** Fetch every chunk; the first denied one ends it. */
  method FetchChunks(storage: Storage, ghost obj: Content, offset: nat, ghost f: Content, len: nat, bs: nat,
                     chunks: seq<Run>)
    returns (out: Option<map<nat, Content>>)
    requires 0 < bs && Honest(storage, obj) && Located(obj, offset, f) && len == |f|
    requires RunsOk(chunks, TotalBlocks(len, bs))
    ensures out.None? <==> exists c :: c in chunks && ChunkOk(c, len, bs) && Denied(storage, offset, len, bs, c)
    ensures out.Some? ==> Coherent(out.value, f, bs) && forall i :: i in out.value <==> Covers(chunks, i)
  {
    var all: map<nat, Content> := map[];
    for n := 0 to |chunks|
      invariant Coherent(all, f, bs) && forall i :: i in all <==> Covers(chunks[..n], i)
      invariant forall c :: c in chunks[..n] && ChunkOk(c, len, bs) ==> !Denied(storage, offset, len, bs, c)
    {
      assert chunks[n] in chunks;
      ChunkInFile(chunks[n], len, bs);
      var data := FetchChunk(storage, obj, offset, f, len, bs, chunks[n]);
      if data.None? {
        return None;
      }
      var blocks := SplitBlocks(f, bs, chunks[n], data.value);
      all := all + blocks;
      AddedRun(chunks[..n], chunks[n]);
      assert chunks[..n + 1] == chunks[..n] + [chunks[n]];
    }
    assert chunks[..|chunks|] == chunks;
    return Some(all);
  }

  // ---- reading ----

  /** What one pass of the read loop meets: the blocks it finds cached, the blocks
      other readers are fetching, and how storage answers. */
  datatype Round = Round(cached: map<nat, Content>, foreign: set<nat>, storage: Storage)

  datatype Outcome = Bytes(content: Content) | InvalidRange | FetchFailed | StillWaiting

  ghost predicate RoundOk(round: Round, obj: Content, f: Content, bs: nat)
    requires 0 < bs
  {
    Honest(round.storage, obj) && Coherent(round.cached, f, bs)
  }

  /** The slots filled so far hold the file's blocks. */
  ghost predicate Filled(blocks: seq<Option<Content>>, f: Content, bs: nat, first: nat)
    requires 0 < bs
  {
    forall n :: 0 <= n < |blocks| && blocks[n].Some? ==>
      InFile(f, bs, first + n) && blocks[n].value == BlockOf(f, bs, first + n)
  }

  /** Fill empty slots from cached or fetched blocks. */
  method Fill(blocks: seq<Option<Content>>, found: map<nat, Content>, ghost f: Content, bs: nat, first: nat)
    returns (out: seq<Option<Content>>)
    requires 0 < bs && Filled(blocks, f, bs, first) && Coherent(found, f, bs)
    ensures |out| == |blocks| && Filled(out, f, bs, first)
    ensures forall n :: 0 <= n < |out| ==> (out[n].None? <==> blocks[n].None? && first + n !in found)
  {
    out := [];
    for n := 0 to |blocks|
      invariant |out| == n && Filled(out, f, bs, first)
      invariant forall m :: 0 <= m < n ==> (out[m].None? <==> blocks[m].None? && first + m !in found)
    {
      var slot := blocks[n];
      if slot.None? && first + n in found {
        slot := Some(found[first + n]);
      }
      out := out + [slot];
    }
  }

  /** The block indices still empty, split into those free to claim and those another
      reader holds. */
  method Claim(blocks: seq<Option<Content>>, first: nat, foreign: set<nat>)
    returns (mine: seq<nat>, theirs: seq<nat>)
    ensures Ascending(mine, first + |blocks|)
    ensures forall i :: i in mine <==> first <= i < first + |blocks| && blocks[i - first].None? && i !in foreign
    ensures forall i :: i in theirs <==> first <= i < first + |blocks| && blocks[i - first].None? && i in foreign
  {
    mine, theirs := [], [];
    for n := 0 to |blocks|
      invariant Ascending(mine, first + n)
      invariant forall i :: i in mine <==> first <= i < first + n && blocks[i - first].None? && i !in foreign
      invariant forall i :: i in theirs <==> first <= i < first + n && blocks[i - first].None? && i in foreign
    {
      if blocks[n].None? {
        if first + n in foreign {
          theirs := theirs + [first + n];
        } else {
          mine := mine + [first + n];
        }
      }
    }
  }

  predicate Complete(blocks: seq<Option<Content>>) {
    forall n :: 0 <= n < |blocks| ==> blocks[n].Some?
  }

  /** Block `index` meets the range. */
  predicate Meets(bs: nat, index: nat, start: nat, end: nat) {
    Place(index, bs) < end && start < Place(index, bs) + bs
  }

  /** The `count` blocks from `first` are the ones the range touches. */
  ghost predicate Spans(bs: nat, first: nat, count: nat, start: nat, end: nat) {
    && (forall i :: first <= i < first + count ==> Meets(bs, i, start, end) && (Place(i, bs) <= start <==> i == first))
    && end <= Place(first + count, bs)
  }

  /** The blocks from the one holding `start` to the one holding `end - 1`. */
  lemma BlocksSpan(bs: nat, first: nat, last: nat, start: nat, end: nat)
    requires 0 < bs && first <= last && Place(first, bs) <= start < Place(first, bs) + bs
    requires Place(last, bs) < end <= Place(last, bs) + bs
    ensures Spans(bs, first, last - first + 1, start, end)
  {
    forall i: nat | first <= i <= last
      ensures Meets(bs, i, start, end) && (Place(i, bs) <= start <==> i == first)
    {
      if first < i {
        PlaceMonotone(first, i, bs);
      }
      if i < last {
        PlaceMonotone(i, last, bs);
      }
    }
  }

  /** Glue the blocks together, cutting the first and the last to the range. */
  method Assemble(ghost f: Content, blocks: seq<Option<Content>>, bs: nat, first: nat, start: nat, end: nat)
    returns (out: Content)
    requires 0 < bs && start < end <= |f| && blocks != [] && Complete(blocks) && Filled(blocks, f, bs, first)
    requires Spans(bs, first, |blocks|, start, end)
    ensures out == f[start..end]
  {
    out := [];
    for n := 0 to |blocks|
      invariant n == 0 ==> out == []
      invariant 0 < n ==> start <= Place(first + n, bs) && out == f[start..Min(end, Place(first + n, bs))]
    {
      var block := blocks[n].value;
      var blockStart := Place(first + n, bs);
      assert Meets(bs, first + n, start, end);
      var from := if start < blockStart then 0 else start - blockStart;
      var to' := Min(end - blockStart, |block|);
      GluePiece(f, bs, first + n, start, end, out, block, from, to');
      out := out + block[from..to'];
    }
  }

  lemma GluePiece(f: Content, bs: nat, index: nat, start: nat, end: nat, out: Content,
                  block: Content, from: nat, to': int)
    requires 0 < bs && start < end <= |f| && InFile(f, bs, index) && block == BlockOf(f, bs, index)
    requires Place(index, bs) < end && start < Place(index, bs) + bs
    requires from == if start < Place(index, bs) then 0 else start - Place(index, bs)
    requires to' == Min(end - Place(index, bs), |block|)
    requires if Place(index, bs) <= start then out == [] else out == f[start..Place(index, bs)]
    ensures from <= to' <= |block| && start <= Place(index + 1, bs) == Place(index, bs) + bs
    ensures out + block[from..to'] == f[start..Min(end, Place(index + 1, bs))]
  {
    var p := Place(index, bs);
    SliceOfSlice(f, p, p + BlockLen(|f|, bs, index), from, to');
    if p > start {
      SlicesMeet(f, start, p, p + to');
    }
  }

  /** Block `i` is one of the slots still empty after the look-up. */
  ghost predicate Lacks(round: Round, first: nat, slots: seq<Option<Content>>, i: nat) {
    first <= i < first + |slots| && slots[i - first].None? && i !in round.cached
  }

  /** The round claims block `i`: it is lacking, and nobody else is fetching it. */
  ghost predicate Claims(round: Round, first: nat, slots: seq<Option<Content>>, i: nat) {
    Lacks(round, first, slots, i) && i !in round.foreign
  }

  /** The round asks storage for block `i`: one it claims, or read-ahead after the last
      of those. */
  ghost predicate AsksFor(round: Round, first: nat, slots: seq<Option<Content>>, readahead: nat, total: nat, i: nat) {
    || Claims(round, first, slots, i)
    || (i < total && exists l: nat :: Claims(round, first, slots, l) && l < i <= l + readahead
                                      && forall m: nat :: Claims(round, first, slots, m) ==> m <= l)
  }

  /** Storage denies the round a request for blocks it asks for. */
  ghost predicate RoundDenied(round: Round, offset: nat, len: nat, bs: nat, first: nat,
                              slots: seq<Option<Content>>, readahead: nat)
    requires 0 < bs
  {
    exists c: Run ::
      && ChunkOk(c, len, bs) && Denied(round.storage, offset, len, bs, c)
      && forall i: nat :: c.start <= i < c.end ==> AsksFor(round, first, slots, readahead, TotalBlocks(len, bs), i)
  }

  /** The claimed indices are the round's claims, so a fetch of them asks for what the
      round asks for. */
  lemma AskedIsAsksFor(round: Round, first: nat, slots: seq<Option<Content>>, readahead: nat, total: nat,
                       mine: seq<nat>, i: nat)
    requires Ascending(mine, total) && forall m :: m in mine <==> Claims(round, first, slots, m)
    ensures Asked(mine, readahead, total, i) <==> AsksFor(round, first, slots, readahead, total, i)
  {
    if mine != [] {
      var l := mine[|mine| - 1];
      assert l in mine;
      assert forall m: nat :: Claims(round, first, slots, m) ==> m in mine && m <= l;
    }
  }

  /** Look up, claim, fetch what was claimed. A slot is filled, and a block is cached,
      exactly if the look-up or the fetch provides it; only a lacking block makes the
      round fetch, fail or wait. */
  method OneRound(round: Round, ghost obj: Content, offset: nat, ghost f: Content, len: nat, bs: nat,
                  first: nat, slots: seq<Option<Content>>, readahead: nat)
    returns (blocks: seq<Option<Content>>, cache: map<nat, Content>, waiting: bool, failed: bool)
    requires 0 < bs && Located(obj, offset, f) && len == |f| && first + |slots| <= TotalBlocks(len, bs)
    requires RoundOk(round, obj, f, bs) && Filled(slots, f, bs, first)
    ensures |blocks| == |slots| && Filled(blocks, f, bs, first) && Coherent(cache, f, bs)
    ensures waiting <==> exists i: nat :: Lacks(round, first, slots, i) && i in round.foreign
    ensures failed ==> RoundDenied(round, offset, len, bs, first, slots, readahead)
    ensures !failed ==> forall n :: 0 <= n < |blocks| ==>
              (blocks[n].None? <==> Lacks(round, first, slots, first + n)
                                    && !AsksFor(round, first, slots, readahead, TotalBlocks(len, bs), first + n))
    ensures !failed ==> forall i: nat ::
              i in cache <==> i in round.cached || AsksFor(round, first, slots, readahead, TotalBlocks(len, bs), i)
  {
    cache := round.cached;
    blocks := Fill(slots, cache, f, bs, first);
    var mine, theirs := Claim(blocks, first, round.foreign);
    waiting, failed := theirs != [], false;
    assert waiting ==> theirs[0] in theirs && Lacks(round, first, slots, theirs[0]);
    assert forall i: nat :: Lacks(round, first, slots, i) && i in round.foreign ==> i in theirs;
    assert forall i: nat :: i in mine <==> Claims(round, first, slots, i);
    ghost var total := TotalBlocks(len, bs);
    forall i: nat
      ensures Asked(mine, readahead, total, i) <==> AsksFor(round, first, slots, readahead, total, i)
    {
      AskedIsAsksFor(round, first, slots, readahead, total, mine, i);
    }
    var fetched := Some(map[]);
    if mine != [] {
      fetched := Fetch(round.storage, obj, offset, f, len, bs, mine, readahead);
      if fetched.None? {
        failed := true;
        return;
      }
    }
    cache := cache + fetched.value;
    blocks := Fill(blocks, fetched.value, f, bs, first);
  }

  // ---- going round ----

  /** No round up to `k` finds block `i` cached, and other readers hold it in every
      round before `k`. */
  ghost predicate Missing(rounds: seq<Round>, k: nat, i: nat) {
    && k < |rounds| && (forall j :: 0 <= j <= k ==> i !in rounds[j].cached)
    && forall j :: 0 <= j < k ==> i in rounds[j].foreign
  }

  /** Round `k` is held up: another reader fetches a block of the range, as one did in
      every round so far, and no round so far finds it cached. */
  ghost predicate HeldUp(rounds: seq<Round>, bs: nat, start: nat, end: nat, k: nat) {
    exists i: nat :: Meets(bs, i, start, end) && Missing(rounds, k, i) && i in rounds[k].foreign
  }

  /** Block `i` of the range is free for round `k` to claim. */
  ghost predicate Free(rounds: seq<Round>, bs: nat, start: nat, end: nat, k: nat, i: nat) {
    Meets(bs, i, start, end) && Missing(rounds, k, i) && i !in rounds[k].foreign
  }

  /** Block `i` is free to claim, or is read-ahead after one that is. */
  ghost predicate FreeOrAhead(rounds: seq<Round>, bs: nat, start: nat, end: nat, readahead: nat, k: nat, i: nat) {
    || Free(rounds, bs, start, end, k, i)
    || exists l: nat :: Free(rounds, bs, start, end, k, l) && l < i <= l + readahead
  }

  /** Storage denies round `k` a request for such blocks only. */
  ghost predicate DeniedAt(rounds: seq<Round>, offset: nat, len: nat, bs: nat, start: nat, end: nat,
                           readahead: nat, k: nat) {
    && k < |rounds|
    && exists c: Run ::
         && ChunkOk(c, len, bs) && Denied(rounds[k].storage, offset, len, bs, c)
         && forall i: nat :: c.start <= i < c.end ==> FreeOrAhead(rounds, bs, start, end, readahead, k, i)
  }

  /** Storage denies round `k`, every earlier one being held up. */
  ghost predicate FailsAt(rounds: seq<Round>, offset: nat, len: nat, bs: nat, start: nat, end: nat,
                          readahead: nat, k: nat) {
    && DeniedAt(rounds, offset, len, bs, start, end, readahead, k)
    && forall j :: 0 <= j < k ==> HeldUp(rounds, bs, start, end, j)
  }

  /** The slots still empty before round `k`: blocks no round so far has found cached or
      free. */
  ghost predicate EmptySlots(rounds: seq<Round>, k: nat, first: nat, slots: seq<Option<Content>>) {
    forall n :: 0 <= n < |slots| && slots[n].None? ==>
      forall j :: 0 <= j < k && j < |rounds| ==> first + n !in rounds[j].cached && first + n in rounds[j].foreign
  }

  lemma LacksIsMissing(rounds: seq<Round>, k: nat, bs: nat, first: nat, slots: seq<Option<Content>>,
                       start: nat, end: nat, i: nat)
    requires k < |rounds| && EmptySlots(rounds, k, first, slots) && Spans(bs, first, |slots|, start, end)
    requires Lacks(rounds[k], first, slots, i)
    ensures Meets(bs, i, start, end) && Missing(rounds, k, i)
  {
    assert slots[i - first].None? && first + (i - first) == i;
  }

  lemma DeniedIsDeniedAt(rounds: seq<Round>, k: nat, offset: nat, len: nat, bs: nat, first: nat,
                         slots: seq<Option<Content>>, start: nat, end: nat, readahead: nat)
    requires 0 < bs && k < |rounds| && EmptySlots(rounds, k, first, slots) && Spans(bs, first, |slots|, start, end)
    requires RoundDenied(rounds[k], offset, len, bs, first, slots, readahead)
    ensures DeniedAt(rounds, offset, len, bs, start, end, readahead, k)
  {
    var total := TotalBlocks(len, bs);
    forall i: nat | Claims(rounds[k], first, slots, i)
      ensures Free(rounds, bs, start, end, k, i)
    {
      LacksIsMissing(rounds, k, bs, first, slots, start, end, i);
    }
    assert forall i: nat :: AsksFor(rounds[k], first, slots, readahead, total, i)
                            ==> FreeOrAhead(rounds, bs, start, end, readahead, k, i);
  }

  /** Go round until every slot is filled. What goes into the cache stays coherent;
      the only way not to finish is a denied fetch or being held up in every round. */
  method FillAll(rounds: seq<Round>, ghost obj: Content, offset: nat, ghost f: Content, len: nat, bs: nat,
                 first: nat, count: nat, ghost start: nat, ghost end: nat, readahead: nat)
    returns (blocks: seq<Option<Content>>, cache: map<nat, Content>, failed: bool)
    requires 0 < bs && Located(obj, offset, f) && len == |f| && first + count <= TotalBlocks(len, bs)
    requires forall k :: 0 <= k < |rounds| ==> RoundOk(rounds[k], obj, f, bs)
    requires Spans(bs, first, count, start, end)
    ensures |blocks| == count && Filled(blocks, f, bs, first) && Coherent(cache, f, bs)
    ensures failed ==> exists k: nat :: FailsAt(rounds, offset, len, bs, start, end, readahead, k)
    ensures failed || Complete(blocks) || forall k :: 0 <= k < |rounds| ==> HeldUp(rounds, bs, start, end, k)
    ensures !failed && |rounds| == 1 ==>
              forall n :: 0 <= n < count ==> blocks[n].None? || first + n in cache
  {
    blocks := seq(count, _ => None);
    cache, failed := map[], false;
    for k := 0 to |rounds|
      invariant |blocks| == count && Filled(blocks, f, bs, first) && Coherent(cache, f, bs) && !failed
      invariant EmptySlots(rounds, k, first, blocks)
      invariant forall j :: 0 <= j < k ==> HeldUp(rounds, bs, start, end, j)
      invariant k == 0 ==> forall n :: 0 <= n < count ==> blocks[n].None?
      invariant k == 1 ==> forall n :: 0 <= n < count ==> blocks[n].None? || first + n in cache
    {
      ghost var slots := blocks;
      var waiting;
      blocks, cache, waiting, failed := OneRound(rounds[k], obj, offset, f, len, bs, first, blocks, readahead);
      if failed {
        DeniedIsDeniedAt(rounds, k, offset, len, bs, first, slots, start, end, readahead);
        assert FailsAt(rounds, offset, len, bs, start, end, readahead, k);
        return;
      }
      if !waiting {
        return;
      }
      ghost var i: nat :| Lacks(rounds[k], first, slots, i) && i in rounds[k].foreign;
      LacksIsMissing(rounds, k, bs, first, slots, start, end, i);
    }
  }

  /** Why a read of `start..end` may end without bytes. */
  ghost predicate Excused(r: Outcome, rounds: seq<Round>, offset: nat, len: nat, bs: nat,
                          start: nat, end: nat, readahead: nat) {
    && (r.FetchFailed? ==> exists k: nat :: FailsAt(rounds, offset, len, bs, start, end, readahead, k))
    && (r.StillWaiting? ==> forall k :: 0 <= k < |rounds| ==> HeldUp(rounds, bs, start, end, k))
  }

  /** Round `k` is not held up, and storage denies neither it nor an earlier one. */
  ghost predicate ClearAt(rounds: seq<Round>, offset: nat, len: nat, bs: nat,
                          start: nat, end: nat, readahead: nat, k: nat) {
    && k < |rounds| && !HeldUp(rounds, bs, start, end, k)
    && forall j :: 0 <= j <= k ==> !DeniedAt(rounds, offset, len, bs, start, end, readahead, j)
  }

  lemma NoExcuse(r: Outcome, rounds: seq<Round>, offset: nat, len: nat, bs: nat,
                 start: nat, end: nat, readahead: nat, k: nat)
    requires Excused(r, rounds, offset, len, bs, start, end, readahead)
    requires ClearAt(rounds, offset, len, bs, start, end, readahead, k)
    ensures !r.FetchFailed? && !r.StillWaiting?
  {
  }

  /** The round finds every block of the range cached. */
  ghost predicate AllCached(round: Round, bs: nat, start: nat, end: nat) {
    forall i: nat :: Meets(bs, i, start, end) ==> i in round.cached
  }

  /** Then nothing storage or other readers do matters. */
  lemma CachedIsClear(rounds: seq<Round>, offset: nat, len: nat, bs: nat, start: nat, end: nat, readahead: nat)
    requires rounds != [] && AllCached(rounds[0], bs, start, end)
    ensures ClearAt(rounds, offset, len, bs, start, end, readahead, 0)
  {
    assert forall i: nat :: !Free(rounds, bs, start, end, 0, i);
    assert forall c: Run :: ChunkOk(c, len, bs) ==> !FreeOrAhead(rounds, bs, start, end, readahead, 0, c.start);
  }

  /** Every block of the range is in the cache. */
  ghost predicate Kept(cache: map<nat, Content>, bs: nat, start: nat, end: nat) {
    forall i: nat :: Meets(bs, i, start, end) ==> i in cache
  }

  /** The blocks meeting the range are the ones it spans. */
  lemma MeetsIsSpanned(bs: nat, first: nat, count: nat, start: nat, end: nat, i: nat)
    requires 0 < bs && 0 < count && Spans(bs, first, count, start, end) && Meets(bs, i, start, end)
    ensures first <= i < first + count
  {
    assert Place(first, bs) <= start;
    if i < first {
      PlaceMonotone(i, first, bs);
    } else if first + count < i {
      PlaceMonotone(first + count, i, bs);
    }
  }

  /** Read a non-empty range. */
  method ReadBlocks(rounds: seq<Round>, ghost obj: Content, offset: nat, ghost f: Content, len: nat, bs: nat,
                    first: nat, count: nat, start: nat, end: nat, readahead: nat)
    returns (r: Outcome, cache: map<nat, Content>)
    requires 0 < bs && Located(obj, offset, f) && len == |f| && first + count <= TotalBlocks(len, bs)
    requires forall k :: 0 <= k < |rounds| ==> RoundOk(rounds[k], obj, f, bs)
    requires 0 < count && start < end <= len && Spans(bs, first, count, start, end)
    ensures !r.InvalidRange? && (r.Bytes? ==> r.content == f[start..end]) && Coherent(cache, f, bs)
    ensures Excused(r, rounds, offset, len, bs, start, end, readahead)
    ensures r.Bytes? && |rounds| == 1 ==> Kept(cache, bs, start, end)
  {
    var blocks, failed;
    blocks, cache, failed := FillAll(rounds, obj, offset, f, len, bs, first, count, start, end, readahead);
    if failed {
      return FetchFailed, cache;
    }
    if !Complete(blocks) {
      return StillWaiting, cache;
    }
    forall i: nat | |rounds| == 1 && Meets(bs, i, start, end)
      ensures i in cache
    {
      MeetsIsSpanned(bs, first, count, start, end, i);
      assert blocks[i - first].Some? && first + (i - first) == i;
    }
    var content := Assemble(f, blocks, bs, first, start, end);
    return Bytes(content), cache;
  }

  /** Read `start..end` of a file held at `offset` in the object: the file's own bytes,
      and bytes for sure if the first round finds the range cached, or once a round is
      clear. A read done in one round leaves its blocks in the cache. */
  method Read(rounds: seq<Round>, ghost obj: Content, offset: nat, ghost f: Content, len: nat, bs: nat,
              start: nat, end: nat, readahead: nat)
    returns (r: Outcome, cache: map<nat, Content>)
    requires 0 < bs && Located(obj, offset, f) && len == |f|
    requires forall k :: 0 <= k < |rounds| ==> RoundOk(rounds[k], obj, f, bs)
    ensures r.InvalidRange? <==> start > end || end > len
    ensures r.Bytes? ==> r.content == f[start..end]
    ensures Excused(r, rounds, offset, len, bs, start, end, readahead)
    ensures start <= end <= len && rounds != [] && AllCached(rounds[0], bs, start, end) ==> r.Bytes?
    ensures start <= end <= len ==>
              (exists k: nat :: ClearAt(rounds, offset, len, bs, start, end, readahead, k)) ==> r.Bytes?
    ensures Coherent(cache, f, bs)
    ensures start < end && r.Bytes? && |rounds| == 1 ==> Kept(cache, bs, start, end)
  {
    cache := map[];
    if start > end || end > len {
      return InvalidRange, cache;
    }
    if start == end {
      return Bytes([]), cache;
    }
    var first, count := BlocksOf(len, bs, start, end);
    r, cache := ReadBlocks(rounds, obj, offset, f, len, bs, first, count, start, end, readahead);
    forall k: nat | ClearAt(rounds, offset, len, bs, start, end, readahead, k)
      ensures r.Bytes?
    {
      NoExcuse(r, rounds, offset, len, bs, start, end, readahead, k);
    }
    if rounds != [] && AllCached(rounds[0], bs, start, end) {
      CachedIsClear(rounds, offset, len, bs, start, end, readahead);
    }
  }

  /** The blocks a range touches. */
  method BlocksOf(len: nat, bs: nat, start: nat, end: nat) returns (first: nat, count: nat)
    requires 0 < bs && start < end <= len
    ensures 0 < count && first + count <= TotalBlocks(len, bs) && Spans(bs, first, count, start, end)
  {
    first := start / bs;
    var last := (end - 1) / bs;
    PlaceOfByte(start, bs);
    PlaceOfByte(end - 1, bs);
    LastInFile(len, bs, first, last, start, end);
    BlocksSpan(bs, first, last, start, end);
    count := last - first + 1;
  }

  lemma LastInFile(len: nat, bs: nat, first: nat, last: nat, start: nat, end: nat)
    requires 0 < bs && start < end <= len
    requires Place(first, bs) <= start && Place(last, bs) < end <= Place(last, bs) + bs
    ensures first <= last < TotalBlocks(len, bs)
  {
    BlocksInFile(len, bs, last);
    if last < first {
      PlaceMonotone(last, first, bs);
    }
  }

  /** Look a file up by name in an opened bundle. */
  method FileHandle(c: Bundle.Codec, obj: Content, ghost files: seq<Bundle.DirEntry>, ghost meta: Bundle.Meta,
                    name: Bundle.Name)
    returns (span: Option<Bundle.Span>)
    requires Bundle.IsBundle(c, obj, files, meta)
    ensures span.None? <==> forall i :: 0 <= i < |files| ==> files[i].name != name
    ensures span.Some? ==> forall i :: 0 <= i < |files| && files[i].name == name ==>
              Located(obj, span.value.offset, files[i].content) && span.value.len == |files[i].content|
  {
    var footer := Bundle.Open(c, obj).value;
    if name !in footer.files {
      return None;
    }
    forall i | 0 <= i < |files| && files[i].name == name
      ensures Located(obj, footer.files[name].offset, files[i].content)
      ensures footer.files[name].len == |files[i].content|
    {
      assert Bundle.Holds(obj, footer.files[name], files[i].content);
    }
    return Some(footer.files[name]);
  }

  /** Reading file `n` of a bundle by its name gives the bytes it was bundled from, and
      gives them for sure if they are cached or once a round is clear. */
  method ReadBundled(c: Bundle.Codec, rounds: seq<Round>, obj: Content, ghost files: seq<Bundle.DirEntry>,
                     ghost meta: Bundle.Meta, name: Bundle.Name, ghost n: nat,
                     bs: nat, start: nat, end: nat, readahead: nat)
    returns (r: Outcome, ghost offset: nat)
    requires 0 < bs && Bundle.IsBundle(c, obj, files, meta) && n < |files| && files[n].name == name
    requires forall k :: 0 <= k < |rounds| ==> RoundOk(rounds[k], obj, files[n].content, bs)
    ensures Located(obj, offset, files[n].content)
    ensures r.InvalidRange? <==> start > end || end > |files[n].content|
    ensures r.Bytes? ==> r.content == files[n].content[start..end]
    ensures Excused(r, rounds, offset, |files[n].content|, bs, start, end, readahead)
    ensures start <= end <= |files[n].content| && rounds != [] && AllCached(rounds[0], bs, start, end) ==> r.Bytes?
    ensures start <= end <= |files[n].content| ==>
              (exists k: nat :: ClearAt(rounds, offset, |files[n].content|, bs, start, end, readahead, k)) ==> r.Bytes?
  {
    var span := FileHandle(c, obj, files, meta, name);
    offset := span.value.offset;
    var cache;
    r, cache := Read(rounds, obj, span.value.offset, files[n].content, span.value.len, bs, start, end, readahead);
  }
}
