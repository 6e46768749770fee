/** The two tiers of the block cache: the disk tier's mirrored maps and the memory
shard, each refining one list of blocks from least to most recently used. */
module CacheTiers {

  type Key = nat

  datatype Block = Block(key: Key, size: nat)

  // ---- the list ----

  ghost predicate Unique(l: seq<Block>) {
    forall i, j :: 0 <= i < j < |l| ==> l[i].key != l[j].key
  }

  function Sum(l: seq<Block>): nat {
    if l == [] then 0 else l[0].size + Sum(l[1..])
  }

  /** Where a block is, or the length of the list. */
  function IndexOf(l: seq<Block>, k: Key): (n: nat)
    ensures n <= |l| && (n < |l| ==> l[n].key == k)
    ensures forall i :: 0 <= i < n ==> l[i].key != k
  {
    if l == [] || l[0].key == k then 0 else 1 + IndexOf(l[1..], k)
  }

  predicate Holds(l: seq<Block>, k: Key) {
    IndexOf(l, k) < |l|
  }

  function Without(l: seq<Block>, k: Key): seq<Block> {
    var n := IndexOf(l, k);
    if n < |l| then l[..n] + l[n + 1..] else l
  }

  function SizeOf(l: seq<Block>, k: Key): nat {
    var n := IndexOf(l, k);
    if n < |l| then l[n].size else 0
  }

  lemma {:induction false} SumAppend(l: seq<Block>, m: seq<Block>)
    ensures Sum(l + m) == Sum(l) + Sum(m)
  {
    if l == [] {
      assert l + m == m;
    } else {
      SumAppend(l[1..], m);
      assert (l + m)[1..] == l[1..] + m;
    }
  }

  lemma SumLast(l: seq<Block>, b: Block)
    ensures Sum(l + [b]) == Sum(l) + b.size
  {
    SumAppend(l, [b]);
    assert [b][1..] == [];
  }

  lemma SumWithout(l: seq<Block>, k: Key)
    ensures Sum(l) == Sum(Without(l, k)) + SizeOf(l, k)
  {
    var n := IndexOf(l, k);
    if n < |l| {
      assert l == l[..n] + l[n..] && l[n..][1..] == l[n + 1..];
      SumAppend(l[..n], l[n..]);
      SumAppend(l[..n], l[n + 1..]);
    }
  }

  /** Every place of the shorter list is a place of the longer, in the same order. */
  function Shift(l: seq<Block>, k: Key, i: nat): (j: nat)
    requires i < |Without(l, k)|
    ensures i <= j < |l| && Without(l, k)[i] == l[j]
  {
    var n := IndexOf(l, k);
    assert n < |l| ==> Without(l, k) == l[..n] + l[n + 1..];
    if i < n then i else i + 1
  }

  lemma WithoutKey(l: seq<Block>, k: Key, i: nat)
    requires Unique(l) && i < |Without(l, k)|
    ensures Without(l, k)[i].key != k
  {
    var n := IndexOf(l, k);
    assert n < |l| && i >= n ==> l[n].key != l[i + 1].key;
  }

  lemma WithoutUnique(l: seq<Block>, k: Key)
    requires Unique(l)
    ensures Unique(Without(l, k)) && !Holds(Without(l, k), k)
  {
    var r := Without(l, k);
    forall i, j | 0 <= i < j < |r|
      ensures r[i].key != r[j].key
    {
      assert Shift(l, k, i) < Shift(l, k, j);
    }
    if Holds(r, k) {
      WithoutKey(l, k, IndexOf(r, k));
    }
  }

  /** Give up the least recently used until the rest fits or only the newest is left. */
  function Evict(l: seq<Block>, budget: nat): seq<Block> {
    if Sum(l) <= budget || |l| <= 1 then l else Evict(l[1..], budget)
  }

  /** What is left is the end of the list, fits or is the newest block alone, and
      one block more would not have fitted. */
  lemma {:induction false} EvictIsLeast(l: seq<Block>, budget: nat)
    ensures var r := Evict(l, budget);
            && |r| <= |l| && r == l[|l| - |r|..] && (l != [] ==> r != [])
            && (Sum(r) <= budget || |r| == 1)
            && (|r| < |l| ==> Sum(l[|l| - |r| - 1..]) > budget)
  {
    if Sum(l) > budget && |l| > 1 {
      EvictIsLeast(l[1..], budget);
      var r := Evict(l[1..], budget);
      assert l[1..][|l| - 1 - |r|..] == l[|l| - |r|..];
      if |r| < |l| - 1 {
        assert l[1..][|l| - 1 - |r| - 1..] == l[|l| - |r| - 1..];
      } else {
        assert l[0..] == l;
      }
    } else {
      assert l[0..] == l;
    }
  }

  // ---- the disk tier ----

  datatype Entry = Entry(size: nat, tick: nat)

  datatype DiskState = DiskState(entries: map<Key, Entry>, byTick: map<nat, Key>, totalBytes: int, tick: nat)

  /** `entries` and `byTick` are inverse to each other, with every tick already issued. */
  ghost predicate Mirrored(s: DiskState) {
    && (forall k :: k in s.entries ==> s.entries[k].tick in s.byTick && s.byTick[s.entries[k].tick] == k)
    && (forall t :: t in s.byTick ==> s.byTick[t] in s.entries && s.entries[s.byTick[t]].tick == t && t <= s.tick)
  }

  ghost predicate Recorded(s: DiskState, b: Block) {
    b.key in s.entries && s.entries[b.key].size == b.size
  }

  function TickOf(s: DiskState, k: Key): nat {
    if k in s.entries then s.entries[k].tick else 0
  }

  /** The maps hold exactly the listed blocks, ticks rising along the list. */
  ghost predicate Lists(s: DiskState, l: seq<Block>) {
    && (forall i :: 0 <= i < |l| ==> Recorded(s, l[i]))
    && (forall k :: k in s.entries ==> Holds(l, k))
    && (forall i, j :: 0 <= i < j < |l| ==> TickOf(s, l[i].key) < TickOf(s, l[j].key))
  }

  ghost predicate Refines(s: DiskState, l: seq<Block>) {
    Mirrored(s) && Lists(s, l) && s.totalBytes == Sum(l)
  }

  lemma ListsUnique(s: DiskState, l: seq<Block>)
    requires Lists(s, l)
    ensures Unique(l)
  {
    forall i, j | 0 <= i < j < |l|
      ensures l[i].key != l[j].key
    {
      assert TickOf(s, l[i].key) < TickOf(s, l[j].key);
    }
  }

  function Drop(s: DiskState, k: Key): DiskState
    requires k in s.entries
  {
    DiskState(s.entries - {k}, s.byTick - {s.entries[k].tick}, s.totalBytes - s.entries[k].size, s.tick)
  }

  function Add(s: DiskState, b: Block): DiskState {
    var tick := s.tick + 1;
    DiskState(s.entries[b.key := Entry(b.size, tick)], s.byTick[tick := b.key], s.totalBytes + b.size, tick)
  }

  lemma DropMirrored(s: DiskState, k: Key)
    requires Mirrored(s) && k in s.entries
    ensures Mirrored(Drop(s, k))
  {
  }

  lemma AddMirrored(s: DiskState, b: Block)
    requires Mirrored(s) && b.key !in s.entries
    ensures Mirrored(Add(s, b))
  {
  }

  lemma DropLists(s: DiskState, l: seq<Block>, k: Key)
    requires Lists(s, l) && k in s.entries
    ensures Lists(Drop(s, k), Without(l, k))
  {
    var s', r := Drop(s, k), Without(l, k);
    ListsUnique(s, l);
    WithoutUnique(l, k);
    forall i | 0 <= i < |r|
      ensures Recorded(s', r[i]) && TickOf(s', r[i].key) == TickOf(s, l[Shift(l, k, i)].key)
    {
      assert Recorded(s, l[Shift(l, k, i)]);
      WithoutKey(l, k, i);
    }
    forall i, j | 0 <= i < j < |r|
      ensures TickOf(s', r[i].key) < TickOf(s', r[j].key)
    {
      assert Shift(l, k, i) < Shift(l, k, j);
    }
    forall j | j in s'.entries
      ensures Holds(r, j)
    {
      StillHeld(l, k, j);
    }
  }

  lemma StillHeld(l: seq<Block>, k: Key, j: Key)
    requires Unique(l) && Holds(l, j) && j != k
    ensures Holds(Without(l, k), j)
  {
    var n, m, r := IndexOf(l, k), IndexOf(l, j), Without(l, k);
    if n < |l| {
      assert r[if m < n then m else m - 1] == l[m];
    }
  }

  lemma AppendHolds(l: seq<Block>, b: Block, j: Key)
    ensures Holds(l + [b], j) <==> Holds(l, j) || j == b.key
  {
    var r := l + [b];
    if Holds(l, j) {
      assert r[IndexOf(l, j)].key == j;
    } else if j == b.key {
      assert r[|l|].key == j;
    } else {
      assert forall i :: 0 <= i < |l| ==> l[i].key != j;
    }
  }

  lemma AddRecorded(s: DiskState, l: seq<Block>, b: Block, i: nat)
    requires Mirrored(s) && b.key !in s.entries && i < |l| && Recorded(s, l[i])
    ensures Recorded(Add(s, b), l[i]) && TickOf(Add(s, b), l[i].key) == TickOf(s, l[i].key) <= s.tick
  {
    assert s.entries[l[i].key].tick in s.byTick;
  }

  lemma AddRising(s: DiskState, l: seq<Block>, b: Block, i: nat, j: nat)
    requires Mirrored(s) && Lists(s, l) && b.key !in s.entries && i < j < |l + [b]|
    ensures TickOf(Add(s, b), (l + [b])[i].key) < TickOf(Add(s, b), (l + [b])[j].key)
  {
    assert (l + [b])[i] == l[i];
    AddRecorded(s, l, b, i);
    if j < |l| {
      assert (l + [b])[j] == l[j];
      AddRecorded(s, l, b, j);
    } else {
      assert (l + [b])[j] == b;
    }
  }

  lemma AddAllRecorded(s: DiskState, l: seq<Block>, b: Block, i: nat)
    requires Mirrored(s) && Lists(s, l) && b.key !in s.entries && i < |l + [b]|
    ensures Recorded(Add(s, b), (l + [b])[i])
  {
    if i < |l| {
      AddRecorded(s, l, b, i);
    }
  }

  lemma AddLists(s: DiskState, l: seq<Block>, b: Block)
    requires Mirrored(s) && Lists(s, l) && b.key !in s.entries
    ensures Lists(Add(s, b), l + [b])
  {
    var r := l + [b];
    forall i | 0 <= i < |r|
      ensures Recorded(Add(s, b), r[i])
    {
      AddAllRecorded(s, l, b, i);
    }
    forall i, j | 0 <= i < j < |r|
      ensures TickOf(Add(s, b), r[i].key) < TickOf(Add(s, b), r[j].key)
    {
      AddRising(s, l, b, i, j);
    }
    forall k | k in Add(s, b).entries
      ensures Holds(r, k)
    {
      AppendHolds(l, b, k);
    }
  }

  lemma DropRefines(s: DiskState, l: seq<Block>, k: Key)
    requires Refines(s, l) && k in s.entries
    ensures Refines(Drop(s, k), Without(l, k)) && SizeOf(l, k) == s.entries[k].size && !Holds(Without(l, k), k)
  {
    DropMirrored(s, k);
    DropLists(s, l, k);
    SumWithout(l, k);
    ListsUnique(s, l);
    WithoutUnique(l, k);
    assert Recorded(s, l[IndexOf(l, k)]);
  }

  lemma AddRefines(s: DiskState, l: seq<Block>, b: Block)
    requires Refines(s, l) && b.key !in s.entries
    ensures Refines(Add(s, b), l + [b])
  {
    AddMirrored(s, b);
    AddLists(s, l, b);
    SumLast(l, b);
  }

  /** The lowest tick belongs to the head of the list. */
  lemma LowestIsHead(s: DiskState, l: seq<Block>)
    requires Refines(s, l) && l != []
    ensures var t := TickOf(s, l[0].key);
            t in s.byTick && s.byTick[t] == l[0].key && forall u :: u in s.byTick ==> t <= u
  {
    assert Recorded(s, l[0]);
    forall u | u in s.byTick
      ensures TickOf(s, l[0].key) <= u
    {
      var i := IndexOf(l, s.byTick[u]);
      assert i > 0 ==> TickOf(s, l[0].key) < TickOf(s, l[i].key);
    }
  }

  lemma DropHead(s: DiskState, l: seq<Block>)
    requires Refines(s, l) && l != []
    ensures l[0].key in s.entries && Refines(Drop(s, l[0].key), l[1..])
  {
    assert Recorded(s, l[0]);
    DropRefines(s, l, l[0].key);
    assert Without(l, l[0].key) == l[1..];
  }

  predicate Lowest(s: DiskState, t: nat) {
    t in s.byTick && forall u :: u in s.byTick ==> t <= u
  }

  /** One round of eviction over budget: the lowest tick is the head's; reaching
      the newest block means nothing else is left. */
  lemma EvictStep(s: DiskState, l: seq<Block>, newest: Key, budget: nat)
    requires Refines(s, l) && l != [] && l[|l| - 1].key == newest && s.totalBytes > budget
    ensures Lowest(s, TickOf(s, l[0].key))
    ensures forall t :: Lowest(s, t) ==> s.byTick[t] == l[0].key
    ensures l[0].key == newest ==> Evict(l, budget) == l
    ensures l[0].key != newest ==>
              && |l| > 1 && l[0].key in s.entries && Refines(Drop(s, l[0].key), l[1..])
              && Evict(l, budget) == Evict(l[1..], budget)
  {
    LowestIsHead(s, l);
    ListsUnique(s, l);
    DropHead(s, l);
  }

  /** The victims are what came before the survivors, oldest first. */
  ghost predicate Evicted(before: seq<Block>, after: seq<Block>, victims: seq<Key>) {
    && |victims| + |after| == |before| && after == before[|victims|..]
    && forall i :: 0 <= i < |victims| ==> victims[i] == before[i].key
  }

  lemma EvictedOneMore(before: seq<Block>, after: seq<Block>, victims: seq<Key>)
    requires Evicted(before, after, victims) && after != []
    ensures Evicted(before, after[1..], victims + [after[0].key])
  {
  }

  /** Where an eviction stands. */
  ghost predicate Evicting(s: DiskState, l0: seq<Block>, l: seq<Block>, victims: seq<Key>, budget: nat) {
    && Refines(s, l) && Evicted(l0, l, victims) && Evict(l0, budget) == Evict(l, budget)
    && l != [] && l0 != [] && l[|l| - 1] == l0[|l0| - 1]
  }

  /** One more eviction, of the least recent block, unless that is the newest one. */
  lemma EvictNext(s: DiskState, l0: seq<Block>, l: seq<Block>, victims: seq<Key>, newest: Key, budget: nat)
    requires Evicting(s, l0, l, victims, budget) && l[|l| - 1].key == newest && s.totalBytes > budget
    ensures exists t :: Lowest(s, t)
    ensures forall t :: Lowest(s, t) ==> t in s.byTick && s.byTick[t] == l[0].key
    ensures l[0].key == newest ==> l == Evict(l, budget)
    ensures l[0].key != newest ==>
              && l[0].key in s.entries
              && Evicting(Drop(s, l[0].key), l0, l[1..], victims + [l[0].key], budget)
  {
    EvictStep(s, l, newest, budget);
    EvictedOneMore(l0, l, victims);
  }

  /** The eviction loop: always the lowest tick, never the block just written. */
  method EvictOld(s0: DiskState, ghost l0: seq<Block>, newest: Key, budget: nat)
    returns (s: DiskState, ghost l: seq<Block>, victims: seq<Key>)
    requires Refines(s0, l0) && l0 != [] && l0[|l0| - 1].key == newest
    ensures Refines(s, l) && l == Evict(l0, budget) && Evicted(l0, l, victims)
  {
    s, l, victims := s0, l0, [];
    while s.totalBytes > budget
      invariant Evicting(s, l0, l, victims, budget)
      decreases |l|
    {
      EvictNext(s, l0, l, victims, newest, budget);
      var t :| Lowest(s, t);
      var victim := s.byTick[t];
      if victim == newest {
        break;
      }
      s := Drop(s, victim);
      l := l[1..];
      victims := victims + [victim];
    }
  }

  /** Dropping a block, held or not, drops it from the list. */
  method Remove(s0: DiskState, ghost l0: seq<Block>, k: Key) returns (s: DiskState)
    requires Refines(s0, l0)
    ensures Refines(s, Without(l0, k)) && k !in s.entries && s.tick == s0.tick
  {
    if k in s0.entries {
      DropRefines(s0, l0, k);
      s := Drop(s0, k);
    } else {
      assert Holds(l0, k) ==> Recorded(s0, l0[IndexOf(l0, k)]);
      s := s0;
    }
  }

  /** A block becomes the most recent, then whatever no longer fits goes. */
  method Record(s0: DiskState, ghost l0: seq<Block>, b: Block, budget: nat)
    returns (s: DiskState, ghost l: seq<Block>, victims: seq<Key>)
    requires Refines(s0, l0)
    ensures Refines(s, l) && l == Evict(Without(l0, b.key) + [b], budget)
    ensures Evicted(Without(l0, b.key) + [b], l, victims)
  {
    s := Remove(s0, l0, b.key);
    AddRefines(s, Without(l0, b.key), b);
    s, l, victims := EvictOld(Add(s, b), Without(l0, b.key) + [b], b.key, budget);
  }

  class DiskTier {
    const maxBytes: nat
    var state: DiskState
    ghost var lru: seq<Block>

    ghost predicate Valid()
      reads this
    {
      Refines(state, lru)
    }

    constructor (maxBytes: nat)
      ensures Valid() && lru == [] && this.maxBytes == maxBytes
    {
      this.maxBytes := maxBytes;
      state := DiskState(map[], map[], 0, 0);
      lru := [];
    }

    /** Make a held block the most recent. */
    method Touch(k: Key) returns (held: bool)
      requires Valid()
      modifies this
      ensures Valid() && held == old(Holds(lru, k))
      ensures lru == if held then old(Without(lru, k) + [Block(k, SizeOf(lru, k))]) else old(lru)
    {
      if k !in state.entries {
        assert Holds(lru, k) ==> Recorded(state, lru[IndexOf(lru, k)]);
        state := state.(tick := state.tick + 1);
        return false;
      }
      var size := state.entries[k].size;
      DropRefines(state, lru, k);
      AddRefines(Drop(state, k), Without(lru, k), Block(k, size));
      state := Add(Drop(state, k), Block(k, size));
      lru := Without(lru, k) + [Block(k, size)];
      return true;
    }

    /** A block that cannot be read back leaves the tier. */
    method Forget(k: Key)
      requires Valid()
      modifies this
      ensures Valid() && lru == old(Without(lru, k))
    {
      state := Remove(state, lru, k);
      lru := Without(lru, k);
    }

    /** Record a written block as the most recent and evict past the budget. A
        block that could not be written changes nothing. */
    method Insert(b: Block, written: bool) returns (ok: bool, victims: seq<Key>)
      requires Valid()
      modifies this
      ensures Valid() && ok == written
      ensures !written ==> unchanged(this) && victims == []
      ensures written ==> lru == Evict(old(Without(lru, b.key)) + [b], maxBytes)
      ensures written ==> Evicted(old(Without(lru, b.key)) + [b], lru, victims)
    {
      if !written {
        return false, [];
      }
      state, lru, victims := Record(state, lru, b, maxBytes);
      return true, victims;
    }
  }

  // ---- the memory shard ----

  class MemoryShard {
    const budget: nat
    var blocks: seq<Block>
    var bytes: nat

    ghost predicate Valid()
      reads this
    {
      Unique(blocks) && bytes == Sum(blocks) && bytes <= budget
    }

    constructor (budget: nat)
      ensures Valid() && blocks == [] && this.budget == budget
    {
      this.budget := budget;
      blocks, bytes := [], 0;
    }

    /** Keep a block as the most recent, unless it alone exceeds the budget; the
        block just put is never the one evicted. */
    method InsertMemory(b: Block)
      requires Valid()
      modifies this
      ensures Valid()
      ensures b.size > budget ==> blocks == old(blocks)
      ensures b.size <= budget ==>
                && blocks == Evict(old(Without(blocks, b.key)) + [b], budget)
                && blocks != [] && blocks[|blocks| - 1] == b
    {
      if b.size > budget {
        return;
      }
      SumWithout(blocks, b.key);
      SumLast(Without(blocks, b.key), b);
      AppendUnique(blocks, b);
      bytes := bytes - SizeOf(blocks, b.key) + b.size;
      blocks := Without(blocks, b.key) + [b];
      ghost var base := blocks;
      while bytes > budget
        invariant Unique(blocks) && blocks != [] && blocks[|blocks| - 1] == b && bytes == Sum(blocks)
        invariant Evict(base, budget) == Evict(blocks, budget)
        decreases |blocks|
      {
        SumLast(blocks[..|blocks| - 1], b);
        assert blocks == blocks[..|blocks| - 1] + [b];
        bytes := bytes - blocks[0].size;
        blocks := blocks[1..];
      }
    }
  }

  lemma AppendUnique(l: seq<Block>, b: Block)
    requires Unique(l)
    ensures Unique(Without(l, b.key) + [b])
  {
    WithoutUnique(l, b.key);
    forall i | 0 <= i < |Without(l, b.key)|
      ensures Without(l, b.key)[i].key != b.key
    {
      WithoutKey(l, b.key, i);
    }
  }
}
