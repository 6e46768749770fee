/** The two cache tiers with their contents: blocks in memory, block files on disk, a
disk tier that a restarted cache adopts as it finds it, and when what it serves is the
file's own. Which blocks the tiers evict is left to the caller here. */
module BlockStore {
  import opened Prelude
  import opened BlockRead

  /** A bundled file, by name, and a block's index in it. */
  type Key = (nat, nat)

  /** `disk` is the block files; a path names a file and an index, not a block size. */
  datatype Tiers = Tiers(bs: nat, memory: map<Key, Content>, disk: map<Key, Content>)

  /** What the tiers do beside what is asked: the block fits the memory tier, and which
      others it, and the disk tier, evict for it. */
  datatype Luck = Luck(fits: bool, fromMemory: set<Key>, fromDisk: set<Key>)

  // ---- the operations ----

  function InsertMemory(t: Tiers, k: Key, data: Content, luck: Luck): Tiers {
    if luck.fits then t.(memory := t.memory[k := data] - (luck.fromMemory - {k})) else t
  }

  /** The disk tier holds the block, its file can be read, and it is as long as it should be. */
  predicate DiskHit(t: Tiers, k: Key, len: int, readable: bool) {
    k in t.disk && readable && |t.disk[k]| == len
  }

  function Got(t: Tiers, k: Key, len: int, readable: bool): Option<Content> {
    if k in t.memory then Some(t.memory[k]) else if DiskHit(t, k, len, readable) then Some(t.disk[k]) else None
  }

  function AfterGet(t: Tiers, k: Key, len: int, readable: bool, luck: Luck): Tiers {
    if k in t.memory then t
    else if DiskHit(t, k, len, readable) then InsertMemory(t, k, t.disk[k], luck)
    else t.(disk := t.disk - {k})
  }

  function AfterPut(t: Tiers, k: Key, data: Content, written: bool, luck: Luck): Tiers {
    var kept := if written then t.(disk := t.disk[k := data] - (luck.fromDisk - {k})) else t;
    InsertMemory(kept, k, data, luck)
  }

  /** A new cache over the files an earlier one left. */
  function Reopened(t: Tiers, bs: nat): Tiers {
    Tiers(bs, map[], t.disk)
  }

  class SplitBlocks {
    const bs: nat
    var memory: map<Key, Content>
    var disk: map<Key, Content>

    function Contents(): Tiers
      reads this
    {
      Tiers(bs, memory, disk)
    }

    constructor (bs: nat, found: map<Key, Content>)
      ensures Contents() == Tiers(bs, map[], found)
    {
      this.bs, memory, disk := bs, map[], found;
    }

    /** A cached block, promoted to memory; a file that is gone, or of a wrong length, is dropped. */
    method GetBlock(k: Key, len: int, readable: bool, luck: Luck) returns (r: Option<Content>)
      modifies this
      ensures r == old(Got(Contents(), k, len, readable))
      ensures Contents() == old(AfterGet(Contents(), k, len, readable, luck))
    {
      if k in memory {
        return Some(memory[k]);
      }
      if k !in disk {
        assert disk - {k} == disk;
        return None;
      }
      if readable && |disk[k]| == len {
        r := Some(disk[k]);
        Keep(k, disk[k], luck);
      } else {
        disk := disk - {k};
        r := None;
      }
    }

    /** Store a fetched block in both tiers; a failed disk write leaves it in memory. */
    method PutBlock(k: Key, data: Content, written: bool, luck: Luck)
      modifies this
      ensures Contents() == old(AfterPut(Contents(), k, data, written, luck))
    {
      if written {
        disk := disk[k := data] - (luck.fromDisk - {k});
      }
      Keep(k, data, luck);
    }

    method Keep(k: Key, data: Content, luck: Luck)
      modifies this`memory
      ensures Contents() == old(InsertMemory(Contents(), k, data, luck))
    {
      if luck.fits {
        memory := memory[k := data] - (luck.fromMemory - {k});
      }
    }
  }

  /** What is put is got back, from memory if it fits there, else from the disk file;
      nothing new is held for any other block, and nothing held is changed. */
  lemma PutThenGet(t: Tiers, k: Key, data: Content, written: bool, luck: Luck, len: int, readable: bool)
    ensures var t' := AfterPut(t, k, data, written, luck);
            && (luck.fits ==> Got(t', k, len, readable) == Some(data))
            && (!luck.fits && k !in t.memory && written && readable && len == |data| ==>
                  Got(t', k, len, readable) == Some(data))
            && (forall j :: j != k && j in t'.memory ==> j in t.memory && t'.memory[j] == t.memory[j])
            && (forall j :: j != k && j in t'.disk ==> j in t.disk && t'.disk[j] == t.disk[j])
            && (forall j :: j != k ==>
                  (j in t'.memory <==> j in t.memory && !(luck.fits && j in luck.fromMemory)))
            && (forall j :: j != k ==> (j in t'.disk <==> j in t.disk && !(written && j in luck.fromDisk)))
            && (if written then k in t'.disk && t'.disk[k] == data else t'.disk == t.disk)
  {
  }

  /** A block served from disk is served from memory the next time, if it fits there. */
  lemma GetPromotes(t: Tiers, k: Key, len: int, readable: bool, luck: Luck, len': int, readable': bool)
    requires luck.fits && Got(t, k, len, readable).Some?
    ensures Got(AfterGet(t, k, len, readable, luck), k, len', readable') == Got(t, k, len, readable)
  {
  }

  /** A get touches no other block's file, and leaves the block without one exactly if
      it had none or, not being in memory, had one that cannot be read or is of a wrong
      length. Those are also the blocks it does not serve. */
  lemma GetDrops(t: Tiers, k: Key, len: int, readable: bool, luck: Luck)
    ensures var t' := AfterGet(t, k, len, readable, luck);
            && (k !in t'.disk <==> k !in t.disk || (k !in t.memory && (!readable || |t.disk[k]| != len)))
            && (forall j :: j in t'.disk <==> j in t.disk && (j == k ==> k in t'.disk))
            && (forall j :: j in t'.disk ==> t'.disk[j] == t.disk[j])
            && (Got(t, k, len, readable).None? <==>
                  k !in t.memory && (k !in t.disk || !readable || |t.disk[k]| != len))
            && (forall j :: j != k && j in t'.memory ==> j in t.memory && t'.memory[j] == t.memory[j])
  {
  }

  /** A cache opened over the files an earlier one left serves them, if they can be read
      and have the length asked for, and nothing else. */
  lemma ReopenAdopts(t: Tiers, bs: nat, k: Key, len: int, readable: bool)
    ensures Got(Reopened(t, bs), k, len, readable) ==
            if k in t.disk && readable && |t.disk[k]| == len then Some(t.disk[k]) else None
  {
  }

  // ---- runs ----

  datatype Op =
    | Get(k: Key, len: int, readable: bool, luck: Luck)
    | Put(k: Key, data: Content, written: bool, luck: Luck)
    | Reopen(bs: nat)

  function Do(t: Tiers, op: Op): Tiers {
    match op
    case Get(k, len, readable, luck) => AfterGet(t, k, len, readable, luck)
    case Put(k, data, written, luck) => AfterPut(t, k, data, written, luck)
    case Reopen(bs) => Reopened(t, bs)
  }

  /** The block is the named file's own, cut at `bs`. */
  ghost predicate Own(files: map<nat, Content>, bs: nat, k: Key, data: Content) {
    k.0 in files && InFile(files[k.0], bs, k.1) && data == BlockOf(files[k.0], bs, k.1)
  }

  ghost predicate Asks(files: map<nat, Content>, bs: nat, k: Key, len: int) {
    k.0 in files && InFile(files[k.0], bs, k.1) && len == BlockLen(|files[k.0]|, bs, k.1)
  }

  /** Readers ask for blocks the file has, by their length, and put what they fetched. */
  ghost predicate Faithful(files: map<nat, Content>, t: Tiers, op: Op) {
    match op
    case Get(k, len, _, _) => Asks(files, t.bs, k, len)
    case Put(k, data, _, _) => Own(files, t.bs, k, data)
    case Reopen(_) => true
  }

  ghost predicate Follows(files: map<nat, Content>, ts: seq<Tiers>, ops: seq<Op>, i: nat) {
    i < |ops| && i + 1 < |ts| && Faithful(files, ts[i], ops[i]) && ts[i + 1] == Do(ts[i], ops[i])
  }

  ghost predicate Run(files: map<nat, Content>, ts: seq<Tiers>, ops: seq<Op>) {
    && |ts| == |ops| + 1 && ts[0].memory == map[] && ts[0].disk == map[]
    && forall i :: 0 <= i < |ops| ==> Follows(files, ts, ops, i)
  }

  /** The block sizes in use up to point `i`. */
  ghost function Sizes(ts: seq<Tiers>, i: nat): set<nat>
    requires i < |ts|
  {
    set n | 0 <= n <= i :: ts[n].bs
  }

  ghost predicate CutAtSome(files: map<nat, Content>, sizes: set<nat>, k: Key, data: Content) {
    exists bs :: bs in sizes && Own(files, bs, k, data)
  }

  /** Everything held was cut at a block size in use so far; what is in memory also has
      the length the current one asks for. */
  ghost predicate Held(files: map<nat, Content>, sizes: set<nat>, t: Tiers) {
    && t.bs in sizes
    && (forall k :: k in t.disk ==> CutAtSome(files, sizes, k, t.disk[k]))
    && (forall k :: k in t.memory ==>
          CutAtSome(files, sizes, k, t.memory[k]) && Asks(files, t.bs, k, |t.memory[k]|))
  }

  lemma OwnIsCut(files: map<nat, Content>, sizes: set<nat>, bs: nat, k: Key, data: Content)
    requires bs in sizes && Own(files, bs, k, data)
    ensures CutAtSome(files, sizes, k, data) && Asks(files, bs, k, |data|)
  {
  }

  lemma OpKeepsHeld(files: map<nat, Content>, sizes: set<nat>, t: Tiers, op: Op)
    requires Held(files, sizes, t) && Faithful(files, t, op) && !op.Reopen?
    ensures Held(files, sizes, Do(t, op))
  {
    if op.Put? {
      OwnIsCut(files, sizes, t.bs, op.k, op.data);
    }
  }

  lemma ReopenKeepsHeld(files: map<nat, Content>, sizes: set<nat>, sizes': set<nat>, t: Tiers, bs: nat)
    requires Held(files, sizes, t) && sizes <= sizes' && bs in sizes'
    ensures Held(files, sizes', Reopened(t, bs))
  {
    forall k | k in t.disk
      ensures CutAtSome(files, sizes', k, t.disk[k])
    {
      var b :| b in sizes && Own(files, b, k, t.disk[k]);
      assert b in sizes';
    }
  }

  lemma {:induction false} RunKeepsHeld(files: map<nat, Content>, ts: seq<Tiers>, ops: seq<Op>, i: nat)
    requires Run(files, ts, ops) && i < |ts|
    ensures Held(files, Sizes(ts, i), ts[i])
  {
    if i > 0 {
      RunKeepsHeld(files, ts, ops, i - 1);
      assert Follows(files, ts, ops, i - 1);
      if ops[i - 1].Reopen? {
        ReopenKeepsHeld(files, Sizes(ts, i - 1), Sizes(ts, i), ts[i - 1], ops[i - 1].bs);
      } else {
        OpKeepsHeld(files, Sizes(ts, i - 1), ts[i - 1], ops[i - 1]);
        assert Sizes(ts, i) == Sizes(ts, i - 1);
      }
    }
  }

  // ---- when an adopted block is the file's own ----

  lemma {:induction false} PlaceWider(index: nat, b: nat, bs: nat)
    requires b < bs && 0 < index
    ensures Place(index, b) < Place(index, bs)
  {
    if index > 1 {
      PlaceWider(index - 1, b, bs);
    }
  }

  /** A block past the first that is the short last one at one size, and as long as a
      full one at the other. */
  predicate Confusable(len: nat, b: nat, bs: nat, index: nat) {
    && 0 < index
    && (if bs < b then len == Place(index, b) + bs else b < bs && len == Place(index, bs) + b)
  }

  /** Blocks of different sizes pass the length check for each other exactly at the
      start of the file or when they can be confused. */
  lemma PassesIff(len: nat, b: nat, bs: nat, index: nat)
    requires 0 < index && b != bs && Place(index, b) < len && Place(index, bs) < len
    ensures BlockLen(len, b, index) == BlockLen(len, bs, index) <==> Confusable(len, b, bs, index)
  {
    if b < bs {
      PlaceWider(index, b, bs);
    } else {
      PlaceWider(index, bs, b);
    }
  }

  /** A block cut at `b` that passes the length check at `bs` is the file's own, unless
      it can be confused. */
  lemma PassingIsOwn(f: Content, b: nat, bs: nat, index: nat)
    requires InFile(f, b, index) && InFile(f, bs, index) && BlockLen(|f|, b, index) == BlockLen(|f|, bs, index)
    requires !Confusable(|f|, b, bs, index)
    ensures BlockOf(f, b, index) == BlockOf(f, bs, index)
  {
    if index == 0 {
      assert Place(0, b) == Place(0, bs);
    } else if b != bs {
      PassesIff(|f|, b, bs, index);
    }
  }

  /** Whatever the file's bytes, an adopted block of a `len`-byte file that is served is
      the file's own. */
  ghost predicate AdoptionSafe(len: nat, b: nat, bs: nat, index: nat) {
    forall f: Content ::
      && |f| == len && InFile(f, b, index) && InFile(f, bs, index)
      && |BlockOf(f, b, index)| == BlockLen(len, bs, index) ==>
        BlockOf(f, b, index) == BlockOf(f, bs, index)
  }

  /** A file whose one marked byte tells the two blocks apart. */
  lemma ConfusedFile(len: nat, b: nat, bs: nat, index: nat) returns (f: Content)
    requires 0 < b && 0 < bs && Confusable(len, b, bs, index)
    ensures |f| == len && InFile(f, b, index) && InFile(f, bs, index)
    ensures |BlockOf(f, b, index)| == BlockLen(len, bs, index) && BlockOf(f, b, index) != BlockOf(f, bs, index)
  {
    var mark := Place(index, bs);
    f := seq(len, i => if i == mark then 1 else 0);
    if b < bs {
      PlaceWider(index, b, bs);
    } else {
      PlaceWider(index, bs, b);
    }
    PassesIff(len, b, bs, index);
    assert BlockOf(f, bs, index)[0] == f[mark] == 1;
    assert BlockOf(f, b, index)[0] == f[Place(index, b)] == 0;
  }

  /** Adopting a block across block sizes is safe exactly when it cannot be confused. */
  lemma AdoptionSafeIff(len: nat, b: nat, bs: nat, index: nat)
    requires 0 < b && 0 < bs
    ensures AdoptionSafe(len, b, bs, index) <==> !Confusable(len, b, bs, index)
  {
    if Confusable(len, b, bs, index) {
      var f := ConfusedFile(len, b, bs, index);
    } else {
      forall f: Content | && |f| == len && InFile(f, b, index) && InFile(f, bs, index)
                          && |BlockOf(f, b, index)| == BlockLen(len, bs, index)
        ensures BlockOf(f, b, index) == BlockOf(f, bs, index)
      {
        PassingIsOwn(f, b, bs, index);
      }
    }
  }

  /** Over every run of reads, writes, evictions, failures and restarts, whatever the
      block sizes: a served block is the file's own if no size used so far can be
      confused with the current one there; one block size throughout cannot. */
  lemma ServedIsOwn(files: map<nat, Content>, ts: seq<Tiers>, ops: seq<Op>, i: nat, k: Key, len: int, readable: bool)
    requires Run(files, ts, ops) && i < |ts| && Asks(files, ts[i].bs, k, len) && Got(ts[i], k, len, readable).Some?
    requires forall b :: b in Sizes(ts, i) ==> !Confusable(|files[k.0]|, b, ts[i].bs, k.1)
    ensures Own(files, ts[i].bs, k, Got(ts[i], k, len, readable).value)
  {
    RunKeepsHeld(files, ts, ops, i);
    var data := Got(ts[i], k, len, readable).value;
    assert CutAtSome(files, Sizes(ts, i), k, data) && |data| == len;
    var b :| b in Sizes(ts, i) && Own(files, b, k, data);
    PassingIsOwn(files[k.0], b, ts[i].bs, k.1);
  }

  /** With one block size, whatever a reader finds cached of a file is coherent. */
  lemma CachedIsCoherent(files: map<nat, Content>, ts: seq<Tiers>, ops: seq<Op>, i: nat, file: nat,
                         cached: map<nat, Content>)
    requires Run(files, ts, ops) && i < |ts| && 0 < ts[i].bs && file in files
    requires forall n :: 0 <= n <= i ==> ts[n].bs == ts[i].bs
    requires forall n :: n in cached ==>
               && InFile(files[file], ts[i].bs, n)
               && Got(ts[i], (file, n), BlockLen(|files[file]|, ts[i].bs, n), true) == Some(cached[n])
    ensures Coherent(cached, files[file], ts[i].bs)
  {
    forall n | n in cached
      ensures cached[n] == BlockOf(files[file], ts[i].bs, n)
    {
      ServedIsOwn(files, ts, ops, i, (file, n), BlockLen(|files[file]|, ts[i].bs, n), true);
    }
  }

  /** A three-byte file cached at block size 2 leaves its last byte as block 1; reopened
      at block size 1, that is served for its second byte. */
  method StaleBlockServed() returns (r: Option<Content>)
    ensures var f: Content := [7, 8, 9];
            && InFile(f, 2, 1) && InFile(f, 1, 1) && r == Some(BlockOf(f, 2, 1)) && r != Some(BlockOf(f, 1, 1))
  {
    var f: Content := [7, 8, 9];
    var luck := Luck(true, {}, {});
    var before := new SplitBlocks(2, map[]);
    before.PutBlock((0, 1), f[2..3], true, luck);
    var after := new SplitBlocks(1, before.disk);
    r := after.GetBlock((0, 1), 1, true, luck);
    assert Place(1, 2) == 2 && Place(1, 1) == 1;
    assert BlockOf(f, 1, 1)[0] == 8 && BlockOf(f, 2, 1)[0] == 9;
  }
}
