/** The write-sequence clock: wall-clock micros shifted left by ten bits with a
per-node salt in the low bits, pushed past everything the node has observed. */
module SeqClock {
  import opened Prelude

  /** 2 to the power of the ten salt bits. */
  const SALT_SPAN: int := 1024
  /** `i64::MAX >> 10`. */
  const MAX_SLOT: int := 0x1f_ffff_ffff_ffff

  predicate IsSalt(salt: int) {
    0 <= salt < SALT_SPAN
  }

  function Max(a: int, b: int): int {
    if a < b then b else a
  }

  /** The salted stamp one slot past the slot of `last`, saturating at the top. */
  function StampAfter(salt: int, last: int): (stamp: int)
    requires IsSalt(salt) && IsI64(last)
    ensures IsI64(stamp)
  {
    var slot := last / SALT_SPAN + 1;
    if slot > MAX_SLOT then I64_MAX else slot * SALT_SPAN + salt
  }

  /** The wall-clock part: micros clamped into range, salted. */
  function WallStamp(salt: int, micros: int): (stamp: int)
    requires IsSalt(salt)
    ensures 0 <= stamp <= I64_MAX
  {
    var clamped := if micros < 0 then 0 else if micros > MAX_SLOT then MAX_SLOT else micros;
    clamped * SALT_SPAN + salt
  }

  /** Room is left above `last` for another salted stamp. */
  predicate BelowTop(last: int) {
    last / SALT_SPAN < MAX_SLOT
  }

  function NextStamp(salt: int, last: int, micros: int): (stamp: int)
    requires IsSalt(salt) && IsI64(last)
    ensures IsI64(stamp)
  {
    Max(WallStamp(salt, micros), StampAfter(salt, last))
  }

  /** A stamp never lags a wall clock in range, and is the wall clock's own, salted, when
      the clock has not reached its slot. */
  lemma NextFollowsWall(salt: int, last: int, micros: int)
    requires IsSalt(salt) && IsI64(last) && 0 <= micros <= MAX_SLOT
    ensures micros * SALT_SPAN <= NextStamp(salt, last, micros)
    ensures last < micros * SALT_SPAN ==> NextStamp(salt, last, micros) == micros * SALT_SPAN + salt
    ensures micros * SALT_SPAN <= last && BelowTop(last) ==>
              NextStamp(salt, last, micros) == (last / SALT_SPAN + 1) * SALT_SPAN + salt
  {
    assert last == last / SALT_SPAN * SALT_SPAN + last % SALT_SPAN;
    if last < micros * SALT_SPAN {
      assert last / SALT_SPAN < micros;
    } else {
      assert micros <= last / SALT_SPAN;
    }
  }

  /** Salt 1 at the first microsecond, past stamp 5000 at the second, and at the end of time. */
  lemma StampExample()
    ensures NextStamp(1, 0, 1) == 1025 && NextStamp(1, -1, 3) == 3073 && NextStamp(1, 5000, 2) == 5121
    ensures NextStamp(1, 0, I64_MAX) == 9_223_372_036_854_774_785
  {
  }

  /** A stamp exceeds the clock exactly until the clock reaches the top. */
  lemma NextExceedsIff(salt: int, last: int, micros: int)
    requires IsSalt(salt) && IsI64(last)
    ensures NextStamp(salt, last, micros) > last <==> last < I64_MAX
  {
    assert last == last / SALT_SPAN * SALT_SPAN + last % SALT_SPAN;
  }

  /** A stamp carries the node's salt exactly when the top was not hit (or the salt is all ones). */
  lemma NextCarriesSaltIff(salt: int, last: int, micros: int)
    requires IsSalt(salt) && IsI64(last)
    ensures NextStamp(salt, last, micros) % SALT_SPAN == salt <==> BelowTop(last) || salt == SALT_SPAN - 1
  {
    var w := WallStamp(salt, micros);
    assert w / SALT_SPAN <= MAX_SLOT && w % SALT_SPAN == salt;
  }

  /** Among salted stamps, `s` is the lowest above `last`. */
  ghost predicate LowestAbove(salt: int, last: int, s: int) {
    && s % SALT_SPAN == salt && last < s
    && forall x :: x % SALT_SPAN == salt && last < x ==> s <= x
  }

  /** The stamp after `last` is the lowest salted one above it exactly when
      `last` sits at or past the salt within its own slot; otherwise one lower
      salted stamp is skipped. */
  lemma StampAfterIsLowestIff(salt: int, last: int)
    requires IsSalt(salt) && IsI64(last) && BelowTop(last)
    ensures LowestAbove(salt, last, StampAfter(salt, last)) <==> salt <= last % SALT_SPAN
  {
    var slot := last / SALT_SPAN;
    var s := StampAfter(salt, last);
    var lower := slot * SALT_SPAN + salt;
    assert last == slot * SALT_SPAN + last % SALT_SPAN;
    assert lower % SALT_SPAN == salt && s == lower + SALT_SPAN && s % SALT_SPAN == salt;
    if salt <= last % SALT_SPAN {
      forall x | x % SALT_SPAN == salt && last < x
        ensures s <= x
      {
        assert x == x / SALT_SPAN * SALT_SPAN + salt;
        assert slot < x / SALT_SPAN;
      }
    }
  }

  /** Salt 5 just after stamp 0: stamp 5 is skipped for the one in the next slot. */
  lemma LowerStampSkipped()
    ensures StampAfter(5, 0) == SALT_SPAN + 5 && !LowestAbove(5, 0, StampAfter(5, 0)) && LowestAbove(5, 0, 5)
  {
    StampAfterIsLowestIff(5, 0);
  }

  class SeqClock {
    var last: int
    const salt: int

    ghost predicate Valid()
      reads this
    {
      IsSalt(salt) && IsI64(last)
    }

    /** The salt is the low ten bits of a hash of the node id. */
    constructor (nodeHash: int)
      ensures Valid() && last == 0 && salt == nodeHash % SALT_SPAN
    {
      last := 0;
      salt := nodeHash % SALT_SPAN;
    }

    /** The clock never falls behind a stamp another node minted. */
    method Observe(seen: int)
      requires Valid() && IsI64(seen)
      modifies this
      ensures Valid() && last == Max(old(last), seen)
    {
      last := Max(last, seen);
    }

    /** `micros` is what the wall clock reads; it may go backwards. */
    method Next(micros: int) returns (stamp: int)
      requires Valid()
      modifies this
      ensures Valid() && stamp == last == NextStamp(salt, old(last), micros)
      ensures old(last) < I64_MAX ==> old(last) < stamp
      ensures BelowTop(old(last)) ==> stamp % SALT_SPAN == salt
    {
      NextExceedsIff(salt, last, micros);
      NextCarriesSaltIff(salt, last, micros);
      var now := WallStamp(salt, micros);
      var after := StampAfter(salt, last);
      last := if now < after then after else now;
      stamp := last;
    }
  }

  // ---- a cluster of clocks ----

  datatype Event = Observed(node: nat, seen: int) | Minted(node: nat, micros: int)

  /** Each node's salt and clock. */
  datatype Clocks = Clocks(salts: seq<int>, lasts: seq<int>)

  ghost predicate ValidClocks(c: Clocks) {
    && |c.salts| == |c.lasts|
    && (forall n :: 0 <= n < |c.salts| ==> IsSalt(c.salts[n]) && IsI64(c.lasts[n]))
  }

  ghost predicate ValidEvent(c: Clocks, e: Event) {
    e.node < |c.lasts| && (e.Observed? ==> IsI64(e.seen))
  }

  ghost function Tick(c: Clocks, e: Event): Clocks
    requires ValidClocks(c) && ValidEvent(c, e)
  {
    c.(lasts := c.lasts[e.node :=
      if e.Observed? then Max(c.lasts[e.node], e.seen)
      else NextStamp(c.salts[e.node], c.lasts[e.node], e.micros)])
  }

  /** A run of the cluster, with every clock below the top throughout. */
  ghost predicate ClusterRun(cs: seq<Clocks>, es: seq<Event>) {
    && |cs| == |es| + 1
    && (forall i :: 0 <= i < |cs| ==> ValidClocks(cs[i]) && cs[i].salts == cs[0].salts)
    && (forall i :: 0 <= i < |es| ==>
          ValidEvent(cs[i], es[i]) && cs[i + 1] == Tick(cs[i], es[i]) && BelowTop(cs[i].lasts[es[i].node]))
  }

  /** The stamp event `i` minted. */
  ghost function StampOf(cs: seq<Clocks>, es: seq<Event>, i: nat): int
    requires ClusterRun(cs, es) && i < |es|
  {
    cs[i + 1].lasts[es[i].node]
  }

  lemma {:induction false} ClocksOnlyAdvance(cs: seq<Clocks>, es: seq<Event>, i: nat, j: nat, n: nat)
    requires ClusterRun(cs, es) && i <= j <= |es| && n < |cs[0].salts|
    ensures cs[i].lasts[n] <= cs[j].lasts[n]
    decreases j
  {
    if i < j {
      ClocksOnlyAdvance(cs, es, i, j - 1, n);
      var e := es[j - 1];
      if e.Minted? {
        NextExceedsIff(cs[j - 1].salts[e.node], cs[j - 1].lasts[e.node], e.micros);
      }
    }
  }

  /** A stamp exceeds every stamp the node minted and everything it observed before. */
  lemma MintedExceedsPast(cs: seq<Clocks>, es: seq<Event>, i: nat, j: nat)
    requires ClusterRun(cs, es) && i < j < |es| && es[i].node == es[j].node && es[j].Minted?
    ensures es[i].Minted? ==> StampOf(cs, es, i) < StampOf(cs, es, j)
    ensures es[i].Observed? ==> es[i].seen < StampOf(cs, es, j)
  {
    var n := es[j].node;
    ClocksOnlyAdvance(cs, es, i + 1, j, n);
    NextExceedsIff(cs[j].salts[n], cs[j].lasts[n], es[j].micros);
  }

  /** No two events of the whole cluster mint the same stamp, when nodes have different salts. */
  lemma StampsAreUnique(cs: seq<Clocks>, es: seq<Event>, i: nat, j: nat)
    requires ClusterRun(cs, es) && i < j < |es| && es[i].Minted? && es[j].Minted?
    requires forall a, b :: 0 <= a < b < |cs[0].salts| ==> cs[0].salts[a] != cs[0].salts[b]
    ensures StampOf(cs, es, i) != StampOf(cs, es, j)
  {
    if es[i].node == es[j].node {
      MintedExceedsPast(cs, es, i, j);
    } else {
      MintedCarriesSalt(cs, es, i);
      MintedCarriesSalt(cs, es, j);
    }
  }

  lemma MintedCarriesSalt(cs: seq<Clocks>, es: seq<Event>, i: nat)
    requires ClusterRun(cs, es) && i < |es| && es[i].Minted?
    ensures StampOf(cs, es, i) % SALT_SPAN == cs[0].salts[es[i].node]
  {
    var n := es[i].node;
    NextCarriesSaltIff(cs[i].salts[n], cs[i].lasts[n], es[i].micros);
  }

  /** A write that observed a bound is stamped above it, hence not hidden by it. */
  lemma ObservedBoundNeverHides(cs: seq<Clocks>, es: seq<Event>, i: nat, j: nat, bound: int)
    requires ClusterRun(cs, es) && i < j < |es| && es[i] == Observed(es[j].node, bound) && es[j].Minted?
    ensures !(StampOf(cs, es, j) < bound)
  {
    MintedExceedsPast(cs, es, i, j);
  }
}
