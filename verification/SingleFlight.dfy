/** Single-flight fetching: readers claim missing blocks, fetch them, release them,
and wait for blocks other readers are fetching. */
module SingleFlight {

  type File = nat
  type Key = (File, nat)

  // ---- claiming ----

  function KeysOf(file: File, indices: seq<nat>): set<Key> {
    set i | i in indices :: (file, i)
  }

  ghost predicate Distinct(indices: seq<nat>) {
    forall i, j :: 0 <= i < j < |indices| ==> indices[i] != indices[j]
  }

  class SplitCache {
    var inflight: set<Key>

    constructor ()
      ensures inflight == {}
    {
      inflight := {};
    }

    /** Split the wanted blocks into those now claimed and those already in flight. */
    method Claim(file: File, indices: seq<nat>) returns (mine: seq<nat>, theirs: seq<nat>)
      requires Distinct(indices)
      modifies this
      ensures KeysOf(file, mine) == KeysOf(file, indices) - old(inflight)
      ensures KeysOf(file, theirs) == KeysOf(file, indices) * old(inflight)
      ensures inflight == old(inflight) + KeysOf(file, mine) && Distinct(mine)
    {
      mine, theirs := [], [];
      for n := 0 to |indices|
        invariant forall i :: i in mine <==> i in indices[..n] && (file, i) !in old(inflight)
        invariant forall i :: i in theirs <==> i in indices[..n] && (file, i) in old(inflight)
        invariant inflight == old(inflight) + KeysOf(file, mine) && Distinct(mine)
      {
        var index := indices[n];
        assert index !in indices[..n] && indices[..n + 1] == indices[..n] + [index];
        if (file, index) !in inflight {
          inflight := inflight + {(file, index)};
          mine := mine + [index];
        } else {
          theirs := theirs + [index];
        }
      }
      assert indices[..|indices|] == indices;
    }

    /** Dropping a claim releases its blocks. */
    method Release(file: File, mine: seq<nat>)
      modifies this
      ensures inflight == old(inflight) - KeysOf(file, mine)
    {
      for n := 0 to |mine|
        invariant inflight == old(inflight) - KeysOf(file, mine[..n])
      {
        inflight := inflight - {(file, mine[n])};
        assert mine[..n + 1] == mine[..n] + [mine[n]];
      }
      assert mine[..|mine|] == mine;
    }
  }

  // ---- every interleaving ----

  /** A reader: running, holding a claim while it fetches, or waiting. */
  datatype Reader = Running | Fetching(mine: set<Key>, theirs: set<Key>) | Waiting(theirs: set<Key>)

  datatype State = State(inflight: set<Key>, readers: map<nat, Reader>)

  /** A reader arrives; claims blocks; its fetch ends, well or badly, and the claim
      is dropped; a waiting reader finds none of its blocks in flight. */
  datatype Step =
    | Arrive(r: nat)
    | ClaimStep(r: nat, wanted: set<Key>)
    | Done(r: nat)
    | Fail(r: nat)
    | Wake(r: nat)

  const INITIAL := State({}, map[])

  predicate Enabled(s: State, step: Step) {
    match step
    case Arrive(r) => r !in s.readers
    case ClaimStep(r, wanted) => r in s.readers && s.readers[r].Running?
    case Done(r) => r in s.readers && s.readers[r].Fetching?
    case Fail(r) => r in s.readers && s.readers[r].Fetching?
    case Wake(r) => r in s.readers && s.readers[r].Waiting? && s.readers[r].theirs !! s.inflight
  }

  function Apply(s: State, step: Step): State
    requires Enabled(s, step)
  {
    match step
    case Arrive(r) => s.(readers := s.readers[r := Running])
    case ClaimStep(r, wanted) =>
      State(s.inflight + wanted, s.readers[r := Fetching(wanted - s.inflight, wanted * s.inflight)])
    case Done(r) =>
      var claim := s.readers[r];
      State(s.inflight - claim.mine, s.readers[r := if claim.theirs == {} then Running else Waiting(claim.theirs)])
    case Fail(r) => State(s.inflight - s.readers[r].mine, s.readers[r := Running])
    case Wake(r) => s.(readers := s.readers[r := Running])
  }

  function Owned(s: State, r: nat): set<Key> {
    if r in s.readers && s.readers[r].Fetching? then s.readers[r].mine else {}
  }

  /** The in-flight set is the disjoint union of what the live claims own. */
  ghost predicate Inv(s: State) {
    && (forall k :: k in s.inflight <==> exists r :: r in s.readers && k in Owned(s, r))
    && (forall r, q :: r in s.readers && q in s.readers && r != q ==> Owned(s, r) !! Owned(s, q))
  }

  lemma OthersUnchanged(s: State, step: Step, q: nat)
    requires Enabled(s, step) && q != step.r
    ensures Owned(Apply(s, step), q) == Owned(s, q) && (q in Apply(s, step).readers <==> q in s.readers)
  {
  }

  lemma StepKeepsInv(s: State, step: Step)
    requires Inv(s) && Enabled(s, step)
    ensures Inv(Apply(s, step))
  {
    var s', r := Apply(s, step), step.r;
    assert s'.inflight == (s.inflight - Owned(s, r)) + Owned(s', r);
    assert Owned(s', r) !! (s.inflight - Owned(s, r));
    forall k
      ensures k in s'.inflight <==> exists q :: q in s'.readers && k in Owned(s', q)
    {
      InflightMembers(s, step, k);
    }
    forall p, q | p in s'.readers && q in s'.readers && p != q
      ensures Owned(s', p) !! Owned(s', q)
    {
      StillDisjoint(s, step, p, q);
    }
  }

  lemma InflightMembers(s: State, step: Step, k: Key)
    requires Inv(s) && Enabled(s, step)
    ensures var s' := Apply(s, step); k in s'.inflight <==> exists q :: q in s'.readers && k in Owned(s', q)
  {
    var s', r := Apply(s, step), step.r;
    if k in s'.inflight && k !in Owned(s', r) {
      var q :| q in s.readers && k in Owned(s, q);
      assert q != r;
      OthersUnchanged(s, step, q);
    }
    if q :| q in s'.readers && k in Owned(s', q) {
      if q != r {
        OthersUnchanged(s, step, q);
        assert k in s.inflight;
        assert r in s.readers ==> k !in Owned(s, r);
      }
    }
  }

  lemma StillDisjoint(s: State, step: Step, p: nat, q: nat)
    requires Inv(s) && Enabled(s, step)
    requires var s' := Apply(s, step); p in s'.readers && q in s'.readers && p != q
    ensures Owned(Apply(s, step), p) !! Owned(Apply(s, step), q)
  {
    var r := step.r;
    if p != r {
      OthersUnchanged(s, step, p);
      assert forall k :: k in Owned(s, p) ==> k in s.inflight;
    }
    if q != r {
      OthersUnchanged(s, step, q);
      assert forall k :: k in Owned(s, q) ==> k in s.inflight;
    }
  }

  // ---- runs ----

  ghost predicate Run(states: seq<State>, steps: seq<Step>) {
    |states| == |steps| + 1 && forall n :: 0 <= n < |steps| ==> Follows(states, steps, n)
  }

  lemma InitialInv()
    ensures Inv(INITIAL)
  {
  }

  /** Reachable from no readers at all. */
  lemma ReachableInv(states: seq<State>, steps: seq<Step>, n: nat)
    requires Run(states, steps) && states[0] == INITIAL && n < |states|
    ensures Inv(states[n])
  {
    InitialInv();
    RunKeepsInv(states, steps, n);
  }

  ghost predicate Follows(states: seq<State>, steps: seq<Step>, n: nat) {
    n < |steps| && n + 1 < |states| && Enabled(states[n], steps[n]) && states[n + 1] == Apply(states[n], steps[n])
  }

  lemma {:induction false} RunKeepsInv(states: seq<State>, steps: seq<Step>, n: nat)
    requires Run(states, steps) && Inv(states[0]) && n < |states|
    ensures Inv(states[n])
  {
    if n > 0 {
      RunKeepsInv(states, steps, n - 1);
      assert Follows(states, steps, n - 1);
      StepKeepsInv(states[n - 1], steps[n - 1]);
    }
  }

  /** A reader whose fetch ended goes on at once exactly if it found nothing taken, or the
      fetch failed; otherwise it waits for exactly what it found taken, until none of it
      is in flight. */
  lemma FetchEnds(s: State, r: nat)
    requires Enabled(s, Done(r))
    ensures var done := Apply(s, Done(r));
            && (done.readers[r].Running? <==> s.readers[r].theirs == {})
            && (done.readers[r].Running? || done.readers[r] == Waiting(s.readers[r].theirs))
            && (done.readers[r].Waiting? ==>
                  (Enabled(done, Wake(r)) <==> forall k :: k in s.readers[r].theirs ==> k !in done.inflight))
    ensures Apply(s, Fail(r)).readers[r].Running?
  {
  }

  /** A reader that has arrived, or has nothing left to wait for, can claim again, and
      nobody else notices. */
  lemma GoesOn(s: State, st: Step, wanted: set<Key>)
    requires Enabled(s, st) && (st.Arrive? || st.Wake?)
    ensures var after := Apply(s, st);
            && Enabled(after, ClaimStep(st.r, wanted)) && after.inflight == s.inflight
            && after.readers.Keys == s.readers.Keys + {st.r}
            && forall q :: q in s.readers && q != st.r ==> after.readers[q] == s.readers[q]
  {
  }

  /** A claim takes what nobody is fetching and leaves the rest to those who are. */
  lemma ClaimTakes(s: State, r: nat, wanted: set<Key>)
    requires Enabled(s, ClaimStep(r, wanted))
    ensures var after := Apply(s, ClaimStep(r, wanted));
            && after.readers[r].Fetching?
            && (forall k :: k in after.readers[r].mine <==> k in wanted && k !in s.inflight)
            && (forall k :: k in after.readers[r].theirs <==> k in wanted && k in s.inflight)
            && (forall k :: k in after.inflight <==> k in s.inflight || k in wanted)
  {
  }

  // ---- no reader blocks another forever ----

  /** A reader that cannot wake waits only for readers that hold a live claim, and
      those are fetching, not waiting: no chain of waits is longer than one. */
  lemma WaitsOnFetcher(s: State, r: nat)
    requires Inv(s) && r in s.readers && s.readers[r].Waiting? && !Enabled(s, Wake(r))
    ensures Owned(s, r) == {}
    ensures exists q :: Enabled(s, Done(q)) && Owned(s, q) * s.readers[r].theirs != {}
  {
    var k :| k in s.readers[r].theirs && k in s.inflight;
    var q :| q in s.readers && k in Owned(s, q);
    assert Enabled(s, Done(q)) && k in Owned(s, q) * s.readers[r].theirs;
  }

  ghost function Fetchers(s: State): set<nat> {
    set r | r in s.readers && s.readers[r].Fetching?
  }

  /** Steps that only end fetches, each with the reader's claim dropped. */
  ghost predicate OnlyEndings(steps: seq<Step>) {
    forall n :: 0 <= n < |steps| ==> steps[n].Done? || steps[n].Fail?
  }

  /** However the live fetches end, once each has ended nothing is in flight, every
      waiting reader can go on, and it took one step per fetch. */
  lemma {:induction false} EndingsFreeEveryone(states: seq<State>, steps: seq<Step>)
    requires Run(states, steps) && Inv(states[0]) && OnlyEndings(steps)
    ensures |Fetchers(states[|steps|])| == |Fetchers(states[0])| - |steps|
    ensures |steps| == |Fetchers(states[0])| ==>
              states[|steps|].inflight == {} &&
              forall r :: r in states[|steps|].readers && states[|steps|].readers[r].Waiting? ==>
                Enabled(states[|steps|], Wake(r))
    decreases |steps|
  {
    var n := |steps|;
    RunKeepsInv(states, steps, n);
    if n > 0 {
      var before, last := states[n - 1], steps[n - 1];
      RunPrefix(states, steps);
      EndingsFreeEveryone(states[..n], steps[..n - 1]);
      assert Follows(states, steps, n - 1);
      assert Fetchers(states[n]) == Fetchers(before) - {last.r};
    }
    var s := states[n];
    if |Fetchers(s)| == 0 {
      NoFetchersNothingInflight(s);
    }
  }

  lemma RunPrefix(states: seq<State>, steps: seq<Step>)
    requires Run(states, steps) && steps != []
    ensures Run(states[..|steps|], steps[..|steps| - 1])
  {
    var before, earlier := states[..|steps|], steps[..|steps| - 1];
    forall n | 0 <= n < |earlier|
      ensures Follows(before, earlier, n)
    {
      assert Follows(states, steps, n);
    }
  }

  lemma NoFetchersNothingInflight(s: State)
    requires Inv(s) && |Fetchers(s)| == 0
    ensures s.inflight == {}
  {
    assert Fetchers(s) == {};
    forall r | r in s.readers
      ensures Owned(s, r) == {}
    {
      assert r in Fetchers(s) <==> s.readers[r].Fetching?;
    }
  }

  /** While any fetch is live it can end, so such a run always exists. */
  lemma SomeEndingEnabled(s: State)
    requires Inv(s) && s.inflight != {}
    ensures exists r :: Enabled(s, Done(r)) && Enabled(s, Fail(r))
  {
    var k :| k in s.inflight;
    var r :| r in s.readers && k in Owned(s, r);
    assert Enabled(s, Done(r)) && Enabled(s, Fail(r));
  }
}
