/** The bounded heap of a top-k collector. */
module TopHeap {
  import opened Prelude
  import opened Ranking

  /** `heap` holds the first `limit` of `seen`, in any order. */
  ghost predicate Keeps<T(!new)>(lt: Order<T>, limit: nat, seen: set<T>, heap: seq<T>) {
    && NoRepeats(heap) && |heap| == Min(limit, |seen|)
    && (forall i :: 0 <= i < |heap| ==> heap[i] in seen)
    && (forall x, i :: x in seen && x !in heap && 0 <= i < |heap| ==> lt(heap[i], x))
  }

  predicate LastAt<T(!new)>(lt: Order<T>, heap: seq<T>, at: nat) {
    at < |heap| && forall i :: 0 <= i < |heap| && i != at ==> lt(heap[i], heap[at])
  }

  lemma PushKeeps<T(!new)>(lt: Order<T>, limit: nat, seen: set<T>, heap: seq<T>, x: T)
    requires Keeps(lt, limit, seen, heap) && |heap| < limit && x !in seen
    ensures Keeps(lt, limit, seen + {x}, heap + [x])
  {
    NoRepeatsSize(heap);
    SubsetSize(Elems(heap), seen);
    assert Elems(heap) == seen;
  }

  lemma SkipKeeps<T(!new)>(lt: Order<T>, limit: nat, seen: set<T>, heap: seq<T>, x: T, at: nat)
    requires Keeps(lt, limit, seen, heap) && |heap| == limit && x !in seen && Total(lt, seen + {x})
    requires LastAt(lt, heap, at) && !lt(x, heap[at])
    ensures Keeps(lt, limit, seen + {x}, heap)
  {
    assert heap[at] in seen + {x} && lt(heap[at], x);
    forall i | 0 <= i < |heap|
      ensures lt(heap[i], x)
    {
      assert heap[i] in seen + {x};
    }
  }

  lemma ReplaceKeeps<T(!new)>(lt: Order<T>, limit: nat, seen: set<T>, heap: seq<T>, x: T, at: nat)
    requires Keeps(lt, limit, seen, heap) && |heap| == limit && x !in seen && Total(lt, seen + {x})
    requires LastAt(lt, heap, at) && lt(x, heap[at])
    ensures Keeps(lt, limit, seen + {x}, heap[..at] + heap[at + 1..] + [x])
  {
    var last, out := heap[at], heap[..at] + heap[at + 1..] + [x];
    assert forall i :: 0 <= i < |out| ==>
      out[i] == if i < at then heap[i] else if i < |heap| - 1 then heap[i + 1] else x;
    assert forall i :: 0 <= i < |heap| && i != at ==> heap[i] == out[if i < at then i else i - 1];
    assert out[|out| - 1] == x;
    forall y, i | y in seen + {x} && y !in out && 0 <= i < |out|
      ensures lt(out[i], y)
    {
      assert y != x && y in seen && last in seen + {x} && out[i] in seen + {x};
      assert out[i] == x || lt(out[i], last);
      if y != last {
        assert y !in heap;
        assert lt(last, y);
      }
    }
  }

  /** Keeps the first `limit` of what it was shown; its last-ranked member is the
      one to give up. The library heap's layout is not modelled: `heap` is a bag
      whose last-ranked member can be found. */
  class TopHeap<T(!new)> {
    const lt: Order<T>
    const limit: nat
    var heap: seq<T>
    ghost var seen: set<T>

    ghost predicate Valid()
      reads this
    {
      0 < limit && Keeps(lt, limit, seen, heap)
    }

    constructor (lt: Order<T>, limit: nat)
      ensures Valid() && seen == {} && this.lt == lt && this.limit == if limit == 0 then 1 else limit
    {
      this.lt := lt;
      this.limit := if limit == 0 then 1 else limit;
      heap := [];
      seen := {};
    }

    method Peek() returns (at: nat)
      requires Valid() && heap != [] && Total(lt, seen)
      ensures LastAt(lt, heap, at)
    {
      at := 0;
      for j := 1 to |heap|
        invariant at < j
        invariant forall i :: 0 <= i < j && i != at ==> lt(heap[i], heap[at])
      {
        if lt(heap[at], heap[j]) {
          at := j;
        }
      }
    }

    /** Show one more member: kept if there is room or if it ranks before the last. */
    method Collect(x: T)
      requires Valid() && x !in seen && Total(lt, seen + {x})
      modifies this
      ensures Valid() && seen == old(seen) + {x}
    {
      if |heap| < limit {
        PushKeeps(lt, limit, seen, heap, x);
        heap := heap + [x];
      } else {
        var at := Peek();
        if lt(x, heap[at]) {
          ReplaceKeeps(lt, limit, seen, heap, x, at);
          heap := heap[..at] + heap[at + 1..] + [x];
        } else {
          SkipKeeps(lt, limit, seen, heap, x, at);
        }
      }
      seen := seen + {x};
    }

    /** The kept members, in order: the first `limit` of everything shown. */
    method Harvest() returns (r: seq<T>)
      requires Valid() && Total(lt, seen)
      ensures IsTop(lt, seen, limit, r)
    {
      assert Elems(heap) <= seen;
      r := SortBy(lt, heap);
      SortedKept(lt, limit, seen, heap, r);
    }
  }

  lemma SortedKept<T(!new)>(lt: Order<T>, limit: nat, seen: set<T>, heap: seq<T>, r: seq<T>)
    requires Keeps(lt, limit, seen, heap) && Sorted(lt, r) && |r| == |heap| && Elems(r) == Elems(heap)
    ensures IsTop(lt, seen, limit, r)
  {
    forall i | 0 <= i < |r|
      ensures r[i] in heap
    {
      assert r[i] in Elems(r);
    }
    forall x, i | x in seen && x !in r && 0 <= i < |r|
      ensures lt(r[i], x)
    {
      assert x !in Elems(heap);
      var j :| 0 <= j < |heap| && heap[j] == r[i];
    }
  }
}
