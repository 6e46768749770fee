/** Selecting the first `k` of a set under an order: what a bounded collector, a
truncated merge and a resumed page each have to agree with. */
module Ranking {
  import opened Prelude

  type Order<!T> = (T, T) -> bool

  /** `lt` is a strict total order on the members of `s`. */
  ghost predicate Total<T(!new)>(lt: Order<T>, s: set<T>) {
    && (forall x :: x in s ==> !lt(x, x))
    && (forall x, y :: x in s && y in s && x != y ==> lt(x, y) || lt(y, x))
    && (forall x, y, z :: x in s && y in s && z in s && lt(x, y) && lt(y, z) ==> lt(x, z))
  }

  ghost predicate Sorted<T(!new)>(lt: Order<T>, r: seq<T>) {
    forall i, j :: 0 <= i < j < |r| ==> lt(r[i], r[j])
  }

  ghost function Elems<T(!new)>(r: seq<T>): set<T> {
    set x | x in r
  }

  /** `r` is the first `k` members of `s`, in order. */
  ghost predicate IsTop<T(!new)>(lt: Order<T>, s: set<T>, k: nat, r: seq<T>) {
    && Sorted(lt, r)
    && |r| == Min(k, |s|)
    && (forall i :: 0 <= i < |r| ==> r[i] in s)
    && (forall x, i :: x in s && x !in r && 0 <= i < |r| ==> lt(r[i], x))
  }

  // ---- sizes ----

  lemma SubsetSize<T>(a: set<T>, b: set<T>)
    requires a <= b
    ensures |a| <= |b|
    ensures |a| == |b| ==> a == b
  {
    assert b == a + (b - a);
  }

  lemma DistinctPlaces<T(!new)>(lt: Order<T>, s: set<T>, r: seq<T>, i: nat, j: nat)
    requires Total(lt, s) && Sorted(lt, r) && i < j < |r| && r[i] in s && r[j] in s
    ensures r[i] != r[j]
  {
    assert lt(r[i], r[j]) && !lt(r[j], r[j]);
  }

  /** A sorted sequence has no repeats. */
  lemma {:induction false} SortedSize<T(!new)>(lt: Order<T>, s: set<T>, r: seq<T>)
    requires Total(lt, s) && Sorted(lt, r) && (forall i :: 0 <= i < |r| ==> r[i] in s)
    ensures |Elems(r)| == |r|
  {
    if r == [] {
      assert Elems(r) == {};
    } else {
      var n := |r| - 1;
      SortedSize(lt, s, r[..n]);
      forall i | 0 <= i < n
        ensures r[..n][i] != r[n]
      {
        DistinctPlaces(lt, s, r, i, n);
      }
      assert Elems(r) == Elems(r[..n]) + {r[n]};
    }
  }

  lemma TopSize<T(!new)>(lt: Order<T>, s: set<T>, k: nat, r: seq<T>)
    requires Total(lt, s) && IsTop(lt, s, k, r)
    ensures Elems(r) <= s && |Elems(r)| == |r|
    ensures |s| <= k ==> Elems(r) == s
  {
    SortedSize(lt, s, r);
    SubsetSize(Elems(r), s);
  }

  // ---- the first k are determined, and are a prefix of the whole sorted list ----

  lemma {:induction false} TopIsPrefix<T(!new)>(lt: Order<T>, s: set<T>, k: nat, r: seq<T>, m: nat, f: seq<T>)
    requires Total(lt, s) && IsTop(lt, s, k, r) && IsTop(lt, s, m, f) && k <= m
    ensures |r| <= |f| && r == f[..|r|]
  {
    forall i | 0 <= i < |r|
      ensures r[i] == f[i]
    {
      SamePlace(lt, s, k, r, m, f, i);
    }
  }

  lemma {:induction false} SamePlace<T(!new)>(lt: Order<T>, s: set<T>, k: nat, r: seq<T>, m: nat, f: seq<T>, i: nat)
    requires Total(lt, s) && IsTop(lt, s, k, r) && IsTop(lt, s, m, f) && i < |r| && i < |f|
    ensures r[i] == f[i]
  {
    forall j | 0 <= j < i
      ensures r[j] == f[j]
    {
      SamePlace(lt, s, k, r, m, f, j);
    }
    assert lt(r[i], f[i]) ==> !lt(f[i], r[i]);
    NotLater(lt, s, k, r, m, f, i);
    NotLater(lt, s, m, f, k, r, i);
  }

  /** Where two selections agree up to `i`, neither's next member comes after the other's. */
  lemma NotLater<T(!new)>(lt: Order<T>, s: set<T>, k: nat, r: seq<T>, m: nat, f: seq<T>, i: nat)
    requires Total(lt, s) && IsTop(lt, s, k, r) && IsTop(lt, s, m, f) && i < |r| && i < |f|
    requires forall j :: 0 <= j < i ==> r[j] == f[j]
    ensures r[i] == f[i] || lt(r[i], f[i])
  {
    forall j | 0 <= j < i
      ensures r[j] != f[i]
    {
      DistinctPlaces(lt, s, f, j, i);
    }
    if f[i] in r {
      var n :| 0 <= n < |r| && r[n] == f[i];
      assert i <= n;
    }
  }

  /** `page` is the slice `from..from + size` of `s` in order. */
  ghost predicate IsPage<T(!new)>(lt: Order<T>, s: set<T>, from: nat, size: nat, page: seq<T>) {
    exists ranked: seq<T> :: IsTop(lt, s, from + size, ranked) && page == ranked[Min(from, |ranked|)..]
  }

  /** Skipping `from` of a longer selection and taking `size` gives the page. */
  lemma SliceIsPage<T(!new)>(lt: Order<T>, s: set<T>, k: nat, r: seq<T>, from: nat, size: nat)
    requires IsTop(lt, s, k, r) && from + size <= k
    ensures IsPage(lt, s, from, size, r[Min(from, |r|)..Min(from + size, |r|)])
  {
    ShorterTop(lt, s, k, r, from + size);
    var ranked := r[..Min(from + size, |r|)];
    assert r[Min(from, |r|)..Min(from + size, |r|)] == ranked[Min(from, |ranked|)..];
  }

  // ---- truncating parts before merging ----

  /** The parts and what each was truncated to. */
  ghost predicate Truncated<T(!new)>(lt: Order<T>, parts: seq<set<T>>, k: nat, tops: seq<seq<T>>) {
    |tops| == |parts| && forall p :: 0 <= p < |parts| ==> IsTop(lt, parts[p], k, tops[p])
  }

  ghost function Union<T(!new)>(parts: seq<set<T>>): set<T> {
    set p, x | 0 <= p < |parts| && x in parts[p] :: x
  }

  ghost function UnionElems<T(!new)>(tops: seq<seq<T>>): set<T> {
    set p, x | 0 <= p < |tops| && x in tops[p] :: x
  }

  lemma TruncationKeepsAll<T(!new)>(lt: Order<T>, parts: seq<set<T>>, k: nat, tops: seq<seq<T>>)
    requires Total(lt, Union(parts)) && Truncated(lt, parts, k, tops) && |UnionElems(tops)| < k
    ensures UnionElems(tops) == Union(parts)
  {
    forall p, x | 0 <= p < |parts| && x in parts[p]
      ensures x in UnionElems(tops)
    {
      PartTotal(lt, parts, p);
      TopSize(lt, parts[p], k, tops[p]);
      TopWithin(lt, parts, k, tops, p);
      SubsetSize(Elems(tops[p]), UnionElems(tops));
      assert x in Elems(tops[p]);
    }
    forall x | x in UnionElems(tops)
      ensures x in Union(parts)
    {
      var p :| 0 <= p < |tops| && x in tops[p];
      assert x in parts[p];
    }
  }

  lemma PartTotal<T(!new)>(lt: Order<T>, parts: seq<set<T>>, p: nat)
    requires Total(lt, Union(parts)) && p < |parts|
    ensures Total(lt, parts[p]) && parts[p] <= Union(parts)
  {
    assert forall x :: x in parts[p] ==> x in Union(parts);
  }

  lemma TopWithin<T(!new)>(lt: Order<T>, parts: seq<set<T>>, k: nat, tops: seq<seq<T>>, p: nat)
    requires Truncated(lt, parts, k, tops) && p < |parts|
    ensures Elems(tops[p]) <= UnionElems(tops)
  {
  }

  lemma TopsWithin<T(!new)>(lt: Order<T>, parts: seq<set<T>>, k: nat, tops: seq<seq<T>>)
    requires Truncated(lt, parts, k, tops)
    ensures UnionElems(tops) <= Union(parts)
  {
    forall x | x in UnionElems(tops)
      ensures x in Union(parts)
    {
      var p :| 0 <= p < |tops| && x in tops[p];
      assert x in parts[p];
    }
  }

  /** A member some part cut off comes after everything the merge returns. */
  lemma CutOffComesLater<T(!new)>(lt: Order<T>, parts: seq<set<T>>, k: nat, tops: seq<seq<T>>, r: seq<T>, x: T, i: nat)
    requires Total(lt, Union(parts)) && Truncated(lt, parts, k, tops) && IsTop(lt, UnionElems(tops), k, r)
    requires x in Union(parts) && x !in UnionElems(tops) && i < |r|
    ensures lt(r[i], x)
  {
    var p :| 0 <= p < |parts| && x in parts[p];
    assert x !in tops[p];
    TopsWithin(lt, parts, k, tops);
    TopWithin(lt, parts, k, tops, p);
    PartTotal(lt, parts, p);
    TopSize(lt, parts[p], k, tops[p]);
    assert |tops[p]| == k;
    if r[i] !in tops[p] {
      MissedByPart(lt, UnionElems(tops), k, r, tops[p], i);
      var y :| y in tops[p] && y !in r;
      assert lt(r[i], y) && lt(y, x);
      assert r[i] in Union(parts) && y in Union(parts);
    }
  }

  /** Two selections of the same size: if one has a member the other lacks, so does the other. */
  lemma MissedByPart<T(!new)>(lt: Order<T>, s: set<T>, k: nat, r: seq<T>, top: seq<T>, i: nat)
    requires Total(lt, s) && IsTop(lt, s, k, r) && Elems(top) <= s && |Elems(top)| == k
    requires i < |r| && r[i] !in top
    ensures exists y :: y in top && y !in r
  {
    TopSize(lt, s, k, r);
    assert r[i] in Elems(r) && r[i] !in Elems(top);
    SubsetSize(Elems(top), s);
    if Elems(top) <= Elems(r) {
      SubsetSize(Elems(top), Elems(r));
    } else {
      var y :| y in Elems(top) && y !in Elems(r);
      assert y in top && y !in r;
    }
  }

  /** Truncating every part to `k` and then taking the first `k` of what is left
      is the same as taking the first `k` of everything. */
  lemma MergeTruncated<T(!new)>(lt: Order<T>, parts: seq<set<T>>, k: nat, tops: seq<seq<T>>, r: seq<T>)
    requires Total(lt, Union(parts)) && Truncated(lt, parts, k, tops) && IsTop(lt, UnionElems(tops), k, r)
    ensures IsTop(lt, Union(parts), k, r)
  {
    TopsWithin(lt, parts, k, tops);
    SubsetSize(UnionElems(tops), Union(parts));
    if |UnionElems(tops)| < k {
      TruncationKeepsAll(lt, parts, k, tops);
    } else {
      forall x, i | x in Union(parts) && x !in r && 0 <= i < |r|
        ensures lt(r[i], x)
      {
        if x !in UnionElems(tops) {
          CutOffComesLater(lt, parts, k, tops, r, x, i);
        }
      }
    }
  }

  // ---- resuming after a page ----

  ghost function After<T(!new)>(lt: Order<T>, s: set<T>, c: T): set<T> {
    set x | x in s && lt(c, x)
  }

  /** What comes after the last member of a page is exactly what the page left out. */
  lemma AfterPage<T(!new)>(lt: Order<T>, s: set<T>, k: nat, r: seq<T>)
    requires Total(lt, s) && IsTop(lt, s, k, r) && r != []
    ensures After(lt, s, r[|r| - 1]) == s - Elems(r)
    ensures |After(lt, s, r[|r| - 1])| == |s| - |r|
  {
    var last := r[|r| - 1];
    forall x | x in s
      ensures lt(last, x) <==> x !in r
    {
      if x in r {
        var i :| 0 <= i < |r| && r[i] == x;
        assert i < |r| - 1 ==> lt(x, last);
      }
    }
    assert After(lt, s, last) == s - Elems(r);
    TopSize(lt, s, k, r);
    assert s == Elems(r) + (s - Elems(r));
  }

  /** A page and the page resumed after it are together the longer page. */
  lemma PagesJoin<T(!new)>(lt: Order<T>, s: set<T>, k: nat, r: seq<T>, m: nat, r': seq<T>)
    requires Total(lt, s) && IsTop(lt, s, k, r) && r != []
    requires IsTop(lt, After(lt, s, r[|r| - 1]), m, r')
    ensures IsTop(lt, s, k + m, r + r')
  {
    var rest := After(lt, s, r[|r| - 1]);
    AfterPage(lt, s, k, r);
    var out := r + r';
    forall i, j | 0 <= i < j < |out|
      ensures lt(out[i], out[j])
    {
      if i < |r| && |r| <= j {
        assert out[j] == r'[j - |r|] && r'[j - |r|] in rest;
        assert r'[j - |r|] !in r;
      }
    }
    forall x, i | x in s && x !in out && 0 <= i < |out|
      ensures lt(out[i], x)
    {
      assert x !in r && x !in r';
      assert x in rest;
    }
  }

  // ---- a whole paging session ----

  /** What page `n` is taken from: everything after the last member of page `n - 1`. */
  ghost function Remaining<T(!new)>(lt: Order<T>, s: set<T>, pages: seq<seq<T>>, n: nat): set<T>
    requires n <= |pages|
  {
    if n == 0 || pages[n - 1] == [] then s else After(lt, s, pages[n - 1][|pages[n - 1]| - 1])
  }

  ghost predicate PageOk<T(!new)>(lt: Order<T>, s: set<T>, k: nat, pages: seq<seq<T>>, n: nat)
    requires n < |pages|
  {
    IsTop(lt, Remaining(lt, s, pages, n), k, pages[n])
  }

  /** Every page resumes after the one before, which was not empty, and holds at most `k`. */
  ghost predicate Session<T(!new)>(lt: Order<T>, s: set<T>, k: nat, pages: seq<seq<T>>) {
    && (forall n :: 0 <= n < |pages| ==> PageOk(lt, s, k, pages, n))
    && (forall n :: 0 <= n < |pages| - 1 ==> pages[n] != [])
  }

  ghost function Joined<T>(pages: seq<seq<T>>): seq<T> {
    if pages == [] then [] else Joined(pages[..|pages| - 1]) + pages[|pages| - 1]
  }

  lemma SessionPrefix<T(!new)>(lt: Order<T>, s: set<T>, k: nat, pages: seq<seq<T>>, n: nat)
    requires Session(lt, s, k, pages) && n <= |pages|
    ensures Session(lt, s, k, pages[..n])
  {
    forall i | 0 <= i < n
      ensures PageOk(lt, s, k, pages[..n], i)
    {
      assert PageOk(lt, s, k, pages, i);
      assert Remaining(lt, s, pages[..n], i) == Remaining(lt, s, pages, i);
    }
  }

  /** Following each page's last member visits everything in order, once, with no
      gap: the pages together are the first so many members of the whole list. */
  lemma {:induction false} SessionIsSorted<T(!new)>(lt: Order<T>, s: set<T>, k: nat, pages: seq<seq<T>>)
    requires Total(lt, s) && Session(lt, s, k, pages)
    ensures IsTop(lt, s, |Joined(pages)|, Joined(pages))
    decreases |pages|
  {
    if |pages| == 1 {
      assert PageOk(lt, s, k, pages, 0);
      assert Joined(pages[..0]) == [];
      assert Joined(pages) == pages[0];
    } else if |pages| > 1 {
      var n := |pages| - 1;
      SessionPrefix(lt, s, k, pages, n);
      SessionIsSorted(lt, s, k, pages[..n]);
      JoinedEnds(pages, n);
      assert PageOk(lt, s, k, pages, n);
      PagesJoin(lt, s, |Joined(pages[..n])|, Joined(pages[..n]), k, pages[n]);
    }
  }

  lemma JoinedEnds<T(!new)>(pages: seq<seq<T>>, n: nat)
    requires 0 < n <= |pages| && pages[n - 1] != []
    ensures Joined(pages[..n]) != [] && Joined(pages[..n])[|Joined(pages[..n])| - 1] == pages[n - 1][|pages[n - 1]| - 1]
  {
    assert pages[..n][n - 1] == pages[n - 1];
  }

  /** A session that ran to a short page has visited every member, each once. */
  lemma SessionComplete<T(!new)>(lt: Order<T>, s: set<T>, k: nat, pages: seq<seq<T>>)
    requires Total(lt, s) && Session(lt, s, k, pages) && pages != [] && |pages[|pages| - 1]| < k
    ensures IsTop(lt, s, |s|, Joined(pages)) && Elems(Joined(pages)) == s
  {
    var n := |pages| - 1;
    SessionIsSorted(lt, s, k, pages);
    SessionReaches(lt, s, k, pages);
    TopSize(lt, s, |s|, Joined(pages));
  }

  lemma SessionReaches<T(!new)>(lt: Order<T>, s: set<T>, k: nat, pages: seq<seq<T>>)
    requires Total(lt, s) && Session(lt, s, k, pages) && pages != [] && |pages[|pages| - 1]| < k
    ensures |Joined(pages)| == |s|
  {
    var n := |pages| - 1;
    assert PageOk(lt, s, k, pages, n);
    RemainingSize(lt, s, k, pages, n);
  }

  lemma RemainingSize<T(!new)>(lt: Order<T>, s: set<T>, k: nat, pages: seq<seq<T>>, n: nat)
    requires Total(lt, s) && Session(lt, s, k, pages) && n < |pages|
    ensures |Remaining(lt, s, pages, n)| + |Joined(pages[..n])| == |s|
  {
    if n == 0 {
      assert Joined(pages[..0]) == [];
    } else {
      var before := Joined(pages[..n]);
      assert IsTop(lt, s, |before|, before) by {
        SessionPrefix(lt, s, k, pages, n);
        SessionIsSorted(lt, s, k, pages[..n]);
      }
      JoinedEnds(pages, n);
      AfterPage(lt, s, |before|, before);
    }
  }

  // ---- sorting and truncating lists ----

  ghost predicate NoRepeats<T(!new)>(xs: seq<T>) {
    forall i, j :: 0 <= i < j < |xs| ==> xs[i] != xs[j]
  }

  function Insert<T(!new)>(lt: Order<T>, r: seq<T>, x: T): seq<T> {
    if r == [] then [x]
    else if lt(x, r[0]) then [x] + r
    else [r[0]] + Insert(lt, r[1..], x)
  }

  lemma {:induction false} InsertSorted<T(!new)>(lt: Order<T>, s: set<T>, r: seq<T>, x: T)
    requires Total(lt, s) && Sorted(lt, r) && (forall i :: 0 <= i < |r| ==> r[i] in s)
    requires x in s && x !in r
    ensures Sorted(lt, Insert(lt, r, x))
    ensures forall y :: y in Insert(lt, r, x) <==> y in r || y == x
    ensures |Insert(lt, r, x)| == |r| + 1
  {
    if r != [] && !lt(x, r[0]) {
      InsertSorted(lt, s, r[1..], x);
      var rest := Insert(lt, r[1..], x);
      assert r == [r[0]] + r[1..];
      forall i | 0 <= i < |rest|
        ensures lt(r[0], rest[i])
      {
        assert rest[i] in rest;
      }
    } else if r != [] {
      forall i | 0 <= i < |r|
        ensures lt(x, r[i])
      {
        assert i > 0 ==> lt(r[0], r[i]);
      }
    }
  }

  /** The library sort, under a comparator that orders the elements strictly. */
  method SortBy<T(!new)>(lt: Order<T>, xs: seq<T>) returns (r: seq<T>)
    requires Total(lt, Elems(xs)) && NoRepeats(xs)
    ensures Sorted(lt, r) && |r| == |xs| && Elems(r) == Elems(xs)
  {
    r := [];
    for i := 0 to |xs|
      invariant Sorted(lt, r) && |r| == i
      invariant forall y :: y in r <==> y in xs[..i]
    {
      assert xs[i] !in xs[..i];
      assert forall k :: 0 <= k < |r| ==> r[k] in r;
      InsertSorted(lt, Elems(xs), r, xs[i]);
      r := Insert(lt, r, xs[i]);
      assert xs[..i + 1] == xs[..i] + [xs[i]];
    }
    assert xs[..|xs|] == xs;
  }

  lemma NoRepeatsSize<T(!new)>(xs: seq<T>)
    requires NoRepeats(xs)
    ensures |Elems(xs)| == |xs|
  {
    if xs == [] {
      assert Elems(xs) == {};
    } else {
      var n := |xs| - 1;
      NoRepeatsSize(xs[..n]);
      assert Elems(xs) == Elems(xs[..n]) + {xs[n]};
      assert xs[n] !in xs[..n];
    }
  }

  /** A prefix of a fully sorted list is the first so many members. */
  lemma PrefixIsTop<T(!new)>(lt: Order<T>, r: seq<T>, k: nat)
    requires Total(lt, Elems(r)) && Sorted(lt, r)
    ensures IsTop(lt, Elems(r), k, r[..Min(k, |r|)])
  {
    var n := Min(k, |r|);
    SortedSize(lt, Elems(r), r);
    forall x, i | x in Elems(r) && x !in r[..n] && 0 <= i < n
      ensures lt(r[i], x)
    {
      assert r == r[..n] + r[n..];
      var j :| 0 <= j < |r[n..]| && r[n..][j] == x;
      assert r[n + j] == x;
    }
  }

  /** Taking fewer of the first `k` gives the first so many. */
  lemma ShorterTop<T(!new)>(lt: Order<T>, s: set<T>, k: nat, r: seq<T>, m: nat)
    requires IsTop(lt, s, k, r) && m <= k
    ensures IsTop(lt, s, m, r[..Min(m, |r|)])
  {
    var n := Min(m, |r|);
    assert r == r[..n] + r[n..];
    forall x, i | x in s && x !in r[..n] && 0 <= i < n
      ensures lt(r[i], x)
    {
      if x in r[n..] {
        var j :| 0 <= j < |r[n..]| && r[n..][j] == x;
        assert r[n + j] == x;
      }
    }
  }

  /** A top-k collector: the first `k` of a list, in order. */
  method TakeTop<T(!new)>(lt: Order<T>, xs: seq<T>, k: nat) returns (r: seq<T>)
    requires Total(lt, Elems(xs)) && NoRepeats(xs)
    ensures IsTop(lt, Elems(xs), k, r)
  {
    var sorted := SortBy(lt, xs);
    PrefixIsTop(lt, sorted, k);
    r := sorted[..Min(k, |sorted|)];
  }

  /** Merge truncated lists: gather them, sort, keep the first `k`. */
  method MergeTops<T(!new)>(lt: Order<T>, tops: seq<seq<T>>, k: nat, ghost parts: seq<set<T>>) returns (r: seq<T>)
    requires Total(lt, Union(parts)) && Truncated(lt, parts, k, tops) && Disjoint(parts)
    ensures IsTop(lt, Union(parts), k, r)
  {
    var all: seq<T> := [];
    for p := 0 to |tops|
      invariant NoRepeats(all)
      invariant forall x :: x in all <==> exists q :: 0 <= q < p && x in tops[q]
    {
      PartTotal(lt, parts, p);
      NextPartIsNew(lt, parts, k, tops, p, all);
      all := all + tops[p];
    }
    assert Elems(all) == UnionElems(tops);
    TopsWithin(lt, parts, k, tops);
    r := TakeTop(lt, all, k);
    MergeTruncated(lt, parts, k, tops, r);
  }

  /** Merge truncated lists, then skip `from` and take `size`. */
  method MergePage<T(!new)>(lt: Order<T>, tops: seq<seq<T>>, k: nat, ghost parts: seq<set<T>>, from: nat, size: nat)
    returns (page: seq<T>)
    requires Total(lt, Union(parts)) && Truncated(lt, parts, k, tops) && Disjoint(parts) && from + size <= k
    ensures IsPage(lt, Union(parts), from, size, page)
  {
    var sorted := MergeTops(lt, tops, k, parts);
    SliceIsPage(lt, Union(parts), k, sorted, from, size);
    page := sorted[Min(from, |sorted|)..Min(from + size, |sorted|)];
  }

  ghost predicate Disjoint<T(!new)>(parts: seq<set<T>>) {
    forall p, q :: 0 <= p < q < |parts| ==> parts[p] !! parts[q]
  }

  lemma NextPartIsNew<T(!new)>(lt: Order<T>, parts: seq<set<T>>, k: nat, tops: seq<seq<T>>, p: nat, all: seq<T>)
    requires Truncated(lt, parts, k, tops) && Disjoint(parts) && p < |tops| && Total(lt, parts[p])
    requires NoRepeats(all) && forall x :: x in all <==> exists q :: 0 <= q < p && x in tops[q]
    ensures NoRepeats(all + tops[p])
  {
    var top := tops[p];
    forall i, j | 0 <= i < j < |top|
      ensures top[i] != top[j]
    {
      DistinctPlaces(lt, parts[p], top, i, j);
    }
    forall i, j | 0 <= i < |all| && 0 <= j < |top|
      ensures all[i] != top[j]
    {
      assert all[i] in all;
      var q :| 0 <= q < p && all[i] in tops[q];
      assert all[i] in parts[q] && top[j] in parts[p];
    }
  }

  // ---- carrying a selection from one order to another ----

  ghost predicate Embeds<A(!new), B(!new)>(lt: Order<A>, s: set<A>, lt': Order<B>, s': set<B>, f: A -> B) {
    && (forall x :: x in s ==> f(x) in s')
    && (forall y :: y in s' ==> exists x :: x in s && f(x) == y)
    && (forall x, y :: x in s && y in s && lt(x, y) ==> lt'(f(x), f(y)))
  }

  lemma {:induction false} ImageSize<A(!new), B(!new)>(s: set<A>, s': set<B>, f: A -> B)
    requires forall x :: x in s ==> f(x) in s'
    requires forall y :: y in s' ==> exists x :: x in s && f(x) == y
    requires forall x, y :: x in s && y in s && x != y ==> f(x) != f(y)
    ensures |s'| == |s|
  {
    if s == {} {
      assert forall y :: y !in s';
    } else {
      var x :| x in s;
      ImageSize(s - {x}, s' - {f(x)}, f);
    }
  }

  /** A map that takes one order to the other takes the first `k` to the first `k`. */
  lemma TopMapped<A(!new), B(!new)>(lt: Order<A>, s: set<A>, k: nat, r: seq<A>,
                                    lt': Order<B>, s': set<B>, f: A -> B, out: seq<B>)
    requires IsTop(lt, s, k, r) && Total(lt, s) && Total(lt', s') && Embeds(lt, s, lt', s', f)
    requires |out| == |r| && forall i :: 0 <= i < |r| ==> out[i] == f(r[i])
    ensures IsTop(lt', s', k, out)
  {
    forall x, y | x in s && y in s && x != y
      ensures f(x) != f(y)
    {
      assert lt(x, y) || lt(y, x);
    }
    ImageSize(s, s', f);
    forall j | 0 <= j < |r|
      ensures f(r[j]) in out
    {
      assert out[j] == f(r[j]);
    }
    forall y, i | y in s' && y !in out && 0 <= i < |out|
      ensures lt'(out[i], y)
    {
      var x :| x in s && f(x) == y;
      assert lt(r[i], x);
    }
  }

  lemma UnionOfOne<T(!new)>(s: set<T>)
    ensures Union([s]) == s
  {
    assert [s][0] == s;
  }

  /** A page of two out of two is the two in order. */
  lemma TwoInOrder<T(!new)>(lt: Order<T>, s: set<T>, x: T, y: T, page: seq<T>)
    requires (forall z :: z in s <==> z == x || z == y) && x != y && lt(x, y) && !lt(y, x) && !lt(x, x) && !lt(y, y)
    requires IsPage(lt, s, 0, 2, page)
    ensures page == [x, y]
  {
    var ranked: seq<T> :| IsTop(lt, s, 2, ranked) && page == ranked[Min(0, |ranked|)..];
    assert s == {x, y};
    assert |ranked| == 2 && ranked[0] in s && ranked[1] in s && lt(ranked[0], ranked[1]);
  }
}
