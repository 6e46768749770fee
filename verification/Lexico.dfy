/** The order in which byte strings and dictionary terms compare. */
module Lexico {

  predicate Less(a: seq<int>, b: seq<int>) {
    b != [] && (a == [] || a[0] < b[0] || (a[0] == b[0] && Less(a[1..], b[1..])))
  }

  /** At the first position where they differ, the smaller character; else the shorter text. */
  ghost predicate Before(s: seq<int>, t: seq<int>) {
    exists n :: && 0 <= n <= |s| && n <= |t| && s[..n] == t[..n]
                && if n < |s| then n < |t| && s[n] < t[n] else n < |t|
  }

  lemma {:induction false} LessIsBefore(s: seq<int>, t: seq<int>)
    ensures Less(s, t) <==> Before(s, t)
  {
    if s != [] && t != [] && s[0] == t[0] {
      LessIsBefore(s[1..], t[1..]);
      if Before(s[1..], t[1..]) {
        var n :| && 0 <= n <= |s[1..]| && n <= |t[1..]| && s[1..][..n] == t[1..][..n]
                 && if n < |s[1..]| then n < |t[1..]| && s[1..][n] < t[1..][n] else n < |t[1..]|;
        assert s[..n + 1] == [s[0]] + s[1..][..n] && t[..n + 1] == [t[0]] + t[1..][..n];
        assert n + 1 < |s| ==> s[n + 1] == s[1..][n] && t[n + 1] == t[1..][n];
      }
      if Before(s, t) {
        var n :| && 0 <= n <= |s| && n <= |t| && s[..n] == t[..n]
                 && if n < |s| then n < |t| && s[n] < t[n] else n < |t|;
        assert s[1..][..n - 1] == s[..n][1..] && t[1..][..n - 1] == t[..n][1..];
      }
    } else {
      assert s[..0] == t[..0];
      assert forall n :: 0 < n <= |s| && n <= |t| ==> s[..n][0] != t[..n][0];
    }
  }

  lemma {:induction false} Irreflexive(a: seq<int>)
    ensures !Less(a, a)
  {
    if a != [] {
      Irreflexive(a[1..]);
    }
  }

  lemma {:induction false} Trichotomy(a: seq<int>, b: seq<int>)
    ensures a == b || Less(a, b) || Less(b, a)
  {
    if a != [] && b != [] && a[0] == b[0] {
      Trichotomy(a[1..], b[1..]);
      assert a == [a[0]] + a[1..] && b == [b[0]] + b[1..];
    }
  }

  lemma {:induction false} Transitive(a: seq<int>, b: seq<int>, c: seq<int>)
    requires Less(a, b) && Less(b, c)
    ensures Less(a, c)
  {
    if a != [] && a[0] == b[0] == c[0] {
      Transitive(a[1..], b[1..], c[1..]);
    }
  }

  lemma Asymmetric(a: seq<int>, b: seq<int>)
    requires Less(a, b)
    ensures !Less(b, a) && a != b
  {
    Irreflexive(a);
    if Less(b, a) {
      Transitive(a, b, a);
    }
  }

  ghost predicate StrictlySorted(d: seq<seq<int>>) {
    forall i, j :: 0 <= i < j < |d| ==> Less(d[i], d[j])
  }

  /** How many terms of a sorted dictionary come before `s`. */
  function Position(d: seq<seq<int>>, s: seq<int>): (p: nat)
    ensures p <= |d|
  {
    if d == [] || !Less(d[0], s) then 0 else 1 + Position(d[1..], s)
  }

  lemma {:induction false} PositionSplits(d: seq<seq<int>>, s: seq<int>)
    requires StrictlySorted(d)
    ensures forall i :: 0 <= i < Position(d, s) ==> Less(d[i], s)
    ensures forall i :: Position(d, s) <= i < |d| ==> !Less(d[i], s)
  {
    if d != [] {
      if Less(d[0], s) {
        PositionSplits(d[1..], s);
        assert d == [d[0]] + d[1..];
      } else {
        forall i | 0 < i < |d|
          ensures !Less(d[i], s)
        {
          if Less(d[i], s) {
            Transitive(d[0], d[i], s);
          }
        }
      }
    }
  }

  /** In a sorted dictionary, positions order like the terms. */
  lemma PositionsOrder(d: seq<seq<int>>, i: nat, j: nat)
    requires StrictlySorted(d) && i < |d| && j < |d|
    ensures i < j <==> Less(d[i], d[j])
  {
    if j <= i {
      if j < i {
        Asymmetric(d[j], d[i]);
      } else {
        Irreflexive(d[i]);
      }
    }
  }

  lemma PositionOfTerm(d: seq<seq<int>>, i: nat)
    requires StrictlySorted(d) && i < |d|
    ensures Position(d, d[i]) == i
  {
    var p := Position(d, d[i]);
    assert p < i ==> Less(d[p], d[i]);
    PositionSplits(d, d[i]);
    Irreflexive(d[i]);
  }
}
