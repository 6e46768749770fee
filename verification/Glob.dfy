/** The two greedy `*`-glob matchers against what a glob means. */
module Glob {
  import opened Prelude

  // ---- what a glob means ----

  /** Each `*` stands for any run of characters, everything else for itself. */
  ghost predicate Matches(p: string, s: string) {
    if p == [] then s == []
    else if p[0] == '*' then exists k :: 0 <= k <= |s| && Matches(p[1..], s[k..])
    else s != [] && s[0] == p[0] && Matches(p[1..], s[1..])
  }

  /** The literal pieces between stars. */
  function Split(p: string): (r: seq<string>)
    ensures r != []
  {
    if p == [] then [""]
    else
      var rest := Split(p[1..]);
      if p[0] == '*' then [""] + rest else [[p[0]] + rest[0]] + rest[1..]
  }

  predicate IsPrefix(t: string, s: string) {
    |t| <= |s| && s[..|t|] == t
  }

  predicate IsSuffix(t: string, s: string) {
    |t| <= |s| && s[|s| - |t|..] == t
  }

  /** `s` is the pieces in order, with any run between two of them. */
  ghost predicate Pieces(parts: seq<string>, s: string)
    requires parts != []
    decreases |parts|, 0
  {
    if |parts| == 1 then s == parts[0]
    else IsPrefix(parts[0], s) && Floating(parts[1..], s[|parts[0]|..])
  }

  /** The pieces after any run. */
  ghost predicate Floating(parts: seq<string>, s: string)
    requires parts != []
    decreases |parts|, 1
  {
    exists k :: 0 <= k <= |s| && Pieces(parts, s[k..])
  }

  lemma {:induction false} SplitMeans(p: string, s: string)
    ensures Matches(p, s) <==> Pieces(Split(p), s)
  {
    if p != [] {
      var rest := Split(p[1..]);
      if p[0] == '*' {
        forall k | 0 <= k <= |s|
          ensures Matches(p[1..], s[k..]) <==> Pieces(rest, s[k..])
        {
          SplitMeans(p[1..], s[k..]);
        }
        assert Split(p)[1..] == rest && s[0..] == s;
      } else {
        LongerPiece(p[0], rest, s);
        if s != [] {
          SplitMeans(p[1..], s[1..]);
        }
      }
    }
  }

  lemma LongerPiece(c: char, rest: seq<string>, s: string)
    requires rest != []
    ensures Pieces([[c] + rest[0]] + rest[1..], s) <==> s != [] && s[0] == c && Pieces(rest, s[1..])
  {
    var t, parts := [c] + rest[0], [[c] + rest[0]] + rest[1..];
    assert parts[1..] == rest[1..];
    if s != [] && |t| <= |s| {
      assert s[..|t|] == [s[0]] + s[1..][..|rest[0]|];
      assert s[1..][|rest[0]|..] == s[|t|..];
    }
    if s != [] && |rest| == 1 {
      assert s == [s[0]] + s[1..];
    }
  }

  // ---- searching greedily ----

  predicate OccursAt(t: string, s: string, i: nat) {
    i + |t| <= |s| && s[i..i + |t|] == t
  }

  /** The first occurrence of `t` in `s`. */
  method Find(s: string, t: string) returns (at: Option<nat>)
    ensures at.Some? ==> OccursAt(t, s, at.value) && forall i :: 0 <= i < at.value ==> !OccursAt(t, s, i)
    ensures at.None? ==> forall i :: 0 <= i <= |s| ==> !OccursAt(t, s, i)
  {
    if |s| < |t| {
      return None;
    }
    for i := 0 to |s| - |t| + 1
      invariant forall j :: 0 <= j < i ==> !OccursAt(t, s, j)
    {
      if s[i..i + |t|] == t {
        return Some(i);
      }
    }
    return None;
  }

  lemma FloatingSkips(parts: seq<string>, s: string, i: nat)
    requires parts != [] && i <= |s| && Floating(parts, s[i..])
    ensures Floating(parts, s)
  {
    var k :| 0 <= k <= |s[i..]| && Pieces(parts, s[i..][k..]);
    assert s[i..][k..] == s[i + k..];
  }

  /** Taking the first occurrence of a piece loses nothing: whatever follows a
      later occurrence also follows the first. */
  lemma GreedyStep(parts: seq<string>, s: string, at: nat)
    requires |parts| > 1 && OccursAt(parts[0], s, at) && forall i :: 0 <= i < at ==> !OccursAt(parts[0], s, i)
    ensures Floating(parts, s) <==> Floating(parts[1..], s[at + |parts[0]|..])
  {
    var t, n := parts[0], |parts[0]|;
    if Floating(parts, s) {
      var k :| 0 <= k <= |s| && Pieces(parts, s[k..]);
      StartsWithPiece(parts, s, k);
      assert s[k..][n..] == s[at + n..][k - at..];
      FloatingSkips(parts[1..], s[at + n..], k - at);
    }
    if Floating(parts[1..], s[at + n..]) {
      assert s[at..][..n] == s[at..at + n] && s[at..][n..] == s[at + n..];
      assert Pieces(parts, s[at..]);
    }
  }

  lemma StartsWithPiece(parts: seq<string>, s: string, k: nat)
    requires parts != [] && k <= |s| && Pieces(parts, s[k..])
    ensures OccursAt(parts[0], s, k)
  {
    assert IsPrefix(parts[0], s[k..]);
    assert s[k..][..|parts[0]|] == s[k..k + |parts[0]|];
  }

  lemma NoOccurrence(parts: seq<string>, s: string)
    requires parts != [] && forall i :: 0 <= i <= |s| ==> !OccursAt(parts[0], s, i)
    ensures !Floating(parts, s)
  {
    if Floating(parts, s) {
      var k :| 0 <= k <= |s| && Pieces(parts, s[k..]);
      StartsWithPiece(parts, s, k);
    }
  }

  /** The last piece after a star has to end the name. */
  lemma LastPiece(parts: seq<string>, s: string)
    requires |parts| == 1
    ensures Floating(parts, s) <==> IsSuffix(parts[0], s)
  {
    if IsSuffix(parts[0], s) {
      assert Pieces(parts, s[|s| - |parts[0]|..]);
    }
  }

  lemma {:induction false} NoStar(p: string)
    ensures '*' !in p ==> Split(p) == [p]
    ensures '*' in p ==> |Split(p)| > 1
  {
    if p != [] {
      NoStar(p[1..]);
      assert p == [p[0]] + p[1..];
    }
  }

  // ---- the matchers ----

  /** Stream-scope matching. */
  method StreamGlobMatches(pattern: string, stream: string) returns (ok: bool)
    ensures ok <==> Matches(pattern, stream)
  {
    SplitMeans(pattern, stream);
    NoStar(pattern);
    if '*' !in pattern {
      return pattern == stream;
    }
    var parts := Split(pattern);
    var first, last := parts[0], parts[|parts| - 1];
    if !IsPrefix(first, stream) {
      return false;
    }
    var rest := stream[|first|..];
    for i := 1 to |parts| - 1
      invariant Pieces(parts, stream) <==> Floating(parts[i..], rest)
    {
      var at := Find(rest, parts[i]);
      assert parts[i..][0] == parts[i] && parts[i..][1..] == parts[i + 1..];
      if at.None? {
        NoOccurrence(parts[i..], rest);
        return false;
      }
      GreedyStep(parts[i..], rest, at.value);
      rest := rest[at.value + |parts[i]|..];
    }
    assert parts[|parts| - 1..] == [last];
    LastPiece([last], rest);
    return IsSuffix(last, rest);
  }

  /** Drop everything through the first occurrence of a piece; an empty piece drops nothing. */
  method Consume(rest: string, part: string) returns (after: Option<string>, ghost at: nat)
    ensures after.Some? ==>
              && OccursAt(part, rest, at) && (forall i :: 0 <= i < at ==> !OccursAt(part, rest, i))
              && after.value == rest[at + |part|..]
    ensures after.None? ==> forall i :: 0 <= i <= |rest| ==> !OccursAt(part, rest, i)
  {
    if part == "" {
      assert rest[0..] == rest;
      return Some(rest), 0;
    }
    var found := Find(rest, part);
    if found.None? {
      return None, 0;
    }
    return Some(rest[found.value + |part|..]), found.value;
  }

  /** Index-pattern matching: the last piece is found like the others, then checked
      against the end of the whole name. */
  method GlobMatches(pattern: string, name: string) returns (ok: bool)
    ensures ok <==> Matches(pattern, name)
  {
    SplitMeans(pattern, name);
    var parts := Split(pattern);
    if !IsPrefix(parts[0], name) {
      return false;
    }
    var rest := name[|parts[0]|..];
    if |parts| == 1 {
      assert name == parts[0] + rest;
      return rest == "";
    }
    for i := 1 to |parts| - 1
      invariant |rest| <= |name| && rest == name[|name| - |rest|..]
      invariant Pieces(parts, name) <==> Floating(parts[i..], rest)
    {
      var after; ghost var at;
      after, at := Consume(rest, parts[i]);
      assert parts[i..][0] == parts[i] && parts[i..][1..] == parts[i + 1..];
      if after.None? {
        NoOccurrence(parts[i..], rest);
        return false;
      }
      GreedyStep(parts[i..], rest, at);
      rest := after.value;
    }
    var last := parts[|parts| - 1];
    assert parts[|parts| - 1..] == [last];
    ok := EndsName(name, rest, last);
  }

  /** The last piece and the verdict. */
  method EndsName(name: string, rest: string, last: string) returns (ok: bool)
    requires |rest| <= |name| && rest == name[|name| - |rest|..]
    ensures ok <==> Floating([last], rest)
  {
    LastPiece([last], rest);
    var after; ghost var at;
    after, at := Consume(rest, last);
    if after.None? {
      NoOccurrence([last], rest);
      return false;
    }
    if last == "" {
      return true;
    }
    assert rest[|rest| - |last|..] == name[|name| - |last|..];
    assert after.value == "" ==> rest[at..] == rest[at..at + |last|];
    return after.value == "" || IsSuffix(last, name);
  }

  /** Whether a first-match-wins list of patterns, `-` for deny and an optional `+`
      for allow, admits a name. */
  function Verdict(entry: string): (bool, string) {
    if IsPrefix("-", entry) then (false, entry[1..])
    else if IsPrefix("+", entry) then (true, entry[1..])
    else (true, entry)
  }

  /** The entry is `-` and a pattern that matches. */
  ghost predicate Denies(entry: string, index: string) {
    exists p :: entry == "-" + p && Matches(p, index)
  }

  /** The entry is `+` and a pattern that matches, or, starting with neither sign, is one. */
  ghost predicate Permits(entry: string, index: string) {
    || (exists p :: entry == "+" + p && Matches(p, index))
    || (!IsPrefix("-", entry) && !IsPrefix("+", entry) && Matches(entry, index))
  }

  lemma VerdictMeans(entry: string, index: string)
    ensures Denies(entry, index) <==> !Verdict(entry).0 && Matches(Verdict(entry).1, index)
    ensures Permits(entry, index) <==> Verdict(entry).0 && Matches(Verdict(entry).1, index)
  {
    assert IsPrefix("-", entry) ==> entry == "-" + entry[1..];
    assert IsPrefix("+", entry) ==> entry == "+" + entry[1..];
    assert forall p :: ("-" + p)[1..] == p && ("+" + p)[1..] == p;
  }

  method AutoCreateAllows(entries: seq<string>, index: string) returns (allow: bool)
    ensures allow <==>
            exists i :: && 0 <= i < |entries| && Permits(entries[i], index)
                        && forall j :: 0 <= j < i ==> !Permits(entries[j], index) && !Denies(entries[j], index)
  {
    for i := 0 to |entries|
      invariant forall j :: 0 <= j < i ==> !Permits(entries[j], index) && !Denies(entries[j], index)
    {
      VerdictMeans(entries[i], index);
      var (permit, pattern) := Verdict(entries[i]);
      var hit := GlobMatches(pattern, index);
      if hit {
        return permit;
      }
    }
    return false;
  }
}
