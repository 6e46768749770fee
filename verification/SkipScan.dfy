/** Listing the paths of a JSON term dictionary by seeking from path to path,
against a walk of every term. */
module SkipScan {
  import opened Prelude
  import opened Lexico

  type Bytes = seq<int>

  const SEGMENT_SEP: int := 1
  const END_OF_PATH: int := 0
  const DOT: int := 0x2e
  const BACKSLASH: int := 0x5c

  datatype DynamicType = String | Long | Double | Boolean | Date

  const ALL: seq<DynamicType> := [String, Long, Double, Boolean, Date]

  /** The term-type codes reported as a type: 's', 'i' and 'u', 'f', 'o', 'd'. */
  function Codes(ty: DynamicType): seq<int> {
    match ty
    case String => [0x73]
    case Long => [0x69, 0x75]
    case Double => [0x66]
    case Boolean => [0x6f]
    case Date => [0x64]
  }

  // ---- paths for people ----

  function SplitPath(b: Bytes): (r: seq<Bytes>)
    ensures r != []
  {
    if b == [] then [[]]
    else
      var rest := SplitPath(b[1..]);
      if b[0] == SEGMENT_SEP then [[]] + rest else [[b[0]] + rest[0]] + rest[1..]
  }

  function Escape(segment: Bytes): Bytes {
    if segment == [] then []
    else (if segment[0] == DOT then [BACKSLASH, DOT] else [segment[0]]) + Escape(segment[1..])
  }

  function JoinEscaped(segments: seq<Bytes>): Bytes
    requires segments != []
  {
    if |segments| == 1 then Escape(segments[0]) else Escape(segments[0]) + [DOT] + JoinEscaped(segments[1..])
  }

  /** Segments joined with dots, literal dots escaped. */
  function DecodePath(b: Bytes): Bytes {
    JoinEscaped(SplitPath(b))
  }

  function DecodeByte(x: int): Bytes {
    if x == SEGMENT_SEP then [DOT] else if x == DOT then [BACKSLASH, DOT] else [x]
  }

  lemma EscapeFirst(x: int, segment: Bytes)
    requires x != SEGMENT_SEP
    ensures Escape([x] + segment) == DecodeByte(x) + Escape(segment)
  {
    assert ([x] + segment)[1..] == segment;
  }

  lemma Regroup(a: Bytes, b: Bytes, c: Bytes)
    ensures a + b + [DOT] + c == a + (b + [DOT] + c)
  {
  }

  lemma LongerSegment(x: int, rest: seq<Bytes>)
    requires rest != [] && x != SEGMENT_SEP
    ensures JoinEscaped([[x] + rest[0]] + rest[1..]) == DecodeByte(x) + JoinEscaped(rest)
  {
    var segments := [[x] + rest[0]] + rest[1..];
    assert segments[1..] == rest[1..];
    EscapeFirst(x, rest[0]);
    if |rest| > 1 {
      Regroup(DecodeByte(x), Escape(rest[0]), JoinEscaped(rest[1..]));
    }
  }

  lemma DecodeFirst(b: Bytes)
    requires b != []
    ensures DecodePath(b) == DecodeByte(b[0]) + DecodePath(b[1..])
  {
    var rest := SplitPath(b[1..]);
    if b[0] == SEGMENT_SEP {
      assert ([[]] + rest)[1..] == rest;
    } else {
      LongerSegment(b[0], rest);
    }
  }

  /** Two paths without a backslash read the same only if they are the same. */
  lemma {:induction false} DecodeInjective(a: Bytes, b: Bytes)
    requires BACKSLASH !in a && BACKSLASH !in b && DecodePath(a) == DecodePath(b)
    ensures a == b
  {
    if a == [] || b == [] {
      if a != [] {
        DecodeFirst(a);
      }
      if b != [] {
        DecodeFirst(b);
      }
    } else {
      DecodeFirst(a);
      DecodeFirst(b);
      assert DecodePath(a)[0] == DecodeByte(a[0])[0] && DecodePath(b)[0] == DecodeByte(b[0])[0];
      assert a[0] in a && b[0] in b;
      assert a[0] == b[0];
      var n := |DecodeByte(a[0])|;
      assert DecodePath(a)[n..] == DecodePath(a[1..]) && DecodePath(b)[n..] == DecodePath(b[1..]);
      DecodeInjective(a[1..], b[1..]);
      assert a == [a[0]] + a[1..] && b == [b[0]] + b[1..];
    }
  }

  /** Keys `a`, `b.c` nested in it: shown with a dot between and a backslash before the dot. */
  lemma DecodeExample()
    ensures DecodePath(['a' as int, 1, 'b' as int, '.' as int, 'c' as int]) ==
            ['a' as int, '.' as int, 'b' as int, '\\' as int, '.' as int, 'c' as int]
  {
    var path := ['a' as int, 1, 'b' as int, '.' as int, 'c' as int];
    DecodeFirst(path);
    DecodeFirst(path[1..]);
    DecodeFirst(path[2..]);
    DecodeFirst(path[3..]);
    DecodeFirst(path[4..]);
    assert path[1..][1..] == path[2..] && path[2..][1..] == path[3..] && path[3..][1..] == path[4..];
    assert path[4..][1..] == [];
  }

  /** With a backslash they need not be. */
  lemma DecodeCollides()
    ensures DecodePath([BACKSLASH, SEGMENT_SEP]) == DecodePath([DOT])
  {
    DecodeFirst([BACKSLASH, SEGMENT_SEP]);
    DecodeFirst([SEGMENT_SEP]);
    DecodeFirst([DOT]);
    assert [BACKSLASH, SEGMENT_SEP][1..] == [SEGMENT_SEP];
  }

  // ---- keys ----

  /** Where the end-of-path byte is, or the key's length. */
  function PathEnd(key: Bytes): (n: nat)
    ensures n <= |key| && END_OF_PATH !in key[..n] && (n < |key| ==> key[n] == END_OF_PATH)
    ensures n == |key| <==> END_OF_PATH !in key
  {
    if key == [] || key[0] == END_OF_PATH then 0
    else
      var n := PathEnd(key[1..]);
      assert key == [key[0]] + key[1..] && key[..n + 1] == [key[0]] + key[1..][..n];
      n + 1
  }

  function PathOf(key: Bytes): Bytes {
    key[..PathEnd(key)]
  }

  predicate Starts(p: Bytes, k: Bytes) {
    |p| <= |k| && k[..|p|] == p
  }

  /** A term of the path, of the type. */
  ghost predicate IsTerm(key: Bytes, path: Bytes, ty: DynamicType) {
    exists c :: c in Codes(ty) && Starts(path + [END_OF_PATH, c], key)
  }

  ghost predicate ReportsAs(key: Bytes, name: Bytes, ty: DynamicType) {
    DecodePath(PathOf(key)) == name && IsTerm(key, PathOf(key), ty)
  }

  /** The type a term-type byte stands for, if it is reported at all. */
  ghost predicate CodeOf(c: int, ty: DynamicType) {
    || (c == 's' as int && ty == String)
    || ((c == 'i' as int || c == 'u' as int) && ty == Long)
    || (c == 'f' as int && ty == Double)
    || (c == 'o' as int && ty == Boolean)
    || (c == 'd' as int && ty == Date)
  }

  /** A key is a path, the end-of-path byte, a type byte and a value: it reports the path,
      with the type its byte stands for. */
  lemma KeyMeans(path: Bytes, c: int, value: Bytes, name: Bytes, ty: DynamicType)
    requires END_OF_PATH !in path
    ensures ReportsAs(path + [END_OF_PATH, c] + value, name, ty) <==> name == DecodePath(path) && CodeOf(c, ty)
  {
    var key := path + [END_OF_PATH, c] + value;
    var n := PathEnd(key);
    assert key[|path|] == END_OF_PATH && key[..|path|] == path;
    assert |path| <= n by {
      assert forall m :: 0 <= m < |path| ==> key[m] == path[m] && path[m] in path;
    }
    assert n <= |path| by {
      assert forall m :: |path| < m <= |key| ==> key[..m][|path|] == END_OF_PATH;
    }
    assert PathOf(key) == path;
    assert key[..|path| + 2] == path + [END_OF_PATH, c];
    forall x
      ensures Starts(path + [END_OF_PATH, x], key) <==> x == c
    {
      assert Starts(path + [END_OF_PATH, x], key) ==> (path + [END_OF_PATH, x])[|path| + 1] == c;
    }
    assert c in Codes(ty) <==> CodeOf(c, ty);
  }

  /** What a walk of the first `n` keys reports. */
  ghost predicate Reported(d: seq<Bytes>, n: nat, name: Bytes, ty: DynamicType)
    requires n <= |d|
  {
    exists i :: 0 <= i < n && ReportsAs(d[i], name, ty)
  }

  ghost predicate Report(d: seq<Bytes>, n: nat, r: set<(Bytes, DynamicType)>)
    requires n <= |d|
  {
    forall name, ty :: (name, ty) in r <==> Reported(d, n, name, ty)
  }

  // ---- seeking ----

  lemma {:induction false} PrefixNotAfter(p: Bytes, k: Bytes)
    requires Starts(p, k)
    ensures !Less(k, p)
  {
    if p != [] {
      assert k[..|p|][1..] == k[1..][..|p| - 1];
      PrefixNotAfter(p[1..], k[1..]);
    }
  }

  /** Keys between two keys with a common prefix have it too. */
  lemma {:induction false} PrefixConvex(p: Bytes, lo: Bytes, k: Bytes)
    requires !Less(k, p) && Less(k, lo) && Starts(p, lo)
    ensures Starts(p, k)
  {
    if p != [] {
      assert lo[..|p|][1..] == lo[1..][..|p| - 1];
      assert k != [] && k[0] == p[0];
      PrefixConvex(p[1..], lo[1..], k[1..]);
      assert k[..|p|] == [k[0]] + k[1..][..|p| - 1];
    }
  }

  /** A prefix probe finds a key with the prefix if there is one. */
  lemma ProbeFinds(d: seq<Bytes>, p: Bytes)
    requires StrictlySorted(d)
    ensures var q := Position(d, p);
            (q < |d| && Starts(p, d[q])) <==> exists i :: 0 <= i < |d| && Starts(p, d[i])
  {
    var q := Position(d, p);
    PositionSplits(d, p);
    if i :| 0 <= i < |d| && Starts(p, d[i]) {
      PrefixNotAfter(p, d[i]);
      assert q <= i;
      if q < i {
        PrefixConvex(p, d[i], d[q]);
      }
    }
  }

  lemma {:induction false} BelowBound(path: Bytes, k: Bytes)
    requires Starts(path + [END_OF_PATH], k)
    ensures Less(k, path + [SEGMENT_SEP])
  {
    if path != [] {
      assert (path + [END_OF_PATH])[1..] == path[1..] + [END_OF_PATH];
      assert (path + [SEGMENT_SEP])[1..] == path[1..] + [SEGMENT_SEP];
      assert k[..|path| + 1][1..] == k[1..][..|path|];
      BelowBound(path[1..], k[1..]);
    } else {
      assert k[..1][0] == END_OF_PATH;
    }
  }

  /** From a path's term up to the bound, every key is a term of the path. */
  lemma {:induction false} WithinPath(path: Bytes, key: Bytes, k: Bytes)
    requires Starts(path + [END_OF_PATH], key) && !Less(k, key) && Less(k, path + [SEGMENT_SEP])
    ensures Starts(path + [END_OF_PATH], k)
  {
    if path == [] {
      assert key[..1][0] == END_OF_PATH;
      assert k[..1] == [END_OF_PATH];
    } else {
      assert (path + [END_OF_PATH])[1..] == path[1..] + [END_OF_PATH];
      assert (path + [SEGMENT_SEP])[1..] == path[1..] + [SEGMENT_SEP];
      assert key[..|path| + 1][1..] == key[1..][..|path|];
      assert key[..|path| + 1][0] == key[0];
      WithinPath(path[1..], key[1..], k[1..]);
      assert k[..|path| + 1] == [k[0]] + k[1..][..|path|];
    }
  }

  // ---- the scan ----

  lemma PathOfTerm(path: Bytes, k: Bytes)
    requires END_OF_PATH !in path && Starts(path + [END_OF_PATH], k)
    ensures END_OF_PATH in k && PathOf(k) == path
  {
    var n := |path|;
    assert k[..n + 1][n] == END_OF_PATH && k[..n] == k[..n + 1][..n] == path;
    assert forall i :: 0 <= i < n ==> k[i] == path[i];
    var e := PathEnd(k);
    assert e <= n ==> k[..n] == k[..e] + k[e..n];
  }

  lemma TermOfPath(k: Bytes)
    requires END_OF_PATH in k
    ensures END_OF_PATH !in PathOf(k) && Starts(PathOf(k) + [END_OF_PATH], k)
  {
    var n := PathEnd(k);
    assert k[..n + 1] == k[..n] + [k[n]];
  }

  /** Seeking past a path's terms lands just after the last of them. */
  lemma SkipsOnePath(d: seq<Bytes>, pos: nat)
    requires StrictlySorted(d) && pos < |d| && END_OF_PATH in d[pos]
    ensures var path, next := PathOf(d[pos]), Position(d, PathOf(d[pos]) + [SEGMENT_SEP]);
            && pos < next <= |d|
            && (forall i :: pos <= i < next ==> END_OF_PATH in d[i] && PathOf(d[i]) == path)
            && (forall i :: next <= i < |d| ==> END_OF_PATH in d[i] ==> PathOf(d[i]) != path)
  {
    var key, path := d[pos], PathOf(d[pos]);
    var bound := path + [SEGMENT_SEP];
    var next := Position(d, bound);
    PositionSplits(d, bound);
    TermOfPath(key);
    BelowBound(path, key);
    forall i | pos <= i < next
      ensures END_OF_PATH in d[i] && PathOf(d[i]) == path
    {
      PositionsOrder(d, i, pos);
      WithinPath(path, key, d[i]);
      PathOfTerm(path, d[i]);
    }
    forall i | next <= i < |d| && END_OF_PATH in d[i]
      ensures PathOf(d[i]) != path
    {
      if PathOf(d[i]) == path {
        TermOfPath(d[i]);
        BelowBound(path, d[i]);
      }
    }
  }

  /** Some key of the dictionary is a term of the path and type. */
  ghost predicate Present(d: seq<Bytes>, path: Bytes, ty: DynamicType) {
    exists i :: 0 <= i < |d| && IsTerm(d[i], path, ty)
  }

  /** Probe the dictionary for one of the type's codes under the path. */
  method Probe(d: seq<Bytes>, path: Bytes, ty: DynamicType) returns (found: bool)
    requires StrictlySorted(d)
    ensures found <==> Present(d, path, ty)
  {
    var codes := Codes(ty);
    for j := 0 to |codes|
      invariant forall i, h :: 0 <= i < |d| && 0 <= h < j ==> !Starts(path + [END_OF_PATH, codes[h]], d[i])
    {
      var probe := path + [END_OF_PATH, codes[j]];
      ProbeFinds(d, probe);
      var q := Position(d, probe);
      if q < |d| && Starts(probe, d[q]) {
        assert codes[j] in Codes(ty) && IsTerm(d[q], path, ty);
        return true;
      }
    }
    return false;
  }

  /** The types seen under one path. */
  method ProbeAll(d: seq<Bytes>, path: Bytes) returns (types: set<DynamicType>)
    requires StrictlySorted(d)
    ensures forall ty :: ty in types <==> Present(d, path, ty)
  {
    types := {};
    for j := 0 to |ALL|
      invariant forall ty :: ty in types <==> ty in ALL[..j] && Present(d, path, ty)
    {
      var found := Probe(d, path, ALL[j]);
      if found {
        types := types + {ALL[j]};
      }
      assert ALL[..j + 1] == ALL[..j] + [ALL[j]];
    }
    assert ALL[..|ALL|] == ALL;
    forall ty: DynamicType
      ensures ty in ALL
    {
      match ty
      case String => assert ALL[0] == ty;
      case Long => assert ALL[1] == ty;
      case Double => assert ALL[2] == ty;
      case Boolean => assert ALL[3] == ty;
      case Date => assert ALL[4] == ty;
    }
  }

  lemma PresentInPath(d: seq<Bytes>, pos: nat, next: nat, path: Bytes, ty: DynamicType)
    requires pos < next <= |d| && END_OF_PATH !in path
    requires forall i :: pos <= i < next ==> END_OF_PATH in d[i] && PathOf(d[i]) == path
    requires forall i :: (0 <= i < pos || next <= i < |d|) && END_OF_PATH in d[i] ==> PathOf(d[i]) != path
    ensures Present(d, path, ty) <==> exists i :: pos <= i < next && IsTerm(d[i], path, ty)
  {
    forall i | 0 <= i < |d| && IsTerm(d[i], path, ty)
      ensures pos <= i < next
    {
      var c :| c in Codes(ty) && Starts(path + [END_OF_PATH, c], d[i]);
      assert d[i][..|path| + 1] == d[i][..|path| + 2][..|path| + 1] == path + [END_OF_PATH];
      PathOfTerm(path, d[i]);
    }
  }

  /** The paths of the keys before `pos`, each once, none of them still to come. */
  ghost predicate Visited(d: seq<Bytes>, pos: nat, visited: seq<Bytes>) {
    && pos <= |d|
    && (forall i :: 0 <= i < pos ==> END_OF_PATH in d[i] && PathOf(d[i]) in visited)
    && (forall p :: p in visited ==> exists i :: 0 <= i < pos && PathOf(d[i]) == p)
    && (forall i :: pos <= i < |d| && END_OF_PATH in d[i] ==> PathOf(d[i]) !in visited)
    && (forall i, j :: 0 <= i < j < |visited| ==> visited[i] != visited[j])
  }

  lemma VisitedNext(d: seq<Bytes>, pos: nat, next: nat, path: Bytes, visited: seq<Bytes>)
    requires Visited(d, pos, visited) && pos < next <= |d| && path == PathOf(d[pos])
    requires forall i :: pos <= i < next ==> END_OF_PATH in d[i] && PathOf(d[i]) == path
    requires forall i :: next <= i < |d| && END_OF_PATH in d[i] ==> PathOf(d[i]) != path
    ensures Visited(d, next, visited + [path])
  {
    assert path !in visited;
    assert path in visited + [path];
  }

  /** The types the probes found are what the path's own keys report. */
  lemma ReportNext(d: seq<Bytes>, pos: nat, next: nat, path: Bytes, r: set<(Bytes, DynamicType)>,
                   types: set<DynamicType>)
    requires pos < next <= |d| && Report(d, pos, r) && END_OF_PATH !in path
    requires forall i :: pos <= i < next ==> END_OF_PATH in d[i] && PathOf(d[i]) == path
    requires forall i :: (0 <= i < pos || next <= i < |d|) && END_OF_PATH in d[i] ==> PathOf(d[i]) != path
    requires forall ty :: ty in types <==> Present(d, path, ty)
    ensures Report(d, next, r + Entries(path, types))
  {
    forall name, ty
      ensures (name, ty) in r + Entries(path, types) <==> Reported(d, next, name, ty)
    {
      PresentInPath(d, pos, next, path, ty);
      ReportedNext(d, pos, next, path, name, ty);
    }
  }

  function Entries(path: Bytes, types: set<DynamicType>): set<(Bytes, DynamicType)> {
    set ty | ty in types :: (DecodePath(path), ty)
  }

  lemma ReportedNext(d: seq<Bytes>, pos: nat, next: nat, path: Bytes, name: Bytes, ty: DynamicType)
    requires pos < next <= |d| && forall i :: pos <= i < next ==> END_OF_PATH in d[i] && PathOf(d[i]) == path
    ensures Reported(d, next, name, ty) <==>
            || Reported(d, pos, name, ty)
            || (name == DecodePath(path) && exists i :: pos <= i < next && IsTerm(d[i], path, ty))
  {
    if i :| 0 <= i < next && ReportsAs(d[i], name, ty) {
      assert i < pos || PathOf(d[i]) == path;
    }
    if name == DecodePath(path) && exists i :: pos <= i < next && IsTerm(d[i], path, ty) {
      var i :| pos <= i < next && IsTerm(d[i], path, ty);
      assert ReportsAs(d[i], name, ty);
    }
  }

  /** What the scan has established after the keys before `pos`. */
  ghost predicate Scanned(d: seq<Bytes>, pos: nat, r: set<(Bytes, DynamicType)>, visited: seq<Bytes>) {
    Visited(d, pos, visited) && Report(d, pos, r)
  }

  lemma ScannedNext(d: seq<Bytes>, pos: nat, r: set<(Bytes, DynamicType)>, visited: seq<Bytes>, types: set<DynamicType>)
    requires StrictlySorted(d) && Scanned(d, pos, r, visited) && pos < |d| && END_OF_PATH in d[pos]
    requires forall ty :: ty in types <==> Present(d, PathOf(d[pos]), ty)
    ensures var path := PathOf(d[pos]);
            && pos < Position(d, path + [SEGMENT_SEP])
            && Scanned(d, Position(d, path + [SEGMENT_SEP]), r + Entries(path, types), visited + [path])
  {
    var path := PathOf(d[pos]);
    var next := Position(d, path + [SEGMENT_SEP]);
    TermOfPath(d[pos]);
    SkipsOnePath(d, pos);
    VisitedNext(d, pos, next, path, visited);
    ReportNext(d, pos, next, path, r, types);
  }

  /** One segment's dictionary. The result is what a walk of every key reports, for
      the five types; an error exactly when some key has no end-of-path byte. Each
      distinct path is visited once. */
  method SegmentFieldTypes(d: seq<Bytes>) returns (r: Option<set<(Bytes, DynamicType)>>, ghost visited: seq<Bytes>)
    requires StrictlySorted(d)
    ensures r.None? <==> exists i :: 0 <= i < |d| && END_OF_PATH !in d[i]
    ensures r.Some? ==> Report(d, |d|, r.value) && Visited(d, |d|, visited)
  {
    var fields: set<(Bytes, DynamicType)> := {};
    visited := [];
    var bound: Option<Bytes> := None;
    while true
      invariant Scanned(d, if bound.None? then 0 else Position(d, bound.value), fields, visited)
      decreases |d| - if bound.None? then 0 else Position(d, bound.value)
    {
      var pos := if bound.None? then 0 else Position(d, bound.value);
      if pos == |d| {
        break;
      }
      var key := d[pos];
      if PathEnd(key) == |key| {
        return None, visited;
      }
      var path := PathOf(key);
      var types := ProbeAll(d, path);
      ScannedNext(d, pos, fields, visited, types);
      fields := fields + Entries(path, types);
      visited := visited + [path];
      bound := Some(path + [SEGMENT_SEP]);
    }
    return Some(fields), visited;
  }

  /** All segments of a split together. */
  method DynamicFieldTypes(dicts: seq<seq<Bytes>>) returns (r: Option<set<(Bytes, DynamicType)>>)
    requires forall s :: 0 <= s < |dicts| ==> StrictlySorted(dicts[s])
    ensures r.None? <==> exists s, i :: 0 <= s < |dicts| && 0 <= i < |dicts[s]| && END_OF_PATH !in dicts[s][i]
    ensures r.Some? ==> forall name, ty :: (name, ty) in r.value <==>
              exists s :: 0 <= s < |dicts| && Reported(dicts[s], |dicts[s]|, name, ty)
  {
    var fields: set<(Bytes, DynamicType)> := {};
    for s := 0 to |dicts|
      invariant forall q, i :: 0 <= q < s && 0 <= i < |dicts[q]| ==> END_OF_PATH in dicts[q][i]
      invariant forall name, ty :: (name, ty) in fields <==>
                  exists q :: 0 <= q < s && Reported(dicts[q], |dicts[q]|, name, ty)
    {
      var one; ghost var visited;
      one, visited := SegmentFieldTypes(dicts[s]);
      if one.None? {
        return None;
      }
      fields := fields + one.value;
    }
    return Some(fields);
  }
}
