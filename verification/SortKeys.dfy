/** Sort values and the cheap per-segment keys that stand in for them: term
ordinals, doubled, so that a string absent from a segment's dictionary has a
place between two terms. */
module SortKeys {
  import opened Prelude
  import Lexico

  type Text = seq<int>

  datatype SortType = Keyword | Long | Double | Boolean | Date | IpAddress

  /** A materialized value, comparable across segments. */
  datatype Value =
    | Missing
    | Str(text: Text)
    | Num(num: int)
    | Float(float: real)
    | Flag(flag: bool)
    | Ip(bits: nat)

  /** A key comparable within one segment. */
  datatype Key =
    | NoKey
    | Ord(ord: nat)
    | NumKey(numKey: int)
    | FloatKey(floatKey: real)
    | FlagKey(flagKey: bool)
    | IpKey(ipKey: nat)

  /** One sort field's column in one segment: each document's values, strings as
      ordinals into a sorted dictionary. */
  datatype Column =
    | NoColumn
    | StrColumn(dict: seq<Text>, ords: seq<seq<nat>>)
    | NumColumn(nums: seq<seq<int>>)
    | FloatColumn(floats: seq<seq<real>>)
    | FlagColumn(flags: seq<seq<bool>>)
    | IpColumn(ips: seq<seq<nat>>)

  // ---- comparisons: -1, 0 or 1 ----

  function Sign(before: bool, after: bool): int {
    if before then -1 else if after then 1 else 0
  }

  function ByInt(a: int, b: int): int {
    Sign(a < b, b < a)
  }

  function ByReal(a: real, b: real): int {
    Sign(a < b, b < a)
  }

  function Rank(v: Value): int {
    match v
    case Missing => 0
    case Flag(_) => 1
    case Num(_) => 2
    case Float(_) => 2
    case Str(_) => 3
    case Ip(_) => 4
  }

  function CmpNatural(a: Value, b: Value, nullIsMax: bool): int {
    match (a, b)
    case (Missing, Missing) => 0
    case (Missing, _) => if nullIsMax then 1 else -1
    case (_, Missing) => if nullIsMax then -1 else 1
    case (Str(s), Str(t)) => Sign(Lexico.Less(s, t), Lexico.Less(t, s))
    case (Num(x), Num(y)) => ByInt(x, y)
    case (Float(x), Float(y)) => ByReal(x, y)
    case (Num(x), Float(y)) => ByReal(x as real, y)
    case (Float(x), Num(y)) => ByReal(x, y as real)
    case (Flag(x), Flag(y)) => Sign(!x && y, x && !y)
    case (Ip(x), Ip(y)) => ByInt(x, y)
    case (_, _) => ByInt(Rank(a), Rank(b))
  }

  function Kind(k: Key): int {
    match k
    case NoKey => 0
    case FlagKey(_) => 1
    case NumKey(_) => 2
    case FloatKey(_) => 2
    case Ord(_) => 3
    case IpKey(_) => 4
  }

  function CmpKeys(a: Key, b: Key, nullIsMax: bool): int {
    match (a, b)
    case (NoKey, NoKey) => 0
    case (NoKey, _) => if nullIsMax then 1 else -1
    case (_, NoKey) => if nullIsMax then -1 else 1
    case (Ord(x), Ord(y)) => ByInt(x, y)
    case (NumKey(x), NumKey(y)) => ByInt(x, y)
    case (FloatKey(x), FloatKey(y)) => ByReal(x, y)
    case (NumKey(x), FloatKey(y)) => ByReal(x as real, y)
    case (FloatKey(x), NumKey(y)) => ByReal(x, y as real)
    case (FlagKey(x), FlagKey(y)) => Sign(!x && y, x && !y)
    case (IpKey(x), IpKey(y)) => ByInt(x, y)
    case (_, _) => ByInt(Kind(a), Kind(b))
  }

  predicate Typed(ty: SortType, v: Value) {
    v.Missing? ||
    match ty
    case Keyword => v.Str?
    case Long => v.Num?
    case Date => v.Num?
    case Double => v.Float?
    case Boolean => v.Flag?
    case IpAddress => v.Ip?
  }

  /** Values of one type, with missing placed either way, are strictly and totally ordered. */
  lemma ValuesOrdered(ty: SortType, nullIsMax: bool, x: Value, y: Value, z: Value)
    requires Typed(ty, x) && Typed(ty, y) && Typed(ty, z)
    ensures CmpNatural(x, y, nullIsMax) == -CmpNatural(y, x, nullIsMax)
    ensures CmpNatural(x, y, nullIsMax) == 0 <==> x == y
    ensures CmpNatural(x, y, nullIsMax) < 0 && CmpNatural(y, z, nullIsMax) < 0 ==> CmpNatural(x, z, nullIsMax) < 0
  {
    if x.Str? && y.Str? {
      TextsOrdered(x.text, y.text);
      if z.Str? && Lexico.Less(x.text, y.text) && Lexico.Less(y.text, z.text) {
        Lexico.Transitive(x.text, y.text, z.text);
      }
    }
  }

  /** A whole number and a fraction compare by value, in values and keys alike. */
  lemma MixedNumbers(n: int, f: real, nullIsMax: bool)
    ensures CmpNatural(Num(n), Float(f), nullIsMax) == CmpKeys(NumKey(n), FloatKey(f), nullIsMax)
    ensures CmpNatural(Float(f), Num(n), nullIsMax) == CmpKeys(FloatKey(f), NumKey(n), nullIsMax)
    ensures CmpNatural(Num(n), Float(f), nullIsMax) < 0 <==> n as real < f
    ensures CmpNatural(Num(n), Float(f), nullIsMax) == 0 <==> n as real == f
    ensures CmpNatural(Float(f), Num(n), nullIsMax) == -CmpNatural(Num(n), Float(f), nullIsMax)
  {
  }

  /** Missing aside, whatever two kinds of values meet: booleans come before numbers,
      numbers before texts, texts before addresses, in values and keys alike. */
  ghost predicate EarlierKind(a: Value, b: Value) {
    || (a.Flag? && (b.Num? || b.Float? || b.Str? || b.Ip?))
    || ((a.Num? || a.Float?) && (b.Str? || b.Ip?))
    || (a.Str? && b.Ip?)
  }

  ghost predicate KeyOfKind(k: Key, v: Value) {
    match v
    case Missing => k.NoKey?
    case Flag(_) => k.FlagKey?
    case Num(_) => k.NumKey?
    case Float(_) => k.FloatKey?
    case Str(_) => k.Ord?
    case Ip(_) => k.IpKey?
  }

  lemma KindsOrdered(a: Value, b: Value, ka: Key, kb: Key, nullIsMax: bool)
    requires EarlierKind(a, b) && KeyOfKind(ka, a) && KeyOfKind(kb, b)
    ensures CmpNatural(a, b, nullIsMax) < 0 < CmpNatural(b, a, nullIsMax)
    ensures CmpKeys(ka, kb, nullIsMax) < 0 < CmpKeys(kb, ka, nullIsMax)
  {
  }

  lemma TextsOrdered(s: Text, t: Text)
    ensures s == t || Lexico.Less(s, t) || Lexico.Less(t, s)
    ensures !(Lexico.Less(s, t) && Lexico.Less(t, s)) && (s == t ==> !Lexico.Less(s, t))
  {
    Lexico.Trichotomy(s, t);
    Lexico.Irreflexive(s);
    if Lexico.Less(s, t) {
      Lexico.Asymmetric(s, t);
    }
  }

  // ---- a document's key ----

  /** The largest or smallest of a document's values. */
  function Pick<T(!new)>(xs: seq<T>, useMax: bool, lt: (T, T) -> bool): T
    requires xs != []
  {
    if |xs| == 1 then xs[0]
    else
      var x, best := xs[|xs| - 1], Pick(xs[..|xs| - 1], useMax, lt);
      if useMax == lt(x, best) then best else x
  }

  function DocCount(col: Column): nat {
    match col
    case NoColumn => 0
    case StrColumn(_, ords) => |ords|
    case NumColumn(nums) => |nums|
    case FloatColumn(floats) => |floats|
    case FlagColumn(flags) => |flags|
    case IpColumn(ips) => |ips|
  }

  /** A column a segment can hold for a field of type `ty`. */
  ghost predicate ColumnOk(ty: SortType, col: Column) {
    match col
    case NoColumn => true
    case StrColumn(dict, ords) =>
      ty == Keyword && Lexico.StrictlySorted(dict) &&
      forall d, i :: 0 <= d < |ords| && 0 <= i < |ords[d]| ==> ords[d][i] < |dict|
    case NumColumn(_) => ty == Long || ty == Date
    case FloatColumn(_) => ty == Double
    case FlagColumn(_) => ty == Boolean
    case IpColumn(_) => ty == IpAddress
  }

  predicate HasDoc(col: Column, doc: nat) {
    col.NoColumn? || doc < DocCount(col)
  }

  function DocKey(col: Column, doc: nat, useMax: bool): Key
    requires HasDoc(col, doc)
  {
    match col
    case NoColumn => NoKey
    case StrColumn(_, ords) =>
      if ords[doc] == [] then NoKey else Ord(Pick(ords[doc], useMax, (a: nat, b: nat) => a < b) * 2 + 1)
    case NumColumn(nums) =>
      if nums[doc] == [] then NoKey else NumKey(Pick(nums[doc], useMax, (a: int, b: int) => a < b))
    case FloatColumn(floats) =>
      if floats[doc] == [] then NoKey else FloatKey(Pick(floats[doc], useMax, (a: real, b: real) => a < b))
    case FlagColumn(flags) =>
      if flags[doc] == [] then NoKey else FlagKey(Pick(flags[doc], useMax, (a: bool, b: bool) => !a && b))
    case IpColumn(ips) =>
      if ips[doc] == [] then NoKey else IpKey(Pick(ips[doc], useMax, (a: nat, b: nat) => a < b))
  }

  /** The key a value has in a segment, whether or not the segment holds it. */
  function KeyFor(col: Column, v: Value): Key {
    match v
    case Missing => NoKey
    case Str(s) =>
      if col.StrColumn? then
        var p := Lexico.Position(col.dict, s);
        if p < |col.dict| && col.dict[p] == s then Ord(p * 2 + 1) else Ord(p * 2)
      else Ord(0)
    case Num(n) => NumKey(n)
    case Float(f) => FloatKey(f)
    case Flag(b) => FlagKey(b)
    case Ip(bits) => IpKey(bits)
  }

  function Materialize(col: Column, k: Key): Value {
    match k
    case NoKey => Missing
    case Ord(o) => if col.StrColumn? && o / 2 < |col.dict| then Str(col.dict[o / 2]) else Missing
    case NumKey(n) => Num(n)
    case FloatKey(f) => Float(f)
    case FlagKey(b) => Flag(b)
    case IpKey(bits) => Ip(bits)
  }

  // ---- what a document's key means ----

  /** The values a document holds, as a reader of the whole index sees them. */
  ghost function DocValues(col: Column, doc: nat): seq<Value>
    requires HasDoc(col, doc)
  {
    match col
    case NoColumn => []
    case StrColumn(dict, ords) =>
      seq(|ords[doc]|, i requires 0 <= i < |ords[doc]| =>
        if ords[doc][i] < |dict| then Str(dict[ords[doc][i]]) else Missing)
    case NumColumn(nums) => seq(|nums[doc]|, i requires 0 <= i < |nums[doc]| => Num(nums[doc][i]))
    case FloatColumn(floats) => seq(|floats[doc]|, i requires 0 <= i < |floats[doc]| => Float(floats[doc][i]))
    case FlagColumn(flags) => seq(|flags[doc]|, i requires 0 <= i < |flags[doc]| => Flag(flags[doc][i]))
    case IpColumn(ips) => seq(|ips[doc]|, i requires 0 <= i < |ips[doc]| => Ip(ips[doc][i]))
  }

  ghost predicate Extreme(vs: seq<Value>, useMax: bool, v: Value) {
    if vs == [] then v == Missing
    else v in vs && forall i :: 0 <= i < |vs| ==>
      (if useMax then CmpNatural(vs[i], v, true) <= 0 else CmpNatural(v, vs[i], true) <= 0)
  }

  ghost predicate Ordered<T(!new)>(lt: (T, T) -> bool) {
    && (forall x, y :: lt(x, y) || lt(y, x) || x == y)
    && (forall x, y :: lt(x, y) ==> !lt(y, x))
    && (forall x, y, z :: lt(x, y) && lt(y, z) ==> lt(x, z))
  }

  /** Where `Pick` found its value; nothing in the list lies beyond it. */
  lemma {:induction false} PickIsExtreme<T(!new)>(xs: seq<T>, useMax: bool, lt: (T, T) -> bool) returns (at: nat)
    requires xs != [] && Ordered(lt)
    ensures at < |xs| && xs[at] == Pick(xs, useMax, lt)
    ensures forall i :: 0 <= i < |xs| ==> (if useMax then !lt(xs[at], xs[i]) else !lt(xs[i], xs[at]))
  {
    var n := |xs| - 1;
    if n == 0 {
      at := 0;
    } else {
      at := PickIsExtreme(xs[..n], useMax, lt);
      assert forall i :: 0 <= i < n ==> xs[..n][i] == xs[i];
      if useMax != lt(xs[n], xs[at]) {
        at := n;
      }
    }
  }

  /** Choosing among ordinals chooses the document's extreme value. */
  lemma KeyIsExtreme(ty: SortType, col: Column, doc: nat, useMax: bool)
    requires ColumnOk(ty, col) && HasDoc(col, doc)
    ensures Extreme(DocValues(col, doc), useMax, Materialize(col, DocKey(col, doc, useMax)))
  {
    var vs := DocValues(col, doc);
    if vs != [] {
      match col
      case StrColumn(dict, ords) => StrKeyIsExtreme(col, doc, useMax);
      case NumColumn(nums) =>
        var at := PickIsExtreme(nums[doc], useMax, (a: int, b: int) => a < b);
        assert vs[at] in vs;
      case FloatColumn(floats) =>
        var at := PickIsExtreme(floats[doc], useMax, (a: real, b: real) => a < b);
        assert vs[at] in vs;
      case FlagColumn(flags) =>
        var at := PickIsExtreme(flags[doc], useMax, (a: bool, b: bool) => !a && b);
        assert vs[at] in vs;
      case IpColumn(ips) => var at := PickIsExtreme(ips[doc], useMax, (a: nat, b: nat) => a < b); assert vs[at] in vs;
    }
  }

  lemma StrKeyIsExtreme(col: Column, doc: nat, useMax: bool)
    requires ColumnOk(Keyword, col) && col.StrColumn? && HasDoc(col, doc) && col.ords[doc] != []
    ensures Extreme(DocValues(col, doc), useMax, Materialize(col, DocKey(col, doc, useMax)))
  {
    var vs, ords := DocValues(col, doc), col.ords[doc];
    var at := PickIsExtreme(ords, useMax, (a: nat, b: nat) => a < b);
    var v := Materialize(col, DocKey(col, doc, useMax));
    assert v == vs[at] && v in vs;
    forall i | 0 <= i < |vs|
      ensures if useMax then CmpNatural(vs[i], v, true) <= 0 else CmpNatural(v, vs[i], true) <= 0
    {
      Lexico.PositionsOrder(col.dict, ords[i], ords[at]);
      Lexico.PositionsOrder(col.dict, ords[at], ords[i]);
      TextsOrdered(col.dict[ords[i]], col.dict[ords[at]]);
    }
  }

  // ---- keys order like values ----

  /** A key a document of this segment can carry, either its own or a
      substitute's that is not a keyword absent from the dictionary. */
  ghost predicate InSegment(ty: SortType, col: Column, k: Key) {
    k.NoKey? ||
    match ty
    case Keyword => k.Ord? && k.ord % 2 == 1 && col.StrColumn? && k.ord / 2 < |col.dict|
    case Long => k.NumKey?
    case Date => k.NumKey?
    case Double => k.FloatKey?
    case Boolean => k.FlagKey?
    case IpAddress => k.IpKey?
  }

  lemma DocKeyInSegment(ty: SortType, col: Column, doc: nat, useMax: bool)
    requires ColumnOk(ty, col) && HasDoc(col, doc)
    ensures InSegment(ty, col, DocKey(col, doc, useMax))
    ensures Typed(ty, Materialize(col, DocKey(col, doc, useMax)))
  {
    if col.StrColumn? && col.ords[doc] != [] {
      var at := PickIsExtreme(col.ords[doc], useMax, (a: nat, b: nat) => a < b);
    }
  }

  /** Doubled ordinals order two strings as the strings themselves, present in the
      dictionary or not, unless both are absent from the same gap. */
  lemma KeyForFaithfulIff(dict: seq<Text>, ords: seq<seq<nat>>, s: Text, t: Text)
    requires Lexico.StrictlySorted(dict)
    ensures var col := StrColumn(dict, ords);
            CmpKeys(KeyFor(col, Str(s)), KeyFor(col, Str(t)), true) == CmpNatural(Str(s), Str(t), true)
            <==> s == t || s in dict || t in dict || Lexico.Position(dict, s) != Lexico.Position(dict, t)
  {
    var p, q := Lexico.Position(dict, s), Lexico.Position(dict, t);
    TextsOrdered(s, t);
    InDictionary(dict, s);
    InDictionary(dict, t);
    if s != t {
      if p < q {
        EarlierPosition(dict, s, t);
      } else if q < p {
        EarlierPosition(dict, t, s);
      } else if s in dict {
        SamePosition(dict, s, t);
      } else if t in dict {
        SamePosition(dict, t, s);
      }
    }
  }

  lemma InDictionary(dict: seq<Text>, s: Text)
    requires Lexico.StrictlySorted(dict)
    ensures s in dict <==> Lexico.Position(dict, s) < |dict| && dict[Lexico.Position(dict, s)] == s
  {
    if s in dict {
      var i :| 0 <= i < |dict| && dict[i] == s;
      Lexico.PositionOfTerm(dict, i);
    }
  }

  lemma EarlierPosition(dict: seq<Text>, s: Text, t: Text)
    requires Lexico.StrictlySorted(dict) && Lexico.Position(dict, s) < Lexico.Position(dict, t)
    ensures Lexico.Less(s, t)
  {
    var p := Lexico.Position(dict, s);
    Lexico.PositionSplits(dict, s);
    Lexico.PositionSplits(dict, t);
    Lexico.Trichotomy(dict[p], s);
    if dict[p] != s {
      Lexico.Transitive(s, dict[p], t);
    }
  }

  /** A term precedes every other string of its own position. */
  lemma SamePosition(dict: seq<Text>, s: Text, t: Text)
    requires Lexico.StrictlySorted(dict) && s in dict && s != t && Lexico.Position(dict, s) == Lexico.Position(dict, t)
    ensures Lexico.Less(t, s) && t !in dict
  {
    InDictionary(dict, s);
    InDictionary(dict, t);
    Lexico.PositionSplits(dict, t);
    Lexico.Trichotomy(s, t);
  }

  lemma OwnKey(col: Column, k: Key)
    requires ColumnOk(Keyword, col) && InSegment(Keyword, col, k) && k.Ord?
    ensures Materialize(col, k).Str? && Materialize(col, k).text in col.dict && KeyFor(col, Materialize(col, k)) == k
  {
    Lexico.PositionOfTerm(col.dict, k.ord / 2);
  }

  /** A document's key compares with any typed cursor value's key as the
      document's value compares with the cursor value. */
  lemma CursorEmbeds(ty: SortType, col: Column, k: Key, v: Value, nullIsMax: bool)
    requires ColumnOk(ty, col) && InSegment(ty, col, k) && Typed(ty, v)
    ensures CmpKeys(k, KeyFor(col, v), nullIsMax) == CmpNatural(Materialize(col, k), v, nullIsMax)
  {
    if ty == Keyword && k.Ord? && v.Str? {
      OwnKey(col, k);
      KeyForFaithfulIff(col.dict, col.ords, Materialize(col, k).text, v.text);
    }
  }

  /** The keys of a segment's documents order as their values do. */
  lemma KeysEmbed(ty: SortType, col: Column, a: Key, b: Key, nullIsMax: bool)
    requires ColumnOk(ty, col) && InSegment(ty, col, a) && InSegment(ty, col, b)
    ensures CmpKeys(a, b, nullIsMax) == CmpNatural(Materialize(col, a), Materialize(col, b), nullIsMax)
  {
    if ty == Keyword && a.Ord? && b.Ord? {
      OwnKey(col, a);
      OwnKey(col, b);
      KeyForFaithfulIff(col.dict, col.ords, Materialize(col, a).text, Materialize(col, b).text);
    }
  }

  /** Two absent strings of one gap: a keyword substitute there reads as equal to
      the cursor, though it sorts after it. */
  lemma SubstituteCollapses()
    ensures var col := StrColumn([[1], [9]], []);
            && CmpKeys(KeyFor(col, Str([5])), KeyFor(col, Str([4])), true) == 0
            && CmpNatural(Str([5]), Str([4]), true) == 1
  {
    assert Lexico.Position([[1], [9]], [4]) == 1 by { assert [[1], [9]][1..] == [[9]]; }
    assert Lexico.Position([[1], [9]], [5]) == 1 by { assert [[1], [9]][1..] == [[9]]; }
  }
}
