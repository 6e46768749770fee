/** Field-sort search: per-segment bounded collection in key space, per-split and
global merges in value space, and paging by `search_after`. */
module FieldPaging {
  import opened Prelude
  import opened Ranking
  import opened SortKeys
  import opened SortCursor
  import Lexico
  import TopHeap

  /** A segment: one column per sort field, the tiebreak columns (a legacy
      document's stamp reads -1) and the documents the query matched. */
  datatype Segment = Segment(columns: seq<Column>, ts: seq<int>, stamp: seq<int>, docs: seq<nat>)

  /** A collected document in its segment's key space. */
  datatype Ranked = Ranked(keys: seq<Key>, ts: int, stamp: int, doc: nat)

  /** A hit as the merges see it. */
  datatype Hit = Hit(values: seq<Value>, ts: int, stamp: int, split: nat, segment: nat, doc: nat)

  // ---- comparing field by field ----

  /** The first comparison that decides. */
  function FirstOf(cs: seq<int>): int {
    if cs == [] then 0 else if cs[0] != 0 then cs[0] else FirstOf(cs[1..])
  }

  lemma {:induction false} FirstZero(cs: seq<int>)
    ensures FirstOf(cs) == 0 <==> forall i :: 0 <= i < |cs| ==> cs[i] == 0
  {
    if cs != [] {
      FirstZero(cs[1..]);
      assert cs == [cs[0]] + cs[1..];
    }
  }

  lemma {:induction false} FirstNegated(xy: seq<int>, yx: seq<int>)
    requires |xy| == |yx| && forall i :: 0 <= i < |xy| ==> yx[i] == -xy[i]
    ensures FirstOf(yx) == -FirstOf(xy)
  {
    if xy != [] {
      FirstNegated(xy[1..], yx[1..]);
    }
  }

  lemma {:induction false} FirstChains(xy: seq<int>, yz: seq<int>, xz: seq<int>)
    requires |xy| == |yz| == |xz|
    requires forall i :: 0 <= i < |xy| ==> (xy[i] < 0 && yz[i] < 0 ==> xz[i] < 0)
    requires forall i :: 0 <= i < |xy| ==> (xy[i] == 0 ==> xz[i] == yz[i]) && (yz[i] == 0 ==> xz[i] == xy[i])
    ensures FirstOf(xy) < 0 && FirstOf(yz) < 0 ==> FirstOf(xz) < 0
    ensures FirstOf(xy) == 0 ==> FirstOf(xz) == FirstOf(yz)
    ensures FirstOf(yz) == 0 ==> FirstOf(xz) == FirstOf(xy)
  {
    if xy != [] {
      FirstChains(xy[1..], yz[1..], xz[1..]);
    }
  }

  function Directed(f: Field, c: int): int {
    if f.desc then -c else c
  }

  function ValueAt(vs: seq<Value>, i: nat): Value {
    if i < |vs| then vs[i] else Missing
  }

  function KeyAt(ks: seq<Key>, i: nat): Key {
    if i < |ks| then ks[i] else NoKey
  }

  function ValueCmps(fields: seq<Field>, a: seq<Value>, b: seq<Value>): seq<int> {
    seq(|fields|, i requires 0 <= i < |fields| =>
      Directed(fields[i], CmpNatural(ValueAt(a, i), ValueAt(b, i), fields[i].nullIsMax)))
  }

  function KeyCmps(fields: seq<Field>, a: seq<Key>, b: seq<Key>): seq<int> {
    seq(|fields|, i requires 0 <= i < |fields| =>
      Directed(fields[i], CmpKeys(KeyAt(a, i), KeyAt(b, i), fields[i].nullIsMax)))
  }

  // ---- the two orders ----

  function AddressOf(h: Hit): Address {
    Address(h.split, h.segment, h.doc)
  }

  /** Result order: the fields, then newest timestamp, then newest stamp, then address. */
  predicate HitBefore(fields: seq<Field>, a: Hit, b: Hit) {
    var c := FirstOf(ValueCmps(fields, a.values, b.values));
    c < 0 || (c == 0 &&
      (a.ts > b.ts || (a.ts == b.ts &&
        (a.stamp > b.stamp || (a.stamp == b.stamp && AddressOf(a).Before(AddressOf(b)))))))
  }

  /** The same within a segment, on keys. */
  predicate RankedBefore(fields: seq<Field>, a: Ranked, b: Ranked) {
    var c := FirstOf(KeyCmps(fields, a.keys, b.keys));
    c < 0 || (c == 0 &&
      (a.ts > b.ts || (a.ts == b.ts && (a.stamp > b.stamp || (a.stamp == b.stamp && a.doc < b.doc)))))
  }

  function HitOrder(fields: seq<Field>): Order<Hit> {
    (a: Hit, b: Hit) => HitBefore(fields, a, b)
  }

  function RankedOrder(fields: seq<Field>): Order<Ranked> {
    (a: Ranked, b: Ranked) => RankedBefore(fields, a, b)
  }

  ghost predicate ValuesOk(fields: seq<Field>, values: seq<Value>) {
    |values| == |fields| && forall i :: 0 <= i < |fields| ==> Typed(fields[i].ty, values[i])
  }

  /** Whole value lists are strictly and totally ordered. */
  lemma ListsOrdered(fields: seq<Field>, x: seq<Value>, y: seq<Value>, z: seq<Value>)
    requires ValuesOk(fields, x) && ValuesOk(fields, y) && ValuesOk(fields, z)
    ensures FirstOf(ValueCmps(fields, x, y)) == 0 <==> x == y
    ensures FirstOf(ValueCmps(fields, y, x)) == -FirstOf(ValueCmps(fields, x, y))
    ensures FirstOf(ValueCmps(fields, x, y)) < 0 && FirstOf(ValueCmps(fields, y, z)) < 0 ==>
            FirstOf(ValueCmps(fields, x, z)) < 0
  {
    var xy, yx := ValueCmps(fields, x, y), ValueCmps(fields, y, x);
    var yz, xz := ValueCmps(fields, y, z), ValueCmps(fields, x, z);
    forall i | 0 <= i < |fields|
      ensures yx[i] == -xy[i] && (xy[i] == 0 <==> x[i] == y[i]) && (yz[i] == 0 <==> y[i] == z[i])
      ensures xy[i] < 0 && yz[i] < 0 ==> xz[i] < 0
    {
      FieldOrdered(fields[i], x[i], y[i], z[i]);
    }
    FirstZero(xy);
    FirstNegated(xy, yx);
    FirstChains(xy, yz, xz);
  }

  lemma FieldOrdered(f: Field, x: Value, y: Value, z: Value)
    requires Typed(f.ty, x) && Typed(f.ty, y) && Typed(f.ty, z)
    ensures Directed(f, CmpNatural(y, x, f.nullIsMax)) == -Directed(f, CmpNatural(x, y, f.nullIsMax))
    ensures Directed(f, CmpNatural(x, y, f.nullIsMax)) == 0 <==> x == y
    ensures Directed(f, CmpNatural(y, z, f.nullIsMax)) == 0 <==> y == z
    ensures Directed(f, CmpNatural(x, y, f.nullIsMax)) < 0 && Directed(f, CmpNatural(y, z, f.nullIsMax)) < 0 ==>
            Directed(f, CmpNatural(x, z, f.nullIsMax)) < 0
  {
    ValuesOrdered(f.ty, f.nullIsMax, x, y, z);
    ValuesOrdered(f.ty, f.nullIsMax, y, z, x);
    ValuesOrdered(f.ty, f.nullIsMax, z, y, x);
    ValuesOrdered(f.ty, f.nullIsMax, x, z, y);
  }

  lemma HitsOrdered(fields: seq<Field>, x: Hit, y: Hit, z: Hit)
    requires ValuesOk(fields, x.values) && ValuesOk(fields, y.values) && ValuesOk(fields, z.values)
    ensures !HitBefore(fields, x, x)
    ensures x != y ==> HitBefore(fields, x, y) || HitBefore(fields, y, x)
    ensures HitBefore(fields, x, y) && HitBefore(fields, y, z) ==> HitBefore(fields, x, z)
  {
    ListsOrdered(fields, x.values, x.values, x.values);
    ListsOrdered(fields, x.values, y.values, z.values);
    ListsOrdered(fields, y.values, z.values, x.values);
    ListsOrdered(fields, x.values, z.values, y.values);
  }

  // ---- what the order means ----

  /** Both present: the smaller of two values of one type. */
  ghost predicate Smaller(x: Value, y: Value) {
    match (x, y)
    case (Num(a), Num(b)) => a < b
    case (Float(a), Float(b)) => a < b
    case (Str(a), Str(b)) => Lexico.Before(a, b)
    case (Flag(a), Flag(b)) => !a && b
    case (Ip(a), Ip(b)) => a < b
    case (_, _) => false
  }

  /** Which of two different values of a field comes first: the smaller if ascending, the
      larger if descending; a missing one last exactly if it counts as largest and the
      order is ascending, or as smallest and the order is descending. */
  ghost predicate ComesFirst(f: Field, x: Value, y: Value) {
    if y.Missing? then f.nullIsMax != f.desc
    else if x.Missing? then f.nullIsMax == f.desc
    else if f.desc then Smaller(y, x) else Smaller(x, y)
  }

  lemma FieldMeans(f: Field, x: Value, y: Value)
    requires Typed(f.ty, x) && Typed(f.ty, y) && x != y
    ensures Directed(f, CmpNatural(x, y, f.nullIsMax)) < 0 <==> ComesFirst(f, x, y)
    ensures Directed(f, CmpNatural(x, y, f.nullIsMax)) > 0 <==> !ComesFirst(f, x, y)
  {
    FieldOrdered(f, x, y, x);
    if x.Str? && y.Str? {
      Lexico.LessIsBefore(x.text, y.text);
      Lexico.LessIsBefore(y.text, x.text);
    }
  }

  lemma {:induction false} FirstDecides(cs: seq<int>, i: nat)
    requires i < |cs| && cs[i] != 0 && forall k :: 0 <= k < i ==> cs[k] == 0
    ensures FirstOf(cs) == cs[i]
  {
    if i > 0 {
      FirstDecides(cs[1..], i - 1);
    }
  }

  /** Two value lists are ordered by the first field that differs. */
  lemma FirstDiffers(fields: seq<Field>, x: seq<Value>, y: seq<Value>, i: nat)
    requires ValuesOk(fields, x) && ValuesOk(fields, y)
    requires i < |fields| && x[..i] == y[..i] && x[i] != y[i]
    ensures FirstOf(ValueCmps(fields, x, y)) < 0 <==> ComesFirst(fields[i], x[i], y[i])
    ensures FirstOf(ValueCmps(fields, x, y)) > 0 <==> !ComesFirst(fields[i], x[i], y[i])
  {
    var cs := ValueCmps(fields, x, y);
    forall k | 0 <= k < i
      ensures cs[k] == 0
    {
      assert x[k] == x[..i][k] == y[..i][k] == y[k];
      FieldOrdered(fields[k], x[k], y[k], y[k]);
    }
    FieldMeans(fields[i], x[i], y[i]);
    FirstDecides(cs, i);
  }

  /** Result order, said over the reported values: the first field that differs decides;
      with none, the newer timestamp, then the newer stamp, then the lower address. */
  lemma HitOrderMeans(fields: seq<Field>, a: Hit, b: Hit)
    requires ValuesOk(fields, a.values) && ValuesOk(fields, b.values)
    ensures forall i :: 0 <= i < |fields| && a.values[..i] == b.values[..i] && a.values[i] != b.values[i] ==>
              (HitBefore(fields, a, b) <==> ComesFirst(fields[i], a.values[i], b.values[i]))
    ensures a.values == b.values ==>
              (HitBefore(fields, a, b) <==>
                 || a.ts > b.ts
                 || (a.ts == b.ts && a.stamp > b.stamp)
                 || (a.ts == b.ts && a.stamp == b.stamp &&
                       (a.split < b.split || (a.split == b.split &&
                          (a.segment < b.segment || (a.segment == b.segment && a.doc < b.doc))))))
  {
    ListsOrdered(fields, a.values, b.values, b.values);
    forall i | 0 <= i < |fields| && a.values[..i] == b.values[..i] && a.values[i] != b.values[i]
      ensures HitBefore(fields, a, b) <==> ComesFirst(fields[i], a.values[i], b.values[i])
    {
      FirstDiffers(fields, a.values, b.values, i);
    }
  }

  lemma HitOrderTotal(fields: seq<Field>, s: set<Hit>)
    requires forall h :: h in s ==> ValuesOk(fields, h.values)
    ensures Total(HitOrder(fields), s)
  {
    forall x, y, z | x in s && y in s && z in s
      ensures !HitBefore(fields, x, x)
      ensures x != y ==> HitBefore(fields, x, y) || HitBefore(fields, y, x)
      ensures HitBefore(fields, x, y) && HitBefore(fields, y, z) ==> HitBefore(fields, x, z)
    {
      HitsOrdered(fields, x, y, z);
    }
    var lt := HitOrder(fields);
    forall x, y | x in s && y in s && x != y
      ensures lt(x, y) || lt(y, x)
    {
      HitsOrdered(fields, x, y, x);
    }
    forall x | x in s
      ensures !lt(x, x)
    {
      HitsOrdered(fields, x, x, x);
    }
  }

  // ---- a document's keys and values ----

  function FieldKey(f: Field, col: Column, doc: nat): Key
    requires HasDoc(col, doc)
  {
    var k := DocKey(col, doc, f.useMax);
    if k.NoKey? && f.substitute.Some? then KeyFor(col, f.substitute.value) else k
  }

  function FieldValue(f: Field, col: Column, k: Key): Value {
    if f.substitute.Some? && KeyFor(col, f.substitute.value) == k then f.substitute.value else Materialize(col, k)
  }

  /** What a document sorts by, said over its own values: the extreme one, else the
      substitute, else missing. */
  ghost predicate SortsBy(f: Field, col: Column, doc: nat, v: Value)
    requires HasDoc(col, doc)
  {
    var vs := DocValues(col, doc);
    if vs == [] && f.substitute.Some? then v == f.substitute.value else Extreme(vs, f.useMax, v)
  }

  /** A substitute of the field's type; a keyword one is in the segment's dictionary,
      or no document of the segment needs it. */
  ghost predicate FieldOk(f: Field, col: Column) {
    f.substitute.Some? ==>
      && Typed(f.ty, f.substitute.value)
      && (f.substitute.value.Str? ==>
            && col.StrColumn?
            && (f.substitute.value.text in col.dict || forall d :: 0 <= d < |col.ords| ==> col.ords[d] != []))
  }

  lemma FieldKeyMeans(f: Field, col: Column, doc: nat)
    requires FieldOk(f, col) && ColumnOk(f.ty, col) && HasDoc(col, doc)
    ensures InSegment(f.ty, col, FieldKey(f, col, doc))
    ensures FieldValue(f, col, FieldKey(f, col, doc)) == Materialize(col, FieldKey(f, col, doc))
    ensures Typed(f.ty, FieldValue(f, col, FieldKey(f, col, doc)))
    ensures SortsBy(f, col, doc, FieldValue(f, col, FieldKey(f, col, doc)))
  {
    var k := DocKey(col, doc, f.useMax);
    DocKeyInSegment(f.ty, col, doc, f.useMax);
    KeyIsExtreme(f.ty, col, doc, f.useMax);
    if f.substitute.Some? {
      if k.NoKey? {
        SubstituteKey(f.ty, col, f.substitute.value);
      } else {
        OwnKeyShown(f.ty, col, f.substitute.value, k);
      }
    }
  }

  /** A substitute a document needs has a key of the segment's own, which shows it. */
  lemma SubstituteKey(ty: SortType, col: Column, v: Value)
    requires ColumnOk(ty, col) && Typed(ty, v) && (v.Str? ==> col.StrColumn? && v.text in col.dict)
    ensures InSegment(ty, col, KeyFor(col, v)) && Materialize(col, KeyFor(col, v)) == v
  {
    if v.Str? {
      InDictionary(col.dict, v.text);
    }
  }

  /** A document's own key that is also the substitute's shows the same value. */
  lemma OwnKeyShown(ty: SortType, col: Column, v: Value, k: Key)
    requires ColumnOk(ty, col) && Typed(ty, v) && InSegment(ty, col, k) && !k.NoKey?
    ensures KeyFor(col, v) == k ==> Materialize(col, k) == v
  {
    if v.Str? && col.StrColumn? {
      InDictionary(col.dict, v.text);
    }
  }

  ghost predicate DocOk(seg: Segment, doc: nat) {
    && doc < |seg.ts| && doc < |seg.stamp|
    && forall i :: 0 <= i < |seg.columns| ==> HasDoc(seg.columns[i], doc)
  }

  ghost predicate SegmentOk(fields: seq<Field>, seg: Segment) {
    && |seg.columns| == |fields|
    && (forall i :: 0 <= i < |fields| ==> FieldOk(fields[i], seg.columns[i]) && ColumnOk(fields[i].ty, seg.columns[i]))
    && (forall n :: 0 <= n < |seg.docs| ==> DocOk(seg, seg.docs[n]))
    && NoRepeats(seg.docs)
  }

  function RankedOf(fields: seq<Field>, seg: Segment, doc: nat): Ranked
    requires |seg.columns| == |fields| && DocOk(seg, doc)
  {
    Ranked(seq(|fields|, i requires 0 <= i < |fields| => FieldKey(fields[i], seg.columns[i], doc)),
           seg.ts[doc], seg.stamp[doc], doc)
  }

  /** Materialize a collected document. */
  function Harvested(fields: seq<Field>, split: nat, at: nat, seg: Segment, r: Ranked): Hit
    requires |seg.columns| == |fields|
  {
    Hit(seq(|fields|, i requires 0 <= i < |fields| => FieldValue(fields[i], seg.columns[i], KeyAt(r.keys, i))),
        r.ts, r.stamp, split, at, r.doc)
  }

  ghost function HitOf(fields: seq<Field>, split: nat, at: nat, seg: Segment, doc: nat): Hit
    requires |seg.columns| == |fields| && DocOk(seg, doc)
  {
    Harvested(fields, split, at, seg, RankedOf(fields, seg, doc))
  }

  /** A hit names its document: its address, and the segment's timestamp and stamp for it. */
  lemma HitNames(fields: seq<Field>, split: nat, at: nat, seg: Segment, doc: nat)
    requires |seg.columns| == |fields| && DocOk(seg, doc)
    ensures var h := HitOf(fields, split, at, seg, doc);
            && h.split == split && h.segment == at && h.doc == doc && h.ts == seg.ts[doc] && h.stamp == seg.stamp[doc]
            && |h.values| == |fields|
  {
  }

  lemma HitMeans(fields: seq<Field>, split: nat, at: nat, seg: Segment, doc: nat, i: nat)
    requires SegmentOk(fields, seg) && DocOk(seg, doc) && i < |fields|
    ensures Typed(fields[i].ty, HitOf(fields, split, at, seg, doc).values[i])
    ensures SortsBy(fields[i], seg.columns[i], doc, HitOf(fields, split, at, seg, doc).values[i])
  {
    FieldKeyMeans(fields[i], seg.columns[i], doc);
  }

  /** Within a segment the key order is the value order. */
  lemma RankedEmbeds(fields: seq<Field>, split: nat, at: nat, seg: Segment, a: nat, b: nat)
    requires SegmentOk(fields, seg) && DocOk(seg, a) && DocOk(seg, b)
    ensures RankedBefore(fields, RankedOf(fields, seg, a), RankedOf(fields, seg, b)) <==>
            HitBefore(fields, HitOf(fields, split, at, seg, a), HitOf(fields, split, at, seg, b))
  {
    var ka, kb := RankedOf(fields, seg, a).keys, RankedOf(fields, seg, b).keys;
    var va, vb := HitOf(fields, split, at, seg, a).values, HitOf(fields, split, at, seg, b).values;
    forall i | 0 <= i < |fields|
      ensures KeyCmps(fields, ka, kb)[i] == ValueCmps(fields, va, vb)[i]
    {
      FieldKeyMeans(fields[i], seg.columns[i], a);
      FieldKeyMeans(fields[i], seg.columns[i], b);
      KeysEmbed(fields[i].ty, seg.columns[i], ka[i], kb[i], fields[i].nullIsMax);
    }
    assert KeyCmps(fields, ka, kb) == ValueCmps(fields, va, vb);
  }

  // ---- the cursor ----

  /** Strictly past the cursor in result order; without tiebreak values a whole
      group of equal field values is past or not together. */
  predicate PastCursor(fields: seq<Field>, c: Cursor, values: seq<Value>, ts: int, stamp: int) {
    var d := FirstOf(ValueCmps(fields, values, c.values));
    d > 0 || (d == 0 && c.ts.Some? &&
      (ts < c.ts.value || (ts == c.ts.value && c.stamp.Some? && stamp < c.stamp.value)))
  }

  function CursorKeys(seg: Segment, c: Cursor): seq<Key> {
    seq(|seg.columns|, i requires 0 <= i < |seg.columns| => KeyFor(seg.columns[i], ValueAt(c.values, i)))
  }

  /** The collector's test, in key space. */
  predicate AfterCursor(fields: seq<Field>, keys: seq<Key>, c: Cursor, r: Ranked) {
    var d := FirstOf(KeyCmps(fields, r.keys, keys));
    if d != 0 then d > 0
    else if c.ts.None? then false
    else if c.ts.value != r.ts then r.ts < c.ts.value
    else c.stamp.Some? && r.stamp < c.stamp.value
  }

  lemma AfterCursorExact(fields: seq<Field>, split: nat, at: nat, seg: Segment, c: Cursor, doc: nat)
    requires SegmentOk(fields, seg) && DocOk(seg, doc) && ValuesOk(fields, c.values)
    ensures var h := HitOf(fields, split, at, seg, doc);
            AfterCursor(fields, CursorKeys(seg, c), c, RankedOf(fields, seg, doc)) <==>
            PastCursor(fields, c, h.values, h.ts, h.stamp)
  {
    var keys, ks := CursorKeys(seg, c), RankedOf(fields, seg, doc).keys;
    var vs := HitOf(fields, split, at, seg, doc).values;
    forall i | 0 <= i < |fields|
      ensures KeyCmps(fields, ks, keys)[i] == ValueCmps(fields, vs, c.values)[i]
    {
      FieldKeyMeans(fields[i], seg.columns[i], doc);
      CursorEmbeds(fields[i].ty, seg.columns[i], ks[i], c.values[i], fields[i].nullIsMax);
    }
    assert KeyCmps(fields, ks, keys) == ValueCmps(fields, vs, c.values);
  }

  // ---- collecting one segment ----

  ghost predicate CursorOk(fields: seq<Field>, c: Option<Cursor>) {
    c.Some? ==> ValuesOk(fields, c.value.values)
  }

  predicate Admits(fields: seq<Field>, c: Option<Cursor>, h: Hit) {
    c.None? || PastCursor(fields, c.value, h.values, h.ts, h.stamp)
  }

  /** What a cursor admits, said over the reported values. The first field that differs
      from the cursor decides, and the cursor's value has to come first. A hit equal in
      every field is past no cursor without a timestamp; it is past one with a timestamp
      exactly if it is older, or as old and below the stamp the cursor then has to have. */
  lemma AdmitsMeans(fields: seq<Field>, c: Cursor, h: Hit)
    requires ValuesOk(fields, c.values) && ValuesOk(fields, h.values)
    ensures Admits(fields, None, h)
    ensures forall i :: 0 <= i < |fields| && c.values[..i] == h.values[..i] && c.values[i] != h.values[i] ==>
              (Admits(fields, Some(c), h) <==> ComesFirst(fields[i], c.values[i], h.values[i]))
    ensures h.values == c.values && c.ts.None? ==> !Admits(fields, Some(c), h)
    ensures h.values == c.values && c.ts.Some? && h.ts != c.ts.value ==>
              (Admits(fields, Some(c), h) <==> h.ts < c.ts.value)
    ensures h.values == c.values && c.ts == Some(h.ts) && c.stamp.None? ==> !Admits(fields, Some(c), h)
    ensures h.values == c.values && c.ts == Some(h.ts) && c.stamp.Some? ==>
              (Admits(fields, Some(c), h) <==> h.stamp < c.stamp.value)
  {
    ListsOrdered(fields, c.values, h.values, h.values);
    forall i | 0 <= i < |fields| && c.values[..i] == h.values[..i] && c.values[i] != h.values[i]
      ensures Admits(fields, Some(c), h) <==> ComesFirst(fields[i], c.values[i], h.values[i])
    {
      FirstDiffers(fields, c.values, h.values, i);
    }
  }

  ghost function SegmentHits(fields: seq<Field>, c: Option<Cursor>, split: nat, at: nat, seg: Segment): set<Hit>
    requires SegmentOk(fields, seg)
  {
    set n | 0 <= n < |seg.docs| && Admits(fields, c, HitOf(fields, split, at, seg, seg.docs[n])) ::
      HitOf(fields, split, at, seg, seg.docs[n])
  }

  ghost function SegmentRanked(fields: seq<Field>, c: Option<Cursor>, split: nat, at: nat, seg: Segment, m: nat)
    : set<Ranked>
    requires SegmentOk(fields, seg) && m <= |seg.docs|
  {
    set n | 0 <= n < m && Admits(fields, c, HitOf(fields, split, at, seg, seg.docs[n])) ::
      RankedOf(fields, seg, seg.docs[n])
  }

  lemma SegmentHitsOk(fields: seq<Field>, c: Option<Cursor>, split: nat, at: nat, seg: Segment)
    requires SegmentOk(fields, seg)
    ensures forall h :: h in SegmentHits(fields, c, split, at, seg) ==>
              ValuesOk(fields, h.values) && h.split == split && h.segment == at
  {
    forall n, i | 0 <= n < |seg.docs| && 0 <= i < |fields|
      ensures Typed(fields[i].ty, HitOf(fields, split, at, seg, seg.docs[n]).values[i])
    {
      HitMeans(fields, split, at, seg, seg.docs[n], i);
    }
  }

  function Harvester(fields: seq<Field>, split: nat, at: nat, seg: Segment): Ranked -> Hit
    requires |seg.columns| == |fields|
  {
    (r: Ranked) => Harvested(fields, split, at, seg, r)
  }

  lemma RankedOfDoc(fields: seq<Field>, c: Option<Cursor>, split: nat, at: nat, seg: Segment, m: nat, r: Ranked)
    requires SegmentOk(fields, seg) && m <= |seg.docs| && r in SegmentRanked(fields, c, split, at, seg, m)
    ensures r.doc in seg.docs && DocOk(seg, r.doc) && r == RankedOf(fields, seg, r.doc)
    ensures Harvested(fields, split, at, seg, r) in SegmentHits(fields, c, split, at, seg)
  {
  }

  /** The collector's order on a segment's documents is carried to result order. */
  lemma SegmentEmbeds(fields: seq<Field>, c: Option<Cursor>, split: nat, at: nat, seg: Segment)
    requires SegmentOk(fields, seg)
    ensures Embeds(RankedOrder(fields), SegmentRanked(fields, c, split, at, seg, |seg.docs|),
                   HitOrder(fields), SegmentHits(fields, c, split, at, seg), Harvester(fields, split, at, seg))
  {
    var s, s' := SegmentRanked(fields, c, split, at, seg, |seg.docs|), SegmentHits(fields, c, split, at, seg);
    var f := Harvester(fields, split, at, seg);
    forall x | x in s
      ensures f(x) in s'
    {
      RankedOfDoc(fields, c, split, at, seg, |seg.docs|, x);
    }
    forall y | y in s'
      ensures exists x :: x in s && f(x) == y
    {
      var n :|
        && 0 <= n < |seg.docs| && Admits(fields, c, HitOf(fields, split, at, seg, seg.docs[n]))
        && y == HitOf(fields, split, at, seg, seg.docs[n]);
      assert f(RankedOf(fields, seg, seg.docs[n])) == y;
    }
    forall x, y | x in s && y in s && RankedBefore(fields, x, y)
      ensures HitBefore(fields, f(x), f(y))
    {
      RankedOfDoc(fields, c, split, at, seg, |seg.docs|, x);
      RankedOfDoc(fields, c, split, at, seg, |seg.docs|, y);
      RankedEmbeds(fields, split, at, seg, x.doc, y.doc);
    }
  }

  lemma RankedTotal(fields: seq<Field>, c: Option<Cursor>, split: nat, at: nat, seg: Segment, m: nat)
    requires SegmentOk(fields, seg) && m <= |seg.docs|
    ensures Total(RankedOrder(fields), SegmentRanked(fields, c, split, at, seg, m))
  {
    var lt, s := RankedOrder(fields), SegmentRanked(fields, c, split, at, seg, m);
    forall x, y, z | x in s && y in s && z in s
      ensures !lt(x, x) && (x != y ==> lt(x, y) || lt(y, x)) && (lt(x, y) && lt(y, z) ==> lt(x, z))
    {
      RankedOrdered(fields, c, split, at, seg, m, x, y, z);
    }
    forall x, y | x in s && y in s && x != y
      ensures lt(x, y) || lt(y, x)
    {
      RankedOrdered(fields, c, split, at, seg, m, x, y, x);
    }
    forall x | x in s
      ensures !lt(x, x)
    {
      RankedOrdered(fields, c, split, at, seg, m, x, x, x);
    }
  }

  lemma RankedOrdered(fields: seq<Field>, c: Option<Cursor>, split: nat, at: nat, seg: Segment, m: nat,
                      x: Ranked, y: Ranked, z: Ranked)
    requires SegmentOk(fields, seg) && m <= |seg.docs|
    requires var s := SegmentRanked(fields, c, split, at, seg, m); x in s && y in s && z in s
    ensures !RankedBefore(fields, x, x)
    ensures x != y ==> RankedBefore(fields, x, y) || RankedBefore(fields, y, x)
    ensures RankedBefore(fields, x, y) && RankedBefore(fields, y, z) ==> RankedBefore(fields, x, z)
  {
    RankedOfDoc(fields, c, split, at, seg, m, x);
    RankedOfDoc(fields, c, split, at, seg, m, y);
    RankedOfDoc(fields, c, split, at, seg, m, z);
    SegmentHitsOk(fields, c, split, at, seg);
    RankedEmbeds(fields, split, at, seg, x.doc, x.doc);
    RankedEmbeds(fields, split, at, seg, x.doc, y.doc);
    RankedEmbeds(fields, split, at, seg, y.doc, x.doc);
    RankedEmbeds(fields, split, at, seg, y.doc, z.doc);
    RankedEmbeds(fields, split, at, seg, x.doc, z.doc);
    HitsOrdered(fields, HitOf(fields, split, at, seg, x.doc), HitOf(fields, split, at, seg, y.doc),
                HitOf(fields, split, at, seg, z.doc));
  }

  lemma NextRanked(fields: seq<Field>, c: Option<Cursor>, split: nat, at: nat, seg: Segment, m: nat)
    requires SegmentOk(fields, seg) && m < |seg.docs|
    ensures var r, seen := RankedOf(fields, seg, seg.docs[m]), SegmentRanked(fields, c, split, at, seg, m);
            && r !in seen
            && SegmentRanked(fields, c, split, at, seg, m + 1) ==
                 if Admits(fields, c, HitOf(fields, split, at, seg, seg.docs[m])) then seen + {r} else seen
  {
    var r, seen := RankedOf(fields, seg, seg.docs[m]), SegmentRanked(fields, c, split, at, seg, m);
    forall n | 0 <= n < m
      ensures RankedOf(fields, seg, seg.docs[n]) != r
    {
      assert seg.docs[n] != seg.docs[m];
    }
  }

  /** The collector's test. */
  predicate Passes(fields: seq<Field>, c: Option<Cursor>, seg: Segment, r: Ranked) {
    c.None? || AfterCursor(fields, CursorKeys(seg, c.value), c.value, r)
  }

  /** What collecting one more document does to the set shown to the heap. */
  lemma NextDoc(fields: seq<Field>, c: Option<Cursor>, split: nat, at: nat, seg: Segment, n: nat, seen: set<Ranked>)
    requires SegmentOk(fields, seg) && CursorOk(fields, c) && n < |seg.docs|
    requires seen == SegmentRanked(fields, c, split, at, seg, n)
    ensures var r := RankedOf(fields, seg, seg.docs[n]);
            && r !in seen && (Passes(fields, c, seg, r) ==> Total(RankedOrder(fields), seen + {r}))
            && SegmentRanked(fields, c, split, at, seg, n + 1) == if Passes(fields, c, seg, r) then seen + {r} else seen
  {
    NextRanked(fields, c, split, at, seg, n);
    if c.Some? {
      AfterCursorExact(fields, split, at, seg, c.value, seg.docs[n]);
    }
    RankedTotal(fields, c, split, at, seg, n + 1);
  }

  /** Feed a segment's documents to the bounded heap. */
  method CollectDocs(fields: seq<Field>, c: Option<Cursor>, ghost split: nat, ghost at: nat, seg: Segment, limit: nat)
    returns (top: seq<Ranked>)
    requires SegmentOk(fields, seg) && CursorOk(fields, c) && 0 < limit
    ensures IsTop(RankedOrder(fields), SegmentRanked(fields, c, split, at, seg, |seg.docs|), limit, top)
  {
    var heap := new TopHeap.TopHeap(RankedOrder(fields), limit);
    for n := 0 to |seg.docs|
      invariant heap.Valid() && heap.lt == RankedOrder(fields) && heap.limit == limit && fresh(heap)
      invariant heap.seen == SegmentRanked(fields, c, split, at, seg, n)
    {
      var ranked := RankedOf(fields, seg, seg.docs[n]);
      NextDoc(fields, c, split, at, seg, n, heap.seen);
      if Passes(fields, c, seg, ranked) {
        heap.Collect(ranked);
      }
    }
    RankedTotal(fields, c, split, at, seg, |seg.docs|);
    top := heap.Harvest();
  }

  /** Materialize what was collected. */
  method HarvestAll(fields: seq<Field>, split: nat, at: nat, seg: Segment, top: seq<Ranked>) returns (hits: seq<Hit>)
    requires |seg.columns| == |fields|
    ensures |hits| == |top| && forall i :: 0 <= i < |top| ==> hits[i] == Harvested(fields, split, at, seg, top[i])
  {
    hits := seq(|top|, i requires 0 <= i < |top| => Harvested(fields, split, at, seg, top[i]));
  }

  /** Collect one segment: its first `limit` documents past the cursor, in result order. */
  method CollectSegment(fields: seq<Field>, c: Option<Cursor>, split: nat, at: nat, seg: Segment, limit: nat)
    returns (hits: seq<Hit>)
    requires SegmentOk(fields, seg) && CursorOk(fields, c) && 0 < limit
    ensures IsTop(HitOrder(fields), SegmentHits(fields, c, split, at, seg), limit, hits)
  {
    var top := CollectDocs(fields, c, split, at, seg, limit);
    hits := HarvestAll(fields, split, at, seg, top);
    HarvestTop(fields, c, split, at, seg, limit, top, hits);
  }

  lemma HarvestTop(fields: seq<Field>, c: Option<Cursor>, split: nat, at: nat, seg: Segment, limit: nat,
                   top: seq<Ranked>, hits: seq<Hit>)
    requires SegmentOk(fields, seg)
    requires IsTop(RankedOrder(fields), SegmentRanked(fields, c, split, at, seg, |seg.docs|), limit, top)
    requires |hits| == |top| && forall i :: 0 <= i < |top| ==> hits[i] == Harvested(fields, split, at, seg, top[i])
    ensures IsTop(HitOrder(fields), SegmentHits(fields, c, split, at, seg), limit, hits)
  {
    var s, s' := SegmentRanked(fields, c, split, at, seg, |seg.docs|), SegmentHits(fields, c, split, at, seg);
    var f := Harvester(fields, split, at, seg);
    RankedTotal(fields, c, split, at, seg, |seg.docs|);
    SegmentHitsOk(fields, c, split, at, seg);
    HitOrderTotal(fields, s');
    SegmentEmbeds(fields, c, split, at, seg);
    TopMapped(RankedOrder(fields), s, limit, top, HitOrder(fields), s', f, hits);
  }

  // ---- merging segments, then splits ----

  ghost predicate SegmentsOk(fields: seq<Field>, segs: seq<Segment>) {
    forall at :: 0 <= at < |segs| ==> SegmentOk(fields, segs[at])
  }

  ghost predicate SplitsOk(fields: seq<Field>, splits: seq<seq<Segment>>) {
    forall p :: 0 <= p < |splits| ==> SegmentsOk(fields, splits[p])
  }

  ghost function SegmentParts(fields: seq<Field>, c: Option<Cursor>, split: nat, segs: seq<Segment>): seq<set<Hit>>
    requires SegmentsOk(fields, segs)
  {
    seq(|segs|, at requires 0 <= at < |segs| => SegmentHits(fields, c, split, at, segs[at]))
  }

  ghost function SplitHits(fields: seq<Field>, c: Option<Cursor>, split: nat, segs: seq<Segment>): set<Hit>
    requires SegmentsOk(fields, segs)
  {
    Union(SegmentParts(fields, c, split, segs))
  }

  ghost function SplitParts(fields: seq<Field>, c: Option<Cursor>, splits: seq<seq<Segment>>): seq<set<Hit>>
    requires SplitsOk(fields, splits)
  {
    seq(|splits|, p requires 0 <= p < |splits| => SplitHits(fields, c, p, splits[p]))
  }

  /** Every matching document past the cursor, over all splits and segments. */
  ghost function Universe(fields: seq<Field>, c: Option<Cursor>, splits: seq<seq<Segment>>): set<Hit>
    requires SplitsOk(fields, splits)
  {
    Union(SplitParts(fields, c, splits))
  }

  lemma SplitHitsOk(fields: seq<Field>, c: Option<Cursor>, split: nat, segs: seq<Segment>)
    requires SegmentsOk(fields, segs)
    ensures forall h :: h in SplitHits(fields, c, split, segs) ==> ValuesOk(fields, h.values) && h.split == split
    ensures Disjoint(SegmentParts(fields, c, split, segs))
  {
    var parts := SegmentParts(fields, c, split, segs);
    forall at | 0 <= at < |parts|
      ensures forall h: Hit :: h in parts[at] ==> ValuesOk(fields, h.values) && h.split == split && h.segment == at
    {
      SegmentHitsOk(fields, c, split, at, segs[at]);
    }
  }

  lemma UniverseOk(fields: seq<Field>, c: Option<Cursor>, splits: seq<seq<Segment>>)
    requires SplitsOk(fields, splits)
    ensures forall h :: h in Universe(fields, c, splits) ==> ValuesOk(fields, h.values)
    ensures Disjoint(SplitParts(fields, c, splits))
  {
    var parts := SplitParts(fields, c, splits);
    forall p | 0 <= p < |parts|
      ensures forall h: Hit :: h in parts[p] ==> ValuesOk(fields, h.values) && h.split == p
    {
      SplitHitsOk(fields, c, p, splits[p]);
    }
  }

  method SearchSplit(fields: seq<Field>, c: Option<Cursor>, split: nat, segs: seq<Segment>, limit: nat)
    returns (hits: seq<Hit>)
    requires SegmentsOk(fields, segs) && CursorOk(fields, c) && 0 < limit
    ensures IsTop(HitOrder(fields), SplitHits(fields, c, split, segs), limit, hits)
  {
    var fruits: seq<seq<Hit>> := [];
    for at := 0 to |segs|
      invariant |fruits| == at
      invariant forall i :: 0 <= i < at ==>
                  IsTop(HitOrder(fields), SegmentHits(fields, c, split, i, segs[i]), limit, fruits[i])
    {
      var fruit := CollectSegment(fields, c, split, at, segs[at], limit);
      fruits := fruits + [fruit];
    }
    SplitHitsOk(fields, c, split, segs);
    HitOrderTotal(fields, SplitHits(fields, c, split, segs));
    hits := MergeTops(HitOrder(fields), fruits, limit, SegmentParts(fields, c, split, segs));
  }

  /** A page of a field-sorted search: a slice of the whole sorted result past the cursor. */
  method Search(fields: seq<Field>, c: Option<Cursor>, splits: seq<seq<Segment>>, from: nat, size: nat)
    returns (page: seq<Hit>)
    requires SplitsOk(fields, splits) && CursorOk(fields, c)
    ensures IsPage(HitOrder(fields), Universe(fields, c, splits), from, size, page)
  {
    var limit := if from + size == 0 then 1 else from + size;
    var tops: seq<seq<Hit>> := [];
    for p := 0 to |splits|
      invariant |tops| == p
      invariant forall q :: 0 <= q < p ==> IsTop(HitOrder(fields), SplitHits(fields, c, q, splits[q]), limit, tops[q])
    {
      var top := SearchSplit(fields, c, p, splits[p], limit);
      tops := tops + [top];
    }
    UniverseOk(fields, c, splits);
    HitOrderTotal(fields, Universe(fields, c, splits));
    page := MergePage(HitOrder(fields), tops, limit, SplitParts(fields, c, splits), from, size);
  }

  // ---- paging sessions ----

  lemma SegmentMembers(fields: seq<Field>, c: Option<Cursor>, split: nat, at: nat, seg: Segment, h: Hit)
    requires SegmentOk(fields, seg)
    ensures h in SegmentHits(fields, c, split, at, seg) <==>
            h in SegmentHits(fields, None, split, at, seg) && Admits(fields, c, h)
  {
  }

  lemma SplitMembers(fields: seq<Field>, c: Option<Cursor>, split: nat, segs: seq<Segment>, h: Hit)
    requires SegmentsOk(fields, segs)
    ensures h in SplitHits(fields, c, split, segs) <==>
            h in SplitHits(fields, None, split, segs) && Admits(fields, c, h)
  {
    var parts, all := SegmentParts(fields, c, split, segs), SegmentParts(fields, None, split, segs);
    forall at | 0 <= at < |segs|
      ensures h in parts[at] <==> h in all[at] && Admits(fields, c, h)
    {
      SegmentMembers(fields, c, split, at, segs[at], h);
    }
  }

  lemma UniverseMembers(fields: seq<Field>, c: Option<Cursor>, splits: seq<seq<Segment>>, h: Hit)
    requires SplitsOk(fields, splits)
    ensures h in Universe(fields, c, splits) <==> h in Universe(fields, None, splits) && Admits(fields, c, h)
  {
    var parts, all := SplitParts(fields, c, splits), SplitParts(fields, None, splits);
    forall p | 0 <= p < |splits|
      ensures h in parts[p] <==> h in all[p] && Admits(fields, c, h)
    {
      SplitMembers(fields, c, p, splits[p], h);
    }
  }

  ghost predicate UniqueTiebreaks(s: set<Hit>) {
    forall a, b :: a in s && b in s && a.ts == b.ts && a.stamp == b.stamp ==> a == b
  }

  /** Hits whose reported sort values survive the trip through JSON. */
  ghost predicate Reportable(p: Parsers, fields: seq<Field>, h: Hit) {
    && HitReportOk(p, fields, h.values, h.ts, h.stamp) && NoSentinels(h.values)
    && -MAX_SAFE_MILLIS <= h.ts <= MAX_SAFE_MILLIS && -1 <= h.stamp < I64_MAX
  }

  ghost predicate ResultsOk(p: Parsers, fields: seq<Field>, splits: seq<seq<Segment>>)
    requires SplitsOk(fields, splits)
  {
    && UniqueTiebreaks(Universe(fields, None, splits))
    && forall h :: h in Universe(fields, None, splits) ==> Reportable(p, fields, h)
  }

  /** The cursor a client gets by handing a hit's `sort` array back. */
  function CursorAfter(p: Parsers, fields: seq<Field>, h: Hit): Option<Cursor> {
    ParseCursor(p, fields, HitJson(p, fields, h.values, h.ts, h.stamp))
  }

  lemma ResumeIsAfter(p: Parsers, fields: seq<Field>, splits: seq<seq<Segment>>, h: Hit)
    requires SplitsOk(fields, splits) && ResultsOk(p, fields, splits) && h in Universe(fields, None, splits)
    ensures CursorAfter(p, fields, h).Some? && CursorOk(fields, CursorAfter(p, fields, h))
    ensures Universe(fields, CursorAfter(p, fields, h), splits) ==
            After(HitOrder(fields), Universe(fields, None, splits), h)
  {
    var c, all := CursorAfter(p, fields, h), Universe(fields, None, splits);
    CursorRoundTripIff(p, fields, h.values, h.ts, h.stamp);
    UniverseOk(fields, None, splits);
    forall x
      ensures x in Universe(fields, c, splits) <==> x in After(HitOrder(fields), all, h)
    {
      UniverseMembers(fields, c, splits, x);
      if x in all {
        ListsOrdered(fields, x.values, h.values, h.values);
        assert x.ts == h.ts && x.stamp == h.stamp ==> x == h;
      }
    }
  }

  ghost function PageCursor(p: Parsers, fields: seq<Field>, pages: seq<seq<Hit>>, n: nat): Option<Cursor>
    requires n <= |pages|
  {
    if n == 0 || pages[n - 1] == [] then None else CursorAfter(p, fields, pages[n - 1][|pages[n - 1]| - 1])
  }

  /** Page `n` is what a search from the previous page's last hit returns. */
  ghost predicate Paged(p: Parsers, fields: seq<Field>, splits: seq<seq<Segment>>, k: nat, pages: seq<seq<Hit>>, n: nat)
    requires SplitsOk(fields, splits) && n < |pages|
  {
    IsTop(HitOrder(fields), Universe(fields, PageCursor(p, fields, pages, n), splits), k, pages[n])
  }

  lemma {:induction false} PagedIsSession(p: Parsers, fields: seq<Field>, splits: seq<seq<Segment>>, k: nat,
                                          pages: seq<seq<Hit>>, n: nat)
    requires SplitsOk(fields, splits) && ResultsOk(p, fields, splits) && n < |pages|
    requires forall i :: 0 <= i < |pages| ==> Paged(p, fields, splits, k, pages, i)
    ensures PageOk(HitOrder(fields), Universe(fields, None, splits), k, pages, n)
    ensures forall i :: 0 <= i < |pages[n]| ==> pages[n][i] in Universe(fields, None, splits)
  {
    assert Paged(p, fields, splits, k, pages, n);
    if n > 0 && pages[n - 1] != [] {
      PagedIsSession(p, fields, splits, k, pages, n - 1);
      ResumeIsAfter(p, fields, splits, pages[n - 1][|pages[n - 1]| - 1]);
    }
  }

  /** Following each page's last hit, through its reported JSON values, to a short
      page visits every document exactly once, in order, across all segments and
      splits. */
  lemma PagingVisitsEverything(p: Parsers, fields: seq<Field>, splits: seq<seq<Segment>>, k: nat, pages: seq<seq<Hit>>)
    requires SplitsOk(fields, splits) && ResultsOk(p, fields, splits)
    requires forall n :: 0 <= n < |pages| ==> Paged(p, fields, splits, k, pages, n)
    requires forall n :: 0 <= n < |pages| - 1 ==> pages[n] != []
    requires pages != [] && |pages[|pages| - 1]| < k
    ensures IsTop(HitOrder(fields), Universe(fields, None, splits), |Universe(fields, None, splits)|, Joined(pages))
    ensures Elems(Joined(pages)) == Universe(fields, None, splits)
  {
    forall n | 0 <= n < |pages|
      ensures PageOk(HitOrder(fields), Universe(fields, None, splits), k, pages, n)
    {
      PagedIsSession(p, fields, splits, k, pages, n);
    }
    UniverseOk(fields, None, splits);
    HitOrderTotal(fields, Universe(fields, None, splits));
    SessionComplete(HitOrder(fields), Universe(fields, None, splits), k, pages);
  }

  // ---- said over documents ----

  /** The hit of document `doc` of segment `at` of split `p`, which the query matched. */
  ghost predicate IsHitOf(fields: seq<Field>, splits: seq<seq<Segment>>, h: Hit, p: nat, at: nat, doc: nat)
    requires SplitsOk(fields, splits)
  {
    && p < |splits| && at < |splits[p]| && doc in splits[p][at].docs
    && h.split == p && h.segment == at && h.doc == doc
    && h.ts == splits[p][at].ts[doc] && h.stamp == splits[p][at].stamp[doc]
    && |h.values| == |fields|
    && forall i :: 0 <= i < |fields| ==> SortsBy(fields[i], splits[p][at].columns[i], doc, h.values[i])
  }

  /** The universe of a search is one hit for every matched document the cursor admits,
      each naming its document and carrying what it sorts by. */
  lemma UniverseMeans(fields: seq<Field>, c: Option<Cursor>, splits: seq<seq<Segment>>)
    requires SplitsOk(fields, splits)
    ensures forall h :: h in Universe(fields, c, splits) ==>
              Admits(fields, c, h) && IsHitOf(fields, splits, h, h.split, h.segment, h.doc)
    ensures forall p: nat, at: nat, doc: nat ::
              p < |splits| && at < |splits[p]| && doc in splits[p][at].docs ==>
                exists h :: && IsHitOf(fields, splits, h, p, at, doc)
                            && (Admits(fields, c, h) ==> h in Universe(fields, c, splits))
  {
    forall h | h in Universe(fields, c, splits)
      ensures Admits(fields, c, h) && IsHitOf(fields, splits, h, h.split, h.segment, h.doc)
    {
      var p :| 0 <= p < |splits| && h in SplitParts(fields, c, splits)[p];
      var at :| 0 <= at < |splits[p]| && h in SegmentParts(fields, c, p, splits[p])[at];
      SegmentHitIs(fields, c, splits, p, at, h);
    }
    forall p: nat, at: nat, doc: nat | p < |splits| && at < |splits[p]| && doc in splits[p][at].docs
      ensures exists h :: && IsHitOf(fields, splits, h, p, at, doc)
                          && (Admits(fields, c, h) ==> h in Universe(fields, c, splits))
    {
      DocHasHit(fields, c, splits, p, at, doc);
    }
  }

  lemma HitIs(fields: seq<Field>, splits: seq<seq<Segment>>, p: nat, at: nat, doc: nat)
    requires SplitsOk(fields, splits) && p < |splits| && at < |splits[p]| && doc in splits[p][at].docs
    ensures DocOk(splits[p][at], doc)
    ensures IsHitOf(fields, splits, HitOf(fields, p, at, splits[p][at], doc), p, at, doc)
  {
    var seg := splits[p][at];
    assert SegmentsOk(fields, splits[p]) && SegmentOk(fields, seg);
    HitNames(fields, p, at, seg, doc);
    forall i | 0 <= i < |fields|
      ensures SortsBy(fields[i], seg.columns[i], doc, HitOf(fields, p, at, seg, doc).values[i])
    {
      HitMeans(fields, p, at, seg, doc, i);
    }
  }

  lemma SegmentHitIs(fields: seq<Field>, c: Option<Cursor>, splits: seq<seq<Segment>>, p: nat, at: nat, h: Hit)
    requires SplitsOk(fields, splits) && p < |splits| && at < |splits[p]|
    requires SegmentOk(fields, splits[p][at]) && h in SegmentHits(fields, c, p, at, splits[p][at])
    ensures Admits(fields, c, h) && IsHitOf(fields, splits, h, h.split, h.segment, h.doc)
  {
    var seg := splits[p][at];
    var n :|
      && 0 <= n < |seg.docs| && Admits(fields, c, HitOf(fields, p, at, seg, seg.docs[n]))
      && h == HitOf(fields, p, at, seg, seg.docs[n]);
    HitIs(fields, splits, p, at, seg.docs[n]);
  }

  lemma DocHasHit(fields: seq<Field>, c: Option<Cursor>, splits: seq<seq<Segment>>, p: nat, at: nat, doc: nat)
    requires SplitsOk(fields, splits) && p < |splits| && at < |splits[p]| && doc in splits[p][at].docs
    ensures exists h :: && IsHitOf(fields, splits, h, p, at, doc)
                        && (Admits(fields, c, h) ==> h in Universe(fields, c, splits))
  {
    var seg := splits[p][at];
    assert SegmentsOk(fields, splits[p]) && SegmentOk(fields, seg);
    HitIs(fields, splits, p, at, doc);
    var h := HitOf(fields, p, at, seg, doc);
    var n :| 0 <= n < |seg.docs| && seg.docs[n] == doc;
    if Admits(fields, c, h) {
      assert h in SegmentHits(fields, c, p, at, seg);
      assert h in SegmentParts(fields, c, p, splits[p])[at];
      assert h in SplitParts(fields, c, splits)[p];
    }
  }

  /** Sorting two documents with values 1 and 2 by an ascending or a descending field. */
  method SearchExample(desc: bool) returns (page: seq<Hit>)
    ensures var one, two := Hit([Num(1)], 10, 3, 0, 0, 0), Hit([Num(2)], 10, 4, 0, 0, 1);
            page == if desc then [two, one] else [one, two]
  {
    var fields := [Field(Long, desc, desc, !desc, None)];
    var seg := Segment([NumColumn([[1], [2]])], [10, 10], [3, 4], [0, 1]);
    var splits := [[seg]];
    page := Search(fields, None, splits, 0, 2);
    ghost var one, two := Hit([Num(1)], 10, 3, 0, 0, 0), Hit([Num(2)], 10, 4, 0, 0, 1);
    ExampleHits(desc, fields, seg);
    UniverseOk(fields, None, splits);
    OneSegment(fields, splits, seg);
    ExampleOrder(desc, fields, one, two);
    TwoInOrder(HitOrder(fields), Universe(fields, None, splits), if desc then two else one,
               if desc then one else two, page);
  }

  lemma ExampleOrder(desc: bool, fields: seq<Field>, one: Hit, two: Hit)
    requires fields == [Field(Long, desc, desc, !desc, None)] && one.values == [Num(1)] && two.values == [Num(2)]
    ensures HitBefore(fields, one, two) <==> !desc
    ensures HitBefore(fields, two, one) <==> desc
    ensures !HitBefore(fields, one, one) && !HitBefore(fields, two, two)
  {
    HitsOrdered(fields, one, two, one);
    HitsOrdered(fields, two, one, two);
    assert one.values[..0] == two.values[..0];
    HitOrderMeans(fields, one, two);
    HitOrderMeans(fields, two, one);
  }

  lemma OneSegment(fields: seq<Field>, splits: seq<seq<Segment>>, seg: Segment)
    requires splits == [[seg]] && SegmentOk(fields, seg)
    ensures SplitsOk(fields, splits) && Universe(fields, None, splits) == SegmentHits(fields, None, 0, 0, seg)
  {
    var parts := SegmentParts(fields, None, 0, splits[0]);
    assert parts == [SegmentHits(fields, None, 0, 0, seg)];
    assert SplitParts(fields, None, splits) == [Union(parts)];
    UnionOfOne(SegmentHits(fields, None, 0, 0, seg));
    UnionOfOne(Union(parts));
  }

  lemma ExampleHits(desc: bool, fields: seq<Field>, seg: Segment)
    requires fields == [Field(Long, desc, desc, !desc, None)]
    requires seg == Segment([NumColumn([[1], [2]])], [10, 10], [3, 4], [0, 1])
    ensures SegmentOk(fields, seg)
    ensures SegmentHits(fields, None, 0, 0, seg) ==
            {Hit([Num(1)], 10, 3, 0, 0, 0), Hit([Num(2)], 10, 4, 0, 0, 1)}
  {
    assert HitOf(fields, 0, 0, seg, 0).values == [Num(1)];
    assert HitOf(fields, 0, 0, seg, 1).values == [Num(2)];
    var hits := SegmentHits(fields, None, 0, 0, seg);
    assert HitOf(fields, 0, 0, seg, seg.docs[0]) in hits && HitOf(fields, 0, 0, seg, seg.docs[1]) in hits;
  }

  /** A segment without the column holds its documents all the same, each without a value. */
  lemma NoColumnExample(f: Field, ts: int, stamp: int)
    requires f.substitute.None?
    ensures SegmentOk([f], Segment([NoColumn], [ts], [stamp], [0]))
    ensures HitOf([f], 0, 0, Segment([NoColumn], [ts], [stamp], [0]), 0) == Hit([Missing], ts, stamp, 0, 0, 0)
  {
    var seg := Segment([NoColumn], [ts], [stamp], [0]);
    assert HasDoc(seg.columns[0], 0);
    assert HitOf([f], 0, 0, seg, 0).values == [Missing];
  }
}
