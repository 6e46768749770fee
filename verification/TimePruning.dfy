/** Split pruning by time bounds read off the query: the harvested bounds against
what the translated query matches, and the range bookkeeping of the split builder. */
module TimePruning {
  import opened Prelude

  const TIMESTAMP_ALIASES: set<string> := {"@timestamp", "timestamp", "_timestamp"}

  datatype Json = Lit(text: string) | Arr(items: seq<Json>) | Obj(entries: seq<Entry>)
  datatype Entry = Entry(key: string, val: Json)

  datatype Doc = Doc(ts: int, stamp: int, body: seq<int>)

  /** What the index library decides: time literals under a fixed "now", and
      every leaf query other than a timestamp range. */
  datatype Engine = Engine(
    time: Json -> Option<int>,
    leafOk: (string, Json) -> bool,
    leaf: (string, Json, Doc) -> bool)

  function Get(entries: seq<Entry>, key: string): Option<Json> {
    if entries == [] then None
    else if entries[0].key == key then Some(entries[0].val)
    else Get(entries[1..], key)
  }

  // ---- harvesting bounds ----

  /** An interval of timestamps, either side open. */
  datatype Bounds = Bounds(start: Option<int>, end: Option<int>)

  const OPEN := Bounds(None, None)

  function MaxOpt(a: Option<int>, b: Option<int>): Option<int> {
    if a.None? then b else if b.None? || b.value < a.value then a else b
  }

  function MinOpt(a: Option<int>, b: Option<int>): Option<int> {
    if a.None? then b else if b.None? || a.value < b.value then a else b
  }

  function Meet(a: Bounds, b: Bounds): Bounds {
    Bounds(MaxOpt(a.start, b.start), MinOpt(a.end, b.end))
  }

  predicate Within(b: Bounds, ts: int) {
    (b.start.Some? ==> b.start.value <= ts) && (b.end.Some? ==> ts <= b.end.value)
  }

  lemma MeetWithin(a: Bounds, b: Bounds, ts: int)
    ensures Within(Meet(a, b), ts) <==> Within(a, ts) && Within(b, ts)
  {
  }

  function OpBounds(e: Engine, op: Entry): Bounds {
    var ms := e.time(op.val);
    if ms.None? then OPEN
    else if op.key == "gte" || op.key == "gt" then Bounds(ms, None)
    else if op.key == "lte" || op.key == "lt" then Bounds(None, ms)
    else OPEN
  }

  function OpsBounds(e: Engine, ops: seq<Entry>): Bounds {
    if ops == [] then OPEN else Meet(OpsBounds(e, ops[..|ops| - 1]), OpBounds(e, ops[|ops| - 1]))
  }

  function FieldBounds(e: Engine, f: Entry): Bounds {
    if f.key in TIMESTAMP_ALIASES && f.val.Obj? then OpsBounds(e, f.val.entries) else OPEN
  }

  function FieldsBounds(e: Engine, fields: seq<Entry>): Bounds {
    if fields == [] then OPEN else Meet(FieldsBounds(e, fields[..|fields| - 1]), FieldBounds(e, fields[|fields| - 1]))
  }

  /** The bounds a node's own `range` key contributes. */
  function RangeBounds(e: Engine, entries: seq<Entry>): Bounds {
    var range := Get(entries, "range");
    if range.Some? && range.value.Obj? then FieldsBounds(e, range.value.entries) else OPEN
  }

  lemma {:induction false} GetSmaller(entries: seq<Entry>, key: string)
    requires Get(entries, key).Some?
    ensures exists i :: 0 <= i < |entries| && entries[i].key == key && entries[i].val == Get(entries, key).value
  {
    if entries[0].key != key {
      GetSmaller(entries[1..], key);
      var i :| 0 <= i < |entries[1..]| && entries[1..][i].key == key && entries[1..][i].val == Get(entries, key).value;
      assert entries[i + 1] == entries[1..][i];
    }
  }

  /** The meet of everything a node asks for in conjunctive context. */
  function Harvest(e: Engine, node: Json): Bounds
    decreases node, 0
  {
    match node
    case Lit(_) => OPEN
    case Arr(items) => HarvestItems(e, items)
    case Obj(entries) =>
      Meet(RangeBounds(e, entries), HarvestInner(e, entries))
  }

  /** A `bool` body contributes its conjunctive sections; any other object, all its values. */
  function HarvestInner(e: Engine, entries: seq<Entry>): Bounds
    decreases entries, 1
  {
    var body := Get(entries, "bool");
    if body.Some? && body.value.Obj? then
      GetSmaller(entries, "bool");
      Meet(HarvestSection(e, body.value.entries, "must"), HarvestSection(e, body.value.entries, "filter"))
    else HarvestValues(e, entries)
  }

  function HarvestSection(e: Engine, entries: seq<Entry>, section: string): Bounds
    decreases entries, 0
  {
    var clause := Get(entries, section);
    if clause.None? then OPEN
    else
      GetSmaller(entries, section);
      Harvest(e, clause.value)
  }

  function HarvestItems(e: Engine, items: seq<Json>): Bounds
    decreases items, 0
  {
    if items == [] then OPEN else Meet(HarvestItems(e, items[..|items| - 1]), Harvest(e, items[|items| - 1]))
  }

  function HarvestValues(e: Engine, entries: seq<Entry>): Bounds
    decreases entries, 0
  {
    if entries == [] then OPEN
    else Meet(HarvestValues(e, entries[..|entries| - 1]), Harvest(e, entries[|entries| - 1].val))
  }

  lemma MeetAssoc(a: Bounds, b: Bounds, c: Bounds)
    ensures Meet(Meet(a, b), c) == Meet(a, Meet(b, c))
  {
  }

  /** Scan one operator. */
  method ScanOp(e: Engine, op: Entry, start: Option<int>, end: Option<int>)
    returns (s: Option<int>, t: Option<int>)
    ensures Bounds(s, t) == Meet(Bounds(start, end), OpBounds(e, op))
  {
    s, t := start, end;
    var ms := e.time(op.val);
    if ms.Some? {
      if op.key == "gte" || op.key == "gt" {
        s := if s.None? || s.value < ms.value then ms else s;
      } else if op.key == "lte" || op.key == "lt" {
        t := if t.None? || ms.value < t.value then ms else t;
      }
    }
  }

  /** Scan a timestamp field's operators. */
  method ScanOps(e: Engine, ops: seq<Entry>, start: Option<int>, end: Option<int>)
    returns (s: Option<int>, t: Option<int>)
    ensures Bounds(s, t) == Meet(Bounds(start, end), OpsBounds(e, ops))
  {
    s, t := start, end;
    for i := 0 to |ops|
      invariant Bounds(s, t) == Meet(Bounds(start, end), OpsBounds(e, ops[..i]))
    {
      s, t := ScanOp(e, ops[i], s, t);
      assert ops[..i + 1][..i] == ops[..i];
      MeetAssoc(Bounds(start, end), OpsBounds(e, ops[..i]), OpBounds(e, ops[i]));
    }
    assert ops[..|ops|] == ops;
  }

  /** Scan a `range` body for timestamp fields. */
  method ScanRange(e: Engine, fields: seq<Entry>, start: Option<int>, end: Option<int>)
    returns (s: Option<int>, t: Option<int>)
    ensures Bounds(s, t) == Meet(Bounds(start, end), FieldsBounds(e, fields))
  {
    s, t := start, end;
    for i := 0 to |fields|
      invariant Bounds(s, t) == Meet(Bounds(start, end), FieldsBounds(e, fields[..i]))
    {
      if fields[i].key in TIMESTAMP_ALIASES && fields[i].val.Obj? {
        s, t := ScanOps(e, fields[i].val.entries, s, t);
      }
      assert fields[..i + 1][..i] == fields[..i];
      MeetAssoc(Bounds(start, end), FieldsBounds(e, fields[..i]), FieldBounds(e, fields[i]));
    }
    assert fields[..|fields|] == fields;
  }

  /** The scan tightens the running bounds to exactly what the tree asks for. */
  method ScanTimeBounds(e: Engine, node: Json, start: Option<int>, end: Option<int>)
    returns (s: Option<int>, t: Option<int>)
    ensures Bounds(s, t) == Meet(Bounds(start, end), Harvest(e, node))
    decreases node, 1
  {
    match node
    case Lit(_) =>
      return start, end;
    case Arr(items) =>
      s, t := ScanItems(e, items, start, end);
    case Obj(entries) =>
      s, t := start, end;
      var range := Get(entries, "range");
      if range.Some? && range.value.Obj? {
        s, t := ScanRange(e, range.value.entries, s, t);
      }
      MeetAssoc(Bounds(start, end), RangeBounds(e, entries), HarvestInner(e, entries));
      var body := Get(entries, "bool");
      if body.Some? && body.value.Obj? {
        GetSmaller(entries, "bool");
        s, t := ScanBool(e, body.value.entries, s, t);
      } else {
        s, t := ScanValues(e, entries, s, t);
      }
  }

  method ScanItems(e: Engine, items: seq<Json>, start: Option<int>, end: Option<int>)
    returns (s: Option<int>, t: Option<int>)
    ensures Bounds(s, t) == Meet(Bounds(start, end), HarvestItems(e, items))
    decreases items, 0
  {
    s, t := start, end;
    for i := 0 to |items|
      invariant Bounds(s, t) == Meet(Bounds(start, end), HarvestItems(e, items[..i]))
    {
      s, t := ScanTimeBounds(e, items[i], s, t);
      assert items[..i + 1][..i] == items[..i];
      MeetAssoc(Bounds(start, end), HarvestItems(e, items[..i]), Harvest(e, items[i]));
    }
    assert items[..|items|] == items;
  }

  method ScanValues(e: Engine, entries: seq<Entry>, start: Option<int>, end: Option<int>)
    returns (s: Option<int>, t: Option<int>)
    ensures Bounds(s, t) == Meet(Bounds(start, end), HarvestValues(e, entries))
    decreases entries, 0
  {
    s, t := start, end;
    for i := 0 to |entries|
      invariant Bounds(s, t) == Meet(Bounds(start, end), HarvestValues(e, entries[..i]))
    {
      s, t := ScanTimeBounds(e, entries[i].val, s, t);
      assert entries[..i + 1][..i] == entries[..i];
      MeetAssoc(Bounds(start, end), HarvestValues(e, entries[..i]), Harvest(e, entries[i].val));
    }
    assert entries[..|entries|] == entries;
  }

  /** Only the conjunctive sections; `should` and `must_not` are skipped. */
  method ScanBool(e: Engine, entries: seq<Entry>, start: Option<int>, end: Option<int>)
    returns (s: Option<int>, t: Option<int>)
    ensures Bounds(s, t) ==
            Meet(Bounds(start, end), Meet(HarvestSection(e, entries, "must"), HarvestSection(e, entries, "filter")))
    decreases entries, 1
  {
    s, t := ScanSection(e, entries, "must", start, end);
    s, t := ScanSection(e, entries, "filter", s, t);
    MeetAssoc(Bounds(start, end), HarvestSection(e, entries, "must"), HarvestSection(e, entries, "filter"));
  }

  method ScanSection(e: Engine, entries: seq<Entry>, section: string, start: Option<int>, end: Option<int>)
    returns (s: Option<int>, t: Option<int>)
    ensures Bounds(s, t) == Meet(Bounds(start, end), HarvestSection(e, entries, section))
    decreases entries, 0
  {
    s, t := start, end;
    var clause := Get(entries, section);
    if clause.Some? {
      GetSmaller(entries, section);
      s, t := ScanTimeBounds(e, clause.value, s, t);
    }
  }

  // ---- what is harvested ----

  predicate OnSide(op: Entry, lower: bool) {
    if lower then op.key == "gte" || op.key == "gt" else op.key == "lte" || op.key == "lt"
  }

  /** Some operator of the side gives the time `ms`. */
  ghost predicate OpsAsk(e: Engine, ops: seq<Entry>, lower: bool, ms: int) {
    exists i :: 0 <= i < |ops| && OnSide(ops[i], lower) && e.time(ops[i].val) == Some(ms)
  }

  /** Some timestamp field of a range body does. */
  ghost predicate FieldsAsk(e: Engine, fields: seq<Entry>, lower: bool, ms: int) {
    exists i :: && 0 <= i < |fields| && fields[i].key in TIMESTAMP_ALIASES && fields[i].val.Obj?
                && OpsAsk(e, fields[i].val.entries, lower, ms)
  }

  ghost predicate RangeAsks(e: Engine, entries: seq<Entry>, lower: bool, ms: int) {
    var range := Get(entries, "range");
    range.Some? && range.value.Obj? && FieldsAsk(e, range.value.entries, lower, ms)
  }

  /** A range in the tree asks for timestamps from, or up to, `ms`, in conjunctive context:
      of a `bool` only `must` and `filter` count. */
  ghost predicate Asks(e: Engine, node: Json, lower: bool, ms: int)
    decreases node, 1
  {
    match node
    case Lit(_) => false
    case Arr(items) => ItemsAsk(e, items, lower, ms)
    case Obj(entries) =>
      var body := Get(entries, "bool");
      || RangeAsks(e, entries, lower, ms)
      || if body.Some? && body.value.Obj? then
           GetSmaller(entries, "bool");
           || SectionAsks(e, body.value.entries, "must", lower, ms)
           || SectionAsks(e, body.value.entries, "filter", lower, ms)
         else ValuesAsk(e, entries, lower, ms)
  }

  ghost predicate ItemsAsk(e: Engine, items: seq<Json>, lower: bool, ms: int)
    decreases items, 0
  {
    exists i :: 0 <= i < |items| && Asks(e, items[i], lower, ms)
  }

  ghost predicate ValuesAsk(e: Engine, entries: seq<Entry>, lower: bool, ms: int)
    decreases entries, 0
  {
    exists i :: 0 <= i < |entries| && Asks(e, entries[i].val, lower, ms)
  }

  ghost predicate SectionAsks(e: Engine, entries: seq<Entry>, section: string, lower: bool, ms: int)
    decreases entries, 0
  {
    var clause := Get(entries, section);
    clause.Some? && (GetSmaller(entries, section); Asks(e, clause.value, lower, ms))
  }

  /** The bounds are the latest start and the earliest end asked for, open where none is. */
  ghost predicate Tightest(b: Bounds, asks: (bool, int) -> bool) {
    && (forall ms :: asks(true, ms) ==> b.start.Some? && ms <= b.start.value)
    && (forall ms :: asks(false, ms) ==> b.end.Some? && b.end.value <= ms)
    && (b.start.Some? ==> asks(true, b.start.value)) && (b.end.Some? ==> asks(false, b.end.value))
  }

  lemma MeetTightest(a: Bounds, b: Bounds, p: (bool, int) -> bool, q: (bool, int) -> bool, r: (bool, int) -> bool)
    requires Tightest(a, p) && Tightest(b, q)
    requires forall lower, ms :: r(lower, ms) <==> p(lower, ms) || q(lower, ms)
    ensures Tightest(Meet(a, b), r)
  {
  }

  lemma SameTightest(b: Bounds, p: (bool, int) -> bool, q: (bool, int) -> bool)
    requires Tightest(b, p) && forall lower, ms :: p(lower, ms) <==> q(lower, ms)
    ensures Tightest(b, q)
  {
  }

  lemma NoneTightest(asks: (bool, int) -> bool)
    requires forall lower, ms :: !asks(lower, ms)
    ensures Tightest(OPEN, asks)
  {
  }

  lemma {:induction false} OpsTightest(e: Engine, ops: seq<Entry>)
    ensures Tightest(OpsBounds(e, ops), (lower, ms) => OpsAsk(e, ops, lower, ms))
  {
    if ops != [] {
      var n := |ops| - 1;
      OpsTightest(e, ops[..n]);
      MeetTightest(OpsBounds(e, ops[..n]), OpBounds(e, ops[n]), (lower, ms) => OpsAsk(e, ops[..n], lower, ms),
                   (lower, ms) => OnSide(ops[n], lower) && e.time(ops[n].val) == Some(ms),
                   (lower, ms) => OpsAsk(e, ops, lower, ms));
    }
  }

  lemma {:induction false} FieldsTightest(e: Engine, fields: seq<Entry>)
    ensures Tightest(FieldsBounds(e, fields), (lower, ms) => FieldsAsk(e, fields, lower, ms))
  {
    if fields != [] {
      var n := |fields| - 1;
      var f := fields[n];
      FieldsTightest(e, fields[..n]);
      var own := (lower, ms) => f.key in TIMESTAMP_ALIASES && f.val.Obj? && OpsAsk(e, f.val.entries, lower, ms);
      if f.key in TIMESTAMP_ALIASES && f.val.Obj? {
        OpsTightest(e, f.val.entries);
        SameTightest(FieldBounds(e, f), (lower, ms) => OpsAsk(e, f.val.entries, lower, ms), own);
      } else {
        NoneTightest(own);
      }
      MeetTightest(FieldsBounds(e, fields[..n]), FieldBounds(e, f), (lower, ms) => FieldsAsk(e, fields[..n], lower, ms),
                   own, (lower, ms) => FieldsAsk(e, fields, lower, ms));
    }
  }

  lemma RangeTightest(e: Engine, entries: seq<Entry>)
    ensures Tightest(RangeBounds(e, entries), (lower, ms) => RangeAsks(e, entries, lower, ms))
  {
    var range := Get(entries, "range");
    if range.Some? && range.value.Obj? {
      FieldsTightest(e, range.value.entries);
      SameTightest(RangeBounds(e, entries), (lower, ms) => FieldsAsk(e, range.value.entries, lower, ms),
                   (lower, ms) => RangeAsks(e, entries, lower, ms));
    }
  }

  lemma {:induction false} ItemsTightest(e: Engine, items: seq<Json>)
    ensures Tightest(HarvestItems(e, items), (lower, ms) => ItemsAsk(e, items, lower, ms))
    decreases items, 0
  {
    if items != [] {
      var n := |items| - 1;
      ItemsTightest(e, items[..n]);
      HarvestTightest(e, items[n]);
      MeetTightest(HarvestItems(e, items[..n]), Harvest(e, items[n]), (lower, ms) => ItemsAsk(e, items[..n], lower, ms),
                   (lower, ms) => Asks(e, items[n], lower, ms), (lower, ms) => ItemsAsk(e, items, lower, ms));
    }
  }

  lemma {:induction false} ValuesTightest(e: Engine, entries: seq<Entry>)
    ensures Tightest(HarvestValues(e, entries), (lower, ms) => ValuesAsk(e, entries, lower, ms))
    decreases entries, 0
  {
    if entries != [] {
      var n := |entries| - 1;
      ValuesTightest(e, entries[..n]);
      HarvestTightest(e, entries[n].val);
      MeetTightest(HarvestValues(e, entries[..n]), Harvest(e, entries[n].val),
                   (lower, ms) => ValuesAsk(e, entries[..n], lower, ms),
                   (lower, ms) => Asks(e, entries[n].val, lower, ms), (lower, ms) => ValuesAsk(e, entries, lower, ms));
    }
  }

  lemma {:induction false} SectionTightest(e: Engine, entries: seq<Entry>, section: string)
    ensures Tightest(HarvestSection(e, entries, section), (lower, ms) => SectionAsks(e, entries, section, lower, ms))
    decreases entries, 0
  {
    var clause := Get(entries, section);
    if clause.Some? {
      GetSmaller(entries, section);
      HarvestTightest(e, clause.value);
      SameTightest(HarvestSection(e, entries, section), (lower, ms) => Asks(e, clause.value, lower, ms),
                   (lower, ms) => SectionAsks(e, entries, section, lower, ms));
    }
  }

  /** What is harvested from a tree is the latest start and the earliest end that a range
      in conjunctive context asks for, and nothing else. */
  lemma {:induction false} HarvestTightest(e: Engine, node: Json)
    ensures Tightest(Harvest(e, node), (lower, ms) => Asks(e, node, lower, ms))
    decreases node, 1
  {
    match node
    case Lit(_) =>
    case Arr(items) =>
      ItemsTightest(e, items);
      SameTightest(Harvest(e, node), (lower, ms) => ItemsAsk(e, items, lower, ms),
                   (lower, ms) => Asks(e, node, lower, ms));
    case Obj(entries) =>
      var body := Get(entries, "bool");
      var own, all := (lower, ms) => RangeAsks(e, entries, lower, ms), (lower, ms) => Asks(e, node, lower, ms);
      RangeTightest(e, entries);
      if body.Some? && body.value.Obj? {
        GetSmaller(entries, "bool");
        var must := (lower, ms) => SectionAsks(e, body.value.entries, "must", lower, ms);
        var filter := (lower, ms) => SectionAsks(e, body.value.entries, "filter", lower, ms);
        var both := (lower, ms) => must(lower, ms) || filter(lower, ms);
        SectionTightest(e, body.value.entries, "must");
        SectionTightest(e, body.value.entries, "filter");
        MeetTightest(HarvestSection(e, body.value.entries, "must"), HarvestSection(e, body.value.entries, "filter"),
                     must, filter, both);
        MeetTightest(RangeBounds(e, entries), HarvestInner(e, entries), own, both, all);
      } else {
        ValuesTightest(e, entries);
        MeetTightest(RangeBounds(e, entries), HarvestInner(e, entries), own,
                     (lower, ms) => ValuesAsk(e, entries, lower, ms), all);
      }
  }

  // ---- the translated query ----

  datatype Limit = Unbounded | Included(ms: int) | Excluded(ms: int)

  datatype Query =
    | All
    | Bool(must: seq<Query>, should: seq<Query>, mustNot: seq<Query>)
    | TimeRange(lower: Limit, upper: Limit)
    | Leaf(kind: string, body: Json)

  /** Later operators of a side replace earlier ones. */
  function TranslateOps(e: Engine, ops: seq<Entry>): Option<(Limit, Limit)> {
    if ops == [] then Some((Unbounded, Unbounded))
    else
      var before, op := TranslateOps(e, ops[..|ops| - 1]), ops[|ops| - 1];
      if before.None? then None
      else if op.key in {"boost", "format", "time_zone"} then before
      else
        var ms := e.time(op.val);
        if ms.None? then None
        else if op.key == "gte" then Some((Included(ms.value), before.value.1))
        else if op.key == "gt" then Some((Excluded(ms.value), before.value.1))
        else if op.key == "lte" then Some((before.value.0, Included(ms.value)))
        else if op.key == "lt" then Some((before.value.0, Excluded(ms.value)))
        else None
  }

  /** Only the first field of a range body is translated. */
  function TranslateRange(e: Engine, body: Json): Option<Query> {
    if !body.Obj? || body.entries == [] || !body.entries[0].val.Obj? then None
    else if body.entries[0].key in TIMESTAMP_ALIASES then
      var limits := TranslateOps(e, body.entries[0].val.entries);
      if limits.None? then None else Some(TimeRange(limits.value.0, limits.value.1))
    else if e.leafOk("range", body) then Some(Leaf("range", body))
    else None
  }

  function Translate(e: Engine, node: Json): Option<Query> {
    if !node.Obj? || |node.entries| != 1 then None
    else
      var kind, body := node.entries[0].key, node.entries[0].val;
      if kind == "match_all" then Some(All)
      else if kind == "bool" then (if body.Obj? then TranslateBool(e, body.entries) else None)
      else if kind == "range" then TranslateRange(e, body)
      else if e.leafOk(kind, body) then Some(Leaf(kind, body))
      else None
  }

  function TranslateBool(e: Engine, entries: seq<Entry>): Option<Query> {
    var must, filter := TranslateSection(e, entries, "must"), TranslateSection(e, entries, "filter");
    var should, mustNot := TranslateSection(e, entries, "should"), TranslateSection(e, entries, "must_not");
    if must.None? || filter.None? || should.None? || mustNot.None? then None
    else
      var both := must.value + filter.value;
      if both == [] && should.value == [] then
        (if mustNot.value == [] then Some(All) else Some(Bool([All], [], mustNot.value)))
      else Some(Bool(both, should.value, mustNot.value))
  }

  function TranslateSection(e: Engine, entries: seq<Entry>, section: string): Option<seq<Query>> {
    var clause := Get(entries, section);
    if clause.None? then Some([])
    else
      GetSmaller(entries, section);
      if clause.value.Arr? then TranslateItems(e, clause.value.items)
      else
        var q := Translate(e, clause.value);
        if q.None? then None else Some([q.value])
  }

  function TranslateItems(e: Engine, items: seq<Json>): Option<seq<Query>> {
    if items == [] then Some([])
    else
      var before, q := TranslateItems(e, items[..|items| - 1]), Translate(e, items[|items| - 1]);
      if before.None? || q.None? then None else Some(before.value + [q.value])
  }

  predicate Above(lower: Limit, ts: int) {
    match lower
    case Unbounded => true
    case Included(ms) => ms <= ts
    case Excluded(ms) => ms < ts
  }

  predicate Below(upper: Limit, ts: int) {
    match upper
    case Unbounded => true
    case Included(ms) => ts <= ms
    case Excluded(ms) => ts < ms
  }

  /** What a query matches: all `must`, no `must_not`, and one `should` when nothing is required. */
  predicate Matches(e: Engine, q: Query, d: Doc) {
    match q
    case All => true
    case Bool(must, should, mustNot) =>
      && (forall i :: 0 <= i < |must| ==> Matches(e, must[i], d))
      && (forall i :: 0 <= i < |mustNot| ==> !Matches(e, mustNot[i], d))
      && (must != [] || exists i :: 0 <= i < |should| && Matches(e, should[i], d))
    case TimeRange(lower, upper) => Above(lower, d.ts) && Below(upper, d.ts)
    case Leaf(kind, body) => e.leaf(kind, body, d)
  }

  // ---- what a query tree asks for ----

  predicate IsLower(op: Entry) {
    op.key == "gte" || op.key == "gt"
  }

  predicate IsUpper(op: Entry) {
    op.key == "lte" || op.key == "lt"
  }

  ghost predicate LastLower(ops: seq<Entry>, i: nat) {
    i < |ops| && IsLower(ops[i]) && forall j :: i < j < |ops| ==> !IsLower(ops[j])
  }

  ghost predicate LastUpper(ops: seq<Entry>, i: nat) {
    i < |ops| && IsUpper(ops[i]) && forall j :: i < j < |ops| ==> !IsUpper(ops[j])
  }

  /** Of the operators of a side the last one given counts. */
  ghost predicate OpsAdmit(e: Engine, ops: seq<Entry>, ts: int) {
    && (forall i: nat, ms :: LastLower(ops, i) && e.time(ops[i].val) == Some(ms) ==>
          if ops[i].key == "gte" then ms <= ts else ms < ts)
    && (forall i: nat, ms :: LastUpper(ops, i) && e.time(ops[i].val) == Some(ms) ==>
          if ops[i].key == "lte" then ts <= ms else ts < ms)
  }

  /** Every operator is one of the four, with a readable time, or one that is ignored. */
  ghost predicate OpsReadable(e: Engine, ops: seq<Entry>) {
    forall i :: 0 <= i < |ops| ==>
      || ops[i].key in {"boost", "format", "time_zone"}
      || (e.time(ops[i].val).Some? && (IsLower(ops[i]) || IsUpper(ops[i])))
  }

  /** A section's clauses: an array's items, or the one clause there is. */
  function Clauses(entries: seq<Entry>, section: string): seq<Json> {
    match Get(entries, section)
    case None => []
    case Some(Arr(items)) => items
    case Some(clause) => [clause]
  }

  /** The trees that are understood. */
  ghost predicate Accepted(e: Engine, node: Json)
    decreases node, 1
  {
    && node.Obj? && |node.entries| == 1
    && var kind, body := node.entries[0].key, node.entries[0].val;
       if kind == "match_all" then true
       else if kind == "bool" then
         && body.Obj?
         && AcceptedSection(e, body.entries, "must") && AcceptedSection(e, body.entries, "filter")
         && AcceptedSection(e, body.entries, "should") && AcceptedSection(e, body.entries, "must_not")
       else if kind == "range" then
         && body.Obj? && body.entries != [] && body.entries[0].val.Obj?
         && (if body.entries[0].key in TIMESTAMP_ALIASES then OpsReadable(e, body.entries[0].val.entries)
             else e.leafOk("range", body))
       else e.leafOk(kind, body)
  }

  ghost predicate AcceptedSection(e: Engine, entries: seq<Entry>, section: string)
    decreases entries, 0
  {
    forall i :: 0 <= i < |Clauses(entries, section)| ==>
      (GetSmaller(entries, section); Accepted(e, Clauses(entries, section)[i]))
  }

  /** What an understood tree asks of a document: every `must` and `filter` clause, no
      `must_not` clause, and, if it has no `must` or `filter`, one `should` clause of
      those it has. */
  ghost predicate Satisfies(e: Engine, node: Json, d: Doc)
    decreases node, 1
  {
    && node.Obj? && |node.entries| == 1
    && var kind, body := node.entries[0].key, node.entries[0].val;
       if kind == "match_all" then true
       else if kind == "bool" then
         && body.Obj?
         && EachHolds(e, body.entries, "must", d) && EachHolds(e, body.entries, "filter", d)
         && !SomeHolds(e, body.entries, "must_not", d)
         && (Clauses(body.entries, "must") + Clauses(body.entries, "filter") == [] ==>
               Clauses(body.entries, "should") == [] || SomeHolds(e, body.entries, "should", d))
       else if kind == "range" && body.Obj? && body.entries != [] && body.entries[0].val.Obj?
               && body.entries[0].key in TIMESTAMP_ALIASES then
         OpsAdmit(e, body.entries[0].val.entries, d.ts)
       else e.leaf(kind, body, d)
  }

  ghost predicate EachHolds(e: Engine, entries: seq<Entry>, section: string, d: Doc)
    decreases entries, 0
  {
    forall i :: 0 <= i < |Clauses(entries, section)| ==>
      (GetSmaller(entries, section); Satisfies(e, Clauses(entries, section)[i], d))
  }

  ghost predicate SomeHolds(e: Engine, entries: seq<Entry>, section: string, d: Doc)
    decreases entries, 0
  {
    exists i :: 0 <= i < |Clauses(entries, section)| &&
      (GetSmaller(entries, section); Satisfies(e, Clauses(entries, section)[i], d))
  }

  // ---- translation preserves it ----

  lemma {:induction false} OpsReadableIff(e: Engine, ops: seq<Entry>)
    ensures TranslateOps(e, ops).Some? <==> OpsReadable(e, ops)
  {
    if ops != [] {
      var n := |ops| - 1;
      OpsReadableIff(e, ops[..n]);
      assert forall i :: 0 <= i < n ==> ops[..n][i] == ops[i];
    }
  }

  lemma {:induction false} OpsLower(e: Engine, ops: seq<Entry>)
    requires TranslateOps(e, ops).Some?
    ensures forall i: nat :: LastLower(ops, i) ==>
              var ms := e.time(ops[i].val);
              && ms.Some?
              && TranslateOps(e, ops).value.0 == if ops[i].key == "gte" then Included(ms.value) else Excluded(ms.value)
    ensures TranslateOps(e, ops).value.0 == Unbounded || exists i: nat :: LastLower(ops, i)
  {
    if ops != [] {
      var n := |ops| - 1;
      OpsLower(e, ops[..n]);
      if IsLower(ops[n]) {
        assert LastLower(ops, n);
      } else {
        assert forall i: nat :: LastLower(ops[..n], i) <==> LastLower(ops, i);
      }
    }
  }

  lemma {:induction false} OpsUpper(e: Engine, ops: seq<Entry>)
    requires TranslateOps(e, ops).Some?
    ensures forall i: nat :: LastUpper(ops, i) ==>
              var ms := e.time(ops[i].val);
              && ms.Some?
              && TranslateOps(e, ops).value.1 == if ops[i].key == "lte" then Included(ms.value) else Excluded(ms.value)
    ensures TranslateOps(e, ops).value.1 == Unbounded || exists i: nat :: LastUpper(ops, i)
  {
    if ops != [] {
      var n := |ops| - 1;
      OpsUpper(e, ops[..n]);
      if IsUpper(ops[n]) {
        assert LastUpper(ops, n);
      } else {
        assert forall i: nat :: LastUpper(ops[..n], i) <==> LastUpper(ops, i);
      }
    }
  }

  lemma OpsMean(e: Engine, ops: seq<Entry>, ts: int)
    requires TranslateOps(e, ops).Some?
    ensures Above(TranslateOps(e, ops).value.0, ts) && Below(TranslateOps(e, ops).value.1, ts) <==> OpsAdmit(e, ops, ts)
  {
    OpsLower(e, ops);
    OpsUpper(e, ops);
  }

  /** Clause by clause, the translated queries are the clauses. */
  ghost predicate Renders(e: Engine, qs: seq<Query>, clauses: seq<Json>, d: Doc) {
    && |qs| == |clauses|
    && forall i :: 0 <= i < |qs| ==> (Matches(e, qs[i], d) <==> Satisfies(e, clauses[i], d))
  }

  lemma {:induction false} ItemsMean(e: Engine, items: seq<Json>, d: Doc)
    ensures TranslateItems(e, items).Some? <==> forall i :: 0 <= i < |items| ==> Accepted(e, items[i])
    ensures TranslateItems(e, items).Some? ==> Renders(e, TranslateItems(e, items).value, items, d)
    decreases items, 0
  {
    if items != [] {
      var n := |items| - 1;
      ItemsMean(e, items[..n], d);
      TranslateMeans(e, items[n], d);
      assert forall i :: 0 <= i < n ==> items[..n][i] == items[i];
    }
  }

  lemma {:induction false} SectionMeans(e: Engine, entries: seq<Entry>, section: string, d: Doc)
    ensures TranslateSection(e, entries, section).Some? <==> AcceptedSection(e, entries, section)
    ensures TranslateSection(e, entries, section).Some? ==>
              Renders(e, TranslateSection(e, entries, section).value, Clauses(entries, section), d)
    decreases entries, 0
  {
    var clause := Get(entries, section);
    if clause.Some? {
      GetSmaller(entries, section);
      if clause.value.Arr? {
        ItemsMean(e, clause.value.items, d);
        assert Clauses(entries, section) == clause.value.items;
        assert AcceptedSection(e, entries, section) <==>
               forall i :: 0 <= i < |clause.value.items| ==> Accepted(e, clause.value.items[i]);
      } else {
        TranslateMeans(e, clause.value, d);
        assert Clauses(entries, section) == [clause.value];
        assert AcceptedSection(e, entries, section) <==> Accepted(e, Clauses(entries, section)[0]);
      }
    }
  }

  lemma {:induction false} BoolMeans(e: Engine, entries: seq<Entry>, d: Doc)
    ensures TranslateBool(e, entries).Some? <==>
            && AcceptedSection(e, entries, "must") && AcceptedSection(e, entries, "filter")
            && AcceptedSection(e, entries, "should") && AcceptedSection(e, entries, "must_not")
    ensures TranslateBool(e, entries).Some? ==>
              (Matches(e, TranslateBool(e, entries).value, d) <==>
                 && EachHolds(e, entries, "must", d) && EachHolds(e, entries, "filter", d)
                 && !SomeHolds(e, entries, "must_not", d)
                 && (Clauses(entries, "must") + Clauses(entries, "filter") == [] ==>
                       Clauses(entries, "should") == [] || SomeHolds(e, entries, "should", d)))
    decreases entries, 1
  {
    SectionMeans(e, entries, "must", d);
    SectionMeans(e, entries, "filter", d);
    SectionMeans(e, entries, "should", d);
    SectionMeans(e, entries, "must_not", d);
    if TranslateBool(e, entries).Some? {
      BoolMatches(e, entries, d);
    }
  }

  /** A tree is translated exactly if it is understood, and the translation matches
      exactly the documents that satisfy the tree. */
  lemma {:induction false} TranslateMeans(e: Engine, node: Json, d: Doc)
    ensures Translate(e, node).Some? <==> Accepted(e, node)
    ensures Translate(e, node).Some? ==> (Matches(e, Translate(e, node).value, d) <==> Satisfies(e, node, d))
    decreases node, 1
  {
    if node.Obj? && |node.entries| == 1 {
      var kind, body := node.entries[0].key, node.entries[0].val;
      if kind == "bool" && body.Obj? {
        BoolMeans(e, body.entries, d);
      } else if kind == "range" && body.Obj? && body.entries != [] && body.entries[0].val.Obj? {
        OpsReadableIff(e, body.entries[0].val.entries);
        if TranslateOps(e, body.entries[0].val.entries).Some? {
          OpsMean(e, body.entries[0].val.entries, d.ts);
        }
      }
    }
  }

  // ---- which trees are pruned soundly ----

  /** No object inside uses the keys the scan looks for. */
  predicate Plain(node: Json) {
    match node
    case Lit(_) => true
    case Arr(items) => forall i :: 0 <= i < |items| ==> Plain(items[i])
    case Obj(entries) =>
      forall i :: 0 <= i < |entries| ==> entries[i].key != "range" && entries[i].key != "bool" && Plain(entries[i].val)
  }

  /** An object iterates its distinct keys in order: "gt" before "gte", "lt" before "lte". */
  ghost predicate KeyOrder(ops: seq<Entry>) {
    && (forall i, j :: 0 <= i < j < |ops| ==> ops[i].key != ops[j].key)
    && (forall i, j :: 0 <= i < |ops| && 0 <= j < |ops| && ops[i].key == "gt" && ops[j].key == "gte" ==> i < j)
    && (forall i, j :: 0 <= i < |ops| && 0 <= j < |ops| && ops[i].key == "lt" && ops[j].key == "lte" ==> i < j)
  }

  predicate Ordered(e: Engine, a: Entry, b: Entry) {
    e.time(a.val).Some? && e.time(b.val).Some? ==> e.time(a.val).value <= e.time(b.val).value
  }

  /** When a side is given twice, the operator that wins is the tighter one. */
  ghost predicate OpsAgree(e: Engine, ops: seq<Entry>) {
    && (forall i, j :: 0 <= i < |ops| && 0 <= j < |ops| && ops[i].key == "gt" && ops[j].key == "gte" ==>
          Ordered(e, ops[i], ops[j]))
    && (forall i, j :: 0 <= i < |ops| && 0 <= j < |ops| && ops[i].key == "lt" && ops[j].key == "lte" ==>
          Ordered(e, ops[j], ops[i]))
  }

  /** Of a range body, only the first field is translated: a timestamp field there has
      to say it all, and any other field there leaves nothing to harvest. */
  ghost predicate RangeOk(e: Engine, body: Json) {
    && Harvest(e, body) == OPEN
    && (body.Obj? && body.entries != [] ==>
          var first := body.entries[0];
          && FieldsBounds(e, body.entries) == FieldBounds(e, first)
          && (first.key in TIMESTAMP_ALIASES && first.val.Obj? ==>
                KeyOrder(first.val.entries) && OpsAgree(e, first.val.entries)))
  }

  ghost predicate QueryOk(e: Engine, node: Json) {
    node.Obj? && |node.entries| == 1 ==>
      var kind, body := node.entries[0].key, node.entries[0].val;
      if kind == "bool" then
        body.Obj? ==> SectionOk(e, body.entries, "must") && SectionOk(e, body.entries, "filter")
      else if kind == "range" then RangeOk(e, body)
      else Harvest(e, body) == OPEN
  }

  ghost predicate SectionOk(e: Engine, entries: seq<Entry>, section: string) {
    var clause := Get(entries, section);
    if clause.None? then true
    else
      GetSmaller(entries, section);
      if clause.value.Arr? then ItemsOk(e, clause.value.items) else QueryOk(e, clause.value)
  }

  ghost predicate ItemsOk(e: Engine, items: seq<Json>) {
    items != [] ==> ItemsOk(e, items[..|items| - 1]) && QueryOk(e, items[|items| - 1])
  }

  lemma {:induction false} PlainHarvestsNothing(e: Engine, node: Json)
    requires Plain(node)
    ensures Harvest(e, node) == OPEN
    decreases node, 1
  {
    match node
    case Lit(_) =>
    case Arr(items) => PlainItems(e, items);
    case Obj(entries) =>
      PlainGet(entries, "range");
      PlainGet(entries, "bool");
      PlainValues(e, entries);
  }

  lemma PlainGet(entries: seq<Entry>, key: string)
    requires forall i :: 0 <= i < |entries| ==> entries[i].key != key
    ensures Get(entries, key).None?
  {
  }

  lemma {:induction false} PlainItems(e: Engine, items: seq<Json>)
    requires forall i :: 0 <= i < |items| ==> Plain(items[i])
    ensures HarvestItems(e, items) == OPEN
    decreases items, 0
  {
    if items != [] {
      PlainItems(e, items[..|items| - 1]);
      PlainHarvestsNothing(e, items[|items| - 1]);
    }
  }

  lemma {:induction false} PlainValues(e: Engine, entries: seq<Entry>)
    requires forall i :: 0 <= i < |entries| ==> Plain(entries[i].val)
    ensures HarvestValues(e, entries) == OPEN
    decreases entries, 0
  {
    if entries != [] {
      PlainValues(e, entries[..|entries| - 1]);
      PlainHarvestsNothing(e, entries[|entries| - 1].val);
    }
  }

  // ---- one timestamp range ----

  /** A harvested bound is some operator's value, and no operator's value is tighter. */
  lemma {:induction false} OpsBoundsAttained(e: Engine, ops: seq<Entry>)
    ensures var s := OpsBounds(e, ops).start;
            s.Some? ==> exists i :: 0 <= i < |ops| && IsLower(ops[i]) && e.time(ops[i].val) == s
    ensures var t := OpsBounds(e, ops).end;
            t.Some? ==> exists i :: 0 <= i < |ops| && IsUpper(ops[i]) && e.time(ops[i].val) == t
  {
    if ops != [] {
      var n := |ops| - 1;
      OpsBoundsAttained(e, ops[..n]);
      assert forall i :: 0 <= i < n ==> ops[..n][i] == ops[i];
      assert IsLower(ops[n]) || IsUpper(ops[n]) || OpBounds(e, ops[n]) == OPEN;
    }
  }

  lemma {:induction false} OpsBoundsTight(e: Engine, ops: seq<Entry>, i: nat)
    requires i < |ops| && e.time(ops[i].val).Some?
    ensures var s := OpsBounds(e, ops).start; IsLower(ops[i]) ==> s.Some? && e.time(ops[i].val).value <= s.value
    ensures var t := OpsBounds(e, ops).end; IsUpper(ops[i]) ==> t.Some? && t.value <= e.time(ops[i].val).value
  {
    var n := |ops| - 1;
    if i < n {
      OpsBoundsTight(e, ops[..n], i);
    }
  }

  lemma PrefixOps(e: Engine, ops: seq<Entry>, n: nat)
    requires KeyOrder(ops) && OpsAgree(e, ops) && n <= |ops|
    ensures KeyOrder(ops[..n]) && OpsAgree(e, ops[..n])
  {
  }

  /** A timestamp the translated range admits lies within the harvested bounds. */
  lemma {:induction false} OpsSound(e: Engine, ops: seq<Entry>, ts: int)
    requires KeyOrder(ops) && OpsAgree(e, ops) && TranslateOps(e, ops).Some?
    requires Above(TranslateOps(e, ops).value.0, ts) && Below(TranslateOps(e, ops).value.1, ts)
    ensures Within(OpsBounds(e, ops), ts)
  {
    if ops != [] {
      var n := |ops| - 1;
      PrefixOps(e, ops, n);
      OpsSoundLower(e, ops, ts);
      OpsSoundUpper(e, ops, ts);
    }
  }

  lemma {:induction false} OpsSoundLower(e: Engine, ops: seq<Entry>, ts: int)
    requires KeyOrder(ops) && OpsAgree(e, ops) && TranslateOps(e, ops).Some? && Above(TranslateOps(e, ops).value.0, ts)
    ensures OpsBounds(e, ops).start.Some? ==> OpsBounds(e, ops).start.value <= ts
  {
    if ops != [] {
      var n := |ops| - 1;
      PrefixOps(e, ops, n);
      if IsLower(ops[n]) {
        OpsBoundsAttained(e, ops[..n]);
        assert forall i :: 0 <= i < n ==> ops[..n][i] == ops[i];
        assert ops[n].key == "gt" ==> OpsBounds(e, ops[..n]).start.None?;
      } else {
        OpsSoundLower(e, ops[..n], ts);
      }
    }
  }

  lemma {:induction false} OpsSoundUpper(e: Engine, ops: seq<Entry>, ts: int)
    requires KeyOrder(ops) && OpsAgree(e, ops) && TranslateOps(e, ops).Some? && Below(TranslateOps(e, ops).value.1, ts)
    ensures OpsBounds(e, ops).end.Some? ==> ts <= OpsBounds(e, ops).end.value
  {
    if ops != [] {
      var n := |ops| - 1;
      PrefixOps(e, ops, n);
      if IsUpper(ops[n]) {
        OpsBoundsAttained(e, ops[..n]);
        assert forall i :: 0 <= i < n ==> ops[..n][i] == ops[i];
        assert ops[n].key == "lt" ==> OpsBounds(e, ops[..n]).end.None?;
      } else {
        OpsSoundUpper(e, ops[..n], ts);
      }
    }
  }

  /** Nothing a lower limit admits lies before `s`. */
  ghost predicate AllFrom(lower: Limit, s: int) {
    forall ts :: Above(lower, ts) ==> s <= ts
  }

  ghost predicate AllUpTo(upper: Limit, t: int) {
    forall ts :: Below(upper, ts) ==> ts <= t
  }

  lemma IncludedFrom(v: int, s: int)
    ensures AllFrom(Included(v), s) <==> s <= v
    ensures AllUpTo(Included(v), s) <==> v <= s
  {
    assert Above(Included(v), v) && Below(Included(v), v);
  }

  ghost predicate BothLower(e: Engine, ops: seq<Entry>, i: nat, j: nat) {
    && i < |ops| && j < |ops| && ops[i].key == "gt" && ops[j].key == "gte"
    && e.time(ops[i].val).Some? && e.time(ops[j].val).Some?
  }

  ghost predicate BothUpper(e: Engine, ops: seq<Entry>, i: nat, j: nat) {
    && i < |ops| && j < |ops| && ops[i].key == "lt" && ops[j].key == "lte"
    && e.time(ops[i].val).Some? && e.time(ops[j].val).Some?
  }

  lemma StartIsLarger(e: Engine, ops: seq<Entry>, i: nat, j: nat)
    requires KeyOrder(ops) && BothLower(e, ops, i, j)
    ensures OpsBounds(e, ops).start == MaxOpt(e.time(ops[i].val), e.time(ops[j].val))
  {
    OpsBoundsTight(e, ops, i);
    OpsBoundsTight(e, ops, j);
    OpsBoundsAttained(e, ops);
    var n :| 0 <= n < |ops| && IsLower(ops[n]) && e.time(ops[n].val) == OpsBounds(e, ops).start;
    assert n == i || n == j;
  }

  lemma EndIsSmaller(e: Engine, ops: seq<Entry>, i: nat, j: nat)
    requires KeyOrder(ops) && BothUpper(e, ops, i, j)
    ensures OpsBounds(e, ops).end == MinOpt(e.time(ops[i].val), e.time(ops[j].val))
  {
    OpsBoundsTight(e, ops, i);
    OpsBoundsTight(e, ops, j);
    OpsBoundsAttained(e, ops);
    var n :| 0 <= n < |ops| && IsUpper(ops[n]) && e.time(ops[n].val) == OpsBounds(e, ops).end;
    assert n == i || n == j;
  }

  /** Both lower operators given: what the range admits lies past the harvested
      start exactly when the exclusive one is not the larger. */
  lemma LowerSoundIff(e: Engine, ops: seq<Entry>, i: nat, j: nat)
    requires KeyOrder(ops) && TranslateOps(e, ops).Some? && BothLower(e, ops, i, j)
    ensures OpsBounds(e, ops).start.Some?
    ensures AllFrom(TranslateOps(e, ops).value.0, OpsBounds(e, ops).start.value) <==>
            e.time(ops[i].val).value <= e.time(ops[j].val).value
    ensures Ordered(e, ops[i], ops[j]) <==> e.time(ops[i].val).value <= e.time(ops[j].val).value
  {
    GteWins(e, ops, j);
    StartIsLarger(e, ops, i, j);
    IncludedFrom(e.time(ops[j].val).value, OpsBounds(e, ops).start.value);
  }

  lemma {:induction false} GteWins(e: Engine, ops: seq<Entry>, j: nat)
    requires KeyOrder(ops) && TranslateOps(e, ops).Some? && j < |ops| && ops[j].key == "gte"
    ensures e.time(ops[j].val).Some? && TranslateOps(e, ops).value.0 == Included(e.time(ops[j].val).value)
  {
    var n := |ops| - 1;
    if j < n {
      assert ops[n].key != "gt" && ops[n].key != "gte";
      GteWins(e, ops[..n], j);
    }
  }

  /** Both upper operators given: likewise, exactly when the exclusive one is not the smaller. */
  lemma UpperSoundIff(e: Engine, ops: seq<Entry>, i: nat, j: nat)
    requires KeyOrder(ops) && TranslateOps(e, ops).Some? && BothUpper(e, ops, i, j)
    ensures OpsBounds(e, ops).end.Some?
    ensures AllUpTo(TranslateOps(e, ops).value.1, OpsBounds(e, ops).end.value) <==>
            e.time(ops[j].val).value <= e.time(ops[i].val).value
    ensures Ordered(e, ops[j], ops[i]) <==> e.time(ops[j].val).value <= e.time(ops[i].val).value
  {
    LteWins(e, ops, j);
    EndIsSmaller(e, ops, i, j);
    IncludedFrom(e.time(ops[j].val).value, OpsBounds(e, ops).end.value);
  }

  lemma {:induction false} LteWins(e: Engine, ops: seq<Entry>, j: nat)
    requires KeyOrder(ops) && TranslateOps(e, ops).Some? && j < |ops| && ops[j].key == "lte"
    ensures e.time(ops[j].val).Some? && TranslateOps(e, ops).value.1 == Included(e.time(ops[j].val).value)
  {
    var n := |ops| - 1;
    if j < n {
      assert ops[n].key != "lt" && ops[n].key != "lte";
      LteWins(e, ops[..n], j);
    }
  }

  // ---- soundness of the harvested bounds ----

  lemma RangeSound(e: Engine, body: Json, d: Doc)
    requires RangeOk(e, body) && TranslateRange(e, body).Some? && Matches(e, TranslateRange(e, body).value, d)
    ensures Within(FieldsBounds(e, body.entries), d.ts)
  {
    var fields := body.entries;
    if fields[0].key in TIMESTAMP_ALIASES {
      OpsSound(e, fields[0].val.entries, d.ts);
    }
  }

  /** Later fields that harvest nothing are no obstacle. */
  lemma {:induction false} OnlyFirstField(e: Engine, fields: seq<Entry>)
    requires fields != [] && forall i :: 0 < i < |fields| ==> FieldBounds(e, fields[i]) == OPEN
    ensures FieldsBounds(e, fields) == FieldBounds(e, fields[0])
  {
    if |fields| == 1 {
      assert fields[..0] == [];
    } else {
      OnlyFirstField(e, fields[..|fields| - 1]);
    }
  }

  /** A range body with nothing nested in it, and later fields that give no readable time. */
  lemma PlainRangeOk(e: Engine, body: Json)
    requires Plain(body) && body.Obj? && body.entries != []
    requires forall i :: 0 < i < |body.entries| ==> FieldBounds(e, body.entries[i]) == OPEN
    requires var first := body.entries[0];
             first.key in TIMESTAMP_ALIASES && first.val.Obj? ==>
               KeyOrder(first.val.entries) && OpsAgree(e, first.val.entries)
    ensures RangeOk(e, body)
  {
    PlainHarvestsNothing(e, body);
    OnlyFirstField(e, body.entries);
  }

  /** Every document the translated query matches lies within the harvested bounds. */
  lemma {:induction false} HarvestSound(e: Engine, node: Json, d: Doc)
    requires QueryOk(e, node) && Translate(e, node).Some? && Matches(e, Translate(e, node).value, d)
    ensures Within(Harvest(e, node), d.ts)
    decreases node, 1
  {
    var entries := node.entries;
    var kind, body := entries[0].key, entries[0].val;
    SingleKey(entries, "range");
    SingleKey(entries, "bool");
    SingleValue(e, entries);
    if kind == "bool" {
      BoolSound(e, body.entries, d);
    } else if kind == "range" {
      RangeSound(e, body, d);
    }
  }

  /** A range on one field with one operator. */
  function FieldFrom(field: string, op: string, at: Json): Json {
    Obj([Entry("range", Obj([Entry(field, Obj([Entry(op, at)]))]))])
  }

  /** The names a document's time goes by. */
  predicate NamesTime(field: string) {
    field == "@timestamp" || field == "timestamp" || field == "_timestamp"
  }

  lemma FieldFromOk(e: Engine, field: string, op: string, text: string)
    requires (op == "gte" || op == "lte") && field != "range" && field != "bool"
    ensures QueryOk(e, FieldFrom(field, op, Lit(text)))
    ensures Harvest(e, FieldFrom(field, op, Lit(text))) ==
            if NamesTime(field) then OpBounds(e, Entry(op, Lit(text))) else OPEN
  {
    var ops := [Entry(op, Lit(text))];
    var fields := [Entry(field, Obj(ops))];
    var body := Obj(fields);
    assert Plain(body);
    PlainRangeOk(e, body);
    assert ops[..0] == [] && fields[..0] == [];
    assert OpsBounds(e, ops) == Meet(OPEN, OpBounds(e, ops[0]));
    SingleKey([Entry("range", body)], "range");
    SingleKey([Entry("range", body)], "bool");
    SingleValue(e, [Entry("range", body)]);
  }

  /** An ordinary query: from some time on, except up to another. It is pruned soundly, at
      the first and not at the second, under any of the names of a document's time and
      under no other. */
  lemma FilteredQuery(e: Engine, field: string, since: string, until: string)
    requires field != "range" && field != "bool"
    ensures var body := [Entry("filter", Arr([FieldFrom(field, "gte", Lit(since))])),
                         Entry("must_not", FieldFrom(field, "lte", Lit(until)))];
            var node := Obj([Entry("bool", Obj(body))]);
            && QueryOk(e, node)
            && Harvest(e, node) == if NamesTime(field) then Bounds(e.time(Lit(since)), None) else Bounds(None, None)
  {
    var items := [FieldFrom(field, "gte", Lit(since))];
    var body := [Entry("filter", Arr(items)), Entry("must_not", FieldFrom(field, "lte", Lit(until)))];
    var entries := [Entry("bool", Obj(body))];
    var bounds := if NamesTime(field) then Bounds(e.time(Lit(since)), None) else OPEN;
    FieldFromOk(e, field, "gte", since);
    assert items[..0] == [] && ItemsOk(e, items[..0]) && HarvestItems(e, items[..0]) == OPEN;
    assert ItemsOk(e, items) && HarvestItems(e, items) == bounds;
    assert body[1..] == [body[1]] && Get(body[1..], "must") == Get([body[1]], "must");
    SingleKey([body[1]], "must");
    assert Get(body, "filter") == Some(Arr(items)) && Get(body, "must") == None;
    SingleKey(entries, "range");
    SingleKey(entries, "bool");
    assert HarvestSection(e, body, "filter") == Harvest(e, Arr(items)) && HarvestSection(e, body, "must") == OPEN;
    assert HarvestInner(e, entries) == bounds && RangeBounds(e, entries) == OPEN;
  }

  lemma SingleKey(entries: seq<Entry>, key: string)
    requires |entries| == 1
    ensures Get(entries, key) == if entries[0].key == key then Some(entries[0].val) else None
  {
  }

  lemma SingleValue(e: Engine, entries: seq<Entry>)
    requires |entries| == 1
    ensures HarvestValues(e, entries) == Harvest(e, entries[0].val)
  {
    assert entries[..0] == [];
    assert HarvestValues(e, entries) == Meet(HarvestValues(e, entries[..0]), Harvest(e, entries[0].val));
  }

  ghost predicate AllMatch(e: Engine, qs: seq<Query>, d: Doc) {
    forall i :: 0 <= i < |qs| ==> Matches(e, qs[i], d)
  }

  lemma AllMatchParts(e: Engine, a: seq<Query>, b: seq<Query>, d: Doc)
    ensures AllMatch(e, a + b, d) <==> AllMatch(e, a, d) && AllMatch(e, b, d)
  {
    assert forall i :: 0 <= i < |a| ==> (a + b)[i] == a[i];
    assert forall i :: 0 <= i < |b| ==> (a + b)[|a| + i] == b[i];
  }

  ghost predicate SomeMatches(e: Engine, qs: seq<Query>, d: Doc) {
    exists i :: 0 <= i < |qs| && Matches(e, qs[i], d)
  }

  /** A `bool` query matches what every clause of `must` and `filter` matches and no clause
      of `must_not` does, and, with neither `must` nor `filter`, some `should` if any. */
  lemma BoolMatches(e: Engine, entries: seq<Entry>, d: Doc)
    requires TranslateBool(e, entries).Some?
    ensures TranslateSection(e, entries, "must").Some? && TranslateSection(e, entries, "filter").Some?
    ensures TranslateSection(e, entries, "should").Some? && TranslateSection(e, entries, "must_not").Some?
    ensures var must := TranslateSection(e, entries, "must").value;
            var filter := TranslateSection(e, entries, "filter").value;
            var should := TranslateSection(e, entries, "should").value;
            Matches(e, TranslateBool(e, entries).value, d) <==>
              && AllMatch(e, must, d) && AllMatch(e, filter, d)
              && !SomeMatches(e, TranslateSection(e, entries, "must_not").value, d)
              && (must + filter == [] ==> should == [] || SomeMatches(e, should, d))
  {
    var must, filter := TranslateSection(e, entries, "must").value, TranslateSection(e, entries, "filter").value;
    AllMatchParts(e, must, filter, d);
    assert must + filter == [] <==> must == [] && filter == [];
  }

  lemma {:induction false} BoolSound(e: Engine, entries: seq<Entry>, d: Doc)
    requires SectionOk(e, entries, "must") && SectionOk(e, entries, "filter")
    requires TranslateBool(e, entries).Some? && Matches(e, TranslateBool(e, entries).value, d)
    ensures Within(Meet(HarvestSection(e, entries, "must"), HarvestSection(e, entries, "filter")), d.ts)
    decreases entries, 1
  {
    BoolMatches(e, entries, d);
    SectionSound(e, entries, "must", d);
    SectionSound(e, entries, "filter", d);
    MeetWithin(HarvestSection(e, entries, "must"), HarvestSection(e, entries, "filter"), d.ts);
  }

  lemma {:induction false} SectionSound(e: Engine, entries: seq<Entry>, section: string, d: Doc)
    requires SectionOk(e, entries, section) && TranslateSection(e, entries, section).Some?
    requires AllMatch(e, TranslateSection(e, entries, section).value, d)
    ensures Within(HarvestSection(e, entries, section), d.ts)
    decreases entries, 0
  {
    var clause := Get(entries, section);
    if clause.Some? {
      GetSmaller(entries, section);
      if clause.value.Arr? {
        ItemsSound(e, clause.value.items, d);
      } else {
        var qs := TranslateSection(e, entries, section).value;
        assert qs[0] == Translate(e, clause.value).value;
        HarvestSound(e, clause.value, d);
      }
    }
  }

  lemma {:induction false} ItemsSound(e: Engine, items: seq<Json>, d: Doc)
    requires ItemsOk(e, items) && TranslateItems(e, items).Some?
    requires AllMatch(e, TranslateItems(e, items).value, d)
    ensures Within(HarvestItems(e, items), d.ts)
    decreases items, 0
  {
    if items != [] {
      var n := |items| - 1;
      var before, q := TranslateItems(e, items[..n]).value, Translate(e, items[n]).value;
      AllMatchParts(e, before, [q], d);
      assert [q][0] == q;
      ItemsSound(e, items[..n], d);
      HarvestSound(e, items[n], d);
      MeetWithin(HarvestItems(e, items[..n]), Harvest(e, items[n]), d.ts);
    }
  }

  // ---- trees outside the condition are pruned unsoundly ----

  /** Only the open interval holds every timestamp. */
  lemma OpenIff(b: Bounds)
    ensures (forall ts :: Within(b, ts)) <==> b == OPEN
  {
    if b.start.Some? {
      assert !Within(b, b.start.value - 1);
    } else if b.end.Some? {
      assert !Within(b, b.end.value + 1);
    }
  }

  /** Everything a query tree matches lies within the bounds harvested from it. */
  ghost predicate PrunesSoundly(e: Engine, node: Json) {
    Translate(e, node).Some? ==>
      forall d: Doc :: Matches(e, Translate(e, node).value, d) ==> Within(Harvest(e, node), d.ts)
  }

  lemma LeafSoundIff(e: Engine, node: Json, kind: string, body: Json)
    requires Translate(e, node) == Some(Leaf(kind, body)) && forall d: Doc :: e.leaf(kind, body, d)
    ensures PrunesSoundly(e, node) <==> Harvest(e, node) == OPEN
  {
    var q := Leaf(kind, body);
    OpenIff(Harvest(e, node));
    if PrunesSoundly(e, node) {
      forall ts
        ensures Within(Harvest(e, node), ts)
      {
        var d := Doc(ts, 0, []);
        assert Matches(e, q, d) && d.ts == ts;
      }
    }
  }

  /** A range over a field that is no timestamp, and that every document may satisfy: it
      is pruned soundly exactly when the fields after it harvest nothing either. */
  lemma LeafRangeSoundIff(e: Engine, body: Json)
    requires body.Obj? && body.entries != [] && body.entries[0].val.Obj?
    requires body.entries[0].key !in TIMESTAMP_ALIASES && Harvest(e, body) == OPEN
    requires e.leafOk("range", body) && forall d: Doc :: e.leaf("range", body, d)
    ensures PrunesSoundly(e, Obj([Entry("range", body)])) <==> FieldsBounds(e, body.entries) == OPEN
  {
    var entries := [Entry("range", body)];
    SingleKey(entries, "range");
    SingleKey(entries, "bool");
    SingleValue(e, entries);
    LeafSoundIff(e, Obj(entries), "range", body);
  }

  /** A second field of a range body that is a timestamp is harvested but not
      translated: a document it excludes can match. */
  lemma SecondFieldPrunes(e: Engine, level: Json, at: Json, d: Doc)
    requires level.Obj? && e.time(at).Some? && d.ts < e.time(at).value
    requires var body := Obj([Entry("level", level), Entry("timestamp", Obj([Entry("gte", at)]))]);
             e.leafOk("range", body) && e.leaf("range", body, d)
    ensures var body := Obj([Entry("level", level), Entry("timestamp", Obj([Entry("gte", at)]))]);
            var node := Obj([Entry("range", body)]);
            Translate(e, node).Some? && Matches(e, Translate(e, node).value, d) && !Within(Harvest(e, node), d.ts)
  {
    var ops := [Entry("gte", at)];
    var fields := [Entry("level", level), Entry("timestamp", Obj(ops))];
    OpsBoundsTight(e, ops, 0);
    assert "timestamp" in TIMESTAMP_ALIASES && "level" !in TIMESTAMP_ALIASES;
    assert FieldsBounds(e, fields) == Meet(FieldsBounds(e, fields[..1]), FieldBounds(e, fields[1]));
    SingleKey([Entry("range", Obj(fields))], "range");
    MeetWithin(FieldsBounds(e, fields[..1]), FieldBounds(e, fields[1]), d.ts);
    MeetWithin(RangeBounds(e, [Entry("range", Obj(fields))]), HarvestInner(e, [Entry("range", Obj(fields))]), d.ts);
  }

  /** Later than 10 and not before 5: the range admits 7, the harvest starts at 10. */
  lemma LooserLowerWins(e: Engine, ten: Json, five: Json)
    requires e.time(ten) == Some(10) && e.time(five) == Some(5)
    ensures var ops := [Entry("gt", ten), Entry("gte", five)];
            && TranslateOps(e, ops) == Some((Included(5), Unbounded)) && Above(Included(5), 7)
            && !Within(OpsBounds(e, ops), 7)
  {
    var ops := [Entry("gt", ten), Entry("gte", five)];
    assert ops[..1] == [Entry("gt", ten)] && ops[..1][..0] == [];
    assert TranslateOps(e, ops[..1]) == Some((Excluded(10), Unbounded));
    OpsBoundsTight(e, ops, 0);
  }

  /** Before 5 and not after 10: the range admits 7, the harvest ends at 5. */
  lemma LooserUpperWins(e: Engine, five: Json, ten: Json)
    requires e.time(five) == Some(5) && e.time(ten) == Some(10)
    ensures var ops := [Entry("lt", five), Entry("lte", ten)];
            && TranslateOps(e, ops) == Some((Unbounded, Included(10))) && Below(Included(10), 7)
            && !Within(OpsBounds(e, ops), 7)
  {
    var ops := [Entry("lt", five), Entry("lte", ten)];
    assert ops[..1] == [Entry("lt", five)] && ops[..1][..0] == [];
    assert TranslateOps(e, ops[..1]) == Some((Unbounded, Excluded(5)));
    OpsBoundsTight(e, ops, 0);
  }

  // ---- splits ----

  /** A finished split's advertised ranges. */
  datatype SplitMeta = SplitMeta(docCount: nat, timeStart: int, timeEnd: int, seqMin: int, seqMax: int)

  /** The advertised ranges are exactly the documents' own. */
  ghost predicate Describes(m: SplitMeta, docs: seq<Doc>) {
    && m.docCount == |docs| && 0 < |docs|
    && (forall i :: 0 <= i < |docs| ==> m.timeStart <= docs[i].ts <= m.timeEnd && m.seqMin <= docs[i].stamp <= m.seqMax)
    && (exists i :: 0 <= i < |docs| && docs[i].ts == m.timeStart)
    && (exists i :: 0 <= i < |docs| && docs[i].ts == m.timeEnd)
    && (exists i :: 0 <= i < |docs| && docs[i].stamp == m.seqMin)
    && (exists i :: 0 <= i < |docs| && docs[i].stamp == m.seqMax)
  }

  class SplitBuilder {
    var docCount: nat
    var minTs: int
    var maxTs: int
    var minSeq: int
    var maxSeq: int
    ghost var docs: seq<Doc>

    ghost predicate Valid()
      reads this
    {
      if docs == [] then docCount == 0 && minTs == minSeq == I64_MAX && maxTs == maxSeq == I64_MIN
      else Describes(SplitMeta(docCount, minTs, maxTs, minSeq, maxSeq), docs)
    }

    constructor ()
      ensures Valid() && docs == []
    {
      docCount, minTs, maxTs, minSeq, maxSeq, docs := 0, I64_MAX, I64_MIN, I64_MAX, I64_MIN, [];
    }

    /** Buffer one document; a document the index writer rejects widens nothing. */
    method AddDocument(d: Doc, accepted: bool) returns (ok: bool)
      requires Valid() && IsI64(d.ts) && IsI64(d.stamp)
      modifies this
      ensures Valid() && ok == accepted && docs == if accepted then old(docs) + [d] else old(docs)
    {
      if !accepted {
        return false;
      }
      minTs := if d.ts < minTs then d.ts else minTs;
      maxTs := if maxTs < d.ts then d.ts else maxTs;
      minSeq := if d.stamp < minSeq then d.stamp else minSeq;
      maxSeq := if maxSeq < d.stamp then d.stamp else maxSeq;
      docCount := docCount + 1;
      AddDescribes(docs, d, old(SplitMeta(docCount, minTs, maxTs, minSeq, maxSeq)),
                   SplitMeta(docCount, minTs, maxTs, minSeq, maxSeq));
      docs := docs + [d];
      return true;
    }

    /** The finished split's metadata; an empty split is refused. */
    method Finish() returns (m: Option<SplitMeta>)
      requires Valid()
      ensures m.None? <==> docs == []
      ensures m.Some? ==> Describes(m.value, docs)
    {
      m := if docCount == 0 then None else Some(SplitMeta(docCount, minTs, maxTs, minSeq, maxSeq));
    }
  }

  lemma AddDescribes(docs: seq<Doc>, d: Doc, m: SplitMeta, m': SplitMeta)
    requires if docs == [] then m == SplitMeta(0, I64_MAX, I64_MIN, I64_MAX, I64_MIN) else Describes(m, docs)
    requires IsI64(d.ts) && IsI64(d.stamp)
    requires m'.docCount == m.docCount + 1
    requires m'.timeStart == if d.ts < m.timeStart then d.ts else m.timeStart
    requires m'.timeEnd == if m.timeEnd < d.ts then d.ts else m.timeEnd
    requires m'.seqMin == if d.stamp < m.seqMin then d.stamp else m.seqMin
    requires m'.seqMax == if m.seqMax < d.stamp then d.stamp else m.seqMax
    ensures Describes(m', docs + [d])
  {
    var out := docs + [d];
    assert out[|docs|] == d;
    assert forall i :: 0 <= i < |docs| ==> out[i] == docs[i];
  }

  datatype Split = Split(meta: SplitMeta, published: bool, docs: seq<Doc>)

  ghost predicate SplitOk(s: Split) {
    Describes(s.meta, s.docs) && forall i :: 0 <= i < |s.docs| ==> IsI64(s.docs[i].ts)
  }

  /** The overlap filter. */
  predicate Overlaps(m: SplitMeta, b: Bounds) {
    && (if b.start.Some? then b.start.value else I64_MIN) <= m.timeEnd
    && m.timeStart <= (if b.end.Some? then b.end.value else I64_MAX)
  }

  /** The split lies wholly before the start or after the end. */
  ghost predicate OutOfBounds(m: SplitMeta, b: Bounds) {
    || (b.start.Some? && m.timeEnd < b.start.value)
    || (b.end.Some? && b.end.value < m.timeStart)
  }

  /** The filter leaves out exactly the splits out of bounds, which, unless the bounds
      contradict themselves, are those whose time range has no timestamp within them. */
  lemma OverlapsMeans(m: SplitMeta, b: Bounds)
    requires IsI64(m.timeStart) && IsI64(m.timeEnd) && m.timeStart <= m.timeEnd
    ensures Overlaps(m, b) <==> !OutOfBounds(m, b)
    ensures b.start.None? || b.end.None? || b.start.value <= b.end.value ==>
              (Overlaps(m, b) <==> exists ts :: m.timeStart <= ts <= m.timeEnd && Within(b, ts))
  {
    if Overlaps(m, b) && (b.start.None? || b.end.None? || b.start.value <= b.end.value) {
      var ts := if b.start.Some? && m.timeStart < b.start.value then b.start.value else m.timeStart;
      assert m.timeStart <= ts <= m.timeEnd && Within(b, ts);
    }
  }

  /** The published splits a query has to open. */
  method SplitsForQuery(splits: seq<Split>, b: Bounds) returns (kept: seq<Split>)
    ensures forall s :: s in kept <==> s in splits && s.published && Overlaps(s.meta, b)
    ensures |kept| <= |splits|
  {
    kept := [];
    for i := 0 to |splits|
      invariant |kept| <= i
      invariant forall s :: s in kept <==> s in splits[..i] && s.published && Overlaps(s.meta, b)
    {
      if splits[i].published && Overlaps(splits[i].meta, b) {
        kept := kept + [splits[i]];
      }
      assert splits[..i + 1] == splits[..i] + [splits[i]];
    }
    assert splits[..|splits|] == splits;
  }

  /** A published split the query does not open holds no match. */
  lemma PrunedHasNoMatch(e: Engine, node: Json, s: Split, i: nat)
    requires SplitOk(s) && QueryOk(e, node) && Translate(e, node).Some?
    requires !Overlaps(s.meta, Harvest(e, node)) && i < |s.docs|
    ensures !Matches(e, Translate(e, node).value, s.docs[i])
  {
    if Matches(e, Translate(e, node).value, s.docs[i]) {
      HarvestSound(e, node, s.docs[i]);
    }
  }

  ghost predicate Found(e: Engine, q: Query, splits: seq<Split>, d: Doc) {
    exists s, i :: s in splits && s.published && 0 <= i < |s.docs| && s.docs[i] == d && Matches(e, q, d)
  }

  /** Searching the splits that overlap the harvested bounds finds the same
      documents as searching every published split. */
  method PruneSplits(e: Engine, node: Json, splits: seq<Split>) returns (kept: seq<Split>)
    requires QueryOk(e, node) && Translate(e, node).Some? && forall s :: s in splits ==> SplitOk(s)
    ensures forall d :: Found(e, Translate(e, node).value, kept, d) <==> Found(e, Translate(e, node).value, splits, d)
    ensures forall s :: s in kept <==> s in splits && s.published && !OutOfBounds(s.meta, Harvest(e, node))
  {
    var start, end := ScanTimeBounds(e, node, None, None);
    kept := SplitsForQuery(splits, Bounds(start, end));
    forall s | s in splits
      ensures Overlaps(s.meta, Harvest(e, node)) <==> !OutOfBounds(s.meta, Harvest(e, node))
    {
      OverlapsMeans(s.meta, Harvest(e, node));
    }
    forall d | Found(e, Translate(e, node).value, splits, d)
      ensures Found(e, Translate(e, node).value, kept, d)
    {
      var s, i :|
        s in splits && s.published && 0 <= i < |s.docs| && s.docs[i] == d && Matches(e, Translate(e, node).value, d);
      HarvestSound(e, node, s.docs[i]);
      assert s in kept;
    }
  }
}
