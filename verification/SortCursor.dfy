/** The `sort` values a hit reports and the `search_after` cursor parsed back from them. */
module SortCursor {
  import opened Prelude
  import opened SortKeys

  const I32_MAX: int := 0x7fff_ffff
  const I32_MIN: int := -0x8000_0000
  const MAX_SAFE_MILLIS: int := I64_MAX / 1_000_000
  const INFINITY: Text := [0x49, 0x6e, 0x66, 0x69, 0x6e, 0x69, 0x74, 0x79]
  const MINUS_INFINITY: Text := [0x2d] + INFINITY

  datatype Json = JNull | JBool(flag: bool) | JInt(n: int) | JFloat(f: real) | JStr(text: Text)

  /** Library conversions between text and values. */
  datatype Parsers = Parsers(
    parseInt: Text -> Option<int>,
    parseReal: Text -> Option<real>,
    parseBool: Text -> Option<bool>,
    parseTime: Json -> Option<int>,
    parseIp: Text -> Option<nat>,
    formatIp: nat -> Text,
    show: Json -> Text)

  /** A resolved sort clause. */
  datatype Field = Field(ty: SortType, desc: bool, useMax: bool, nullIsMax: bool, substitute: Option<Value>)

  /** Where to resume: the last hit's values and, when passed back, its tiebreak. */
  datatype Cursor = Cursor(values: seq<Value>, ts: Option<int>, stamp: Option<int>)

  function ToJson(p: Parsers, v: Value, ty: SortType, nullIsMax: bool): Json {
    match v
    case Missing => (
      match ty
      case Keyword => JNull
      case IpAddress => JNull
      case Long => JInt(if nullIsMax then I64_MAX else I64_MIN)
      case Date => JInt(if nullIsMax then I64_MAX else I64_MIN)
      case Double => JStr(if nullIsMax then INFINITY else MINUS_INFINITY)
      case Boolean => JInt(if nullIsMax then I32_MAX else I32_MIN))
    case Str(s) => JStr(s)
    case Num(n) => JInt(n)
    case Float(f) => JFloat(f)
    case Flag(b) => JInt(if b then 1 else 0)
    case Ip(bits) => JStr(p.formatIp(bits))
  }

  /** A whole number in the JSON value, if it holds one an i64 can carry. */
  function Whole(v: Json): Option<int> {
    match v
    case JInt(n) => if I64_MIN <= n <= I64_MAX then Some(n) else None
    case JFloat(f) =>
      if f.Floor as real == f && -9_007_199_254_740_992.0 <= f <= 9_007_199_254_740_992.0 then Some(f.Floor) else None
    case _ => None
  }

  function OrElse<T>(a: Option<T>, b: Option<T>): Option<T> {
    if a.Some? then a else b
  }

  function TextInt(p: Parsers, v: Json): Option<int> {
    if v.JStr? then p.parseInt(v.text) else None
  }

  function Sentinel(n: Option<int>): Option<Value> {
    if n.None? then None else if n.value == I64_MAX || n.value == I64_MIN then Some(Missing) else Some(Num(n.value))
  }

  function ParseValue(p: Parsers, v: Json, ty: SortType): Option<Value> {
    if v.JNull? then Some(Missing)
    else
      match ty
      case Keyword => Some(Str(if v.JStr? then v.text else p.show(v)))
      case Long => Sentinel(OrElse(Whole(v), TextInt(p, v)))
      case Date => Sentinel(OrElse(OrElse(Whole(v), TextInt(p, v)), p.parseTime(v)))
      case Double => (
        match v
        case JInt(n) => Some(Float(n as real))
        case JFloat(f) => Some(Float(f))
        case JStr(s) =>
          if s == INFINITY || s == MINUS_INFINITY then Some(Missing)
          else if p.parseReal(s).Some? then Some(Float(p.parseReal(s).value)) else None
        case _ => None)
      case Boolean => (
        match v
        case JBool(b) => Some(Flag(b))
        case JInt(n) =>
          if n == 0 then Some(Flag(false))
          else if n == 1 then Some(Flag(true))
          else if n == I32_MAX || n == I32_MIN then Some(Missing)
          else None
        case JStr(s) => if p.parseBool(s).Some? then Some(Flag(p.parseBool(s).value)) else None
        case _ => None)
      case IpAddress =>
        if v.JStr? && p.parseIp(v.text).Some? then Some(Ip(p.parseIp(v.text).value)) else None
  }

  /** Addresses print and parse back; numbers fit their column. */
  ghost predicate ReportOk(p: Parsers, ty: SortType, v: Value) {
    && Typed(ty, v) && (v.Num? ==> IsI64(v.num))
    && (v.Ip? ==> p.parseIp(p.formatIp(v.bits)) == Some(v.bits))
  }

  predicate IsSentinel(v: Value) {
    v.Num? && (v.num == I64_MIN || v.num == I64_MAX)
  }

  /** A reported value parses back to itself unless it is a number that the report
      also uses for a missing value. */
  lemma ParseBackIff(p: Parsers, ty: SortType, nullIsMax: bool, v: Value)
    requires ReportOk(p, ty, v)
    ensures ParseValue(p, ToJson(p, v, ty, nullIsMax), ty) == Some(v) <==> !IsSentinel(v)
    ensures ParseValue(p, ToJson(p, v, ty, nullIsMax), ty).Some?
  {
  }

  /** A missing number is reported as the one no present value passes, on the side where
      missing values sort; a missing text or address as null. */
  lemma MissingMarkers(p: Parsers, nullIsMax: bool)
    ensures forall ty :: ty == Long || ty == Date ==>
              var marker := ToJson(p, Missing, ty, nullIsMax);
              && marker.JInt? && IsI64(marker.n)
              && forall n :: IsI64(n) ==> if nullIsMax then n <= marker.n else marker.n <= n
    ensures ToJson(p, Missing, Boolean, nullIsMax) == JInt(if nullIsMax then 2_147_483_647 else -2_147_483_648)
    ensures var infinity: Text := ['I' as int, 'n' as int, 'f' as int, 'i' as int, 'n' as int, 'i' as int,
                                   't' as int, 'y' as int];
            ToJson(p, Missing, Double, nullIsMax) == JStr(if nullIsMax then infinity else ['-' as int] + infinity)
    ensures ToJson(p, Missing, Keyword, nullIsMax) == ToJson(p, Missing, IpAddress, nullIsMax) == JNull
  {
  }

  /** A float is taken for a whole number exactly if it is one of at most 2^53 either way. */
  lemma WholeMeans(f: real, n: int)
    ensures Whole(JFloat(f)) == Some(n) <==> f == n as real && -0x20_0000_0000_0000 <= n <= 0x20_0000_0000_0000
  {
  }

  /** What a client may write instead of what a hit reports. */
  lemma ClientValues(p: Parsers, s: Text, n: int, b: bool)
    ensures forall ty :: ParseValue(p, JNull, ty) == Some(Missing)
    ensures ParseValue(p, JInt(n), Keyword) == Some(Str(p.show(JInt(n))))
    ensures p.parseInt(s).Some? && !IsSentinel(Num(p.parseInt(s).value)) ==>
              ParseValue(p, JStr(s), Long) == ParseValue(p, JStr(s), Date) == Some(Num(p.parseInt(s).value))
    ensures p.parseInt(s).None? ==> ParseValue(p, JStr(s), Long) == None
    ensures p.parseInt(s).None? && p.parseTime(JStr(s)).Some? && !IsSentinel(Num(p.parseTime(JStr(s)).value)) ==>
              ParseValue(p, JStr(s), Date) == Some(Num(p.parseTime(JStr(s)).value))
    ensures ParseValue(p, JInt(n), Double) == Some(Float(n as real))
    ensures s != INFINITY && s != MINUS_INFINITY ==>
              ParseValue(p, JStr(s), Double) ==
              if p.parseReal(s).Some? then Some(Float(p.parseReal(s).value)) else None
    ensures ParseValue(p, JBool(b), Boolean) == Some(Flag(b))
    ensures p.parseBool(s) == Some(b) ==> ParseValue(p, JStr(s), Boolean) == Some(Flag(b))
    ensures ParseValue(p, JBool(b), Long) == None && ParseValue(p, JBool(b), Double) == None
    ensures !IsI64(n) ==> ParseValue(p, JInt(n), Long) == None
    ensures p.parseBool(s).None? ==> ParseValue(p, JStr(s), Boolean) == None
    ensures 1 < n < 2_147_483_647 || -2_147_483_648 < n < 0 ==> ParseValue(p, JInt(n), Boolean) == None
    ensures p.parseIp(s).None? ==> ParseValue(p, JStr(s), IpAddress) == None
    ensures ParseValue(p, JInt(n), IpAddress) == ParseValue(p, JBool(b), IpAddress) == None
  {
  }

  // ---- whole cursors ----

  function HitJson(p: Parsers, fields: seq<Field>, values: seq<Value>, ts: int, stamp: int): seq<Json> {
    seq(|fields|, i requires 0 <= i < |fields| =>
      ToJson(p, if i < |values| then values[i] else Missing, fields[i].ty, fields[i].nullIsMax))
    + [JInt(ts), JInt(stamp)]
  }

  function ParseValues(p: Parsers, fields: seq<Field>, values: seq<Json>): (r: Option<seq<Value>>)
    requires |fields| <= |values|
    ensures r.Some? ==>
              && |r.value| == |fields|
              && forall i :: 0 <= i < |fields| ==> ParseValue(p, values[i], fields[i].ty) == Some(r.value[i])
    ensures r.None? ==> exists i :: 0 <= i < |fields| && ParseValue(p, values[i], fields[i].ty) == None
  {
    if fields == [] then Some([])
    else
      var n := |fields| - 1;
      var rest := ParseValues(p, fields[..n], values);
      var last := ParseValue(p, values[n], fields[n].ty);
      if rest.None? || last.None? then
        assert last.None? ==> ParseValue(p, values[n], fields[n].ty) == None;
        None
      else Some(rest.value + [last.value])
  }

  /** A tiebreak value: an integer, a missing marker reading as -1. */
  function AsInt(p: Parsers, v: Json): Option<int> {
    match ParseValue(p, v, Long)
    case None => None
    case Some(Num(n)) => Some(n)
    case Some(Missing) => Some(-1)
    case Some(_) => None
  }

  function Clamp(ms: int): int {
    if ms < -MAX_SAFE_MILLIS then -MAX_SAFE_MILLIS else if MAX_SAFE_MILLIS < ms then MAX_SAFE_MILLIS else ms
  }

  /** The cursor a `search_after` array means, or an error. */
  function ParseCursor(p: Parsers, fields: seq<Field>, values: seq<Json>): Option<Cursor> {
    var n := |fields|;
    if |values| < n || n + 2 < |values| then None
    else
      var parsed := ParseValues(p, fields, values);
      if parsed.None? then None
      else if |values| == n then Some(Cursor(parsed.value, None, None))
      else
        var ts := AsInt(p, values[n]);
        if ts.None? then None
        else if |values| == n + 1 then Some(Cursor(parsed.value, Some(Clamp(ts.value)), None))
        else
          var stamp := AsInt(p, values[n + 1]);
          if stamp.None? then None else Some(Cursor(parsed.value, Some(Clamp(ts.value)), stamp))
  }

  /** Whole numbers stand for themselves as a tiebreak; null, like a missing marker, for -1. */
  lemma TiebreakMeans(p: Parsers, n: int)
    requires I64_MIN < n < I64_MAX
    ensures AsInt(p, JInt(n)) == Some(n) && AsInt(p, JNull) == Some(-1) && AsInt(p, JInt(I64_MAX)) == Some(-1)
  {
  }

  /** A cursor is accepted exactly if it has a value per field and at most two tiebreaks,
      and each of them parses; without tiebreaks it stands for a whole group of equal
      keys, and a timestamp is moved into the range a document can carry. */
  lemma CursorAcceptedIff(p: Parsers, fields: seq<Field>, values: seq<Json>)
    ensures ParseCursor(p, fields, values).Some? <==>
            && |fields| <= |values| <= |fields| + 2
            && (forall i :: 0 <= i < |fields| ==> ParseValue(p, values[i], fields[i].ty).Some?)
            && (forall i :: |fields| <= i < |values| ==> AsInt(p, values[i]).Some?)
    ensures ParseCursor(p, fields, values).Some? ==>
              var c := ParseCursor(p, fields, values).value;
              && |c.values| == |fields|
              && (forall i :: 0 <= i < |fields| ==> Some(c.values[i]) == ParseValue(p, values[i], fields[i].ty))
              && (c.ts.None? <==> |values| == |fields|) && (c.stamp.Some? <==> |values| == |fields| + 2)
              && (c.ts.Some? ==> IsNearest(AsInt(p, values[|fields|]).value, c.ts.value))
              && (c.stamp.Some? ==> c.stamp == AsInt(p, values[|fields| + 1]))
  {
    if |fields| <= |values| {
      var parsed := ParseValues(p, fields, values);
    }
  }

  /** The timestamp a document can carry that is nearest to `ms`. */
  ghost predicate IsNearest(ms: int, ts: int) {
    var most := 9_223_372_036_854;
    && -most <= ts <= most && (-most <= ms <= most ==> ts == ms)
    && (ms > most ==> ts == most) && (ms < -most ==> ts == -most)
  }

  ghost predicate HitReportOk(p: Parsers, fields: seq<Field>, values: seq<Value>, ts: int, stamp: int) {
    && |values| == |fields| && (forall i :: 0 <= i < |fields| ==> ReportOk(p, fields[i].ty, values[i]))
    && I64_MIN <= ts <= I64_MAX && I64_MIN <= stamp <= I64_MAX
  }

  ghost predicate NoSentinels(values: seq<Value>) {
    forall i :: 0 <= i < |values| ==> !IsSentinel(values[i])
  }

  /** Handing a hit's reported sort values back is always accepted, and resumes
      exactly at the hit if and only if none of them is a missing marker and the
      timestamp is one a document can carry. */
  lemma CursorRoundTripIff(p: Parsers, fields: seq<Field>, values: seq<Value>, ts: int, stamp: int)
    requires HitReportOk(p, fields, values, ts, stamp)
    ensures ParseCursor(p, fields, HitJson(p, fields, values, ts, stamp)).Some?
    ensures ParseCursor(p, fields, HitJson(p, fields, values, ts, stamp)) == Some(Cursor(values, Some(ts), Some(stamp)))
            <==> NoSentinels(values) && -MAX_SAFE_MILLIS <= ts <= MAX_SAFE_MILLIS && I64_MIN < stamp < I64_MAX
  {
    var json := HitJson(p, fields, values, ts, stamp);
    forall i | 0 <= i < |fields|
      ensures ParseValue(p, json[i], fields[i].ty).Some?
      ensures ParseValue(p, json[i], fields[i].ty) == Some(values[i]) <==> !IsSentinel(values[i])
    {
      ParseBackIff(p, fields[i].ty, fields[i].nullIsMax, values[i]);
    }
    var parsed := ParseValues(p, fields, json);
    assert parsed.Some?;
    if NoSentinels(values) {
      assert forall i :: 0 <= i < |fields| ==> parsed.value[i] == values[i];
      assert parsed.value == values;
    } else {
      var i :| 0 <= i < |values| && IsSentinel(values[i]);
      assert parsed.value[i] != values[i];
    }
    assert AsInt(p, JInt(ts)) == Some(if ts == I64_MIN || ts == I64_MAX then -1 else ts);
    assert AsInt(p, JInt(stamp)) == Some(if stamp == I64_MIN || stamp == I64_MAX then -1 else stamp);
  }
}
