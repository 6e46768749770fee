/** The byte layout of write-ahead-log records and the cursor that reads them
back from a segment file whose tail may be torn.
A record is `[len: u32][crc: u32][payload]`. A v2 payload carries the identity:
`[0x8000 + stream length][stream][flag + id length][id][seq: i64][doc]`; a v1
payload, from before documents had one, is `[stream length][stream][doc]`. */
module WalCodec {
  import opened Prelude
  import opened Bytes
  import opened Framing

  datatype Record =
    | V2(stream: seq<Byte>, id: seq<Byte>, stamp: int, tombstone: bool, doc: seq<Byte>)
    | V1(stream: seq<Byte>, doc: seq<Byte>)

  /** The checksum is any function of the payload. */
  type Crc = seq<Byte> -> nat

  /** High bit of the stream length: the payload carries an identity.
      High bit of the id length: the write replaces older versions. */
  const FLAG: nat := 0x8000

  ghost predicate IsCrc(crc: Crc) {
    forall payload :: crc(payload) < 0x1_0000_0000
  }

  function PayloadLen(r: Record): nat {
    match r
    case V2(stream, id, _, _, doc) => 2 + |stream| + 2 + |id| + 8 + |doc|
    case V1(stream, doc) => 2 + |stream| + |doc|
  }

  /** What the length fields can express. The append refuses longer names and ids. */
  predicate WithinLimits(r: Record) {
    && |r.stream| < FLAG
    && (r.V2? ==> |r.id| < FLAG && IsI64(r.stamp))
    && PayloadLen(r) < 0x1_0000_0000
  }

  function Payload(r: Record): (p: seq<Byte>)
    requires WithinLimits(r)
    ensures |p| == PayloadLen(r)
  {
    match r
    case V2(stream, id, stamp, tombstone, doc) =>
      ToLE(FLAG + |stream|, 2) + stream +
      (ToLE(if tombstone then FLAG + |id| else |id|, 2) + id + (I64ToLE(stamp) + doc))
    case V1(stream, doc) => ToLE(|stream|, 2) + stream + doc
  }

  function Frame(crc: Crc, r: Record): (f: seq<Byte>)
    requires WithinLimits(r)
    ensures |f| == 8 + PayloadLen(r)
  {
    ToLE(PayloadLen(r), 4) + ToLE(crc(Payload(r)), 4) + Payload(r)
  }

  lemma ZerosLE()
    ensures ToLE(0, 2) == [0, 0] && ToLE(0, 6) == [0, 0, 0, 0, 0, 0]
  {
    assert ToLE(0, 1) == [0] && ToLE(0, 3) == [0, 0, 0] && ToLE(0, 4) == [0, 0, 0, 0];
  }

  lemma TwoLE(x: Byte, y: Byte)
    ensures ToLE(x + 256 * y, 2) == [x, y]
  {
    assert (x + 256 * y) % 256 == x && (x + 256 * y) / 256 == y && ToLE(y, 1) == [y];
  }

  lemma FourLE(x: Byte, y: Byte)
    ensures ToLE(x + 256 * y, 4) == [x, y, 0, 0]
  {
    ZerosLE();
    assert (x + 256 * y) % 256 == x && (x + 256 * y) / 256 == y && ToLE(y, 3) == [y] + ToLE(0, 2);
  }

  lemma EightLE(x: Byte, y: Byte)
    ensures I64ToLE(x + 256 * y) == [x, y, 0, 0, 0, 0, 0, 0]
  {
    ZerosLE();
    assert (x + 256 * y) % 256 == x && (x + 256 * y) / 256 == y && ToLE(y, 7) == [y] + ToLE(0, 6);
  }

  lemma PayloadExample()
    ensures Payload(V2([0x73], [0x69, 0x64], 258, true, [0x7b, 0x7d])) ==
            [1, 0x80] + [0x73] + ([2, 0x80] + [0x69, 0x64] + ([2, 1, 0, 0, 0, 0, 0, 0] + [0x7b, 0x7d]))
    ensures Payload(V1([0x73], [0x7b, 0x7d])) == [1, 0] + [0x73] + [0x7b, 0x7d]
  {
    TwoLE(1, 0x80);
    TwoLE(2, 0x80);
    TwoLE(1, 0);
    EightLE(2, 1);
  }

  /** The bytes of a record: stream "s", id "id", stamp 258, flagged, document "{}". And of
      one from before documents had an identity. */
  lemma FrameExample(crc: Crc)
    requires forall payload :: crc(payload) == 0x0201
    ensures Frame(crc, V2([0x73], [0x69, 0x64], 258, true, [0x7b, 0x7d])) ==
            [17, 0, 0, 0] + [1, 2, 0, 0] +
            ([1, 0x80] + [0x73] + ([2, 0x80] + [0x69, 0x64] + ([2, 1, 0, 0, 0, 0, 0, 0] + [0x7b, 0x7d])))
    ensures Frame(crc, V1([0x73], [0x7b, 0x7d])) == [5, 0, 0, 0] + [1, 2, 0, 0] + ([1, 0] + [0x73] + [0x7b, 0x7d])
  {
    PayloadExample();
    FourLE(17, 0);
    FourLE(5, 0);
    FourLE(1, 2);
  }

  function EncodeAll(crc: Crc, rs: seq<Record>): seq<Byte>
    requires forall r :: r in rs ==> WithinLimits(r)
  {
    Concat(Frames(crc, rs))
  }

  function Frames(crc: Crc, rs: seq<Record>): (fs: seq<seq<Byte>>)
    requires forall r :: r in rs ==> WithinLimits(r)
    ensures |fs| == |rs|
  {
    seq(|rs|, i requires 0 <= i < |rs| => Frame(crc, rs[i]))
  }

  // ---- reading ----

  /** Read a validated payload's parts; `None` when a length field points past the end. */
  function ParsePayload(buf: seq<Byte>): Option<Record> {
    if |buf| < 2 then None
    else
      var field := FromLE(buf[..2]);
      var streamLen := field % FLAG;
      if 2 + streamLen > |buf| then None
      else if field < FLAG then Some(V1(buf[2..2 + streamLen], buf[2 + streamLen..]))
      else ParseIdentity(buf[2..2 + streamLen], buf[2 + streamLen..])
  }

  function ParseIdentity(stream: seq<Byte>, rest: seq<Byte>): Option<Record> {
    if |rest| < 2 then None
    else
      var field := FromLE(rest[..2]);
      var idLen := field % FLAG;
      if 2 + idLen + 8 > |rest| then None
      else
        var at := 2 + idLen;
        Some(V2(stream, rest[2..at], I64FromLE(rest[at..at + 8]), FLAG <= field, rest[at + 8..]))
  }

  /** The next record and how many bytes it took; `None` at the end of the
      segment: end of file, torn tail, or corruption. */
  function DecodeNext(crc: Crc, file: seq<Byte>): (r: Option<(Record, nat)>)
    ensures r.Some? ==> 10 <= r.value.1 <= |file|
  {
    if |file| < 8 then None
    else
      var len := FromLE(file[..4]);
      if len < 2 || 8 + len > |file| then None
      else
        var buf := file[8..8 + len];
        if crc(buf) != FromLE(file[4..8]) then None
        else
          match ParsePayload(buf)
          case None => None
          case Some(record) => Some((record, 8 + len))
  }

  function RecordDecoder(crc: Crc): Decoder<Record> {
    file => DecodeNext(crc, file)
  }

  function DecodeAll(crc: Crc, file: seq<Byte>): seq<Record> {
    ReadAll(RecordDecoder(crc), file)
  }

  /** One attempt to read a record from the front of what is left of the file. */
  method ReadRecord(crc: Crc, rest: seq<Byte>) returns (next: Option<(Record, nat)>)
    ensures next == DecodeNext(crc, rest)
  {
    if |rest| < 8 {
      return None;
    }
    var len := FromLE(rest[..4]);
    var sum := FromLE(rest[4..8]);
    if len < 2 {
      return None;
    }
    if |rest| - 8 < len {
      return None;
    }
    var buf := rest[8..8 + len];
    if crc(buf) != sum {
      return None;
    }
    var parsed := ParsePayload(buf);
    if parsed.None? {
      return None;
    }
    return Some((parsed.value, 8 + len));
  }

  class SegmentCursor {
    const crc: Crc
    const file: seq<Byte>
    var at: nat
    var current: Option<Record>

    ghost predicate Valid()
      reads this
    {
      at <= |file|
    }

    constructor (crc: Crc, file: seq<Byte>)
      ensures Valid() && at == 0 && current == None && this.crc == crc && this.file == file
    {
      this.crc, this.file, at, current := crc, file, 0, None;
    }

    /** What the cursor has yet to yield. */
    ghost function Remaining(): seq<Record>
      reads this
      requires Valid()
    {
      DecodeAll(crc, file[at..])
    }

    /** Read and validate the next record. */
    method Advance() returns (ok: bool)
      requires Valid()
      modifies this`at, this`current
      ensures Valid() && old(at) <= at
      ensures !ok ==> old(Remaining()) == [] && at == old(at) && current == old(current)
      ensures ok ==> old(at) < at && current.Some? && old(Remaining()) == [current.value] + Remaining()
    {
      var next := ReadRecord(crc, file[at..]);
      ReadAllFrom(RecordDecoder(crc), file, at, next);
      ok := next.Some?;
      if ok {
        current := Some(next.value.0);
        at := at + next.value.1;
      }
    }
  }

  /** The counting pass over a segment when the log is opened. */
  method CountRecords(crc: Crc, file: seq<Byte>) returns (count: nat)
    ensures count == |DecodeAll(crc, file)|
  {
    var cursor := new SegmentCursor(crc, file);
    count := 0;
    assert file[0..] == file;
    while true
      invariant fresh(cursor) && cursor.Valid() && cursor.crc == crc && cursor.file == file
      invariant count + |cursor.Remaining()| == |DecodeAll(crc, file)|
      decreases |file| - cursor.at
    {
      var more := cursor.Advance();
      if !more {
        return;
      }
      count := count + 1;
    }
  }

  // ---- what reading gives back ----

  lemma LengthField(n: nat, flagged: bool)
    requires n < FLAG
    ensures var field := FromLE(ToLE(if flagged then FLAG + n else n, 2));
            field % FLAG == n && (FLAG <= field <==> flagged)
  {
    Powers();
    FromToLE(if flagged then FLAG + n else n, 2);
  }

  /** Slicing a concatenation at its seams. */
  lemma Seams(a: seq<Byte>, b: seq<Byte>, c: seq<Byte>)
    ensures (a + b + c)[..|a|] == a
    ensures (a + b + c)[|a|..|a| + |b|] == b
    ensures (a + b + c)[|a| + |b|..] == c
  {
  }

  lemma ParseIdentityBack(r: Record)
    requires WithinLimits(r) && r.V2?
    ensures var field := ToLE(if r.tombstone then FLAG + |r.id| else |r.id|, 2);
            ParseIdentity(r.stream, field + r.id + (I64ToLE(r.stamp) + r.doc)) == Some(r)
  {
    var field := ToLE(if r.tombstone then FLAG + |r.id| else |r.id|, 2);
    var tail := I64ToLE(r.stamp) + r.doc;
    var rest := field + r.id + tail;
    LengthField(|r.id|, r.tombstone);
    I64RoundTrip(r.stamp);
    Seams(field, r.id, tail);
    var at := 2 + |r.id|;
    assert rest[at..at + 8] == rest[at..][..8] == I64ToLE(r.stamp);
    assert rest[at + 8..] == rest[at..][8..] == r.doc;
  }

  lemma ParsePayloadBack(r: Record)
    requires WithinLimits(r)
    ensures ParsePayload(Payload(r)) == Some(r)
  {
    LengthField(|r.stream|, r.V2?);
    if r.V2? {
      var rest := ToLE(if r.tombstone then FLAG + |r.id| else |r.id|, 2) + r.id + (I64ToLE(r.stamp) + r.doc);
      Seams(ToLE(FLAG + |r.stream|, 2), r.stream, rest);
      ParseIdentityBack(r);
    } else {
      Seams(ToLE(|r.stream|, 2), r.stream, r.doc);
    }
  }

  lemma FrameHeader(crc: Crc, r: Record, rest: seq<Byte>)
    requires IsCrc(crc) && WithinLimits(r)
    ensures var file := Frame(crc, r) + rest;
            FromLE(file[..4]) == PayloadLen(r) && FromLE(file[4..8]) == crc(Payload(r))
  {
    var file := Frame(crc, r) + rest;
    Powers();
    FromToLE(PayloadLen(r), 4);
    FromToLE(crc(Payload(r)), 4);
    assert file[..4] == ToLE(PayloadLen(r), 4);
    assert file[4..8] == ToLE(crc(Payload(r)), 4);
  }

  /** A whole record is read back unchanged, whatever follows it. */
  lemma DecodeWhole(crc: Crc, r: Record, rest: seq<Byte>)
    requires IsCrc(crc) && WithinLimits(r)
    ensures DecodeNext(crc, Frame(crc, r) + rest) == Some((r, |Frame(crc, r)|))
  {
    var file := Frame(crc, r) + rest;
    FrameHeader(crc, r, rest);
    ParsePayloadBack(r);
    assert file[8..8 + PayloadLen(r)] == Payload(r);
  }

  /** A record cut anywhere short of its end is not read at all. */
  lemma DecodeTorn(crc: Crc, r: Record, cut: nat)
    requires IsCrc(crc) && WithinLimits(r) && cut < |Frame(crc, r)|
    ensures DecodeNext(crc, Frame(crc, r)[..cut]) == None
  {
    if 8 <= cut {
      FrameHeader(crc, r, []);
      assert Frame(crc, r) + [] == Frame(crc, r);
      assert Frame(crc, r)[..cut][..4] == Frame(crc, r)[..4];
    }
  }

  /** Cut the file of any list of records, old and new mixed, at any byte: reading
      yields exactly the records that fit wholly before the cut, unchanged. */
  lemma TornTail(crc: Crc, rs: seq<Record>, cut: nat)
    requires IsCrc(crc) && (forall r :: r in rs ==> WithinLimits(r))
    requires cut <= |EncodeAll(crc, rs)|
    ensures DecodeAll(crc, EncodeAll(crc, rs)[..cut]) == rs[..Fit(Frames(crc, rs), cut)]
  {
    FramesDecode(crc, rs);
    ReadTorn(RecordDecoder(crc), Frames(crc, rs), rs, cut);
  }

  lemma FramesDecode(crc: Crc, rs: seq<Record>)
    requires IsCrc(crc) && (forall r :: r in rs ==> WithinLimits(r))
    ensures Framed(RecordDecoder(crc), Frames(crc, rs), rs)
  {
    forall i | 0 <= i < |rs|
      ensures FramedAs(RecordDecoder(crc), Frames(crc, rs)[i], rs[i])
    {
      FrameDecodes(crc, rs[i]);
    }
  }

  lemma FrameDecodes(crc: Crc, r: Record)
    requires IsCrc(crc) && WithinLimits(r)
    ensures FramedAs(RecordDecoder(crc), Frame(crc, r), r)
  {
    forall rest: seq<Byte>
      ensures RecordDecoder(crc)(Frame(crc, r) + rest) == Some((r, |Frame(crc, r)|))
    {
      DecodeWhole(crc, r, rest);
    }
    forall cut | 0 <= cut < |Frame(crc, r)|
      ensures RecordDecoder(crc)(Frame(crc, r)[..cut]) == None
    {
      DecodeTorn(crc, r, cut);
    }
  }

  /** Reading a whole file back. */
  lemma RoundTrip(crc: Crc, rs: seq<Record>)
    requires IsCrc(crc) && (forall r :: r in rs ==> WithinLimits(r))
    ensures DecodeAll(crc, EncodeAll(crc, rs)) == rs
  {
    var frames := Frames(crc, rs);
    var file := EncodeAll(crc, rs);
    assert file[..|file|] == file;
    assert frames[..|frames|] == frames;
    assert rs[..|rs|] == rs;
    FitIsGreatest(frames, |file|, |frames|);
    TornTail(crc, rs, |file|);
  }

  // ---- reading any file at all ----

  lemma FieldParts(field: nat)
    requires field < 0x1_0000
    ensures field == if FLAG <= field then FLAG + field % FLAG else field % FLAG
  {
  }

  /** The two bytes of a length field, from the length and the flag read out of them. */
  lemma FieldBack(b: seq<Byte>)
    requires |b| == 2
    ensures var field := FromLE(b);
            b == ToLE(if FLAG <= field then FLAG + field % FLAG else field % FLAG, 2)
  {
    Powers();
    ToFromLE(b);
    FieldParts(FromLE(b));
  }

  lemma IdentityParsed(stream: seq<Byte>, rest: seq<Byte>)
    requires |stream| < FLAG && |rest| < 0x1_0000_0000 - 2 - |stream|
    ensures var r := ParseIdentity(stream, rest);
            r.Some? ==>
              && r.value.V2? && r.value.stream == stream && WithinLimits(r.value)
              && rest == ToLE(if r.value.tombstone then FLAG + |r.value.id| else |r.value.id|, 2) + r.value.id
                         + (I64ToLE(r.value.stamp) + r.value.doc)
  {
    if ParseIdentity(stream, rest).Some? {
      var at := 2 + FromLE(rest[..2]) % FLAG;
      FieldBack(rest[..2]);
      I64BackTrip(rest[at..at + 8]);
      assert rest == rest[..2] + rest[2..at] + (rest[at..at + 8] + rest[at + 8..]);
    }
  }

  lemma OldPayload(field: seq<Byte>, stream: seq<Byte>, doc: seq<Byte>)
    requires |field| == 2 && FromLE(field) == |stream| < FLAG && 2 + |stream| + |doc| < 0x1_0000_0000
    ensures WithinLimits(V1(stream, doc)) && Payload(V1(stream, doc)) == field + stream + doc
  {
    ToFromLE(field);
  }

  lemma NewPayload(field: seq<Byte>, stream: seq<Byte>, rest: seq<Byte>)
    requires |field| == 2 && FromLE(field) == FLAG + |stream| && |stream| < FLAG
    requires 2 + |stream| + |rest| < 0x1_0000_0000 && ParseIdentity(stream, rest).Some?
    ensures var r := ParseIdentity(stream, rest).value;
            WithinLimits(r) && Payload(r) == field + stream + rest
  {
    ToFromLE(field);
    IdentityParsed(stream, rest);
  }

  /** Only what `Payload` writes parses. */
  lemma PayloadParsed(buf: seq<Byte>)
    requires |buf| < 0x1_0000_0000
    ensures ParsePayload(buf).Some? ==> WithinLimits(ParsePayload(buf).value) && Payload(ParsePayload(buf).value) == buf
  {
    if ParsePayload(buf).Some? {
      Powers();
      ToFromLE(buf[..2]);
      var field := FromLE(buf[..2]);
      var at := 2 + field % FLAG;
      assert buf == buf[..2] + buf[2..at] + buf[at..];
      if field < FLAG {
        OldPayload(buf[..2], buf[2..at], buf[at..]);
      } else {
        NewPayload(buf[..2], buf[2..at], buf[at..]);
      }
    }
  }

  lemma DecodedFrame(crc: Crc, file: seq<Byte>)
    requires IsCrc(crc) && DecodeNext(crc, file).Some?
    ensures var (r, n) := DecodeNext(crc, file).value;
            WithinLimits(r) && Frame(crc, r) == file[..n]
  {
    var len := FromLE(file[..4]);
    Powers();
    ToFromLE(file[..4]);
    ToFromLE(file[4..8]);
    PayloadParsed(file[8..8 + len]);
    assert file[..8 + len] == file[..4] + file[4..8] + file[8..8 + len];
  }

  /** Reading gives a record exactly if the bytes start with its frame: any other length,
      checksum, flag or field ends the segment. */
  lemma DecodesIff(crc: Crc, file: seq<Byte>, r: Record, n: nat)
    requires IsCrc(crc)
    ensures DecodeNext(crc, file) == Some((r, n))
            <==> WithinLimits(r) && Frame(crc, r) <= file && n == |Frame(crc, r)|
  {
    if DecodeNext(crc, file) == Some((r, n)) {
      DecodedFrame(crc, file);
    }
    if WithinLimits(r) && Frame(crc, r) <= file {
      DecodeWhole(crc, r, file[|Frame(crc, r)|..]);
      assert file == Frame(crc, r) + file[|Frame(crc, r)|..];
    }
  }

  ghost predicate StartsWithFrame(crc: Crc, file: seq<Byte>) {
    exists r :: WithinLimits(r) && Frame(crc, r) <= file
  }

  lemma DecodesWhenFramed(crc: Crc, file: seq<Byte>)
    requires IsCrc(crc)
    ensures DecodeNext(crc, file).Some? <==> StartsWithFrame(crc, file)
  {
    if DecodeNext(crc, file).Some? {
      var (r, n) := DecodeNext(crc, file).value;
      DecodesIff(crc, file, r, n);
    }
    if StartsWithFrame(crc, file) {
      var r :| WithinLimits(r) && Frame(crc, r) <= file;
      DecodesIff(crc, file, r, |Frame(crc, r)|);
    }
  }

  lemma EncodeHead(crc: Crc, rs: seq<Record>)
    requires rs != [] && forall r :: r in rs ==> WithinLimits(r)
    ensures EncodeAll(crc, rs) == Frame(crc, rs[0]) + EncodeAll(crc, rs[1..])
  {
    assert Frames(crc, rs)[1..] == Frames(crc, rs[1..]);
  }

  /** The file holds exactly the records, and then nothing that is a record. */
  ghost predicate Holds(crc: Crc, file: seq<Byte>, rs: seq<Record>) {
    && (forall r :: r in rs ==> WithinLimits(r))
    && EncodeAll(crc, rs) <= file && !StartsWithFrame(crc, file[|EncodeAll(crc, rs)|..])
  }

  /** Of any file whatever, reading yields the one list of records whose frames the file
      starts with and that no further frame follows. */
  lemma {:induction false} ReadsExactly(crc: Crc, file: seq<Byte>, rs: seq<Record>)
    requires IsCrc(crc)
    ensures DecodeAll(crc, file) == rs <==> Holds(crc, file, rs)
    decreases |file|
  {
    DecodesWhenFramed(crc, file);
    if rs == [] {
      assert file[0..] == file;
    } else if WithinLimits(rs[0]) && Frame(crc, rs[0]) <= file {
      var n := |Frame(crc, rs[0])|;
      DecodesIff(crc, file, rs[0], n);
      ReadsExactly(crc, file[n..], rs[1..]);
      HoldsStep(crc, file, rs);
    } else {
      if DecodeAll(crc, file) == rs {
        var (r, n) := DecodeNext(crc, file).value;
        DecodesIff(crc, file, r, n);
        assert false;
      }
      if Holds(crc, file, rs) {
        EncodeHead(crc, rs);
        assert false;
      }
    }
  }

  lemma HoldsStep(crc: Crc, file: seq<Byte>, rs: seq<Record>)
    requires rs != [] && WithinLimits(rs[0]) && Frame(crc, rs[0]) <= file
    ensures Holds(crc, file, rs) <==> Holds(crc, file[|Frame(crc, rs[0])|..], rs[1..])
  {
    var head := Frame(crc, rs[0]);
    var rest := file[|head|..];
    assert file == head + rest;
    assert (forall r :: r in rs ==> WithinLimits(r)) <==> forall r :: r in rs[1..] ==> WithinLimits(r) by {
      assert rs == [rs[0]] + rs[1..];
    }
    if forall r :: r in rs ==> WithinLimits(r) {
      EncodeHead(crc, rs);
      var tail := EncodeAll(crc, rs[1..]);
      assert head + tail <= head + rest <==> tail <= rest by {
        PrefixAfter(head, tail, rest);
      }
      if tail <= rest {
        assert file[|head + tail|..] == rest[|tail|..];
      }
    }
  }

  lemma PrefixAfter(a: seq<Byte>, b: seq<Byte>, c: seq<Byte>)
    ensures a + b <= a + c <==> b <= c
  {
    if a + b <= a + c {
      assert b == (a + b)[|a|..] == (a + c)[..|a + b|][|a|..] == c[..|b|];
    }
  }

  /** A record whose stored checksum is not that of the payload its length delimits ends
      the segment: exactly the records before it are read. */
  lemma BadChecksumEnds(crc: Crc, rs: seq<Record>, bad: seq<Byte>)
    requires IsCrc(crc) && forall r :: r in rs ==> WithinLimits(r)
    requires 8 <= |bad| && 8 + FromLE(bad[..4]) <= |bad|
    requires crc(bad[8..8 + FromLE(bad[..4])]) != FromLE(bad[4..8])
    ensures DecodeNext(crc, bad) == None && DecodeAll(crc, EncodeAll(crc, rs) + bad) == rs
  {
    var file := EncodeAll(crc, rs) + bad;
    DecodesWhenFramed(crc, bad);
    assert file[|EncodeAll(crc, rs)|..] == bad;
    ReadsExactly(crc, file, rs);
  }

  /** Ten bytes with the checksum 8 where 7 is due are no record. */
  lemma BadChecksumExample(crc: Crc)
    requires forall payload :: crc(payload) == 7
    ensures DecodeNext(crc, [2, 0, 0, 0] + [8, 0, 0, 0] + [0, 0]) == None
  {
    var bad: seq<Byte> := [2, 0, 0, 0] + [8, 0, 0, 0] + [0, 0];
    FourLE(2, 0);
    FourLE(8, 0);
    assert bad[..4] == ToLE(2, 4) && bad[4..8] == ToLE(8, 4);
    Powers();
    FromToLE(2, 4);
    FromToLE(8, 4);
  }
}
