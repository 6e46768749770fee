/** The split bundle: every index file concatenated, a metadata footer at the end. */
module Bundle {
  import opened Prelude
  import opened Bytes
  import Lexico
  import opened Ranking

  type Name = seq<int>

  const SPLIT_MAGIC: seq<Byte> := [0x52, 0x53, 0x50, 0x4c, 0x49, 0x54, 0x30, 0x31]
  const FOOTER_TAIL_LEN: nat := 16
  const LOCK: Name := [0x2e, 0x6c, 0x6f, 0x63, 0x6b]

  /** Where a bundled file lies within the object. */
  datatype Span = Span(offset: nat, len: nat)

  /** The footer: the file map and the split's own description. */
  datatype Meta = Meta(files: map<Name, Span>, split: seq<int>)

  /** The JSON library's two directions. */
  datatype Codec = Codec(encode: Meta -> seq<Byte>, decode: seq<Byte> -> Option<Meta>)

  ghost predicate CodecOk(c: Codec, m: Meta) {
    c.decode(c.encode(m)) == Some(m) && |c.encode(m)| < 0x1_0000_0000_0000_0000
  }

  datatype DirEntry = DirEntry(name: Name, isFile: bool, content: seq<Byte>)

  predicate EndsWith(s: Name, t: Name) {
    |t| <= |s| && s[|s| - |t|..] == t
  }

  predicate Bundled(e: DirEntry) {
    e.isFile && !EndsWith(e.name, LOCK)
  }

  ghost predicate DistinctNames(dir: seq<DirEntry>) {
    forall i, j :: 0 <= i < j < |dir| ==> dir[i].name != dir[j].name
  }

  function ByName(): Order<DirEntry> {
    (a: DirEntry, b: DirEntry) => Lexico.Less(a.name, b.name)
  }

  lemma NamesTotal(s: set<DirEntry>)
    requires forall a, b :: a in s && b in s && a.name == b.name ==> a == b
    ensures Total(ByName(), s)
  {
    forall x, y, z | x in s && y in s && z in s
      ensures !Lexico.Less(x.name, x.name) && (x != y ==> Lexico.Less(x.name, y.name) || Lexico.Less(y.name, x.name))
      ensures Lexico.Less(x.name, y.name) && Lexico.Less(y.name, z.name) ==> Lexico.Less(x.name, z.name)
    {
      Lexico.Irreflexive(x.name);
      Lexico.Trichotomy(x.name, y.name);
      if Lexico.Less(x.name, y.name) && Lexico.Less(y.name, z.name) {
        Lexico.Transitive(x.name, y.name, z.name);
      }
    }
    var lt := ByName();
    forall x | x in s
      ensures !lt(x, x)
    {
      Lexico.Irreflexive(x.name);
    }
    forall x, y | x in s && y in s && x != y
      ensures lt(x, y) || lt(y, x)
    {
      Lexico.Trichotomy(x.name, y.name);
    }
  }

  /** A name with `.lock` at its end. */
  ghost predicate IsLock(name: Name) {
    var n := |name|;
    && 5 <= n && name[n - 5] == '.' as int && name[n - 4] == 'l' as int && name[n - 3] == 'o' as int
    && name[n - 2] == 'c' as int && name[n - 1] == 'k' as int
  }

  lemma BundledMeans(e: DirEntry)
    ensures Bundled(e) <==> e.isFile && !IsLock(e.name)
  {
    var n := |e.name|;
    if 5 <= n {
      var tail := e.name[n - 5..];
      assert tail == [tail[0], tail[1], tail[2], tail[3], tail[4]];
    }
  }

  /** The files to bundle, in name order. */
  method ListFiles(dir: seq<DirEntry>) returns (files: seq<DirEntry>)
    requires DistinctNames(dir)
    ensures forall e :: e in files <==> e in dir && Bundled(e)
    ensures forall e :: e in files <==> e in dir && e.isFile && !IsLock(e.name)
    ensures DistinctNames(files) && Sorted(ByName(), files)
  {
    var found: seq<DirEntry> := [];
    for i := 0 to |dir|
      invariant DistinctNames(found)
      invariant forall e :: e in found <==> e in dir[..i] && Bundled(e)
    {
      if Bundled(dir[i]) {
        assert forall j :: 0 <= j < |found| ==> found[j] in found;
        found := found + [dir[i]];
      }
      assert dir[..i + 1] == dir[..i] + [dir[i]];
    }
    assert dir[..|dir|] == dir;
    SameName(found);
    NamesTotal(Elems(found));
    files := SortBy(ByName(), found);
    assert forall e :: e in files <==> e in Elems(found);
    DistinctSorted(files);
    forall e: DirEntry
      ensures Bundled(e) <==> e.isFile && !IsLock(e.name)
    {
      BundledMeans(e);
    }
  }

  lemma SameName(found: seq<DirEntry>)
    requires DistinctNames(found)
    ensures forall a, b :: a in Elems(found) && b in Elems(found) && a.name == b.name ==> a == b
    ensures NoRepeats(found)
  {
  }

  lemma DistinctSorted(files: seq<DirEntry>)
    requires Sorted(ByName(), files)
    ensures DistinctNames(files)
  {
    forall i, j | 0 <= i < j < |files|
      ensures files[i].name != files[j].name
    {
      Lexico.Asymmetric(files[i].name, files[j].name);
    }
  }

  /** A span holds exactly a file's content. */
  ghost predicate Holds(obj: seq<Byte>, span: Span, content: seq<Byte>) {
    span.offset + span.len <= |obj| && obj[span.offset..span.offset + span.len] == content
  }

  ghost predicate SpansHold(obj: seq<Byte>, spans: map<Name, Span>, files: seq<DirEntry>, n: nat)
    requires n <= |files|
  {
    && (forall i :: 0 <= i < n ==> files[i].name in spans && Holds(obj, spans[files[i].name], files[i].content))
    && (forall name :: name in spans ==> exists i :: 0 <= i < n && files[i].name == name)
  }

  lemma HoldsLonger(obj: seq<Byte>, more: seq<Byte>, span: Span, content: seq<Byte>)
    requires Holds(obj, span, content)
    ensures Holds(obj + more, span, content)
  {
    assert (obj + more)[span.offset..span.offset + span.len] == obj[span.offset..span.offset + span.len];
  }

  lemma SpansLonger(obj: seq<Byte>, more: seq<Byte>, spans: map<Name, Span>, files: seq<DirEntry>, n: nat)
    requires n <= |files| && SpansHold(obj, spans, files, n)
    ensures SpansHold(obj + more, spans, files, n)
  {
    forall i | 0 <= i < n
      ensures Holds(obj + more, spans[files[i].name], files[i].content)
    {
      HoldsLonger(obj, more, spans[files[i].name], files[i].content);
    }
  }

  lemma NextSpan(obj: seq<Byte>, spans: map<Name, Span>, files: seq<DirEntry>, n: nat)
    requires n < |files| && DistinctNames(files) && SpansHold(obj, spans, files, n)
    ensures SpansHold(obj + files[n].content, spans[files[n].name := Span(|obj|, |files[n].content|)], files, n + 1)
  {
    var e := files[n];
    var out, spans' := obj + e.content, spans[e.name := Span(|obj|, |e.content|)];
    SpansLonger(obj, e.content, spans, files, n);
    assert out[|obj|..|obj| + |e.content|] == e.content;
    forall i | 0 <= i < n + 1
      ensures files[i].name in spans' && Holds(out, spans'[files[i].name], files[i].content)
    {
      if i < n {
        assert files[i].name != e.name;
      }
    }
  }

  /** The object a directory bundles to: an open of it finds `meta`, whose spans hold the files. */
  ghost predicate IsBundle(c: Codec, obj: seq<Byte>, files: seq<DirEntry>, meta: Meta) {
    Open(c, obj) == Some(meta) && SpansHold(obj, meta.files, files, |files|)
  }

  method WriteBundle(c: Codec, dir: seq<DirEntry>, split: seq<int>)
    returns (obj: seq<Byte>, meta: Meta, files: seq<DirEntry>)
    requires DistinctNames(dir)
    ensures meta.split == split && (CodecOk(c, meta) ==> IsBundle(c, obj, files, meta))
    ensures forall e :: e in files <==> e in dir && Bundled(e)
  {
    files := ListFiles(dir);
    obj := [];
    var spans: map<Name, Span> := map[];
    var offset := 0;
    for i := 0 to |files|
      invariant offset == |obj| && SpansHold(obj, spans, files, i)
    {
      NextSpan(obj, spans, files, i);
      spans := spans[files[i].name := Span(offset, |files[i].content|)];
      obj := obj + files[i].content;
      offset := offset + |files[i].content|;
    }
    meta := Meta(spans, split);
    ghost var data := obj;
    obj := obj + Footer(c, meta);
    SpansLonger(data, Footer(c, meta), spans, files, |files|);
    if CodecOk(c, meta) {
      OpenFindsMeta(c, data, meta);
    }
  }

  function Footer(c: Codec, meta: Meta): seq<Byte> {
    var json := c.encode(meta);
    json + ToLE(|json|, 8) + SPLIT_MAGIC
  }

  /** The footer's bytes: the metadata, here one byte 0x7b, its length, and "RSPLIT01". */
  lemma FooterExample(c: Codec, meta: Meta)
    requires c.encode(meta) == [0x7b]
    ensures Footer(c, meta) ==
            [0x7b] + [1, 0, 0, 0, 0, 0, 0, 0] +
            ['R' as int, 'S' as int, 'P' as int, 'L' as int, 'I' as int, 'T' as int, '0' as int, '1' as int]
  {
    assert ToLE(0, 3) == [0, 0, 0] && ToLE(0, 5) == [0, 0, 0, 0, 0];
    assert ToLE(0, 7) == [0, 0, 0, 0, 0, 0, 0] && ToLE(1, 8) == [1, 0, 0, 0, 0, 0, 0, 0];
  }

  // ---- opening ----

  function ParseFooterTail(tail: seq<Byte>): Option<nat> {
    if |tail| != FOOTER_TAIL_LEN || tail[8..16] != SPLIT_MAGIC then None else Some(FromLE(tail[..8]))
  }

  /** Read the footer from the end of the object. */
  function Open(c: Codec, obj: seq<Byte>): Option<Meta> {
    var size := |obj|;
    if size < FOOTER_TAIL_LEN then None
    else
      var metaLen := ParseFooterTail(obj[size - FOOTER_TAIL_LEN..]);
      if metaLen.None? || metaLen.value > size - FOOTER_TAIL_LEN then None
      else
        var metaStart := size - FOOTER_TAIL_LEN - metaLen.value;
        c.decode(obj[metaStart..metaStart + metaLen.value])
  }

  /** Where the parts of a concatenation lie. */
  lemma Sections(a: seq<Byte>, b: seq<Byte>, c: seq<Byte>, d: seq<Byte>)
    ensures var all := a + b + c + d;
            && |all| == |a| + |b| + |c| + |d|
            && all[|a| + |b|..] == c + d && all[|a|..|a| + |b|] == b && all == a + b + (c + d)
            && (c + d)[..|c|] == c && (c + d)[|c|..|c| + |d|] == d
  {
  }

  /** Cutting anything in four and putting it together again. */
  lemma Quartered(all: seq<Byte>, i: nat, j: nat, k: nat)
    requires i <= j <= k <= |all|
    ensures all == all[..i] + all[i..j] + all[j..k] + all[k..]
    ensures all[j..][..k - j] == all[j..k] && all[j..][k - j..|all| - j] == all[k..]
  {
  }

  lemma FooterTail(len: seq<Byte>)
    requires |len| == 8
    ensures ParseFooterTail(len + SPLIT_MAGIC) == Some(FromLE(len))
  {
    Sections([], [], len, SPLIT_MAGIC);
  }

  /** With a footer tail that gives its length, the section before it is decoded. */
  lemma OpenDecodes(c: Codec, data: seq<Byte>, json: seq<Byte>, tail: seq<Byte>)
    requires ParseFooterTail(tail) == Some(|json|)
    ensures Open(c, data + json + tail) == c.decode(json)
  {
    Sections(data, json, tail, []);
    assert tail + [] == tail && data + json + tail + [] == data + json + tail;
  }

  /** Whatever precedes it, a well-formed footer is decoded. */
  lemma FooterOpens(c: Codec, data: seq<Byte>, json: seq<Byte>, len: seq<Byte>)
    requires |len| == 8 && FromLE(len) == |json|
    ensures Open(c, data + json + len + SPLIT_MAGIC) == c.decode(json)
  {
    Sections(data, json, len, SPLIT_MAGIC);
    FooterTail(len);
    OpenDecodes(c, data, json, len + SPLIT_MAGIC);
  }

  lemma OpenFindsMeta(c: Codec, data: seq<Byte>, meta: Meta)
    requires CodecOk(c, meta)
    ensures Open(c, data + Footer(c, meta)) == Some(meta)
  {
    var json := c.encode(meta);
    var len := ToLE(|json|, 8);
    assert data + Footer(c, meta) == data + json + len + SPLIT_MAGIC;
    Powers();
    FromToLE(|json|, 8);
    FooterOpens(c, data, json, len);
  }

  /** Opening succeeds exactly when the object ends in a well-formed footer: a
      decodable metadata section, its length, and the magic. */
  lemma OpenSucceedsIff(c: Codec, obj: seq<Byte>)
    ensures Open(c, obj).Some? <==>
            exists data, json, len ::
              obj == data + json + len + SPLIT_MAGIC && |len| == 8 && FromLE(len) == |json| && c.decode(json).Some?
  {
    if Open(c, obj).Some? {
      OpenedParts(c, obj);
    }
    if data, json, len :|
      obj == data + json + len + SPLIT_MAGIC && |len| == 8 && FromLE(len) == |json| && c.decode(json).Some?
    {
      FooterOpens(c, data, json, len);
    }
  }

  /** An opened object ends in the footer that was read. */
  lemma OpenedParts(c: Codec, obj: seq<Byte>)
    requires Open(c, obj).Some?
    ensures exists data, json, len ::
              obj == data + json + len + SPLIT_MAGIC && |len| == 8 && FromLE(len) == |json| && c.decode(json).Some?
  {
    var size := |obj|;
    var n := ParseFooterTail(obj[size - FOOTER_TAIL_LEN..]).value;
    var start := size - FOOTER_TAIL_LEN - n;
    Quartered(obj, start, start + n, size - 8);
  }
}
