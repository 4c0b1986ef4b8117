/** Reading the end header back: what the resolve functions return for every input, and that they
    recover what was written. None stands for the reader's error exits. */
module SevenZipParse {
  import opened Bytes
  import opened SevenZipFormat
  import opened SevenZipNumbers
  import opened Wrappers

  // ---- scalars and lists ----

  function Byte(d: seq<byte>, i: nat): (r: Option<(byte, nat)>)
    ensures r.Some? ==> i < r.value.1 <= |d|
  {
    if i < |d| then Some((d[i], i + 1)) else None
  }

  /** One byte that must have the given value. */
  function Expect(d: seq<byte>, i: nat, b: byte): (r: Option<nat>)
    ensures r.Some? ==> i < r.value <= |d|
  {
    if i < |d| && d[i] == b then Some(i + 1) else None
  }

  function Word(d: seq<byte>, i: nat): (r: Option<(u32, nat)>)
    ensures r.Some? ==> i < r.value.1 <= |d|
  {
    if i + 4 > |d| then None else
      Pow256Values();
      Some((UnLE(d[i..i + 4]), i + 4))
  }

  function ParseNumbers(d: seq<byte>, i: nat, n: nat): (r: Option<(seq<u64>, nat)>)
    ensures r.Some? ==> i <= r.value.1 && |r.value.0| == n
  {
    if n == 0 then Some(([], i))
    else
      var r :- ParseNumbers(d, i, n - 1);
      var x :- Decode(d, r.1);
      Some((r.0 + [x.0], x.1))
  }

  function ParseWords(d: seq<byte>, i: nat, n: nat): (r: Option<(seq<u32>, nat)>)
    ensures r.Some? ==> i <= r.value.1 && |r.value.0| == n
  {
    if n == 0 then Some(([], i))
    else
      var r :- ParseWords(d, i, n - 1);
      var x :- Word(d, r.1);
      Some((r.0 + [x.0], x.1))
  }

  lemma ByteAt(d: seq<byte>, i: nat, b: byte)
    requires At(d, i, [b])
    ensures i < |d| && d[i] == b && Byte(d, i) == Some((b, i + 1)) && Expect(d, i, b) == Some(i + 1)
  {
    assert [b][0] == d[i];
  }

  lemma WordAt(d: seq<byte>, i: nat, w: u32)
    requires At(d, i, LE(w, 4))
    ensures Word(d, i) == Some((w, i + 4))
  {
    assert d[i..i + 4] == LE(w, 4);
    FieldRoundTrip(w);
  }

  lemma LenAt(d: seq<byte>, i: nat, n: nat)
    requires At(d, i, Len(n)) && n < U64
    ensures Decode(d, i) == Some((n, i + |Len(n)|))
  {
    DecodeInvertsEncode(d, i, n);
  }

  lemma {:induction false} NumbersAt(d: seq<byte>, i: nat, ns: seq<u64>)
    requires At(d, i, Numbers(ns))
    ensures ParseNumbers(d, i, |ns|) == Some((ns, i + |Numbers(ns)|))
    decreases |ns|
  {
    hide Decode, Encode;
    if |ns| > 0 {
      var n := |ns| - 1;
      AtConcat(d, i, Numbers(ns[..n]), Encode(ns[n]));
      NumbersAt(d, i, ns[..n]);
      DecodeInvertsEncode(d, i + |Numbers(ns[..n])|, ns[n]);
      assert ns == ns[..n] + [ns[n]];
    } else { assert ns == []; }
  }

  lemma {:induction false} WordsAt(d: seq<byte>, i: nat, ws: seq<u32>)
    requires At(d, i, Words(ws))
    ensures ParseWords(d, i, |ws|) == Some((ws, i + |Words(ws)|))
    decreases |ws|
  {
    hide Word;
    if |ws| > 0 {
      var n := |ws| - 1;
      AtConcat(d, i, Words(ws[..n]), LE(ws[n], 4));
      WordsAt(d, i, ws[..n]);
      WordAt(d, i + |Words(ws[..n])|, ws[n]);
      assert ws == ws[..n] + [ws[n]];
    } else { assert ws == []; }
  }

  // ---- archive properties ----

  /** resolveArchiveProperties: checks the id, skips the data, expects the end. */
  function ParseProperty(d: seq<byte>, i: nat): (r: Option<(u64, nat)>)
    ensures r.Some? ==> i < r.value.1
  {
    var id :- Decode(d, i);
    if !IsOurs(id.0) then None else
    var size :- Decode(d, id.1);
    if size.0 >= 0x8000_0000 then None else
    var j :- Expect(d, size.1 + size.0, END);
    Some((id.0, j))
  }

  lemma PropertyAt(d: seq<byte>, i: nat, p: Property)
    requires At(d, i, PropertyBody(p)) && IsOurs(p.id) && |p.data| < 0x8000_0000
    ensures ParseProperty(d, i) == Some((p.id, i + |PropertyBody(p)|))
  {
    hide Decode, Encode, Len, IsOurs;
    var a := Encode(p.id);
    var b := a + Len(|p.data|);
    var e := b + p.data;
    AtConcat(d, i, e, [END]);
    AtConcat(d, i, b, p.data);
    AtConcat(d, i, a, Len(|p.data|));
    DecodeInvertsEncode(d, i, p.id);
    LenAt(d, i + |a|, |p.data|);
    ByteAt(d, i + |e|, END);
  }

  // ---- streams ----

  function ParsePack(d: seq<byte>, i: nat): (r: Option<(PackInfo, nat)>)
    ensures r.Some? ==> i < r.value.1
  {
    var pos :- Decode(d, i);
    var n :- Decode(d, pos.1);
    var j :- Expect(d, n.1, SIZE);
    var sizes :- ParseNumbers(d, j, n.0);
    var k :- Expect(d, sizes.1, END);
    Some((PackInfo(pos.0, sizes.0), k))
  }

  lemma PackAt(d: seq<byte>, i: nat, p: PackInfo)
    requires At(d, i, PackBody(p)) && |p.sizes| < U64
    ensures ParsePack(d, i) == Some((p, i + |PackBody(p)|))
  {
    hide Decode, Encode, Len, Numbers, ParseNumbers;
    var a := Encode(p.pos);
    var b := a + Len(|p.sizes|);
    var e := b + [SIZE];
    var f := e + Numbers(p.sizes);
    AtConcat(d, i, f, [END]);
    AtConcat(d, i, e, Numbers(p.sizes));
    AtConcat(d, i, b, [SIZE]);
    AtConcat(d, i, a, Len(|p.sizes|));
    DecodeInvertsEncode(d, i, p.pos);
    LenAt(d, i + |a|, |p.sizes|);
    ByteAt(d, i + |b|, SIZE);
    NumbersAt(d, i + |e|, p.sizes);
    ByteAt(d, i + |f|, END);
  }

  /** One folder: the number of coders, then the first byte and the id of one coder. */
  function ParseFolder(d: seq<byte>, i: nat): (r: Option<(Coder, nat)>)
    ensures r.Some? ==> i < r.value.1
  {
    var count :- Byte(d, i);
    var first :- Byte(d, count.1);
    var n := first.0 % 16;
    if first.1 + n > |d| then None else Some((Coder(first.0, d[first.1..first.1 + n]), first.1 + n))
  }

  function ParseFolders(d: seq<byte>, i: nat, n: nat): (r: Option<(seq<Coder>, nat)>)
    ensures r.Some? ==> i <= r.value.1 && |r.value.0| == n
  {
    if n == 0 then Some(([], i))
    else
      var r :- ParseFolders(d, i, n - 1);
      var x :- ParseFolder(d, r.1);
      Some((r.0 + [x.0], x.1))
  }

  lemma FolderAt(d: seq<byte>, i: nat, f: Coder)
    requires At(d, i, FolderBytes(f)) && |f.id| == f.first % 16
    ensures ParseFolder(d, i) == Some((f, i + |FolderBytes(f)|))
  {
    assert Encode(1) == [1];
    AtConcat(d, i, [1] + [f.first], f.id);
    AtConcat(d, i, [1], [f.first]);
    ByteAt(d, i, 1);
    ByteAt(d, i + 1, f.first);
    assert d[i + 2..i + 2 + |f.id|] == f.id;
  }

  lemma {:induction false} FoldersAt(d: seq<byte>, i: nat, fs: seq<Coder>)
    requires At(d, i, Folders(fs)) && forall k :: 0 <= k < |fs| ==> |fs[k].id| == fs[k].first % 16
    ensures ParseFolders(d, i, |fs|) == Some((fs, i + |Folders(fs)|))
    decreases |fs|
  {
    hide ParseFolder, FolderBytes;
    if |fs| > 0 {
      var n := |fs| - 1;
      AtConcat(d, i, Folders(fs[..n]), FolderBytes(fs[n]));
      FoldersAt(d, i, fs[..n]);
      FolderAt(d, i + |Folders(fs[..n])|, fs[n]);
      assert fs == fs[..n] + [fs[n]];
    } else { assert fs == []; }
  }

  /** index: the data stream index that replaces the folders when they are external. */
  datatype ReadCoders = ReadCoders(count: u64, folders: seq<Coder>, index: Option<u64>, unpackSizes: seq<u64>)

  function ParseCoders(d: seq<byte>, i: nat): (r: Option<(ReadCoders, nat)>)
    ensures r.Some? ==> i < r.value.1
  {
    var a :- Expect(d, i, FOLDER);
    var n :- Decode(d, a);
    var external :- Byte(d, n.1);
    if external.0 == 0 then
      var folders :- ParseFolders(d, external.1, n.0);
      var sizes :- ParseUnpackSizes(d, folders.1, n.0);
      Some((ReadCoders(n.0, folders.0, None, sizes.0), sizes.1))
    else if external.0 == 1 then
      var index :- Decode(d, external.1);
      var sizes :- ParseUnpackSizes(d, index.1, n.0);
      Some((ReadCoders(n.0, [], Some(index.0), sizes.0), sizes.1))
    else None
  }

  function ParseUnpackSizes(d: seq<byte>, i: nat, n: nat): (r: Option<(seq<u64>, nat)>)
    ensures r.Some? ==> i < r.value.1 && |r.value.0| == n
  {
    var j :- Expect(d, i, CODERS_UNPACK_SIZE);
    var sizes :- ParseNumbers(d, j, n);
    var k :- Expect(d, sizes.1, END);
    Some((sizes.0, k))
  }

  lemma CodersAt(d: seq<byte>, i: nat, c: CodersInfo)
    requires At(d, i, CodersBody(c)) && |c.folders| == |c.unpackSizes| < U64
    requires forall k :: 0 <= k < |c.folders| ==> |c.folders[k].id| == c.folders[k].first % 16
    ensures ParseCoders(d, i) == Some((ReadCoders(|c.folders|, c.folders, None, c.unpackSizes), i + |CodersBody(c)|))
  {
    hide Decode, Encode, Len, Numbers, ParseNumbers, Folders, ParseFolders;
    var a := [FOLDER] + Len(|c.folders|);
    var b := a + [0];
    var e := b + Folders(c.folders);
    var f := e + [CODERS_UNPACK_SIZE];
    var g := f + Numbers(c.unpackSizes);
    AtConcat(d, i, g, [END]);
    AtConcat(d, i, f, Numbers(c.unpackSizes));
    AtConcat(d, i, e, [CODERS_UNPACK_SIZE]);
    AtConcat(d, i, b, Folders(c.folders));
    AtConcat(d, i, a, [0]);
    AtConcat(d, i, [FOLDER], Len(|c.folders|));
    ByteAt(d, i, FOLDER);
    LenAt(d, i + 1, |c.folders|);
    ByteAt(d, i + |a|, 0);
    FoldersAt(d, i + |b|, c.folders);
    ByteAt(d, i + |e|, CODERS_UNPACK_SIZE);
    NumbersAt(d, i + |f|, c.unpackSizes);
    ByteAt(d, i + |g|, END);
  }

  /** What resolveSubstreamsInfo has found so far; the checksums are read and dropped. */
  datatype Sub = Sub(counts: Option<seq<u64>>, sizes: Option<seq<u64>>, digests: Option<nat>) {
    function Total(): nat {
      match counts case None => 1 case Some(ns) => Sum(ns)
    }
  }

  predicate IsSubTag(c: byte) { c == NUM_UNPACK_STREAM || c == SIZE || c == CRC }

  /** One section behind its tag; no section twice. */
  function SubSection(d: seq<byte>, i: nat, c: byte, folders: nat, st: Sub): (r: Option<(Sub, nat)>)
    requires IsSubTag(c)
    ensures r.Some? ==> i <= r.value.1
  {
    if c == NUM_UNPACK_STREAM then
      if st.counts.Some? then None else
      var ns :- ParseNumbers(d, i, folders);
      Some((st.(counts := Some(ns.0)), ns.1))
    else if c == SIZE then
      if st.sizes.Some? || st.Total() < folders then None else
      var ns :- ParseNumbers(d, i, st.Total() - folders);
      Some((st.(sizes := Some(ns.0)), ns.1))
    else
      if st.digests.Some? then None else
      var j :- Expect(d, i, 1);
      var ws :- ParseWords(d, j, st.Total());
      Some((st.(digests := Some(st.Total())), ws.1))
  }

  /** The tag loop of resolveSubstreamsInfo: sections in any order. */
  function ParseSub(d: seq<byte>, i: nat, folders: nat, st: Sub): (r: Option<(Sub, nat)>)
    ensures r.Some? ==> i < r.value.1
    decreases |d| - i
  {
    var c :- Byte(d, i);
    if c.0 == END then Some((st, c.1))
    else if IsSubTag(c.0) then
      var t :- SubSection(d, c.1, c.0, folders, st);
      ParseSub(d, t.1, folders, t.0)
    else None
  }

  const NO_SUB := Sub(None, None, None)

  lemma SubCounts(d: seq<byte>, i: nat, ns: seq<u64>)
    requires At(d, i, [NUM_UNPACK_STREAM] + Numbers(ns))
    ensures ParseSub(d, i, |ns|, NO_SUB) == ParseSub(d, i + 1 + |Numbers(ns)|, |ns|, Sub(Some(ns), None, None))
  {
    hide Numbers, ParseNumbers;
    AtConcat(d, i, [NUM_UNPACK_STREAM], Numbers(ns));
    ByteAt(d, i, NUM_UNPACK_STREAM);
    NumbersAt(d, i + 1, ns);
  }

  lemma SubSizes(d: seq<byte>, i: nat, folders: nat, st: Sub, ns: seq<u64>)
    requires At(d, i, [SIZE] + Numbers(ns)) && st.sizes.None? && st.Total() == folders + |ns|
    ensures ParseSub(d, i, folders, st) == ParseSub(d, i + 1 + |Numbers(ns)|, folders, st.(sizes := Some(ns)))
  {
    hide Numbers, ParseNumbers;
    AtConcat(d, i, [SIZE], Numbers(ns));
    ByteAt(d, i, SIZE);
    NumbersAt(d, i + 1, ns);
  }

  lemma SubDigests(d: seq<byte>, i: nat, folders: nat, st: Sub, ws: seq<u32>)
    requires At(d, i, [CRC] + [1] + Words(ws)) && At(d, i + 2 + |Words(ws)|, [END]) && st.digests.None?
             && st.Total() == |ws|
    ensures ParseSub(d, i, folders, st) == Some((st.(digests := Some(|ws|)), i + 3 + |Words(ws)|))
  {
    hide Words, ParseWords;
    AtConcat(d, i, [CRC] + [1], Words(ws));
    AtConcat(d, i, [CRC], [1]);
    ByteAt(d, i, CRC);
    ByteAt(d, i + 1, 1);
    WordsAt(d, i + 2, ws);
    ByteAt(d, i + 2 + |Words(ws)|, END);
  }

  lemma SubAt(d: seq<byte>, i: nat, s: Substreams)
    requires At(d, i, SubstreamsBody(s)) && Sum(s.counts) == |s.crcs| == |s.sizes| + |s.counts|
    ensures ParseSub(d, i, |s.counts|, NO_SUB) ==
            Some((Sub(Some(s.counts), Some(s.sizes), Some(|s.crcs|)), i + |SubstreamsBody(s)|))
  {
    hide Numbers, Words, Sum, ParseSub;
    var a := [NUM_UNPACK_STREAM] + Numbers(s.counts);
    var b := [SIZE] + Numbers(s.sizes);
    var e := [CRC] + [1] + Words(s.crcs);
    assert SubstreamsBody(s) == a + b + e + [END];
    AtConcat(d, i, a + b + e, [END]);
    AtConcat(d, i, a + b, e);
    AtConcat(d, i, a, b);
    SubCounts(d, i, s.counts);
    var st := Sub(Some(s.counts), None, None);
    SubSizes(d, i + |a|, |s.counts|, st, s.sizes);
    SubDigests(d, i + |a| + |b|, |s.counts|, st.(sizes := Some(s.sizes)), s.crcs);
  }

  datatype ReadStreams = ReadStreams(pack: Option<PackInfo>, coders: Option<ReadCoders>, sub: Option<Sub>)

  predicate IsStreamsTag(c: byte) { c == PACKINFO || c == UNPACKINFO || c == SUBSTREAMSINFO }

  /** One section behind its tag; no section twice, substreams only after the coders. */
  function StreamsSection(d: seq<byte>, i: nat, c: byte, st: ReadStreams): (r: Option<(ReadStreams, nat)>)
    requires IsStreamsTag(c)
    ensures r.Some? ==> i < r.value.1
  {
    if c == PACKINFO then
      if st.pack.Some? then None else
      var p :- ParsePack(d, i);
      Some((st.(pack := Some(p.0)), p.1))
    else if c == UNPACKINFO then
      if st.coders.Some? then None else
      var x :- ParseCoders(d, i);
      Some((st.(coders := Some(x.0)), x.1))
    else
      if st.sub.Some? || st.coders.None? then None else
      var x :- ParseSub(d, i, st.coders.value.count, NO_SUB);
      Some((st.(sub := Some(x.0)), x.1))
  }

  /** The tag loop of resolveMainStreamsInfo. */
  function ParseStreams(d: seq<byte>, i: nat, st: ReadStreams): (r: Option<(ReadStreams, nat)>)
    ensures r.Some? ==> i < r.value.1
    decreases |d| - i
  {
    var c :- Byte(d, i);
    if c.0 == END then Some((st, c.1))
    else if IsStreamsTag(c.0) then
      var t :- StreamsSection(d, c.1, c.0, st);
      ParseStreams(d, t.1, t.0)
    else None
  }

  const NO_STREAMS := ReadStreams(None, None, None)

  /** What a reader should recover of the streams: everything but the checksums. */
  function Recovered(s: StreamsInfo): ReadStreams
    requires |s.coders.folders| < U64
  {
    ReadStreams(Some(s.pack), Some(ReadCoders(|s.coders.folders|, s.coders.folders, None, s.coders.unpackSizes)),
                Some(Sub(Some(s.substreams.counts), Some(s.substreams.sizes), Some(|s.substreams.crcs|))))
  }

  lemma StreamsAt(d: seq<byte>, i: nat, s: StreamsInfo)
    requires At(d, i, StreamsBody(s)) && GoodStreams(s)
    ensures ParseStreams(d, i, NO_STREAMS) == Some((Recovered(s), i + |StreamsBody(s)|))
  {
    hide PackBody, ParsePack, CodersBody, ParseCoders, SubstreamsBody, ParseSub, Sum;
    var a := [PACKINFO] + PackBody(s.pack);
    var b := a + [UNPACKINFO];
    var e := b + CodersBody(s.coders);
    var f := e + [SUBSTREAMSINFO];
    var g := f + SubstreamsBody(s.substreams);
    AtConcat(d, i, g, [END]);
    AtConcat(d, i, f, SubstreamsBody(s.substreams));
    AtConcat(d, i, e, [SUBSTREAMSINFO]);
    AtConcat(d, i, b, CodersBody(s.coders));
    AtConcat(d, i, a, [UNPACKINFO]);
    AtConcat(d, i, [PACKINFO], PackBody(s.pack));
    var r := Recovered(s);
    var s1 := NO_STREAMS.(pack := r.pack);
    var s2 := s1.(coders := r.coders);
    assert ParseStreams(d, i + |g|, r) == Some((r, i + |g| + 1)) by { ByteAt(d, i + |g|, END); }
    assert ParseStreams(d, i + |e|, s2) == ParseStreams(d, i + |g|, r) by {
      ByteAt(d, i + |e|, SUBSTREAMSINFO); SubAt(d, i + |f|, s.substreams);
    }
    assert ParseStreams(d, i + |a|, s1) == ParseStreams(d, i + |e|, s2) by {
      ByteAt(d, i + |a|, UNPACKINFO); CodersAt(d, i + |b|, s.coders);
    }
    assert ParseStreams(d, i, NO_STREAMS) == ParseStreams(d, i + |a|, s1) by {
      ByteAt(d, i, PACKINFO); PackAt(d, i + 1, s.pack);
    }
  }
}
