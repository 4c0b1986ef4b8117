/** What the bytes of an end header say to any 7z tool, beyond what this one reads back: the digests,
    the sizes of all sections, the data behind them. */
module SevenZipLayout {
  import opened Bytes
  import opened SevenZipFiles
  import opened SevenZipFormat
  import opened SevenZipNumbers
  import opened SevenZipParse
  import opened Wrappers

  // ---- the digests ----

  /** A reader of the substreams that keeps the digests it finds. */
  function SubDigestsOf(d: seq<byte>, i: nat, folders: nat, st: Sub): Option<seq<u32>>
    decreases |d| - i
  {
    var c :- Byte(d, i);
    if c.0 == CRC then
      var j :- Expect(d, c.1, 1);
      var ws :- ParseWords(d, j, st.Total());
      Some(ws.0)
    else if IsSubTag(c.0) then
      var t :- SubSection(d, c.1, c.0, folders, st);
      SubDigestsOf(d, t.1, folders, t.0)
    else None
  }

  /** The same from the streams section on. */
  function StreamsDigestsOf(d: seq<byte>, i: nat, st: ReadStreams): Option<seq<u32>>
    decreases |d| - i
  {
    var c :- Byte(d, i);
    if c.0 == SUBSTREAMSINFO then
      if st.coders.None? then None else SubDigestsOf(d, c.1, st.coders.value.count, NO_SUB)
    else if IsStreamsTag(c.0) then
      var t :- StreamsSection(d, c.1, c.0, st);
      StreamsDigestsOf(d, t.1, t.0)
    else None
  }

  /** The same from the end header on. */
  function DigestsOf(d: seq<byte>, i: nat): Option<seq<u32>>
  {
    var j :- Expect(d, i, HEADER);
    var k :- Expect(d, j, ARCHIVE_PROPERTIES);
    var p :- ParseProperty(d, k);
    var l :- Expect(d, p.1, MAIN_STREAMSINFO);
    StreamsDigestsOf(d, l, NO_STREAMS)
  }

  lemma CountsThenDigests(d: seq<byte>, i: nat, ns: seq<u64>)
    requires At(d, i, [NUM_UNPACK_STREAM] + Numbers(ns))
    ensures SubDigestsOf(d, i, |ns|, NO_SUB)
         == SubDigestsOf(d, i + 1 + |Numbers(ns)|, |ns|, Sub(Some(ns), None, None))
  {
    hide Numbers, ParseNumbers;
    AtConcat(d, i, [NUM_UNPACK_STREAM], Numbers(ns));
    ByteAt(d, i, NUM_UNPACK_STREAM);
    NumbersAt(d, i + 1, ns);
  }

  lemma SizesThenDigests(d: seq<byte>, i: nat, folders: nat, st: Sub, ns: seq<u64>)
    requires At(d, i, [SIZE] + Numbers(ns)) && st.sizes.None? && st.Total() == folders + |ns|
    ensures SubDigestsOf(d, i, folders, st) == SubDigestsOf(d, i + 1 + |Numbers(ns)|, folders, st.(sizes := Some(ns)))
  {
    hide Numbers, ParseNumbers;
    AtConcat(d, i, [SIZE], Numbers(ns));
    ByteAt(d, i, SIZE);
    NumbersAt(d, i + 1, ns);
  }

  lemma ThenDigests(d: seq<byte>, i: nat, folders: nat, st: Sub, ws: seq<u32>)
    requires At(d, i, [CRC] + [1] + Words(ws)) && st.Total() == |ws|
    ensures SubDigestsOf(d, i, folders, st) == Some(ws)
  {
    hide Words, ParseWords;
    AtConcat(d, i, [CRC] + [1], Words(ws));
    AtConcat(d, i, [CRC], [1]);
    ByteAt(d, i, CRC);
    ByteAt(d, i + 1, 1);
    WordsAt(d, i + 2, ws);
  }

  lemma SubDigestsAt(d: seq<byte>, i: nat, s: Substreams)
    requires At(d, i, SubstreamsBody(s)) && Sum(s.counts) == |s.crcs| == |s.sizes| + |s.counts|
    ensures SubDigestsOf(d, i, |s.counts|, NO_SUB) == Some(s.crcs)
  {
    hide Numbers, Words, Sum, SubDigestsOf;
    var a := [NUM_UNPACK_STREAM] + Numbers(s.counts);
    var b := [SIZE] + Numbers(s.sizes);
    var e := [CRC] + [1] + Words(s.crcs);
    assert SubstreamsBody(s) == a + b + e + [END];
    AtConcat(d, i, a + b + e, [END]);
    AtConcat(d, i, a + b, e);
    AtConcat(d, i, a, b);
    CountsThenDigests(d, i, s.counts);
    var st := Sub(Some(s.counts), None, None);
    SizesThenDigests(d, i + |a|, |s.counts|, st, s.sizes);
    ThenDigests(d, i + |a| + |b|, |s.counts|, st.(sizes := Some(s.sizes)), s.crcs);
  }

  lemma StreamsDigestsAt(d: seq<byte>, i: nat, s: StreamsInfo)
    requires At(d, i, StreamsBody(s)) && GoodStreams(s)
    ensures StreamsDigestsOf(d, i, NO_STREAMS) == Some(s.substreams.crcs)
  {
    hide PackBody, ParsePack, CodersBody, ParseCoders, SubstreamsBody, SubDigestsOf, Sum, ParseSub;
    var a := [PACKINFO] + PackBody(s.pack);
    var b := a + [UNPACKINFO];
    var e := b + CodersBody(s.coders);
    var f := e + [SUBSTREAMSINFO];
    AtConcat(d, i, f + SubstreamsBody(s.substreams), [END]);
    AtConcat(d, i, f, SubstreamsBody(s.substreams));
    AtConcat(d, i, e, [SUBSTREAMSINFO]);
    AtConcat(d, i, b, CodersBody(s.coders));
    AtConcat(d, i, a, [UNPACKINFO]);
    AtConcat(d, i, [PACKINFO], PackBody(s.pack));
    var r := Recovered(s);
    var s1 := NO_STREAMS.(pack := r.pack);
    var s2 := s1.(coders := r.coders);
    assert StreamsDigestsOf(d, i + |e|, s2) == Some(s.substreams.crcs) by {
      ByteAt(d, i + |e|, SUBSTREAMSINFO); SubDigestsAt(d, i + |f|, s.substreams);
    }
    assert StreamsDigestsOf(d, i + |a|, s1) == StreamsDigestsOf(d, i + |e|, s2) by {
      ByteAt(d, i + |a|, UNPACKINFO); CodersAt(d, i + |b|, s.coders);
    }
    assert StreamsDigestsOf(d, i, NO_STREAMS) == StreamsDigestsOf(d, i + |a|, s1) by {
      ByteAt(d, i, PACKINFO); PackAt(d, i + 1, s.pack);
    }
  }

  /** The digests found in a written end header are the checksums of the files, one for one. */
  lemma DigestsAt(d: seq<byte>, i: nat, h: EndHeader)
    requires At(d, i, HeaderBytes(h)) && GoodHeader(h) && h.streams.Some?
    ensures DigestsOf(d, i) == Some(h.streams.value.substreams.crcs)
  {
    hide PropertyBody, FilesBody, GoodFiles, IsOurs, StreamsBody, StreamsDigestsOf, ParseProperty, Sum, GoodStreams;
    var p := [ARCHIVE_PROPERTIES] + PropertyBody(h.property);
    var a := [HEADER] + p;
    var s := [MAIN_STREAMSINFO] + StreamsBody(h.streams.value);
    AtConcat(d, i, a + s + ([FILESINFO] + FilesBody(h.files)), [END]);
    AtConcat(d, i, a + s, [FILESINFO] + FilesBody(h.files));
    AtConcat(d, i, a, s);
    AtConcat(d, i, [HEADER], p);
    AtConcat(d, i + 1, [ARCHIVE_PROPERTIES], PropertyBody(h.property));
    AtConcat(d, i + |a|, [MAIN_STREAMSINFO], StreamsBody(h.streams.value));
    ByteAt(d, i, HEADER);
    ByteAt(d, i + 1, ARCHIVE_PROPERTIES);
    PropertyAt(d, i + 2, h.property);
    ByteAt(d, i + |a|, MAIN_STREAMSINFO);
    StreamsDigestsAt(d, i + |a| + 1, h.streams.value);
  }

  // ---- the data of the archive property ----

  /** A reader of the archive property that keeps its data. */
  function PropertyOf(d: seq<byte>, i: nat): Option<(Property, nat)> {
    var id :- Decode(d, i);
    var size :- Decode(d, id.1);
    if size.1 + size.0 > |d| then None else
    var j :- Expect(d, size.1 + size.0, END);
    Some((Property(id.0, d[size.1..size.1 + size.0]), j))
  }

  lemma PropertyDataAt(d: seq<byte>, i: nat, p: Property)
    requires At(d, i, PropertyBody(p)) && |p.data| < U64
    ensures PropertyOf(d, i) == Some((p, i + |PropertyBody(p)|))
  {
    hide Decode, Encode, Len;
    var a := Encode(p.id);
    var b := a + Len(|p.data|);
    var e := b + p.data;
    AtConcat(d, i, e, [END]);
    AtConcat(d, i, b, p.data);
    AtConcat(d, i, a, Len(|p.data|));
    DecodeInvertsEncode(d, i, p.id);
    LenAt(d, i + |a|, |p.data|);
    ByteAt(d, i + |e|, END);
    assert d[i + |b|..i + |b| + |p.data|] == p.data;
  }

  // ---- the files section, tag by tag ----

  /** A section that any reader can skip: its tag and its data. */
  datatype Section = Section(tag: byte, data: seq<byte>)

  /** The sections from i on, cut by the sizes behind their tags, up to the end mark. */
  function SectionsOf(d: seq<byte>, i: nat): Option<seq<Section>>
    decreases |d| - i
  {
    var c :- Byte(d, i);
    if c.0 == 0 then Some([])
    else
      var size :- Decode(d, c.1);
      if size.1 + size.0 > |d| then None else
      var rest :- SectionsOf(d, size.1 + size.0);
      Some([Section(c.0, d[size.1..size.1 + size.0])] + rest)
  }

  lemma OneSection(d: seq<byte>, i: nat, tag: byte, data: seq<byte>)
    requires tag != 0 && |data| < U64 && At(d, i, [tag] + Len(|data|) + data)
    ensures var j := i + |[tag] + Len(|data|) + data|;
      SectionsOf(d, i) == match SectionsOf(d, j) case None => None case Some(r) => Some([Section(tag, data)] + r)
  {
    hide Decode, Encode, Len;
    var a := [tag] + Len(|data|);
    AtConcat(d, i, a, data);
    AtConcat(d, i, [tag], Len(|data|));
    ByteAt(d, i, tag);
    LenAt(d, i + 1, |data|);
    assert d[i + |a|..i + |a| + |data|] == data;
  }

  /** What the sections should be. */
  function SectionsFor(f: FilesInfo): seq<Section> {
    [Section(0x0e, Pack(FirstSet(|f.empties|, |All(f)|)))]
    + (if HasEmpty(f.empties) then [Section(0x0f, Pack(EmptyFlags(f.empties)))] else [])
    + SectionsForTail(All(f))
  }

  function SectionsForTail(items: seq<Item>): seq<Section> {
    [Section(0x19, [0, 0]), Section(0x11, [0] + Names(items)), Section(0x14, [1, 0] + TimeWords(items)),
     Section(0x15, [1, 0] + Words(Attributes(items)))]
  }

  lemma TailSections(d: seq<byte>, i: nat, f: FilesInfo)
    requires At(d, i, Tail(f)) && 8 * |All(f)| + 2 < U64 && 1 + |Names(All(f))| < U64
    ensures SectionsOf(d, i) == Some(SectionsForTail(All(f)))
  {
    hide Len, Names, TimeWords, Words, Attributes, SectionsOf;
    var x := All(f);
    var names, times, attrs := [0] + Names(x), [1, 0] + TimeWords(x), [1, 0] + Words(Attributes(x));
    var a := [0x19] + Len(2) + [0, 0];
    var b := [0x11] + Len(|names|) + names;
    var c := [0x14] + Len(|times|) + times;
    var e := [0x15] + Len(|attrs|) + attrs;
    TailIs(f, a, b, c, e);
    AtConcat(d, i, a + b + c + e, [0]);
    AtConcat(d, i, a + b + c, e);
    AtConcat(d, i, a + b, c);
    AtConcat(d, i, a, b);
    OneSection(d, i, 0x19, [0, 0]);
    OneSection(d, i + |a|, 0x11, names);
    OneSection(d, i + |a| + |b|, 0x14, times);
    OneSection(d, i + |a| + |b| + |c|, 0x15, attrs);
    SectionsEnd(d, i + |a| + |b| + |c| + |e|);
    JoinFour(Section(0x19, [0, 0]), Section(0x11, names), Section(0x14, times), Section(0x15, attrs));
  }

  lemma JoinFour(a: Section, b: Section, c: Section, e: Section)
    ensures [a] + ([b] + ([c] + ([e] + []))) == [a, b, c, e]
  {
  }

  lemma SectionsEnd(d: seq<byte>, i: nat)
    requires At(d, i, [0])
    ensures SectionsOf(d, i) == Some([])
  {
    ByteAt(d, i, 0);
  }

  lemma TailIs(f: FilesInfo, a: seq<byte>, b: seq<byte>, c: seq<byte>, e: seq<byte>)
    requires var x := All(f);
      && a == [0x19] + Len(2) + [0, 0] && b == [0x11] + Len(1 + |Names(x)|) + ([0] + Names(x))
      && c == [0x14] + Len(8 * |x| + 2) + ([1, 0] + TimeWords(x))
      && e == [0x15] + Len(4 * |x| + 2) + ([1, 0] + Words(Attributes(x)))
    ensures Tail(f) == a + b + c + e + [0]
  {
    hide Len, Names, TimeWords, Words, Attributes;
    var x := All(f);
    assert DummyPart() == a;
    assert NamePart(x) == b;
    assert TimePart(x) == c;
    assert AttributePart(x) == e;
  }

  /** Behind the number of files, the sections follow one another exactly as their sizes say, with the
      tags and the data of the format: the bit vectors, two bytes of padding, the names, the times as
      modification times, and the attributes. */
  lemma SectionsAt(d: seq<byte>, i: nat, f: FilesInfo)
    requires At(d, i, FilesBody(f)) && 8 * |All(f)| + 2 < U64 && 1 + |Names(All(f))| < U64
    ensures Decode(d, i) == Some((|All(f)|, i + |Len(|All(f)|)|))
    ensures SectionsOf(d, i + |Len(|All(f)|)|) == Some(SectionsFor(f))
  {
    hide Len, Tail, FilesBody, SectionsOf, Pack, FirstSet, EmptyFlags, SectionsForTail, Decode, Names;
    FilesBodySplits(d, i, f);
    LenAt(d, i, |All(f)|);
    var j := i + |Len(|All(f)|)|;
    var k := j + |EmptyStreamPart(f)|;
    var l := k + |EmptyFilePart(f)|;
    TailSections(d, l, f);
    OneSection(d, j, 0x0e, Pack(FirstSet(|f.empties|, |All(f)|)));
    if HasEmpty(f.empties) {
      OneSection(d, k, 0x0f, Pack(EmptyFlags(f.empties)));
    }
    var first, tail := Section(0x0e, Pack(FirstSet(|f.empties|, |All(f)|))), SectionsForTail(All(f));
    assert [first] + [] + tail == [first] + tail;
    if HasEmpty(f.empties) {
      var second := Section(0x0f, Pack(EmptyFlags(f.empties)));
      assert [first] + [second] + tail == [first] + ([second] + tail);
    }
  }

  // ---- the data behind the tags ----

  /** Item k's time is eight bytes, least significant first. */
  lemma {:induction false} TimeField(items: seq<Item>, k: nat)
    requires k < |items|
    ensures UnLE(TimeWords(items)[8 * k..8 * k + 8]) == ToFiletime(items[k].mtime, items[k].nsec)
    decreases |items|
  {
    hide ToFiletime, LE, UnLE;
    var n, x := |items| - 1, items[|items| - 1];
    var ft := ToFiletime(x.mtime, x.nsec);
    var front := TimeWords(items[..n]);
    if k < n {
      TimeField(items[..n], k);
      assert TimeWords(items)[8 * k..8 * k + 8] == front[8 * k..8 * k + 8];
    } else {
      assert TimeWords(items)[8 * k..8 * k + 8] == LE(ft % 0x1_0000_0000, 4) + LE(ft / 0x1_0000_0000, 4);
      TwoHalves(ft);
    }
  }

  lemma TwoHalves(x: u64)
    ensures UnLE(LE(x % 0x1_0000_0000, 4) + LE(x / 0x1_0000_0000, 4)) == x
  {
    FieldRoundTrip(x % 0x1_0000_0000);
    FieldRoundTrip(x / 0x1_0000_0000);
    Pow256Values();
    UnLEJoins(LE(x % 0x1_0000_0000, 4), LE(x / 0x1_0000_0000, 4));
  }

  lemma {:induction false} UnLEJoins(a: seq<byte>, b: seq<byte>)
    ensures UnLE(a + b) == UnLE(a) + Pow256(|a|) * UnLE(b)
    decreases |a|
  {
    if |a| == 0 {
      assert a + b == b;
    } else {
      hide UnLE, Pow256;
      assert (a + b)[1..] == a[1..] + b;
      UnLEStep(a);
      UnLEStep(a + b);
      UnLEJoins(a[1..], b);
      PowStep(|a| - 1, UnLE(b));
    }
  }

  lemma UnLEStep(s: seq<byte>)
    requires |s| > 0
    ensures UnLE(s) == s[0] + 0x100 * UnLE(s[1..])
  {
  }

  lemma PowStep(k: nat, x: nat)
    ensures Pow256(k + 1) * x == 0x100 * (Pow256(k) * x)
  {
  }

  lemma {:induction false} AttributeField(ws: seq<u32>, k: nat)
    requires k < |ws|
    ensures UnLE(Words(ws)[4 * k..4 * k + 4]) == ws[k]
    decreases |ws|
  {
    hide LE, UnLE;
    var n := |ws| - 1;
    var front := Words(ws[..n]);
    if k < n {
      AttributeField(ws[..n], k);
      assert Words(ws)[4 * k..4 * k + 4] == front[4 * k..4 * k + 4];
    } else {
      assert Words(ws)[4 * k..4 * k + 4] == LE(ws[n], 4);
      FieldRoundTrip(ws[n]);
    }
  }

  /** 1 January 1970 in ticks of 100 ns since 1601; a second has ten million of them. */
  lemma EpochTicks(t: u64)
    requires t < 0x100_0000_0000
    ensures ToFiletime(0, 0) == 116_444_736_000_000_000
    ensures ToFiletime(t, 0) == ToFiletime(0, 0) + t as int * 10_000_000
  {
  }
}
