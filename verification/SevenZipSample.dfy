/** A small end header, byte by byte: one folder with two files, a directory and an empty file. */
module SevenZipSample {
  import opened Bytes
  import opened SevenZipFormat
  import opened SevenZipNumbers
  import opened Wrappers

  function Dir(): Item { Item(['d' as int], true, false, 0, 0, 0x10) }
  function Empty(): Item { Item(['e' as int], false, true, 0, 0, 0x20) }
  function Small(): Item { Item(['f' as int], false, false, 1, 0, 0x8020) }
  function Large(): Item { Item(['g' as int, 'h' as int], false, false, 0, 200, 0x0102_0304) }

  function Streams(): StreamsInfo {
    StreamsInfo(PackInfo(0, [5]), CodersInfo([Coder(3, [4, 1, 8])], [300]),
                Substreams([2], [100], [0x0102_0304, 0xA0B0_C0D0]))
  }

  function Header(): EndHeader {
    EndHeader(Property(0x3f51_4154_377A_0a01, []), Some(Streams()), FilesInfo([Dir(), Empty()], [Small(), Large()]))
  }

  lemma Small1(n: u64)
    requires n < 0x80
    ensures Encode(n) == [n]
  {
    assert Pow256(0) == 1 && LE(n, 0) == [];
  }

  lemma FourLE(x: u32)
    ensures LE(x, 4) == [x % 0x100, x / 0x100 % 0x100, x / 0x1_0000 % 0x100, x / 0x100_0000]
  {
    var a, b, c := x / 0x100, x / 0x1_0000, x / 0x100_0000;
    assert a / 0x100 == b && b / 0x100 == c && c / 0x100 == 0;
    assert LE(c, 1) == [c] + LE(0, 0) == [c];
    assert LE(b, 2) == [b % 0x100] + LE(c, 1);
    assert LE(a, 3) == [a % 0x100] + LE(b, 2);
  }

  lemma PropertyBytes()
    ensures PropertyBody(Header().property) == [0xff, 0x01, 0x0a, 0x7a, 0x37, 0x54, 0x41, 0x51, 0x3f, 0, 0]
  {
    Small1(0);
    var id: u64 := 0x3f51_4154_377A_0a01;
    LongNumber(id);
    assert Len(0) == [0];
  }

  lemma LongNumber(id: u64)
    requires id == 0x3f51_4154_377A_0a01
    ensures Encode(id) == [0xff, 0x01, 0x0a, 0x7a, 0x37, 0x54, 0x41, 0x51, 0x3f]
  {
    hide Pow256;
    Pow256All();
    assert Extra(id) == 8;
    assert LE(0x3f, 1) == [0x3f] by { assert LE(0, 0) == []; }
    assert LE(0x3f51, 2) == [0x51] + LE(0x3f, 1);
    assert LE(0x3f_5141, 3) == [0x41] + LE(0x3f51, 2);
    assert LE(0x3f51_4154, 4) == [0x54] + LE(0x3f_5141, 3);
    assert LE(0x3f_5141_5437, 5) == [0x37] + LE(0x3f51_4154, 4);
    assert LE(0x3f51_4154_377A, 6) == [0x7A] + LE(0x3f_5141_5437, 5);
    assert LE(0x3f_5141_5437_7A0a, 7) == [0x0a] + LE(0x3f51_4154_377A, 6);
    assert LE(id, 8) == [0x01] + LE(0x3f_5141_5437_7A0a, 7);
  }

  lemma OneNumber(n: u64)
    ensures Numbers([n]) == Encode(n)
  {
    assert [n][..0] == [] && Numbers([]) == [] && [] + Encode(n) == Encode(n);
  }

  lemma Number300()
    ensures Encode(300) == [0x81, 0x2c]
  {
    assert Extra(300) == 1 && Pow256(1) == 0x100;
    assert LE(300, 1) == [44] + LE(1, 0) && LE(1, 0) == [];
  }

  lemma PackBytes()
    ensures PackBody(Streams().pack) == [0, 1, 0x09, 5, 0]
  {
    Small1(0); Small1(1); Small1(5);
    OneNumber(5);
    assert Len(1) == [1];
  }

  lemma CodersBytes()
    ensures CodersBody(Streams().coders) == [0x0b, 1, 0, 1, 3, 4, 1, 8, 0x0c, 0x81, 0x2c, 0]
  {
    Small1(1);
    Number300();
    OneNumber(300);
    var c := Coder(3, [4, 1, 8]);
    assert FolderBytes(c) == [1, 3, 4, 1, 8];
    assert [c][..0] == [] && Folders([]) == [] && Folders([c]) == [] + FolderBytes(c);
    assert Len(1) == [1];
  }

  lemma SubstreamsBytes()
    ensures SubstreamsBody(Streams().substreams)
         == [0x0d, 2, 0x09, 100, 0x0a, 1, 0x04, 0x03, 0x02, 0x01, 0xD0, 0xC0, 0xB0, 0xA0, 0]
  {
    hide Numbers, Words, Encode, LE;
    Small1(2); Small1(100);
    OneNumber(2); OneNumber(100);
    TwoWords(0x0102_0304, 0xA0B0_C0D0);
    FourLE(0x0102_0304); FourLE(0xA0B0_C0D0);
  }

  lemma TwoWords(a: u32, b: u32)
    ensures Words([a, b]) == LE(a, 4) + LE(b, 4)
  {
    hide LE;
    assert [a, b][..1] == [a] && [a][..0] == [] && Words([]) == [];
    assert Words([a]) == [] + LE(a, 4) == LE(a, 4);
  }

  lemma StreamsBytes()
    ensures StreamsBody(Streams())
         == [0x06] + [0, 1, 0x09, 5, 0] + [0x07] + [0x0b, 1, 0, 1, 3, 4, 1, 8, 0x0c, 0x81, 0x2c, 0] + [0x08]
            + [0x0d, 2, 0x09, 100, 0x0a, 1, 0x04, 0x03, 0x02, 0x01, 0xD0, 0xC0, 0xB0, 0xA0, 0] + [0]
  {
    hide PackBody, CodersBody, SubstreamsBody;
    PackBytes();
    CodersBytes();
    SubstreamsBytes();
  }

  function Items(): (r: seq<Item>)
    ensures |r| == 4
  {
    [Dir(), Empty(), Small(), Large()]
  }

  lemma FlagBytes()
    ensures Pack(FirstSet(2, 4)) == [0xC0] && Pack(EmptyFlags([Dir(), Empty()])) == [0x40]
    ensures HasEmpty([Dir(), Empty()])
  {
    var a, b := FirstSet(2, 4), EmptyFlags([Dir(), Empty()]);
    assert a == [true, true, false, false] && b == [false, true];
    assert PackByte(a, 0) == 0xC0 && PackByte(b, 0) == 0x40;
    assert Ceil8(4) == 1 && Ceil8(2) == 1;
    assert [Dir(), Empty()][1].isEmpty;
  }

  lemma NameBytes()
    ensures Names(Items()) == [0x64, 0, 0, 0, 0x65, 0, 0, 0, 0x66, 0, 0, 0, 0x67, 0, 0x68, 0, 0, 0]
  {
    hide Wide;
    var x := Items();
    assert x[..3] == [x[0], x[1], x[2]] && [x[0], x[1], x[2]][..2] == [x[0], x[1]] && [x[0], x[1]][..1] == [x[0]];
    assert [x[0]][..0] == [] && Names([]) == [];
    WideOne(0x64); WideOne(0x65); WideOne(0x66);
    WideTwo(0x67, 0x68);
    assert Names([x[0]]) == [0x64, 0, 0, 0];
    assert Names([x[0], x[1]]) == [0x64, 0, 0, 0] + [0x65, 0, 0, 0];
    assert Names([x[0], x[1], x[2]]) == [0x64, 0, 0, 0] + [0x65, 0, 0, 0] + [0x66, 0, 0, 0];
  }

  lemma WideOne(c: byte)
    ensures Wide([c] + [0]) == [c, 0, 0, 0]
  {
  }

  lemma WideTwo(c: byte, e: byte)
    ensures Wide([c, e] + [0]) == [c, 0, e, 0, 0, 0]
  {
  }

  lemma OneTime(x: Item, low: u32, high: u32)
    requires ToFiletime(x.mtime, x.nsec) == high * 0x1_0000_0000 + low
    ensures forall front: seq<Item> :: TimeWords(front + [x]) == TimeWords(front) + LE(low, 4) + LE(high, 4)
  {
    hide LE, ToFiletime, TimeWords;
    forall front: seq<Item> ensures TimeWords(front + [x]) == TimeWords(front) + LE(low, 4) + LE(high, 4) {
      LastTime(front, x);
    }
  }

  lemma LastTime(front: seq<Item>, x: Item)
    ensures TimeWords(front + [x]) == TimeWords(front) + LE(ToFiletime(x.mtime, x.nsec) % 0x1_0000_0000, 4)
                                      + LE(ToFiletime(x.mtime, x.nsec) / 0x1_0000_0000, 4)
  {
    hide LE, ToFiletime;
    assert (front + [x])[..|front|] == front;
  }

  lemma Ticks()
    ensures ToFiletime(0, 0) == 0x019D_B1DE_D53E_8000 && ToFiletime(1, 0) == 0x019D_B1DE_D5D7_1680
    ensures ToFiletime(0, 200) == 0x019D_B1DE_D53E_8002
  {
  }

  lemma TimeBytes()
    ensures TimeWords(Items())
         == [0x00, 0x80, 0x3E, 0xD5, 0xDE, 0xB1, 0x9D, 0x01] + [0x00, 0x80, 0x3E, 0xD5, 0xDE, 0xB1, 0x9D, 0x01]
            + [0x80, 0x16, 0xD7, 0xD5, 0xDE, 0xB1, 0x9D, 0x01] + [0x02, 0x80, 0x3E, 0xD5, 0xDE, 0xB1, 0x9D, 0x01]
  {
    hide LE, TimeWords, ToFiletime;
    Ticks();
    FourLE(0xD53E_8000); FourLE(0x019D_B1DE); FourLE(0xD5D7_1680); FourLE(0xD53E_8002);
    OneTime(Dir(), 0xD53E_8000, 0x019D_B1DE);
    OneTime(Empty(), 0xD53E_8000, 0x019D_B1DE);
    OneTime(Small(), 0xD5D7_1680, 0x019D_B1DE);
    OneTime(Large(), 0xD53E_8002, 0x019D_B1DE);
    NoTimes();
    assert Items() == [] + [Dir()] + [Empty()] + [Small()] + [Large()];
  }

  lemma NoTimes()
    ensures TimeWords([]) == []
  {
  }

  lemma AttributeBytes()
    ensures Words(Attributes(Items()))
         == [0x10, 0, 0, 0, 0x20, 0, 0, 0, 0x20, 0x80, 0, 0, 0x04, 0x03, 0x02, 0x01]
  {
    hide LE;
    var ws: seq<u32> := [0x10, 0x20, 0x8020, 0x0102_0304];
    assert Attributes(Items()) == ws;
    assert ws[..3] == [0x10, 0x20, 0x8020] && ws[..3][..2] == [0x10, 0x20];
    TwoWords(0x10, 0x20);
    FourLE(0x10); FourLE(0x20); FourLE(0x8020); FourLE(0x0102_0304);
  }

  /** The bytes of the property, of the streams and of the files. */
  function PropertyPart(): seq<byte> { [0xff, 0x01, 0x0a, 0x7a, 0x37, 0x54, 0x41, 0x51, 0x3f, 0, 0] }

  function StreamsLiteral(): seq<byte> {
    [0x06] + [0, 1, 0x09, 5, 0] + [0x07] + [0x0b, 1, 0, 1, 3, 4, 1, 8, 0x0c, 0x81, 0x2c, 0] + [0x08]
    + [0x0d, 2, 0x09, 100, 0x0a, 1, 0x04, 0x03, 0x02, 0x01, 0xD0, 0xC0, 0xB0, 0xA0, 0] + [0]
  }

  function NamesLiteral(): seq<byte> {
    [0x11] + [19] + ([0] + [0x64, 0, 0, 0, 0x65, 0, 0, 0, 0x66, 0, 0, 0, 0x67, 0, 0x68, 0, 0, 0])
  }

  function TimesLiteral(): seq<byte> {
    [0x14] + [34] + [1] + [0]
    + ([0x00, 0x80, 0x3E, 0xD5, 0xDE, 0xB1, 0x9D, 0x01] + [0x00, 0x80, 0x3E, 0xD5, 0xDE, 0xB1, 0x9D, 0x01]
       + [0x80, 0x16, 0xD7, 0xD5, 0xDE, 0xB1, 0x9D, 0x01] + [0x02, 0x80, 0x3E, 0xD5, 0xDE, 0xB1, 0x9D, 0x01])
  }

  function AttributesLiteral(): seq<byte> {
    [0x15] + [18] + [1] + [0] + [0x10, 0, 0, 0, 0x20, 0, 0, 0, 0x20, 0x80, 0, 0, 0x04, 0x03, 0x02, 0x01]
  }

  function FilesLiteral(): seq<byte> {
    [4] + [0x0e, 1, 0xC0] + [0x0f, 1, 0x40] + [0x19, 2, 0, 0] + NamesLiteral() + TimesLiteral() + AttributesLiteral()
    + [0]
  }

  lemma TailBytes()
    ensures DummyPart() == [0x19, 2, 0, 0] && NamePart(Items()) == NamesLiteral()
    ensures TimePart(Items()) == TimesLiteral() && AttributePart(Items()) == AttributesLiteral()
  {
    hide Names, TimeWords, Words, Attributes, Encode, Items;
    NameBytes();
    TimeBytes();
    AttributeBytes();
    Small1(2); Small1(19); Small1(34); Small1(18);
    assert Len(2) == [2] && Len(19) == [19] && Len(34) == [34] && Len(18) == [18];
  }

  lemma FlagParts(f: FilesInfo)
    requires f == Header().files
    ensures All(f) == Items() && Len(|All(f)|) == [4]
    ensures EmptyStreamPart(f) == [0x0e, 1, 0xC0] && EmptyFilePart(f) == [0x0f, 1, 0x40]
  {
    hide Pack, FirstSet, EmptyFlags, Encode, Dir, Empty, Small, Large;
    FlagBytes();
    Small1(4); Small1(1);
    assert All(f) == Items();
    assert Ceil8(4) == 1 && Ceil8(2) == 1;
    assert Len(4) == [4] && Len(1) == [1];
  }

  lemma FilesBytes()
    ensures FilesBody(Header().files) == FilesLiteral()
  {
    hide DummyPart, NamePart, TimePart, AttributePart, EmptyStreamPart, EmptyFilePart, All, Len, Items, NamesLiteral,
        TimesLiteral, AttributesLiteral;
    FlagParts(Header().files);
    TailBytes();
  }

  /** The end header of this archive, as any 7z tool would expect it. */
  lemma SampleBytes()
    ensures HeaderBytes(Header()) == [0x01] + ([0x02] + PropertyPart()) + ([0x04] + StreamsLiteral())
                                     + ([0x05] + FilesLiteral()) + [0x00]
  {
    hide PropertyBody, StreamsBody, FilesBody, PropertyPart, StreamsLiteral, FilesLiteral;
    Parts();
  }

  lemma Parts()
    ensures PropertyBody(Header().property) == PropertyPart() && StreamsBody(Streams()) == StreamsLiteral()
    ensures FilesBody(Header().files) == FilesLiteral()
  {
    hide PropertyBody, StreamsBody, FilesBody, FilesLiteral;
    PropertyBytes();
    StreamsBytes();
    FilesBytes();
  }
}
