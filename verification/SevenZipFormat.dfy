/** The 7z end header: its contents and the bytes that stand for them. */
module SevenZipFormat {
  import opened Bytes
  import opened SevenZipNumbers
  import opened Wrappers

  const END: byte := 0x00
  const HEADER: byte := 0x01
  const ARCHIVE_PROPERTIES: byte := 0x02
  const MAIN_STREAMSINFO: byte := 0x04
  const FILESINFO: byte := 0x05
  const PACKINFO: byte := 0x06
  const UNPACKINFO: byte := 0x07
  const SUBSTREAMSINFO: byte := 0x08
  const SIZE: byte := 0x09
  const CRC: byte := 0x0a
  const FOLDER: byte := 0x0b
  const CODERS_UNPACK_SIZE: byte := 0x0c
  const NUM_UNPACK_STREAM: byte := 0x0d
  const EMPTY_STREAM: byte := 0x0e
  const EMPTY_FILE: byte := 0x0f
  const NAME: byte := 0x11
  const CTIME: byte := 0x12
  const ATIME: byte := 0x13
  const MTIME: byte := 0x14
  const ATTRIBUTES: byte := 0x15
  const DUMMY: byte := 0x19

  // ---- contents ----

  datatype Property = Property(id: u64, data: seq<byte>)

  datatype PackInfo = PackInfo(pos: u64, sizes: seq<u64>)

  /** A folder with one coder; the low four bits of first give the length of the codec id. */
  datatype Coder = Coder(first: byte, id: seq<byte>)

  datatype CodersInfo = CodersInfo(folders: seq<Coder>, unpackSizes: seq<u64>)

  /** Files per folder, the sizes of all but the last file of each, a checksum for every file. */
  datatype Substreams = Substreams(counts: seq<u64>, sizes: seq<u64>, crcs: seq<u32>)

  datatype StreamsInfo = StreamsInfo(pack: PackInfo, coders: CodersInfo, substreams: Substreams)

  datatype Item = Item(name: seq<byte>, isDir: bool, isEmpty: bool, mtime: u64, nsec: u32, attribute: u32)

  /** empties: directories and zero-byte files; files: the others. */
  datatype FilesInfo = FilesInfo(empties: seq<Item>, files: seq<Item>)

  datatype EndHeader = EndHeader(property: Property, streams: Option<StreamsInfo>, files: FilesInfo)

  // ---- lists ----

  function Numbers(ns: seq<u64>): seq<byte> {
    if |ns| == 0 then [] else Numbers(ns[..|ns| - 1]) + Encode(ns[|ns| - 1])
  }

  /** 32-bit values in the byte order of the machine. */
  function Words(ws: seq<u32>): (r: seq<byte>)
    ensures |r| == 4 * |ws|
  {
    if |ws| == 0 then [] else Words(ws[..|ws| - 1]) + LE(ws[|ws| - 1], 4)
  }

  function Sum(ns: seq<u64>): nat {
    if |ns| == 0 then 0 else Sum(ns[..|ns| - 1]) + ns[|ns| - 1]
  }

  // ---- bit vectors, most significant bit first ----

  function Ceil8(n: nat): (r: nat)
    ensures n <= 8 * r < n + 8
  {
    if n % 8 == 0 then n / 8 else n / 8 + 1
  }

  function Bit(bits: seq<bool>, k: nat): (r: nat)
    ensures r <= 1
  {
    if k < |bits| && bits[k] then 1 else 0
  }

  function PackByte(bits: seq<bool>, i: nat): byte {
    128 * Bit(bits, 8 * i) + 64 * Bit(bits, 8 * i + 1) + 32 * Bit(bits, 8 * i + 2) + 16 * Bit(bits, 8 * i + 3)
    + 8 * Bit(bits, 8 * i + 4) + 4 * Bit(bits, 8 * i + 5) + 2 * Bit(bits, 8 * i + 6) + Bit(bits, 8 * i + 7)
  }

  function Pack(bits: seq<bool>): (r: seq<byte>)
    ensures |r| == Ceil8(|bits|)
  {
    seq(Ceil8(|bits|), i requires 0 <= i => PackByte(bits, i))
  }

  function Pow2(j: nat): (r: nat)
    requires j < 8
    ensures r > 0
  {
    [1, 2, 4, 8, 16, 32, 64, 128][j]
  }

  /** Bit j of a byte: c & 1 << j. */
  predicate BitOf(c: byte, j: nat)
    requires j < 8
  {
    c / Pow2(j) % 2 == 1
  }

  type bit = x: int | 0 <= x <= 1

  lemma BitsOfByte(a: bit, b: bit, c: bit, d: bit, e: bit, f: bit, g: bit, h: bit)
    ensures var x := 128 * a + 64 * b + 32 * c + 16 * d + 8 * e + 4 * f + 2 * g + h;
      && x / 128 % 2 == a && x / 64 % 2 == b && x / 32 % 2 == c && x / 16 % 2 == d
      && x / 8 % 2 == e && x / 4 % 2 == f && x / 2 % 2 == g && x / 1 % 2 == h
  {
    var x := 128 * a + 64 * b + 32 * c + 16 * d + 8 * e + 4 * f + 2 * g + h;
    assert x / 128 == a;
    assert x / 64 == 2 * a + b;
    assert x / 32 == 4 * a + 2 * b + c;
    assert x / 16 == 8 * a + 4 * b + 2 * c + d;
    assert x / 8 == 16 * a + 8 * b + 4 * c + 2 * d + e;
    assert x / 4 == 32 * a + 16 * b + 8 * c + 4 * d + 2 * e + f;
    assert x / 2 == 64 * a + 32 * b + 16 * c + 8 * d + 4 * e + 2 * f + g;
  }

  lemma UnpackPacked(bits: seq<bool>, i: nat, j: nat)
    requires j < 8
    ensures BitOf(PackByte(bits, i), 7 - j) <==> Bit(bits, 8 * i + j) == 1
  {
    hide Bit;
    BitsOfByte(Bit(bits, 8 * i), Bit(bits, 8 * i + 1), Bit(bits, 8 * i + 2), Bit(bits, 8 * i + 3),
               Bit(bits, 8 * i + 4), Bit(bits, 8 * i + 5), Bit(bits, 8 * i + 6), Bit(bits, 8 * i + 7));
  }

  // ---- times ----

  const TICKS_PER_SEC := 1000_0000
  const DELTA_TIME := 134774 * 86400
  const U64 := 0x1_0000_0000_0000_0000

  /** unixtimeToFiletime in 64-bit arithmetic. */
  function ToFiletime(t: u64, nsec: u32): u64 {
    (t * TICKS_PER_SEC + DELTA_TIME * TICKS_PER_SEC + nsec / 100) % U64
  }

  function FromFiletime(ft: u64): u64 {
    (ft / TICKS_PER_SEC - DELTA_TIME) % U64
  }

  /** Seconds before 1970 are stored as wrapped 64-bit numbers. */
  function Signed(t: u64): int {
    if t < U64 / 2 then t else t - U64
  }

  /** The modification time in 100-ns ticks since 1601, before any wrap-around. */
  function Ticks(t: u64, nsec: u32): int {
    (Signed(t) + DELTA_TIME) * TICKS_PER_SEC + nsec / 100
  }

  /** A time survives at second resolution exactly when its tick count is a 64-bit number. */
  lemma TimeRoundTrip(t: u64, nsec: u32)
    requires nsec < 10_0000_0000
    ensures FromFiletime(ToFiletime(t, nsec)) == t <==> 0 <= Ticks(t, nsec) < U64
  {
    var ft, s := ToFiletime(t, nsec), Ticks(t, nsec);
    var q := ft / TICKS_PER_SEC;
    assert exists m: int :: s == ft + m * U64 by {
      var raw := t * TICKS_PER_SEC + DELTA_TIME * TICKS_PER_SEC + nsec / 100;
      assert raw == ft + (raw / U64) * U64;
      if t < U64 / 2 { assert s == ft + (raw / U64) * U64; }
      else { assert s == ft + (raw / U64 - TICKS_PER_SEC) * U64; }
    }
  }

  function TimeWords(items: seq<Item>): (r: seq<byte>)
    ensures |r| == 8 * |items|
  {
    if |items| == 0 then []
    else
      var x := items[|items| - 1];
      TimeWords(items[..|items| - 1]) + LE(ToFiletime(x.mtime, x.nsec) % 0x1_0000_0000, 4)
      + LE(ToFiletime(x.mtime, x.nsec) / 0x1_0000_0000, 4)
  }

  function Attributes(items: seq<Item>): (r: seq<u32>)
    ensures |r| == |items|
  {
    seq(|items|, k requires 0 <= k < |items| => items[k].attribute)
  }

  // ---- names ----

  /** Each character as a two-byte character. */
  function Wide(s: seq<byte>): (r: seq<byte>)
    ensures |r| == 2 * |s|
  {
    seq(2 * |s|, k requires 0 <= k < 2 * |s| => if k % 2 == 0 then s[k / 2] else 0)
  }

  function Names(items: seq<Item>): seq<byte> {
    if |items| == 0 then [] else Names(items[..|items| - 1]) + Wide(items[|items| - 1].name + [0])
  }

  // ---- sections ----

  /** A count or size as a number. */
  function Len(n: nat): seq<byte> { Encode(n % U64) }

  function PropertyBody(p: Property): seq<byte> {
    Encode(p.id) + Len(|p.data|) + p.data + [END]
  }

  function PackBody(p: PackInfo): seq<byte> {
    Encode(p.pos) + Len(|p.sizes|) + [SIZE] + Numbers(p.sizes) + [END]
  }

  function FolderBytes(f: Coder): seq<byte> {
    Encode(1) + [f.first] + f.id
  }

  function Folders(fs: seq<Coder>): seq<byte> {
    if |fs| == 0 then [] else Folders(fs[..|fs| - 1]) + FolderBytes(fs[|fs| - 1])
  }

  function CodersBody(c: CodersInfo): seq<byte> {
    [FOLDER] + Len(|c.folders|) + [0] + Folders(c.folders) + [CODERS_UNPACK_SIZE] + Numbers(c.unpackSizes) + [END]
  }

  function SubstreamsBody(s: Substreams): seq<byte> {
    [NUM_UNPACK_STREAM] + Numbers(s.counts) + [SIZE] + Numbers(s.sizes) + [CRC] + [1] + Words(s.crcs) + [END]
  }

  function StreamsBody(s: StreamsInfo): seq<byte> {
    [PACKINFO] + PackBody(s.pack) + [UNPACKINFO] + CodersBody(s.coders)
    + [SUBSTREAMSINFO] + SubstreamsBody(s.substreams) + [END]
  }

  function FirstSet(m: nat, n: nat): (r: seq<bool>)
    ensures |r| == n
  {
    seq(n, k => k < m)
  }

  function EmptyFlags(items: seq<Item>): (r: seq<bool>)
    ensures |r| == |items|
  {
    seq(|items|, k requires 0 <= k < |items| => items[k].isEmpty)
  }

  predicate HasEmpty(items: seq<Item>) {
    exists k :: 0 <= k < |items| && items[k].isEmpty
  }

  function All(f: FilesInfo): seq<Item> { f.empties + f.files }

  function EmptyStreamPart(f: FilesInfo): seq<byte> {
    [EMPTY_STREAM] + Len(Ceil8(|All(f)|)) + Pack(FirstSet(|f.empties|, |All(f)|))
  }

  function EmptyFilePart(f: FilesInfo): seq<byte> {
    if HasEmpty(f.empties) then [EMPTY_FILE] + Len(Ceil8(|f.empties|)) + Pack(EmptyFlags(f.empties)) else []
  }

  function DummyPart(): seq<byte> { [DUMMY] + Len(2) + [0] + [0] }

  function NamePart(items: seq<Item>): seq<byte> {
    [NAME] + Len(1 + |Names(items)|) + ([0] + Names(items))
  }

  function TimePart(items: seq<Item>): seq<byte> {
    [MTIME] + Len(8 * |items| + 2) + [1] + [0] + TimeWords(items)
  }

  function AttributePart(items: seq<Item>): seq<byte> {
    [ATTRIBUTES] + Len(4 * |items| + 2) + [1] + [0] + Words(Attributes(items))
  }

  function FilesBody(f: FilesInfo): seq<byte> {
    Len(|All(f)|) + EmptyStreamPart(f) + EmptyFilePart(f) + DummyPart()
    + NamePart(All(f)) + TimePart(All(f)) + AttributePart(All(f)) + [END]
  }

  function StreamsPart(s: Option<StreamsInfo>): seq<byte> {
    match s
    case None => []
    case Some(x) => [MAIN_STREAMSINFO] + StreamsBody(x)
  }

  function HeaderBytes(h: EndHeader): seq<byte> {
    [HEADER] + ([ARCHIVE_PROPERTIES] + PropertyBody(h.property)) + StreamsPart(h.streams)
    + ([FILESINFO] + FilesBody(h.files)) + [END]
  }

  // ---- what the generators guarantee ----

  /** The developer and sub-developer ids of this tool. */
  predicate IsOurs(id: u64) {
    && id / 0x100_0000_0000_0000 == 0x3f
    && id / 0x1_0000 % 0x100_0000_0000 == 0x51_4154_377A
    && id % 0x1_0000 == 0x0a01
  }

  /** One entry per folder, and one digest per file. */
  ghost predicate GoodStreams(s: StreamsInfo) {
    && |s.pack.sizes| < U64 && |s.coders.folders| < U64
    && |s.coders.unpackSizes| == |s.coders.folders| == |s.substreams.counts|
    && (forall k :: 0 <= k < |s.coders.folders| ==> |s.coders.folders[k].id| == s.coders.folders[k].first % 16)
    && GoodCounts(s.substreams) && Sum(s.substreams.counts) == |s.substreams.crcs|
  }

  /** Every folder has files, and sizes holds those of all but the last file of each. */
  predicate GoodCounts(s: Substreams) {
    && (forall k :: 0 <= k < |s.counts| ==> s.counts[k] > 0)
    && Sum(s.counts) == |s.sizes| + |s.counts|
  }

  ghost predicate GoodItem(x: Item) {
    && 0 !in x.name && x.nsec < 10_0000_0000 && 0 <= Ticks(x.mtime, x.nsec) < U64
  }

  ghost predicate GoodFiles(f: FilesInfo) {
    && |All(f)| < U64 && (forall k :: 0 <= k < |All(f)| ==> GoodItem(All(f)[k]))
    && (forall k :: 0 <= k < |f.empties| ==> f.empties[k].isDir != f.empties[k].isEmpty)
    && (forall k :: 0 <= k < |f.files| ==> !f.files[k].isDir && !f.files[k].isEmpty)
  }

  ghost predicate GoodHeader(h: EndHeader) {
    IsOurs(h.property.id) && |h.property.data| < 0x8000_0000 && (h.streams.Some? ==> GoodStreams(h.streams.value))
        && GoodFiles(h.files)
  }

  /** The property id that the generator stores is one the parser accepts. */
  lemma OurPropertyId()
    ensures IsOurs(0x3f51_4154_377A_0a01)
  {
  }
}
