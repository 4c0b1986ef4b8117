/** The container formats: what goes before and after each compressed payload. */
module Formats {
  import opened Bytes
  import opened Crc32
  import XXHashInstances

  datatype DataFormat = Deflate4B | DeflateGzip | DeflateGzipExt | DeflateRaw | Lz4Fh | Lz4sBk | DeflateZlib

  /** CpaDcRqResults: what the hardware reports about one request. */
  datatype Results = Results(consumed: nat, produced: nat, checksum: Word)

  function HeaderSz(fmt: DataFormat): nat {
    match fmt
    case Deflate4B => 4
    case DeflateGzip => 10
    case DeflateGzipExt => 24
    case DeflateRaw => 0
    case Lz4Fh => 15
    case Lz4sBk => 4
    case DeflateZlib => 2
  }

  function FooterSz(fmt: DataFormat): nat {
    match fmt
    case Deflate4B => 0
    case DeflateRaw => 0
    case Lz4sBk => 0
    case DeflateZlib => 4
    case _ => 8
  }

  predicate IsDeflate(fmt: DataFormat) { fmt != Lz4Fh && fmt != Lz4sBk }

  /** id1, id2, cm, flag, mtime, xfl, os of section 2.3 of RFC 1952. */
  function StdGzipHeader(flag: byte): (r: seq<byte>)
    ensures |r| == 10
  {
    [0x1f, 0x8b, 8, flag, 0, 0, 0, 0, 0, 255]
  }

  /** Extra length 12, subfield 'Q' 'Z' of length 8 holding both sizes. */
  function GzipExtHeader(consumed: nat, produced: nat): (r: seq<byte>)
    ensures |r| == 24
  {
    StdGzipHeader(4) + [12, 0] + [0x51, 0x5A, 8, 0] + LE(consumed, 4) + LE(produced, 4)
  }

  /** Flag byte: version 1, content size and content checksum present; block maximum size code 4. */
  function Lz4Descriptor(consumed: nat): (r: seq<byte>)
    ensures |r| == 10
  {
    [0x4C, 0x40] + LE(consumed, 8)
  }

  /** The second byte of the hash of the descriptor. */
  function Lz4HeaderChecksum(consumed: nat): byte {
    XXHashInstances.Alg32().Hash(0, Lz4Descriptor(consumed)) as int / 0x100 % 0x100
  }

  function Lz4HeaderWith(consumed: nat, check: byte): (r: seq<byte>)
    ensures |r| == 15
  {
    [0x04, 0x22, 0x4D, 0x18] + Lz4Descriptor(consumed) + [check]
  }

  function HeaderGen(fmt: DataFormat, res: Results): (r: seq<byte>)
    ensures |r| == HeaderSz(fmt)
  {
    match fmt
    case Deflate4B => LE(res.produced, 4)
    case DeflateGzip => StdGzipHeader(0)
    case DeflateGzipExt => GzipExtHeader(res.consumed, res.produced)
    case DeflateRaw => []
    case Lz4Fh => Lz4HeaderWith(res.consumed, Lz4HeaderChecksum(res.consumed))
    case Lz4sBk => LE(res.produced, 4)
    case DeflateZlib => [0x78, 0x9C]
  }

  function Reverse4(s: seq<byte>): (r: seq<byte>)
    requires |s| == 4
    ensures |r| == 4
  {
    [s[3], s[2], s[1], s[0]]
  }

  function GzipFooter(res: Results): (r: seq<byte>)
    ensures |r| == 8
  {
    LE(Value(res.checksum), 4) + LE(res.consumed, 4)
  }

  function Lz4Footer(checksum: Word): (r: seq<byte>)
    ensures |r| == 8
  {
    LE(0, 4) + LE(Value(checksum), 4)
  }

  const ADLER_BASE: nat := 65521

  /** The two sums of section 8.2 of RFC 1950. */
  function AdlerA(d: seq<byte>): (r: nat)
    ensures r < ADLER_BASE
  {
    if |d| == 0 then 1 else (AdlerA(d[..|d| - 1]) + d[|d| - 1]) % ADLER_BASE
  }

  function AdlerB(d: seq<byte>): (r: nat)
    ensures r < ADLER_BASE
  {
    if |d| == 0 then 0 else (AdlerB(d[..|d| - 1]) + AdlerA(d)) % ADLER_BASE
  }

  function Adler32(d: seq<byte>): (r: u32) { 0x1_0000 * AdlerB(d) + AdlerA(d) }

  /** Adler-32 of "Wikipedia". */
  lemma AdlerValue() returns (d: seq<byte>)
    ensures d == [0x57, 0x69, 0x6b, 0x69, 0x70, 0x65, 0x64, 0x69, 0x61] && Adler32(d) == 0x11E6_0398
  {
    hide AdlerA, AdlerB;
    AdlerNone();
    var d1 := AdlerStep([], 0x57, 88, 88);
    var d2 := AdlerStep(d1, 0x69, 193, 281);
    var d3 := AdlerStep(d2, 0x6b, 300, 581);
    var d4 := AdlerStep(d3, 0x69, 405, 986);
    var d5 := AdlerStep(d4, 0x70, 517, 1503);
    var d6 := AdlerStep(d5, 0x65, 618, 2121);
    var d7 := AdlerStep(d6, 0x64, 718, 2839);
    var d8 := AdlerStep(d7, 0x69, 823, 3662);
    var d9 := AdlerStep(d8, 0x61, 920, 4582);
    d := d9;
  }

  lemma AdlerNone()
    ensures AdlerA([]) == 1 && AdlerB([]) == 0
  {
  }

  lemma AdlerStep(d: seq<byte>, x: byte, a: nat, b: nat) returns (e: seq<byte>)
    requires a == (AdlerA(d) + x) % ADLER_BASE && b == (AdlerB(d) + a) % ADLER_BASE
    ensures e == d + [x] && AdlerA(e) == a && AdlerB(e) == b
  {
    e := d + [x];
    assert e[..|d|] == d;
  }

  /** The checksum a session of each format asks the hardware for. */
  function SumFor(fmt: DataFormat, d: seq<byte>): Word {
    match fmt
    case DeflateZlib => ToWord(Adler32(d))
    case Lz4Fh => ToWord(XXHashInstances.Alg32().Hash(0, d) as int)
    case Lz4sBk => ToWord(XXHashInstances.Alg32().Hash(0, d) as int)
    case _ => Crc(Zero(), d)
  }

  /** What outputFooterGen stores; Deflate4B falls into the default case. */
  function FooterGen(fmt: DataFormat, res: Results): seq<byte> {
    match fmt
    case DeflateRaw => []
    case Lz4Fh => Lz4Footer(res.checksum)
    case Lz4sBk => []
    case DeflateZlib => Reverse4(LE(Value(res.checksum), 4))
    case _ => GzipFooter(res)
  }

  /** The size function tells the truth about the footer for every format but one. */
  lemma FooterSizeAgrees(fmt: DataFormat, res: Results)
    ensures |FooterGen(fmt, res)| == FooterSz(fmt) <==> fmt != Deflate4B
    ensures fmt == Deflate4B ==> |FooterGen(fmt, res)| == 8 && FooterSz(fmt) == 0
  {
  }

  /** DEST_SZ: room reserved for the result of n source bytes. */
  function DestSz(n: nat): (r: nat)
    ensures r >= 1024 && 8 * (r - 1024) <= 9 * n < 8 * (r - 1024) + 8
  {
    9 * n / 8 + 1024
  }
}
