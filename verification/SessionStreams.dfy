/** What sessions of each format leave in the destination: every frame field by field, and for the
    formats whose frames begin with a length, the list of payloads that a reader gets back. */
module SessionStreams {
  import opened Bytes
  import opened CompressCases
  import opened CompressInvariant
  import CompressOverrun
  import opened CompressProtocol
  import opened CompressRuns
  import opened CompressScenarios
  import opened Crc32
  import opened Formats
  import opened Framing
  import L = Lz4s
  import opened Wrappers
  import XXHashInstances

  // ---- one frame ----

  /** Four bytes, most significant first. */
  function LoadBig(s: seq<byte>, i: nat): nat
    requires i + 4 <= |s|
  {
    s[i] as int * 0x100_0000 + s[i + 1] as int * 0x1_0000 + s[i + 2] as int * 0x100 + s[i + 3]
  }

  /** ID1, ID2, CM, FLG, MTIME, XFL and OS of section 2.3.1 of RFC 1952. */
  predicate GzipStart(f: seq<byte>, flags: byte)
    requires |f| >= 10
  {
    && f[0] == 31 && f[1] == 139 && f[2] == 8 && f[3] == flags
    && Load(f, 4, 4) == 0 && f[8] == 0 && f[9] == 255
  }

  /** CRC32 and ISIZE of the same section. */
  predicate GzipEnd(f: seq<byte>, i: nat, d: seq<byte>)
    requires i + 8 <= |f|
  {
    Load(f, i, 4) == Value(Crc(Zero(), d)) && Load(f, i + 4, 4) == |d|
  }

  /** f is a frame of its format that holds the payload p of the data d. */
  predicate Member(fmt: DataFormat, f: seq<byte>, p: seq<byte>, d: seq<byte>) {
    match fmt
    case DeflateRaw => f == p
    case Deflate4B => |f| == 4 + |p| && Load(f, 0, 4) == |p| && f[4..] == p
    case Lz4sBk => |f| == 4 + |p| && Load(f, 0, 4) == |p| && f[4..] == p
    case DeflateGzip => |f| == 18 + |p| && GzipStart(f, 0) && f[10..10 + |p|] == p && GzipEnd(f, 10 + |p|, d)
    case DeflateGzipExt =>
      && |f| == 32 + |p| && GzipStart(f, 4) && Load(f, 10, 2) == 12
      && f[12] == 'Q' as int && f[13] == 'Z' as int && Load(f, 14, 2) == 8
      && Load(f, 16, 4) == |d| && Load(f, 20, 4) == |p| && f[24..24 + |p|] == p && GzipEnd(f, 24 + |p|, d)
    case DeflateZlib =>
      && |f| == 6 + |p| && f[0] % 16 == 8 && f[0] / 16 == 7         // deflate, window of 32 KB
      && (f[0] as int * 0x100 + f[1]) % 31 == 0 && f[1] / 0x20 % 2 == 0 && f[1] / 0x40 == 2
      && f[2..2 + |p|] == p && LoadBig(f, 2 + |p|) == Adler32(d)
    case Lz4Fh =>
      && |f| == 23 + |p| && Load(f, 0, 4) == 0x184D_2204
      && f[4] == 0x4C && f[5] == 0x40 && Load(f, 6, 8) == |d|
      && f[14] == XXHashInstances.Alg32().Hash(0, f[4..14]) as int / 0x100 % 0x100
      && f[15..15 + |p|] == p && Load(f, 15 + |p|, 4) == 0
      && Load(f, 19 + |p|, 4) == XXHashInstances.Alg32().Hash(0, d) as int
  }

  lemma PayloadAt(f: seq<byte>, head: seq<byte>, p: seq<byte>, tail: seq<byte>)
    requires f == head + p + tail
    ensures At(f, 0, head) && At(f, |head|, p) && At(f, |head| + |p|, tail) && f[|head|..|head| + |p|] == p
  {
  }

  lemma GzipFields(f: seq<byte>, flags: byte)
    requires At(f, 0, StdGzipHeader(flags))
    ensures |f| >= 10 && GzipStart(f, flags)
  {
    hide LE;
    var h := StdGzipHeader(flags);
    forall k | 0 <= k < 10 ensures f[k] == h[k] {}
    assert f[4..8] == [0, 0, 0, 0];
    Pow256Values();
    assert LE(0, 4) == [0, 0, 0, 0] by { ZeroField(); }
    LoadAt(f, 4, 0, 4);
  }

  lemma ZeroField()
    ensures LE(0, 4) == [0, 0, 0, 0]
  {
    assert LE(0, 1) == [0] && LE(0, 2) == [0, 0] && LE(0, 3) == [0, 0, 0];
  }

  lemma GzipTail(f: seq<byte>, i: nat, res: Results, d: seq<byte>)
    requires At(f, i, GzipFooter(res)) && res.checksum == Crc(Zero(), d) && res.consumed == |d| < 0x1_0000_0000
    ensures i + 8 <= |f| && GzipEnd(f, i, d)
  {
    hide LE, Crc;
    Pow256Values();
    ValueFits(res.checksum);
    AtConcat(f, i, LE(Value(res.checksum), 4), LE(res.consumed, 4));
    LoadAt(f, i, Value(res.checksum), 4);
    LoadAt(f, i + 4, res.consumed, 4);
  }

  /** A register made from a 32-bit number holds it. */
  lemma {:induction false} ValueOfBits(x: nat, n: nat)
    requires x < Pow2To(n)
    ensures Value(seq(n, i requires 0 <= i < n => Bit(x, i))) == x
  {
    if n > 0 {
      var w := seq(n, i requires 0 <= i < n => Bit(x, i));
      var v := seq(n - 1, i requires 0 <= i < n - 1 => Bit(x / 2, i));
      assert w[1..] == v;
      ValueOfBits(x / 2, n - 1);
    }
  }

  lemma ValueOfWord(x: u32)
    ensures Value(ToWord(x)) == x
  {
    Pow2To32();
    ValueOfBits(x, 32);
    assert ToWord(x) == seq(32, i requires 0 <= i < 32 => Bit(x, i));
  }

  // ---- each format ----

  lemma GzipMember(f: seq<byte>, p: seq<byte>, d: seq<byte>, res: Results)
    requires res == Results(|d|, |p|, Crc(Zero(), d)) && |d| < WRAP
    requires f == HeaderGen(DeflateGzip, res) + p + FooterGen(DeflateGzip, res)
    ensures Member(DeflateGzip, f, p, d)
  {
    hide Crc, GzipStart, GzipEnd, StdGzipHeader, GzipFooter;
    PayloadAt(f, StdGzipHeader(0), p, GzipFooter(res));
    GzipFields(f, 0);
    GzipTail(f, 10 + |p|, res, d);
  }

  lemma GzipExtMember(f: seq<byte>, p: seq<byte>, d: seq<byte>, res: Results)
    requires res == Results(|d|, |p|, Crc(Zero(), d)) && |d| < WRAP && |p| < WRAP
    requires f == HeaderGen(DeflateGzipExt, res) + p + FooterGen(DeflateGzipExt, res)
    ensures Member(DeflateGzipExt, f, p, d)
  {
    hide Crc, GzipStart, GzipEnd, GzipExtHeader, GzipFooter, Load;
    PayloadAt(f, GzipExtHeader(|d|, |p|), p, GzipFooter(res));
    GzipExtFields(f, |d|, |p|);
    GzipTail(f, 24 + |p|, res, d);
  }

  lemma GzipExtFields(f: seq<byte>, consumed: nat, produced: nat)
    requires At(f, 0, GzipExtHeader(consumed, produced)) && consumed < WRAP && produced < WRAP
    ensures |f| >= 24 && GzipStart(f, 4) && Load(f, 10, 2) == 12
    ensures f[12] == 'Q' as int && f[13] == 'Z' as int && Load(f, 14, 2) == 8
    ensures Load(f, 16, 4) == consumed && Load(f, 20, 4) == produced
  {
    hide LE, StdGzipHeader, GzipStart;
    Pow256Values();
    var a: seq<byte> := StdGzipHeader(4) + [12, 0];
    var tag: seq<byte> := [0x51, 0x5A, 8, 0];
    AtConcat(f, 0, a + tag + LE(consumed, 4), LE(produced, 4));
    AtConcat(f, 0, a + tag, LE(consumed, 4));
    AtConcat(f, 0, a, tag);
    AtConcat(f, 0, StdGzipHeader(4), [12, 0]);
    GzipFields(f, 4);
    TwoBytes(f, 10, 12);
    assert tag == [0x51, 0x5A] + [8, 0];
    AtConcat(f, 12, [0x51, 0x5A], [8, 0]);
    TwoBytes(f, 14, 8);
    assert [0x51, 0x5A][0] == f[12] && [0x51, 0x5A][1] == f[13];
    LoadAt(f, 16, consumed, 4);
    LoadAt(f, 20, produced, 4);
  }

  lemma SizedMember(f: seq<byte>, p: seq<byte>)
    requires f == LE(|p|, 4) + p && |p| < WRAP
    ensures |f| == 4 + |p| && Load(f, 0, 4) == |p| && f[4..] == p
  {
    Pow256Values();
    AtConcat(f, 0, LE(|p|, 4), p);
    LoadAt(f, 0, |p|, 4);
  }

  lemma BigAt(f: seq<byte>, i: nat, x: u32)
    requires At(f, i, Reverse4(LE(x, 4)))
    ensures i + 4 <= |f| && LoadBig(f, i) == x
  {
    hide LE;
    var s := LE(x, 4);
    var r := Reverse4(s);
    assert r[0] == f[i] && r[1] == f[i + 1] && r[2] == f[i + 2] && r[3] == f[i + 3];
    FieldRoundTrip(x);
    FourBytes(s);
  }

  lemma FourBytes(s: seq<byte>)
    requires |s| == 4
    ensures UnLE(s) == s[0] + 0x100 * s[1] as int + 0x1_0000 * s[2] as int + 0x100_0000 * s[3] as int
  {
    assert s[1..][1..] == s[2..] && s[2..][1..] == s[3..] && s[3..][1..] == [];
    assert UnLE([]) == 0;
    assert UnLE(s[3..]) == s[3];
    assert UnLE(s[2..]) == s[2] + 0x100 * s[3] as int;
    assert UnLE(s[1..]) == s[1] + 0x100 * UnLE(s[2..]);
  }

  lemma ZlibMember(f: seq<byte>, p: seq<byte>, d: seq<byte>, res: Results)
    requires res == Results(|d|, |p|, ToWord(Adler32(d)))
    requires f == HeaderGen(DeflateZlib, res) + p + FooterGen(DeflateZlib, res)
    ensures Member(DeflateZlib, f, p, d)
  {
    hide LE, Reverse4, Adler32, LoadBig, ToWord;
    PayloadAt(f, [0x78, 0x9C], p, Reverse4(LE(Value(ToWord(Adler32(d))), 4)));
    ValueOfWord(Adler32(d));
    BigAt(f, 2 + |p|, Adler32(d));
  }

  lemma Lz4Member(f: seq<byte>, p: seq<byte>, d: seq<byte>, res: Results)
    requires res == Results(|d|, |p|, SumFor(Lz4Fh, d)) && |d| < WRAP
    requires f == HeaderGen(Lz4Fh, res) + p + FooterGen(Lz4Fh, res)
    ensures Member(Lz4Fh, f, p, d)
  {
    hide LE, Lz4HeaderChecksum, Load, Lz4Footer, ToWord;
    PayloadAt(f, HeaderGen(Lz4Fh, res), p, FooterGen(Lz4Fh, res));
    Lz4Fields(f, res);
    Lz4Bytes(f, |d|);
    ValueOfWord(XXHashInstances.Alg32().Hash(0, d) as int);
    EndMarkAt(f, 15 + |p|, res.checksum);
  }

  lemma Lz4Bytes(f: seq<byte>, consumed: nat)
    requires At(f, 0, Lz4HeaderWith(consumed, Lz4HeaderChecksum(consumed)))
    ensures |f| >= 15 && f[5] == 0x40
    ensures f[14] == XXHashInstances.Alg32().Hash(0, f[4..14]) as int / 0x100 % 0x100
  {
    hide LE, Lz4HeaderChecksum, Lz4Descriptor;
    var h := Lz4HeaderWith(consumed, Lz4HeaderChecksum(consumed));
    assert h[14] == f[14] && f[4..14] == h[4..14] == Lz4Descriptor(consumed);
    SecondFlag(f, consumed);
    HeaderSum(consumed);
  }

  lemma HeaderSum(consumed: nat)
    ensures Lz4HeaderChecksum(consumed)
         == XXHashInstances.Alg32().Hash(0, Lz4Descriptor(consumed)) as int / 0x100 % 0x100
  {
  }

  lemma SecondFlag(f: seq<byte>, consumed: nat)
    requires |f| >= 14 && f[4..14] == Lz4Descriptor(consumed)
    ensures f[5] == 0x40
  {
    assert f[5] == f[4..14][1];
  }

  lemma MemberWritten(fmt: DataFormat, f: seq<byte>, p: seq<byte>, d: seq<byte>, res: Results)
    requires res == Results(|d|, |p|, SumFor(fmt, d)) && |d| < WRAP && |p| < WRAP
    requires f == HeaderGen(fmt, res) + p + if fmt == Deflate4B then [] else FooterGen(fmt, res)
    ensures Member(fmt, f, p, d)
  {
    hide Member, GzipExtHeader, GzipFooter, StdGzipHeader, Lz4HeaderWith, Lz4Footer, Reverse4, Crc, ToWord, Adler32;
    match fmt
    case DeflateRaw => RawMember(f, p, d);
    case Deflate4B => SizedIsMember(fmt, f, p, d);
    case Lz4sBk => SizedIsMember(fmt, f, p, d);
    case DeflateGzip => GzipMember(f, p, d, res);
    case DeflateGzipExt => GzipExtMember(f, p, d, res);
    case DeflateZlib => ZlibMember(f, p, d, res);
    case Lz4Fh => Lz4Member(f, p, d, res);
  }

  lemma RawMember(f: seq<byte>, p: seq<byte>, d: seq<byte>)
    requires f == [] + p + []
    ensures Member(DeflateRaw, f, p, d)
  {
  }

  lemma SizedIsMember(fmt: DataFormat, f: seq<byte>, p: seq<byte>, d: seq<byte>)
    requires (fmt == Deflate4B || fmt == Lz4sBk) && f == LE(|p|, 4) + p + [] && |p| < WRAP
    ensures Member(fmt, f, p, d)
  {
    assert f == LE(|p|, 4) + p;
    SizedMember(f, p);
  }

  // ---- room ----

  /** The room offered for a chunk of n bytes holds, together with the header, nine bits for every byte
      and 1024 bytes more, and no more than that, unless the destination is smaller. */
  lemma NineBitsFit(c: Config, n: nat, size: nat)
    requires c.Sized()
    ensures size <= c.Room(n) <==> 8 * (c.hdrSz + size) <= 9 * n + 8 * 1024 && c.hdrSz + size <= c.destSz
  {
  }

  /** Nor is such a frame turned down for its size when it is decompressed. */
  lemma NeverTooLarge(fmt: DataFormat, s: seq<byte>, f: Frame, destAvail: nat, hwBuff: nat, swBackup: bool)
    requires Framed(fmt) && At(s, 0, f.Bytes(fmt)) && GoodFrame(fmt, f)
    requires 8 * |f.payload| <= 9 * hwBuff + 8 * 1024 && f.res.consumed <= hwBuff
    requires 0 < destAvail && f.res.consumed <= destAvail
    ensures CheckHeader(fmt, s, destAvail, hwBuff, swBackup) == Accept(|f.payload|, f.res.consumed)
  {
    hide CheckHeader, GoodFrame, Frame.Bytes;
    CheckAccepts(fmt, s, f, destAvail, hwBuff, swBackup);
  }

  // ---- sessions ----

  /** The configuration writes the headers and footers of its format and asks for its checksum. */
  ghost predicate Uses(c: Config, fmt: DataFormat) {
    && c.Valid() && c.hdrSz == HeaderSz(fmt) && c.ftrSz == FooterSz(fmt)
    && (forall r: Results :: c.header(r) == HeaderGen(fmt, r))
    && (forall r: Results :: c.footer(r) == FooterGen(fmt, r))
    && (forall d: Data :: c.sumOf(d) == SumFor(fmt, d))
  }

  lemma SessionUses(
    fmt: DataFormat, src: Data, hwBuffSz: nat, destSz: nat, slotCount: nat, swBackup: bool, singleThread: bool,
    wantCrc: bool, crc0: Word, payloadOf: (Data, Data) -> bool, swFrameOf: (Data, Data) -> bool)
    ensures var c := ConfigFor(fmt, src, hwBuffSz, destSz, slotCount, swBackup, singleThread, wantCrc, crc0,
            payloadOf, swFrameOf);
      Uses(c, fmt) <==> hwBuffSz > 0 && slotCount > 0 && HeaderSz(fmt) <= destSz
  {
    hide HeaderGen, FooterGen, SumFor, Config.Valid;
    SessionsAreValid(fmt, src, hwBuffSz, destSz, slotCount, swBackup, singleThread, wantCrc, crc0, payloadOf,
        swFrameOf);
  }

  /** What the hardware's contract and the room it is given say of a payload. */
  lemma Sizes(c: Config, r: Rec)
    requires c.Valid() && c.hwBuffSz < 0x8000_0000 && r.Hw? && GoodRec(c, r)
    ensures |c.Chunk(r.chunk)| <= c.hwBuffSz < WRAP && |r.payload| < WRAP
    ensures c.payloadOf(c.Chunk(r.chunk), r.payload)
  {
  }

  lemma FrameParts(c: Config, fmt: DataFormat, r: Rec)
    requires Uses(c, fmt) && r.Hw?
    ensures var d := c.Chunk(r.chunk);
      var res := Results(|d|, |r.payload|, SumFor(fmt, d));
      FrameOf(c, r) == HeaderGen(fmt, res) + r.payload + if fmt == Deflate4B then [] else FooterGen(fmt, res)
  {
    hide HeaderGen, FooterGen, SumFor, Config.Chunk;
    var d := c.Chunk(r.chunk);
    var res := Results(|d|, |r.payload|, SumFor(fmt, d));
    assert ResultOf(c, r.chunk, r.payload) == res;
    FooterSizeAgrees(fmt, res);
    assert FooterSz(Deflate4B) == 0;
  }

  /** Every chunk that the hardware compressed is in the destination as a frame of the session's format
      whose fields are those of the chunk and of its payload, whatever the interleaving was. */
  lemma FramesAreMembers(c: Config, fmt: DataFormat, s: State, i: nat)
    requires Uses(c, fmt) && c.hwBuffSz < 0x8000_0000 && Reachable(c, s) && i < |s.out.log| && s.out.log[i].Hw?
    ensures s.out.outLen == |Flat(c, s.out.log)| <= |s.out.mem| && s.out.mem[..s.out.outLen] == Flat(c, s.out.log)
    ensures var r := s.out.log[i]; Member(fmt, FrameOf(c, r), r.payload, c.Chunk(r.chunk))
  {
    hide Reachable, Flat, GoodRec, Uses, Member, FrameOf, HeaderGen, FooterGen, SumFor, Config.Chunk;
    var r := s.out.log[i];
    InOrderDelivery(c, s);
    UsesIsValid(c, fmt);
    Sizes(c, r);
    FrameParts(c, fmt, r);
    var d := c.Chunk(r.chunk);
    MemberWritten(fmt, FrameOf(c, r), r.payload, d, Results(|d|, |r.payload|, SumFor(fmt, d)));
  }

  lemma UsesIsValid(c: Config, fmt: DataFormat)
    requires Uses(c, fmt)
    ensures c.Valid() && c.Sized()
  {
  }

  // ---- frames that begin with their length ----

  predicate LengthFirst(fmt: DataFormat) { fmt == Deflate4B || fmt == Lz4sBk }

  /** The payloads behind the lengths from i on. */
  function Split(d: seq<byte>, i: nat): Option<seq<seq<byte>>>
    requires i <= |d|
    decreases |d| - i
  {
    if i == |d| then Some([])
    else if i + 4 > |d| || i + 4 + Load(d, i, 4) > |d| then None
    else
      var n := Load(d, i, 4);
      var rest :- Split(d, i + 4 + n);
      Some([d[i + 4..i + 4 + n]] + rest)
  }

  function Payloads(log: seq<Rec>): seq<seq<byte>>
    requires NoSw(log)
  {
    seq(|log|, i requires 0 <= i < |log| => log[i].payload)
  }

  lemma {:induction false} SplitAppend(d: seq<byte>, i: nat, ps: seq<seq<byte>>, p: seq<byte>)
    requires i <= |d| && Split(d, i) == Some(ps) && |p| < WRAP
    ensures Split(d + (LE(|p|, 4) + p), i) == Some(ps + [p])
    decreases |d| - i
  {
    hide LE, UnLE;
    var f := LE(|p|, 4) + p;
    var e := d + f;
    if i == |d| {
      SizedMember(f, p);
      assert e[i..i + 4] == f[0..4] && e[i + 4..i + 4 + |p|] == f[4..];
      assert Load(e, i, 4) == |p| && i + 4 + |p| == |e|;
      assert Split(e, |e|) == Some([]);
      assert ps + [p] == [p] + [];
    } else {
      var n := Load(d, i, 4);
      assert e[i..i + 4] == d[i..i + 4] && e[i + 4..i + 4 + n] == d[i + 4..i + 4 + n];
      SplitAppend(d, i + 4 + n, ps[1..], p);
      assert ps + [p] == [ps[0]] + (ps[1..] + [p]);
    }
  }

  lemma {:induction false} SplitFlat(c: Config, fmt: DataFormat, log: seq<Rec>)
    requires Uses(c, fmt) && LengthFirst(fmt) && c.hwBuffSz < 0x8000_0000 && NoSw(log)
    requires forall i :: 0 <= i < |log| ==> GoodRec(c, log[i])
    ensures Split(Flat(c, log), 0) == Some(Payloads(log))
    decreases |log|
  {
    hide GoodRec, Uses, FrameOf, Split;
    if |log| == 0 {
      assert Split([], 0) == Some([]) by { SplitNothing(); }
    } else {
      var n := |log| - 1;
      assert log[n].Hw? && NoSw(log[..n]);
      SplitFlat(c, fmt, log[..n]);
      LengthFrame(c, fmt, log[n]);
      SplitAppend(Flat(c, log[..n]), 0, Payloads(log[..n]), log[n].payload);
      assert Payloads(log) == Payloads(log[..n]) + [log[n].payload];
    }
  }

  lemma SplitNothing()
    ensures Split([], 0) == Some([])
  {
  }

  lemma LengthFrame(c: Config, fmt: DataFormat, r: Rec)
    requires Uses(c, fmt) && LengthFirst(fmt) && c.hwBuffSz < 0x8000_0000 && r.Hw? && GoodRec(c, r)
    ensures FrameOf(c, r) == LE(|r.payload|, 4) + r.payload && |r.payload| < WRAP
  {
    hide GoodRec, Uses, FrameOf, SumFor, Config.Chunk, LE;
    UsesIsValid(c, fmt);
    Sizes(c, r);
    FrameParts(c, fmt, r);
    assert LE(|r.payload|, 4) + r.payload + [] == LE(|r.payload|, 4) + r.payload;
  }

  /** What a DEFLATE_4B or LZ4S_BK session has written is read back, by the lengths in front, as exactly
      the payloads delivered, in order. */
  lemma LengthsSplit(c: Config, fmt: DataFormat, s: State)
    requires Uses(c, fmt) && LengthFirst(fmt) && c.hwBuffSz < 0x8000_0000 && Reachable(c, s) && NoSw(s.out.log)
    ensures s.out.outLen <= |s.out.mem|
    ensures Split(s.out.mem[..s.out.outLen], 0) == Some(Payloads(s.out.log))
  {
    hide Reachable, GoodRec, Uses, Split, Flat, Payloads;
    UsesIsValid(c, fmt);
    InOrderDelivery(c, s);
    SplitFlat(c, fmt, s.out.log);
  }

  // ---- LZ4S_BK: compression feeds the zstd translation ----

  /** p is a block that stands for d and that the translation can take. */
  ghost predicate Encodes(d: seq<byte>, p: seq<byte>, minMatch: nat) {
    && L.Parse(p, 0, minMatch).Some?
    && var toks := L.Parse(p, 0, minMatch).value;
       L.Decode([], toks) == Some(d) && L.RunsFit(toks) && L.Matches(toks) < L.ZSTD_SEQUENCES_SIZE
  }

  /** The hardware's contract for LZ4s payloads. */
  ghost predicate PayloadsEncode(c: Config, minMatch: nat) {
    forall d: Data, p: Data :: c.payloadOf(d, p) ==> Encodes(d, p, minMatch)
  }

  lemma {:induction false} BlocksAppend(
    data: seq<byte>, i: nat, src: seq<byte>, pos: nat, minMatch: nat, p: seq<byte>, d: seq<byte>)
    requires L.Blocks(data, i, src, pos, minMatch) && i <= |data| && pos <= |src|
    requires Encodes(d, p, minMatch) && |d| <= L.MAX_BLOCK_SIZE && |p| < WRAP
    ensures L.Blocks(data + (LE(|p|, 4) + p), i, src + d, pos, minMatch)
    decreases |data| - i
  {
    hide LE, UnLE, L.Parse, L.Decode, L.RunsFit, L.Matches;
    var f := LE(|p|, 4) + p;
    var e := data + f;
    if i == |data| {
      SizedMember(f, p);
      assert e[i..i + 4] == f[0..4] && e[i + 4..i + 4 + |p|] == f[4..] && (src + d)[pos..pos + |d|] == d;
      assert L.Blocks(e, |e|, src + d, |src + d|, minMatch);
    } else {
      var n := UnLE(data[i..i + 4]);
      assert e[i..i + 4] == data[i..i + 4] && e[i + 4..i + 4 + n] == data[i + 4..i + 4 + n];
      var m := |L.Decode([], L.Parse(data[i + 4..i + 4 + n], 0, minMatch).value).value|;
      assert (src + d)[pos..pos + m] == src[pos..pos + m];
      BlocksAppend(data, i + 4 + n, src, pos + m, minMatch, p, d);
    }
  }

  lemma {:induction false} FlatIsBlocks(c: Config, log: seq<Rec>, minMatch: nat)
    requires Uses(c, Lz4sBk) && PayloadsEncode(c, minMatch) && c.hwBuffSz <= L.MAX_BLOCK_SIZE && NoSw(log)
    requires forall i :: 0 <= i < |log| ==> GoodRec(c, log[i])
    ensures L.Blocks(Flat(c, log), 0, Taken(c, log), 0, minMatch)
    decreases |log|
  {
    hide GoodRec, Uses, FrameOf, L.Blocks, Encodes, Config.Chunk;
    if |log| == 0 {
      NoBlocks(minMatch);
    } else {
      var n := |log| - 1;
      assert log[n].Hw? && NoSw(log[..n]);
      FlatIsBlocks(c, log[..n], minMatch);
      LengthFrame(c, Lz4sBk, log[n]);
      UsesIsValid(c, Lz4sBk);
      Sizes(c, log[n]);
      BlocksAppend(Flat(c, log[..n]), 0, Taken(c, log[..n]), 0, minMatch, log[n].payload, c.Chunk(log[n].chunk));
    }
  }

  lemma NoBlocks(minMatch: nat)
    ensures L.Blocks([], 0, [], 0, minMatch)
  {
  }

  /** What a run of an LZ4S_BK session has written is what the zstd translation asks for: blocks behind
      their sizes that stand for the consumed source, in order and without gaps. */
  lemma RunFeedsZstd(c: Config, s: State, minMatch: nat)
    requires Uses(c, Lz4sBk) && PayloadsEncode(c, minMatch) && c.hwBuffSz <= L.MAX_BLOCK_SIZE
    requires Reachable(c, s) && NoSw(s.out.log) && !s.out.late
    ensures s.out.outLen <= |s.out.mem| && s.out.inLen <= |c.src|
    ensures L.Blocks(s.out.mem[..s.out.outLen], 0, c.src[..s.out.inLen], 0, minMatch)
  {
    hide Reachable, GoodRec, Uses, PayloadsEncode, Flat, Taken, L.Blocks;
    UsesIsValid(c, Lz4sBk);
    InOrderDelivery(c, s);
    FlatIsBlocks(c, s.out.log, minMatch);
  }

  /** Compression followed by the post-processing of LZ4S_BK sessions, for any interleaving: the calls
      of the zstd library describe exactly the source bytes that were consumed. */
  method CompressThenTranslate(ghost c: Config, ghost s: State, dest: seq<byte>, src: seq<byte>, minMatch: nat)
    returns (calls: seq<L.Call>)
    requires Uses(c, Lz4sBk) && PayloadsEncode(c, minMatch) && c.hwBuffSz <= L.MAX_BLOCK_SIZE
    requires Reachable(c, s) && NoSw(s.out.log) && !s.out.late
    requires s.out.outLen <= |s.out.mem| && s.out.inLen <= |c.src|
    requires dest == s.out.mem[..s.out.outLen] && src == c.src[..s.out.inLen]
    ensures L.Sources(calls) == src
    ensures forall x :: x in calls ==> L.Describes(x) && L.OneDelimiter(x.seqs)
  {
    hide Reachable, Uses, PayloadsEncode, L.Blocks, L.Describes;
    RunFeedsZstd(c, s, minMatch);
    calls := L.ZstdCallBack(dest, src, minMatch);
  }

  // ---- the checksum for the caller ----

  /** A session of a deflate format whose caller asked for a checksum hands out the CRC of the consumed
      source, unless the format is zlib. */
  lemma SessionChecksum(
    fmt: DataFormat, src: Data, hwBuffSz: nat, destSz: nat, slotCount: nat, swBackup: bool, singleThread: bool,
    wantCrc: bool, crc0: Word, payloadOf: (Data, Data) -> bool, swFrameOf: (Data, Data) -> bool, s: State)
    requires var c := ConfigFor(fmt, src, hwBuffSz, destSz, slotCount, swBackup, singleThread, wantCrc, crc0,
             payloadOf, swFrameOf);
      Reachable(c, s) && NoSw(s.out.log) && !s.out.late
    requires fmt != Lz4Fh && fmt != Lz4sBk && fmt != DeflateZlib
    ensures s.out.inLen <= |src| && s.out.crc == if wantCrc then Crc(crc0, src[..s.out.inLen]) else crc0
  {
    hide Reachable, Crc, HeaderGen, FooterGen, Folded;
    var c := ConfigFor(fmt, src, hwBuffSz, destSz, slotCount, swBackup, singleThread, wantCrc, crc0, payloadOf,
        swFrameOf);
    InOrderDelivery(c, s);
    if wantCrc { ChecksumOfTaken(c, s); } else { NothingFolded(c, s); }
  }

  lemma NothingFolded(c: Config, s: State)
    requires Reachable(c, s) && !c.foldCrc
    ensures s.out.crc == c.crc0
  {
    ReachableInv(c, s);
    FoldedNone(c, s.out.log);
  }

  lemma {:induction false} FoldedNone(c: Config, log: seq<Rec>)
    requires !c.foldCrc
    ensures Folded(c, log) == c.crc0
    decreases |log|
  {
    if |log| > 0 { FoldedNone(c, log[..|log| - 1]); }
  }

  /** A single-threaded zlib session of an empty source; the hardware may give any payload. */
  function ZlibConfig(): Config {
    ConfigFor(DeflateZlib, [], 1024, 1024, 128, false, true, true, Zero(), (_, _) => true, (_, _) => false)
  }

  lemma ZlibShape()
    ensures ZlibConfig().Valid() && ZlibConfig().Chunk(0) == [] && ZlibConfig().foldCrc && HeaderSz(DeflateZlib) == 2
  {
    hide HeaderGen, FooterGen;
    var c := ZlibConfig();
    SessionsAreValid(DeflateZlib, [], 1024, 1024, 128, false, true, true, Zero(), c.payloadOf, c.swFrameOf);
  }

  /** Why zlib is the exception: the hardware's Adler-32 is folded in as if it were a CRC. A caller who
      starts from 0 gets the Adler-32 of the first chunk, which is 1 for nothing, where the CRC is 0. */
  lemma ZlibChecksum() returns (s: State)
    ensures Reachable(ZlibConfig(), s) && NoSw(s.out.log) && !s.out.late && s.out.inLen == 0
    ensures s.out.crc == ToWord(Adler32([])) == ToWord(1) && s.out.crc != Crc(Zero(), [])
  {
    hide Reachable, HeaderGen, FooterGen, FrameOf, Stands;
    var c, r := ZlibConfig(), Hw(0, []);
    ZlibShape();
    s := Begin(c);
    assert GoodRec(c, r) && |FrameOf(c, r)| <= 1024 by { RecSize(c, r); }
    s := CompressOverrun.ByHardware(c, s, [], 1024, r);
    assert [] + [r] == [r];
    ZlibValue(c, s, r);
  }

  lemma ZlibValue(c: Config, s: State, r: Rec)
    requires c == ZlibConfig() && r == Hw(0, [])
    requires Stands(c, s, [r], 1024 - |FrameOf(c, r)|, 1, 0, Counting, Handled(0, false))
    ensures Reachable(c, s) && NoSw(s.out.log) && !s.out.late && s.out.inLen == 0
    ensures s.out.crc == ToWord(1) && s.out.crc != Crc(Zero(), [])
  {
    hide HeaderGen, FooterGen, FrameOf;
    ZlibShape();
    ReachableInv(c, s);
    InOrderDelivery(c, s);
    assert [r][..0] == [];
    assert Folded(c, []) == Zero() && Folded(c, [r]) == Fold(Zero(), c.sumOf([]), 0);
    CrcOfNothing(Zero());
    assert ToWord(1)[0] && !Zero()[0];
  }
}
