/** Cutting a compressed stream apart again: header checks, the search for the end of an LZ4 frame,
    and the submitting loop of decompression that walks from frame to frame. */
module Framing {
  import opened Bytes
  import opened Crc32
  import opened Formats
  import opened Wrappers

  const GZIP_HEADER: nat := 24
  const LZ4_HEADER: nat := 15
  const LZ4_BLOCK_HEADER: nat := 4
  const FOOTER: nat := 8
  const WRAP := 0x1_0000_0000

  /** Little-endian fields; the caller has checked that they lie inside. */
  function Load(s: seq<byte>, i: nat, k: nat): nat
    requires i + k <= |s|
  {
    UnLE(s[i..i + k])
  }

  lemma LoadAt(s: seq<byte>, i: nat, x: nat, k: nat)
    requires At(s, i, LE(x, k)) && x < Pow256(k)
    ensures Load(s, i, k) == x
  {
    assert s[i..i + k] == LE(x, k);
    UnLEInvertsLE(x, k);
  }

  // ---- the end of an LZ4 frame ----

  /** One block: a header whose top bit marks stored data and whose other bits are the size. */
  datatype Block = Block(header: u32, data: seq<byte>) {
    predicate Valid() { header != 0 && |data| == header % 0x8000_0000 }

    function Bytes(): (r: seq<byte>)
      ensures |r| == 4 + |data|
    {
      LE(header, 4) + data
    }
  }

  function BlockBytes(bs: seq<Block>): seq<byte> {
    if |bs| == 0 then [] else bs[0].Bytes() + BlockBytes(bs[1..])
  }

  /** The rest of the search when the next candidate for the end mark is the word before offset
      frame: follow block sizes until the word is 0. */
  function Find(s: seq<byte>, frame: nat): (r: Option<nat>)
    requires frame >= FOOTER
    ensures r.Some? ==> r.value + FOOTER <= |s|
    decreases |s| - frame
  {
    if |s| < frame then None
    else if Load(s, frame - FOOTER, 4) == 0 then Some(frame - FOOTER)
    else Find(s, frame + Load(s, frame - FOOTER, 4) % 0x8000_0000 + LZ4_BLOCK_HEADER)
  }

  function FindFooter(s: seq<byte>): (r: Option<nat>)
    ensures r.Some? ==> LZ4_HEADER + LZ4_BLOCK_HEADER <= r.value && r.value + FOOTER <= |s|
  {
    if |s| < LZ4_HEADER + LZ4_BLOCK_HEADER + FOOTER then None
    else
      var frame := Load(s, LZ4_HEADER, 4) % 0x8000_0000 + LZ4_HEADER + LZ4_BLOCK_HEADER + FOOTER;
      FindIsPast(s, frame);
      Find(s, frame)
  }

  lemma {:induction false} FindIsPast(s: seq<byte>, frame: nat)
    requires frame >= FOOTER
    ensures Find(s, frame).Some? ==> Find(s, frame).value >= frame - FOOTER
    decreases |s| - frame
  {
    if |s| >= frame && Load(s, frame - FOOTER, 4) != 0 {
      FindIsPast(s, frame + Load(s, frame - FOOTER, 4) % 0x8000_0000 + LZ4_BLOCK_HEADER);
    }
  }

  /** findLZ4Footer in its 32-bit arithmetic. For sources below 2 GB frame_sz cannot wrap, so the
      loop ends. */
  method FindLZ4Footer(s: seq<byte>) returns (r: Option<nat>)
    requires |s| < 0x8000_0000 - LZ4_HEADER - LZ4_BLOCK_HEADER - FOOTER
    ensures r == FindFooter(s)
  {
    hide Load;
    if |s| < LZ4_HEADER + LZ4_BLOCK_HEADER + FOOTER { return None; }
    var block := Load(s, LZ4_HEADER, 4) % 0x8000_0000;
    var frame := (block + LZ4_HEADER + LZ4_BLOCK_HEADER + FOOTER) % WRAP;
    while |s| >= frame
      invariant frame >= LZ4_HEADER + LZ4_BLOCK_HEADER + FOOTER && Find(s, frame) == FindFooter(s)
      decreases |s| - frame
    {
      if Load(s, frame - FOOTER, 4) == 0 { return Some(frame - FOOTER); }
      block := Load(s, frame - FOOTER, 4) % 0x8000_0000;
      frame := (frame + (block + LZ4_BLOCK_HEADER)) % WRAP;
    }
    r := None;
  }

  lemma EndMarkAt(s: seq<byte>, i: nat, w: Word)
    requires At(s, i, Lz4Footer(w))
    ensures Load(s, i, 4) == 0 && Load(s, i + 4, 4) == Value(w)
  {
    Pow256Values();
    ValueFits(w);
    AtConcat(s, i, LE(0, 4), LE(Value(w), 4));
    LoadAt(s, i, 0, 4);
    LoadAt(s, i + 4, Value(w), 4);
  }

  lemma BlockAt(s: seq<byte>, i: nat, b: Block)
    requires At(s, i, b.Bytes()) && b.Valid()
    ensures Load(s, i, 4) == b.header && b.header % 0x8000_0000 == |b.data|
  {
    Pow256Values();
    AtConcat(s, i, LE(b.header, 4), b.data);
    LoadAt(s, i, b.header, 4);
  }

  /** From any block boundary on, the search stops at the true end mark. */
  lemma {:induction false} FindsEndMark(s: seq<byte>, i: nat, bs: seq<Block>, w: Word)
    requires At(s, i, BlockBytes(bs) + Lz4Footer(w)) && forall k :: 0 <= k < |bs| ==> bs[k].Valid()
    ensures Find(s, i + FOOTER) == Some(i + |BlockBytes(bs)|)
    decreases |bs|
  {
    hide LE, UnLE, Value, Block.Bytes, Lz4Footer;
    AtConcat(s, i, BlockBytes(bs), Lz4Footer(w));
    if |bs| == 0 { EndMarkAt(s, i, w); }
    else {
      var b, rest := bs[0], bs[1..];
      AtConcat(s, i, b.Bytes(), BlockBytes(rest));
      BlockAt(s, i, b);
      var j := i + |b.Bytes()|;
      assert BlockBytes(bs) + Lz4Footer(w) == b.Bytes() + (BlockBytes(rest) + Lz4Footer(w));
      AtConcat(s, i, b.Bytes(), BlockBytes(rest) + Lz4Footer(w));
      FindsEndMark(s, j, rest, w);
    }
  }

  /** For a frame of one or more non-empty-header blocks the footer is found, whatever follows it. */
  lemma FooterFound(s: seq<byte>, header: seq<byte>, bs: seq<Block>, w: Word)
    requires |header| == LZ4_HEADER && |bs| > 0 && (forall k :: 0 <= k < |bs| ==> bs[k].Valid())
    requires At(s, 0, header + BlockBytes(bs) + Lz4Footer(w))
    ensures FindFooter(s) == Some(LZ4_HEADER + |BlockBytes(bs)|)
  {
    hide Load, Lz4Footer, Block.Bytes, Find;
    var b, rest := bs[0], bs[1..];
    assert header + BlockBytes(bs) + Lz4Footer(w) == header + b.Bytes() + (BlockBytes(rest) + Lz4Footer(w));
    AtConcat(s, 0, header + b.Bytes(), BlockBytes(rest) + Lz4Footer(w));
    AtConcat(s, 0, header, b.Bytes());
    BlockAt(s, LZ4_HEADER, b);
    FindsEndMark(s, LZ4_HEADER + |b.Bytes()|, rest, w);
  }

  // ---- header checks ----

  /** The formats whose streams can be cut by their headers. */
  predicate Framed(fmt: DataFormat) { fmt == DeflateGzipExt || fmt == Lz4Fh }

  datatype Verdict = Accept(compressed: nat, uncompressed: nat) | BufErr | DataErr | ForceSw | HardFail

  /** qzGzipHeaderExt: every fixed field, then the two sizes. */
  function GzipSizes(s: seq<byte>): Verdict
    requires |s| >= GZIP_HEADER
  {
    if s[0] != 0x1f || s[1] != 0x8b || s[12] != 0x51 || s[13] != 0x5A || s[2] != 8 || s[3] != 4
       || (s[8] != 0 && s[8] != 2 && s[8] != 4) || s[9] != 255 || Load(s, 10, 2) != 12 || Load(s, 14, 2) != 8
    then HardFail
    else Accept(Load(s, 20, 4), Load(s, 16, 4))
  }

  /** qzVerifyLZ4FrameHeader, then the search for the footer. The content size is a 64-bit field
      stored in a 32-bit variable. The header checksum is not looked at. */
  function Lz4Sizes(s: seq<byte>): Verdict
    requires |s| >= LZ4_HEADER
  {
    var magic, flag := Load(s, 0, 4), s[4];
    if magic - magic % 0x10 == 0x184D_2A50 then ForceSw
    else if magic != 0x184D_2204 then HardFail
    else if flag / 0x40 % 4 != 1 then HardFail
    else if flag % 2 != 0 || flag / 0x10 % 2 != 0 || flag / 4 % 2 != 1 || flag / 8 % 2 != 1 then ForceSw
    else match FindFooter(s)
         case None => DataErr
         case Some(footer) => Accept(footer - LZ4_HEADER, Load(s, 6, 8) % WRAP)
  }

  /** checkHeader for a session that is not yet forced to software. */
  function CheckHeader(fmt: DataFormat, s: seq<byte>, destAvail: nat, hwBuff: nat, swBackup: bool): (v: Verdict)
    requires Framed(fmt)
    ensures v.Accept? ==> HeaderSz(fmt) + v.compressed + FOOTER <= |s|
    ensures v.Accept? ==> v.uncompressed <= destAvail && v.uncompressed <= hwBuff
  {
    if |s| == 0 || destAvail == 0 then BufErr
    else if |s| < HeaderSz(fmt) then DataErr
    else
      match if fmt == DeflateGzipExt then GzipSizes(s) else Lz4Sizes(s)
      case Accept(compressed, uncompressed) =>
        if compressed > DestSz(hwBuff) || uncompressed > hwBuff then (if swBackup then ForceSw else HardFail)
        else if compressed + HeaderSz(fmt) + FOOTER > |s| then DataErr
        else if uncompressed > destAvail then BufErr
        else Accept(compressed, uncompressed)
      case v => v
  }

  // ---- frames ----

  datatype Frame = Frame(res: Results, payload: seq<byte>) {
    function Bytes(fmt: DataFormat): seq<byte> {
      HeaderGen(fmt, res) + payload + FooterGen(fmt, res)
    }
  }

  ghost predicate IsBlocks(payload: seq<byte>) {
    exists bs: seq<Block> :: |bs| > 0 && (forall k :: 0 <= k < |bs| ==> bs[k].Valid()) && BlockBytes(bs) == payload
  }

  /** What the compressor writes: sizes that fit their fields; LZ4 payloads are blocks. */
  ghost predicate GoodFrame(fmt: DataFormat, f: Frame) {
    && f.res.produced == |f.payload| < WRAP && f.res.consumed < WRAP
    && (fmt == Lz4Fh ==> IsBlocks(f.payload))
  }

  lemma GzipAccepts(s: seq<byte>, f: Frame)
    requires At(s, 0, GzipExtHeader(f.res.consumed, f.res.produced)) && f.res.consumed < WRAP && f.res.produced < WRAP
    ensures |s| >= GZIP_HEADER && GzipSizes(s) == Accept(f.res.produced, f.res.consumed)
  {
    hide LE, UnLE;
    Pow256Values();
    var std, tag := StdGzipHeader(4), [0x51, 0x5A, 8, 0];
    var a: seq<byte> := std + [12, 0];
    AtConcat(s, 0, a + tag + LE(f.res.consumed, 4), LE(f.res.produced, 4));
    AtConcat(s, 0, a + tag, LE(f.res.consumed, 4));
    AtConcat(s, 0, a, tag);
    AtConcat(s, 0, std, [12, 0]);
    LoadAt(s, 16, f.res.consumed, 4);
    LoadAt(s, 20, f.res.produced, 4);
    TwoBytes(s, 10, 12);
    assert tag == [0x51, 0x5A] + [8, 0];
    AtConcat(s, 12, [0x51, 0x5A], [8, 0]);
    TwoBytes(s, 14, 8);
    FixedBytes(s, std, tag);
  }

  lemma TwoBytes(s: seq<byte>, i: nat, x: byte)
    requires At(s, i, [x, 0])
    ensures Load(s, i, 2) == x
  {
    var field: seq<byte> := [x, 0];
    assert s[i..i + 2] == field && field[1..] == [0];
    assert UnLE([0]) == 0;
  }

  lemma FixedBytes(s: seq<byte>, std: seq<byte>, tag: seq<byte>)
    requires std == StdGzipHeader(4) && tag == [0x51, 0x5A, 8, 0] && At(s, 0, std) && At(s, 12, tag)
    ensures s[0] == 0x1f && s[1] == 0x8b && s[2] == 8 && s[3] == 4 && s[8] == 0 && s[9] == 255 && s[12] == 0x51
            && s[13] == 0x5A
  {
    assert std[0] == s[0] && std[1] == s[1] && std[2] == s[2] && std[3] == s[3] && std[8] == s[8] && std[9] == s[9];
    assert tag[0] == s[12] && tag[1] == s[13];
  }

  lemma Lz4Accepts(s: seq<byte>, f: Frame)
    requires At(s, 0, f.Bytes(Lz4Fh)) && GoodFrame(Lz4Fh, f)
    ensures |s| >= LZ4_HEADER && Lz4Sizes(s) == Accept(f.res.produced, f.res.consumed)
  {
    hide LE, UnLE, Value, Lz4HeaderChecksum, Lz4Footer, BlockBytes;
    Pow256Values();
    var header := HeaderGen(Lz4Fh, f.res);
    var bs: seq<Block> :| |bs| > 0 && (forall k :: 0 <= k < |bs| ==> bs[k].Valid()) && BlockBytes(bs) == f.payload;
    FooterFound(s, header, bs, f.res.checksum);
    AtConcat(s, 0, header + f.payload, FooterGen(Lz4Fh, f.res));
    AtConcat(s, 0, header, f.payload);
    Lz4Fields(s, f.res);
  }

  lemma Lz4Fields(s: seq<byte>, res: Results)
    requires At(s, 0, HeaderGen(Lz4Fh, res)) && res.consumed < WRAP
    ensures |s| >= LZ4_HEADER && Load(s, 0, 4) == 0x184D_2204 && s[4] == 0x4C && Load(s, 6, 8) == res.consumed
  {
    hide LE, UnLE, Lz4HeaderChecksum;
    Pow256Values();
    var magic, desc := [0x04, 0x22, 0x4D, 0x18], Lz4Descriptor(res.consumed);
    AtConcat(s, 0, magic + desc, [Lz4HeaderChecksum(res.consumed)]);
    AtConcat(s, 0, magic, desc);
    AtConcat(s, 4, [0x4C, 0x40], LE(res.consumed, 8));
    LoadAt(s, 6, res.consumed, 8);
    assert [0x4C, 0x40][0] == s[4];
    MagicBytes(s);
  }

  lemma MagicBytes(s: seq<byte>)
    requires At(s, 0, [0x04, 0x22, 0x4D, 0x18])
    ensures Load(s, 0, 4) == 0x184D_2204
  {
    var m: seq<byte> := [0x04, 0x22, 0x4D, 0x18];
    assert s[0..4] == m;
    assert m[1..] == [0x22, 0x4D, 0x18] && m[1..][1..] == [0x4D, 0x18] && m[1..][1..][1..] == [0x18];
    assert UnLE([0x18]) == 0x18;
    assert UnLE([0x4D, 0x18]) == 0x184D;
    assert UnLE([0x22, 0x4D, 0x18]) == 0x184D22;
  }

  lemma CheckAccepts(fmt: DataFormat, s: seq<byte>, f: Frame, destAvail: nat, hwBuff: nat, swBackup: bool)
    requires Framed(fmt) && At(s, 0, f.Bytes(fmt)) && GoodFrame(fmt, f)
    requires |f.payload| <= DestSz(hwBuff) && f.res.consumed <= hwBuff && destAvail > 0 && f.res.consumed <= destAvail
    ensures CheckHeader(fmt, s, destAvail, hwBuff, swBackup) == Accept(|f.payload|, f.res.consumed)
  {
    hide GzipSizes, Lz4Sizes, GzipExtHeader, GzipFooter, Lz4HeaderChecksum, Lz4HeaderWith, Lz4Footer, IsBlocks;
    AtConcat(s, 0, HeaderGen(fmt, f.res) + f.payload, FooterGen(fmt, f.res));
    AtConcat(s, 0, HeaderGen(fmt, f.res), f.payload);
    if fmt == DeflateGzipExt { GzipAccepts(s, f); } else { Lz4Accepts(s, f); }
  }

  // ---- the loop over frames ----

  /** What decompBufferSetup notes of a frame: both sizes, and what the result is checked against. */
  datatype Cut = Cut(compressed: nat, uncompressed: nat, checksum: nat, orgLen: nat)

  /** The cut at offset pos, once the header has been accepted. */
  function CutAt(fmt: DataFormat, s: seq<byte>, compressed: nat, uncompressed: nat): Cut
    requires HeaderSz(fmt) + compressed + FOOTER <= |s|
  {
    var footer := HeaderSz(fmt) + compressed;
    if fmt == Lz4Fh then Cut(compressed, uncompressed, Load(s, footer + 4, 4), uncompressed)
    else Cut(compressed, uncompressed, Load(s, footer, 4), Load(s, footer + 4, 4))
  }

  /** How a submitting loop over the whole source ends: which cuts it made, the verdict it stopped
      on, and how much source it left. */
  datatype Cutting = Cutting(cuts: seq<Cut>, last: Verdict, remaining: nat)

  function CutAll(fmt: DataFormat, src: seq<byte>, pos: nat, destAvail: nat, hwBuff: nat, swBackup: bool): Cutting
    requires Framed(fmt) && pos <= |src|
    decreases |src| - pos
  {
    var v := CheckHeader(fmt, src[pos..], destAvail, hwBuff, swBackup);
    if !v.Accept? then Cutting([], v, |src| - pos)
    else
      var next := pos + HeaderSz(fmt) + v.compressed + FOOTER;
      var cut := CutAt(fmt, src[pos..], v.compressed, v.uncompressed);
      if next == |src| then Cutting([cut], v, 0)
      else
        var rest := CutAll(fmt, src, next, destAvail - v.uncompressed, hwBuff, swBackup);
        Cutting([cut] + rest.cuts, rest.last, rest.remaining)
  }

  /** The loop of doDecompressIn as far as it depends on the data. */
  method CutFrames(fmt: DataFormat, src: seq<byte>, destLen: nat, hwBuff: nat, swBackup: bool) returns (r: Cutting)
    requires Framed(fmt)
    ensures r == CutAll(fmt, src, 0, destLen, hwBuff, swBackup)
  {
    hide CheckHeader, CutAt;
    var pos: nat, destAvail: nat, cuts: seq<Cut> := 0, destLen, [];
    ghost var all := CutAll(fmt, src, 0, destLen, hwBuff, swBackup);
    while true
      invariant pos <= |src|
      invariant var rest := CutAll(fmt, src, pos, destAvail, hwBuff, swBackup);
        all == Cutting(cuts + rest.cuts, rest.last, rest.remaining)
      decreases |src| - pos
    {
      var v := CheckHeader(fmt, src[pos..], destAvail, hwBuff, swBackup);
      if !v.Accept? { return Cutting(cuts, v, |src| - pos); }
      cuts := cuts + [CutAt(fmt, src[pos..], v.compressed, v.uncompressed)];
      pos := pos + HeaderSz(fmt) + v.compressed + FOOTER;
      destAvail := destAvail - v.uncompressed;
      if pos == |src| { return Cutting(cuts, v, 0); }
    }
  }

  // ---- the round trip ----

  function StreamOf(fmt: DataFormat, fs: seq<Frame>): seq<byte> {
    if |fs| == 0 then [] else fs[0].Bytes(fmt) + StreamOf(fmt, fs[1..])
  }

  function Expected(f: Frame): Cut {
    Cut(|f.payload|, f.res.consumed, Value(f.res.checksum), f.res.consumed)
  }

  function ExpectedCuts(fs: seq<Frame>): seq<Cut> {
    if |fs| == 0 then [] else [Expected(fs[0])] + ExpectedCuts(fs[1..])
  }

  /** Every frame fits the hardware buffers, and at each one the destination still has room: more
      than none, and enough for the frame. */
  predicate Fits(fs: seq<Frame>, destAvail: nat, hwBuff: nat) {
    |fs| == 0 ||
    (&& |fs[0].payload| <= DestSz(hwBuff) && fs[0].res.consumed <= hwBuff
     && 0 < destAvail && fs[0].res.consumed <= destAvail
     && Fits(fs[1..], destAvail - fs[0].res.consumed, hwBuff))
  }

  lemma FooterAt(fmt: DataFormat, s: seq<byte>, f: Frame)
    requires Framed(fmt) && At(s, 0, f.Bytes(fmt)) && GoodFrame(fmt, f)
    ensures HeaderSz(fmt) + |f.payload| + FOOTER <= |s|
    ensures CutAt(fmt, s, |f.payload|, f.res.consumed) == Expected(f)
  {
    hide LE, UnLE, Value, GzipExtHeader, Lz4HeaderChecksum, Lz4HeaderWith, IsBlocks;
    Pow256Values();
    ValueFits(f.res.checksum);
    var a := HeaderGen(fmt, f.res) + f.payload;
    AtConcat(s, 0, a, FooterGen(fmt, f.res));
    if fmt == Lz4Fh { EndMarkAt(s, |a|, f.res.checksum); }
    else {
      AtConcat(s, |a|, LE(Value(f.res.checksum), 4), LE(f.res.consumed, 4));
      LoadAt(s, |a|, Value(f.res.checksum), 4);
      LoadAt(s, |a| + 4, f.res.consumed, 4);
    }
  }

  lemma AtDrop(src: seq<byte>, pos: nat, b: seq<byte>)
    requires pos <= |src| && At(src, pos, b)
    ensures At(src[pos..], 0, b)
  {
  }

  lemma FrameSize(fmt: DataFormat, f: Frame)
    requires Framed(fmt)
    ensures |f.Bytes(fmt)| == HeaderSz(fmt) + |f.payload| + FOOTER
  {
  }

  /** Frames written one after another are cut at exactly the same boundaries: both sizes, the
      checksum and the length of each come back, and nothing remains. */
  lemma {:induction false} CutsAreFrames(
    fmt: DataFormat, src: seq<byte>, pos: nat, fs: seq<Frame>, destAvail: nat, hwBuff: nat, swBackup: bool)
    requires Framed(fmt) && |fs| > 0 && (forall k :: 0 <= k < |fs| ==> GoodFrame(fmt, fs[k]))
    requires pos + |StreamOf(fmt, fs)| == |src| && At(src, pos, StreamOf(fmt, fs)) && Fits(fs, destAvail, hwBuff)
    ensures var r := CutAll(fmt, src, pos, destAvail, hwBuff, swBackup);
      r.cuts == ExpectedCuts(fs) && r.remaining == 0 && r.last.Accept?
    decreases |fs|
  {
    hide GoodFrame, CheckHeader, CutAt, Frame.Bytes, Expected;
    var f, rest := fs[0], fs[1..];
    AtConcat(src, pos, f.Bytes(fmt), StreamOf(fmt, rest));
    AtDrop(src, pos, f.Bytes(fmt));
    assert GoodFrame(fmt, f);
    CheckAccepts(fmt, src[pos..], f, destAvail, hwBuff, swBackup);
    FooterAt(fmt, src[pos..], f);
    FrameSize(fmt, f);
    if |rest| > 0 {
      FrameSize(fmt, rest[0]);
      CutsAreFrames(fmt, src, pos + |f.Bytes(fmt)|, rest, destAvail - f.res.consumed, hwBuff, swBackup);
    }
  }

  /** The round trip through the loop itself. */
  method FrameThenCut(fmt: DataFormat, fs: seq<Frame>, destLen: nat, hwBuff: nat, swBackup: bool) returns (r: Cutting)
    requires Framed(fmt) && |fs| > 0 && (forall k :: 0 <= k < |fs| ==> GoodFrame(fmt, fs[k]))
             && Fits(fs, destLen, hwBuff)
    ensures r.cuts == ExpectedCuts(fs) && r.remaining == 0 && r.last.Accept?
  {
    hide GoodFrame, CutAll, Fits, StreamOf;
    var src := StreamOf(fmt, fs);
    CutsAreFrames(fmt, src, 0, fs, destLen, hwBuff, swBackup);
    r := CutFrames(fmt, src, destLen, hwBuff, swBackup);
  }

  function Consumed(fs: seq<Frame>): nat {
    if |fs| == 0 then 0 else fs[0].res.consumed + Consumed(fs[1..])
  }

  /** A destination one byte larger than the data is always enough; exactly as large is enough when
      the last frame is not empty. */
  lemma {:induction false} EnoughDestination(fs: seq<Frame>, destAvail: nat, hwBuff: nat)
    requires forall k :: 0 <= k < |fs| ==> |fs[k].payload| <= DestSz(hwBuff) && fs[k].res.consumed <= hwBuff
    requires destAvail > Consumed(fs) || (destAvail == Consumed(fs) && |fs| > 0 && fs[|fs| - 1].res.consumed > 0)
    ensures Fits(fs, destAvail, hwBuff)
    decreases |fs|
  {
    if |fs| > 0 {
      var rest := fs[1..];
      if |rest| > 0 {
        assert rest[|rest| - 1] == fs[|fs| - 1];
        LastIsPart(rest);
        EnoughDestination(rest, destAvail - fs[0].res.consumed, hwBuff);
      }
    }
  }

  lemma {:induction false} LastIsPart(fs: seq<Frame>)
    requires |fs| > 0
    ensures fs[|fs| - 1].res.consumed <= Consumed(fs)
    decreases |fs|
  {
    if |fs| > 1 { LastIsPart(fs[1..]); }
  }
}
