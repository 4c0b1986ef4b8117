/** What the header checks of decompression accept, exactly: which bytes, which block chains, and which
    verdict for what reason. */
module FramingExact {
  import opened Bytes
  import opened Formats
  import opened Framing
  import opened Wrappers

  // ---- gzip-ext headers ----

  lemma TwoByteField(s: seq<byte>, i: nat)
    requires i + 2 <= |s|
    ensures Load(s, i, 2) == s[i] + 0x100 * s[i + 1] as int
  {
    var w := s[i..i + 2];
    assert w[1..][1..] == [] && UnLE([]) == 0;
    assert UnLE(w[1..]) == w[1];
  }

  /** A gzip-ext header is accepted exactly when it is the one this library writes for the two sizes,
      whatever the time of modification in bytes 4 to 7, and with 0, 2 or 4 for the extra flags. */
  lemma GzipAcceptsIff(s: seq<byte>)
    requires |s| >= GZIP_HEADER
    ensures GzipSizes(s).Accept? || GzipSizes(s).HardFail?
    ensures GzipSizes(s).Accept? <==>
              && s[0..4] == [31, 139, 8, 4] && s[8] in [0, 2, 4] && s[9] == 255
              && s[10..16] == [12, 0, 'Q' as int, 'Z' as int, 8, 0]
    ensures GzipSizes(s).Accept? ==> GzipSizes(s) == Accept(Load(s, 20, 4), Load(s, 16, 4))
  {
    hide Load;
    TwoByteField(s, 10);
    TwoByteField(s, 14);
    var a, b := s[0..4], s[10..16];
    assert a[0] == s[0] && a[1] == s[1] && a[2] == s[2] && a[3] == s[3];
    assert b[0] == s[10] && b[1] == s[11] && b[2] == s[12] && b[3] == s[13] && b[4] == s[14] && b[5] == s[15];
    if GzipSizes(s).Accept? {
      assert a == [31, 139, 8, 4];
      assert b == [12, 0, 'Q' as int, 'Z' as int, 8, 0];
    }
  }

  // ---- LZ4 frames ----

  /** From i on lie these blocks, the end mark, and room for the checksum. */
  ghost predicate Chain(s: seq<byte>, i: nat, bs: seq<Block>) {
    && (forall k :: 0 <= k < |bs| ==> bs[k].Valid())
    && At(s, i, BlockBytes(bs) + LE(0, 4)) && i + |BlockBytes(bs)| + FOOTER <= |s|
  }

  lemma FieldBytes(s: seq<byte>, i: nat)
    requires i + 4 <= |s|
    ensures At(s, i, LE(Load(s, i, 4), 4)) && Load(s, i, 4) < 0x1_0000_0000
  {
    Pow256Values();
    LEInvertsUnLE(s[i..i + 4]);
  }

  /** What the search finds is the end of a chain of blocks that starts where it started. */
  lemma {:induction false} FindIsSound(s: seq<byte>, i: nat) returns (bs: seq<Block>)
    requires Find(s, i + FOOTER).Some?
    ensures Chain(s, i, bs) && Find(s, i + FOOTER) == Some(i + |BlockBytes(bs)|)
    decreases |s| - i
  {
    hide LE, UnLE, Load;
    FieldBytes(s, i);
    var h := Load(s, i, 4);
    if h == 0 {
      bs := [];
      assert BlockBytes(bs) + LE(0, 4) == LE(0, 4);
    } else {
      var n := h % 0x8000_0000;
      FindIsPast(s, i + FOOTER + n + LZ4_BLOCK_HEADER);
      var rest := FindIsSound(s, i + n + LZ4_BLOCK_HEADER);
      var b := Block(h, s[i + 4..i + 4 + n]);
      bs := [b] + rest;
      ChainGrows(s, i, b, rest);
    }
  }

  lemma ChainGrows(s: seq<byte>, i: nat, b: Block, rest: seq<Block>)
    requires b.Valid() && At(s, i, LE(b.header, 4)) && i + 4 + |b.data| <= |s| && b.data == s[i + 4..i + 4 + |b.data|]
    requires Chain(s, i + 4 + |b.data|, rest)
    ensures Chain(s, i, [b] + rest) && |BlockBytes([b] + rest)| == 4 + |b.data| + |BlockBytes(rest)|
  {
    hide LE;
    var bs := [b] + rest;
    assert bs[1..] == rest;
    var f := BlockBytes(bs) + LE(0, 4);
    var t := BlockBytes(rest) + LE(0, 4);
    assert f == LE(b.header, 4) + b.data + t;
    forall k | 0 <= k < |f| ensures f[k] == s[i + k] {
      if k < 4 { assert f[k] == LE(b.header, 4)[k]; }
      else if k < 4 + |b.data| { assert f[k] == b.data[k - 4] == s[i + 4 + (k - 4)]; }
      else { assert f[k] == t[k - 4 - |b.data|] == s[i + 4 + |b.data| + (k - 4 - |b.data|)]; }
    }
  }

  /** The search follows every chain to its end, whatever lies behind it. */
  lemma {:induction false} FindIsComplete(s: seq<byte>, i: nat, bs: seq<Block>)
    requires Chain(s, i, bs)
    ensures Find(s, i + FOOTER) == Some(i + |BlockBytes(bs)|)
    decreases |bs|
  {
    hide LE, UnLE, Load, Block.Bytes;
    if |bs| == 0 {
      assert BlockBytes(bs) + LE(0, 4) == LE(0, 4);
      Pow256Values();
      LoadAt(s, i, 0, 4);
    } else {
      var b, rest := bs[0], bs[1..];
      assert BlockBytes(bs) + LE(0, 4) == b.Bytes() + (BlockBytes(rest) + LE(0, 4));
      AtConcat(s, i, b.Bytes(), BlockBytes(rest) + LE(0, 4));
      BlockAt(s, i, b);
      FindIsComplete(s, i + |b.Bytes()|, rest);
    }
  }

  /** The footer is found at a place if and only if a chain of blocks from the search's start ends there. */
  lemma FindIff(s: seq<byte>, i: nat, r: nat)
    ensures Find(s, i + FOOTER) == Some(r) <==> exists bs :: Chain(s, i, bs) && r == i + |BlockBytes(bs)|
  {
    hide Find, Chain;
    if Find(s, i + FOOTER) == Some(r) {
      var bs := FindIsSound(s, i);
    }
    if bs :| Chain(s, i, bs) && r == i + |BlockBytes(bs)| { FindIsComplete(s, i, bs); }
  }

  /** An LZ4 header goes to the hardware exactly for version 1 with content size and checksum and without
      dictionary and block checksums, and when the frame's end is found. The others go to software when
      they are LZ4 frames or skippable ones. */
  lemma Lz4AcceptsIff(s: seq<byte>)
    requires |s| >= LZ4_HEADER
    ensures var magic, version := Load(s, 0, 4), s[4] / 0x40;
      var standard := s[4] / 0x10 % 2 == 0 && s[4] / 8 % 2 == 1 && s[4] / 4 % 2 == 1 && s[4] % 2 == 0;
      && (Lz4Sizes(s).ForceSw? <==>
            0x184D_2A50 <= magic <= 0x184D_2A5F || (magic == 0x184D_2204 && version == 1 && !standard))
      && (Lz4Sizes(s).HardFail? <==>
            !(0x184D_2A50 <= magic <= 0x184D_2A5F) && !(magic == 0x184D_2204 && version == 1))
      && (Lz4Sizes(s).Accept? <==>
            magic == 0x184D_2204 && version == 1 && standard && FindFooter(s).Some?)
      && (Lz4Sizes(s).Accept? ==>
            Lz4Sizes(s) == Accept(FindFooter(s).value - LZ4_HEADER, Load(s, 6, 8) % 0x1_0000_0000))
      && !Lz4Sizes(s).BufErr?
  {
    hide Load, FindFooter;
  }

  // ---- verdicts ----

  /** What the header says of the sizes, before anything is compared with them. */
  function Sizes(fmt: DataFormat, s: seq<byte>): Verdict
    requires Framed(fmt) && |s| >= HeaderSz(fmt)
  {
    if fmt == DeflateGzipExt then GzipSizes(s) else Lz4Sizes(s)
  }

  /** The frame is no larger than the hardware's buffers. */
  predicate ForHardware(v: Verdict, hwBuff: nat) {
    v.Accept? && 8 * v.compressed <= 9 * hwBuff + 8 * 1024 && v.uncompressed <= hwBuff
  }

  /** The source holds all of the frame. */
  predicate Complete(fmt: DataFormat, s: seq<byte>, v: Verdict) {
    v.Accept? && HeaderSz(fmt) + v.compressed + FOOTER <= |s|
  }

  /** A destination that is used up or too short, a source that is cut off, and a frame that is too large
      are told apart, in this order of precedence, and nothing else is turned down. */
  lemma Verdicts(fmt: DataFormat, s: seq<byte>, destAvail: nat, hwBuff: nat, swBackup: bool)
    requires Framed(fmt) && |s| >= HeaderSz(fmt) && destAvail > 0
    ensures var v, r := Sizes(fmt, s), CheckHeader(fmt, s, destAvail, hwBuff, swBackup);
      && (r.Accept? <==> ForHardware(v, hwBuff) && Complete(fmt, s, v) && v.uncompressed <= destAvail)
      && (r.BufErr? <==> ForHardware(v, hwBuff) && Complete(fmt, s, v) && v.uncompressed > destAvail)
      && (r.DataErr? <==> v.DataErr? || (ForHardware(v, hwBuff) && !Complete(fmt, s, v)))
      && (r.ForceSw? <==> v.ForceSw? || (v.Accept? && !ForHardware(v, hwBuff) && swBackup))
      && (r.HardFail? <==> v.HardFail? || (v.Accept? && !ForHardware(v, hwBuff) && !swBackup))
      && (r.Accept? ==> r == v)
  {
    hide GzipSizes, Lz4Sizes;
    if fmt == DeflateGzipExt { GzipAcceptsIff(s); } else { Lz4AcceptsIff(s); }
  }

  /** An empty source or destination is a buffer error, a shorter header a data error. */
  lemma ShortVerdicts(fmt: DataFormat, s: seq<byte>, destAvail: nat, hwBuff: nat, swBackup: bool)
    requires Framed(fmt) && (|s| < HeaderSz(fmt) || destAvail == 0)
    ensures CheckHeader(fmt, s, destAvail, hwBuff, swBackup) == if |s| == 0 || destAvail == 0 then BufErr else DataErr
  {
  }

  // ---- the loop over frames ----

  /** The bytes of the source these cuts take. */
  function Taken(fmt: DataFormat, cuts: seq<Cut>): nat {
    if |cuts| == 0 then 0 else HeaderSz(fmt) + cuts[0].compressed + FOOTER + Taken(fmt, cuts[1..])
  }

  /** The bytes of the destination they ask for. */
  function Given(cuts: seq<Cut>): nat {
    if |cuts| == 0 then 0 else cuts[0].uncompressed + Given(cuts[1..])
  }

  lemma CutSizes(fmt: DataFormat, s: seq<byte>, compressed: nat, uncompressed: nat)
    requires HeaderSz(fmt) + compressed + FOOTER <= |s|
    ensures CutAt(fmt, s, compressed, uncompressed).compressed == compressed
    ensures CutAt(fmt, s, compressed, uncompressed).uncompressed == uncompressed
  {
  }

  /** Every cut the loop makes, on any source, is the frame behind those before it, checked against what
      they leave of the destination, and its footer lies behind its payload. */
  lemma {:induction false} CutsAreSound(
    fmt: DataFormat, src: seq<byte>, pos: nat, destAvail: nat, hwBuff: nat, swBackup: bool, k: nat)
    requires Framed(fmt) && pos <= |src| && k < |CutAll(fmt, src, pos, destAvail, hwBuff, swBackup).cuts|
    ensures var cuts := CutAll(fmt, src, pos, destAvail, hwBuff, swBackup).cuts;
      var at := pos + Taken(fmt, cuts[..k]);
      && at <= |src| && Given(cuts[..k]) <= destAvail
      && CheckHeader(fmt, src[at..], destAvail - Given(cuts[..k]), hwBuff, swBackup)
           == Accept(cuts[k].compressed, cuts[k].uncompressed)
      && FooterOf(fmt, src, at + HeaderSz(fmt) + cuts[k].compressed, cuts[k])
    decreases k
  {
    hide CheckHeader, CutAt, FooterOf, HeaderSz;
    var r := CutAll(fmt, src, pos, destAvail, hwBuff, swBackup);
    var v := CheckHeader(fmt, src[pos..], destAvail, hwBuff, swBackup);
    CutSizes(fmt, src[pos..], v.compressed, v.uncompressed);
    if k == 0 {
      assert r.cuts[..0] == [];
      FooterInRest(fmt, src, pos, v.compressed, v.uncompressed);
    } else {
      var next := pos + HeaderSz(fmt) + v.compressed + FOOTER;
      var rest := CutAll(fmt, src, next, destAvail - v.uncompressed, hwBuff, swBackup);
      CutsAreSound(fmt, src, next, destAvail - v.uncompressed, hwBuff, swBackup, k - 1);
      assert r.cuts[..k][1..] == rest.cuts[..k - 1];
    }
  }

  /** What the result of a cut is checked against: the last word of the frame and the sizes of its header
      for LZ4, the two words of the footer for gzip. */
  predicate FooterOf(fmt: DataFormat, src: seq<byte>, i: nat, cut: Cut) {
    && i + FOOTER <= |src|
    && cut.checksum == Load(src, if fmt == Lz4Fh then i + 4 else i, 4)
    && cut.orgLen == if fmt == Lz4Fh then cut.uncompressed else Load(src, i + 4, 4)
  }

  lemma FooterInRest(fmt: DataFormat, src: seq<byte>, pos: nat, compressed: nat, uncompressed: nat)
    requires pos <= |src| && HeaderSz(fmt) + compressed + FOOTER <= |src[pos..]|
    ensures FooterOf(fmt, src, pos + HeaderSz(fmt) + compressed, CutAt(fmt, src[pos..], compressed, uncompressed))
  {
    var i := HeaderSz(fmt) + compressed;
    assert src[pos..][i..i + 4] == src[pos + i..pos + i + 4];
    assert src[pos..][i + 4..i + 8] == src[pos + i + 4..pos + i + 8];
  }

  /** Where the loop ends, on any source: behind the last cut, with the verdict of what lies there. */
  lemma {:induction false} CutsEnd(
    fmt: DataFormat, src: seq<byte>, pos: nat, destAvail: nat, hwBuff: nat, swBackup: bool)
    requires Framed(fmt) && pos <= |src|
    ensures var r := CutAll(fmt, src, pos, destAvail, hwBuff, swBackup);
      var at := pos + Taken(fmt, r.cuts);
      && at + r.remaining == |src| && Given(r.cuts) <= destAvail
      && (r.last.Accept? ==> r.remaining == 0 && |r.cuts| > 0)
      && (!r.last.Accept? ==>
            r.last == CheckHeader(fmt, src[at..], destAvail - Given(r.cuts), hwBuff, swBackup)
            && (r.remaining == 0 ==> r.cuts == []))
    decreases |src| - pos
  {
    hide CheckHeader, CutAt;
    var r := CutAll(fmt, src, pos, destAvail, hwBuff, swBackup);
    var v := CheckHeader(fmt, src[pos..], destAvail, hwBuff, swBackup);
    if v.Accept? {
      CutSizes(fmt, src[pos..], v.compressed, v.uncompressed);
      var next := pos + HeaderSz(fmt) + v.compressed + FOOTER;
      if next < |src| {
        CutsEnd(fmt, src, next, destAvail - v.uncompressed, hwBuff, swBackup);
        assert r.cuts[1..] == CutAll(fmt, src, next, destAvail - v.uncompressed, hwBuff, swBackup).cuts;
      }
    }
  }

  /** A frame that no longer fits the destination is a buffer error. */
  lemma NoRoom(fmt: DataFormat, s: seq<byte>, f: Frame, destAvail: nat, hwBuff: nat, swBackup: bool)
    requires Framed(fmt) && At(s, 0, f.Bytes(fmt)) && GoodFrame(fmt, f)
    requires |f.payload| <= DestSz(hwBuff) && f.res.consumed <= hwBuff
    requires destAvail == 0 || f.res.consumed > destAvail
    ensures CheckHeader(fmt, s, destAvail, hwBuff, swBackup).BufErr?
  {
    hide GzipSizes, Lz4Sizes, GzipExtHeader, GzipFooter, Lz4HeaderChecksum, Lz4HeaderWith, Lz4Footer, IsBlocks;
    AtConcat(s, 0, HeaderGen(fmt, f.res) + f.payload, FooterGen(fmt, f.res));
    AtConcat(s, 0, HeaderGen(fmt, f.res), f.payload);
    FrameSize(fmt, f);
    if fmt == DeflateGzipExt { GzipAccepts(s, f); } else { Lz4Accepts(s, f); }
  }

  /** One round of the loop on a stream of frames whose first one fits. */
  lemma FirstCut(
    fmt: DataFormat, src: seq<byte>, pos: nat, fs: seq<Frame>, destAvail: nat, hwBuff: nat, swBackup: bool)
    requires Framed(fmt) && |fs| > 0 && (forall k :: 0 <= k < |fs| ==> GoodFrame(fmt, fs[k]))
    requires |fs[0].payload| <= DestSz(hwBuff) && fs[0].res.consumed <= hwBuff
    requires pos + |StreamOf(fmt, fs)| == |src| && At(src, pos, StreamOf(fmt, fs))
    requires 0 < destAvail && fs[0].res.consumed <= destAvail
    ensures var r, next := CutAll(fmt, src, pos, destAvail, hwBuff, swBackup), pos + |fs[0].Bytes(fmt)|;
      && next + |StreamOf(fmt, fs[1..])| == |src| && At(src, next, StreamOf(fmt, fs[1..]))
      && if |fs| == 1 then r.cuts == [Expected(fs[0])] && r.last.Accept? && r.remaining == 0 == |StreamOf(fmt, fs[1..])|
         else var rest := CutAll(fmt, src, next, destAvail - fs[0].res.consumed, hwBuff, swBackup);
              r == Cutting([Expected(fs[0])] + rest.cuts, rest.last, rest.remaining)
  {
    hide GoodFrame, CheckHeader, CutAt, Frame.Bytes, Expected, DestSz;
    var f, rest := fs[0], fs[1..];
    AtConcat(src, pos, f.Bytes(fmt), StreamOf(fmt, rest));
    AtDrop(src, pos, f.Bytes(fmt));
    assert GoodFrame(fmt, f);
    FrameSize(fmt, f);
    CheckAccepts(fmt, src[pos..], f, destAvail, hwBuff, swBackup);
    FooterAt(fmt, src[pos..], f);
    if |rest| > 0 { FrameSize(fmt, rest[0]); }
  }

  lemma NoFirstCut(
    fmt: DataFormat, src: seq<byte>, pos: nat, fs: seq<Frame>, destAvail: nat, hwBuff: nat, swBackup: bool)
    requires Framed(fmt) && |fs| > 0 && GoodFrame(fmt, fs[0])
    requires |fs[0].payload| <= DestSz(hwBuff) && fs[0].res.consumed <= hwBuff
    requires At(src, pos, StreamOf(fmt, fs)) && (destAvail == 0 || fs[0].res.consumed > destAvail)
    ensures var r := CutAll(fmt, src, pos, destAvail, hwBuff, swBackup);
      r.cuts == [] && r.last.BufErr? && r.remaining == |src| - pos
  {
    hide GoodFrame, CheckHeader, Frame.Bytes, DestSz;
    AtConcat(src, pos, fs[0].Bytes(fmt), StreamOf(fmt, fs[1..]));
    AtDrop(src, pos, fs[0].Bytes(fmt));
    NoRoom(fmt, src[pos..], fs[0], destAvail, hwBuff, swBackup);
  }

  /** Frames of the library and a destination of any size: the loop cuts off as many of the first frames
      as fit, leaves the rest of the source as it is, and ends in a buffer error exactly when there is one. */
  lemma {:induction false} CutsFitDestination(
    fmt: DataFormat, src: seq<byte>, pos: nat, fs: seq<Frame>, destAvail: nat, hwBuff: nat, swBackup: bool)
    returns (m: nat)
    requires Framed(fmt) && |fs| > 0 && (forall k :: 0 <= k < |fs| ==> GoodFrame(fmt, fs[k]))
    requires forall k :: 0 <= k < |fs| ==> |fs[k].payload| <= DestSz(hwBuff) && fs[k].res.consumed <= hwBuff
    requires pos + |StreamOf(fmt, fs)| == |src| && At(src, pos, StreamOf(fmt, fs))
    ensures var r := CutAll(fmt, src, pos, destAvail, hwBuff, swBackup);
      && m <= |fs| && r.cuts == ExpectedCuts(fs[..m]) && r.remaining == |StreamOf(fmt, fs[m..])|
      && Fits(fs[..m], destAvail, hwBuff) && (m < |fs| ==> !Fits(fs[..m + 1], destAvail, hwBuff))
      && (if m < |fs| then r.last.BufErr? else r.last.Accept?)
    decreases |fs|
  {
    hide GoodFrame, CutAll, Frame.Bytes, Expected, DestSz, StreamOf;
    assert GoodFrame(fmt, fs[0]);
    var f, rest := fs[0], fs[1..];
    if destAvail == 0 || f.res.consumed > destAvail {
      m := 0;
      NoFirstCut(fmt, src, pos, fs, destAvail, hwBuff, swBackup);
      assert fs[..0] == [] && fs[..1] == [f] && fs[0..] == fs;
    } else {
      FirstCut(fmt, src, pos, fs, destAvail, hwBuff, swBackup);
      m := 0;
      if |rest| > 0 {
        var left := destAvail - f.res.consumed;
        m := CutsFitDestination(fmt, src, pos + |f.Bytes(fmt)|, rest, left, hwBuff, swBackup);
        if m < |rest| { assert fs[..m + 2][1..] == rest[..m + 1]; }
      }
      assert fs[..m + 1][1..] == rest[..m] && fs[m + 1..] == rest[m..];
      m := m + 1;
    }
  }
}
