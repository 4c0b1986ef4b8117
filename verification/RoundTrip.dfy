/** What one compression run writes, the decompressor cuts apart again. */
module RoundTrip {
  import opened Bytes
  import opened CompressCases
  import opened CompressInvariant
  import opened CompressProtocol
  import opened CompressRuns
  import opened Formats
  import opened Framing

  function FrameFor(c: Config, r: Rec): Frame
    requires r.Hw?
  {
    Frame(ResultOf(c, r.chunk, r.payload), r.payload)
  }

  function FramesOf(c: Config, log: seq<Rec>): (fs: seq<Frame>)
    requires forall i :: 0 <= i < |log| ==> log[i].Hw?
    ensures |fs| == |log|
  {
    seq(|log|, i requires 0 <= i < |log| => FrameFor(c, log[i]))
  }

  lemma FramesSnoc(c: Config, log: seq<Rec>)
    requires NoSw(log) && |log| > 0
    ensures NoSw(log[..|log| - 1]) && log[|log| - 1].Hw?
    ensures FramesOf(c, log) == FramesOf(c, log[..|log| - 1]) + [FrameFor(c, log[|log| - 1])]
  {
    hide FrameFor;
    var front := log[..|log| - 1];
    assert NoSw(front);
  }

  lemma {:induction false} StreamSnoc(fmt: DataFormat, fs: seq<Frame>, f: Frame)
    ensures StreamOf(fmt, fs + [f]) == StreamOf(fmt, fs) + f.Bytes(fmt)
    decreases |fs|
  {
    hide Frame.Bytes;
    if |fs| == 0 {
      assert fs + [f] == [f] && [f][1..] == [];
    } else {
      assert (fs + [f])[1..] == fs[1..] + [f];
      StreamSnoc(fmt, fs[1..], f);
    }
  }

  /** The configuration writes the headers and footers of its format. */
  ghost predicate Writes(c: Config, fmt: DataFormat) {
    && c.Valid() && Framed(fmt) && c.hdrSz == HeaderSz(fmt) && c.ftrSz == FooterSz(fmt)
    && (forall r: Results :: c.header(r) == HeaderGen(fmt, r))
    && (forall r: Results :: c.footer(r) == FooterGen(fmt, r))
  }

  lemma FrameBytes(c: Config, fmt: DataFormat, r: Rec)
    requires Writes(c, fmt) && r.Hw?
    ensures FrameOf(c, r) == FrameFor(c, r).Bytes(fmt)
  {
    hide HeaderGen, FooterGen;
    var res := ResultOf(c, r.chunk, r.payload);
    FooterSizeAgrees(fmt, res);
    assert c.footer(res)[..c.ftrSz] == c.footer(res);
  }

  /** The destination of a run is the stream of its frames. */
  lemma {:induction false} FlatIsStream(c: Config, fmt: DataFormat, log: seq<Rec>)
    requires Writes(c, fmt) && NoSw(log)
    ensures Flat(c, log) == StreamOf(fmt, FramesOf(c, log))
    decreases |log|
  {
    hide Frame.Bytes, FrameOf, FrameFor, Writes, FramesOf;
    if |log| > 0 {
      var n := |log| - 1;
      FramesSnoc(c, log);
      FlatIsStream(c, fmt, log[..n]);
      FrameBytes(c, fmt, log[n]);
      StreamSnoc(fmt, FramesOf(c, log[..n]), FrameFor(c, log[n]));
    }
  }

  /** The compressor's contract: payloads shorter than 4 GB, and for LZ4 made of blocks. */
  ghost predicate GoodPayloads(c: Config, fmt: DataFormat) {
    && c.hwBuffSz < WRAP
    && forall d: Data, p: Data :: c.payloadOf(d, p) ==> |p| < WRAP && (fmt == Lz4Fh ==> IsBlocks(p))
  }

  lemma ChunkFits(c: Config, k: nat)
    ensures |c.Chunk(k)| <= c.hwBuffSz
  {
  }

  lemma FrameIsGood(c: Config, fmt: DataFormat, r: Rec)
    requires Writes(c, fmt) && GoodPayloads(c, fmt) && r.Hw? && GoodRec(c, r)
    ensures GoodFrame(fmt, FrameFor(c, r))
    ensures |r.payload| <= DestSz(c.hwBuffSz) && |c.Chunk(r.chunk)| <= c.hwBuffSz
  {
    hide IsBlocks;
    ChunkFits(c, r.chunk);
  }

  lemma {:induction false} ConsumedIsTaken(c: Config, log: seq<Rec>)
    requires NoSw(log)
    ensures Consumed(FramesOf(c, log)) == |Taken(c, log)|
    decreases |log|
  {
    hide FramesOf;
    if |log| > 0 {
      var n := |log| - 1;
      FramesSnoc(c, log);
      ConsumedIsTaken(c, log[..n]);
      ConsumedSnoc(FramesOf(c, log[..n]), FrameFor(c, log[n]));
    }
  }

  lemma {:induction false} ConsumedSnoc(fs: seq<Frame>, f: Frame)
    ensures Consumed(fs + [f]) == Consumed(fs) + f.res.consumed
    decreases |fs|
  {
    if |fs| == 0 {
      assert fs + [f] == [f];
    } else {
      assert (fs + [f])[1..] == fs[1..] + [f];
      ConsumedSnoc(fs[1..], f);
    }
  }

  lemma FramesAreGood(c: Config, fmt: DataFormat, log: seq<Rec>)
    requires Writes(c, fmt) && GoodPayloads(c, fmt) && NoSw(log) && forall i :: 0 <= i < |log| ==> GoodRec(c, log[i])
    ensures var fs := FramesOf(c, log);
      && (forall k :: 0 <= k < |fs| ==> GoodFrame(fmt, fs[k]))
      && (forall k :: 0 <= k < |fs| ==> |fs[k].payload| <= DestSz(c.hwBuffSz) && fs[k].res.consumed <= c.hwBuffSz)
  {
    hide Writes, GoodPayloads, GoodFrame, GoodRec;
    var fs := FramesOf(c, log);
    forall k | 0 <= k < |fs|
      ensures GoodFrame(fmt, fs[k]) && |fs[k].payload| <= DestSz(c.hwBuffSz) && fs[k].res.consumed <= c.hwBuffSz
    {
      assert log[k].Hw? && fs[k] == FrameFor(c, log[k]);
      FrameIsGood(c, fmt, log[k]);
    }
  }

  /** Whatever the interleaving was: when a run without software frames has delivered something, the
      decompressor, given a destination larger than the source, cuts what was written into exactly
      the chunks delivered, in order, with nothing left over. */
  lemma CompressedStreamCuts(c: Config, fmt: DataFormat, s: State, destLen: nat, swBackup: bool)
    requires Writes(c, fmt) && GoodPayloads(c, fmt) && Reachable(c, s) && NoSw(s.out.log) && |s.out.log| > 0
    requires destLen > s.out.inLen
    ensures s.out.outLen <= |s.out.mem|
    ensures var r := CutAll(fmt, s.out.mem[..s.out.outLen], 0, destLen, c.hwBuffSz, swBackup);
      r.cuts == ExpectedCuts(FramesOf(c, s.out.log)) && r.remaining == 0
  {
    hide Flat, Taken, StreamOf, FramesOf, GoodPayloads, CutAll, Fits, GoodFrame, Reachable, Consumed, ExpectedCuts,
        GoodRec;
    InOrderDelivery(c, s);
    StreamCuts(c, fmt, s.out.log, s.out.mem[..s.out.outLen], destLen, swBackup);
  }

  lemma StreamCuts(c: Config, fmt: DataFormat, log: seq<Rec>, src: Data, destLen: nat, swBackup: bool)
    requires Writes(c, fmt) && GoodPayloads(c, fmt) && NoSw(log) && |log| > 0
    requires forall i :: 0 <= i < |log| ==> GoodRec(c, log[i])
    requires src == Flat(c, log) && destLen > |Taken(c, log)|
    ensures var r := CutAll(fmt, src, 0, destLen, c.hwBuffSz, swBackup);
      r.cuts == ExpectedCuts(FramesOf(c, log)) && r.remaining == 0
  {
    hide Flat, Taken, StreamOf, FramesOf, GoodPayloads, CutAll, Fits, GoodFrame, Consumed, ExpectedCuts, GoodRec;
    var fs := FramesOf(c, log);
    FlatIsStream(c, fmt, log);
    ConsumedIsTaken(c, log);
    FramesAreGood(c, fmt, log);
    EnoughDestination(fs, destLen, c.hwBuffSz);
    assert At(src, 0, src);
    CutsAreFrames(fmt, src, 0, fs, destLen, c.hwBuffSz, swBackup);
  }

  /** Sessions of the framed formats write such streams. */
  lemma SessionWrites(
    fmt: DataFormat, src: Data, hwBuffSz: nat, destSz: nat, slotCount: nat, swBackup: bool, singleThread: bool,
    wantCrc: bool, crc0: Crc32.Word, payloadOf: (Data, Data) -> bool, swFrameOf: (Data, Data) -> bool)
    ensures var c := ConfigFor(fmt, src, hwBuffSz, destSz, slotCount, swBackup, singleThread, wantCrc, crc0,
            payloadOf, swFrameOf);
      Writes(c, fmt) <==> Framed(fmt) && hwBuffSz > 0 && slotCount > 0 && HeaderSz(fmt) <= destSz
  {
    hide HeaderGen, FooterGen, Config.Valid;
    SessionsAreValid(fmt, src, hwBuffSz, destSz, slotCount, swBackup, singleThread, wantCrc, crc0, payloadOf,
        swFrameOf);
  }

  /** The round trip for a session: gzip-ext or LZ4, any hardware buffer, any number of slots and threads. */
  lemma SessionRoundTrip(
    fmt: DataFormat, src: Data, hwBuffSz: nat, destSz: nat, slotCount: nat, swBackup: bool, singleThread: bool,
    wantCrc: bool, crc0: Crc32.Word, payloadOf: (Data, Data) -> bool, swFrameOf: (Data, Data) -> bool,
    s: State, destLen: nat)
    requires Framed(fmt) && 0 < hwBuffSz < WRAP && slotCount > 0 && HeaderSz(fmt) <= destSz
    requires forall d: Data, p: Data :: payloadOf(d, p) ==> |p| < WRAP && (fmt == Lz4Fh ==> IsBlocks(p))
    requires var c := ConfigFor(fmt, src, hwBuffSz, destSz, slotCount, swBackup, singleThread, wantCrc, crc0,
             payloadOf, swFrameOf);
      Reachable(c, s) && NoSw(s.out.log) && |s.out.log| > 0 && destLen > s.out.inLen
    ensures s.out.outLen <= |s.out.mem|
    ensures var c := ConfigFor(fmt, src, hwBuffSz, destSz, slotCount, swBackup, singleThread, wantCrc, crc0,
            payloadOf, swFrameOf);
      var r := CutAll(fmt, s.out.mem[..s.out.outLen], 0, destLen, hwBuffSz, swBackup);
      r.cuts == ExpectedCuts(FramesOf(c, s.out.log)) && r.remaining == 0
  {
    hide Reachable, CutAll, FramesOf, ExpectedCuts, IsBlocks, HeaderGen, FooterGen;
    var c := ConfigFor(fmt, src, hwBuffSz, destSz, slotCount, swBackup, singleThread, wantCrc, crc0, payloadOf,
        swFrameOf);
    SessionWrites(fmt, src, hwBuffSz, destSz, slotCount, swBackup, singleThread, wantCrc, crc0, payloadOf, swFrameOf);
    CompressedStreamCuts(c, fmt, s, destLen, swBackup);
  }
}
