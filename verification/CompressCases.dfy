/** The protocol for each container format, and runs of real sessions that show why in-order delivery
    and staying inside the destination need their conditions. */
module CompressCases {
  import opened Bytes
  import opened Crc32
  import opened Formats
  import opened CompressProtocol
  import opened CompressInvariant
  import opened CompressLate
  import opened CompressOverrun
  import opened CompressRuns
  import opened CompressScenarios

  /** A session of one format: oracle contracts for the hardware and the software compressor are
      parameters. */
  function ConfigFor(
    fmt: DataFormat, src: Data, hwBuffSz: nat, destSz: nat, slotCount: nat, swBackup: bool, singleThread: bool,
    wantCrc: bool, crc0: Word, payloadOf: (Data, Data) -> bool, swFrameOf: (Data, Data) -> bool): Config
  {
    Config(src, hwBuffSz, destSz, slotCount, swBackup, singleThread,
           HeaderSz(fmt), FooterSz(fmt), (r: Results) => HeaderGen(fmt, r), (r: Results) => FooterGen(fmt, r),
           wantCrc && IsDeflate(fmt), crc0, (d: Data) => SumFor(fmt, d), payloadOf, swFrameOf)
  }

  /** The theorems about runs apply to every format; those about short output to all but DEFLATE_4B. */
  lemma SessionsAreValid(
    fmt: DataFormat, src: Data, hwBuffSz: nat, destSz: nat, slotCount: nat, swBackup: bool, singleThread: bool,
    wantCrc: bool, crc0: Word, payloadOf: (Data, Data) -> bool, swFrameOf: (Data, Data) -> bool)
    ensures var c := ConfigFor(fmt, src, hwBuffSz, destSz, slotCount, swBackup, singleThread, wantCrc, crc0,
            payloadOf, swFrameOf);
      && (c.Valid() <==> hwBuffSz > 0 && slotCount > 0 && HeaderSz(fmt) <= destSz)
      && (c.Tight() <==> fmt != Deflate4B)
  {
    hide HeaderGen, FooterGen;
    var c := ConfigFor(fmt, src, hwBuffSz, destSz, slotCount, swBackup, singleThread, wantCrc, crc0, payloadOf,
        swFrameOf);
    forall r: Results ensures |c.header(r)| == c.hdrSz && |c.footer(r)| >= c.ftrSz
        && (|c.footer(r)| == c.ftrSz <==> fmt != Deflate4B) {
      FooterSizeAgrees(fmt, r);
    }
    assert |c.footer(Results(0, 0, Zero()))| == c.ftrSz <==> fmt != Deflate4B;
  }

  // ---- a dropped response, then a software chunk ----

  /** A deflate block that stores its at most 65535 bytes (section 3.2.4 of RFC 1951). */
  function Stored(d: Data): (r: Data)
    requires |d| < 0x1_0000
    ensures |r| == |d| + 5
  {
    [1] + LE(|d|, 2) + LE(0xffff - |d|, 2) + d
  }

  /** gzip-ext with the smallest hardware buffer and its 128 slots, fallback, two threads (a request
      threshold of 1), and a destination of 1056 bytes. The compressors may give any non-empty result. */
  function GapConfig(src: Data): Config {
    ConfigFor(DeflateGzipExt, src, 1024, 1056, 128, true, false, true, Zero(), (_, p) => |p| > 0, (_, f) => |f| > 0)
  }

  lemma GapChunks(src: Data)
    requires |src| == 1025
    ensures GapConfig(src).Chunk(0) == src[..1024] && GapConfig(src).Chunk(1) == src[1024..]
    ensures Sendable(GapConfig(src), 1)
  {
    var c := GapConfig(src);
    assert c.Start(0) == 0 && c.Start(1) == 1024;
  }

  lemma GapRecord(src: Data) returns (r: Rec)
    requires |src| == 1025
    ensures GapConfig(src).Valid() && r == Hw(0, Stored(src[..1024])) && Possible(GapConfig(src), r)
    ensures |Flat(GapConfig(src), [])| <= 1056 < |Flat(GapConfig(src), [] + [r])|
  {
    hide HeaderGen, FooterGen, Stored, FrameOf, Crc;
    var c := GapConfig(src);
    SessionsAreValid(DeflateGzipExt, src, 1024, 1056, 128, true, false, true, Zero(), c.payloadOf, c.swFrameOf);
    GapChunks(src);
    r := Hw(0, Stored(src[..1024]));
    Appended(c, [], r);
    RecSize(c, r);
  }

  /** In-order delivery fails here, for every source of 1025 bytes: the response of chunk 0, stored in
      1029 bytes, does not fit with its header and footer and is dropped; before stop_submitting is
      set the software fallback delivers chunk 1 in a gzip frame of its own. */
  lemma GapRun(src: Data) returns (s: State)
    requires |src| == 1025
    ensures Reachable(GapConfig(src), s) && s.out.late && !InOrder(s.out.log)
    ensures s.out.log == [Sw(1, GapFrame(src))] && s.out.outLen == |GapFrame(src)| <= GapConfig(src).destSz
  {
    hide Crc, Stored, Flat, Possible, Config.Chunk, Config.Valid, FrameOf, GzipExtHeader, GzipFooter, LE, Reachable;
    var r := GapRecord(src);
    GapChunks(src);
    StoredFrameSize(src[1024..]);
    InOrderAppend([], r);
    s := LateCanHappen(GapConfig(src), [], r, GapFrame(src));
    assert [] + [Sw(1, GapFrame(src))] == [Sw(1, GapFrame(src))];
    GapOutput(src, s);
  }

  lemma GapOutput(src: Data, s: State)
    requires |src| == 1025 && Reachable(GapConfig(src), s) && s.out.log == [Sw(1, GapFrame(src))]
    ensures s.out.outLen == |GapFrame(src)|
  {
    hide Reachable, GapFrame, GapConfig;
    InOrderDelivery(GapConfig(src), s);
    Appended(GapConfig(src), [], Sw(1, GapFrame(src)));
    assert [] + [Sw(1, GapFrame(src))] == [Sw(1, GapFrame(src))];
  }

  /** A gzip-ext frame that stores its data. */
  function StoredFrame(d: Data): Data
    requires |d| < 0x1_0000
  {
    var res := Results(|d|, |Stored(d)|, Crc(Zero(), d));
    HeaderGen(DeflateGzipExt, res) + Stored(d) + FooterGen(DeflateGzipExt, res)
  }

  function GapFrame(src: Data): Data
    requires |src| == 1025
  {
    StoredFrame(src[1024..])
  }

  lemma StoredFrameSize(d: Data)
    requires |d| < 0x1_0000
    ensures |StoredFrame(d)| == |d| + 37
  {
    hide Crc;
  }

  // ---- a software chunk larger than the destination ----

  lemma FirstFrame(src: Data) returns (log: seq<Rec>)
    requires |src| == 1025
    ensures GapConfig(src).Valid() && log == [Sw(0, StoredFrame(src[..1024]))]
    ensures Overlong(GapConfig(src), log) && |Flat(GapConfig(src), log)| == 1061
  {
    hide StoredFrame, Config.Chunk, HeaderGen, FooterGen;
    var c := GapConfig(src);
    SessionsAreValid(DeflateGzipExt, src, 1024, 1056, 128, true, false, true, Zero(), c.payloadOf, c.swFrameOf);
    GapChunks(src);
    StoredFrameSize(src[..1024]);
    log := [Sw(0, StoredFrame(src[..1024]))];
    assert [] + log == log;
    GoodAppend(c, [], log[0]);
  }

  /** The same session: stored in software the first chunk takes 1061 bytes, and the fallback of the
      submitter writes all of them into a destination of 1056. */
  lemma OverrunRun(src: Data) returns (s: State)
    requires |src| == 1025
    ensures Reachable(GapConfig(src), s) && s.out.log == [Sw(0, StoredFrame(src[..1024]))]
    ensures s.out.outLen == 1061 && |s.out.mem| > GapConfig(src).destSz == 1056
  {
    hide StoredFrame, Config.Chunk, Config.Valid, Overlong, Reachable, Flat;
    var log := FirstFrame(src);
    s := OverrunHappens(GapConfig(src), log);
  }
}
