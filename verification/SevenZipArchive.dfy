/** The archive as a file: signature header, packed data, end header; and its integrity check. */
module SevenZipArchive {
  import opened Bytes
  import opened SevenZipFiles
  import opened SevenZipFormat
  import SevenZipLayout
  import opened SevenZipParse
  import opened SevenZipReader
  import opened SevenZipWriter
  import opened Wrappers

  const BASE: nat := 8         // where the start header begins, behind signature and version
  const BODY: nat := 0x20

  datatype SignatureHeader = SignatureHeader(startCRC: u32, offset: u64, size: u64, nextCRC: u32)

  /** The value of a CRC register as a 32-bit number. */
  function Crc32Of(s: seq<byte>): u32 {
    C.ValueFits(C.Crc(C.Zero(), s));
    C.Value(C.Crc(C.Zero(), s))
  }

  /** The twenty bytes covered by the start header's own checksum. */
  function Covered(offset: u64, size: u64, crc: u32): (r: seq<byte>)
    ensures |r| == 20
  {
    LE(offset, 8) + LE(size, 8) + LE(crc, 4)
  }

  /** checkHeaderCRC: both checksums, the second over everything from the end header to the end of
      the file, in buffers of 4096 bytes. */
  method CheckHeaderCRC(file: seq<byte>, sh: SignatureHeader) returns (ok: bool)
    ensures ok <==> Crc32Of(Covered(sh.offset, sh.size, sh.nextCRC)) == sh.startCRC
                    && Crc32Of(if sh.offset + BODY <= |file| then file[sh.offset + BODY..] else []) == sh.nextCRC
  {
    hide C.Crc, LE;
    var crc := C.Crc(C.Zero(), LE(sh.offset, 8));
    crc := C.Crc(crc, LE(sh.size, 8));
    crc := C.Crc(crc, LE(sh.nextCRC, 4));
    C.CrcConcat(C.Zero(), LE(sh.offset, 8), LE(sh.size, 8));
    C.CrcConcat(C.Zero(), LE(sh.offset, 8) + LE(sh.size, 8), LE(sh.nextCRC, 4));
    C.ValueFits(crc);
    if C.Value(crc) != sh.startCRC { return false; }
    var tail := if sh.offset + BODY <= |file| then file[sh.offset + BODY..] else [];
    var pos := 0;
    crc := C.Zero();
    C.XorCancel(C.Zero(), C.Ones());
    assert C.Crc(C.Zero(), tail[..0]) == C.Zero() by { CrcOfNothing(); }
    while pos < |tail|
      invariant pos <= |tail| && crc == C.Crc(C.Zero(), tail[..pos])
      decreases |tail| - pos
    {
      var n := if |tail| - pos < 4096 then |tail| - pos else 4096;
      C.CrcConcat(C.Zero(), tail[..pos], tail[pos..pos + n]);
      assert tail[..pos] + tail[pos..pos + n] == tail[..pos + n];
      crc := C.Crc(crc, tail[pos..pos + n]);
      pos := pos + n;
    }
    assert tail[..pos] == tail;
    C.ValueFits(crc);
    ok := C.Value(crc) == sh.nextCRC;
  }

  lemma CrcOfNothing()
    ensures C.Crc(C.Zero(), []) == C.Zero()
  {
    C.XorCancel(C.Zero(), C.Ones());
  }

  // ---- the file ----

  function Signature(): (r: seq<byte>)
    ensures |r| == BASE
  {
    [0x37, 0x7a, 0xBC, 0xAF, 0x27, 0x1C, 0, 4]
  }

  /** What a finished archive looks like. */
  function Archive(packed: seq<byte>, h: EndHeader): seq<byte> {
    var body := HeaderBytes(h);
    var covered := Covered(|packed| % U64, |body| % U64, Crc32Of(body));
    Signature() + LE(Crc32Of(covered), 4) + covered + packed + body
  }

  /** doCompressFile around the compressor: room for the start header, the packed data, the end
      header, and then the start header filled in. */
  method WriteArchive(packed: seq<byte>, h: EndHeader) returns (file: seq<byte>)
    requires GoodHeader(h) && Writable(h.files) && |packed| < U64 && |HeaderBytes(h)| < U64
    ensures file == Archive(packed, h)
    ensures h.streams.Some? ==>
              SevenZipLayout.DigestsOf(file, BODY + |packed|) == Some(h.streams.value.substreams.crcs)
  {
    hide SevenZipLayout.DigestsOf, SignatureAt, Covered;
    hide HeaderBytes, GoodHeader, Writable, C.Crc, LE;
    var w := new Writer();
    var size := w.WriteEndHeader(h);
    assert [] + HeaderBytes(h) == HeaderBytes(h);
    C.ValueFits(w.crc);
    var covered := Covered(|packed|, size, C.Value(w.crc));
    file := Signature() + LE(Crc32Of(covered), 4) + covered + packed + w.out;
    ArchiveLayout(packed, h);
    if h.streams.Some? { SevenZipLayout.DigestsAt(file, BODY + |packed|, h); }
  }

  /** resolveSignatureHeader, field by field. */
  method ResolveSignatureHeader(file: seq<byte>) returns (r: Option<SignatureHeader>)
    ensures r.Some? <==> |file| >= BODY
    ensures r.Some? ==> r.value == SignatureAt(file)
  {
    if |file| < BODY { return None; }
    Pow256Values();
    r := Some(SignatureHeader(UnLE(file[8..12]), UnLE(file[12..20]), UnLE(file[20..28]), UnLE(file[28..32])));
  }

  function SignatureAt(file: seq<byte>): SignatureHeader
    requires |file| >= BODY
  {
    Pow256Values();
    SignatureHeader(UnLE(file[8..12]), UnLE(file[12..20]), UnLE(file[20..28]), UnLE(file[28..32]))
  }

  lemma FieldAt(file: seq<byte>, i: nat, x: nat, k: nat)
    requires At(file, i, LE(x, k)) && x < Pow256(k)
    ensures UnLE(file[i..i + k]) == x
  {
    assert file[i..i + k] == LE(x, k);
    UnLEInvertsLE(x, k);
  }

  lemma AtSelf(s: seq<byte>)
    ensures At(s, 0, s)
  {
  }

  /** The start header of a finished archive names the end header, which lies where it says. */
  lemma ArchiveLayout(packed: seq<byte>, h: EndHeader)
    requires |packed| < U64 && |HeaderBytes(h)| < U64
    ensures var f, body := Archive(packed, h), HeaderBytes(h);
      && |f| == BODY + |packed| + |body| && f[..8] == [0x37, 0x7a, 0xBC, 0xAF, 0x27, 0x1C, 0, 4]
      && SignatureAt(f)
          == SignatureHeader(Crc32Of(Covered(|packed|, |body|, Crc32Of(body))), |packed|, |body|, Crc32Of(body))
      && At(f, BODY + |packed|, body) && f[BODY + |packed|..] == body
  {
    hide HeaderBytes, C.Crc, LE, UnLE, Pow256, Crc32Of;
    var body := HeaderBytes(h);
    var covered := Covered(|packed|, |body|, Crc32Of(body));
    var f := Archive(packed, h);
    var a := Signature() + LE(Crc32Of(covered), 4);
    AtSelf(f);
    AtConcat(f, 0, a + covered + packed, body);
    AtConcat(f, 0, a + covered, packed);
    AtConcat(f, 0, a, covered);
    AtConcat(f, 0, Signature(), LE(Crc32Of(covered), 4));
    AtConcat(f, 12, LE(|packed|, 8) + LE(|body|, 8), LE(Crc32Of(body), 4));
    AtConcat(f, 12, LE(|packed|, 8), LE(|body|, 8));
    Pow256Values();
    FieldAt(f, 8, Crc32Of(covered), 4);
    FieldAt(f, 12, |packed|, 8);
    FieldAt(f, 20, |body|, 8);
    FieldAt(f, 28, Crc32Of(body), 4);
  }

  /** Writing an archive and opening it again the way doDecompressFile does: both checksums are
      accepted and the end header is recovered. */
  method WriteThenOpen(packed: seq<byte>, h: EndHeader) returns (r: Option<ReadHeader>)
    requires GoodHeader(h) && Writable(h.files) && |packed| < U64 && |HeaderBytes(h)| < U64
    ensures r == Some(ReadHeader(
                        Some(h.property.id),
                        if h.streams.Some? then Some(Recovered(h.streams.value)) else None,
                        Some(ReadFiles(|h.files.empties|, |h.files.files|, Plains(All(h.files))))))
  {
    hide HeaderBytes, C.Crc, LE, Crc32Of, Archive, SignatureAt, Covered, GoodStreams, GoodFiles, ParseHeader, Recovered;
    var file := WriteArchive(packed, h);
    ArchiveLayout(packed, h);
    var sh := ResolveSignatureHeader(file);
    var ok := CheckHeaderCRC(file, sh.value);
    if !ok { return None; }
    var reader := new Reader(file, sh.value.offset + BODY);
    HeaderRoundTrip(file, BODY + |packed|, h);
    r := reader.ResolveEndHeader();
  }
}
