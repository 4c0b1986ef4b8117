/** Writing the 7z end header: every write function appends its bytes, updates the running CRC and
    returns how many bytes it wrote. */
module SevenZipWriter {
  import opened Bytes
  import C = Crc32
  import opened SevenZipFormat
  import opened SevenZipNumbers
  import opened Wrappers

  lemma Assoc(a: seq<byte>, b: seq<byte>, c: seq<byte>)
    ensures a + b + c == a + (b + c)
  {
  }

  /** The buffer of the empty-stream vector is large enough for the byte written last, unless there
      are no files and a multiple of eight directories. */
  lemma EmptyStreamFits(m: nat, n: nat)
    ensures m / 8 < Ceil8(m + n) <==> n > 0 || m % 8 != 0
  {
  }

  function TopBits(k: nat): byte
    requires k < 8
  {
    [0, 0x80, 0xc0, 0xe0, 0xf0, 0xf8, 0xfc, 0xfe][k]
  }

  lemma FirstSetBytes(m: nat, n: nat, i: nat)
    requires i < Ceil8(n) && m <= n
    ensures PackByte(FirstSet(m, n), i) == if i < m / 8 then 0xff else if i == m / 8 then TopBits(m % 8) else 0
  {
  }

  method CalculateEmptyStreamProperty(m: nat, n: nat) returns (res: array<byte>)
    requires n > 0 || m % 8 != 0
    ensures fresh(res) && res[..] == Pack(FirstSet(m, m + n))
  {
    hide PackByte, FirstSet;
    EmptyStreamFits(m, n);
    var size := Ceil8(m + n);
    res := new byte[size](_ => 0);
    for i := 0 to m / 8
      invariant forall k :: 0 <= k < size ==> res[k] == if k < i then 0xff else 0
    {
      res[i] := 0xff;
    }
    var sum: byte := 0;
    for i := 0 to m % 8
      invariant sum == TopBits(i)
    {
      sum := sum + Pow2(7 - i);
    }
    res[m / 8] := sum;
    forall k | 0 <= k < size ensures res[k] == Pack(FirstSet(m, m + n))[k] { FirstSetBytes(m, m + n, k); }
  }

  lemma BitPrefix(bits: seq<bool>, n: nat, k: nat)
    requires n <= |bits|
    ensures Bit(bits[..n], k) == if k < n then Bit(bits, k) else 0
  {
  }

  /** The i-th byte of a prefix, bit by bit. */
  lemma PackBytePrefix(bits: seq<bool>, n: nat, i: nat)
    requires n <= |bits|
    ensures PackByte(bits[..n], i) ==
            128 * Kept(bits, n, 8 * i) + 64 * Kept(bits, n, 8 * i + 1) + 32 * Kept(bits, n, 8 * i + 2)
            + 16 * Kept(bits, n, 8 * i + 3) + 8 * Kept(bits, n, 8 * i + 4) + 4 * Kept(bits, n, 8 * i + 5)
            + 2 * Kept(bits, n, 8 * i + 6) + Kept(bits, n, 8 * i + 7)
  {
    hide Bit;
    BitPrefix(bits, n, 8 * i); BitPrefix(bits, n, 8 * i + 1);
    BitPrefix(bits, n, 8 * i + 2); BitPrefix(bits, n, 8 * i + 3);
    BitPrefix(bits, n, 8 * i + 4); BitPrefix(bits, n, 8 * i + 5);
    BitPrefix(bits, n, 8 * i + 6); BitPrefix(bits, n, 8 * i + 7);
  }

  function Kept(bits: seq<bool>, n: nat, k: nat): nat {
    if k < n then Bit(bits, k) else 0
  }

  lemma PackByteSnoc(bits: seq<bool>, i: nat, j: nat)
    requires j < 8 && 8 * i + j < |bits|
    ensures PackByte(bits[..8 * i + j + 1], i) == PackByte(bits[..8 * i + j], i)
            + if bits[8 * i + j] then Pow2(7 - j) else 0
  {
    hide PackByte;
    PackBytePrefix(bits, 8 * i + j + 1, i);
    PackBytePrefix(bits, 8 * i + j, i);
  }

  lemma PackByteEmpty(bits: seq<bool>, i: nat)
    requires |bits| <= 8 * i
    ensures PackByte(bits, i) == 0
  {
  }

  method CalculateEmptyFileProperty(items: seq<Item>) returns (res: array<byte>)
    ensures fresh(res) && res[..] == Pack(EmptyFlags(items))
  {
    hide PackByte, Pack, Ceil8;
    ghost var flags := EmptyFlags(items);
    var m := |items|;
    var size := Ceil8(m);
    res := new byte[size](_ => 0);
    var index := 0;
    for i := 0 to size
      invariant index == if 8 * i < m then 8 * i else m
      invariant forall k :: 0 <= k < i ==> res[k] == PackByte(flags, k)
      invariant forall k :: i <= k < size ==> res[k] == 0
    {
      PackByteEmpty(flags[..index], i);
      var j := 0;
      while j < 8 && index < m
        invariant 0 <= j <= 8 && index == 8 * i + j <= m
        invariant res[i] == PackByte(flags[..index], i)
        invariant forall k :: 0 <= k < i ==> res[k] == PackByte(flags, k)
        invariant forall k :: i < k < size ==> res[k] == 0
        decreases 8 - j
      {
        PackByteSnoc(flags, i, j);
        if items[index].isEmpty { res[i] := res[i] + Pow2(7 - j); }
        index := index + 1;
        j := j + 1;
      }
      PackByteDone(flags, i, index);
    }
    PackIs(flags, res[..]);
  }

  lemma PackByteDone(bits: seq<bool>, i: nat, index: nat)
    requires index <= |bits| && (index == |bits| || index >= 8 * i + 8)
    ensures PackByte(bits[..index], i) == PackByte(bits, i)
  {
    hide PackByte;
    PackBytePrefix(bits, index, i);
    PackBytePrefix(bits, |bits|, i);
    assert bits[..|bits|] == bits;
  }

  lemma PackIs(bits: seq<bool>, r: seq<byte>)
    requires |r| == Ceil8(|bits|) && forall k :: 0 <= k < |r| ==> r[k] == PackByte(bits, k)
    ensures r == Pack(bits)
  {
  }

  /** genNamesPart: a zero byte, then every name with its terminating NUL as two-byte characters. */
  method GenNamesPart(items: seq<Item>) returns (buf: seq<byte>)
    ensures buf == [0] + Names(items)
  {
    hide Wide;
    buf := [0];
    for i := 0 to |items|
      invariant buf == [0] + Names(items[..i])
    {
      buf := AppendWide(buf, items[i].name + [0]);
      assert items[..i + 1][..i] == items[..i];
    }
    assert items[..|items|] == items;
  }

  method AppendWide(start: seq<byte>, s: seq<byte>) returns (buf: seq<byte>)
    ensures buf == start + Wide(s)
  {
    buf := start;
    for j := 0 to |s|
      invariant buf == start + Wide(s[..j])
    {
      WideSnoc(s, j);
      buf := buf + [s[j]] + [0];
    }
    assert s[..|s|] == s;
  }

  lemma WideSnoc(s: seq<byte>, j: nat)
    requires j < |s|
    ensures Wide(s[..j + 1]) == Wide(s[..j]) + [s[j]] + [0]
  {
  }

  /** The counts are 64-bit numbers and the bit vector of directories fits its buffer. */
  predicate Writable(f: FilesInfo) {
    && 8 * |All(f)| + 2 < U64 && 1 + |Names(All(f))| < U64
    && (|f.files| > 0 || |f.empties| % 8 != 0)
  }

  lemma SumEmpty()
    ensures Sum([]) == 0
  {
  }

  lemma SumUpTo(ns: seq<u64>, i: nat)
    requires i < |ns|
    ensures Sum(ns[..i + 1]) == Sum(ns[..i]) + ns[i]
  {
    assert ns[..i + 1][..i] == ns[..i];
  }

  /** Every later entry adds at least one. */
  lemma {:induction false} SumRest(ns: seq<u64>, i: nat)
    requires i <= |ns| && forall k :: 0 <= k < |ns| ==> ns[k] > 0
    ensures Sum(ns) >= Sum(ns[..i]) + |ns| - i
    decreases |ns| - i
  {
    if i < |ns| {
      SumUpTo(ns, i);
      SumRest(ns, i + 1);
    } else {
      assert ns[..i] == ns;
    }
  }

  class Writer {
    var out: seq<byte>
    var crc: C.Word

    /** The CRC accumulated piece by piece is the CRC of everything written. */
    ghost predicate Valid()
      reads this
    {
      crc == C.Crc(C.Zero(), out)
    }

    constructor ()
      ensures Valid() && out == []
    {
      out, crc := [], C.Zero();
      C.XorCancel(C.Zero(), C.Ones());
    }

    /** fwrite, then crc32 over the same bytes. */
    method Put(b: seq<byte>) returns (n: nat)
      requires Valid()
      modifies this
      ensures Valid() && out == old(out) + b && n == |b|
    {
      C.CrcConcat(C.Zero(), out, b);
      out := out + b;
      crc := C.Crc(crc, b);
      n := |b|;
    }

    method WriteNumber(x: u64) returns (n: nat)
      requires Valid()
      modifies this
      ensures Valid() && out == old(out) + Encode(x) && n == |Encode(x)|
    {
      var bytes := new byte[9];
      var len := GetUint64Bytes(x, bytes);
      n := Put(bytes[..len]);
    }

    method WriteLen(k: nat) returns (n: nat)
      requires Valid() && k < U64
      modifies this
      ensures Valid() && out == old(out) + Len(k) && n == |Len(k)|
    {
      hide C.Crc, Encode;
      n := WriteNumber(k);
    }

    method WriteNumbers(xs: seq<u64>) returns (total: nat)
      requires Valid()
      modifies this
      ensures Valid() && out == old(out) + Numbers(xs) && total == |Numbers(xs)|
    {
      hide C.Crc, Encode, Len;
      total := 0;
      for i := 0 to |xs|
        invariant Valid() && out == old(out) + Numbers(xs[..i]) && total == |Numbers(xs[..i])|
      {
        var n := WriteNumber(xs[i]);
        assert xs[..i + 1][..i] == xs[..i];
        Assoc(old(out), Numbers(xs[..i]), Encode(xs[i]));
        total := total + n;
      }
      assert xs[..|xs|] == xs;
    }

    /** writeTime for a list: four bytes each in machine order. */
    method WriteWords(ws: seq<u32>) returns (total: nat)
      requires Valid()
      modifies this
      ensures Valid() && out == old(out) + Words(ws) && total == |Words(ws)|
    {
      hide C.Crc;
      total := 0;
      for i := 0 to |ws|
        invariant Valid() && out == old(out) + Words(ws[..i]) && total == |Words(ws[..i])|
      {
        var n := Put(LE(ws[i], 4));
        assert ws[..i + 1][..i] == ws[..i];
        Assoc(old(out), Words(ws[..i]), LE(ws[i], 4));
        total := total + n;
      }
      assert ws[..|ws|] == ws;
    }

    method WriteArchiveProperties(p: Property) returns (total: nat)
      requires Valid() && |p.data| < U64
      modifies this
      ensures Valid() && out == old(out) + ([ARCHIVE_PROPERTIES] + PropertyBody(p))
              && total == |[ARCHIVE_PROPERTIES] + PropertyBody(p)|
    {
      hide C.Crc, Encode, Len;
      total := Put([ARCHIVE_PROPERTIES]);
      ghost var g := out;
      var n;
      n := WriteNumber(p.id);
      total := total + n;
      n := WriteLen(|p.data|);
      total := total + n;
      Assoc(g, Encode(p.id), Len(|p.data|));
      n := Put(p.data);
      total := total + n;
      Assoc(g, Encode(p.id) + Len(|p.data|), p.data);
      n := Put([END]);
      total := total + n;
      Assoc(g, Encode(p.id) + Len(|p.data|) + p.data, [END]);
      Assoc(old(out), [ARCHIVE_PROPERTIES], PropertyBody(p));
    }

    method WritePackInfo(p: PackInfo) returns (total: nat)
      requires Valid() && |p.sizes| < U64
      modifies this
      ensures Valid() && out == old(out) + ([PACKINFO] + PackBody(p)) && total == |[PACKINFO] + PackBody(p)|
    {
      hide C.Crc, Encode, Numbers, Len;
      total := Put([PACKINFO]);
      ghost var g := out;
      var n;
      n := WriteNumber(p.pos);
      total := total + n;
      n := WriteLen(|p.sizes|);
      total := total + n;
      Assoc(g, Encode(p.pos), Len(|p.sizes|));
      n := Put([SIZE]);
      total := total + n;
      Assoc(g, Encode(p.pos) + Len(|p.sizes|), [SIZE]);
      n := WriteNumbers(p.sizes);
      total := total + n;
      Assoc(g, Encode(p.pos) + Len(|p.sizes|) + [SIZE], Numbers(p.sizes));
      n := Put([END]);
      total := total + n;
      Assoc(g, Encode(p.pos) + Len(|p.sizes|) + [SIZE] + Numbers(p.sizes), [END]);
      Assoc(old(out), [PACKINFO], PackBody(p));
    }

    method WriteFolder(f: Coder) returns (total: nat)
      requires Valid()
      modifies this
      ensures Valid() && out == old(out) + FolderBytes(f) && total == |FolderBytes(f)|
    {
      hide C.Crc, Encode, Len;
      ghost var g := out;
      total := 0;
      var n;
      n := WriteNumber(1);
      total := total + n;
      n := Put([f.first]);
      total := total + n;
      Assoc(g, Encode(1), [f.first]);
      n := Put(f.id);
      total := total + n;
      Assoc(g, Encode(1) + [f.first], f.id);
    }

    method WriteFolders(fs: seq<Coder>) returns (total: nat)
      requires Valid()
      modifies this
      ensures Valid() && out == old(out) + Folders(fs) && total == |Folders(fs)|
    {
      hide C.Crc, FolderBytes;
      total := 0;
      for i := 0 to |fs|
        invariant Valid() && out == old(out) + Folders(fs[..i]) && total == |Folders(fs[..i])|
      {
        var n := WriteFolder(fs[i]);
        assert fs[..i + 1][..i] == fs[..i];
        Assoc(old(out), Folders(fs[..i]), FolderBytes(fs[i]));
        total := total + n;
      }
      assert fs[..|fs|] == fs;
    }

    method WriteCodersInfo(c: CodersInfo) returns (total: nat)
      requires Valid() && |c.folders| < U64
      modifies this
      ensures Valid() && out == old(out) + ([UNPACKINFO] + CodersBody(c)) && total == |[UNPACKINFO] + CodersBody(c)|
    {
      hide C.Crc, Encode, Numbers, Folders, Len;
      total := Put([UNPACKINFO]);
      ghost var g := out;
      var n;
      n := Put([FOLDER]);
      total := total + n;
      n := WriteLen(|c.folders|);
      total := total + n;
      Assoc(g, [FOLDER], Len(|c.folders|));
      n := Put([0]);
      total := total + n;
      Assoc(g, [FOLDER] + Len(|c.folders|), [0]);
      n := WriteFolders(c.folders);
      total := total + n;
      Assoc(g, [FOLDER] + Len(|c.folders|) + [0], Folders(c.folders));
      n := Put([CODERS_UNPACK_SIZE]);
      total := total + n;
      Assoc(g, [FOLDER] + Len(|c.folders|) + [0] + Folders(c.folders), [CODERS_UNPACK_SIZE]);
      n := WriteNumbers(c.unpackSizes);
      total := total + n;
      Assoc(g, [FOLDER] + Len(|c.folders|) + [0] + Folders(c.folders) + [CODERS_UNPACK_SIZE], Numbers(c.unpackSizes));
      n := Put([END]);
      total := total + n;
      Assoc(g, [FOLDER] + Len(|c.folders|) + [0] + Folders(c.folders) + [CODERS_UNPACK_SIZE]
          + Numbers(c.unpackSizes), [END]);
      Assoc(old(out), [UNPACKINFO], CodersBody(c));
    }

    /** The two loops over the sizes: for each folder one less than it has files. */
    method WriteSizes(s: Substreams) returns (total: nat)
      requires Valid() && GoodCounts(s)
      modifies this
      ensures Valid() && out == old(out) + Numbers(s.sizes) && total == |Numbers(s.sizes)|
    {
      hide C.Crc, Encode, Sum;
      total := 0;
      var index := 0;
      SumEmpty();
      for i := 0 to |s.counts|
        invariant Valid() && index == Sum(s.counts[..i]) - i && index <= |s.sizes|
        invariant out == old(out) + Numbers(s.sizes[..index]) && total == |Numbers(s.sizes[..index])|
      {
        SumUpTo(s.counts, i);
        SumRest(s.counts, i + 1);
        var j := 0;
        while j < s.counts[i] - 1
          invariant 0 <= j <= s.counts[i] - 1 && Valid() && index == Sum(s.counts[..i]) - i + j && index <= |s.sizes|
          invariant out == old(out) + Numbers(s.sizes[..index]) && total == |Numbers(s.sizes[..index])|
        {
          var n := WriteNumber(s.sizes[index]);
          assert s.sizes[..index + 1][..index] == s.sizes[..index];
          Assoc(old(out), Numbers(s.sizes[..index]), Encode(s.sizes[index]));
          total, index, j := total + n, index + 1, j + 1;
        }
      }
      assert s.counts[..|s.counts|] == s.counts && s.sizes[..|s.sizes|] == s.sizes;
    }

    method WriteSubstreamsInfo(s: Substreams) returns (total: nat)
      requires Valid() && GoodCounts(s)
      modifies this
      ensures Valid() && out == old(out) + ([SUBSTREAMSINFO] + SubstreamsBody(s))
              && total == |[SUBSTREAMSINFO] + SubstreamsBody(s)|
    {
      hide C.Crc, Numbers, Words, GoodCounts;
      total := Put([SUBSTREAMSINFO]);
      ghost var g := out;
      var n;
      n := Put([NUM_UNPACK_STREAM]);
      total := total + n;
      n := WriteNumbers(s.counts);
      total := total + n;
      Assoc(g, [NUM_UNPACK_STREAM], Numbers(s.counts));
      n := Put([SIZE]);
      total := total + n;
      Assoc(g, [NUM_UNPACK_STREAM] + Numbers(s.counts), [SIZE]);
      n := WriteSizes(s);
      total := total + n;
      Assoc(g, [NUM_UNPACK_STREAM] + Numbers(s.counts) + [SIZE], Numbers(s.sizes));
      n := Put([CRC]);
      total := total + n;
      Assoc(g, [NUM_UNPACK_STREAM] + Numbers(s.counts) + [SIZE] + Numbers(s.sizes), [CRC]);
      n := Put([1]);
      total := total + n;
      Assoc(g, [NUM_UNPACK_STREAM] + Numbers(s.counts) + [SIZE] + Numbers(s.sizes) + [CRC], [1]);
      n := WriteWords(s.crcs);
      total := total + n;
      Assoc(g, [NUM_UNPACK_STREAM] + Numbers(s.counts) + [SIZE] + Numbers(s.sizes) + [CRC] + [1], Words(s.crcs));
      n := Put([END]);
      total := total + n;
      Assoc(g, [NUM_UNPACK_STREAM] + Numbers(s.counts) + [SIZE] + Numbers(s.sizes) + [CRC] + [1] + Words(s.crcs),
          [END]);
      Assoc(old(out), [SUBSTREAMSINFO], SubstreamsBody(s));
    }

    method PutEmptyStreamProperty(f: FilesInfo) returns (n: nat)
      requires Valid() && (|f.files| > 0 || |f.empties| % 8 != 0)
      modifies this
      ensures Valid() && out == old(out) + Pack(FirstSet(|f.empties|, |All(f)|))
              && n == |Pack(FirstSet(|f.empties|, |All(f)|))|
    {
      hide C.Crc, Pack, FirstSet;
      var p := CalculateEmptyStreamProperty(|f.empties|, |f.files|);
      n := Put(p[..]);
    }

    method PutEmptyFileProperty(items: seq<Item>) returns (n: nat)
      requires Valid()
      modifies this
      ensures Valid() && out == old(out) + Pack(EmptyFlags(items)) && n == |Pack(EmptyFlags(items))|
    {
      hide C.Crc;
      var p := CalculateEmptyFileProperty(items);
      n := Put(p[..]);
    }

    method PutNames(items: seq<Item>) returns (n: nat)
      requires Valid()
      modifies this
      ensures Valid() && out == old(out) + ([0] + Names(items)) && n == |[0] + Names(items)|
    {
      hide C.Crc;
      var buf := GenNamesPart(items);
      n := Put(buf);
    }

    method WriteStreamsInfo(s: StreamsInfo) returns (total: nat)
      requires Valid() && |s.pack.sizes| < U64 && |s.coders.folders| < U64 && GoodCounts(s.substreams)
      modifies this
      ensures Valid() && out == old(out) + ([MAIN_STREAMSINFO] + StreamsBody(s))
              && total == |[MAIN_STREAMSINFO] + StreamsBody(s)|
    {
      hide C.Crc, PackBody, CodersBody, SubstreamsBody, GoodCounts;
      total := Put([MAIN_STREAMSINFO]);
      ghost var g := out;
      var n;
      n := WritePackInfo(s.pack);
      total := total + n;
      n := WriteCodersInfo(s.coders);
      total := total + n;
      Assoc(g, ([PACKINFO] + PackBody(s.pack)), ([UNPACKINFO] + CodersBody(s.coders)));
      n := WriteSubstreamsInfo(s.substreams);
      total := total + n;
      Assoc(g, ([PACKINFO] + PackBody(s.pack)) + ([UNPACKINFO] + CodersBody(s.coders)),
          ([SUBSTREAMSINFO] + SubstreamsBody(s.substreams)));
      n := Put([END]);
      total := total + n;
      Assoc(g, ([PACKINFO] + PackBody(s.pack)) + ([UNPACKINFO] + CodersBody(s.coders))
          + ([SUBSTREAMSINFO] + SubstreamsBody(s.substreams)), [END]);
      Assoc(old(out), [MAIN_STREAMSINFO], StreamsBody(s));
    }

    method WriteEmptyStreams(f: FilesInfo) returns (total: nat)
      requires Valid() && |All(f)| < U64 && (|f.files| > 0 || |f.empties| % 8 != 0)
      modifies this
      ensures Valid() && out == old(out) + EmptyStreamPart(f) && total == |EmptyStreamPart(f)|
    {
      hide C.Crc, Len, Pack, FirstSet;
      ghost var g := out;
      total := 0;
      var n;
      n := Put([EMPTY_STREAM]);
      total := total + n;
      n := WriteLen(Ceil8(|All(f)|));
      total := total + n;
      Assoc(g, [EMPTY_STREAM], Len(Ceil8(|All(f)|)));
      n := PutEmptyStreamProperty(f);
      total := total + n;
      Assoc(g, [EMPTY_STREAM] + Len(Ceil8(|All(f)|)), Pack(FirstSet(|f.empties|, |All(f)|)));
    }

    /** checkZerobyteFiles. */
    method CheckZerobyteFiles(items: seq<Item>) returns (found: bool)
      ensures found == HasEmpty(items)
    {
      for i := 0 to |items|
        invariant forall k :: 0 <= k < i ==> !items[k].isEmpty
      {
        if items[i].isEmpty { return true; }
      }
      found := false;
    }

    method WriteEmptyFlags(items: seq<Item>) returns (total: nat)
      requires Valid() && |items| < U64
      modifies this
      ensures Valid() && out == old(out) + [EMPTY_FILE] + Len(Ceil8(|items|)) + Pack(EmptyFlags(items))
              && total == |[EMPTY_FILE] + Len(Ceil8(|items|)) + Pack(EmptyFlags(items))|
    {
      hide C.Crc, Len, Pack, EmptyFlags;
      ghost var g := out;
      total := 0;
      var n;
      n := Put([EMPTY_FILE]);
      total := total + n;
      n := WriteLen(Ceil8(|items|));
      total := total + n;
      Assoc(g, [EMPTY_FILE], Len(Ceil8(|items|)));
      n := PutEmptyFileProperty(items);
      total := total + n;
      Assoc(g, [EMPTY_FILE] + Len(Ceil8(|items|)), Pack(EmptyFlags(items)));
    }

    /** The vector of zero-byte files is written only when there is one. */
    method WriteEmptyFiles(f: FilesInfo) returns (total: nat)
      requires Valid() && |f.empties| < U64
      modifies this
      ensures Valid() && out == old(out) + EmptyFilePart(f) && total == |EmptyFilePart(f)|
    {
      hide C.Crc, Len, Pack, EmptyFlags;
      total := 0;
      var found := CheckZerobyteFiles(f.empties);
      if |f.empties| != 0 && found { total := WriteEmptyFlags(f.empties); }
    }

    method WriteDummy() returns (total: nat)
      requires Valid()
      modifies this
      ensures Valid() && out == old(out) + DummyPart() && total == |DummyPart()|
    {
      hide C.Crc, Len;
      ghost var g := out;
      total := 0;
      var n;
      n := Put([DUMMY]);
      total := total + n;
      n := WriteLen(2);
      total := total + n;
      Assoc(g, [DUMMY], Len(2));
      n := Put([0]);
      total := total + n;
      Assoc(g, [DUMMY] + Len(2), [0]);
      n := Put([0]);
      total := total + n;
      Assoc(g, [DUMMY] + Len(2) + [0], [0]);
    }

    method WriteNames(items: seq<Item>) returns (total: nat)
      requires Valid() && 1 + |Names(items)| < U64
      modifies this
      ensures Valid() && out == old(out) + NamePart(items) && total == |NamePart(items)|
    {
      hide C.Crc, Len, Names;
      ghost var g := out;
      total := 0;
      var n;
      n := Put([NAME]);
      total := total + n;
      n := WriteLen(1 + |Names(items)|);
      total := total + n;
      Assoc(g, [NAME], Len(1 + |Names(items)|));
      n := PutNames(items);
      total := total + n;
      Assoc(g, [NAME] + Len(1 + |Names(items)|), ([0] + Names(items)));
    }

    /** unixtimeToFiletime and two 32-bit words for every item. */
    method PutTimes(items: seq<Item>) returns (total: nat)
      requires Valid()
      modifies this
      ensures Valid() && out == old(out) + TimeWords(items) && total == |TimeWords(items)|
    {
      hide C.Crc, ToFiletime, LE;
      total := 0;
      for i := 0 to |items|
        invariant Valid() && out == old(out) + TimeWords(items[..i]) && total == |TimeWords(items[..i])|
      {
        var ft := ToFiletime(items[i].mtime, items[i].nsec);
        var low, high := LE(ft % 0x1_0000_0000, 4), LE(ft / 0x1_0000_0000, 4);
        var n := Put(low);
        total := total + n;
        n := Put(high);
        total := total + n;
        assert items[..i + 1][..i] == items[..i];
        Assoc(old(out), TimeWords(items[..i]), low);
        Assoc(old(out), TimeWords(items[..i]) + low, high);
      }
      assert items[..|items|] == items;
    }

    method WriteTimes(items: seq<Item>) returns (total: nat)
      requires Valid() && 8 * |items| + 2 < U64
      modifies this
      ensures Valid() && out == old(out) + TimePart(items) && total == |TimePart(items)|
    {
      hide C.Crc, Len, TimeWords;
      ghost var g := out;
      total := 0;
      var n;
      n := Put([MTIME]);
      total := total + n;
      n := WriteLen(8 * |items| + 2);
      total := total + n;
      Assoc(g, [MTIME], Len(8 * |items| + 2));
      n := Put([1]);
      total := total + n;
      Assoc(g, [MTIME] + Len(8 * |items| + 2), [1]);
      n := Put([0]);
      total := total + n;
      Assoc(g, [MTIME] + Len(8 * |items| + 2) + [1], [0]);
      n := PutTimes(items);
      total := total + n;
      Assoc(g, [MTIME] + Len(8 * |items| + 2) + [1] + [0], TimeWords(items));
    }

    method WriteAttributes(items: seq<Item>) returns (total: nat)
      requires Valid() && 4 * |items| + 2 < U64
      modifies this
      ensures Valid() && out == old(out) + AttributePart(items) && total == |AttributePart(items)|
    {
      hide C.Crc, Len, Words, Attributes;
      ghost var g := out;
      total := 0;
      var n;
      n := Put([ATTRIBUTES]);
      total := total + n;
      n := WriteLen(4 * |items| + 2);
      total := total + n;
      Assoc(g, [ATTRIBUTES], Len(4 * |items| + 2));
      n := Put([1]);
      total := total + n;
      Assoc(g, [ATTRIBUTES] + Len(4 * |items| + 2), [1]);
      n := Put([0]);
      total := total + n;
      Assoc(g, [ATTRIBUTES] + Len(4 * |items| + 2) + [1], [0]);
      n := WriteWords(Attributes(items));
      total := total + n;
      Assoc(g, [ATTRIBUTES] + Len(4 * |items| + 2) + [1] + [0], Words(Attributes(items)));
    }

    method WriteFilesInfo(f: FilesInfo) returns (total: nat)
      requires Valid() && Writable(f)
      modifies this
      ensures Valid() && out == old(out) + ([FILESINFO] + FilesBody(f)) && total == |[FILESINFO] + FilesBody(f)|
    {
      hide C.Crc, Len, EmptyStreamPart, EmptyFilePart, DummyPart, NamePart, TimePart, AttributePart;
      total := Put([FILESINFO]);
      ghost var g := out;
      var n;
      n := WriteLen(|All(f)|);
      total := total + n;
      n := WriteEmptyStreams(f);
      total := total + n;
      Assoc(g, Len(|All(f)|), EmptyStreamPart(f));
      n := WriteEmptyFiles(f);
      total := total + n;
      Assoc(g, Len(|All(f)|) + EmptyStreamPart(f), EmptyFilePart(f));
      n := WriteDummy();
      total := total + n;
      Assoc(g, Len(|All(f)|) + EmptyStreamPart(f) + EmptyFilePart(f), DummyPart());
      n := WriteNames(All(f));
      total := total + n;
      Assoc(g, Len(|All(f)|) + EmptyStreamPart(f) + EmptyFilePart(f) + DummyPart(), NamePart(All(f)));
      n := WriteTimes(All(f));
      total := total + n;
      Assoc(g, Len(|All(f)|) + EmptyStreamPart(f) + EmptyFilePart(f) + DummyPart() + NamePart(All(f)),
          TimePart(All(f)));
      n := WriteAttributes(All(f));
      total := total + n;
      Assoc(g, Len(|All(f)|) + EmptyStreamPart(f) + EmptyFilePart(f) + DummyPart() + NamePart(All(f))
          + TimePart(All(f)), AttributePart(All(f)));
      n := Put([END]);
      total := total + n;
      Assoc(g, Len(|All(f)|) + EmptyStreamPart(f) + EmptyFilePart(f) + DummyPart() + NamePart(All(f))
          + TimePart(All(f)) + AttributePart(All(f)), [END]);
      Assoc(old(out), [FILESINFO], FilesBody(f));
    }

    /** Nothing is written when there are no files with contents. */
    method WriteStreamsPart(s: Option<StreamsInfo>) returns (total: nat)
      requires Valid() && (s.Some? ==> |s.value.pack.sizes| < U64 && |s.value.coders.folders| < U64)
      requires s.Some? ==> GoodCounts(s.value.substreams)
      modifies this
      ensures Valid() && out == old(out) + StreamsPart(s) && total == |StreamsPart(s)|
    {
      hide C.Crc, StreamsBody;
      total := 0;
      match s
      case None =>
      case Some(x) => total := WriteStreamsInfo(x);
    }

    /** Writes the whole header: the bytes, their number and their CRC. */
    method WriteEndHeader(h: EndHeader) returns (total: nat)
      requires Valid() && GoodHeader(h) && Writable(h.files)
      modifies this
      ensures Valid() && out == old(out) + HeaderBytes(h) && total == |HeaderBytes(h)|
    {
      hide C.Crc, PropertyBody, StreamsPart, FilesBody, Sum, GoodFiles, GoodCounts;
      ghost var g := out;
      total := 0;
      var n;
      n := Put([HEADER]);
      total := total + n;
      n := WriteArchiveProperties(h.property);
      total := total + n;
      Assoc(g, [HEADER], ([ARCHIVE_PROPERTIES] + PropertyBody(h.property)));
      n := WriteStreamsPart(h.streams);
      total := total + n;
      Assoc(g, [HEADER] + ([ARCHIVE_PROPERTIES] + PropertyBody(h.property)), StreamsPart(h.streams));
      n := WriteFilesInfo(h.files);
      total := total + n;
      Assoc(g, [HEADER] + ([ARCHIVE_PROPERTIES] + PropertyBody(h.property)) + StreamsPart(h.streams),
          ([FILESINFO] + FilesBody(h.files)));
      n := Put([END]);
      total := total + n;
      Assoc(g, [HEADER] + ([ARCHIVE_PROPERTIES] + PropertyBody(h.property)) + StreamsPart(h.streams)
          + ([FILESINFO] + FilesBody(h.files)), [END]);
    }
  }
}
