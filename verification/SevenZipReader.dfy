/** Reading the 7z end header from a file position, filling tables in loops: each resolve method
    returns, for every file, what its parse function says. */
module SevenZipReader {
  import opened Bytes
  import opened SevenZipFiles
  import opened SevenZipFormat
  import opened SevenZipNumbers
  import opened SevenZipParse
  import opened Wrappers

  /** A result together with the file position it was read up to. */
  function Done<T>(r: Option<T>, pos: nat): Option<(T, nat)> {
    match r
    case None => None
    case Some(x) => Some((x, pos))
  }

  lemma {:induction false} UnLEPadded(a: seq<byte>, h: byte, z: nat)
    ensures UnLE(a + [h] + seq(z, _ => 0)) == UnLE(a) + h * Pow256(|a|)
    decreases |a|
  {
    var s := a + [h] + seq(z, _ => 0);
    if |a| == 0 {
      assert s[1..] == seq(z, _ => 0);
      UnLEZeros(z);
    } else {
      hide Pow256;
      assert s[1..] == a[1..] + [h] + seq(z, _ => 0);
      UnLEPadded(a[1..], h, z);
      ScaleUp(h, |a| - 1);
    }
  }

  lemma ScaleUp(h: nat, k: nat)
    ensures 0x100 * (h * Pow256(k)) == h * Pow256(k + 1)
  {
  }

  lemma {:induction false} UnLEZeros(z: nat)
    ensures UnLE(seq(z, _ => 0)) == 0
  {
    if z > 0 {
      assert seq(z, _ => 0)[1..] == seq(z - 1, _ => 0);
      UnLEZeros(z - 1);
    }
  }

  /** The eight-byte buffer holds the number when the extra bytes, the low bits of the first byte
      and zeros are in place. */
  lemma BufferIsNumber(d: seq<byte>, i: nat, buf: seq<byte>)
    requires i < |d| && |buf| == 8
    requires var e := ExtraOf(d[i]);
      && i + 1 + e <= |d|
      && (forall k :: 0 <= k < e ==> buf[k] == d[i + 1 + k])
      && (e < 7 ==> buf[e] == d[i] - FirstBytes()[e])
      && (forall k :: (if e < 7 then e + 1 else e) <= k < 8 ==> buf[k] == 0)
    ensures Pow256(8) == U64
    ensures Decode(d, i) == Some((UnLE(buf), i + 1 + ExtraOf(d[i])))
  {
    hide UnLE, Pow256, ExtraOf, FirstBytes;
    Pow256All();
    var e := ExtraOf(d[i]);
    var low := d[i + 1..i + 1 + e];
    if e == 8 { assert buf == low; }
    else {
      var h := buf[e];
      assert buf == low + [h] + seq(7 - e, _ => 0);
      UnLEPadded(low, h, 7 - e);
    }
  }

  lemma DecodeCut(d: seq<byte>, i: nat)
    requires i < |d| && i + 1 + ExtraOf(d[i]) > |d|
    ensures Decode(d, i).None?
  {
  }

  lemma DecodeEmpty(d: seq<byte>, i: nat)
    requires i >= |d|
    ensures Decode(d, i).None?
  {
  }

  class Reader {
    const data: seq<byte>
    var pos: nat

    constructor (file: seq<byte>, start: nat)
      ensures data == file && pos == start
    {
      data, pos := file, start;
    }

    method ReadByte() returns (r: Option<byte>)
      modifies this`pos
      ensures Done(r, pos) == Byte(data, old(pos))
    {
      if pos >= |data| { return None; }
      r := Some(data[pos]);
      pos := pos + 1;
    }

    /** A byte compared with the one that must come next. */
    method Match(b: byte) returns (r: Option<bool>)
      modifies this`pos
      ensures if Expect(data, old(pos), b).None? then r.None?
              else r == Some(true) && pos == Expect(data, old(pos), b).value
    {
      var c :- ReadByte();
      r := if c == b then Some(true) else None;
    }

    method ReadWord() returns (r: Option<u32>)
      modifies this`pos
      ensures Done(r, pos) == Word(data, old(pos))
    {
      if pos + 4 > |data| { return None; }
      Pow256Values();
      r := Some(UnLE(data[pos..pos + 4]));
      pos := pos + 4;
    }

    /** getU64FromBytes: the extra bytes, then the bits of the first byte below its leading ones. */
    method GetU64() returns (r: Option<u64>)
      modifies this`pos
      ensures Done(r, pos) == Decode(data, old(pos))
    {
      hide UnLE, Pow256, Decode;
      ghost var start := pos;
      var first := ReadByte();
      if first.None? { DecodeEmpty(data, start); return None; }
      var c := first.value;
      var extra := GetExtraByteNum2(c);
      var buf := new byte[8](_ => 0);
      if pos + extra > |data| { DecodeCut(data, start); return None; }
      for i := 0 to extra
        invariant pos == start + 1 + i
        invariant forall k :: 0 <= k < 8 ==> buf[k] == if k < i then data[start + 1 + k] else 0
      {
        buf[i] := data[pos];
        pos := pos + 1;
      }
      if extra != 7 && extra != 8 { buf[extra] := c - FirstBytes()[extra]; }
      BufferIsNumber(data, start, buf[..]);
      r := Some(UnLE(buf[..]));
    }

    method ReadNumbers(n: nat) returns (r: Option<seq<u64>>)
      modifies this`pos
      ensures Done(r, pos) == ParseNumbers(data, old(pos), n)
    {
      hide Decode;
      var xs := [];
      for i := 0 to n
        invariant ParseNumbers(data, old(pos), i) == Some((xs, pos))
      {
        var x := GetU64();
        if x.None? { NumbersFail(data, old(pos), i + 1, n); return None; }
        xs := xs + [x.value];
      }
      r := Some(xs);
    }

    method ReadWords(n: nat) returns (r: Option<seq<u32>>)
      modifies this`pos
      ensures Done(r, pos) == ParseWords(data, old(pos), n)
    {
      hide Word;
      var xs := [];
      for i := 0 to n
        invariant ParseWords(data, old(pos), i) == Some((xs, pos))
      {
        var x := ReadWord();
        if x.None? { WordsFail(data, old(pos), i + 1, n); return None; }
        xs := xs + [x.value];
      }
      r := Some(xs);
    }

    // ---- archive properties ----

    method ResolveArchiveProperties() returns (r: Option<u64>)
      modifies this`pos
      ensures Done(r, pos) == ParseProperty(data, old(pos))
    {
      hide Decode;
      var id :- GetU64();
      if !IsOurs(id) { return None; }
      var size :- GetU64();
      if size >= 0x8000_0000 { return None; }
      pos := pos + size;
      var _ :- Match(END);
      r := Some(id);
    }

    // ---- streams ----

    method ResolvePackInfo() returns (r: Option<PackInfo>)
      modifies this`pos
      ensures Done(r, pos) == ParsePack(data, old(pos))
    {
      hide Decode, ParseNumbers;
      var packPos :- GetU64();
      var n :- GetU64();
      var _ :- Match(SIZE);
      var sizes :- ReadNumbers(n);
      var _ :- Match(END);
      r := Some(PackInfo(packPos, sizes));
    }

    method ResolveFolder() returns (r: Option<Coder>)
      modifies this`pos
      ensures Done(r, pos) == ParseFolder(data, old(pos))
    {
      var count :- ReadByte();
      var first :- ReadByte();
      var n := first % 16;
      if pos + n > |data| { return None; }
      r := Some(Coder(first, data[pos..pos + n]));
      pos := pos + n;
    }

    method ResolveFolders(n: nat) returns (r: Option<seq<Coder>>)
      modifies this`pos
      ensures Done(r, pos) == ParseFolders(data, old(pos), n)
    {
      hide ParseFolder;
      var xs := [];
      for i := 0 to n
        invariant ParseFolders(data, old(pos), i) == Some((xs, pos))
      {
        var x := ResolveFolder();
        if x.None? { FoldersFail(data, old(pos), i + 1, n); return None; }
        xs := xs + [x.value];
      }
      r := Some(xs);
    }

    method ResolveUnpackSizes(n: nat) returns (r: Option<seq<u64>>)
      modifies this`pos
      ensures Done(r, pos) == ParseUnpackSizes(data, old(pos), n)
    {
      hide ParseNumbers;
      var _ :- Match(CODERS_UNPACK_SIZE);
      var sizes :- ReadNumbers(n);
      var _ :- Match(END);
      r := Some(sizes);
    }

    method ResolveCodersInfo() returns (r: Option<ReadCoders>)
      modifies this`pos
      ensures Done(r, pos) == ParseCoders(data, old(pos))
    {
      hide Decode, ParseFolders, ParseUnpackSizes;
      var _ :- Match(FOLDER);
      var n :- GetU64();
      var external :- ReadByte();
      if external == 0 {
        var folders :- ResolveFolders(n);
        var sizes :- ResolveUnpackSizes(n);
        r := Some(ReadCoders(n, folders, None, sizes));
      } else if external == 1 {
        var index :- GetU64();
        var sizes :- ResolveUnpackSizes(n);
        r := Some(ReadCoders(n, [], Some(index), sizes));
      } else {
        r := None;
      }
    }

    /** One section of the substreams, or their end. */
    method ResolveSubSection(c: byte, folders: nat, st: Sub) returns (r: Option<Sub>)
      requires IsSubTag(c)
      modifies this`pos
      ensures Done(r, pos) == SubSection(data, old(pos), c, folders, st)
    {
      hide ParseNumbers, ParseWords, Sum;
      if c == NUM_UNPACK_STREAM {
        if st.counts.Some? { return None; }
        var ns :- ReadNumbers(folders);
        r := Some(st.(counts := Some(ns)));
      } else if c == SIZE {
        if st.sizes.Some? || st.Total() < folders { return None; }
        var ns :- ReadNumbers(st.Total() - folders);
        r := Some(st.(sizes := Some(ns)));
      } else {
        if st.digests.Some? { return None; }
        var _ :- Match(1);
        var _ :- ReadWords(st.Total());
        r := Some(st.(digests := Some(st.Total())));
      }
    }

    method ResolveSubstreamsInfo(folders: nat) returns (r: Option<Sub>)
      modifies this`pos
      ensures Done(r, pos) == ParseSub(data, old(pos), folders, NO_SUB)
    {
      hide SubSection;
      var st, end := NO_SUB, false;
      while !end
        invariant if end then ParseSub(data, old(pos), folders, NO_SUB) == Some((st, pos))
                  else ParseSub(data, old(pos), folders, NO_SUB) == ParseSub(data, pos, folders, st)
        decreases !end, |data| - pos
      {
        var c :- ReadByte();
        if c == END { end := true; }
        else if IsSubTag(c) { st :- ResolveSubSection(c, folders, st); }
        else { return None; }
      }
      r := Some(st);
    }

    /** One section of the streams. */
    method ResolveStreamsSection(c: byte, st: ReadStreams) returns (r: Option<ReadStreams>)
      requires IsStreamsTag(c)
      modifies this`pos
      ensures Done(r, pos) == StreamsSection(data, old(pos), c, st)
    {
      hide ParsePack, ParseCoders, ParseSub;
      if c == PACKINFO {
        if st.pack.Some? { return None; }
        var p :- ResolvePackInfo();
        r := Some(st.(pack := Some(p)));
      } else if c == UNPACKINFO {
        if st.coders.Some? { return None; }
        var x :- ResolveCodersInfo();
        r := Some(st.(coders := Some(x)));
      } else {
        if st.sub.Some? || st.coders.None? { return None; }
        var x :- ResolveSubstreamsInfo(st.coders.value.count);
        r := Some(st.(sub := Some(x)));
      }
    }

    method ResolveMainStreamsInfo() returns (r: Option<ReadStreams>)
      modifies this`pos
      ensures Done(r, pos) == ParseStreams(data, old(pos), NO_STREAMS)
    {
      hide StreamsSection;
      var st, end := NO_STREAMS, false;
      while !end
        invariant if end then ParseStreams(data, old(pos), NO_STREAMS) == Some((st, pos))
                  else ParseStreams(data, old(pos), NO_STREAMS) == ParseStreams(data, pos, st)
        decreases !end, |data| - pos
      {
        var c :- ReadByte();
        if c == END { end := true; }
        else if IsStreamsTag(c) { st :- ResolveStreamsSection(c, st); }
        else { return None; }
      }
      r := Some(st);
    }

    // ---- files ----

    /** One name: two-byte characters into the path buffer, until a zero one. */
    method ReadName() returns (r: Option<seq<byte>>)
      modifies this`pos
      ensures Done(r, pos) == ParseName(data, old(pos))
    {
      var path: seq<byte> := [];
      assert forall x: seq<byte> :: [] + x == x;
      while true
        invariant match ParseName(data, pos)
                  case None => ParseName(data, old(pos)).None?
                  case Some((x, j)) => ParseName(data, old(pos)) == Some((path + x, j))
        decreases |data| - pos
      {
        if pos + 2 > |data| { return None; }
        var low, high := data[pos], data[pos + 1];
        pos := pos + 2;
        if low == 0 && high == 0 {
          assert path + [] == path;
          break;
        }
        assert forall x: seq<byte> :: path + [low] + x == path + ([low] + x);
        path := path + [low];
      }
      r := Some(path);
    }

    method ReadNames(p: array<Item>) returns (ok: bool)
      modifies this`pos, p
      ensures ok == ParseNames(data, old(pos), p.Length).Some?
      ensures ok ==> pos == ParseNames(data, old(pos), p.Length).value.1
                     && p[..] == SetNames(old(p[..]), ParseNames(data, old(pos), p.Length).value.0)
    {
      hide ParseName;
      ghost var names := [];
      for i := 0 to p.Length
        invariant ParseNames(data, old(pos), i) == Some((names, pos))
        invariant forall k :: 0 <= k < p.Length ==> p[k] == if k < i then old(p[k]).(name := names[k]) else old(p[k])
      {
        var path := ReadName();
        if path.None? { NamesFail(data, old(pos), i + 1, p.Length); return false; }
        p[i] := p[i].(name := CString(path.value));
        names := names + [CString(path.value)];
      }
      ok := true;
    }

    method ReadTimes(p: array<Item>) returns (ok: bool)
      modifies this`pos, p
      ensures ok == ParseTimes(data, old(pos), p.Length).Some?
      ensures ok ==> pos == ParseTimes(data, old(pos), p.Length).value.1
                     && p[..] == SetTimes(old(p[..]), ParseTimes(data, old(pos), p.Length).value.0)
    {
      hide Word, FromFiletime;
      ghost var times := [];
      for i := 0 to p.Length
        invariant ParseTimes(data, old(pos), i) == Some((times, pos))
        invariant forall k :: 0 <= k < p.Length ==> p[k] == if k < i then old(p[k]).(mtime := times[k]) else old(p[k])
      {
        var low := ReadWord();
        if low.None? { TimesFail(data, old(pos), i + 1, p.Length); return false; }
        var high := ReadWord();
        if high.None? { TimesFail(data, old(pos), i + 1, p.Length); return false; }
        var ft: nat := high.value;
        var t := FromFiletime(ft * 0x1_0000_0000 + low.value);
        p[i] := p[i].(mtime := t);
        times := times + [t];
      }
      ok := true;
    }

    method ReadAttributes(p: array<Item>) returns (ok: bool)
      modifies this`pos, p
      ensures ok == ParseWords(data, old(pos), p.Length).Some?
      ensures ok ==> pos == ParseWords(data, old(pos), p.Length).value.1
                     && p[..] == SetAttributes(old(p[..]), ParseWords(data, old(pos), p.Length).value.0)
    {
      hide Word;
      ghost var ws := [];
      for i := 0 to p.Length
        invariant ParseWords(data, old(pos), i) == Some((ws, pos))
        invariant forall k :: 0 <= k < p.Length ==> p[k] == if k < i then old(p[k]).(attribute := ws[k]) else old(p[k])
      {
        var w := ReadWord();
        if w.None? { WordsFail(data, old(pos), i + 1, p.Length); return false; }
        p[i] := p[i].(attribute := w.value);
        ws := ws + [w.value];
      }
      ok := true;
    }

    /** The empty-stream vector marks directories; the number of marks is the result. */
    method ReadDirs(p: array<Item>) returns (dirs: nat)
      requires pos + Ceil8(p.Length) <= |data|
      modifies this`pos, p
      ensures pos == old(pos) + Ceil8(p.Length)
      ensures p[..] == SetDirs(old(p[..]), Unpack(data, old(pos), p.Length))
      ensures dirs == Count(Unpack(data, old(pos), p.Length))
    {
      hide BitOf, Pow2, Count;
      ghost var bits := Unpack(data, pos, p.Length);
      CountEmpty();
      dirs := 0;
      var index := 0;
      for i := 0 to Ceil8(p.Length)
        invariant pos == old(pos) + i && index == if 8 * i < p.Length then 8 * i else p.Length
        invariant dirs == Count(bits[..index])
        invariant forall k ::
                    0 <= k < p.Length ==> p[k] == if k < index then old(p[k]).(isDir := bits[k]) else old(p[k])
      {
        var c := data[pos];
        pos := pos + 1;
        var j := 0;
        while j < 8 && index < p.Length
          invariant j <= 8 && index == 8 * i + j <= p.Length && pos == old(pos) + i + 1
          invariant dirs == Count(bits[..index])
          invariant forall k ::
                      0 <= k < p.Length ==> p[k] == if k < index then old(p[k]).(isDir := bits[k]) else old(p[k])
          decreases 8 - j
        {
          var isDir := BitOf(c, 7 - j);
          assert isDir == bits[index];
          CountSnoc(bits, index);
          p[index] := p[index].(isDir := isDir);
          if isDir { dirs := dirs + 1; }
          index := index + 1;
          j := j + 1;
        }
      }
      assert bits[..p.Length] == bits;
    }

    /** The empty-file vector: such an item is not a directory after all. */
    method ReadEmpties(p: array<Item>, size: nat)
      requires pos + size <= |data| && size <= Ceil8(p.Length)
      modifies this`pos, p
      ensures pos == old(pos) + size
      ensures Ceil8(Min(8 * size, p.Length)) <= size
      ensures p[..] == SetEmpty(old(p[..]), Unpack(data, old(pos), Min(8 * size, p.Length)))
    {
      hide BitOf, Pow2;
      ghost var n := Min(8 * size, p.Length);
      ghost var bits := Unpack(data, pos, n);
      var index := 0;
      for i := 0 to size
        invariant pos == old(pos) + i && index == if 8 * i < p.Length then 8 * i else p.Length
        invariant forall k :: 0 <= k < p.Length ==> p[k] == if k < index then Emptied(old(p[k]), bits[k]) else old(p[k])
      {
        var c := data[pos];
        pos := pos + 1;
        var j := 0;
        while j < 8 && index < p.Length
          invariant j <= 8 && index == 8 * i + j <= p.Length && pos == old(pos) + i + 1
          invariant forall k ::
                      0 <= k < p.Length ==> p[k] == if k < index then Emptied(old(p[k]), bits[k]) else old(p[k])
          decreases 8 - j
        {
          var isEmpty := BitOf(c, 7 - j);
          assert isEmpty == bits[index];
          p[index] := p[index].(isEmpty := isEmpty);
          if p[index].isEmpty { p[index] := p[index].(isDir := false); }
          index := index + 1;
          j := j + 1;
        }
      }
    }

    static function Emptied(x: Item, bit: bool): Item {
      x.(isEmpty := bit, isDir := if bit then false else x.isDir)
    }

    /** One section of the files; counts has the numbers of directories and files found so far. */
    method ResolveFilesSection(c: byte, p: array<Item>, dirNum: nat, fileNum: nat) returns (r: Option<(nat, nat)>)
      requires IsFilesTag(c)
      modifies this`pos, p
      ensures var e := FilesSection(data, old(pos), c, ReadFiles(dirNum, fileNum, old(p[..])));
        r.Some? == e.Some? && (r.Some? ==> e.value == (ReadFiles(r.value.0, r.value.1, p[..]), pos))
    {
      hide Decode, ParseNames, ParseTimes, ParseWords, Unpack, SetDirs, SetEmpty, SetNames, SetTimes, SetAttributes,
          Count;
      r := Some((dirNum, fileNum));
      if c == EMPTY_STREAM {
        var _ :- GetU64();
        if pos + Ceil8(p.Length) > |data| { return None; }
        var dirs := ReadDirs(p);
        r := Some((dirs, p.Length - Min(dirs, p.Length)));
      } else if c == EMPTY_FILE {
        var size :- GetU64();
        if size > Ceil8(p.Length) || pos + size > |data| { return None; }
        ReadEmpties(p, size);
      } else if c == NAME {
        var _ :- GetU64();
        var _ :- Match(0);
        var ok := ReadNames(p);
        if !ok { return None; }
      } else if c == CTIME || c == ATIME || c == MTIME {
        var _ :- GetU64();
        var _ :- Match(1);
        var _ :- Match(0);
        var ok := ReadTimes(p);
        if !ok { return None; }
      } else if c == ATTRIBUTES {
        var _ :- GetU64();
        var _ :- Match(1);
        var _ :- Match(0);
        var ok := ReadAttributes(p);
        if !ok { return None; }
      } else {
        var size :- ReadByte();
        pos := pos + size;
      }
    }

    method ResolveFilesInfo() returns (r: Option<ReadFiles>)
      modifies this`pos
      ensures Done(r, pos) == ParseFiles(data, old(pos))
    {
      hide Decode, FilesSection;
      var n :- GetU64();
      var p := new Item[n](_ => SevenZipFiles.BLANK);
      ghost var start := pos;
      ghost var st := ReadFiles(0, 0, p[..]);
      assert p[..] == seq(n, _ => SevenZipFiles.BLANK);
      var dirNum, fileNum, end := 0, 0, false;
      while !end
        invariant fresh(p) && p.Length == n
        invariant ParseTags(data, start, st) ==
                  if end then Some((ReadFiles(dirNum, fileNum, p[..]), pos))
                  else ParseTags(data, pos, ReadFiles(dirNum, fileNum, p[..]))
        decreases !end, |data| - pos
      {
        var c :- ReadByte();
        if c == END { end := true; }
        else if IsFilesTag(c) {
          var counts :- ResolveFilesSection(c, p, dirNum, fileNum);
          dirNum, fileNum := counts.0, counts.1;
        } else { return None; }
      }
      r := Some(ReadFiles(dirNum, fileNum, p[..]));
    }

    // ---- the end header ----

    method ResolveHeaderSection(c: byte, h: ReadHeader) returns (r: Option<(Status, ReadHeader)>)
      requires IsHeaderTag(c)
      modifies this`pos
      ensures var e := HeaderSection(data, old(pos), c, h);
        r.Some? == e.Some? && (r.Some? ==> e.value == (r.value.0, r.value.1, pos))
    {
      hide ParseProperty, ParseStreams, ParseFiles;
      if c == ARCHIVE_PROPERTIES {
        if h.property.Some? { return None; }
        var id :- ResolveArchiveProperties();
        r := Some((InProperties, h.(property := Some(id))));
      } else if c == MAIN_STREAMSINFO {
        if h.streams.Some? { return None; }
        var s :- ResolveMainStreamsInfo();
        r := Some((InStreams, h.(streams := Some(s))));
      } else {
        if h.files.Some? { return None; }
        var f :- ResolveFilesInfo();
        r := Some((InFiles, h.(files := Some(f))));
      }
    }

    method ResolveEndHeader() returns (r: Option<ReadHeader>)
      modifies this`pos
      ensures Done(r, pos) == ParseHeader(data, old(pos), Start, NO_HEADER)
    {
      hide HeaderSection;
      var h, status, end := NO_HEADER, Start, false;
      while !end
        invariant ParseHeader(data, old(pos), Start, NO_HEADER) ==
                  if end then (if h.property.None? then None else Some((h, pos))) else ParseHeader(data, pos, status, h)
        decreases !end, |data| - pos
      {
        var c :- ReadByte();
        if c == HEADER { status := InHeader; }
        else if IsHeaderTag(c) {
          var x :- ResolveHeaderSection(c, h);
          status, h := x.0, x.1;
        } else if c == END { end := status == InFiles; }
        else { return None; }
      }
      if h.property.None? { return None; }
      r := Some(h);
    }
  }

  lemma CountEmpty()
    ensures Count([]) == 0
  {
  }

  lemma CountSnoc(bits: seq<bool>, i: nat)
    requires i < |bits|
    ensures Count(bits[..i + 1]) == Count(bits[..i]) + if bits[i] then 1 else 0
  {
    assert bits[..i + 1][..i] == bits[..i];
  }

  /** A list that breaks off stays broken. */
  lemma {:induction false} NumbersFail(d: seq<byte>, i: nat, k: nat, n: nat)
    requires k <= n && ParseNumbers(d, i, k).None?
    ensures ParseNumbers(d, i, n).None?
    decreases n
  {
    if k < n { NumbersFail(d, i, k, n - 1); }
  }

  lemma {:induction false} WordsFail(d: seq<byte>, i: nat, k: nat, n: nat)
    requires k <= n && ParseWords(d, i, k).None?
    ensures ParseWords(d, i, n).None?
    decreases n
  {
    if k < n { WordsFail(d, i, k, n - 1); }
  }

  lemma {:induction false} FoldersFail(d: seq<byte>, i: nat, k: nat, n: nat)
    requires k <= n && ParseFolders(d, i, k).None?
    ensures ParseFolders(d, i, n).None?
    decreases n
  {
    if k < n { FoldersFail(d, i, k, n - 1); }
  }


  lemma {:induction false} NamesFail(d: seq<byte>, i: nat, k: nat, n: nat)
    requires k <= n && ParseNames(d, i, k).None?
    ensures ParseNames(d, i, n).None?
    decreases n
  {
    if k < n { NamesFail(d, i, k, n - 1); }
  }

  lemma {:induction false} TimesFail(d: seq<byte>, i: nat, k: nat, n: nat)
    requires k <= n && ParseTimes(d, i, k).None?
    ensures ParseTimes(d, i, n).None?
    decreases n
  {
    if k < n { TimesFail(d, i, k, n - 1); }
  }
}
