/** Reading the files section and the whole end header back. */
module SevenZipFiles {
  import opened Bytes
  import opened SevenZipFormat
  import opened SevenZipNumbers
  import opened SevenZipParse
  import opened Wrappers

  // ---- bit vectors ----

  function Unpack(d: seq<byte>, i: nat, n: nat): (r: seq<bool>)
    requires i + Ceil8(n) <= |d|
    ensures |r| == n
  {
    seq(n, k requires 0 <= k < n => BitOf(d[i + k / 8], 7 - k % 8))
  }

  /** The first n of the bits and as many zeros as that needs. */
  function Padded(bits: seq<bool>, n: nat): (r: seq<bool>)
    ensures |r| == n
  {
    seq(n, k => 0 <= k < |bits| && bits[k])
  }

  /** Unpacking returns the packed bits; padding reads as zeros. */
  lemma UnpackAt(d: seq<byte>, i: nat, bits: seq<bool>, n: nat)
    requires At(d, i, Pack(bits)) && n <= 8 * Ceil8(|bits|) && i + Ceil8(n) <= |d|
    ensures Unpack(d, i, n) == Padded(bits, n)
  {
    forall k | 0 <= k < n ensures Unpack(d, i, n)[k] <==> Padded(bits, n)[k] {
      assert k / 8 < Ceil8(|bits|) && k == 8 * (k / 8) + k % 8;
      assert Pack(bits)[k / 8] == d[i + k / 8];
      UnpackPacked(bits, k / 8, k % 8);
    }
  }

  function Count(bits: seq<bool>): nat {
    if |bits| == 0 then 0 else Count(bits[..|bits| - 1]) + if bits[|bits| - 1] then 1 else 0
  }

  lemma {:induction false} CountFirstSet(m: nat, n: nat)
    ensures Count(FirstSet(m, n)) == if m <= n then m else n
    decreases n
  {
    if n > 0 {
      assert FirstSet(m, n)[..n - 1] == FirstSet(m, n - 1);
      CountFirstSet(m, n - 1);
    }
  }

  // ---- items ----

  const BLANK := Item([], false, false, 0, 0, 0)

  function SetDirs(items: seq<Item>, bits: seq<bool>): (r: seq<Item>)
    requires |bits| == |items|
    ensures |r| == |items|
  {
    seq(|items|, k requires 0 <= k < |items| => items[k].(isDir := bits[k]))
  }

  /** A zero-byte file is not a directory after all. */
  function SetEmpty(items: seq<Item>, bits: seq<bool>): (r: seq<Item>)
    requires |bits| <= |items|
    ensures |r| == |items|
  {
    seq(|items|, k requires 0 <= k < |items| =>
      if k >= |bits| then items[k]
      else items[k].(isEmpty := bits[k], isDir := if bits[k] then false else items[k].isDir))
  }

  function SetNames(items: seq<Item>, names: seq<seq<byte>>): (r: seq<Item>)
    requires |names| == |items|
    ensures |r| == |items|
  {
    seq(|items|, k requires 0 <= k < |items| => items[k].(name := names[k]))
  }

  function SetTimes(items: seq<Item>, times: seq<u64>): (r: seq<Item>)
    requires |times| == |items|
    ensures |r| == |items|
  {
    seq(|items|, k requires 0 <= k < |items| => items[k].(mtime := times[k]))
  }

  function SetAttributes(items: seq<Item>, ws: seq<u32>): (r: seq<Item>)
    requires |ws| == |items|
    ensures |r| == |items|
  {
    seq(|items|, k requires 0 <= k < |items| => items[k].(attribute := ws[k]))
  }

  /** Two-byte characters up to a zero one. */
  function ParseName(d: seq<byte>, i: nat): (r: Option<(seq<byte>, nat)>)
    ensures r.Some? ==> i < r.value.1 <= |d|
    decreases |d| - i
  {
    if i + 2 > |d| then None
    else if d[i] == 0 && d[i + 1] == 0 then Some(([], i + 2))
    else
      var r :- ParseName(d, i + 2);
      Some(([d[i]] + r.0, r.1))
  }

  /** The characters before the first NUL: what strncpy keeps. */
  function CString(s: seq<byte>): seq<byte> {
    if |s| == 0 || s[0] == 0 then [] else [s[0]] + CString(s[1..])
  }

  function ParseNames(d: seq<byte>, i: nat, n: nat): (r: Option<(seq<seq<byte>>, nat)>)
    ensures r.Some? ==> i <= r.value.1 && |r.value.0| == n
  {
    if n == 0 then Some(([], i))
    else
      var r :- ParseNames(d, i, n - 1);
      var x :- ParseName(d, r.1);
      Some((r.0 + [CString(x.0)], x.1))
  }

  lemma {:induction false} NameAt(d: seq<byte>, i: nat, name: seq<byte>)
    requires At(d, i, Wide(name + [0])) && 0 !in name
    ensures ParseName(d, i) == Some((name, i + |Wide(name + [0])|)) && CString(name) == name
    decreases |name|
  {
    var w := Wide(name + [0]);
    assert w[0] == d[i] && w[1] == d[i + 1];
    if |name| > 0 {
      var rest := name[1..];
      var v := Wide(rest + [0]);
      forall k | 0 <= k < |v| ensures v[k] == d[i + 2 + k] {
        assert w[k + 2] == d[i + (k + 2)];
        assert (rest + [0])[k / 2] == (name + [0])[(k + 2) / 2];
      }
      NameAt(d, i + 2, rest);
      assert name == [name[0]] + rest;
    } else { assert name == []; }
  }

  function NamesOf(items: seq<Item>): seq<seq<byte>> {
    seq(|items|, k requires 0 <= k < |items| => items[k].name)
  }

  lemma {:induction false} NamesAt(d: seq<byte>, i: nat, items: seq<Item>)
    requires At(d, i, Names(items)) && forall k :: 0 <= k < |items| ==> 0 !in items[k].name
    ensures ParseNames(d, i, |items|) == Some((NamesOf(items), i + |Names(items)|))
    decreases |items|
  {
    hide ParseName, Wide;
    if |items| > 0 {
      var n := |items| - 1;
      AtConcat(d, i, Names(items[..n]), Wide(items[n].name + [0]));
      NamesAt(d, i, items[..n]);
      NameAt(d, i + |Names(items[..n])|, items[n].name);
      assert NamesOf(items) == NamesOf(items[..n]) + [items[n].name];
    } else { assert NamesOf(items) == []; }
  }

  function ParseTimes(d: seq<byte>, i: nat, n: nat): (r: Option<(seq<u64>, nat)>)
    ensures r.Some? ==> i <= r.value.1 && |r.value.0| == n
  {
    if n == 0 then Some(([], i))
    else
      var r :- ParseTimes(d, i, n - 1);
      var low :- Word(d, r.1);
      var high :- Word(d, low.1);
      Some((r.0 + [FromFiletime(high.0 * 0x1_0000_0000 + low.0)], high.1))
  }

  function TimesOf(items: seq<Item>): seq<u64> {
    seq(|items|, k requires 0 <= k < |items| => items[k].mtime)
  }

  lemma TimeAt(d: seq<byte>, i: nat, x: Item)
    requires At(d, i, LE(ToFiletime(x.mtime, x.nsec) % 0x1_0000_0000, 4))
    requires At(d, i + 4, LE(ToFiletime(x.mtime, x.nsec) / 0x1_0000_0000, 4)) && GoodItem(x)
    ensures Word(d, i).Some? && Word(d, i + 4).Some? && Word(d, i).value.1 == i + 4 && Word(d, i + 4).value.1 == i + 8
    ensures FromFiletime(Word(d, i + 4).value.0 * 0x1_0000_0000 + Word(d, i).value.0) == x.mtime
  {
    var ft := ToFiletime(x.mtime, x.nsec);
    WordAt(d, i, ft % 0x1_0000_0000);
    WordAt(d, i + 4, ft / 0x1_0000_0000);
    TimeRoundTrip(x.mtime, x.nsec);
  }

  lemma {:induction false} TimesAt(d: seq<byte>, i: nat, items: seq<Item>)
    requires At(d, i, TimeWords(items)) && forall k :: 0 <= k < |items| ==> GoodItem(items[k])
    ensures ParseTimes(d, i, |items|) == Some((TimesOf(items), i + |TimeWords(items)|))
    decreases |items|
  {
    hide Word, ToFiletime, FromFiletime, GoodItem;
    if |items| > 0 {
      var n, x := |items| - 1, items[|items| - 1];
      var a := TimeWords(items[..n]);
      var low, high := LE(ToFiletime(x.mtime, x.nsec) % 0x1_0000_0000, 4),
          LE(ToFiletime(x.mtime, x.nsec) / 0x1_0000_0000, 4);
      AtConcat(d, i, a + low, high);
      AtConcat(d, i, a, low);
      TimesAt(d, i, items[..n]);
      TimeAt(d, i + |a|, x);
      assert TimesOf(items) == TimesOf(items[..n]) + [x.mtime];
    } else { assert TimesOf(items) == []; }
  }

  // ---- the files section ----

  datatype ReadFiles = ReadFiles(dirNum: nat, fileNum: nat, items: seq<Item>)

  predicate IsFilesTag(c: byte) {
    c == EMPTY_STREAM || c == EMPTY_FILE || c == NAME || c == CTIME || c == ATIME || c == MTIME || c == ATTRIBUTES
        || c == DUMMY
  }

  /** One section behind its tag. A size of the empty-file vector beyond the file table counts as
      an error: the code would write past the table. */
  function FilesSection(d: seq<byte>, i: nat, c: byte, st: ReadFiles): (r: Option<(ReadFiles, nat)>)
    requires IsFilesTag(c)
    ensures r.Some? ==> i <= r.value.1
  {
    var n := |st.items|;
    if c == EMPTY_STREAM then
      var size :- Decode(d, i);
      if size.1 + Ceil8(n) > |d| then None else
      var bits := Unpack(d, size.1, n);
      Some((ReadFiles(Count(bits), n - Min(Count(bits), n), SetDirs(st.items, bits)), size.1 + Ceil8(n)))
    else if c == EMPTY_FILE then
      var size :- Decode(d, i);
      if size.0 > Ceil8(n) || size.1 + size.0 > |d| then None else
      var bits := Unpack(d, size.1, Min(8 * size.0, n));
      Some((st.(items := SetEmpty(st.items, bits)), size.1 + size.0))
    else if c == NAME then
      var size :- Decode(d, i);
      var j :- Expect(d, size.1, 0);
      var names :- ParseNames(d, j, n);
      Some((st.(items := SetNames(st.items, names.0)), names.1))
    else if c == CTIME || c == ATIME || c == MTIME then
      var size :- Decode(d, i);
      var j :- Expect(d, size.1, 1);
      var k :- Expect(d, j, 0);
      var times :- ParseTimes(d, k, n);
      Some((st.(items := SetTimes(st.items, times.0)), times.1))
    else if c == ATTRIBUTES then
      var size :- Decode(d, i);
      var j :- Expect(d, size.1, 1);
      var k :- Expect(d, j, 0);
      var ws :- ParseWords(d, k, n);
      Some((st.(items := SetAttributes(st.items, ws.0)), ws.1))
    else
      var size :- Byte(d, i);
      Some((st, size.1 + size.0))
  }

  /** The tag loop of resolveFilesInfo. */
  function ParseTags(d: seq<byte>, i: nat, st: ReadFiles): (r: Option<(ReadFiles, nat)>)
    ensures r.Some? ==> i < r.value.1
    decreases |d| - i
  {
    var c :- Byte(d, i);
    if c.0 == END then Some((st, c.1))
    else if IsFilesTag(c.0) then
      var t :- FilesSection(d, c.1, c.0, st);
      ParseTags(d, t.1, t.0)
    else None
  }

  function Min(a: nat, b: nat): nat { if a < b then a else b }

  function ParseFiles(d: seq<byte>, i: nat): (r: Option<(ReadFiles, nat)>)
    ensures r.Some? ==> i < r.value.1
  {
    var n :- Decode(d, i);
    ParseTags(d, n.1, ReadFiles(0, 0, seq(n.0, _ => BLANK)))
  }

  lemma EmptyStreamAt(d: seq<byte>, i: nat, f: FilesInfo, st: ReadFiles)
    requires At(d, i, EmptyStreamPart(f)) && |st.items| == |All(f)| < U64
    ensures ParseTags(d, i, st) == ParseTags(d, i + |EmptyStreamPart(f)|,
              ReadFiles(|f.empties|, |f.files|, SetDirs(st.items, FirstSet(|f.empties|, |All(f)|))))
  {
    hide Decode, Encode, Len, Pack, Unpack, SetDirs;
    var n, bits := |All(f)|, FirstSet(|f.empties|, |All(f)|);
    var a := [EMPTY_STREAM] + Len(Ceil8(n));
    AtConcat(d, i, a, Pack(bits));
    AtConcat(d, i, [EMPTY_STREAM], Len(Ceil8(n)));
    ByteAt(d, i, EMPTY_STREAM);
    LenAt(d, i + 1, Ceil8(n));
    UnpackAt(d, i + |a|, bits, n);
    assert Padded(bits, n) == bits;
    CountFirstSet(|f.empties|, n);
  }

  lemma EmptyFileAt(d: seq<byte>, i: nat, f: FilesInfo, st: ReadFiles)
    requires At(d, i, EmptyFilePart(f)) && HasEmpty(f.empties) && |st.items| == |All(f)| < U64
    ensures var bits := Padded(EmptyFlags(f.empties), Min(8 * Ceil8(|f.empties|), |st.items|));
      ParseTags(d, i, st) == ParseTags(d, i + |EmptyFilePart(f)|, st.(items := SetEmpty(st.items, bits)))
  {
    hide Decode, Encode, Len, Pack, Unpack, SetEmpty, Padded, EmptyFlags;
    var m, flags := |f.empties|, EmptyFlags(f.empties);
    var a := [EMPTY_FILE] + Len(Ceil8(m));
    AtConcat(d, i, a, Pack(flags));
    AtConcat(d, i, [EMPTY_FILE], Len(Ceil8(m)));
    ByteAt(d, i, EMPTY_FILE);
    LenAt(d, i + 1, Ceil8(m));
    UnpackAt(d, i + |a|, flags, Min(8 * Ceil8(m), |st.items|));
  }

  lemma DummyAt(d: seq<byte>, i: nat, st: ReadFiles)
    requires At(d, i, DummyPart())
    ensures ParseTags(d, i, st) == ParseTags(d, i + |DummyPart()|, st)
  {
    hide Decode, Unpack, ParseNames, ParseTimes, ParseWords, SetDirs, SetEmpty, SetNames, SetTimes, SetAttributes;
    assert DummyPart() == [DUMMY] + [2] + [0, 0];
    AtConcat(d, i, [DUMMY] + [2], [0, 0]);
    AtConcat(d, i, [DUMMY], [2]);
    ByteAt(d, i, DUMMY);
    ByteAt(d, i + 1, 2);
  }

  lemma NamePartAt(d: seq<byte>, i: nat, items: seq<Item>, st: ReadFiles)
    requires At(d, i, NamePart(items)) && |st.items| == |items|
    requires forall k :: 0 <= k < |items| ==> GoodItem(items[k])
    ensures ParseTags(d, i, st) == ParseTags(d, i + |NamePart(items)|, st.(items := SetNames(st.items, NamesOf(items))))
  {
    hide Decode, Encode, Names, ParseNames, Unpack, ParseTimes, ParseWords, SetDirs, SetEmpty, SetNames, SetTimes,
        SetAttributes;
    var n := (1 + |Names(items)|) % U64;
    var a := [NAME] + Encode(n);
    AtConcat(d, i, a, [0] + Names(items));
    AtConcat(d, i + |a|, [0], Names(items));
    AtConcat(d, i, [NAME], Encode(n));
    ByteAt(d, i, NAME);
    DecodeInvertsEncode(d, i + 1, n);
    ByteAt(d, i + |a|, 0);
    NamesAt(d, i + |a| + 1, items);
  }

  lemma TimePartAt(d: seq<byte>, i: nat, items: seq<Item>, st: ReadFiles)
    requires At(d, i, TimePart(items)) && |st.items| == |items|
    requires forall k :: 0 <= k < |items| ==> GoodItem(items[k])
    ensures ParseTags(d, i, st) == ParseTags(d, i + |TimePart(items)|, st.(items := SetTimes(st.items, TimesOf(items))))
  {
    hide Decode, Encode, TimeWords, ParseTimes, GoodItem, Unpack, ParseNames, ParseWords, SetDirs, SetEmpty,
        SetNames, SetTimes, SetAttributes;
    var n := (8 * |items| + 2) % U64;
    var a := [MTIME] + Encode(n);
    AtConcat(d, i, a + [1] + [0], TimeWords(items));
    AtConcat(d, i, a + [1], [0]);
    AtConcat(d, i, a, [1]);
    AtConcat(d, i, [MTIME], Encode(n));
    ByteAt(d, i, MTIME);
    DecodeInvertsEncode(d, i + 1, n);
    ByteAt(d, i + |a|, 1);
    ByteAt(d, i + |a| + 1, 0);
    TimesAt(d, i + |a| + 2, items);
  }

  lemma AttributePartAt(d: seq<byte>, i: nat, items: seq<Item>, st: ReadFiles)
    requires At(d, i, AttributePart(items)) && |st.items| == |items|
    ensures ParseTags(d, i, st) ==
            ParseTags(d, i + |AttributePart(items)|, st.(items := SetAttributes(st.items, Attributes(items))))
  {
    hide Decode, Encode, Words, ParseWords, Unpack, ParseNames, ParseTimes, SetDirs, SetEmpty, SetNames, SetTimes,
        SetAttributes;
    var n := (4 * |items| + 2) % U64;
    var a := [ATTRIBUTES] + Encode(n);
    AtConcat(d, i, a + [1] + [0], Words(Attributes(items)));
    AtConcat(d, i, a + [1], [0]);
    AtConcat(d, i, a, [1]);
    AtConcat(d, i, [ATTRIBUTES], Encode(n));
    ByteAt(d, i, ATTRIBUTES);
    DecodeInvertsEncode(d, i + 1, n);
    ByteAt(d, i + |a|, 1);
    ByteAt(d, i + |a| + 1, 0);
    WordsAt(d, i + |a| + 2, Attributes(items));
  }

  // ---- round trips ----

  /** What a reader recovers of an item: everything but the fraction of its second. */
  function Plain(x: Item): Item { x.(nsec := 0) }

  function Plains(items: seq<Item>): (r: seq<Item>)
    ensures |r| == |items|
  {
    seq(|items|, k requires 0 <= k < |items| => Plain(items[k]))
  }

  /** The file table after the two bit vectors. */
  function Flagged(f: FilesInfo): (r: seq<Item>)
    ensures |r| == |All(f)|
  {
    var dirs := SetDirs(seq(|All(f)|, _ => BLANK), FirstSet(|f.empties|, |All(f)|));
    if HasEmpty(f.empties)
    then SetEmpty(dirs, Padded(EmptyFlags(f.empties), Min(8 * Ceil8(|f.empties|), |All(f)|)))
    else dirs
  }

  lemma FlagsRecovered(f: FilesInfo, k: nat)
    requires GoodFiles(f) && k < |All(f)|
    ensures Flagged(f)[k] == BLANK.(isDir := All(f)[k].isDir, isEmpty := All(f)[k].isEmpty)
  {
    var n := Min(8 * Ceil8(|f.empties|), |All(f)|);
    if k < |f.empties| { assert All(f)[k] == f.empties[k]; }
    else { assert All(f)[k] == f.files[k - |f.empties|]; }
  }

  lemma TableRecovered(f: FilesInfo)
    requires GoodFiles(f)
    ensures SetAttributes(SetTimes(SetNames(Flagged(f), NamesOf(All(f))), TimesOf(All(f))), Attributes(All(f)))
            == Plains(All(f))
  {
    hide Flagged;
    var r := SetAttributes(SetTimes(SetNames(Flagged(f), NamesOf(All(f))), TimesOf(All(f))), Attributes(All(f)));
    forall k | 0 <= k < |All(f)| ensures r[k] == Plains(All(f))[k] { FlagsRecovered(f, k); }
  }

  function Tail(f: FilesInfo): seq<byte> {
    DummyPart() + NamePart(All(f)) + TimePart(All(f)) + AttributePart(All(f)) + [END]
  }

  /** From the dummy section on: names, times and attributes. */
  lemma TailAt(d: seq<byte>, i: nat, f: FilesInfo, st: ReadFiles)
    requires At(d, i, Tail(f)) && GoodFiles(f) && |st.items| == |All(f)|
    ensures ParseTags(d, i, st) == Some((st.(items :=
              SetAttributes(SetTimes(SetNames(st.items, NamesOf(All(f))), TimesOf(All(f))), Attributes(All(f)))),
                  i + |Tail(f)|))
  {
    hide DummyPart, NamePart, TimePart, AttributePart, ParseTags, GoodItem, SetNames, SetTimes, SetAttributes;
    var x := All(f);
    var b := DummyPart() + NamePart(x);
    var e := b + TimePart(x);
    var g := e + AttributePart(x);
    AtConcat(d, i, g, [END]);
    AtConcat(d, i, e, AttributePart(x));
    AtConcat(d, i, b, TimePart(x));
    AtConcat(d, i, DummyPart(), NamePart(x));
    DummyAt(d, i, st);
    NamePartAt(d, i + |DummyPart()|, x, st);
    var s1 := st.(items := SetNames(st.items, NamesOf(x)));
    TimePartAt(d, i + |b|, x, s1);
    var s2 := s1.(items := SetTimes(s1.items, TimesOf(x)));
    AttributePartAt(d, i + |e|, x, s2);
    var s3 := s2.(items := SetAttributes(s2.items, Attributes(x)));
    TagsEnd(d, i + |g|, s3);
  }

  lemma TagsEnd(d: seq<byte>, i: nat, st: ReadFiles)
    requires At(d, i, [END])
    ensures ParseTags(d, i, st) == Some((st, i + 1))
  {
    ByteAt(d, i, END);
  }

  lemma FilesBodySplits(d: seq<byte>, i: nat, f: FilesInfo)
    requires At(d, i, FilesBody(f))
    ensures var a, b, c := |Len(|All(f)|)|, |EmptyStreamPart(f)|, |EmptyFilePart(f)|;
      && At(d, i, Len(|All(f)|)) && At(d, i + a, EmptyStreamPart(f)) && At(d, i + a + b, EmptyFilePart(f))
      && At(d, i + a + b + c, Tail(f)) && |FilesBody(f)| == a + b + c + |Tail(f)|
  {
    hide Len, EmptyStreamPart, EmptyFilePart, DummyPart, NamePart, TimePart, AttributePart;
    var a := Len(|All(f)|);
    var b := a + EmptyStreamPart(f);
    var c := b + EmptyFilePart(f);
    assert FilesBody(f) == c + Tail(f);
    AtConcat(d, i, c, Tail(f));
    AtConcat(d, i, b, EmptyFilePart(f));
    AtConcat(d, i, a, EmptyStreamPart(f));
  }

  /** Directory and empty flags, names, second-resolution times and attributes all come back. */
  lemma FilesAt(d: seq<byte>, i: nat, f: FilesInfo)
    requires At(d, i, FilesBody(f)) && GoodFiles(f)
    ensures ParseFiles(d, i) == Some((ReadFiles(|f.empties|, |f.files|, Plains(All(f))), i + |FilesBody(f)|))
  {
    hide Decode, Len, EmptyStreamPart, EmptyFilePart, Tail, FilesBody, ParseTags, GoodItem, SetNames, SetTimes,
        SetAttributes,
      SetDirs, SetEmpty, Padded, FirstSet, Plains;
    FilesBodySplits(d, i, f);
    var n := |All(f)|;
    LenAt(d, i, n);
    var j := i + |Len(n)|;
    var s0 := ReadFiles(0, 0, seq(n, _ => BLANK));
    EmptyStreamAt(d, j, f, s0);
    var s1 := ReadFiles(|f.empties|, |f.files|, SetDirs(s0.items, FirstSet(|f.empties|, n)));
    var k := j + |EmptyStreamPart(f)|;
    if HasEmpty(f.empties) { EmptyFileAt(d, k, f, s1); } else { NoEmptyFilePart(f); }
    var s2 := s1.(items := Flagged(f));
    TailAt(d, k + |EmptyFilePart(f)|, f, s2);
    TableRecovered(f);
  }

  lemma NoEmptyFilePart(f: FilesInfo)
    requires !HasEmpty(f.empties)
    ensures EmptyFilePart(f) == []
  {
  }

  // ---- the end header ----

  datatype Status = Start | InHeader | InProperties | InStreams | InFiles

  datatype ReadHeader = ReadHeader(property: Option<u64>, streams: Option<ReadStreams>, files: Option<ReadFiles>)

  predicate IsHeaderTag(c: byte) { c == ARCHIVE_PROPERTIES || c == MAIN_STREAMSINFO || c == FILESINFO }

  /** One section behind its tag, and what the reader is in the middle of then. */
  function HeaderSection(d: seq<byte>, i: nat, c: byte, h: ReadHeader): (r: Option<(Status, ReadHeader, nat)>)
    requires IsHeaderTag(c)
    ensures r.Some? ==> i < r.value.2
  {
    if c == ARCHIVE_PROPERTIES then
      if h.property.Some? then None else
      var p :- ParseProperty(d, i);
      Some((InProperties, h.(property := Some(p.0)), p.1))
    else if c == MAIN_STREAMSINFO then
      if h.streams.Some? then None else
      var s :- ParseStreams(d, i, NO_STREAMS);
      Some((InStreams, h.(streams := Some(s.0)), s.1))
    else
      if h.files.Some? then None else
      var f :- ParseFiles(d, i);
      Some((InFiles, h.(files := Some(f.0)), f.1))
  }

  /** The tag loop of resolveEndHeader: an end mark counts only after the files section. */
  function ParseHeader(d: seq<byte>, i: nat, status: Status, h: ReadHeader): (r: Option<(ReadHeader, nat)>)
    ensures r.Some? ==> i < r.value.1
    decreases |d| - i
  {
    var c :- Byte(d, i);
    if c.0 == HEADER then ParseHeader(d, c.1, InHeader, h)
    else if IsHeaderTag(c.0) then
      var t :- HeaderSection(d, c.1, c.0, h);
      ParseHeader(d, t.2, t.0, t.1)
    else if c.0 == END then
      if status != InFiles then ParseHeader(d, c.1, status, h)
      else if h.property.None? then None
      else Some((h, c.1))
    else None
  }

  const NO_HEADER := ReadHeader(None, None, None)

  lemma PropertyStep(d: seq<byte>, i: nat, p: Property, status: Status)
    requires At(d, i, [ARCHIVE_PROPERTIES] + PropertyBody(p)) && IsOurs(p.id) && |p.data| < 0x8000_0000
    ensures ParseHeader(d, i, status, NO_HEADER) ==
            ParseHeader(d, i + 1 + |PropertyBody(p)|, InProperties, NO_HEADER.(property := Some(p.id)))
  {
    hide PropertyBody, IsOurs, ParseProperty, Decode, StreamsSection, ParseFiles, ParseStreams;
    AtConcat(d, i, [ARCHIVE_PROPERTIES], PropertyBody(p));
    ByteAt(d, i, ARCHIVE_PROPERTIES);
    PropertyAt(d, i + 1, p);
  }

  lemma StreamsCount(s: StreamsInfo)
    requires GoodStreams(s)
    ensures |s.coders.folders| < U64
  {
  }

  lemma StreamsStep(d: seq<byte>, i: nat, s: StreamsInfo, h: ReadHeader)
    requires At(d, i, [MAIN_STREAMSINFO] + StreamsBody(s)) && GoodStreams(s) && h.streams.None?
    ensures ParseHeader(d, i, InProperties, h)
            == ParseHeader(d, i + 1 + |StreamsBody(s)|, InStreams, h.(streams := Some(Recovered(s))))
  {
    hide StreamsBody, Recovered, ParseStreams, Sum, GoodStreams, Decode, ParseFiles, ParseProperty;
    StreamsCount(s);
    AtConcat(d, i, [MAIN_STREAMSINFO], StreamsBody(s));
    ByteAt(d, i, MAIN_STREAMSINFO);
    StreamsAt(d, i + 1, s);
  }

  lemma FilesStep(d: seq<byte>, i: nat, f: FilesInfo, status: Status, h: ReadHeader)
    requires At(d, i, [FILESINFO] + FilesBody(f)) && At(d, i + 1 + |FilesBody(f)|, [END])
    requires GoodFiles(f) && h.files.None? && h.property.Some?
    ensures ParseHeader(d, i, status, h) == Some((
              h.(files := Some(ReadFiles(|f.empties|, |f.files|, Plains(All(f))))), i + 2 + |FilesBody(f)|))
  {
    hide FilesBody, GoodFiles, ParseFiles, ParseProperty, ParseStreams, Plains;
    AtConcat(d, i, [FILESINFO], FilesBody(f));
    ByteAt(d, i, FILESINFO);
    FilesAt(d, i + 1, f);
    ByteAt(d, i + 1 + |FilesBody(f)|, END);
  }

  /** Resolving what was written recovers it, and reads exactly the bytes that were written,
      whatever lies before and behind them in the file. */
  lemma HeaderRoundTrip(d: seq<byte>, i: nat, h: EndHeader)
    requires At(d, i, HeaderBytes(h)) && GoodHeader(h)
    ensures ParseHeader(d, i, Start, NO_HEADER) == Some((
              ReadHeader(Some(h.property.id),
                         if h.streams.Some? then Some(Recovered(h.streams.value)) else None,
                         Some(ReadFiles(|h.files.empties|, |h.files.files|, Plains(All(h.files))))),
              i + |HeaderBytes(h)|))
  {
    hide PropertyBody, FilesBody, GoodFiles, IsOurs, StreamsBody, ParseHeader, Recovered, Plains, Sum;
    var p := [ARCHIVE_PROPERTIES] + PropertyBody(h.property);
    var a := [HEADER] + p;
    var b := a + StreamsPart(h.streams);
    var f := [FILESINFO] + FilesBody(h.files);
    AtConcat(d, i, b + f, [END]);
    AtConcat(d, i, b, f);
    AtConcat(d, i, a, StreamsPart(h.streams));
    AtConcat(d, i, [HEADER], p);
    HeaderStep(d, i);
    PropertyStep(d, i + 1, h.property, InHeader);
    var r := NO_HEADER.(property := Some(h.property.id));
    if h.streams.Some? {
      StreamsStep(d, i + |a|, h.streams.value, r);
      FilesStep(d, i + |b|, h.files, InStreams, r.(streams := Some(Recovered(h.streams.value))));
    } else { FilesStep(d, i + |b|, h.files, InProperties, r); }
  }

  lemma HeaderStep(d: seq<byte>, i: nat)
    requires At(d, i, [HEADER])
    ensures ParseHeader(d, i, Start, NO_HEADER) == ParseHeader(d, i + 1, InHeader, NO_HEADER)
  {
    ByteAt(d, i, HEADER);
  }
}
