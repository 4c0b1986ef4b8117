/** Cutting the decompressed stream of a folder into its files. */
module FileSplit {
  import opened Bytes

  const U64 := 0x1_0000_0000_0000_0000

  function Sum(ns: seq<nat>): nat {
    if |ns| == 0 then 0 else Sum(ns[..|ns| - 1]) + ns[|ns| - 1]
  }

  /** Where file k begins in the stream. */
  function Start(sizes: seq<nat>, k: nat): nat
    requires k <= |sizes|
  {
    Sum(sizes[..k])
  }

  lemma StartNext(sizes: seq<nat>, k: nat)
    requires k < |sizes|
    ensures Start(sizes, k + 1) == Start(sizes, k) + sizes[k]
  {
    assert sizes[..k + 1][..k] == sizes[..k];
  }

  lemma StartOfEnd(sizes: seq<nat>)
    ensures Start(sizes, |sizes|) == Sum(sizes)
  {
    assert sizes[..|sizes|] == sizes;
  }

  lemma {:induction false} StartMonotone(sizes: seq<nat>, i: nat, k: nat)
    requires i <= k <= |sizes|
    ensures Start(sizes, i) <= Start(sizes, k)
    decreases k
  {
    if i < k {
      StartMonotone(sizes, i, k - 1);
      StartNext(sizes, k - 1);
    }
  }

  /** The sizes of a folder's files from those stored, all but the last, and the folder's total:
      64-bit arithmetic gives back the original sizes. */
  method RebuildSizes(stored: seq<u64>, total: u64, ghost original: seq<nat>) returns (sizes: seq<u64>)
    ensures |sizes| == |stored| + 1 && sizes[..|stored|] == stored
    ensures |original| == |stored| + 1 && original[..|stored|] == stored && Sum(original) == total ==> sizes == original
  {
    sizes := [];
    var rest: u64 := total;
    ghost var fits := |original| == |stored| + 1 && original[..|stored|] == stored && Sum(original) == total;
    for j := 0 to |stored|
      invariant sizes == stored[..j]
      invariant fits ==> rest == total - Start(original, j)
    {
      if fits {
        StartNext(original, j);
        StartMonotone(original, j + 1, |original|);
        assert original[..|original|] == original;
        assert original[j] == stored[j];
      }
      sizes := sizes + [stored[j]];
      rest := (rest - stored[j]) % U64;
    }
    if fits {
      StartNext(original, |stored|);
      assert original[..|original|] == original;
      assert original == original[..|stored|] + [original[|stored|]];
    }
    sizes := sizes + [rest];
  }

  lemma SliceKept(s: seq<byte>, t: seq<byte>, a: nat, b: nat)
    requires a <= b <= |s|
    ensures (s + t)[a..b] == s[a..b]
  {
  }

  lemma TailGrows(s: seq<byte>, t: seq<byte>, a: nat)
    requires a <= |s|
    ensures (s + t)[a..] == s[a..] + t && (s + t)[a..|s| + |t|] == s[a..] + t
  {
  }

  /** The files being written, and how far the current one is. */
  class Splitter {
    const sizes: seq<nat>
    var files: array<seq<byte>>        // contents on disk; older contents until a file is opened
    var i: nat
    var curOffset: nat
    var first: bool                    // need_check_file_with_same_name: truncate on the next open
    ghost var stream: seq<byte>        // everything handed over so far

    ghost predicate Valid()
      reads this, files
    {
      && files.Length == |sizes| && i <= |sizes| && first == (curOffset == 0)
      && (if i < |sizes| then curOffset < sizes[i] || curOffset == 0 else curOffset == 0)
      && |stream| == Start(sizes, i) + curOffset
      && (forall k :: 0 <= k < i ==> Ends(k) <= |stream| && files[k] == stream[Start(sizes, k)..Ends(k)])
      && (curOffset > 0 ==> files[i] == stream[Start(sizes, i)..])
    }

    /** Where file k ends in the stream. */
    ghost function Ends(k: nat): (r: nat)
      requires k < |sizes|
      ensures r >= Start(sizes, k)
    {
      StartNext(sizes, k);
      Start(sizes, k + 1)
    }

    constructor (sz: seq<nat>, disk: array<seq<byte>>)
      requires disk.Length == |sz|
      ensures sizes == sz && files == disk && Valid() && stream == []
    {
      sizes, files, i, curOffset, first, stream := sz, disk, 0, 0, true, [];
    }

    /** One fopen, fwrite, fclose: "w+" truncates, "a" appends. */
    method Store(part: seq<byte>)
      requires Valid() && i < |sizes| && curOffset + |part| <= sizes[i]
      modifies files
      ensures files == old(files)
      ensures forall k :: 0 <= k < files.Length && k != i ==> files[k] == old(files[k])
      ensures files[i] == stream[Start(sizes, i)..] + part
    {
      if first {
        assert stream[Start(sizes, i)..] == [];
        files[i] := part;
      } else {
        files[i] := files[i] + part;
      }
    }

    /** Stores part in the current file; a complete file is left behind. */
    method Put(part: seq<byte>)
      requires Valid() && i < |sizes| && 0 < |part| <= sizes[i] - curOffset
      modifies this`i, this`curOffset, this`first, this`stream, files
      ensures Valid() && files == old(files) && stream == old(stream) + part
    {
      hide Sum, Start;
      ghost var was := stream;
      StartNext(sizes, i);
      Store(part);
      stream := stream + part;
      TailGrows(was, part, Start(sizes, i));
      forall k | 0 <= k < i ensures Ends(k) <= |stream| && files[k] == stream[Start(sizes, k)..Ends(k)] {
        SliceKept(was, part, Start(sizes, k), Ends(k));
      }
      if |part| == sizes[i] - curOffset {
        i, first, curOffset := i + 1, true, 0;
      } else {
        first, curOffset := false, curOffset + |part|;
      }
    }

    /** When the stream is used up every file has its slice. */
    lemma AllDone()
      requires Valid() && |stream| == Sum(sizes) && forall k :: 0 <= k < |sizes| ==> sizes[k] > 0
      ensures forall k :: 0 <= k < |sizes| ==>
                Start(sizes, k) + sizes[k] <= |stream|
                    && files[k] == stream[Start(sizes, k)..Start(sizes, k) + sizes[k]]
    {
      StartOfEnd(sizes);
      hide Sum, Start;
      if i < |sizes| {
        StartNext(sizes, i);
        StartMonotone(sizes, i + 1, |sizes|);
      }
      forall k | 0 <= k < |sizes| ensures Ends(k) == Start(sizes, k) + sizes[k] { StartNext(sizes, k); }
    }

    /** As long as the files are not all complete there is a current one. */
    lemma HasCurrent()
      requires Valid() && |stream| < Sum(sizes) && forall k :: 0 <= k < |sizes| ==> sizes[k] > 0
      ensures i < |sizes| && curOffset < sizes[i]
    {
      StartOfEnd(sizes);
      hide Sum, Start;
    }

    /** The loop that distributes one decompressed buffer over the files. fwrite of the end of a file
        may store less than asked for, but something; the rest of the buffer that does not complete
        a file is stored whole. */
    method Distribute(dst: seq<byte>)
      requires Valid() && |stream| + |dst| <= Sum(sizes) && forall k :: 0 <= k < |sizes| ==> sizes[k] > 0
      modifies this`i, this`curOffset, this`first, this`stream, files
      ensures Valid() && files == old(files) && stream == old(stream) + dst
    {
      hide Sum, Start, Valid;
      var pos := 0;
      assert old(stream) + dst[..0] == old(stream);
      while pos < |dst|
        invariant Valid() && pos <= |dst| && stream == old(stream) + dst[..pos] && files == old(files)
        decreases |dst| - pos
      {
        HasCurrent();
        var left := |dst| - pos;
        var n: nat := left;
        if sizes[i] - curOffset <= left { n :| 1 <= n <= sizes[i] - curOffset; }
        Put(dst[pos..pos + n]);
        assert old(stream) + dst[..pos] + dst[pos..pos + n] == old(stream) + dst[..pos + n];
        pos := pos + n;
      }
      assert dst[..pos] == dst;
    }
  }

  function Concat(bs: seq<seq<byte>>): seq<byte> {
    if |bs| == 0 then [] else Concat(bs[..|bs| - 1]) + bs[|bs| - 1]
  }

  lemma {:induction false} ConcatPrefix(bs: seq<seq<byte>>, k: nat)
    requires k <= |bs|
    ensures |Concat(bs[..k])| <= |Concat(bs)|
    decreases |bs|
  {
    if k < |bs| {
      assert bs[..|bs| - 1][..k] == bs[..k];
      ConcatPrefix(bs[..|bs| - 1], k);
    } else { assert bs[..k] == bs; }
  }

  /** For every division of the stream into buffers, each file ends up with exactly its own slice,
      whatever was on disk before. */
  method SplitAll(sizes: seq<nat>, disk: array<seq<byte>>, buffers: seq<seq<byte>>)
    requires disk.Length == |sizes| && (forall k :: 0 <= k < |sizes| ==> sizes[k] > 0)
    requires |Concat(buffers)| == Sum(sizes)
    modifies disk
    ensures forall k :: 0 <= k < |sizes| ==>
              Start(sizes, k) + sizes[k] <= |Concat(buffers)|
              && disk[k] == Concat(buffers)[Start(sizes, k)..Start(sizes, k) + sizes[k]]
  {
    hide Sum, Start;
    var s := new Splitter(sizes, disk);
    for b := 0 to |buffers|
      invariant s.sizes == sizes && s.files == disk && s.Valid() && fresh(s) && s.stream == Concat(buffers[..b])
    {
      ConcatPrefix(buffers, b + 1);
      assert buffers[..b + 1][..b] == buffers[..b];
      s.Distribute(buffers[b]);
    }
    assert buffers[..|buffers|] == buffers;
    s.AllDone();
  }
}
