/** CRC-32 (section 8 of RFC 1952) bit by bit, and zlib's crc32_combine as
    "advance over n zero bytes, then exclusive or". */
module Crc32 {
  import opened Bytes

  /** A 32-bit register, lowest bit first. */
  type Word = w: seq<bool> | |w| == 32 witness Zero()

  function ToWord(x: nat): Word {
    seq(32, i requires 0 <= i < 32 => Bit(x, i))
  }

  function Bit(x: nat, i: nat): bool
    decreases i
  {
    if i == 0 then x % 2 == 1 else Bit(x / 2, i - 1)
  }

  function Value(w: seq<bool>): (r: nat) {
    if |w| == 0 then 0 else (if w[0] then 1 else 0) + 2 * Value(w[1..])
  }

  const BITS: nat := 8

  function Poly(): Word { ToWord(0xEDB8_8320) }
  function Ones(): Word { seq(32, i => true) }
  function Zero(): seq<bool> { seq(32, i => false) }

  function Xor(a: Word, b: Word): (r: Word)
    ensures forall i :: 0 <= i < 32 ==> r[i] == (a[i] != b[i])
  {
    seq(32, i requires 0 <= i < 32 => a[i] != b[i])
  }

  function Shift(w: Word): Word {
    w[1..] + [false]
  }

  function Step(w: Word): Word {
    Xor(Shift(w), if w[0] then Poly() else Zero())
  }

  function Advance(w: Word, n: nat): Word
    decreases n
  {
    if n == 0 then w else Advance(Step(w), n - 1)
  }

  /** The register after feeding the bytes of s, k steps for each. */
  function Feed(w: Word, s: seq<byte>, k: nat): Word
    decreases |s|
  {
    if |s| == 0 then w else Feed(Advance(Xor(w, ToWord(s[0])), k), s[1..], k)
  }

  /** zlib's crc32(c, s, |s|). */
  function Crc(c: Word, s: seq<byte>): Word {
    Xor(Feed(Xor(c, Ones()), s, BITS), Ones())
  }

  /** zlib's crc32_combine(c1, c2, n). */
  function Combine(c1: Word, c2: Word, n: nat): Word {
    Xor(Advance(c1, BITS * n), c2)
  }

  lemma XorAssoc(a: Word, b: Word, c: Word)
    ensures Xor(Xor(a, b), c) == Xor(a, Xor(b, c))
  {
    var l, r := Xor(Xor(a, b), c), Xor(a, Xor(b, c));
    forall i | 0 <= i < 32 ensures l[i] == r[i] {}
    assert l == r;
  }

  lemma XorCancel(a: Word, b: Word)
    ensures Xor(Xor(a, b), b) == a
  {
    var l := Xor(Xor(a, b), b);
    forall i | 0 <= i < 32 ensures l[i] == a[i] {}
    assert l == a;
  }

  lemma XorZero(a: Word)
    ensures Xor(Zero(), a) == a
  {
    assert Xor(Zero(), a) == a;
  }

  lemma StepLinear(x: Word, y: Word)
    ensures Step(Xor(x, y)) == Xor(Step(x), Step(y))
  {
    var l, r := Step(Xor(x, y)), Xor(Step(x), Step(y));
    forall i | 0 <= i < 32 ensures l[i] == r[i] {
      assert Zero()[i] == false;
    }
    assert l == r;
  }

  lemma {:induction false} AdvanceLinear(x: Word, y: Word, n: nat)
    ensures Advance(Xor(x, y), n) == Xor(Advance(x, n), Advance(y, n))
    decreases n
  {
    if n > 0 {
      StepLinear(x, y);
      AdvanceLinear(Step(x), Step(y), n - 1);
    }
  }

  lemma {:induction false} AdvanceSplit(x: Word, m: nat, n: nat)
    ensures Advance(x, m + n) == Advance(Advance(x, m), n)
    decreases m
  {
    hide Step;
    if m > 0 { AdvanceSplit(Step(x), m - 1, n); }
  }

  lemma {:induction false} AdvanceZero(n: nat)
    ensures Advance(Zero(), n) == Zero()
  {
    if n > 0 {
      assert Step(Zero()) == Zero();
      AdvanceZero(n - 1);
    }
  }

  lemma FeedStepLinear(x: Word, y: Word, b: Word, k: nat)
    ensures Advance(Xor(Xor(x, y), b), k) == Xor(Advance(x, k), Advance(Xor(y, b), k))
  {
    XorAssoc(x, y, b);
    AdvanceLinear(x, Xor(y, b), k);
  }

  lemma AdvanceBlock(x: Word, k: nat, n: nat)
    ensures Advance(x, k * (n + 1)) == Advance(Advance(x, k), k * n)
  {
    AdvanceSplit(x, k, k * n);
    assert k * (n + 1) == k + k * n;
  }

  lemma {:induction false} FeedLinear(x: Word, y: Word, s: seq<byte>, k: nat)
    ensures Feed(Xor(x, y), s, k) == Xor(Advance(x, k * |s|), Feed(y, s, k))
    decreases |s|
  {
    if |s| == 0 {
      assert k * |s| == 0;
    } else {
      var x', y' := Advance(x, k), Advance(Xor(y, ToWord(s[0])), k);
      assert Feed(Xor(x, y), s, k) == Feed(Xor(x', y'), s[1..], k) by {
        FeedStepLinear(x, y, ToWord(s[0]), k);
      }
      FeedLinear(x', y', s[1..], k);
      AdvanceBlock(x, k, |s| - 1);
    }
  }

  lemma {:induction false} FeedConcat(x: Word, a: seq<byte>, b: seq<byte>, k: nat)
    ensures Feed(x, a + b, k) == Feed(Feed(x, a, k), b, k)
    decreases |a|
  {
    if |a| == 0 {
      assert a + b == b;
    } else {
      assert (a + b)[1..] == a[1..] + b;
      FeedConcat(Advance(Xor(x, ToWord(a[0])), k), a[1..], b, k);
    }
  }

  /** Running one CRC over two pieces is the CRC of the whole. */
  lemma CrcConcat(c: Word, a: seq<byte>, b: seq<byte>)
    ensures Crc(c, a + b) == Crc(Crc(c, a), b)
  {
    FeedConcat(Xor(c, Ones()), a, b, BITS);
    XorCancel(Feed(Xor(c, Ones()), a, BITS), Ones());
  }

  /** What the retriever does with the checksum of one more response. */
  function Fold(crc: Word, checksum: Word, consumed: nat): Word {
    if crc == Zero() then checksum else Combine(crc, checksum, consumed)
  }

  /** Folding in the checksum of b turns the CRC of a into the CRC of a + b, whatever CRC the
      caller started from and also when the running value happens to be zero. */
  lemma FoldExtends(c: Word, a: seq<byte>, b: seq<byte>)
    ensures Fold(Crc(c, a), Crc(Zero(), b), |b|) == Crc(c, a + b)
  {
    var r, n := Crc(c, a), BITS * |b|;
    CrcConcat(c, a, b);
    XorZero(Ones());
    FeedLinear(r, Ones(), b, BITS);
    XorAssoc(Advance(r, n), Feed(Ones(), b, BITS), Ones());
    if r == Zero() {
      AdvanceZero(n);
      XorZero(Crc(Zero(), b));
    }
  }

  function Front<T>(s: seq<T>): seq<T>
    requires |s| > 0
  {
    s[..|s| - 1]
  }

  function Last<T>(s: seq<T>): T
    requires |s| > 0
  {
    s[|s| - 1]
  }

  /** The running value after folding per-chunk checksums, chunk by chunk. */
  function FoldAll(c: Word, chunks: seq<seq<byte>>): Word
    decreases |chunks|
  {
    if |chunks| == 0 then c
    else Fold(FoldAll(c, Front(chunks)), Crc(Zero(), Last(chunks)), |Last(chunks)|)
  }

  function Concat(chunks: seq<seq<byte>>): seq<byte> {
    if |chunks| == 0 then [] else Concat(Front(chunks)) + Last(chunks)
  }

  /** Any list of chunks, empty ones included: the folded value is the CRC of the whole. */
  lemma {:induction false} FoldAllIsCrcOfConcat(c: Word, chunks: seq<seq<byte>>)
    ensures FoldAll(c, chunks) == Crc(c, Concat(chunks))
    decreases |chunks|
  {
    if |chunks| == 0 {
      XorCancel(c, Ones());
    } else {
      FoldAllIsCrcOfConcat(c, Front(chunks));
      FoldExtends(c, Concat(Front(chunks)), Last(chunks));
    }
  }

  // ---- registers as numbers ----

  function Pow2To(n: nat): nat { if n == 0 then 1 else 2 * Pow2To(n - 1) }

  lemma {:induction false} ValueBound(w: seq<bool>)
    ensures Value(w) < Pow2To(|w|)
    decreases |w|
  {
    if |w| > 0 { ValueBound(w[1..]); }
  }

  lemma ValueFits(w: Word)
    ensures Value(w) < 0x1_0000_0000
  {
    ValueBound(w);
    Pow2To32();
  }

  lemma Pow2To32()
    ensures Pow2To(32) == 0x1_0000_0000
  {
    assert Pow2To(4) == 0x10;
    assert Pow2To(8) == 0x100;
    assert Pow2To(12) == 0x1000;
    assert Pow2To(16) == 0x1_0000;
    assert Pow2To(20) == 0x10_0000;
    assert Pow2To(24) == 0x100_0000;
    assert Pow2To(28) == 0x1000_0000;
    assert Pow2To(32) == 0x1_0000_0000;
  }
}
