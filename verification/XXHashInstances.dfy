/** XXH32 and XXH64: the two sets of primitives, and the hashes they give. */
module XXHashInstances {
  import opened Bytes
  import opened XXHash

  datatype Lanes<W> = Lanes(v1: W, v2: W, v3: W, v4: W)

  // ---- 32 bits ----

  const P32_1: bv32 := 2654435761
  const P32_2: bv32 := 2246822519
  const P32_3: bv32 := 3266489917
  const P32_4: bv32 := 668265263
  const P32_5: bv32 := 374761393

  /** XXH_readLE32. */
  function Read32(s: seq<byte>, i: nat): bv32 {
    if |s| < i + 4 then 0
    else
      Pow256Values();
      UnLE(s[i..i + 4]) as bv32
  }

  function Rotl32(x: bv32, r: nat): bv32
    requires 0 < r < 32
  {
    (x << r) | (x >> (32 - r))
  }

  function Round32(acc: bv32, input: bv32): bv32 {
    Rotl32(acc + input * P32_2, 13) * P32_1
  }

  function Init32(seed: bv32): Lanes<bv32> {
    Lanes(seed + P32_1 + P32_2, seed + P32_2, seed, seed - P32_1)
  }

  function Absorb32(l: Lanes<bv32>, s: seq<byte>): Lanes<bv32> {
    Rounds32(l, Lanes(Read32(s, 0), Read32(s, 4), Read32(s, 8), Read32(s, 12)))
  }

  function Rounds32(l: Lanes<bv32>, w: Lanes<bv32>): Lanes<bv32> {
    Lanes(Round32(l.v1, w.v1), Round32(l.v2, w.v2), Round32(l.v3, w.v3), Round32(l.v4, w.v4))
  }

  function Converge32(l: Lanes<bv32>): bv32 {
    Sum32(Lanes(Rotl32(l.v1, 1), Rotl32(l.v2, 7), Rotl32(l.v3, 12), Rotl32(l.v4, 18)))
  }

  function Sum32(l: Lanes<bv32>): bv32 { l.v1 + l.v2 + l.v3 + l.v4 }

  function Short32(l: Lanes<bv32>): bv32 {
    l.v3 + P32_5
  }

  function AddLength32(h: bv32, n: nat): bv32 {
    Plus32(h, Low32(n) as bv32)
  }

  function Low32(n: nat): u32 { n % 0x1_0000_0000 }

  function Plus32(a: bv32, b: bv32): bv32 { a + b }

  function MixWord32(h: bv32, w: bv32): bv32 { Rotl32(h + w * P32_3, 17) * P32_4 }

  function MixByte32(h: bv32, x: bv32): bv32 { Rotl32(h + x * P32_5, 11) * P32_1 }

  function Process32(op: Op, h: bv32, s: seq<byte>): bv32 {
    if |s| < 1 || op == Word8 then h
    else if op == Word4 then MixWord32(h, Read32(s, 0))
    else MixByte32(h, s[0] as bv32)
  }

  function Avalanche32(h: bv32): bv32 {
    var a := (h ^ (h >> 15)) * P32_2;
    var b := (a ^ (a >> 13)) * P32_3;
    b ^ (b >> 16)
  }

  function Alg32(): Algo<Lanes<bv32>, bv32> {
    Algo(false, Init32, Absorb32, Converge32, Short32, AddLength32, Process32, Avalanche32)
  }

  // ---- 64 bits ----

  const P64_1: bv64 := 11400714785074694791
  const P64_2: bv64 := 14029467366897019727
  const P64_3: bv64 := 1609587929392839161
  const P64_4: bv64 := 9650029242287828579
  const P64_5: bv64 := 2870177450012600261

  /** XXH_readLE64. */
  function Read64(s: seq<byte>, i: nat): bv64 {
    if |s| < i + 8 then 0
    else
      Pow256Values();
      UnLE(s[i..i + 8]) as bv64
  }

  function Rotl64(x: bv64, r: nat): bv64
    requires 0 < r < 64
  {
    (x << r) | (x >> (64 - r))
  }

  function Round64(acc: bv64, input: bv64): bv64 {
    Rotl64(acc + input * P64_2, 31) * P64_1
  }

  function MergeRound64(acc: bv64, val: bv64): bv64 {
    (acc ^ Round64(0, val)) * P64_1 + P64_4
  }

  function Init64(seed: bv64): Lanes<bv64> {
    Lanes(seed + P64_1 + P64_2, seed + P64_2, seed, seed - P64_1)
  }

  function Absorb64(l: Lanes<bv64>, s: seq<byte>): Lanes<bv64> {
    Rounds64(l, Lanes(Read64(s, 0), Read64(s, 8), Read64(s, 16), Read64(s, 24)))
  }

  function Rounds64(l: Lanes<bv64>, w: Lanes<bv64>): Lanes<bv64> {
    Lanes(Round64(l.v1, w.v1), Round64(l.v2, w.v2), Round64(l.v3, w.v3), Round64(l.v4, w.v4))
  }

  function Sum64(l: Lanes<bv64>): bv64 {
    Rotl64(l.v1, 1) + Rotl64(l.v2, 7) + Rotl64(l.v3, 12) + Rotl64(l.v4, 18)
  }

  function Converge64(l: Lanes<bv64>): bv64 {
    MergeRound64(MergeRound64(MergeRound64(MergeRound64(Sum64(l), l.v1), l.v2), l.v3), l.v4)
  }

  function Short64(l: Lanes<bv64>): bv64 {
    l.v3 + P64_5
  }

  function AddLength64(h: bv64, n: nat): bv64 {
    Plus64(h, Low64(n) as bv64)
  }

  function Low64(n: nat): u64 { n % 0x1_0000_0000_0000_0000 }

  function Plus64(a: bv64, b: bv64): bv64 { a + b }

  function MixWide64(h: bv64, w: bv64): bv64 { Rotl64(h ^ Round64(0, w), 27) * P64_1 + P64_4 }

  function MixWord64(h: bv64, w: bv64): bv64 { Rotl64(h ^ (w * P64_1), 23) * P64_2 + P64_3 }

  function MixByte64(h: bv64, x: bv64): bv64 { Rotl64(h ^ (x * P64_5), 11) * P64_1 }

  function Process64(op: Op, h: bv64, s: seq<byte>): bv64 {
    if |s| < 1 then h
    else match op
      case Word8 => MixWide64(h, Read64(s, 0))
      case Word4 => MixWord64(h, Read32(s, 0) as bv64)
      case Byte1 => MixByte64(h, s[0] as bv64)
  }

  function Avalanche64(h: bv64): bv64 {
    var a := (h ^ (h >> 33)) * P64_2;
    var b := (a ^ (a >> 29)) * P64_3;
    b ^ (b >> 32)
  }

  function Alg64(): Algo<Lanes<bv64>, bv64> {
    Algo(true, Init64, Absorb64, Converge64, Short64, AddLength64, Process64, Avalanche64)
  }

  // ---- what the lanes hold ----

  /** The word number k of s as a 32-bit number. */
  function Word32(s: seq<byte>, k: nat): bv32
    requires 4 * k + 4 <= |s|
  {
    Pow256Values();
    UnLE(s[4 * k..4 * k + 4]) as bv32
  }

  /** Rounds over the words j, j + 4, j + 8, ... of the first n stripes. */
  function Lane32(acc: bv32, s: seq<byte>, j: nat, n: nat): bv32
    requires j < 4 && 16 * n <= |s|
  {
    if n == 0 then acc else Round32(Lane32(acc, s, j, n - 1), Word32(s, 4 * (n - 1) + j))
  }

  lemma SliceOf(s: seq<byte>, a: nat, b: nat, i: nat, j: nat)
    requires a <= b <= |s| && i <= j <= b - a
    ensures s[a..b][i..j] == s[a + i..a + j]
  {
    var l, r := s[a..b][i..j], s[a + i..a + j];
    forall k | 0 <= k < j - i ensures l[k] == r[k] {}
  }

  /** Word k, found at offset i of a slice. */
  lemma InSlice32(s: seq<byte>, a: nat, b: nat, i: nat, k: nat)
    requires a <= b <= |s| && a + i == 4 * k && 4 * k + 4 <= b
    ensures Read32(s[a..b], i) == Word32(s, k)
  {
    hide UnLE;
    SliceOf(s, a, b, i, i + 4);
  }

  lemma StripeWords32(l: Lanes<bv32>, s: seq<byte>, n: nat)
    requires 16 * (n + 1) <= |s|
    ensures Absorb32(l, s[16 * n..16 * (n + 1)])
         == Rounds32(l, Lanes(Word32(s, 4 * n), Word32(s, 4 * n + 1), Word32(s, 4 * n + 2), Word32(s, 4 * n + 3)))
  {
    hide Rounds32, Read32, Word32;
    InSlice32(s, 16 * n, 16 * (n + 1), 0, 4 * n + 0);
    InSlice32(s, 16 * n, 16 * (n + 1), 4, 4 * n + 1);
    InSlice32(s, 16 * n, 16 * (n + 1), 8, 4 * n + 2);
    InSlice32(s, 16 * n, 16 * (n + 1), 12, 4 * n + 3);
  }

  /** Absorbing stripes, each lane folds in every fourth word. */
  lemma {:induction false} LanesHold32(l: Lanes<bv32>, s: seq<byte>, n: nat)
    requires 16 * n <= |s|
    ensures Alg32().Stripes(l, s, n)
         == Lanes(Lane32(l.v1, s, 0, n), Lane32(l.v2, s, 1, n), Lane32(l.v3, s, 2, n), Lane32(l.v4, s, 3, n))
  {
    hide Round32, Word32, Absorb32;
    if n > 0 {
      LanesHold32(l, s, n - 1);
      StripeWords32(Alg32().Stripes(l, s, n - 1), s, n - 1);
    }
  }

  /** The word number k of s as a 64-bit number. */
  function Word64(s: seq<byte>, k: nat): bv64
    requires 8 * k + 8 <= |s|
  {
    Pow256Values();
    UnLE(s[8 * k..8 * k + 8]) as bv64
  }

  function Lane64(acc: bv64, s: seq<byte>, j: nat, n: nat): bv64
    requires j < 4 && 32 * n <= |s|
  {
    if n == 0 then acc else Round64(Lane64(acc, s, j, n - 1), Word64(s, 4 * (n - 1) + j))
  }

  /** Word k, found at offset i of a slice. */
  lemma InSlice64(s: seq<byte>, a: nat, b: nat, i: nat, k: nat)
    requires a <= b <= |s| && a + i == 8 * k && 8 * k + 8 <= b
    ensures Read64(s[a..b], i) == Word64(s, k)
  {
    hide UnLE;
    SliceOf(s, a, b, i, i + 8);
  }

  lemma StripeWords64(l: Lanes<bv64>, s: seq<byte>, n: nat)
    requires 32 * (n + 1) <= |s|
    ensures Absorb64(l, s[32 * n..32 * (n + 1)])
         == Rounds64(l, Lanes(Word64(s, 4 * n), Word64(s, 4 * n + 1), Word64(s, 4 * n + 2), Word64(s, 4 * n + 3)))
  {
    hide Rounds64, Read64, Word64;
    InSlice64(s, 32 * n, 32 * (n + 1), 0, 4 * n + 0);
    InSlice64(s, 32 * n, 32 * (n + 1), 8, 4 * n + 1);
    InSlice64(s, 32 * n, 32 * (n + 1), 16, 4 * n + 2);
    InSlice64(s, 32 * n, 32 * (n + 1), 24, 4 * n + 3);
  }

  lemma {:induction false} LanesHold64(l: Lanes<bv64>, s: seq<byte>, n: nat)
    requires 32 * n <= |s|
    ensures Alg64().Stripes(l, s, n)
         == Lanes(Lane64(l.v1, s, 0, n), Lane64(l.v2, s, 1, n), Lane64(l.v3, s, 2, n), Lane64(l.v4, s, 3, n))
  {
    hide Round64, Word64, Absorb64;
    if n > 0 {
      LanesHold64(l, s, n - 1);
      StripeWords64(Alg64().Stripes(l, s, n - 1), s, n - 1);
    }
  }

  // ---- the theorem on both ----

  function Concat(pieces: seq<seq<byte>>): seq<byte> {
    if |pieces| == 0 then [] else Concat(pieces[..|pieces| - 1]) + pieces[|pieces| - 1]
  }

  /** Reset, one update per piece, digest. */
  method HashPieces<L, W>(alg: Algo<L, W>, pieces: seq<seq<byte>>, seed: W) returns (h: W)
    requires alg.Measurable(|Concat(pieces)|)
    ensures h == alg.Hash(seed, Concat(pieces))
  {
    var st := new HashState(alg, seed);
    for i := 0 to |pieces|
      invariant st.Valid() && fresh(st) && fresh(st.mem) && st.alg == alg && st.seed == seed
      invariant st.data == Concat(pieces[..i])
    {
      st.Update(pieces[i]);
      assert pieces[..i + 1][..i] == pieces[..i];
    }
    assert pieces[..|pieces|] == pieces;
    h := st.Digest();
  }

  /** Streaming equals one-shot, for both hashes and every split of the input. */
  method StreamingEqualsOneShot(pieces: seq<seq<byte>>, seed32: bv32, seed64: bv64)
    returns (s32: bv32, o32: bv32, s64: bv64, o64: bv64)
    requires Alg64().Measurable(|Concat(pieces)|)
    ensures s32 == o32 == Alg32().Hash(seed32, Concat(pieces))
    ensures s64 == o64 == Alg64().Hash(seed64, Concat(pieces))
  {
    var whole := Concat(pieces);
    s32 := HashPieces(Alg32(), pieces, seed32);
    o32 := OneShot(Alg32(), whole, seed32);
    s64 := HashPieces(Alg64(), pieces, seed64);
    o64 := OneShot(Alg64(), whole, seed64);
  }

  /** Published values of the empty input, with seed 0. */
  lemma EmptyInput32()
    ensures Alg32().Hash(0, []) == 0x02CC_5D05
  {
  }

  lemma EmptyInput64()
    ensures Alg64().Hash(0, []) == 0xEF46_DB37_51D8_E999
  {
  }
}
