/** Bytes, little-endian integers and memory writes: the vocabulary every other module shares. */
module Bytes {

  type byte = x: int | 0 <= x < 0x100
  type u32 = x: int | 0 <= x < 0x1_0000_0000
  type u64 = x: int | 0 <= x < 0x1_0000_0000_0000_0000

  /** 256 to the power k. */
  function Pow256(k: nat): (r: nat)
    ensures r > 0
  {
    if k == 0 then 1 else 0x100 * Pow256(k - 1)
  }

  /** The k low-order bytes of x, least significant first: how x86 stores an integer of k bytes. */
  function LE(x: nat, k: nat): (r: seq<byte>)
    ensures |r| == k
  {
    if k == 0 then [] else [x % 0x100] + LE(x / 0x100, k - 1)
  }

  function UnLE(s: seq<byte>): (r: nat)
    ensures r < Pow256(|s|)
  {
    if |s| == 0 then 0 else s[0] + 0x100 * UnLE(s[1..])
  }

  lemma {:induction false} UnLEInvertsLE(x: nat, k: nat)
    requires x < Pow256(k)
    ensures UnLE(LE(x, k)) == x
  {
    if k > 0 {
      UnLEInvertsLE(x / 0x100, k - 1);
      assert LE(x, k)[1..] == LE(x / 0x100, k - 1);
    }
  }

  lemma {:induction false} LEInvertsUnLE(s: seq<byte>)
    ensures LE(UnLE(s), |s|) == s
  {
    if |s| > 0 {
      LEInvertsUnLE(s[1..]);
      assert UnLE(s) % 0x100 == s[0] && UnLE(s) / 0x100 == UnLE(s[1..]);
      assert s == [s[0]] + s[1..];
    }
  }

  lemma Pow256Values()
    ensures Pow256(1) == 0x100 && Pow256(2) == 0x1_0000
    ensures Pow256(4) == 0x1_0000_0000 && Pow256(8) == 0x1_0000_0000_0000_0000
  {
    assert Pow256(3) == 0x100_0000;
    assert Pow256(5) == 0x100_0000_0000;
    assert Pow256(6) == 0x1_0000_0000_0000;
    assert Pow256(7) == 0x100_0000_0000_0000;
  }

  /** Storing a field and loading it back, for the widths C structures use. */
  lemma FieldRoundTrip(x: nat)
    ensures x < 0x1_0000 ==> UnLE(LE(x, 2)) == x
    ensures x < 0x1_0000_0000 ==> UnLE(LE(x, 4)) == x
    ensures x < 0x1_0000_0000_0000_0000 ==> UnLE(LE(x, 8)) == x
  {
    Pow256Values();
    if x < 0x1_0000 { UnLEInvertsLE(x, 2); }
    if x < 0x1_0000_0000 { UnLEInvertsLE(x, 4); }
    if x < 0x1_0000_0000_0000_0000 { UnLEInvertsLE(x, 8); }
  }

  /** Memory after storing data at offset at; a store past the end shows as growth. */
  function Write(mem: seq<byte>, at: nat, data: seq<byte>): (r: seq<byte>)
    ensures |r| == if at + |data| <= |mem| then |mem| else at + |data|
    ensures forall k :: 0 <= k < |mem| && !(at <= k < at + |data|) ==> r[k] == mem[k]
    ensures forall k :: 0 <= k < |data| ==> data[k] == r[at + k]
  {
    seq(if at + |data| <= |mem| then |mem| else at + |data|, k requires k >= 0 =>
      if at <= k < at + |data| then data[k - at] else if k < |mem| then mem[k] else 0)
  }

  /** The bytes b are found in d at offset i. */
  predicate At(d: seq<byte>, i: nat, b: seq<byte>) {
    i + |b| <= |d| && forall k :: 0 <= k < |b| ==> b[k] == d[i + k]
  }

  lemma AtConcat(d: seq<byte>, i: nat, a: seq<byte>, b: seq<byte>)
    requires At(d, i, a + b)
    ensures At(d, i, a) && At(d, i + |a|, b)
  {
    forall k | 0 <= k < |a| ensures a[k] == d[i + k] { assert (a + b)[k] == a[k]; }
    forall k | 0 <= k < |b| ensures b[k] == d[i + |a| + k] { assert (a + b)[|a| + k] == b[k]; }
  }
}
