/** Integers in 7z headers: a first byte whose leading ones count the bytes that follow. */
module SevenZipNumbers {
  import opened Arithmetic
  import opened Bytes
  import opened Wrappers

  /** extra_byte_boundary and first_byte_table. */
  function Boundaries(): seq<nat> {
    [0x0, 0x7f, 0x3fff, 0x1f_ffff, 0xfff_ffff, 0x7_ffff_ffff, 0x3ff_ffff_ffff, 0x1_ffff_ffff_ffff, 0xff_ffff_ffff_ffff]
  }

  function FirstBytes(): seq<byte> {
    [0, 0x80, 0xc0, 0xe0, 0xf0, 0xf8, 0xfc, 0xfe, 0xff]
  }

  /** How many bytes follow the first one. */
  function Extra(n: u64): (e: nat)
    ensures e <= 8
  {
    if n <= 0x7f then 0 else if n <= 0x3fff then 1 else if n <= 0x1f_ffff then 2
    else if n <= 0xfff_ffff then 3 else if n <= 0x7_ffff_ffff then 4 else if n <= 0x3ff_ffff_ffff then 5
    else if n <= 0x1_ffff_ffff_ffff then 6 else if n <= 0xff_ffff_ffff_ffff then 7 else 8
  }

  /** The same from the first byte: the number of its leading ones. */
  function ExtraOf(first: byte): (e: nat)
    ensures e <= 8
  {
    if first < 0x80 then 0 else if first < 0xc0 then 1 else if first < 0xe0 then 2 else if first < 0xf0 then 3
    else if first < 0xf8 then 4 else if first < 0xfc then 5 else if first < 0xfe then 6
    else if first < 0xff then 7 else 8
  }

  function Pow128(k: nat): nat { if k == 0 then 1 else 0x80 * Pow128(k - 1) }

  /** Seven bits for the first byte and for every byte that follows: no fewer bytes would do. */
  lemma ExtraIsLeast(n: u64)
    ensures var e := Extra(n);
      && (e < 8 ==> n < Pow128(e + 1)) && (e > 0 ==> n >= Pow128(e))
  {
    assert Pow128(1) == 0x80 && Pow128(2) == 0x4000 && Pow128(3) == 0x20_0000 && Pow128(4) == 0x1000_0000;
    assert Pow128(5) == 0x8_0000_0000 && Pow128(6) == 0x400_0000_0000 && Pow128(7) == 0x2_0000_0000_0000;
    assert Pow128(8) == 0x100_0000_0000_0000;
  }

  /** The number of a byte's leading ones, bit by bit from the highest. */
  lemma LeadingOnes(first: byte, j: nat)
    requires j < 8
    ensures var bit := first / [128, 64, 32, 16, 8, 4, 2, 1][j] % 2;
      && (j < ExtraOf(first) ==> bit == 1) && (j == ExtraOf(first) ==> bit == 0)
  {
  }

  method GetExtraByteNum(n: u64) returns (e: nat)
    ensures e == Extra(n)
  {
    if n == 0 { return 0; }
    var i := 0;
    while i < |Boundaries()| && n > Boundaries()[i]
      invariant 0 <= i <= |Boundaries()|
      invariant i > 0 ==> n > Boundaries()[i - 1]
    {
      i := i + 1;
    }
    e := i - 1;                          // n > 0 has passed the first boundary
  }

  method GetExtraByteNum2(first: byte) returns (e: nat)
    ensures e == ExtraOf(first)
  {
    if first == 0xff { return 8; }
    e := 0;
    while e < |FirstBytes()| - 1 && !(FirstBytes()[e] <= first < FirstBytes()[e + 1])
      invariant 0 <= e <= 8 && first >= FirstBytes()[e]
    {
      e := e + 1;
    }
  }

  // ---- encoding ----

  /** The high bits of n fill the first byte below its leading ones. */
  function Encode(n: u64): (r: seq<byte>)
    ensures |r| == 1 + Extra(n)
  {
    [FirstByte(n, Extra(n))] + LE(n, Extra(n))
  }

  function FirstByte(n: u64, e: nat): (r: byte)
    requires e == Extra(n)
    ensures r == FirstBytes()[e] + n / Pow256(e)
  {
    HighBitsFit(n);
    FirstBytes()[e] + n / Pow256(e)
  }

  /** What Encode stores in the first byte lies strictly below the next entry of the table. */
  lemma HighBitsFit(n: u64)
    ensures var e := Extra(n);
      if e == 8 then n / Pow256(e) == 0
      else FirstBytes()[e] + n / Pow256(e) < FirstBytes()[e + 1]
    ensures Extra(n) >= 7 ==> n / Pow256(Extra(n)) == 0
    ensures 0 <= FirstBytes()[Extra(n)] + n / Pow256(Extra(n)) < 0x100
  {
    Pow256All();
  }

  lemma Pow256All()
    ensures Pow256(0) == 1 && Pow256(1) == 0x100 && Pow256(2) == 0x1_0000 && Pow256(3) == 0x100_0000
    ensures Pow256(4) == 0x1_0000_0000 && Pow256(5) == 0x100_0000_0000 && Pow256(6) == 0x1_0000_0000_0000
    ensures Pow256(7) == 0x100_0000_0000_0000 && Pow256(8) == 0x1_0000_0000_0000_0000
  {
    assert Pow256(3) == 0x100_0000;
    assert Pow256(5) == 0x100_0000_0000;
    assert Pow256(7) == 0x100_0000_0000_0000;
  }

  /** getU64FromBytes: the number at offset i and where it ends. */
  function Decode(d: seq<byte>, i: nat): (r: Option<(u64, nat)>)
    ensures r.Some? ==> i < r.value.1 <= |d|
  {
    if i >= |d| then None
    else
      var c, e := d[i], ExtraOf(d[i]);
      if i + 1 + e > |d| then None
      else
        var low := UnLE(d[i + 1..i + 1 + e]);
        DecodedFits(c, low);
        Some((if e < 7 then low + (c - FirstBytes()[e]) * Pow256(e) else low, i + 1 + e))
  }

  lemma DecodedFits(c: byte, low: nat)
    requires low < Pow256(ExtraOf(c))
    ensures low < 0x1_0000_0000_0000_0000
    ensures ExtraOf(c) < 7 ==> 0 <= low + (c - FirstBytes()[ExtraOf(c)]) * Pow256(ExtraOf(c)) < 0x1_0000_0000_0000_0000
  {
    Pow256All();
  }

  lemma {:induction false} UnLEOfLE(x: nat, k: nat)
    ensures UnLE(LE(x, k)) == x % Pow256(k)
  {
    if k > 0 {
      UnLEOfLE(x / 0x100, k - 1);
      assert LE(x, k)[1..] == LE(x / 0x100, k - 1);
      var p := Pow256(k - 1);
      var q, r := x / 0x100 / p, x / 0x100 % p;
      assert x == 0x100 * p * q + (x % 0x100 + 0x100 * r) by {
        assert x / 0x100 == p * q + r;
        assert 0x100 * (p * q) == 0x100 * p * q;
      }
      DivModUnique(x, 0x100 * p, q, x % 0x100 + 0x100 * r);
    }
  }

  /** The first byte of an encoded number tells how many follow. */
  lemma FirstByteTells(n: u64)
    ensures ExtraOf(Encode(n)[0]) == Extra(n)
    ensures Extra(n) < 7 ==> Encode(n)[0] - FirstBytes()[Extra(n)] == n / Pow256(Extra(n))
  {
    hide LE, Pow256;
    HighBitsFit(n);
  }

  lemma EncodedTail(d: seq<byte>, i: nat, n: u64)
    requires At(d, i, Encode(n))
    ensures i + 1 + Extra(n) <= |d| && d[i] == Encode(n)[0] && d[i + 1..i + 1 + Extra(n)] == LE(n, Extra(n))
  {
    hide LE, Pow256, Extra;
    var e := Extra(n);
    var low := d[i + 1..i + 1 + e];
    forall k | 0 <= k < e ensures low[k] == LE(n, e)[k] { assert Encode(n)[k + 1] == d[i + (k + 1)]; }
    assert d[i] == Encode(n)[0];
  }

  lemma Recombine(n: nat, p: nat)
    requires p > 0
    ensures n % p + (n / p) * p == n
    ensures n / p == 0 ==> n % p == n
  {
  }

  /** Every 64-bit number comes back, and exactly its own bytes are consumed whatever follows. */
  lemma DecodeInvertsEncode(d: seq<byte>, i: nat, n: u64)
    requires At(d, i, Encode(n))
    ensures Decode(d, i) == Some((n, i + |Encode(n)|))
  {
    hide LE, UnLE, Pow256, Extra, ExtraOf, Encode, FirstBytes, FirstByte;
    var e := Extra(n);
    EncodedTail(d, i, n);
    FirstByteTells(n);
    HighBitsFit(n);
    UnLEOfLE(n, e);
    Recombine(n, Pow256(e));
  }

  // ---- the loops ----

  lemma DivPow(n: nat, k: nat)
    ensures n / Pow256(k) / 0x100 == n / Pow256(k + 1)
  {
    DivDiv(n, Pow256(k), 0x100);
  }

  lemma {:induction false} LEAt(n: nat, k: nat, i: nat)
    requires i < k
    ensures LE(n, k)[i] == n / Pow256(i) % 0x100
    decreases i
  {
    if i > 0 {
      LEAt(n / 0x100, k - 1, i - 1);
      DivFirst(n, i - 1);
    } else { assert Pow256(0) == 1; }
  }

  lemma {:induction false} DivFirst(n: nat, k: nat)
    ensures n / 0x100 / Pow256(k) == n / Pow256(k + 1)
  {
    if k > 0 {
      DivFirst(n, k - 1);
      DivPow(n / 0x100, k - 1);
      DivPow(n, k);
    } else { assert Pow256(0) == 1 && Pow256(1) == 0x100; }
  }

  /** Fills p with the bytes of n and returns how many there are. */
  method GetUint64Bytes(n: u64, p: array<byte>) returns (len: nat)
    requires p.Length >= 9
    modifies p
    ensures len <= p.Length && p[..len] == Encode(n)
  {
    hide LE, Pow256, Extra;
    var extra := GetExtraByteNum(n);
    var number: nat := n;
    assert Pow256(0) == 1 by { Pow256All(); }
    for i := 0 to extra
      invariant number == n / Pow256(i)
    {
      DivPow(n, i);
      number := number / 0x100;
    }
    HighBitsFit(n);
    p[0] := FirstBytes()[extra] + number;
    number := n;
    for i := 0 to extra
      invariant number == n / Pow256(i)
      invariant p[0] == FirstByte(n, Extra(n))
      invariant forall k :: 0 <= k < i ==> p[k + 1] == LE(n, extra)[k]
    {
      LEAt(n, extra, i);
      DivPow(n, i);
      p[i + 1] := number % 0x100;
      number := number / 0x100;
    }
    len := extra + 1;
    assert p[..len] == [p[0]] + p[1..len];
  }
}
