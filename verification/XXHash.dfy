/** The xxHash family: one-shot and streaming forms of one algorithm.

    XXH32 and XXH64 differ only in word size, constants and in how a stream remembers that it has
    passed the first stripe, so the construction is written once over a record of primitives and
    instantiated twice at the end. */
module XXHash {
  import opened Bytes

  // ---- the algorithm record ----

  datatype Op = Word8 | Word4 | Byte1 {
    function Width(): nat {
      match this case Word8 => 8 case Word4 => 4 case Byte1 => 1
    }
  }

  datatype Algo<!L, !W> = Algo(
    wide: bool,                           // XXH64: 32-byte stripes; XXH32: 16-byte stripes
    init: W -> L,                         // the four lanes for a seed
    absorb: (L, seq<byte>) -> L,          // one stripe: a round per lane
    converge: L -> W,
    short: L -> W,                        // start value when no stripe was consumed
    addLength: (W, nat) -> W,
    process: (Op, W, seq<byte>) -> W,     // PROCESS8, PROCESS4, PROCESS1
    avalanche: W -> W
  ) {
    function Stripe(): nat { if wide then 32 else 16 }

    /** How many whole stripes n bytes hold, and how many bytes lie past the last one. */
    function Count(n: nat): nat { if wide then n / 32 else n / 16 }

    function Rest(n: nat): nat { if wide then n % 32 else n % 16 }

    /** Where stripe i starts. */
    function At(i: nat): nat { if wide then 32 * i else 16 * i }

    /** total_len is a 64-bit and total_len_32 a 32-bit unsigned counter. */
    function Wrap(n: nat): nat { if wide then n % 0x1_0000_0000_0000_0000 else n % 0x1_0000_0000 }

    /** The test by which the 64-bit digest recognises a stream of at least one stripe is right. The
        32-bit digest has a flag for it, so there nothing is asked of the length. */
    predicate Measurable(n: nat) { wide ==> (Wrap(n) >= 32 <==> n >= 32) }

    // ---- the plain definition: stripes, then words, then bytes ----

    /** The lanes after the first n stripes of s. */
    function Stripes(l: L, s: seq<byte>, n: nat): L
      requires At(n) <= |s|
    {
      if n == 0 then l else absorb(Stripes(l, s, n - 1), s[At(n - 1)..At(n)])
    }

    /** Mixes in the bytes of s from i on: words first, then single bytes. */
    function Tail(h: W, s: seq<byte>, i: nat): W
      requires i <= |s|
      decreases |s| - i
    {
      if wide && |s| - i >= 8 then Tail(process(Word8, h, s[i..i + 8]), s, i + 8)
      else if |s| - i >= 4 then Tail(process(Word4, h, s[i..i + 4]), s, i + 4)
      else if |s| - i >= 1 then Tail(process(Byte1, h, s[i..i + 1]), s, i + 1)
      else h
    }

    function Hash(seed: W, s: seq<byte>): W {
      var n := Count(|s|);
      var start := if |s| < Stripe() then short(init(seed)) else converge(Stripes(init(seed), s, n));
      avalanche(Tail(addLength(start, Wrap(|s|)), s, At(n)))
    }
  }

  // ---- the fall-through switch of finalize ----

  /** The operations executed from label n of the 16-way switch. */
  function Switch16(n: nat): seq<Op>
    requires n < 16
  {
    match n
    case 12 => [Word4] + Switch16(8)
    case 8 => [Word4] + Switch16(4)
    case 4 => [Word4]
    case 13 => [Word4] + Switch16(9)
    case 9 => [Word4] + Switch16(5)
    case 5 => [Word4, Byte1]
    case 14 => [Word4] + Switch16(10)
    case 10 => [Word4] + Switch16(6)
    case 6 => [Word4, Byte1, Byte1]
    case 15 => [Word4] + Switch16(11)
    case 11 => [Word4] + Switch16(7)
    case 7 => [Word4] + Switch16(3)
    case 3 => [Byte1] + Switch16(2)
    case 2 => [Byte1] + Switch16(1)
    case 1 => [Byte1] + Switch16(0)
    case _ => []
  }

  /** The operations executed from label n of the 32-way switch. */
  function Switch32(n: nat): seq<Op>
    requires n < 32
  {
    match n
    case 24 => [Word8] + Switch32(16)
    case 16 => [Word8] + Switch32(8)
    case 8 => [Word8]
    case 28 => [Word8] + Switch32(20)
    case 20 => [Word8] + Switch32(12)
    case 12 => [Word8] + Switch32(4)
    case 4 => [Word4]
    case 25 => [Word8] + Switch32(17)
    case 17 => [Word8] + Switch32(9)
    case 9 => [Word8, Byte1]
    case 29 => [Word8] + Switch32(21)
    case 21 => [Word8] + Switch32(13)
    case 13 => [Word8] + Switch32(5)
    case 5 => [Word4, Byte1]
    case 26 => [Word8] + Switch32(18)
    case 18 => [Word8] + Switch32(10)
    case 10 => [Word8, Byte1, Byte1]
    case 30 => [Word8] + Switch32(22)
    case 22 => [Word8] + Switch32(14)
    case 14 => [Word8] + Switch32(6)
    case 6 => [Word4, Byte1, Byte1]
    case 27 => [Word8] + Switch32(19)
    case 19 => [Word8] + Switch32(11)
    case 11 => [Word8, Byte1, Byte1, Byte1]
    case 31 => [Word8] + Switch32(23)
    case 23 => [Word8] + Switch32(15)
    case 15 => [Word8] + Switch32(7)
    case 7 => [Word4] + Switch32(3)
    case 3 => [Byte1] + Switch32(2)
    case 2 => [Byte1] + Switch32(1)
    case 1 => [Byte1] + Switch32(0)
    case _ => []
  }

  function Switch(wide: bool, n: nat): seq<Op>
    requires n < if wide then 32 else 16
  {
    if wide then Switch32(n) else Switch16(n)
  }

  function Run<L, W>(alg: Algo<L, W>, ops: seq<Op>, h: W, s: seq<byte>, i: nat): W
    decreases |ops|
  {
    if |ops| == 0 || |s| < i + ops[0].Width() then h
    else Run(alg, ops[1..], alg.process(ops[0], h, s[i..i + ops[0].Width()]), s, i + ops[0].Width())
  }

  /** XXH32_finalize and XXH64_finalize on the bytes of s from i on. */
  function Finalize<L, W>(alg: Algo<L, W>, h: W, s: seq<byte>, i: nat, len: nat): W {
    alg.avalanche(Run(alg, Switch(alg.wide, alg.Rest(len)), h, s, i))
  }

  /** The first operation at each label, and where control goes from there. */
  lemma SwitchStep(wide: bool, n: nat)
    requires n < if wide then 32 else 16
    ensures n == 0 ==> Switch(wide, n) == []
    ensures wide && n >= 8 ==> Switch(wide, n) == [Word8] + Switch(wide, n - 8)
    ensures !(wide && n >= 8) && n >= 4 ==> Switch(wide, n) == [Word4] + Switch(wide, n - 4)
    ensures 1 <= n < 4 ==> Switch(wide, n) == [Byte1] + Switch(wide, n - 1)
  {
  }

  lemma {:induction false} RunIsTail<L, W>(alg: Algo<L, W>, h: W, s: seq<byte>, i: nat)
    requires i <= |s| && |s| - i < alg.Stripe()
    ensures Run(alg, Switch(alg.wide, |s| - i), h, s, i) == alg.Tail(h, s, i)
    decreases |s| - i
  {
    hide Switch;
    var n := |s| - i;
    SwitchStep(alg.wide, n);
    if n > 0 {
      var op := if alg.wide && n >= 8 then Word8 else if n >= 4 then Word4 else Byte1;
      RunIsTail(alg, alg.process(op, h, s[i..i + op.Width()]), s, i + op.Width());
      assert Switch(alg.wide, n)[1..] == Switch(alg.wide, n - op.Width());
    }
  }

  /** The switch computes the plain tail: words, then bytes, then the final mix. */
  lemma FinalizeIsTail<L, W>(alg: Algo<L, W>, h: W, s: seq<byte>, i: nat, len: nat)
    requires i <= |s| && |s| - i == alg.Rest(len)
    ensures Finalize(alg, h, s, i, len) == alg.avalanche(alg.Tail(h, s, i))
  {
    RunIsTail(alg, h, s, i);
  }

  /** Equal remaining bytes mix in equally, wherever they are stored. */
  lemma {:induction false} TailMoves<L, W>(alg: Algo<L, W>, h: W, s: seq<byte>, i: nat, t: seq<byte>, j: nat)
    requires i <= |s| && j <= |t| && |s| - i == |t| - j
    requires forall k :: i <= k < |s| ==> s[k] == t[k - i + j]
    ensures alg.Tail(h, s, i) == alg.Tail(h, t, j)
    decreases |s| - i
  {
    var n := |s| - i;
    if n > 0 {
      var op := if alg.wide && n >= 8 then Word8 else if n >= 4 then Word4 else Byte1;
      var w := op.Width();
      assert s[i..i + w] == t[j..j + w];
      TailMoves(alg, alg.process(op, h, s[i..i + w]), s, i + w, t, j + w);
    }
  }

  /** The first n stripes do not depend on what follows them. */
  lemma {:induction false} StripesPrefix<L, W>(alg: Algo<L, W>, l: L, s: seq<byte>, t: seq<byte>, n: nat)
    requires alg.At(n) <= |s| && alg.At(n) <= |t| && s[..alg.At(n)] == t[..alg.At(n)]
    ensures alg.Stripes(l, s, n) == alg.Stripes(l, t, n)
    decreases n
  {
    if n > 0 {
      var i, j := alg.At(n - 1), alg.At(n);
      assert s[..i] == s[..j][..i] && t[..i] == t[..j][..i];
      assert s[i..j] == s[..j][i..] && t[i..j] == t[..j][i..];
      StripesPrefix(alg, l, s, t, n - 1);
    }
  }

  // ---- the one-shot form: a loop over a pointer ----

  /** The inner do-while of the one-shot and the streaming code: absorbs stripes of input from
      position p on while a whole one is left; data is everything hashed so far, with input last. */
  method AbsorbStripes<L, W>(alg: Algo<L, W>, l: L, input: seq<byte>, p: nat,
                             ghost l0: L, ghost data: seq<byte>, ghost n: nat)
    returns (l': L, q: nat)
    requires p <= |input| && EndsWith(data, input)
    requires |data| - |input| + p == alg.At(n) && l == alg.Stripes(l0, data, n)
    ensures p <= q <= |input| && |input| - q == alg.Rest(|data|)
    ensures l' == alg.Stripes(l0, data, alg.Count(|data|))
  {
    ghost var n', base := n, |data| - |input|;
    l', q := l, p;
    while q + alg.Stripe() <= |input|
      invariant p <= q <= |input| && base + q == alg.At(n') && l' == alg.Stripes(l0, data, n')
      decreases |input| - q
    {
      SameBytes(data, input, q, alg.Stripe());
      l', q, n' := alg.absorb(l', input[q..q + alg.Stripe()]), q + alg.Stripe(), n' + 1;
    }
    assert n' == alg.Count(|data|);
  }

  ghost predicate EndsWith(data: seq<byte>, input: seq<byte>) {
    |input| <= |data| && forall k :: 0 <= k < |input| ==> input[k] == data[|data| - |input| + k]
  }

  lemma SameBytes(data: seq<byte>, input: seq<byte>, q: nat, k: nat)
    requires EndsWith(data, input) && q + k <= |input|
    ensures input[q..q + k] == data[|data| - |input| + q..|data| - |input| + q + k]
  {
  }

  method OneShot<L, W>(alg: Algo<L, W>, input: seq<byte>, seed: W) returns (h: W)
    ensures h == alg.Hash(seed, input)
  {
    var l, p := alg.init(seed), 0;
    if |input| >= alg.Stripe() {
      l, p := AbsorbStripes(alg, l, input, 0, l, input, 0);
      h := alg.converge(l);
    } else {
      h := alg.short(l);
    }
    assert p == alg.At(alg.Count(|input|));
    h := alg.addLength(h, alg.Wrap(|input|));
    FinalizeIsTail(alg, h, input, p, |input|);
    h := Finalize(alg, h, input, p, |input|);
  }

  // ---- the streaming form ----

  /** XXH32_state_t and XXH64_state_t. */
  class HashState<L, W> {
    const alg: Algo<L, W>
    var totalLen: nat
    var largeLen: bool
    var lanes: L
    const mem: array<byte>
    var memSize: nat

    ghost const seed: W
    ghost var data: seq<byte>        // everything fed since the reset

    ghost predicate Valid()
      reads this, mem
    {
      && mem.Length == alg.Stripe()
      && memSize == alg.Rest(|data|)
      && (forall k :: 0 <= k < memSize ==> mem[k] == data[|data| - memSize + k])
      && lanes == alg.Stripes(alg.init(seed), data, alg.Count(|data|))
      && totalLen == alg.Wrap(|data|)
      && largeLen == (|data| >= alg.Stripe())
    }

    /** XXH32_reset, XXH64_reset. */
    constructor (alg: Algo<L, W>, seed: W)
        ensures Valid() && fresh(mem) && data == [] && this.seed == seed && this.alg == alg
    {
      this.alg, this.seed := alg, seed;
      totalLen, largeLen, memSize := 0, false, 0;
      lanes := alg.init(seed);
      mem := new byte[alg.Stripe()];
      data := [];
      new;
      assert mem[..0] == [];
    }

    /** memcpy of n input bytes from position p into mem from position at. */
    method CopyIn(at: nat, input: seq<byte>, p: nat, n: nat)
      requires at + n <= mem.Length && p + n <= |input|
      modifies mem
      ensures forall k :: 0 <= k < mem.Length ==>
                mem[k] == if at <= k < at + n then input[k - at + p] else old(mem[k])
    {
      forall k | at <= k < at + n { mem[k] := input[k - at + p]; }
    }

    /** The rest of input, less than a stripe, goes to the front of mem. */
    method KeepRest(input: seq<byte>, p: nat, ghost d: seq<byte>)
      requires p <= |input| && EndsWith(d, input)
      requires |input| - p == alg.Rest(|d|) && mem.Length == alg.Stripe()
      requires lanes == alg.Stripes(alg.init(seed), d, alg.Count(|d|))
      requires totalLen == alg.Wrap(|d|) && largeLen == (|d| >= alg.Stripe())
      requires memSize == 0
      modifies this, mem
      ensures Valid() && data == d
    {
      hide Algo.Stripes;
      if p < |input| {
        CopyIn(0, input, p, |input| - p);
        memSize := |input| - p;
      }
      data := d;
      forall k | 0 <= k < memSize ensures mem[k] == d[|d| - memSize + k] {
        assert input[p + k] == d[|d| - |input| + (p + k)];
      }
    }

    /** The length counters after len more bytes. */
    method CountBytes(len: nat)
      requires totalLen == alg.Wrap(|data|) && largeLen == (|data| >= alg.Stripe())
      modifies this`totalLen, this`largeLen
      ensures totalLen == alg.Wrap(|data| + len) && largeLen == (|data| + len >= alg.Stripe())
    {
      LargeLenIsExact(alg, |data|, len);
      totalLen := alg.Wrap(totalLen + len);
      largeLen := largeLen || len >= alg.Stripe() || totalLen >= alg.Stripe();
    }

    /** All of input fits beside what mem already holds. */
    method KeepAll(input: seq<byte>)
      requires mem.Length == alg.Stripe() && memSize == alg.Rest(|data|)
      requires memSize + |input| < alg.Stripe()
      requires forall k :: 0 <= k < memSize ==> mem[k] == data[|data| - memSize + k]
      requires lanes == alg.Stripes(alg.init(seed), data, alg.Count(|data|))
      requires totalLen == alg.Wrap(|data| + |input|) && largeLen == (|data| + |input| >= alg.Stripe())
      modifies this, mem
      ensures Valid() && data == old(data) + input
    {
      hide Algo.Stripes;
      StripesPrefix(alg, alg.init(seed), data, data + input, alg.Count(|data|));
      SameStripe(alg, |data|, |input|);
      CopyIn(memSize, input, 0, |input|);
      memSize := memSize + |input|;
      data := data + input;
    }

    /** Completes the stripe begun in mem, if any, and absorbs it. */
    method FinishStripe(input: seq<byte>) returns (l: L, p: nat, ghost n: nat)
      requires mem.Length == alg.Stripe() && memSize == alg.Rest(|data|)
      requires memSize + |input| >= alg.Stripe()
      requires forall k :: 0 <= k < memSize ==> mem[k] == data[|data| - memSize + k]
      requires lanes == alg.Stripes(alg.init(seed), data, alg.Count(|data|))
      modifies mem
      ensures p <= |input| && |data| + p == alg.At(n) <= |data + input|
      ensures l == alg.Stripes(alg.init(seed), data + input, n)
    {
      ghost var d := data + input;
      p, l, n := 0, lanes, alg.Count(|data|);
      StripesPrefix(alg, alg.init(seed), data, d, n);
      if memSize > 0 {
        p := alg.Stripe() - memSize;
        CopyIn(memSize, input, 0, p);
        BegunStripe(alg, data, input, mem[..], memSize);
        l, n := alg.absorb(lanes, mem[..]), n + 1;
      }
    }

    /** At least one stripe is complete. */
    method AbsorbInput(input: seq<byte>)
      requires mem.Length == alg.Stripe() && memSize == alg.Rest(|data|)
      requires memSize + |input| >= alg.Stripe()
      requires forall k :: 0 <= k < memSize ==> mem[k] == data[|data| - memSize + k]
      requires lanes == alg.Stripes(alg.init(seed), data, alg.Count(|data|))
      requires totalLen == alg.Wrap(|data| + |input|) && largeLen == (|data| + |input| >= alg.Stripe())
      modifies this, mem
      ensures Valid() && data == old(data) + input
    {
      hide Algo.Stripes;
      var l, p;
      ghost var n;
      l, p, n := FinishStripe(input);
      memSize := 0;
      lanes, p := AbsorbStripes(alg, l, input, p, alg.init(seed), data + input, n);
      KeepRest(input, p, data + input);
    }

    /** XXH32_update, XXH64_update. */
    method Update(input: seq<byte>)
      requires Valid()
      modifies this, mem
      ensures Valid() && data == old(data) + input
    {
      CountBytes(|input|);
      if memSize + |input| < alg.Stripe() {
        KeepAll(input);
      } else {
        AbsorbInput(input);
      }
    }

    /** XXH32_digest, XXH64_digest. The 64-bit form has no sticky flag: it looks at total_len,
        which misleads it only after a multiple of 2^64 bytes and less than one stripe more. */
    method Digest() returns (h: W)
      requires Valid() && alg.Measurable(|data|)
      ensures h == alg.Hash(seed, data)
    {
      hide Algo.Tail, Algo.Stripes;
      var passed := if alg.wide then totalLen >= alg.Stripe() else largeLen;
      assert passed == (|data| >= alg.Stripe());
      h := if passed then alg.converge(lanes) else alg.short(lanes);
      h := alg.addLength(h, totalLen);
      NoStripes(alg, alg.init(seed), data);
      RestOfWrap(|data|);
      h := FinalizeMem(h, if alg.wide then totalLen else memSize);
    }

    method FinalizeMem(h: W, len: nat) returns (r: W)
      requires Valid() && alg.Rest(len) == memSize
      ensures r == alg.avalanche(alg.Tail(h, data, alg.At(alg.Count(|data|))))
    {
      var kept := mem[..memSize];
      TailMoves(alg, h, kept, 0, data, alg.At(alg.Count(|data|)));
      FinalizeIsTail(alg, h, kept, 0, len);
      r := Finalize(alg, h, kept, 0, len);
    }
  }

  /** Buffered bytes completed by the front of the input are the next stripe. */
  lemma BegunStripe<L, W>(alg: Algo<L, W>, data: seq<byte>, input: seq<byte>, stripe: seq<byte>, kept: nat)
    requires 0 < kept == alg.Rest(|data|) && |stripe| == alg.Stripe() && alg.Stripe() - kept <= |input|
    requires forall k :: 0 <= k < kept ==> stripe[k] == data[|data| - kept + k]
    requires forall k :: kept <= k < |stripe| ==> stripe[k] == input[k - kept]
    ensures var n := alg.Count(|data|);
      && alg.At(n + 1) == |data| + alg.Stripe() - kept <= |data + input|
      && stripe == (data + input)[alg.At(n)..alg.At(n + 1)]
  {
    var n, d := alg.Count(|data|), data + input;
    assert alg.At(n) == |data| - kept && alg.At(n + 1) == alg.At(n) + alg.Stripe();
    forall k | 0 <= k < |stripe| ensures stripe[k] == d[alg.At(n) + k] {
      if k >= kept { assert d[|data| + (k - kept)] == input[k - kept]; }
    }
  }

  lemma NoStripes<L, W>(alg: Algo<L, W>, l: L, s: seq<byte>)
    ensures alg.Stripes(l, s, 0) == l
  {
  }

  lemma SameStripe<L, W>(alg: Algo<L, W>, n: nat, len: nat)
    requires alg.Rest(n) + len < alg.Stripe()
    ensures alg.Count(n + len) == alg.Count(n) && alg.Rest(n + len) == alg.Rest(n) + len
  {
  }

  /** Every input below 2^64 bytes is measurable, and the exceptions above are known. */
  lemma MeasurableIff<L, W>(alg: Algo<L, W>, n: nat)
    ensures alg.Measurable(n) <==> !alg.wide || n < 0x1_0000_0000_0000_0000 || n % 0x1_0000_0000_0000_0000 >= 32
  {
  }

  lemma RestOfWrap(n: nat)
    ensures n % 0x1_0000_0000_0000_0000 % 32 == n % 32
  {
    var q := n / 0x1_0000_0000_0000_0000;
    assert n == 32 * (q * 0x800_0000_0000_0000) + n % 0x1_0000_0000_0000_0000;
  }

  lemma WrapAdds32(n: nat, len: nat)
    ensures (n % 0x1_0000_0000 + len) % 0x1_0000_0000 == (n + len) % 0x1_0000_0000
  {
    var q, y := n / 0x1_0000_0000, n % 0x1_0000_0000 + len;
    assert n + len == q * 0x1_0000_0000 + y;
  }

  lemma WrapAdds64(n: nat, len: nat)
    ensures (n % 0x1_0000_0000_0000_0000 + len) % 0x1_0000_0000_0000_0000 == (n + len) % 0x1_0000_0000_0000_0000
  {
    var q, y := n / 0x1_0000_0000_0000_0000, n % 0x1_0000_0000_0000_0000 + len;
    assert n + len == q * 0x1_0000_0000_0000_0000 + y;
  }

  /** large_len: the sticky flag says exactly that a whole stripe has been seen, although the
      counter it is computed from wraps around. */
  lemma LargeLenIsExact<L, W>(alg: Algo<L, W>, n: nat, len: nat)
    ensures alg.Wrap(alg.Wrap(n) + len) == alg.Wrap(n + len)
    ensures n + len >= alg.Stripe() <==>
            n >= alg.Stripe() || len >= alg.Stripe() || alg.Wrap(n + len) >= alg.Stripe()
  {
    if alg.wide { WrapAdds64(n, len); } else { WrapAdds32(n, len); }
    if n < alg.Stripe() && len < alg.Stripe() { assert alg.Wrap(n + len) == n + len; }
    if n + len < alg.Stripe() { assert alg.Wrap(n + len) == n + len; }
  }
}
