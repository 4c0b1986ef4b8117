/** CRC-32 as the division of polynomials it is defined by: the register is the remainder of the message
    by the generator polynomial. */
module Crc32Remainder {
  import opened Bytes
  import opened Crc32

  // ---- polynomials over two elements: the coefficients, highest power first ----

  /** The powers in the generator of section 8.1.1.6.2 of ITU-T V.42. */
  function Generator(): (g: seq<bool>)
    ensures |g| == 33
  {
    seq(33, i => 32 - i in {32, 26, 23, 22, 16, 12, 11, 10, 8, 7, 5, 4, 2, 1, 0})
  }

  function Zeros(n: nat): (r: seq<bool>)
    ensures |r| == n
  {
    seq(n, _ => false)
  }

  /** g times a power of x, added to p so that the highest powers meet. */
  function AddFront(p: seq<bool>, g: seq<bool>): (r: seq<bool>)
    requires |g| <= |p|
    ensures |r| == |p|
  {
    seq(|p|, i requires 0 <= i < |p| => if i < |g| then p[i] != g[i] else p[i])
  }

  /** Long division by the generator: what is left. */
  function Remainder(p: seq<bool>): seq<bool>
    decreases |p|
  {
    if |p| <= 32 then p else Remainder((if p[0] then AddFront(p, Generator()) else p)[1..])
  }

  /** The bits of a message, the lowest bit of every byte first. */
  function ByteBits(b: byte): (r: seq<bool>)
    ensures |r| == 8
  {
    [b % 2 == 1, b / 2 % 2 == 1, b / 4 % 2 == 1, b / 8 % 2 == 1,
     b / 16 % 2 == 1, b / 32 % 2 == 1, b / 64 % 2 == 1, b / 128 % 2 == 1]
  }

  function MessageBits(s: seq<byte>): seq<bool> {
    if |s| == 0 then [] else ByteBits(s[0]) + MessageBits(s[1..])
  }

  // ---- the register, bit by bit ----

  function NextBit(w: Word, b: bool): Word {
    Xor(Shift(w), if w[0] != b then Poly() else Zero())
  }

  function FeedBits(w: Word, m: seq<bool>): Word
    decreases |m|
  {
    if |m| == 0 then w else FeedBits(NextBit(w, m[0]), m[1..])
  }

  // ---- the bits of numbers ----

  lemma LowBits(x: nat)
    ensures Bit(x, 0) == (x % 2 == 1) && Bit(x, 1) == (x / 2 % 2 == 1)
    ensures Bit(x, 2) == (x / 4 % 2 == 1) && Bit(x, 3) == (x / 8 % 2 == 1)
    ensures Bit(x, 4) == (x / 16 % 2 == 1) && Bit(x, 5) == (x / 32 % 2 == 1)
    ensures Bit(x, 6) == (x / 64 % 2 == 1) && Bit(x, 7) == (x / 128 % 2 == 1)
  {
    Halves(x);
    assert Bit(x, 1) == Bit(x / 2, 0);
    assert Bit(x, 2) == Bit(x / 2, 1) == Bit(x / 4, 0);
    assert Bit(x, 3) == Bit(x / 2, 2) == Bit(x / 4, 1) == Bit(x / 8, 0);
    assert Bit(x, 4) == Bit(x / 2, 3) == Bit(x / 4, 2) == Bit(x / 8, 1) == Bit(x / 16, 0);
    assert Bit(x, 5) == Bit(x / 2, 4) == Bit(x / 4, 3) == Bit(x / 8, 2) == Bit(x / 16, 1) == Bit(x / 32, 0);
    assert Bit(x, 6) == Bit(x / 2, 5) == Bit(x / 4, 4) == Bit(x / 8, 3) == Bit(x / 16, 2) == Bit(x / 32, 1)
        == Bit(x / 64, 0);
    assert Bit(x, 7) == Bit(x / 2, 6) == Bit(x / 4, 5) == Bit(x / 8, 4) == Bit(x / 16, 3) == Bit(x / 32, 2)
        == Bit(x / 64, 1) == Bit(x / 128, 0);
  }

  lemma Halves(x: nat)
    ensures x / 2 / 2 == x / 4 && x / 4 / 2 == x / 8 && x / 8 / 2 == x / 16 && x / 16 / 2 == x / 32
    ensures x / 32 / 2 == x / 64 && x / 64 / 2 == x / 128 && x / 128 / 2 == x / 256
  {
  }

  /** The bits behind the lowest eight are those of the number without its lowest byte. */
  lemma NextByte(x: nat, k: nat)
    ensures Bit(x, k + 8) == Bit(x / 256, k)
  {
    Halves(x);
    assert Bit(x, k + 8) == Bit(x / 2, k + 7) == Bit(x / 4, k + 6) == Bit(x / 8, k + 5) == Bit(x / 16, k + 4);
    assert Bit(x / 16, k + 4) == Bit(x / 32, k + 3) == Bit(x / 64, k + 2) == Bit(x / 128, k + 1) == Bit(x / 256, k);
  }

  lemma {:induction false} NoBits(k: nat)
    ensures !Bit(0, k)
  {
    if k > 0 { NoBits(k - 1); }
  }

  lemma BitOfByte(b: byte, i: nat)
    requires i < 8
    ensures Bit(b, i) == ByteBits(b)[i]
  {
    hide Bit;
    LowBits(b);
  }

  lemma WordOfByte(b: byte, i: nat)
    requires i < 32
    ensures ToWord(b)[i] == (i < 8 && ByteBits(b)[i])
  {
    hide Bit, ByteBits;
    if i < 8 { BitOfByte(b, i); }
    else {
      NextByte(b, i - 8);
      NoBits(i - 8);
    }
  }

  lemma PolyByte(x: nat, k: nat)
    requires k == 0 || k == 8 || k == 16 || k == 24
    requires k == 0 ==> x == 0xEDB8_8320
    requires k == 8 ==> x == 0xED_B883
    requires k == 16 ==> x == 0xEDB8
    requires k == 24 ==> x == 0xED
    ensures forall j :: 0 <= j < 8 ==> Bit(x, j) == Generator()[k + j + 1]
  {
    LowBits(x);
    forall j | 0 <= j < 8 ensures Bit(x, j) == Generator()[k + j + 1] {
      assert j == 0 || j == 1 || j == 2 || j == 3 || j == 4 || j == 5 || j == 6 || j == 7;
    }
  }

  /** The polynomial of the register is the generator without its highest power. */
  lemma PolyIsGenerator()
    ensures Generator()[0] && forall i :: 0 <= i < 32 ==> Poly()[i] == Generator()[i + 1]
  {
    PolyByte(0xEDB8_8320, 0);
    PolyByte(0xED_B883, 8);
    PolyByte(0xEDB8, 16);
    PolyByte(0xED, 24);
    forall i | 0 <= i < 32 ensures Poly()[i] == Generator()[i + 1] { PolyBit(i); }
  }

  lemma PolyBit(i: nat)
    requires i < 32
    ensures Poly()[i] == if i < 8 then Bit(0xEDB8_8320, i) else if i < 16 then Bit(0xED_B883, i - 8)
                         else if i < 24 then Bit(0xEDB8, i - 16) else Bit(0xED, i - 24)
  {
    if i >= 8 { NextByte(0xEDB8_8320, i - 8); }
    if i >= 16 { NextByte(0xED_B883, i - 16); }
    if i >= 24 { NextByte(0xEDB8, i - 24); }
  }

  // ---- one bit is one step of the division ----

  /** The polynomial still to be divided when the register is w and the bits m are to come. */
  function Dividend(w: Word, m: seq<bool>): (p: seq<bool>)
    ensures |p| == |m| + 32
  {
    AddFront(m + Zeros(32), w)
  }

  lemma DivisionStep(w: Word, m: seq<bool>)
    requires |m| > 0
    ensures Remainder(Dividend(w, m)) == Remainder(Dividend(NextBit(w, m[0]), m[1..]))
  {
    hide Generator, Poly;
    PolyIsGenerator();
    var p, q := Dividend(w, m), Dividend(NextBit(w, m[0]), m[1..]);
    var r := (if p[0] then AddFront(p, Generator()) else p)[1..];
    assert p[0] == (m[0] != w[0]);
    forall i | 0 <= i < |q| ensures r[i] == q[i] {
      assert (m[1..] + Zeros(32))[i] == (m + Zeros(32))[i + 1];
    }
    assert r == q;
  }

  lemma {:induction false} FeedIsRemainder(w: Word, m: seq<bool>)
    ensures Remainder(Dividend(w, m)) == FeedBits(w, m)
    decreases |m|
  {
    hide NextBit, Remainder;
    if |m| == 0 {
      NothingToDivide(w, m);
    } else {
      DivisionStep(w, m);
      FeedIsRemainder(NextBit(w, m[0]), m[1..]);
    }
  }

  lemma NothingToDivide(w: Word, m: seq<bool>)
    requires |m| == 0
    ensures Remainder(Dividend(w, m)) == w
  {
    assert Dividend(w, m) == w;
  }

  // ---- eight bits at a time ----

  /** Adding up to 32 bits before shifting is adding them one by one. */
  lemma {:induction false} AddedAtOnce(w: Word, m: seq<bool>)
    requires |m| <= 32
    ensures FeedBits(w, m) == Advance(AddFront(w, m), |m|)
    decreases |m|
  {
    hide Poly;
    if |m| == 0 {
      assert AddFront(w, m) == w;
    } else {
      var a, b := Step(AddFront(w, m)), AddFront(NextBit(w, m[0]), m[1..]);
      forall i | 0 <= i < 32 ensures a[i] == b[i] {}
      assert a == b;
      AddedAtOnce(NextBit(w, m[0]), m[1..]);
    }
  }

  lemma ByteFed(w: Word, b: byte)
    ensures FeedBits(w, ByteBits(b)) == Advance(Xor(w, ToWord(b)), 8)
  {
    hide ByteBits, ToWord, FeedBits, Advance;
    AddedAtOnce(w, ByteBits(b));
    var x, y := AddFront(w, ByteBits(b)), Xor(w, ToWord(b));
    forall i | 0 <= i < 32 ensures x[i] == y[i] { WordOfByte(b, i); }
    assert x == y;
  }

  lemma {:induction false} BitsConcat(w: Word, a: seq<bool>, b: seq<bool>)
    ensures FeedBits(w, a + b) == FeedBits(FeedBits(w, a), b)
    decreases |a|
  {
    hide NextBit;
    if |a| == 0 {
      assert a + b == b;
    } else {
      assert (a + b)[1..] == a[1..] + b;
      BitsConcat(NextBit(w, a[0]), a[1..], b);
    }
  }

  lemma {:induction false} MessageFed(w: Word, s: seq<byte>)
    ensures Feed(w, s, BITS) == FeedBits(w, MessageBits(s))
    decreases |s|
  {
    hide ByteBits, Advance, ToWord;
    if |s| == 0 {
    } else {
      BitsConcat(w, ByteBits(s[0]), MessageBits(s[1..]));
      ByteFed(w, s[0]);
      MessageFed(Advance(Xor(w, ToWord(s[0])), BITS), s[1..]);
    }
  }

  function Not(w: Word): Word {
    seq(32, i requires 0 <= i < 32 => !w[i])
  }

  lemma NotIsXor(w: Word)
    ensures Xor(w, Ones()) == Not(w)
  {
    assert Xor(w, Ones()) == Not(w);
  }

  /** The CRC of a message: its bits followed by 32 zeros, with the complement of the value it goes on
      from added in front, divided by the generator; the complement of what is left. */
  lemma CrcIsRemainder(c: Word, s: seq<byte>)
    ensures |Remainder(AddFront(MessageBits(s) + Zeros(32), Not(c)))| == 32
    ensures Crc(c, s) == Not(Remainder(AddFront(MessageBits(s) + Zeros(32), Not(c))))
  {
    hide Not, Feed, FeedBits, Remainder, AddFront;
    MessageFed(Not(c), s);
    FeedIsRemainder(Not(c), MessageBits(s));
    NotIsXor(c);
    NotIsXor(Feed(Not(c), s, BITS));
  }
}
