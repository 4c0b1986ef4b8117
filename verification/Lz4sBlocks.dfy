/** Writing LZ4s blocks: the bytes the block format prescribes for a list of tokens, and that reading
    them gives the tokens back. */
module Lz4sBlocks {
  import opened Bytes
  import opened Lz4s
  import opened Wrappers

  // ---- the writer ----

  /** Bytes of 255 and a last smaller one that add up to n. */
  function Extras(n: nat): (r: seq<byte>)
    ensures |r| > 0
  {
    if n < 255 then [n] else [255] + Extras(n - 255)
  }

  /** The four bits of a length in the token, and what follows when they are full. */
  function Nibble(n: nat): (r: nat)
    ensures r <= 15
  {
    if n < 15 then n else 15
  }

  function Rest(n: nat): seq<byte> {
    if n < 15 then [] else Extras(n - 15)
  }

  /** What a match length is stored as. */
  function Code(t: Tok, minMatch: nat): nat
    requires t.len == 0 || t.len > minMatch
  {
    if t.len == 0 then 0 else t.len - minMatch
  }

  /** The literals' length in the upper half of the token byte, the match code in the lower; literals,
      offset in two bytes with the low one first, and the rest of the match code. */
  function WriteToken(t: Tok, minMatch: nat): (r: seq<byte>)
    requires t.len == 0 || t.len > minMatch
    ensures |r| > 0
  {
    [16 * Nibble(|t.lits|) + Nibble(Code(t, minMatch))] + Rest(|t.lits|) + t.lits
    + [t.offset % 0x100, t.offset / 0x100 % 0x100] + Rest(Code(t, minMatch))
  }

  /** The last token of a block has literals only. */
  function WriteLast(lits: seq<byte>): (r: seq<byte>)
    ensures |r| > 0
  {
    [16 * Nibble(|lits|)] + Rest(|lits|) + lits
  }

  /** Tokens the format has bytes for. */
  predicate Writable(toks: seq<Tok>, minMatch: nat) {
    forall k :: 0 <= k < |toks| ==> toks[k].offset < 0x1_0000 && (toks[k].len == 0 || toks[k].len > minMatch)
  }

  predicate IsLast(toks: seq<Tok>) { |toks| == 1 && toks[0].offset == 0 && toks[0].len == 0 }

  function WriteBlock(toks: seq<Tok>, minMatch: nat): seq<byte>
    requires Writable(toks, minMatch)
  {
    if |toks| == 0 then []
    else if IsLast(toks) then WriteLast(toks[0].lits)
    else WriteToken(toks[0], minMatch) + WriteBlock(toks[1..], minMatch)
  }

  // ---- reading it back ----

  lemma {:induction false} ExtrasAt(b: seq<byte>, i: nat, n: nat)
    requires At(b, i, Extras(n))
    ensures Extension(b, i) == Some((n, i + |Extras(n)|))
    decreases n
  {
    var e := Extras(n);
    assert e[0] == b[i];
    if n >= 255 {
      AtConcat(b, i, [255], Extras(n - 255));
      ExtrasAt(b, i + 1, n - 255);
    }
  }

  lemma LengthAt(b: seq<byte>, i: nat, n: nat)
    requires i <= |b| && At(b, i, Rest(n))
    ensures Length(b, Nibble(n), i) == Some((n, i + |Rest(n)|))
  {
    if n >= 15 { ExtrasAt(b, i, n - 15); }
  }

  lemma Halves(a: nat, c: nat)
    requires a <= 15 && c <= 15
    ensures (16 * a + c) / 16 == a && (16 * a + c) % 16 == c
  {
  }

  lemma OffsetAt(b: seq<byte>, i: nat, x: nat)
    requires x < 0x1_0000 && At(b, i, [x % 0x100, x / 0x100 % 0x100])
    ensures i + 2 <= |b| && Load16(b, i) == x
  {
    var w := [x % 0x100, x / 0x100 % 0x100];
    assert w[0] == b[i] && w[1] == b[i + 1];
    assert b[i..i + 2][1..][1..] == [] && UnLE([]) == 0;
    assert UnLE(b[i..i + 2][1..]) == b[i + 1];
  }

  lemma PartsAt(b: seq<byte>, i: nat, t: Tok, minMatch: nat)
    requires (t.len == 0 || t.len > minMatch) && At(b, i, WriteToken(t, minMatch))
    ensures var j := i + 1 + |Rest(|t.lits|)|;
      var k := j + |t.lits|;
      && i < |b| && b[i] == 16 * Nibble(|t.lits|) + Nibble(Code(t, minMatch))
      && i + 1 <= |b| && At(b, i + 1, Rest(|t.lits|)) && At(b, j, t.lits)
      && At(b, k, [t.offset % 0x100, t.offset / 0x100 % 0x100]) && At(b, k + 2, Rest(Code(t, minMatch)))
      && i + |WriteToken(t, minMatch)| == k + 2 + |Rest(Code(t, minMatch))|
  {
    hide Rest, Nibble, Code;
    var head: seq<byte> := [16 * Nibble(|t.lits|) + Nibble(Code(t, minMatch))];
    var off: seq<byte> := [t.offset % 0x100, t.offset / 0x100 % 0x100];
    var a := head + Rest(|t.lits|);
    AtConcat(b, i, a + t.lits + off, Rest(Code(t, minMatch)));
    AtConcat(b, i, a + t.lits, off);
    AtConcat(b, i, a, t.lits);
    AtConcat(b, i, head, Rest(|t.lits|));
    assert head[0] == b[i];
  }

  lemma TokenAt(b: seq<byte>, i: nat, t: Tok, minMatch: nat)
    requires t.offset < 0x1_0000 && (t.len == 0 || t.len > minMatch) && At(b, i, WriteToken(t, minMatch))
    ensures i < |b| && Token(b, i, minMatch) == Some((t, i + |WriteToken(t, minMatch)|))
  {
    hide Rest, Nibble, WriteToken, Load16;
    PartsAt(b, i, t, minMatch);
    var j := i + 1 + |Rest(|t.lits|)|;
    var k := j + |t.lits|;
    Halves(Nibble(|t.lits|), Nibble(Code(t, minMatch)));
    LengthAt(b, i + 1, |t.lits|);
    OffsetAt(b, k, t.offset);
    LengthAt(b, k + 2, Code(t, minMatch));
    assert b[j..j + |t.lits|] == t.lits;
  }

  lemma LastAt(b: seq<byte>, i: nat, lits: seq<byte>, minMatch: nat)
    requires At(b, i, WriteLast(lits)) && i + |WriteLast(lits)| == |b|
    ensures i < |b| && Token(b, i, minMatch) == Some((Tok(lits, 0, 0), |b|))
  {
    hide Rest, Nibble;
    var head: seq<byte> := [16 * Nibble(|lits|)];
    AtConcat(b, i, head + Rest(|lits|), lits);
    AtConcat(b, i, head, Rest(|lits|));
    assert head[0] == b[i];
    Halves(Nibble(|lits|), 0);
    LengthAt(b, i + 1, |lits|);
    var j := i + 1 + |Rest(|lits|)|;
    assert b[j..j + |lits|] == lits;
  }

  lemma {:induction false} ParseAt(b: seq<byte>, i: nat, toks: seq<Tok>, minMatch: nat)
    requires Writable(toks, minMatch) && At(b, i, WriteBlock(toks, minMatch))
    requires i + |WriteBlock(toks, minMatch)| == |b|
    ensures Parse(b, i, minMatch) == Some(toks)
    decreases |toks|
  {
    hide Token, WriteToken, WriteLast;
    if |toks| == 0 {
      assert toks == [];
    } else if IsLast(toks) {
      LastAt(b, i, toks[0].lits, minMatch);
      assert Parse(b, |b|, minMatch) == Some([]);
      assert [toks[0]] + [] == toks;
    } else {
      AtConcat(b, i, WriteToken(toks[0], minMatch), WriteBlock(toks[1..], minMatch));
      TokenAt(b, i, toks[0], minMatch);
      ParseAt(b, i + |WriteToken(toks[0], minMatch)|, toks[1..], minMatch);
      assert [toks[0]] + toks[1..] == toks;
    }
  }

  /** Every list of tokens with 16-bit offsets comes back from the bytes of its block. */
  lemma BlockRoundTrip(toks: seq<Tok>, minMatch: nat)
    requires Writable(toks, minMatch)
    ensures Parse(WriteBlock(toks, minMatch), 0, minMatch) == Some(toks)
  {
    ParseAt(WriteBlock(toks, minMatch), 0, toks, minMatch);
  }

  /** From the tokens of a block over its bytes to zstd sequences: executing these over the literals of
      the tokens gives what the tokens decode to. */
  method DecodeWritten(toks: seq<Tok>, minMatch: nat, table: array<Sequence>) returns (off: nat)
    requires Writable(toks, minMatch) && RunsFit(toks) && Matches(toks) < table.Length
    requires forall k :: 0 <= k < table.Length ==> table[k] == BLANK
    modifies table
    ensures off < table.Length && Execute([], Literals(toks), table[..off + 1]) == Decode([], toks)
  {
    hide Parse, WriteBlock, Decode, Execute, Translate, RunsFit;
    var b := WriteBlock(toks, minMatch);
    BlockRoundTrip(toks, minMatch);
    off := DecLz4Block(b, table, 0, minMatch);
    assert table[0..off + 1] == table[..off + 1];
    NothingHeld(toks);
  }

  lemma NothingHeld(toks: seq<Tok>)
    requires RunsFit(toks)
    ensures Execute([], Literals(toks), Translate(toks, 0)) == Decode([], toks)
  {
    TranslationKeepsMeaning([], [], toks);
    assert [] + Literals(toks) == Literals(toks);
  }

  // ---- what a match means ----

  /** A match repeats: what is there stays, and every new byte is the one offset bytes before it, also
      when the match is longer than its offset. */
  lemma {:induction false} MatchRepeats(out: seq<byte>, offset: nat, n: nat)
    requires 0 < offset <= |out|
    ensures var r := CopyMatch(out, offset, n);
      && r[..|out|] == out && forall k :: |out| <= k < |r| ==> r[k] == r[k - offset]
    decreases n
  {
    if n == 0 {
    } else {
      var next := out + [out[|out| - offset]];
      MatchRepeats(next, offset, n - 1);
      var r := CopyMatch(out, offset, n);
      assert r[..|out|] == r[..|next|][..|out|] == out;
      assert r[|out|] == r[..|next|][|out|] && r[|out| - offset] == r[..|out|][|out| - offset];
    }
  }

  /** One literal, then a match of three bytes at offset 1, that is four equal bytes in all: the block,
      its tokens, what they stand for, and the sequences made of them. */
  lemma FourEqualBytes(x: byte)
    ensures var toks, same := [Tok([x], 1, 3), Tok([], 0, 0)], [x, x, x, x];
      && WriteBlock(toks, 2) == [0x11, x, 1, 0, 0] && Parse([0x11, x, 1, 0, 0], 0, 2) == Some(toks)
      && Decode([], toks) == Some(same) && Translate(toks, 0) == [Sequence(1, 1, 3), Sequence(0, 0, 0)]
  {
    var first, last := Tok([x], 1, 3), Tok([], 0, 0);
    var toks := [first, last];
    assert toks[1..] == [last] && [last][1..] == [];
    BytesOfFour(x);
    BlockRoundTrip(toks, 2);
    SameFour(x);
    assert Decode([x, x, x, x], [last]) == Some([x, x, x, x]);
    assert Translate([last], 0) == [Sequence(0, 0, 0)];
  }

  lemma BytesOfFour(x: byte)
    ensures WriteBlock([Tok([x], 1, 3), Tok([], 0, 0)], 2) == [0x11, x, 1, 0, 0]
  {
    var first, last := Tok([x], 1, 3), Tok([], 0, 0);
    assert [first, last][1..] == [last];
    assert WriteToken(first, 2) == [0x11, x, 1, 0] && WriteLast([]) == [0];
    assert WriteBlock([last], 2) == [0];
  }

  lemma SameFour(x: byte)
    ensures Play1([], [x], 1, 3) == Some([x, x, x, x]) && Play1([x, x, x, x], [], 0, 0) == Some([x, x, x, x])
  {
    assert [] + [x] == [x] && [x] + [x] == [x, x] && [x, x, x, x] + [] == [x, x, x, x];
    assert CopyMatch([x, x], 1, 2) == [x, x, x, x] by { assert CopyMatch([x, x, x, x], 1, 0) == [x, x, x, x]; }
  }
}
