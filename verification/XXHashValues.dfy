/** Published values of both hashes, worked out step by step. The inputs reach every primitive: whole
    stripes, the merge of the lanes, words, single bytes and the final mix. The numbers come into the
    steps as parameters, so that the solver computes with them instead of reasoning about them. */
module XXHashValues {
  import opened Bytes
  import opened XXHash
  import opened XXHashInstances

  /** Four bytes as a number, least significant first. */
  function Word(b: seq<byte>, i: nat): u32
    requires i + 4 <= |b|
  {
    b[i] + 0x100 * b[i + 1] as int + 0x1_0000 * b[i + 2] as int + 0x100_0000 * b[i + 3] as int
  }

  lemma WordIs(b: seq<byte>, i: nat)
    requires i + 4 <= |b|
    ensures UnLE(b[i..i + 4]) == Word(b, i)
  {
    var w := b[i..i + 4];
    assert w[1..][1..] == w[2..] && w[2..][1..] == w[3..] && w[3..][1..] == [];
    assert UnLE(w[3..]) == w[3];
    assert UnLE(w[2..]) == w[2] + 0x100 * w[3] as int;
    assert UnLE(w[1..]) == w[1] + 0x100 * UnLE(w[2..]);
  }

  lemma WideIs(b: seq<byte>, i: nat)
    requires i + 8 <= |b|
    ensures UnLE(b[i..i + 8]) == Word(b, i) + 0x1_0000_0000 * Word(b, i + 4) as int
  {
    var w := b[i..i + 8];
    WordIs(b, i + 4);
    assert w[4..] == b[i + 4..i + 8];
    assert w[1..][1..] == w[2..] && w[2..][1..] == w[3..] && w[3..][1..] == w[4..];
    assert UnLE(w[3..]) == w[3] + 0x100 * UnLE(w[4..]);
    assert UnLE(w[2..]) == w[2] + 0x100 * UnLE(w[3..]);
    assert UnLE(w[1..]) == w[1] + 0x100 * UnLE(w[2..]);
  }

  lemma Reads32(b: seq<byte>, i: nat, x: bv32)
    requires i + 4 <= |b| && Word(b, i) == x as int
    ensures Read32(b, i) == x
  {
    WordIs(b, i);
  }

  lemma Reads64(b: seq<byte>, i: nat, x: bv64)
    requires i + 8 <= |b| && UnLE(b[i..i + 8]) == x as int
    ensures Read64(b, i) == x
  {
  }

  /** A stripe whose words are known. */
  lemma Stripe32(l: Lanes<bv32>, s: seq<byte>, w: Lanes<bv32>)
    requires |s| == 16 && Word(s, 0) == w.v1 as int && Word(s, 4) == w.v2 as int
    requires Word(s, 8) == w.v3 as int && Word(s, 12) == w.v4 as int
    ensures Absorb32(l, s) == Rounds32(l, w)
  {
    hide Rounds32, Read32;
    Reads32(s, 0, w.v1);
    Reads32(s, 4, w.v2);
    Reads32(s, 8, w.v3);
    Reads32(s, 12, w.v4);
  }

  /** The same for the words of XXH64. */
  lemma Stripe64(l: Lanes<bv64>, s: seq<byte>, w: Lanes<bv64>)
    requires |s| == 32 && UnLE(s[0..8]) == w.v1 as int && UnLE(s[8..16]) == w.v2 as int
    requires UnLE(s[16..24]) == w.v3 as int && UnLE(s[24..32]) == w.v4 as int
    ensures Absorb64(l, s) == Rounds64(l, w)
  {
    hide Rounds64, Read64, UnLE;
    Reads64(s, 0, w.v1);
    Reads64(s, 8, w.v2);
    Reads64(s, 16, w.v3);
    Reads64(s, 24, w.v4);
  }

  lemma MixesWord32(h: bv32, s: seq<byte>, w: bv32)
    requires |s| == 4 && Word(s, 0) == w as int
    ensures Process32(Word4, h, s) == MixWord32(h, w)
  {
    hide MixWord32, Read32;
    Reads32(s, 0, w);
  }

  lemma MixesByte32(h: bv32, s: seq<byte>, x: bv32)
    requires |s| == 1 && s[0] as bv32 == x
    ensures Process32(Byte1, h, s) == MixByte32(h, x)
  {
    hide MixByte32;
  }

  lemma ByteIs32(b: byte, x: bv32)
    requires b == x as int
    ensures b as bv32 == x
  {
  }

  lemma MixesWide64(h: bv64, s: seq<byte>, w: bv64)
    requires |s| == 8 && UnLE(s[0..8]) == w as int
    ensures Process64(Word8, h, s) == MixWide64(h, w)
  {
    hide MixWide64, Read64;
    Reads64(s, 0, w);
  }

  lemma MixesWord64(h: bv64, s: seq<byte>, w: bv32)
    requires |s| == 4 && Word(s, 0) == w as int
    ensures Process64(Word4, h, s) == MixWord64(h, w as bv64)
  {
    hide MixWord64, Read32;
    Reads32(s, 0, w);
  }

  lemma MixesByte64(h: bv64, s: seq<byte>, x: bv64)
    requires |s| == 1 && s[0] as bv64 == x
    ensures Process64(Byte1, h, s) == MixByte64(h, x)
  {
    hide MixByte64;
  }

  lemma ByteIs64(b: byte, x: bv64)
    requires b == x as int
    ensures b as bv64 == x
  {
  }

  // ---- 32 bits ----

  function NobodyA(): (s: seq<byte>)
    ensures |s| == 16
  {
    [0x4e, 0x6f, 0x62, 0x6f, 0x64, 0x79, 0x20, 0x69, 0x6e, 0x73, 0x70, 0x65, 0x63, 0x74, 0x73, 0x20]
  }

  function NobodyB(): (s: seq<byte>)
    ensures |s| == 16
  {
    [0x74, 0x68, 0x65, 0x20, 0x73, 0x70, 0x61, 0x6d, 0x6d, 0x69, 0x73, 0x68, 0x20, 0x72, 0x65, 0x70]
  }

  function NobodyC(): (s: seq<byte>)
    ensures |s| == 7
  {
    [0x65, 0x74, 0x69, 0x74, 0x69, 0x6f, 0x6e]
  }

  /** "Nobody inspects the spammish repetition" */
  function Nobody(): (s: seq<byte>)
    ensures |s| == 39
  {
    NobodyA() + NobodyB() + NobodyC()
  }

  lemma NobodyAWords(s: seq<byte>)
    requires s == NobodyA()
    ensures Word(s, 0) == 0x6F62_6F4E && Word(s, 4) == 0x6920_7964
    ensures Word(s, 8) == 0x6570_736E && Word(s, 12) == 0x2073_7463
  {
  }

  lemma NobodyARounds(a: Lanes<bv32>, b: Lanes<bv32>, c: Lanes<bv32>, d: Lanes<bv32>)
    requires a == Lanes(0x2423_4428, 0x6F62_6F4E, 0, 0)
    requires b == Lanes(0x85EB_CA77, 0x6920_7964, 0, 0)
    requires c == Lanes(0x0000_0000, 0x6570_736E, 0, 0)
    requires d == Lanes(0x61C8_864F, 0x2073_7463, 0, 0)
    ensures Round32(a.v1, a.v2) == 0x046A_700A && Round32(b.v1, b.v2) == 0xBFAD_F8E3
    ensures Round32(c.v1, c.v2) == 0x5B32_B4AA && Round32(d.v1, d.v2) == 0x137E_5555
  {
  }

  lemma NobodyALanes(s: seq<byte>, l: Lanes<bv32>, w: Lanes<bv32>)
    requires s == NobodyA()
    requires l == Lanes(0x2423_4428, 0x85EB_CA77, 0x0000_0000, 0x61C8_864F)
    requires w == Lanes(0x6F62_6F4E, 0x6920_7964, 0x6570_736E, 0x2073_7463)
    ensures Absorb32(l, s) == Lanes(0x046A_700A, 0xBFAD_F8E3, 0x5B32_B4AA, 0x137E_5555)
  {
    hide Absorb32, Round32, NobodyA, Word;
    NobodyAWords(s);
    Stripe32(l, s, w);
    NobodyARounds(Lanes(l.v1, w.v1, 0, 0), Lanes(l.v2, w.v2, 0, 0), Lanes(l.v3, w.v3, 0, 0),
                  Lanes(l.v4, w.v4, 0, 0));
  }

  lemma NobodyBWords(s: seq<byte>)
    requires s == NobodyB()
    ensures Word(s, 0) == 0x2065_6874 && Word(s, 4) == 0x6D61_7073
    ensures Word(s, 8) == 0x6873_696D && Word(s, 12) == 0x7065_7220
  {
  }

  lemma NobodyBRounds(a: Lanes<bv32>, b: Lanes<bv32>, c: Lanes<bv32>, d: Lanes<bv32>)
    requires a == Lanes(0x046A_700A, 0x2065_6874, 0, 0)
    requires b == Lanes(0xBFAD_F8E3, 0x6D61_7073, 0, 0)
    requires c == Lanes(0x5B32_B4AA, 0x6873_696D, 0, 0)
    requires d == Lanes(0x137E_5555, 0x7065_7220, 0, 0)
    ensures Round32(a.v1, a.v2) == 0x719A_836E && Round32(b.v1, b.v2) == 0x514C_1DE8
    ensures Round32(c.v1, c.v2) == 0x97FA_4BA2 && Round32(d.v1, d.v2) == 0x242A_97A2
  {
  }

  lemma NobodyBLanes(s: seq<byte>, l: Lanes<bv32>, w: Lanes<bv32>)
    requires s == NobodyB()
    requires l == Lanes(0x046A_700A, 0xBFAD_F8E3, 0x5B32_B4AA, 0x137E_5555)
    requires w == Lanes(0x2065_6874, 0x6D61_7073, 0x6873_696D, 0x7065_7220)
    ensures Absorb32(l, s) == Lanes(0x719A_836E, 0x514C_1DE8, 0x97FA_4BA2, 0x242A_97A2)
  {
    hide Absorb32, Round32, NobodyB, Word;
    NobodyBWords(s);
    Stripe32(l, s, w);
    NobodyBRounds(Lanes(l.v1, w.v1, 0, 0), Lanes(l.v2, w.v2, 0, 0), Lanes(l.v3, w.v3, 0, 0),
                  Lanes(l.v4, w.v4, 0, 0));
  }

  lemma NobodyTurns(l: Lanes<bv32>, m: Lanes<bv32>)
    requires l == Lanes(0x719A_836E, 0x514C_1DE8, 0x97FA_4BA2, 0x242A_97A2)
    requires m == Lanes(0xE335_06DC, 0xA60E_F428, 0xA4BA_297F, 0x5E88_90AA)
    ensures Rotl32(l.v1, 1) == 0xE335_06DC && Rotl32(l.v2, 7) == 0xA60E_F428
    ensures Rotl32(l.v3, 12) == 0xA4BA_297F && Rotl32(l.v4, 18) == 0x5E88_90AA
    ensures Sum32(m) == 0x8C86_B52D
  {
  }

  lemma NobodyConverges(l: Lanes<bv32>)
    requires l == Lanes(0x719A_836E, 0x514C_1DE8, 0x97FA_4BA2, 0x242A_97A2)
    ensures Converge32(l) == 0x8C86_B52D
  {
    hide Rotl32, Sum32;
    NobodyTurns(l, Lanes(0xE335_06DC, 0xA60E_F428, 0xA4BA_297F, 0x5E88_90AA));
  }

  lemma NobodyEnds(a: Lanes<bv32>)
    requires a == Lanes(0x8C86_B52D, 0xB3A7_011B, 0, 0)
    ensures Plus32(a.v1, 39) == 0x8C86_B554 && Avalanche32(a.v2) == 0xE229_3B2F
  {
  }

  lemma NobodyMixes(a: Lanes<bv32>, b: Lanes<bv32>, c: Lanes<bv32>, d: Lanes<bv32>)
    requires a == Lanes(0x8C86_B554, 0x7469_7465, 0, 0)
    requires b == Lanes(0x09B5_1544, 0x0000_0069, 0, 0)
    requires c == Lanes(0xCDEF_D3C9, 0x0000_006F, 0, 0)
    requires d == Lanes(0x3852_087B, 0x0000_006E, 0, 0)
    ensures MixWord32(a.v1, a.v2) == 0x09B5_1544 && MixByte32(b.v1, b.v2) == 0xCDEF_D3C9
    ensures MixByte32(c.v1, c.v2) == 0x3852_087B && MixByte32(d.v1, d.v2) == 0xB3A7_011B
  {
  }

  lemma NobodyCBytes(s: seq<byte>)
    requires s == NobodyC()
    ensures Word(s, 0) == 0x7469_7465 && s[4] as bv32 == 0x0000_0069 && s[5] as bv32 == 0x0000_006F
    ensures s[6] as bv32 == 0x0000_006E
  {
    NobodyCValues(s);
    ByteIs32(s[4], 0x0000_0069);
    ByteIs32(s[5], 0x0000_006F);
    ByteIs32(s[6], 0x0000_006E);
  }

  lemma NobodyCValues(s: seq<byte>)
    requires s == NobodyC()
    ensures Word(s, 0) == 0x7469_7465 && s[4] == 105 && s[5] == 111 && s[6] == 110
  {
  }

  /** The last seven bytes: one word and three single bytes. */
  lemma NobodyTail(s: seq<byte>)
    requires s == NobodyC()
    ensures Alg32().Tail(0x8C86_B554, s, 0) == 0xB3A7_011B
  {
    hide MixWord32, MixByte32, NobodyC, Word, Process32;
    NobodyCBytes(s);
    WholeSlice(s);
    var a, b, c, d: bv32 := 0x8C86_B554, 0x09B5_1544, 0xCDEF_D3C9, 0x3852_087B;
    MixesWord32(a, s[0..4], 0x7469_7465);
    MixesByte32(b, s[4..5], 0x0000_0069);
    MixesByte32(c, s[5..6], 0x0000_006F);
    MixesByte32(d, s[6..7], 0x0000_006E);
    NobodyMixes(Lanes(a, 0x7469_7465, 0, 0), Lanes(b, 0x0000_0069, 0, 0),
                Lanes(c, 0x0000_006F, 0, 0), Lanes(d, 0x0000_006E, 0, 0));
    assert Alg32().Tail(0xB3A7_011B, s, 7) == 0xB3A7_011B;
    assert Alg32().Tail(d, s, 6) == 0xB3A7_011B;
    assert Alg32().Tail(c, s, 5) == 0xB3A7_011B;
    assert Alg32().Tail(b, s, 4) == 0xB3A7_011B;
  }

  lemma WholeSlice(s: seq<byte>)
    requires |s| == 7
    ensures Word(s[0..4], 0) == Word(s, 0)
  {
  }

  lemma NobodyStripes(s: seq<byte>, l0: Lanes<bv32>, l1: Lanes<bv32>, l2: Lanes<bv32>)
    requires s == Nobody()
    requires l0 == Lanes(0x2423_4428, 0x85EB_CA77, 0x0000_0000, 0x61C8_864F)
    requires l1 == Lanes(0x046A_700A, 0xBFAD_F8E3, 0x5B32_B4AA, 0x137E_5555)
    requires l2 == Lanes(0x719A_836E, 0x514C_1DE8, 0x97FA_4BA2, 0x242A_97A2)
    ensures Alg32().Stripes(l0, s, 2) == l2
  {
    hide NobodyA, NobodyB, NobodyC, Absorb32;
    assert s[0..16] == NobodyA() && s[16..32] == NobodyB();
    NobodyALanes(NobodyA(), l0, Lanes(0x6F62_6F4E, 0x6920_7964, 0x6570_736E, 0x2073_7463));
    NobodyBLanes(NobodyB(), l1, Lanes(0x2065_6874, 0x6D61_7073, 0x6873_696D, 0x7065_7220));
    assert Alg32().Stripes(l0, s, 0) == l0;
    assert Alg32().Stripes(l0, s, 1) == l1;
  }

  lemma HashFrom32(s: seq<byte>, l: Lanes<bv32>, h: bv32, r: bv32)
    requires |s| == 39 && Alg32().Stripes(Init32(0), s, 2) == l
    requires AddLength32(Converge32(l), 39) == h && Alg32().Tail(h, s, 32) == r
    ensures Alg32().Hash(0, s) == Avalanche32(r)
  {
    hide Init32, Absorb32, Converge32, Process32, Avalanche32, AddLength32, Algo.Tail, Algo.Stripes;
  }

  lemma Adds39(h: bv32)
    ensures AddLength32(h, 39) == Plus32(h, 39)
  {
    hide Plus32;
    NumberIs32(Low32(39), 39);
  }

  lemma NumberIs32(n: u32, x: bv32)
    requires n == x as int
    ensures n as bv32 == x
  {
  }

  /** The published XXH32 of this input with seed 0. */
  lemma NobodyValue()
    ensures Alg32().Hash(0, Nobody()) == 0xE229_3B2F
  {
    hide NobodyA, NobodyB, NobodyC, Converge32, Avalanche32, AddLength32, Plus32, Algo.Tail, Algo.Stripes, Algo.Hash;
    var s := Nobody();
    var l := Lanes(0x719A_836E, 0x514C_1DE8, 0x97FA_4BA2, 0x242A_97A2);
    InitValue32();
    NobodyStripes(s, Init32(0), Lanes(0x046A_700A, 0xBFAD_F8E3, 0x5B32_B4AA, 0x137E_5555), l);
    NobodyConverges(l);
    NobodyEnds(Lanes(0x8C86_B52D, 0xB3A7_011B, 0, 0));
    Adds39(0x8C86_B52D);
    NobodyTail(NobodyC());
    TailMoves(Alg32(), 0x8C86_B554, s, 32, NobodyC(), 0);
    HashFrom32(s, l, 0x8C86_B554, 0xB3A7_011B);
  }

  lemma InitValue32()
    ensures Init32(0) == Lanes(0x2423_4428, 0x85EB_CA77, 0x0000_0000, 0x61C8_864F)
  {
  }

  // ---- 64 bits ----

  function IshmaelA1(): (s: seq<byte>)
    ensures |s| == 16
  {
    [0x43, 0x61, 0x6c, 0x6c, 0x20, 0x6d, 0x65, 0x20, 0x49, 0x73, 0x68, 0x6d, 0x61, 0x65, 0x6c, 0x2e]
  }

  function IshmaelA2(): (s: seq<byte>)
    ensures |s| == 16
  {
    [0x20, 0x53, 0x6f, 0x6d, 0x65, 0x20, 0x79, 0x65, 0x61, 0x72, 0x73, 0x20, 0x61, 0x67, 0x6f, 0x2d]
  }

  function IshmaelB1(): (s: seq<byte>)
    ensures |s| == 16
  {
    [0x2d, 0x6e, 0x65, 0x76, 0x65, 0x72, 0x20, 0x6d, 0x69, 0x6e, 0x64, 0x20, 0x68, 0x6f, 0x77, 0x20]
  }

  function IshmaelB2(): (s: seq<byte>)
    ensures |s| == 15
  {
    [0x6c, 0x6f, 0x6e, 0x67, 0x20, 0x70, 0x72, 0x65, 0x63, 0x69, 0x73, 0x65, 0x6c, 0x79, 0x2d]
  }

  function IshmaelA(): (s: seq<byte>)
    ensures |s| == 32
  {
    IshmaelA1() + IshmaelA2()
  }

  function IshmaelB(): (s: seq<byte>)
    ensures |s| == 31
  {
    IshmaelB1() + IshmaelB2()
  }

  lemma FrontWord(a: seq<byte>, b: seq<byte>, i: nat)
    requires i + 4 <= |a|
    ensures Word(a + b, i) == Word(a, i)
  {
  }

  lemma BackWord(a: seq<byte>, b: seq<byte>, i: nat)
    requires i + 4 <= |b|
    ensures Word(a + b, |a| + i) == Word(b, i)
  {
  }

  /** "Call me Ishmael. Some years ago--never mind how long precisely-" */
  function Ishmael(): (s: seq<byte>)
    ensures |s| == 63
  {
    IshmaelA() + IshmaelB()
  }

  lemma IshmaelA1Words(s: seq<byte>)
    requires s == IshmaelA1()
    ensures Word(s, 0) == 0x6C6C_6143 && Word(s, 4) == 0x2065_6D20
    ensures Word(s, 8) == 0x6D68_7349 && Word(s, 12) == 0x2E6C_6561
  {
  }

  lemma IshmaelA2Words(s: seq<byte>)
    requires s == IshmaelA2()
    ensures Word(s, 0) == 0x6D6F_5320 && Word(s, 4) == 0x6579_2065
    ensures Word(s, 8) == 0x2073_7261 && Word(s, 12) == 0x2D6F_6761
  {
  }

  lemma IshmaelAWords(s: seq<byte>)
    requires s == IshmaelA()
    ensures Word(s, 0) == 0x6C6C_6143 && Word(s, 4) == 0x2065_6D20
    ensures Word(s, 8) == 0x6D68_7349 && Word(s, 12) == 0x2E6C_6561
    ensures Word(s, 16) == 0x6D6F_5320 && Word(s, 20) == 0x6579_2065
    ensures Word(s, 24) == 0x2073_7261 && Word(s, 28) == 0x2D6F_6761
  {
    hide Word, IshmaelA1, IshmaelA2;
    var a, b := IshmaelA1(), IshmaelA2();
    IshmaelA1Words(a);
    IshmaelA2Words(b);
    FrontWord(a, b, 0); FrontWord(a, b, 4); FrontWord(a, b, 8); FrontWord(a, b, 12);
    BackWord(a, b, 0); BackWord(a, b, 4); BackWord(a, b, 8); BackWord(a, b, 12);
  }

  lemma IshmaelRounds(a: Lanes<bv64>, b: Lanes<bv64>, c: Lanes<bv64>, d: Lanes<bv64>)
    requires a == Lanes(0x60EA_27EE_ADC0_B5D6, 0x2065_6D20_6C6C_6143, 0, 0)
    requires b == Lanes(0xC2B2_AE3D_27D4_EB4F, 0x2E6C_6561_6D68_7349, 0, 0)
    requires c == Lanes(0x0000_0000_0000_0000, 0x6579_2065_6D6F_5320, 0, 0)
    requires d == Lanes(0x61C8_864E_7A14_3579, 0x2D6F_6761_2073_7261, 0, 0)
    ensures Round64(a.v1, a.v2) == 0x670B_8618_B3AA_2200 && Round64(b.v1, b.v2) == 0xFC3F_F3C0_203B_C028
    ensures Round64(c.v1, c.v2) == 0x9677_E9E6_6681_D852 && Round64(d.v1, d.v2) == 0xDA7D_9AAF_D0C0_2036
  {
  }

  lemma IshmaelNumbers(s: seq<byte>)
    requires s == IshmaelA()
    ensures UnLE(s[0..8]) == 0x2065_6D20_6C6C_6143 && UnLE(s[8..16]) == 0x2E6C_6561_6D68_7349
    ensures UnLE(s[16..24]) == 0x6579_2065_6D6F_5320 && UnLE(s[24..32]) == 0x2D6F_6761_2073_7261
  {
    hide IshmaelA, Word, UnLE;
    IshmaelAWords(s);
    WideIs(s, 0);
    WideIs(s, 8);
    WideIs(s, 16);
    WideIs(s, 24);
  }

  lemma IshmaelLanes(s: seq<byte>, l: Lanes<bv64>, w: Lanes<bv64>)
    requires s == IshmaelA()
    requires l == Lanes(0x60EA_27EE_ADC0_B5D6, 0xC2B2_AE3D_27D4_EB4F,
                        0x0000_0000_0000_0000, 0x61C8_864E_7A14_3579)
    requires w == Lanes(0x2065_6D20_6C6C_6143, 0x2E6C_6561_6D68_7349,
                        0x6579_2065_6D6F_5320, 0x2D6F_6761_2073_7261)
    ensures Absorb64(l, s) == Lanes(0x670B_8618_B3AA_2200, 0xFC3F_F3C0_203B_C028,
                                    0x9677_E9E6_6681_D852, 0xDA7D_9AAF_D0C0_2036)
  {
    hide Absorb64, Round64, IshmaelA, UnLE;
    IshmaelNumbers(s);
    Stripe64(l, s, w);
    IshmaelRounds(Lanes(l.v1, w.v1, 0, 0), Lanes(l.v2, w.v2, 0, 0), Lanes(l.v3, w.v3, 0, 0), Lanes(l.v4, w.v4, 0, 0));
  }

  lemma IshmaelMerges(l: Lanes<bv64>, a: Lanes<bv64>, b: Lanes<bv64>, c: Lanes<bv64>, d: Lanes<bv64>)
    requires l == Lanes(0x670B_8618_B3AA_2200, 0xFC3F_F3C0_203B_C028,
                        0x9677_E9E6_6681_D852, 0xDA7D_9AAF_D0C0_2036)
    requires a == Lanes(0xD76E_95AA_2394_EBDB, 0x670B_8618_B3AA_2200, 0, 0)
    requires b == Lanes(0xD9CE_CBCF_AB49_C481, 0xFC3F_F3C0_203B_C028, 0, 0)
    requires c == Lanes(0x6EE1_A8BE_E73B_84E1, 0x9677_E9E6_6681_D852, 0, 0)
    requires d == Lanes(0x96B7_3AAB_55D7_0966, 0xDA7D_9AAF_D0C0_2036, 0, 0)
    ensures Sum64(l) == 0xD76E_95AA_2394_EBDB
    ensures MergeRound64(a.v1, a.v2) == 0xD9CE_CBCF_AB49_C481 && MergeRound64(b.v1, b.v2) == 0x6EE1_A8BE_E73B_84E1
    ensures MergeRound64(c.v1, c.v2) == 0x96B7_3AAB_55D7_0966 && MergeRound64(d.v1, d.v2) == 0xB89F_9480_1D16_5F2A
  {
  }

  lemma IshmaelConverges(l: Lanes<bv64>)
    requires l == Lanes(0x670B_8618_B3AA_2200, 0xFC3F_F3C0_203B_C028,
                        0x9677_E9E6_6681_D852, 0xDA7D_9AAF_D0C0_2036)
    ensures Converge64(l) == 0xB89F_9480_1D16_5F2A
  {
    hide MergeRound64, Sum64;
    IshmaelMerges(l, Lanes(0xD76E_95AA_2394_EBDB, l.v1, 0, 0), Lanes(0xD9CE_CBCF_AB49_C481, l.v2, 0, 0),
                  Lanes(0x6EE1_A8BE_E73B_84E1, l.v3, 0, 0), Lanes(0x96B7_3AAB_55D7_0966, l.v4, 0, 0));
  }

  lemma IshmaelEnds(a: Lanes<bv64>)
    requires a == Lanes(0xB89F_9480_1D16_5F2A, 0x7166_E938_EA54_18D0, 0, 0)
    ensures Plus64(a.v1, 63) == 0xB89F_9480_1D16_5F69 && Avalanche64(a.v2) == 0x02A2_E854_70D6_FD96
  {
  }

  lemma IshmaelB1Words(s: seq<byte>)
    requires s == IshmaelB1()
    ensures Word(s, 0) == 0x7665_6E2D && Word(s, 4) == 0x6D20_7265
    ensures Word(s, 8) == 0x2064_6E69 && Word(s, 12) == 0x2077_6F68
  {
  }

  lemma IshmaelB2Words(s: seq<byte>)
    requires s == IshmaelB2()
    ensures Word(s, 0) == 0x676E_6F6C && Word(s, 4) == 0x6572_7020
    ensures Word(s, 8) == 0x6573_6963
  {
  }

  lemma IshmaelBWords(s: seq<byte>)
    requires s == IshmaelB()
    ensures Word(s, 0) == 0x7665_6E2D && Word(s, 4) == 0x6D20_7265
    ensures Word(s, 8) == 0x2064_6E69 && Word(s, 12) == 0x2077_6F68
    ensures Word(s, 16) == 0x676E_6F6C && Word(s, 20) == 0x6572_7020
    ensures Word(s, 24) == 0x6573_6963
  {
    hide Word, IshmaelB1, IshmaelB2;
    var a, b := IshmaelB1(), IshmaelB2();
    IshmaelB1Words(a);
    IshmaelB2Words(b);
    FrontWord(a, b, 0); FrontWord(a, b, 4); FrontWord(a, b, 8); FrontWord(a, b, 12);
    BackWord(a, b, 0); BackWord(a, b, 4); BackWord(a, b, 8);
  }

  lemma IshmaelRest(s: seq<byte>)
    requires s == IshmaelB()
    ensures s[28] == 108 && s[29] == 121 && s[30] == 45
  {
    hide IshmaelB1;
    var b := IshmaelB2();
    assert b[12] == 108 && b[13] == 121 && b[14] == 45;
  }

  lemma IshmaelBNumbers(s: seq<byte>)
    requires s == IshmaelB()
    ensures UnLE(s[0..8]) == 0x6D20_7265_7665_6E2D && UnLE(s[8..16]) == 0x2077_6F68_2064_6E69
    ensures UnLE(s[16..24]) == 0x6572_7020_676E_6F6C && Word(s, 24) == 0x6573_6963
    ensures s[28] as bv64 == 108 && s[29] as bv64 == 121 && s[30] as bv64 == 45
  {
    hide IshmaelB, Word, UnLE;
    IshmaelBWords(s);
    IshmaelRest(s);
    WideIs(s, 0);
    WideIs(s, 8);
    WideIs(s, 16);
    ByteIs64(s[28], 108);
    ByteIs64(s[29], 121);
    ByteIs64(s[30], 45);
  }

  lemma IshmaelMixes(
    a: Lanes<bv64>, b: Lanes<bv64>, c: Lanes<bv64>, d: Lanes<bv64>, e: Lanes<bv64>, f: Lanes<bv64>, g: Lanes<bv64>)
    requires a == Lanes(0xB89F_9480_1D16_5F69, 0x6D20_7265_7665_6E2D, 0, 0)
    requires b == Lanes(0x0C71_8C0C_F5EC_8337, 0x2077_6F68_2064_6E69, 0, 0)
    requires c == Lanes(0xDDA5_0D58_90EE_F8D0, 0x6572_7020_676E_6F6C, 0, 0)
    requires d == Lanes(0xE2E4_0EBE_A20F_90FF, 0x0000_0000_6573_6963, 0, 0)
    requires e == Lanes(0x2BCA_5F85_8596_8679, 108, 0, 0)
    requires f == Lanes(0x1658_49E4_4031_C250, 121, 0, 0)
    requires g == Lanes(0x9669_659C_916E_30C9, 45, 0, 0)
    ensures MixWide64(a.v1, a.v2) == 0x0C71_8C0C_F5EC_8337 && MixWide64(b.v1, b.v2) == 0xDDA5_0D58_90EE_F8D0
    ensures MixWide64(c.v1, c.v2) == 0xE2E4_0EBE_A20F_90FF && MixWord64(d.v1, d.v2) == 0x2BCA_5F85_8596_8679
    ensures MixByte64(e.v1, e.v2) == 0x1658_49E4_4031_C250 && MixByte64(f.v1, f.v2) == 0x9669_659C_916E_30C9
    ensures MixByte64(g.v1, g.v2) == 0x7166_E938_EA54_18D0
  {
  }

  /** The last 31 bytes: three words of eight bytes, one of four, and three single bytes. */
  lemma IshmaelTail(s: seq<byte>)
    requires s == IshmaelB()
    ensures Alg64().Tail(0xB89F_9480_1D16_5F69, s, 0) == 0x7166_E938_EA54_18D0
  {
    hide MixWide64, MixWord64, MixByte64, IshmaelB, Word, UnLE, Process64;
    IshmaelBNumbers(s);
    IshmaelSlices(s);
    var a, b, c, d: bv64 := 0xB89F_9480_1D16_5F69, 0x0C71_8C0C_F5EC_8337, 0xDDA5_0D58_90EE_F8D0, 0xE2E4_0EBE_A20F_90FF;
    var e, f, g: bv64 := 0x2BCA_5F85_8596_8679, 0x1658_49E4_4031_C250, 0x9669_659C_916E_30C9;
    MixesWide64(a, s[0..8], 0x6D20_7265_7665_6E2D);
    MixesWide64(b, s[8..16], 0x2077_6F68_2064_6E69);
    MixesWide64(c, s[16..24], 0x6572_7020_676E_6F6C);
    MixesWord64(d, s[24..28], 0x6573_6963);
    MixesByte64(e, s[28..29], 108);
    MixesByte64(f, s[29..30], 121);
    MixesByte64(g, s[30..31], 45);
    IshmaelMixes(Lanes(a, 0x6D20_7265_7665_6E2D, 0, 0), Lanes(b, 0x2077_6F68_2064_6E69, 0, 0),
                 Lanes(c, 0x6572_7020_676E_6F6C, 0, 0), Lanes(d, 0x0000_0000_6573_6963, 0, 0),
                 Lanes(e, 108, 0, 0), Lanes(f, 121, 0, 0), Lanes(g, 45, 0, 0));
    assert Alg64().Tail(0x7166_E938_EA54_18D0, s, 31) == 0x7166_E938_EA54_18D0;
    assert Alg64().Tail(g, s, 30) == 0x7166_E938_EA54_18D0;
    assert Alg64().Tail(f, s, 29) == 0x7166_E938_EA54_18D0;
    assert Alg64().Tail(e, s, 28) == 0x7166_E938_EA54_18D0;
    assert Alg64().Tail(d, s, 24) == 0x7166_E938_EA54_18D0;
    assert Alg64().Tail(c, s, 16) == 0x7166_E938_EA54_18D0;
    assert Alg64().Tail(b, s, 8) == 0x7166_E938_EA54_18D0;
  }

  lemma IshmaelSlices(s: seq<byte>)
    requires |s| == 31
    ensures s[0..8][0..8] == s[0..8] && s[8..16][0..8] == s[8..16] && s[16..24][0..8] == s[16..24]
    ensures Word(s[24..28], 0) == Word(s, 24)
  {
  }

  lemma IshmaelStripes(s: seq<byte>, l0: Lanes<bv64>, l1: Lanes<bv64>)
    requires s == Ishmael()
    requires l0 == Lanes(0x60EA_27EE_ADC0_B5D6, 0xC2B2_AE3D_27D4_EB4F,
                         0x0000_0000_0000_0000, 0x61C8_864E_7A14_3579)
    requires l1 == Lanes(0x670B_8618_B3AA_2200, 0xFC3F_F3C0_203B_C028,
                         0x9677_E9E6_6681_D852, 0xDA7D_9AAF_D0C0_2036)
    ensures Alg64().Stripes(l0, s, 1) == l1 && s[32..] == IshmaelB()
  {
    hide IshmaelA, IshmaelB, Absorb64;
    assert s[0..32] == IshmaelA();
    IshmaelLanes(IshmaelA(), l0, Lanes(0x2065_6D20_6C6C_6143, 0x2E6C_6561_6D68_7349,
                                       0x6579_2065_6D6F_5320, 0x2D6F_6761_2073_7261));
    assert Alg64().Stripes(l0, s, 0) == l0;
  }

  lemma HashFrom64(s: seq<byte>, l: Lanes<bv64>, h: bv64, r: bv64)
    requires |s| == 63 && Alg64().Stripes(Init64(0), s, 1) == l
    requires AddLength64(Converge64(l), 63) == h && Alg64().Tail(h, s, 32) == r
    ensures Alg64().Hash(0, s) == Avalanche64(r)
  {
    hide Init64, Absorb64, Converge64, Process64, Avalanche64, AddLength64, Algo.Tail, Algo.Stripes;
  }

  lemma Adds63(h: bv64)
    ensures AddLength64(h, 63) == Plus64(h, 63)
  {
    hide Plus64;
    NumberIs64(Low64(63), 63);
  }

  lemma NumberIs64(n: u64, x: bv64)
    requires n == x as int
    ensures n as bv64 == x
  {
  }

  /** The published XXH64 of this input with seed 0. */
  lemma IshmaelValue()
    ensures Alg64().Hash(0, Ishmael()) == 0x02A2_E854_70D6_FD96
  {
    hide Ishmael, IshmaelB, Converge64, Avalanche64, AddLength64, Plus64, Algo.Tail, Algo.Stripes,
        Algo.Hash;
    var s := Ishmael();
    var l := Lanes(0x670B_8618_B3AA_2200, 0xFC3F_F3C0_203B_C028,
                   0x9677_E9E6_6681_D852, 0xDA7D_9AAF_D0C0_2036);
    InitValue64();
    IshmaelStripes(s, Init64(0), l);
    IshmaelConverges(l);
    var a := Lanes(0xB89F_9480_1D16_5F2A, 0x7166_E938_EA54_18D0, 0, 0);
    IshmaelEnds(a);
    Adds63(a.v1);
    IshmaelTail(IshmaelB());
    TailMoves(Alg64(), 0xB89F_9480_1D16_5F69, s, 32, IshmaelB(), 0);
    HashFrom64(s, l, 0xB89F_9480_1D16_5F69, 0x7166_E938_EA54_18D0);
  }

  lemma InitValue64()
    ensures Init64(0) == Lanes(0x60EA_27EE_ADC0_B5D6, 0xC2B2_AE3D_27D4_EB4F,
                               0x0000_0000_0000_0000, 0x61C8_864E_7A14_3579)
  {
  }

}
