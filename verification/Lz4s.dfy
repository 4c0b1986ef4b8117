/** LZ4s blocks and their translation into zstd sequences. */
module Lz4s {
  import opened Bytes
  import opened Wrappers

  const SHORT := 0x1_0000

  /** One token of a block: literals, then a match unless len is 0. */
  datatype Tok = Tok(lits: seq<byte>, offset: nat, len: nat)

  // ---- the block format ----

  /** Extension bytes from i on: their sum, and where they end. */
  function Extension(b: seq<byte>, i: nat): (r: Option<(nat, nat)>)
    ensures r.Some? ==> i < r.value.1 <= |b|
    decreases |b| - i
  {
    if i >= |b| then None
    else if b[i] != 255 then Some((b[i], i + 1))
    else match Extension(b, i + 1)
         case None => None
         case Some((n, j)) => Some((255 + n, j))
  }

  /** A length whose four-bit code is given, and where its extension bytes end. */
  function Length(b: seq<byte>, code: nat, i: nat): (r: Option<(nat, nat)>)
    requires i <= |b|
    ensures r.Some? ==> i <= r.value.1 <= |b|
  {
    if code == 15 then
      match Extension(b, i)
      case None => None
      case Some((n, j)) => Some((15 + n, j))
    else Some((code, i))
  }

  /** qzstd_readLE16. */
  function Load16(b: seq<byte>, i: nat): nat
    requires i + 2 <= |b|
  {
    UnLE(b[i..i + 2])
  }

  /** The token at i and where it ends. minMatch is LZ4MINMATCH: 2, or 3 for sessions with a mini
      match of 4. */
  function Token(b: seq<byte>, i: nat, minMatch: nat): (r: Option<(Tok, nat)>)
    requires i < |b|
    ensures r.Some? ==> i < r.value.1 <= |b|
  {
    match Length(b, b[i] / 16, i + 1)
    case None => None
    case Some((n, j)) =>
      if j + n > |b| then None
      else if j + n == |b| then Some((Tok(b[j..j + n], 0, 0), j + n))
      else if j + n + 2 > |b| then None
      else
        match Length(b, b[i] % 16, j + n + 2)
        case None => None
        case Some((m, k)) =>
          Some((Tok(b[j..j + n], Load16(b, j + n), if m == 0 then 0 else m + minMatch), k))
  }

  /** The tokens of the block from i on; None when it is malformed. */
  function Parse(b: seq<byte>, i: nat, minMatch: nat): Option<seq<Tok>>
    requires i <= |b|
    decreases |b| - i
  {
    if i == |b| then Some([])
    else match Token(b, i, minMatch)
         case None => None
         case Some((t, j)) =>
           match Parse(b, j, minMatch)
           case None => None
           case Some(rest) => Some([t] + rest)
  }

  // ---- what blocks and sequences mean ----

  /** Appends n bytes, each copied from offset bytes back. */
  function CopyMatch(out: seq<byte>, offset: nat, n: nat): (r: seq<byte>)
    requires 0 < offset <= |out|
    ensures |r| == |out| + n
    decreases n
  {
    if n == 0 then out else CopyMatch(out + [out[|out| - offset]], offset, n - 1)
  }

  /** Literals, then a match; None when the match starts before the output does. */
  function Play1(out: seq<byte>, lits: seq<byte>, offset: nat, len: nat): Option<seq<byte>> {
    var o := out + lits;
    if len == 0 then Some(o)
    else if 0 < offset <= |o| then Some(CopyMatch(o, offset, len))
    else None
  }

  /** Decoding the block directly. */
  function Decode(out: seq<byte>, toks: seq<Tok>): Option<seq<byte>>
    decreases |toks|
  {
    if |toks| == 0 then Some(out)
    else match Play1(out, toks[0].lits, toks[0].offset, toks[0].len)
         case None => None
         case Some(o) => Decode(o, toks[1..])
  }

  datatype Sequence = Sequence(offset: nat, lit: nat, len: nat)

  /** Sequence execution (section 3.1.1.4 of RFC 8878) over a buffer of literals, all of which
      the sequences must use up. */
  function Execute(out: seq<byte>, lits: seq<byte>, seqs: seq<Sequence>): Option<seq<byte>>
    decreases |seqs|
  {
    if |seqs| == 0 then (if lits == [] then Some(out) else None)
    else if seqs[0].lit > |lits| then None
    else match Play1(out, lits[..seqs[0].lit], seqs[0].offset, seqs[0].len)
         case None => None
         case Some(o) => Execute(o, lits[seqs[0].lit..], seqs[1..])
  }

  function Literals(toks: seq<Tok>): seq<byte> {
    if |toks| == 0 then [] else toks[0].lits + Literals(toks[1..])
  }

  /** The last entry is the only one without an offset. */
  predicate OneDelimiter(seqs: seq<Sequence>) {
    && |seqs| > 0 && seqs[|seqs| - 1].offset == 0 && seqs[|seqs| - 1].len == 0
    && forall i :: 0 <= i < |seqs| - 1 ==> seqs[i].offset > 0
  }

  // ---- the translation ----

  /** The sequences emitted for toks when pend literals are already waiting. */
  function Translate(toks: seq<Tok>, pend: nat): (r: seq<Sequence>)
    ensures |r| > 0
    decreases |toks|
  {
    if |toks| == 0 then [Sequence(0, pend, 0)]
    else
      var n := pend + |toks[0].lits| % SHORT;
      if toks[0].len == 0 then Translate(toks[1..], n)
      else [Sequence(toks[0].offset, n, toks[0].len % SHORT)] + Translate(toks[1..], 0)
  }

  /** Run lengths survive the conversion to unsigned short. */
  ghost predicate RunsFit(toks: seq<Tok>) {
    forall i :: 0 <= i < |toks| ==> |toks[i].lits| < SHORT && toks[i].len < SHORT
  }

  /** cnt_sz: the number of bytes the sequences produce. */
  function Size(seqs: seq<Sequence>): nat {
    if |seqs| == 0 then 0 else seqs[0].lit + seqs[0].len + Size(seqs[1..])
  }

  function PlainSize(toks: seq<Tok>): nat {
    if |toks| == 0 then 0 else |toks[0].lits| + toks[0].len + PlainSize(toks[1..])
  }

  /** The sequence list ends with a delimiter, which has neither match nor offset. When the tokens can
      be decoded, behind out, it has no other: every entry before it has an offset. */
  lemma {:induction false} LastIsDelimiter(out: seq<byte>, toks: seq<Tok>, pend: nat)
    ensures var r := Translate(toks, pend); r[|r| - 1].offset == 0 && r[|r| - 1].len == 0
    ensures Decode(out, toks).Some? ==> OneDelimiter(Translate(toks, pend))
    decreases |toks|
  {
    if |toks| > 0 {
      var t, n := toks[0], pend + |toks[0].lits| % SHORT;
      var next := match Play1(out, t.lits, t.offset, t.len) case Some(o) => o case None => out;
      LastIsDelimiter(next, toks[1..], if t.len == 0 then n else 0);
    }
  }

  lemma {:induction false} DecodeSize(out: seq<byte>, toks: seq<Tok>)
    requires Decode(out, toks).Some?
    ensures |Decode(out, toks).value| == |out| + PlainSize(toks)
    decreases |toks|
  {
    if |toks| > 0 { DecodeSize(Play1(out, toks[0].lits, toks[0].offset, toks[0].len).value, toks[1..]); }
  }

  lemma {:induction false} ExecuteSize(out: seq<byte>, lits: seq<byte>, seqs: seq<Sequence>)
    requires Execute(out, lits, seqs).Some?
    ensures |Execute(out, lits, seqs).value| == |out| + Size(seqs)
    decreases |seqs|
  {
    if |seqs| > 0 {
      var q := seqs[0];
      ExecuteSize(Play1(out, lits[..q.lit], q.offset, q.len).value, lits[q.lit..], seqs[1..]);
    }
  }

  lemma RunsFitSplit(toks: seq<Tok>)
    requires |toks| > 0
    ensures RunsFit(toks) <==> |toks[0].lits| < SHORT && toks[0].len < SHORT && RunsFit(toks[1..])
  {
    if |toks[0].lits| < SHORT && toks[0].len < SHORT && RunsFit(toks[1..]) {
      forall i | 0 <= i < |toks| ensures |toks[i].lits| < SHORT && toks[i].len < SHORT {
        if i > 0 { assert toks[i] == toks[1..][i - 1]; }
      }
    }
  }

  /** A token whose runs fit is translated as it is. */
  lemma TranslateFitting(toks: seq<Tok>, pend: nat)
    requires |toks| > 0 && |toks[0].lits| < SHORT && toks[0].len < SHORT
    ensures var t, n := toks[0], pend + |toks[0].lits|;
      Translate(toks, pend) == if t.len == 0 then Translate(toks[1..], n)
                               else [Sequence(t.offset, n, t.len)] + Translate(toks[1..], 0)
  {
  }

  /** Truncation only ever loses bytes, and loses none exactly when all runs fit. */
  lemma {:induction false} TranslatedSize(toks: seq<Tok>, pend: nat)
    ensures Size(Translate(toks, pend)) <= pend + PlainSize(toks)
    ensures Size(Translate(toks, pend)) == pend + PlainSize(toks) <==> RunsFit(toks)
    decreases |toks|
  {
    if |toks| > 0 {
      hide RunsFit;
      var t, n := toks[0], pend + |toks[0].lits| % SHORT;
      TranslatedSize(toks[1..], if t.len == 0 then n else 0);
      RunsFitSplit(toks);
    }
  }

  lemma ExecuteStep(out: seq<byte>, held: seq<byte>, rest: seq<byte>, q: Sequence, seqs: seq<Sequence>)
    requires q.lit == |held|
    ensures Execute(out, held + rest, [q] + seqs) ==
            match Play1(out, held, q.offset, q.len)
            case None => None
            case Some(o) => Execute(o, rest, seqs)
  {
    assert (held + rest)[..|held|] == held && (held + rest)[|held|..] == rest;
    assert ([q] + seqs)[1..] == seqs;
  }

  /** Executing the emitted sequences is decoding the block, even though the literals of tokens
      without a match only come out with a later sequence. held: literals read but not yet out. */
  lemma {:induction false} TranslationKeepsMeaning(out: seq<byte>, held: seq<byte>, toks: seq<Tok>)
    requires RunsFit(toks)
    ensures Execute(out, held + Literals(toks), Translate(toks, |held|)) == Decode(out + held, toks)
    decreases |toks|
  {
    hide Play1, RunsFit, Execute;
    if |toks| == 0 {
      ExecuteStep(out, held, [], Sequence(0, |held|, 0), []);
      EndOfBlock(out, held);
    } else {
      hide Translate;
      var t, rest := toks[0], toks[1..];
      var held' := held + t.lits;
      assert held + Literals(toks) == held' + Literals(rest);
      PlayHeld(out, held, t);
      RunsFitSplit(toks);
      TranslateFitting(toks, |held|);
      if t.len == 0 {
        assert out + held' == out + held + t.lits;
        TranslationKeepsMeaning(out, held', rest);
      } else {
        ExecuteStep(out, held', Literals(rest), Sequence(t.offset, |held'|, t.len), Translate(rest, 0));
        var p := Play1(out, held', t.offset, t.len);
        if p.Some? {
          TranslationKeepsMeaning(p.value, [], rest);
          assert [] + Literals(rest) == Literals(rest) && p.value + [] == p.value;
        }
      }
    }
  }

  lemma EndOfBlock(out: seq<byte>, held: seq<byte>)
    ensures Play1(out, held, 0, 0) == Some(out + held) && Execute(out + held, [], []) == Some(out + held)
    ensures held + [] == held && [Sequence(0, |held|, 0)] + [] == [Sequence(0, |held|, 0)]
  {
  }

  /** Literals that were held back come out in front of the token's own. */
  lemma PlayHeld(out: seq<byte>, held: seq<byte>, t: Tok)
    ensures Play1(out + held, t.lits, t.offset, t.len) == Play1(out, held + t.lits, t.offset, t.len)
    ensures t.len == 0 ==> Play1(out + held, t.lits, t.offset, t.len) == Some(out + held + t.lits)
  {
    assert out + held + t.lits == out + (held + t.lits);
  }

  /** For every decodable block: the sequences mean what the block means if and only if no run is
      truncated, and then cnt_sz is the decoded length. */
  lemma MeaningKeptIff(toks: seq<Tok>)
    requires Decode([], toks).Some?
    ensures Execute([], Literals(toks), Translate(toks, 0)) == Decode([], toks) <==> RunsFit(toks)
    ensures Size(Translate(toks, 0)) == |Decode([], toks).value| <==> RunsFit(toks)
  {
    TranslatedSize(toks, 0);
    DecodeSize([], toks);
    if RunsFit(toks) {
      TranslationKeepsMeaning([], [], toks);
      var none: seq<byte> := [];
      assert none + Literals(toks) == Literals(toks) && none + none == none;
    } else if Execute([], Literals(toks), Translate(toks, 0)).Some? {
      ExecuteSize([], Literals(toks), Translate(toks, 0));
    }
  }

  /** The same from the bytes of a block. */
  lemma BlockKeptIff(b: seq<byte>, minMatch: nat)
    requires Parse(b, 0, minMatch).Some? && Decode([], Parse(b, 0, minMatch).value).Some?
    ensures var toks := Parse(b, 0, minMatch).value;
      && (Execute([], Literals(toks), Translate(toks, 0)) == Decode([], toks) <==> RunsFit(toks))
      && (Size(Translate(toks, 0)) == |Decode([], toks).value| <==> RunsFit(toks))
  {
    MeaningKeptIff(Parse(b, 0, minMatch).value);
  }

  // ---- a block that is mistranslated ----

  /** n extension bytes of 255 and a last one. */
  lemma {:induction false} LongExtension(b: seq<byte>, i: nat, n: nat)
    requires i + n < |b| && (forall k :: i <= k < i + n ==> b[k] == 255) && b[i + n] != 255
    ensures Extension(b, i) == Some((255 * n + b[i + n], i + n + 1))
    decreases n
  {
    if n > 0 { LongExtension(b, i + 1, n - 1); }
  }

  function Ones(n: nat): (r: seq<byte>)
    ensures |r| == n && forall k :: 0 <= k < n ==> r[k] == 255
  {
    seq(n, _ => 255)
  }

  /** One run of 65536 literals: 15 in the token, 256 times 255 and 241 in its extension. */
  function LongRun(d: seq<byte>): (b: seq<byte>)
    ensures |b| == 258 + |d|
  {
    [0xF0] + Ones(256) + [241] + d
  }

  lemma LongRunParses(d: seq<byte>, minMatch: nat)
    requires |d| == SHORT
    ensures Parse(LongRun(d), 0, minMatch) == Some([Tok(d, 0, 0)])
  {
    var b := LongRun(d);
    LongExtension(b, 1, 256);
    assert Length(b, b[0] / 16, 1) == Some((SHORT, 258));
    assert b[258..258 + SHORT] == d;
    assert Token(b, 0, minMatch) == Some((Tok(d, 0, 0), |b|));
    ParseEnd(b, minMatch);
    assert [Tok(d, 0, 0)] + [] == [Tok(d, 0, 0)];
  }

  /** The block decodes to its 65536 bytes, whatever they are. The one sequence made of it is empty: it
      uses none of them, and cnt_sz is 0. */
  lemma LongRunIsLost(d: seq<byte>, minMatch: nat)
    requires |d| == SHORT
    ensures var toks := [Tok(d, 0, 0)];
      && Parse(LongRun(d), 0, minMatch) == Some(toks) && Decode([], toks) == Some(d) && Literals(toks) == d
      && Translate(toks, 0) == [Sequence(0, 0, 0)] && Size(Translate(toks, 0)) == 0
      && Execute([], d, Translate(toks, 0)).None? && Execute([], [], Translate(toks, 0)) == Some([])
  {
    LongRunParses(d, minMatch);
    var toks := [Tok(d, 0, 0)];
    assert toks[1..] == [] && Literals(toks) == d + [] == d;
    assert Play1([], d, 0, 0) == Some([] + d) && [] + d == d;
    assert Translate(toks, 0) == Translate([], 0);
    var none: seq<byte> := [];
    assert none + none == none && Play1([], none, 0, 0) == Some(none);
    assert Size(Translate(toks, 0)[1..]) == 0;
  }

  // ---- decLz4Block ----

  function Matches(toks: seq<Tok>): nat {
    if |toks| == 0 then 0 else (if toks[0].len == 0 then 0 else 1) + Matches(toks[1..])
  }

  lemma {:induction false} TranslatedCount(toks: seq<Tok>, pend: nat)
    ensures |Translate(toks, pend)| == Matches(toks) + 1
    decreases |toks|
  {
    if |toks| > 0 { TranslatedCount(toks[1..], if toks[0].len == 0 then pend + |toks[0].lits| % SHORT else 0); }
  }

  const BLANK := Sequence(0, 0, 0)

  /** The loop over extension bytes. */
  method ReadLength(b: seq<byte>, code: nat, start: nat) returns (length: nat, ip: nat)
    requires start <= |b| && Length(b, code, start).Some?
    ensures Length(b, code, start) == Some((length, ip))
  {
    length, ip := code, start;
    if length == 15 {
      var s: byte := 255;
      while s == 255
        invariant start <= ip <= |b| && length >= 15
        invariant s == 255 ==>
                    Extension(b, ip).Some?
                    && Extension(b, start) == Some((length - 15 + Extension(b, ip).value.0, Extension(b, ip).value.1))
        invariant s != 255 ==> Extension(b, start) == Some((length - 15, ip))
        decreases |b| - ip
      {
        s := b[ip];
        ip := ip + 1;
        length := length + s;
      }
    }
  }

  /** Reads one token: how many literals, whether the block ends after them, and the match. */
  method ReadToken(b: seq<byte>, start: nat, minMatch: nat)
    returns (literals: nat, last: bool, offset: nat, len: nat, ip: nat)
    requires start < |b| && Token(b, start, minMatch).Some?
    ensures var t := Token(b, start, minMatch).value;
      |t.0.lits| == literals && t.0.offset == offset && t.0.len == len && t.1 == ip
    ensures last ==> len == 0
  {
    var token := b[start];
    literals, ip := ReadLength(b, token / 16, start + 1);
    ip := ip + literals;
    last, offset, len := ip == |b|, 0, 0;
    if !last {
      offset := Load16(b, ip);
      len, ip := ReadLength(b, token % 16, ip + 2);
      if len != 0 { len := len + minMatch; }
    }
  }

  lemma ParseEnd(b: seq<byte>, minMatch: nat)
    ensures Parse(b, |b|, minMatch) == Some([])
  {
  }

  lemma ParseStep(b: seq<byte>, i: nat, minMatch: nat, toks: seq<Tok>)
    requires i < |b| && Parse(b, i, minMatch) == Some(toks)
    ensures toks != [] && Token(b, i, minMatch).Some? && Token(b, i, minMatch).value.0 == toks[0]
    ensures Parse(b, Token(b, i, minMatch).value.1, minMatch) == Some(toks[1..])
  {
  }

  lemma TranslateEnd(pend: nat)
    ensures Translate([], pend) == [Sequence(0, pend, 0)]
  {
  }

  lemma TranslateStep(toks: seq<Tok>, pend: nat)
    requires |toks| > 0
    ensures var n := pend + |toks[0].lits| % SHORT;
      Translate(toks, pend) == if toks[0].len == 0 then Translate(toks[1..], n)
                               else [Sequence(toks[0].offset, n, toks[0].len % SHORT)] + Translate(toks[1..], 0)
  {
  }

  /** Adds a token to the entry at off; a match completes it. */
  method Record(seqs: array<Sequence>, off: nat, literals: nat, last: bool, offset: nat, len: nat) returns (next: nat)
    requires off < seqs.Length && (last ==> len == 0)
    modifies seqs
    ensures next == off + (if len == 0 then 0 else 1)
    ensures seqs[..] == old(seqs[..])[off :=
              var q := old(seqs[off]);
              if len == 0 then q.(lit := q.lit + literals % SHORT)
              else Sequence(offset, q.lit + literals % SHORT, len % SHORT)]
  {
    next := off;
    var literalLen := literals % SHORT;
    if last {
      seqs[off] := seqs[off].(lit := seqs[off].lit + literalLen);
    } else if len != 0 {
      seqs[off] := Sequence(offset, seqs[off].lit + literalLen, len % SHORT);
      next := off + 1;
    } else if literalLen > 0 {
      seqs[off] := seqs[off].(lit := seqs[off].lit + literalLen);
    }
  }

  /** The table after some tokens: the sequences of those, an open entry at off, and blanks. */
  ghost predicate Recorded(t: seq<Sequence>, start: nat, off: nat, toks: seq<Tok>, rest: seq<Tok>) {
    && start <= off < |t| && off + Matches(rest) < |t|
    && t[off].offset == 0 && t[off].len == 0
    && Translate(toks, 0) == t[start..off] + Translate(rest, t[off].lit)
    && forall k :: off < k < |t| ==> t[k] == BLANK
  }

  lemma RecordOne(t: seq<Sequence>, start: nat, off: nat, toks: seq<Tok>, rest: seq<Tok>)
    requires Recorded(t, start, off, toks, rest) && |rest| > 0
    ensures var x, q := rest[0], t[off];
      var lit := q.lit + |x.lits| % SHORT;
      if x.len == 0 then Recorded(t[off := q.(lit := lit)], start, off, toks, rest[1..])
      else Recorded(t[off := Sequence(x.offset, lit, x.len % SHORT)], start, off + 1, toks, rest[1..])
  {
    hide Translate;
    TranslateStep(rest, t[off].lit);
    var x, q := rest[0], t[off];
    var lit := q.lit + |x.lits| % SHORT;
    var e := if x.len == 0 then q.(lit := lit) else Sequence(x.offset, lit, x.len % SHORT);
    var u := t[off := e];
    assert u[start..off] == t[start..off];
    if x.len != 0 {
      assert u[start..off + 1] == t[start..off] + [e];
      assert t[start..off] + ([e] + Translate(rest[1..], 0)) == t[start..off] + [e] + Translate(rest[1..], 0);
    }
  }

  lemma RecordedAll(t: seq<Sequence>, start: nat, off: nat, toks: seq<Tok>)
    requires Recorded(t, start, off, toks, [])
    ensures t[start..off + 1] == Translate(toks, 0) && forall k :: off < k < |t| ==> t[k] == BLANK
  {
    TranslateEnd(t[off].lit);
    assert t[start..off + 1] == t[start..off] + [t[off]];
  }

  /** One token: read, recorded, and the rest of the block is still to come. */
  method OneToken(b: seq<byte>, seqs: array<Sequence>, start: nat, at: nat, from: nat, minMatch: nat,
                  ghost toks: seq<Tok>, ghost rest: seq<Tok>, ghost more: seq<Tok>)
    returns (off: nat, ip: nat)
    requires from < |b| && Parse(b, from, minMatch) == Some(rest) && start <= at < seqs.Length
    requires Recorded(seqs[..], start, at, toks, rest) && |rest| > 0 && more == rest[1..]
    modifies seqs
    ensures from < ip <= |b| && Parse(b, ip, minMatch) == Some(more)
    ensures start <= off < seqs.Length && Recorded(seqs[..], start, off, toks, more)
    ensures seqs[..start] == old(seqs[..start])
  {
    hide Token, Parse, Recorded;
    ParseStep(b, from, minMatch, rest);
    RecordOne(seqs[..], start, at, toks, rest);
    var literals, last, offset, len;
    literals, last, offset, len, ip := ReadToken(b, from, minMatch);
    ghost var was := seqs[..];
    off := Record(seqs, at, literals, last, offset, len);
    RecordedInside(seqs[..], start, off, toks, more);
    assert seqs[..start] == was[..start];
  }

  /** Decodes the tokens of a block into zstd sequences, from entry start on. */
  method DecLz4Block(b: seq<byte>, seqs: array<Sequence>, start: nat, minMatch: nat) returns (off: nat)
    requires Parse(b, 0, minMatch).Some?
    requires start + Matches(Parse(b, 0, minMatch).value) < seqs.Length
    requires forall k :: start <= k < seqs.Length ==> seqs[k] == BLANK
    modifies seqs
    ensures start <= off < seqs.Length && seqs[start..off + 1] == Translate(Parse(b, 0, minMatch).value, 0)
    ensures seqs[..start] == old(seqs[..start])
    ensures forall k :: off < k < seqs.Length ==> seqs[k] == BLANK
  {
    hide Token, Parse, Translate, Recorded;
    ghost var toks := Parse(b, 0, minMatch).value;
    ghost var rest := toks;
    RecordedNone(seqs[..], start, toks);
    var ip := 0;
    off := start;
    while ip < |b|
      invariant 0 <= ip <= |b| && Parse(b, ip, minMatch) == Some(rest)
      invariant start <= off < seqs.Length && Recorded(seqs[..], start, off, toks, rest)
      invariant seqs[..start] == old(seqs[..start])
      decreases |b| - ip
    {
      ParseStep(b, ip, minMatch, rest);
      ghost var more := rest[1..];
      off, ip := OneToken(b, seqs, start, off, ip, minMatch, toks, rest, more);
      rest := more;
    }
    ParseEnd(b, minMatch);
    RecordedAll(seqs[..], start, off, toks);
    assert forall k :: off < k < seqs.Length ==> seqs[k] == seqs[..][k];
  }

  lemma RecordedNone(t: seq<Sequence>, start: nat, toks: seq<Tok>)
    requires start + Matches(toks) < |t| && forall k :: start <= k < |t| ==> t[k] == BLANK
    ensures Recorded(t, start, start, toks, toks)
  {
    assert t[start..start] == [] && [] + Translate(toks, 0) == Translate(toks, 0);
  }

  lemma RecordedInside(t: seq<Sequence>, start: nat, off: nat, toks: seq<Tok>, rest: seq<Tok>)
    requires Recorded(t, start, off, toks, rest)
    ensures start <= off < |t|
  {
  }

  // ---- zstdCallBack ----

  const ZSTD_SEQUENCES_SIZE: nat := 0x8000
  const BLOCK_HEADER: nat := 4
  const MAX_BLOCK_SIZE: nat := 0x2_0000

  /** One call of ZSTD_compressSequences: the sequences and the source bytes they describe. */
  datatype Call = Call(seqs: seq<Sequence>, src: seq<byte>)

  /** The sequences, over some buffer of literals, produce exactly src. */
  ghost predicate Describes(c: Call) {
    exists lits :: Execute([], lits, c.seqs) == Some(c.src)
  }

  /** From i on, data holds the LZ4s blocks of src[pos..], each behind its size and small enough
      for the conversions and for the sequence table. */
  ghost predicate Blocks(data: seq<byte>, i: nat, src: seq<byte>, pos: nat, minMatch: nat)
    decreases |data| - i
  {
    if i >= |data| then i == |data| && pos == |src|
    else
      i + BLOCK_HEADER <= |data| &&
      var n := UnLE(data[i..i + BLOCK_HEADER]);
      i + BLOCK_HEADER + n <= |data| &&
      var b := data[i + BLOCK_HEADER..i + BLOCK_HEADER + n];
      Parse(b, 0, minMatch).Some? &&
      var toks := Parse(b, 0, minMatch).value;
      RunsFit(toks) && Matches(toks) < ZSTD_SEQUENCES_SIZE && Decode([], toks).Some? &&
      var piece := Decode([], toks).value;
      |piece| <= MAX_BLOCK_SIZE && pos + |piece| <= |src| && src[pos..pos + |piece|] == piece
      && Blocks(data, i + BLOCK_HEADER + n, src, pos + |piece|, minMatch)
  }

  function Sources(calls: seq<Call>): seq<byte> {
    if |calls| == 0 then [] else Sources(calls[..|calls| - 1]) + calls[|calls| - 1].src
  }

  lemma {:induction false} SizeAppend(a: seq<Sequence>, q: Sequence)
    ensures Size(a + [q]) == Size(a) + q.lit + q.len
    decreases |a|
  {
    if |a| > 0 {
      assert (a + [q])[1..] == a[1..] + [q];
      SizeAppend(a[1..], q);
    }
  }

  /** The loop that adds up cnt_sz. */
  method ContentSize(seqs: array<Sequence>, n: nat) returns (size: nat)
    requires n <= seqs.Length
    ensures size == Size(seqs[..n])
  {
    size := 0;
    for i := 0 to n
      invariant size == Size(seqs[..i])
    {
      SizeAppend(seqs[..i], seqs[i]);
      assert seqs[..i + 1] == seqs[..i] + [seqs[i]];
      size := size + seqs[i].lit + seqs[i].len;
    }
  }

  lemma BlockMeans(toks: seq<Tok>)
    requires RunsFit(toks) && Decode([], toks).Some?
    ensures Size(Translate(toks, 0)) == |Decode([], toks).value|
    ensures Describes(Call(Translate(toks, 0), Decode([], toks).value))
  {
    MeaningKeptIff(toks);
    assert Execute([], Literals(toks), Translate(toks, 0)) == Some(Decode([], toks).value);
  }

  /** One block: its sequences into a blank table, the size of the source piece they stand for. */
  method TranslateBlock(b: seq<byte>, table: array<Sequence>, minMatch: nat) returns (off: nat, size: nat)
    requires table.Length == ZSTD_SEQUENCES_SIZE && forall k :: 0 <= k < table.Length ==> table[k] == BLANK
    requires Parse(b, 0, minMatch).Some?
    requires var toks := Parse(b, 0, minMatch).value;
      RunsFit(toks) && Matches(toks) < ZSTD_SEQUENCES_SIZE && Decode([], toks).Some?
    modifies table
    ensures off < table.Length && size == |Decode([], Parse(b, 0, minMatch).value).value|
    ensures Describes(Call(table[..off + 1], Decode([], Parse(b, 0, minMatch).value).value))
    ensures OneDelimiter(table[..off + 1])
  {
    off := DecLz4Block(b, table, 0, minMatch);
    size := ContentSize(table, off + 1);
    BlockMeans(Parse(b, 0, minMatch).value);
    LastIsDelimiter([], Parse(b, 0, minMatch).value, 0);
    assert table[0..off + 1] == table[..off + 1];
  }

  /** zstdCallBack up to the zstd library: for every block one call whose sequences, ending in
      their only delimiter, describe exactly the source bytes passed with them; together these are the source. */
  method ZstdCallBack(data: seq<byte>, src: seq<byte>, minMatch: nat) returns (calls: seq<Call>)
    requires Blocks(data, 0, src, 0, minMatch)
    ensures Sources(calls) == src
    ensures forall c :: c in calls ==> Describes(c) && OneDelimiter(c.seqs)
  {
    hide Parse, Decode, Execute, Describes, RunsFit, Matches, UnLE, OneDelimiter;
    calls := [];
    var cur: nat, consumed: nat := 0, 0;
    while cur < |data|
      invariant cur <= |data| && consumed <= |src| && Blocks(data, cur, src, consumed, minMatch)
      invariant Sources(calls) == src[..consumed]
      invariant forall c :: c in calls ==> Describes(c) && OneDelimiter(c.seqs)
      decreases |data| - cur
    {
      var size := UnLE(data[cur..cur + BLOCK_HEADER]);
      cur := cur + BLOCK_HEADER;
      var table := new Sequence[ZSTD_SEQUENCES_SIZE](_ => BLANK);
      var off, cnt := TranslateBlock(data[cur..cur + size], table, minMatch);
      cur := cur + size;
      assert cnt <= MAX_BLOCK_SIZE;
      var call := Call(table[..off + 1], src[consumed..consumed + cnt]);
      assert (calls + [call])[..|calls|] == calls;
      assert src[..consumed] + src[consumed..consumed + cnt] == src[..consumed + cnt];
      calls, consumed := calls + [call], consumed + cnt;
    }
    assert src[..consumed] == src;
  }
}
