/** When the streaming interface keeps the order of the user's bytes: exactly which calls do, what that
    means for runs, and a run that does not. */
module StreamOrder {
  import opened Bytes
  import opened StreamCalls

  // ---- the order of the input ----

  /** Where the pending input lies as far as the next call can tell, when it does not lose track. */
  function Where(s: Strm): nat { if s.pendingOut > 0 then s.inOffset else 0 }

  /** The compressor has seen the user's bytes in order, and the rest of them is pending. */
  predicate Ordered(s: Strm)
    requires Sound(s)
  {
    s.taken == s.eaten + Part(s.inBuf, Where(s), s.pendingIn)
  }

  /** What the compressor has seen and will see next. */
  function Seen(s: Strm, start: nat): seq<byte>
    requires Bounded(s) && start + s.pendingIn <= s.len
  {
    s.eaten + Part(s.inBuf, start, s.pendingIn)
  }

  /** copyStreamInput writes at pending_in. For every content of buffer and input, what follows the
      pending part is the input, if and only if the part starts at the front or nothing is copied. */
  lemma CopyOrderIff(len: nat, a: nat, p: nat, n: nat)
    requires p > 0 && a + p + n <= len
    ensures (forall buf: seq<byte>, d: seq<byte> :: |buf| == len && |d| == n ==>
               Part(Stored(buf, p, d), a, p + n) == Part(buf, a, p) + d)
            <==> a == 0 || n == 0
  {
    if a > 0 && n > 0 {
      var buf: seq<byte>, d: seq<byte> := seq(len, _ => 0), seq(n, _ => 1);
      assert Part(Stored(buf, p, d), a, p + n)[p + n - 1] == 0;
      assert (Part(buf, a, p) + d)[p + n - 1] == 1;
    }
  }

  lemma CopyInSeen(s: Strm, rest: seq<byte>)
    requires Bounded(s)
    ensures var n := Min(|rest|, s.len - s.pendingIn);
      Seen(CopyIn(s, rest), 0) == Seen(s, 0) + rest[..n]
  {
    var n := Min(|rest|, s.len - s.pendingIn);
    var buf := Stored(s.inBuf, s.pendingIn, rest[..n]);
    assert Part(buf, 0, s.pendingIn + n) == Part(s.inBuf, 0, s.pendingIn) + rest[..n];
    assert s.eaten + (Part(s.inBuf, 0, s.pendingIn) + rest[..n]) == s.eaten + Part(s.inBuf, 0, s.pendingIn) + rest[..n];
  }

  lemma TurnSeen(s: Strm, from: nat, a: Answer, room: nat)
    requires Bounded(s) && s.pendingOut == 0 && from + s.pendingIn <= s.len && Permitted(a, s.pendingIn, s.len)
    ensures Seen(Turn(s, from, a, room), from + a.consumed) == Seen(s, from)
  {
    hide Turn, Part;
    TurnFields(s, from, a, room);
    PartSplits(s.inBuf, from, a.consumed, s.pendingIn);
    var x, y := Part(s.inBuf, from, a.consumed), Part(s.inBuf, from + a.consumed, s.pendingIn - a.consumed);
    assert s.eaten + (x + y) == s.eaten + x + y;
  }

  /** The compressor goes on with what it has seen so far and with what has been copied since. */
  ghost predicate Continues(seen: seq<byte>, rest: seq<byte>, o: Outcome) {
    && !o.overrun && Sound(o.s)
    && (o.ok ==>
          |o.rest| <= |rest|
          && Seen(o.s, if o.s.pendingIn == 0 then 0 else Where(o.s)) == seen + rest[..|rest| - |o.rest|])
  }

  /** No input is about to be copied behind pending input that does not start at the front. */
  predicate Straight(s: Strm, copyMore: bool, start: nat) {
    s.pendingIn == 0 || s.pendingOut > 0 || !copyMore || (!s.flushMore && start == 0)
  }

  lemma ContinuesFrom(seen: seq<byte>, rest: seq<byte>, n: nat, o: Outcome)
    requires n <= |rest| && Continues(seen + rest[..n], rest[n..], o)
    ensures Continues(seen, rest, o)
  {
    if o.ok {
      var k := |rest| - n - |o.rest|;
      assert seen + rest[..n] + rest[n..][..k] == seen + rest[..n + k];
    }
  }

  lemma {:induction false} RoundsStraight(
    s: Strm, rest: seq<byte>, room: nat, last: bool, comp: Compressor, i: nat, copyMore: bool, start: nat)
    requires InLoop(s, copyMore, start) && Contract(comp, s.len) && Straight(s, copyMore, start)
    requires From(s, start) + s.pendingIn <= s.len
    ensures Continues(Seen(s, From(s, start)), rest, Rounds(s, rest, room, last, comp, i, copyMore, start))
    decreases |rest| + s.pendingIn, 1
  {
    hide Seen, Turn;
    if s.pendingOut > 0 {
      SeenHere(s, rest, start);
    } else if Fills(s, copyMore) {
      var s1, rest1, n := CopyIn(s, rest), Uncopied(s, rest), Min(|rest|, s.len - s.pendingIn);
      CopyInSeen(s, rest);
      if s1.pendingIn < s1.len && !last { SeenHere(s1, rest1, 0); }
      else { RoundStraight(s1, rest1, room, last, comp, i, false, start); }
      ContinuesFrom(Seen(s, From(s, start)), rest, n, Rounds(s, rest, room, last, comp, i, copyMore, start));
    } else {
      RoundStraight(s, rest, room, last, comp, i, copyMore, start);
    }
  }

  lemma SeenHere(s: Strm, rest: seq<byte>, start: nat)
    requires Sound(s) && start + s.pendingIn <= s.len && (s.pendingIn > 0 ==> start == Where(s))
    ensures Continues(Seen(s, start), rest, Outcome(s, true, rest, false))
  {
    assert rest[..0] == [] && Seen(s, start) + [] == Seen(s, start);
    if s.pendingIn == 0 { assert Part(s.inBuf, start, 0) == Part(s.inBuf, 0, 0); }
  }

  lemma {:induction false} RoundStraight(
    s: Strm, rest: seq<byte>, room: nat, last: bool, comp: Compressor, i: nat, copyMore: bool, start: nat)
    requires Bounded(s) && s.pendingOut == 0 && Contract(comp, s.len) && (s.pendingIn == 0 ==> |rest| == 0)
    requires s.flushMore ==> s.inOffset + s.pendingIn <= s.len
    requires From(s, start) + s.pendingIn <= s.len && (copyMore ==> s.pendingIn == 0)
    ensures Continues(Seen(s, From(s, start)), rest, Round(s, rest, room, last, comp, i, copyMore, start))
    decreases |rest| + s.pendingIn, 0
  {
    hide Seen, Turn;
    var from := From(s, start);
    var a := Ask(s, rest, last, comp, i, from);
    var t, m := Turn(s, from, a, room), Min(room, |a.output|);
    TurnSeen(s, from, a, room);
    TurnFields(s, from, a, room);
    if !Failed(a) {
      if t.pendingIn > 0 { RoundsStraight(t, rest, room - m, last, comp, i + 1, copyMore, from + a.consumed); }
      else {
        SeenNone(t, from + a.consumed);
        if |rest| == 0 { SeenHere(t, rest, 0); }
        else { RoundsStraight(t, rest, room - m, last, comp, i + 1, true, 0); }
      }
    }
  }

  lemma SeenNone(s: Strm, start: nat)
    requires Bounded(s) && s.pendingIn == 0 && start <= s.len
    ensures Seen(s, start) == Seen(s, 0)
  {
    assert Part(s.inBuf, start, 0) == Part(s.inBuf, 0, 0);
  }

  lemma TurnFields(s: Strm, from: nat, a: Answer, room: nat)
    requires Bounded(s) && s.pendingOut == 0 && from + s.pendingIn <= s.len && Permitted(a, s.pendingIn, s.len)
    ensures var t := Turn(s, from, a, room);
      t.taken == s.taken && t.len == s.len && !t.flushMore && t.inBuf == s.inBuf
      && t.eaten == s.eaten + Part(s.inBuf, from, a.consumed)
  {
  }

  // ---- when a call keeps the order ----

  /** What a caller can see to before a call with inSz bytes of input and room for output: input that is
      pending together with output must not be left while the output is drained. Once a call has ended
      for lack of room (flush_more), the next one may drain, provided that the rest of the pending
      input is used up, or its output stays pending, or no input follows it. */
  predicate Careful(s: Strm, inSz: nat, room: nat, last: bool) {
    s.pendingIn == 0 || s.pendingOut == 0 || room < s.pendingOut
    || (if s.flushMore then s.pendingIn == 1 || room == s.pendingOut || (inSz == 0 && last) else s.inOffset == 0)
  }

  /** A call that does not fail leaves the stream ordered. */
  ghost predicate GoodCall(s: Strm, input: seq<byte>, room: nat, last: bool, comp: Compressor)
    requires Sound(s) && Contract(comp, s.len)
  {
    var o := Call(s, input, room, last, comp);
    Sound(o.s) && !o.overrun && (o.ok ==> Ordered(o.s))
  }

  /** What was seen next to what was taken decides about the order. */
  lemma OrderOf(s: Strm, input: seq<byte>, room: nat, o: Outcome, seen: seq<byte>)
    requires Accounts(s, input, room, o) && Continues(seen, input, o) && o.ok && |seen| == |s.taken|
    ensures Ordered(o.s) <==> seen == s.taken
  {
    var n: nat :| n <= |input| && o.rest == input[n..] && o.s.taken == s.taken + input[..n];
    assert |input| - |o.rest| == n;
    var got := Seen(o.s, if o.s.pendingIn == 0 then 0 else Where(o.s));
    assert got == seen + input[..n];
    assert got == o.s.eaten + Part(o.s.inBuf, Where(o.s), o.s.pendingIn);
    if Ordered(o.s) { assert seen == got[..|seen|] && s.taken == o.s.taken[..|s.taken|]; }
  }

  /** From a straight state on, the call is good exactly when the right bytes are about to be seen. */
  lemma StraightCall(s: Strm, input: seq<byte>, room: nat, last: bool, comp: Compressor, from: nat)
    requires Sound(s) && Balanced(s) && Contract(comp, s.len) && !EndsDraining(s, room, |input|)
    requires var t := Drained(s, room);
      && InLoop(t, true, 0) && from == From(t, 0) && from + s.pendingIn <= s.len && t.pendingIn == s.pendingIn
      && Continues(Seen(t, from), input, Rounds(t, input, room - s.pendingOut, last, comp, 0, true, 0))
    ensures var o := Call(s, input, room, last, comp);
      && Sound(o.s) && !o.overrun
      && (o.ok ==> (Ordered(o.s) <==> s.taken == s.eaten + Part(s.inBuf, from, s.pendingIn)))
  {
    hide Rounds, Accounts, Continues;
    CallAccounts(s, input, room, last, comp);
    var o, t := Call(s, input, room, last, comp), Drained(s, room);
    OutcomeIsSound(Seen(t, from), input, o);
    if o.ok { OrderOf(s, input, room, o, Seen(t, from)); }
  }

  lemma OutcomeIsSound(seen: seq<byte>, rest: seq<byte>, o: Outcome)
    requires Continues(seen, rest, o)
    ensures Sound(o.s) && !o.overrun
  {
  }

  /** Output that was pending is drained: the pending input is looked for at the front. */
  lemma FrontCall(s: Strm, input: seq<byte>, room: nat, last: bool, comp: Compressor)
    requires Sound(s) && Balanced(s) && Contract(comp, s.len) && !EndsDraining(s, room, |input|) && !s.flushMore
    ensures var o := Call(s, input, room, last, comp);
      && Sound(o.s) && !o.overrun
      && (o.ok ==> (Ordered(o.s) <==> s.taken == s.eaten + Part(s.inBuf, 0, s.pendingIn)))
  {
    RoundsStraight(Drained(s, room), input, room - s.pendingOut, last, comp, 0, true, 0);
    StraightCall(s, input, room, last, comp, 0);
  }

  lemma DrainingKeeps(s: Strm, input: seq<byte>, room: nat, last: bool, comp: Compressor)
    requires Sound(s) && Contract(comp, s.len) && Ordered(s) && EndsDraining(s, room, |input|)
    ensures GoodCall(s, input, room, last, comp)
  {
  }

  /** Nothing to copy: the round goes on where it was. */
  lemma FillsNothing(s: Strm, room: nat, comp: Compressor, i: nat, start: nat)
    requires InLoop(s, true, start) && Contract(comp, s.len) && s.pendingOut == 0 && s.pendingIn > 0 && !s.flushMore
    ensures Rounds(s, [], room, true, comp, i, true, start) == Round(s, [], room, true, comp, i, false, start)
  {
    assert Stored(s.inBuf, s.pendingIn, []) == s.inBuf && s.taken + [] == s.taken;
    assert CopyIn(s, []) == s;
  }

  /** The first round after a flush, when nothing can go wrong behind it. */
  lemma ResumeStraight(s: Strm, input: seq<byte>, room: nat, last: bool, comp: Compressor)
    requires InLoop(s, true, 0) && Contract(comp, s.len) && s.flushMore
    requires s.pendingIn == 1 || room == 0 || (|input| == 0 && last)
    ensures Continues(Seen(s, s.inOffset), input, Rounds(s, input, room, last, comp, 0, true, 0))
  {
    hide Seen, Turn, Continues;
    var from := s.inOffset;
    var a := Ask(s, input, last, comp, 0, from);
    var t, m := Turn(s, from, a, room), Min(room, |a.output|);
    TurnSeen(s, from, a, room);
    TurnFields(s, from, a, room);
    if Failed(a) { FailedContinues(Seen(s, from), input, t); }
    else if t.pendingIn == 0 {
      SeenNone(t, from + a.consumed);
      if |input| == 0 { SeenHere(t, input, 0); }
      else { RoundsStraight(t, input, room - m, last, comp, 1, true, 0); }
    } else if t.pendingOut > 0 {
      assert Rounds(t, input, room - m, last, comp, 1, true, from + a.consumed) == Outcome(t, true, input, false);
      SeenHere(t, input, from + a.consumed);
    } else {
      FillsNothing(t, room - m, comp, 1, from + a.consumed);
      RoundStraight(t, [], room - m, true, comp, 1, false, from + a.consumed);
    }
  }

  lemma FailedContinues(seen: seq<byte>, rest: seq<byte>, s: Strm)
    requires Sound(s)
    ensures Continues(seen, rest, Outcome(s, false, rest, false))
  {
  }

  /** A careful call keeps the order, whatever the compressor answers. */
  lemma CarefulKeepsOrder(s: Strm, input: seq<byte>, room: nat, last: bool, comp: Compressor)
    requires Sound(s) && Balanced(s) && Contract(comp, s.len) && Ordered(s) && Careful(s, |input|, room, last)
    ensures GoodCall(s, input, room, last, comp)
  {
    hide Rounds, Call, Continues;
    if EndsDraining(s, room, |input|) { DrainingKeeps(s, input, room, last, comp); }
    else if s.flushMore {
      ResumeStraight(Drained(s, room), input, room - s.pendingOut, last, comp);
      StraightCall(s, input, room, last, comp, s.inOffset);
    } else {
      FrontCall(s, input, room, last, comp);
      if s.pendingIn == 0 { assert Part(s.inBuf, 0, 0) == Part(s.inBuf, Where(s), 0); }
    }
  }

  // ---- and when not ----

  /** Equal but for the bytes. */
  predicate Alike(s: Strm, t: Strm) {
    && s.len == t.len && s.inOffset == t.inOffset && s.outOffset == t.outOffset && s.flushMore == t.flushMore
    && s.pendingIn == t.pendingIn && s.pendingOut == t.pendingOut
  }

  /** For all contents of the buffers, all inputs of inSz bytes and all compressors the call is good. */
  ghost predicate KeepsOrder(s: Strm, inSz: nat, room: nat, last: bool) {
    forall t: Strm, input: seq<byte>, comp: Compressor ::
      Sound(t) && Balanced(t) && Alike(s, t) && Ordered(t) && |input| == inSz && Contract(comp, t.len)
      ==> GoodCall(t, input, room, last, comp)
  }

  /** A stream with the given input buffer that has been ordered so far. */
  function With(s: Strm, inBuf: seq<byte>): (t: Strm)
    requires Sound(s) && |inBuf| == s.len
    ensures Sound(t) && Balanced(t) && Alike(s, t) && Ordered(t)
  {
    s.(inBuf := inBuf, taken := Part(inBuf, Where(s), s.pendingIn), eaten := [], delivered := [],
       outputs := Part(s.outBuf, s.outOffset, s.pendingOut))
  }

  /** From some round on the compressor uses all it is given. */
  ghost predicate Greedy(comp: Compressor, i: nat) {
    forall j: nat, d: seq<byte>, l: bool :: j >= i ==> comp(j, d, l).rc.Ok? && comp(j, d, l).consumed == |d|
  }

  lemma {:induction false} GreedyRounds(s: Strm, rest: seq<byte>, room: nat, last: bool, comp: Compressor, i: nat)
    requires InLoop(s, true, 0) && Contract(comp, s.len) && s.pendingIn == 0 && Greedy(comp, i)
    ensures Rounds(s, rest, room, last, comp, i, true, 0).ok
    decreases |rest|, 1
  {
    if s.pendingOut == 0 {
      var s1 := CopyIn(s, rest);
      if s1.pendingIn == s1.len || last { GreedyRound(s1, Uncopied(s, rest), room, last, comp, i, 0); }
    }
  }

  lemma {:induction false} GreedyRound(
    s: Strm, rest: seq<byte>, room: nat, last: bool, comp: Compressor, i: nat, start: nat)
    requires Bounded(s) && s.pendingOut == 0 && Contract(comp, s.len) && (s.pendingIn == 0 ==> |rest| == 0)
    requires !s.flushMore && start + s.pendingIn <= s.len && Greedy(comp, i)
    ensures Round(s, rest, room, last, comp, i, false, start).ok
    decreases |rest| + s.pendingIn, 0
  {
    hide Turn;
    var a := Ask(s, rest, last, comp, i, start);
    var t := Turn(s, start, a, room);
    TurnFields(s, start, a, room);
    if |rest| > 0 { GreedyRounds(t, rest, room - Min(room, |a.output|), last, comp, i + 1); }
  }

  /** Draining while input is pending behind its used front: with these contents the compressor is
      given the used front again. */
  lemma JumpBreaks(s: Strm, inSz: nat, room: nat, last: bool)
    requires Sound(s) && !s.flushMore && !Careful(s, inSz, room, last)
    ensures !KeepsOrder(s, inSz, room, last)
  {
    hide Call, KeepsOrder, Balanced, Contract, Ordered;
    var input: seq<byte> := seq(inSz, _ => 0);
    GreedyPermitted(s.len);
    JumpIsBad(s, input, room, last);
    BadBreaks(s, With(s, MarkedFront(s.len)), input, room, last, GreedyOne);
  }

  lemma BadBreaks(s: Strm, t: Strm, input: seq<byte>, room: nat, last: bool, comp: Compressor)
    requires Sound(t) && Balanced(t) && Alike(s, t) && Ordered(t) && Contract(comp, t.len)
    requires !GoodCall(t, input, room, last, comp)
    ensures !KeepsOrder(s, |input|, room, last)
  {
  }

  /** The front of the buffer is not what is pending. */
  lemma FrontDiffers(s: Strm)
    requires Sound(s) && s.pendingIn > 0 && s.pendingOut > 0 && s.inOffset > 0
    ensures var t := With(s, MarkedFront(s.len));
      t.taken != t.eaten + Part(t.inBuf, 0, t.pendingIn)
  {
    var buf := MarkedFront(s.len);
    var p, q := Part(buf, s.inOffset, s.pendingIn), Part(buf, 0, s.pendingIn);
    assert p[0] == 0 && q[0] == 1;
    assert [] + q == q;
  }

  lemma JumpIsBad(s: Strm, input: seq<byte>, room: nat, last: bool)
    requires Sound(s) && !s.flushMore && !Careful(s, |input|, room, last) && Contract(GreedyOne, s.len)
    ensures !GoodCall(With(s, MarkedFront(s.len)), input, room, last, GreedyOne)
  {
    hide Call, Contract, Ordered, Balanced, With, Part, Greedy;
    var t := With(s, MarkedFront(s.len));
    GreedyPermitted(s.len);
    FrontDiffers(s);
    FrontCall(t, input, room, last, GreedyOne);
    JumpOk(t, input, room, last, GreedyOne);
  }

  /** Zeros behind a one. */
  function MarkedFront(len: nat): (buf: seq<byte>)
    ensures |buf| == len && forall k :: 0 <= k < len ==> buf[k] == if k == 0 then 1 else 0
  {
    seq(len, k => if k == 0 then 1 else 0)
  }

  function GreedyOne(i: nat, d: seq<byte>, l: bool): Answer { Answer(Ok, |d|, [0]) }

  lemma GreedyPermitted(len: nat)
    requires len > 0
    ensures Contract(GreedyOne, len) && Greedy(GreedyOne, 0)
  {
  }

  lemma JumpOk(s: Strm, input: seq<byte>, room: nat, last: bool, comp: Compressor)
    requires Sound(s) && !s.flushMore && s.pendingIn > 0 && 0 < s.pendingOut <= room && Contract(comp, s.len)
    requires Greedy(comp, 0)
    ensures Call(s, input, room, last, comp).ok
  {
    var t := Drained(s, room);
    var t1 := CopyIn(t, input);
    if t1.pendingIn == t1.len || last { GreedyRound(t1, Uncopied(t, input), room - s.pendingOut, last, comp, 0, 0); }
  }

  /** It uses one byte first, then all it is given. */
  function SlyOne(i: nat, d: seq<byte>, l: bool): Answer { Answer(Ok, if i == 0 && |d| > 0 then 1 else |d|, [0]) }

  lemma SlyPermitted(len: nat)
    requires len > 0
    ensures Contract(SlyOne, len) && Greedy(SlyOne, 1)
  {
  }

  /** The first round of a resumed call: one byte used, its output handed out. */
  function AfterSly(s: Strm, room: nat): (t: Strm)
    requires Sound(s) && s.flushMore && s.pendingIn >= 2 && room > s.pendingOut
    ensures Bounded(t) && t.pendingOut == 0 && t.pendingIn == s.pendingIn - 1 && t.inOffset == s.inOffset + 1
            && !t.flushMore
    ensures t.inBuf == s.inBuf && t.taken == s.taken && t.len == s.len && t.eaten == s.eaten + [s.inBuf[s.inOffset]]
  {
    Turn(Drained(s, room), s.inOffset, Answer(Ok, 1, [0]), room - s.pendingOut)
  }

  lemma SlyFirst(s: Strm, input: seq<byte>, room: nat, last: bool)
    requires Sound(s) && s.flushMore && s.pendingIn >= 2 && room > s.pendingOut && Contract(SlyOne, s.len)
    ensures InLoop(AfterSly(s, room), true, s.inOffset + 1)
    ensures Call(s, input, room, last, SlyOne)
         == Rounds(AfterSly(s, room), input, room - s.pendingOut - 1, last, SlyOne, 1, true, s.inOffset + 1)
  {
    hide Turn;
    var t, left := Drained(s, room), room - s.pendingOut;
    assert Ask(t, input, last, SlyOne, 0, s.inOffset) == Answer(Ok, 1, [0]);
    assert Rounds(t, input, left, last, SlyOne, 0, true, 0) == Round(t, input, left, last, SlyOne, 0, true, 0);
    assert Min(left, |[0 as int]|) == 1;
  }

  /** What is copied now goes behind the pending input as if that began at the front. */
  lemma ResumeCases(s: Strm, input: seq<byte>, room: nat, last: bool)
    requires Sound(s) && s.flushMore && s.pendingIn >= 2 && room > s.pendingOut && Contract(SlyOne, s.len)
    ensures var t, o := AfterSly(s, room), Call(s, input, room, last, SlyOne);
      var u := CopyIn(t, input);
      && (u.pendingIn < u.len && !last ==> o == Outcome(u, true, Uncopied(t, input), false))
      && (!(u.pendingIn < u.len && !last) ==>
            o == Round(u, Uncopied(t, input), room - s.pendingOut - 1, last, SlyOne, 1, false, s.inOffset + 1))
  {
    SlyFirst(s, input, room, last);
  }

  /** The call ends there: the used front is what is pending now. */
  lemma EndsBadly(s: Strm, input: seq<byte>, room: nat)
    requires Sound(s) && s.flushMore && s.pendingIn >= 2 && room > s.pendingOut && Contract(SlyOne, s.len)
    requires |input| + s.pendingIn - 1 < s.len
    ensures !GoodCall(With(s, MarkedFront(s.len)), input, room, false, SlyOne)
  {
    hide Call, Contract, Rounds, Round, AfterSly;
    var buf := MarkedFront(s.len);
    var t := With(s, buf);
    ResumeCases(t, input, room, false);
    var u := CopyIn(AfterSly(t, room), input);
    assert Part(u.inBuf, 0, u.pendingIn)[0] == 1;
    assert (u.eaten + Part(u.inBuf, 0, u.pendingIn))[1] == 1;
    assert u.taken[1] == buf[s.inOffset + 1] == 0;
  }

  /** The call goes on where the pending input really lies, and finds old bytes behind it, or the end
      of the buffer. */
  lemma GoesOnBadly(s: Strm, input: seq<byte>, room: nat, last: bool)
    requires Sound(s) && s.flushMore && s.pendingIn >= 2 && room > s.pendingOut && Contract(SlyOne, s.len)
    requires |input| > 0 && (forall k :: 0 <= k < |input| ==> input[k] == 1)
    requires last || |input| + s.pendingIn - 1 >= s.len
    ensures !GoodCall(With(s, Zeros(s.len)), input, room, last, SlyOne)
  {
    hide Call, Contract, Rounds, Round, AfterSly, Ordered, Balanced, Seen, Stored;
    var t := With(s, Zeros(s.len));
    ResumeCases(t, input, room, last);
    var u := CopyIn(AfterSly(t, room), input);
    if s.inOffset + 1 + u.pendingIn > u.len {
      RoundOverruns(u, Uncopied(AfterSly(t, room), input), room - s.pendingOut - 1, last, SlyOne, 1, s.inOffset + 1);
    } else {
      LostInput(t, input, room);
      SeesOldBytes(t, input, room, last);
    }
  }

  /** The round behind the copy: it does not fail, and what it sees decides. */
  lemma SeesOldBytes(t: Strm, input: seq<byte>, room: nat, last: bool)
    requires Sound(t) && t.flushMore && t.pendingIn >= 2 && room > t.pendingOut && Contract(SlyOne, t.len)
             && Balanced(t)
    requires |input| > 0 && (last || |input| + t.pendingIn - 1 >= t.len)
    requires var u, from := CopyIn(AfterSly(t, room), input), t.inOffset + 1;
      from + u.pendingIn <= u.len && Seen(u, from) != u.taken && |Seen(u, from)| == |u.taken|
    ensures !GoodCall(t, input, room, last, SlyOne)
  {
    hide Call, Contract, Rounds, Round, AfterSly, Continues, Accounts, Ordered, Balanced, Seen, Stored, Greedy;
    var v, from, left := AfterSly(t, room), t.inOffset + 1, room - t.pendingOut - 1;
    var u, rest := CopyIn(v, input), Uncopied(v, input);
    ResumeCases(t, input, room, last);
    SlyPermitted(t.len);
    SlyBalanced(t, room);
    CopyInKeeps(v, input);
    RoundStraight(u, rest, left, last, SlyOne, 1, false, from);
    GreedyRound(u, rest, left, last, SlyOne, 1, from);
    RoundAccounts(u, rest, left, last, SlyOne, 1, false, from);
    OutcomeIsSound(Seen(u, from), rest, Call(t, input, room, last, SlyOne));
    OrderOf(u, rest, left, Call(t, input, room, last, SlyOne), Seen(u, from));
  }

  lemma SlyBalanced(s: Strm, room: nat)
    requires Sound(s) && s.flushMore && s.pendingIn >= 2 && room > s.pendingOut && Balanced(s)
    ensures Balanced(AfterSly(s, room))
  {
    hide Turn;
    CopyOutKeeps(s, room);
    TurnKeeps(Drained(s, room), s.inOffset, Answer(Ok, 1, [0]), room - s.pendingOut);
  }

  function Zeros(len: nat): (buf: seq<byte>)
    ensures |buf| == len && forall k :: 0 <= k < len ==> buf[k] == 0
  {
    seq(len, _ => 0)
  }

  lemma RoundOverruns(s: Strm, rest: seq<byte>, room: nat, last: bool, comp: Compressor, i: nat, start: nat)
    requires Bounded(s) && s.pendingOut == 0 && Contract(comp, s.len) && (s.pendingIn == 0 ==> |rest| == 0)
    requires !s.flushMore && start + s.pendingIn > s.len
    ensures Round(s, rest, room, last, comp, i, false, start).overrun
  {
  }

  lemma LostInput(t: Strm, input: seq<byte>, room: nat)
    requires Sound(t) && t.flushMore && t.pendingIn >= 2 && room > t.pendingOut && Ordered(t) && t.eaten == []
    requires t.inBuf == Zeros(t.len) && |input| > 0 && (forall k :: 0 <= k < |input| ==> input[k] == 1)
    requires t.inOffset + 1 + CopyIn(AfterSly(t, room), input).pendingIn <= t.len
    ensures var u := CopyIn(AfterSly(t, room), input);
      Seen(u, t.inOffset + 1) != u.taken && |Seen(u, t.inOffset + 1)| == |u.taken|
  {
    hide AfterSly;
    var v := AfterSly(t, room);
    var u, from := CopyIn(v, input), t.inOffset + 1;
    var seen := Seen(u, from);
    assert u.pendingIn > v.pendingIn;
    assert seen[|seen| - 1] == u.inBuf[from + u.pendingIn - 1] == 0;
    assert u.taken[|u.taken| - 1] == 1;
  }

  /** Draining after a flush with room to spare: there is a compressor that uses part of what is left,
      and contents that go astray then. */
  lemma ResumeBreaks(s: Strm, inSz: nat, room: nat, last: bool)
    requires Sound(s) && s.flushMore && !Careful(s, inSz, room, last)
    ensures !KeepsOrder(s, inSz, room, last)
  {
    hide Call, KeepsOrder, Balanced, Contract, Ordered;
    SlyPermitted(s.len);
    var input: seq<byte> := seq(inSz, _ => 1);
    if !last && inSz + s.pendingIn - 1 < s.len {
      EndsBadly(s, input, room);
      BadBreaks(s, With(s, MarkedFront(s.len)), input, room, last, SlyOne);
    } else {
      GoesOnBadly(s, input, room, last);
      BadBreaks(s, With(s, Zeros(s.len)), input, room, last, SlyOne);
    }
  }

  /** A call keeps the order of the input, for all contents and all answers of the compressor, exactly
      when it is careful. */
  lemma KeepsOrderIff(s: Strm, inSz: nat, room: nat, last: bool)
    requires Sound(s)
    ensures KeepsOrder(s, inSz, room, last) <==> Careful(s, inSz, room, last)
  {
    hide Call, Balanced, Contract, Ordered, GoodCall;
    if Careful(s, inSz, room, last) {
      forall t: Strm, input: seq<byte>, comp: Compressor |
        Sound(t) && Balanced(t) && Alike(s, t) && Ordered(t) && |input| == inSz && Contract(comp, t.len)
        ensures GoodCall(t, input, room, last, comp)
      {
        CarefulKeepsOrder(t, input, room, last, comp);
      }
    } else if s.flushMore {
      ResumeBreaks(s, inSz, room, last);
    } else {
      JumpBreaks(s, inSz, room, last);
    }
  }

  /** Exactly which contents survive when pending input is jumped over: those that look the same at the
      front of the buffer as where they lie. */
  lemma JumpExactly(s: Strm, input: seq<byte>, room: nat, last: bool, comp: Compressor)
    requires Sound(s) && Balanced(s) && Contract(comp, s.len) && Ordered(s) && !s.flushMore
    requires s.pendingIn > 0 && 0 < s.pendingOut <= room
    ensures var o := Call(s, input, room, last, comp);
      && Sound(o.s) && !o.overrun
      && (o.ok ==> (Ordered(o.s) <==> Part(s.inBuf, s.inOffset, s.pendingIn) == Part(s.inBuf, 0, s.pendingIn)))
  {
    hide Call;
    FrontCall(s, input, room, last, comp);
    var p, q := Part(s.inBuf, s.inOffset, s.pendingIn), Part(s.inBuf, 0, s.pendingIn);
    if s.eaten + p == s.eaten + q { assert p == (s.eaten + p)[|s.eaten|..] && q == (s.eaten + q)[|s.eaten|..]; }
  }

  // ---- runs ----

  datatype Request = Request(input: seq<byte>, room: nat, last: bool, comp: Compressor)

  /** A new stream. */
  function Fresh(len: nat): (s: Strm)
    ensures len > 0 ==> Sound(s) && Balanced(s) && Ordered(s)
  {
    var blank := Zeros(len);
    Strm(len, blank, blank, 0, 0, false, 0, 0, [], [], [], [])
  }

  /** Calls one after the other, none of which fails. */
  ghost predicate CallRun(len: nat, states: seq<Strm>, reqs: seq<Request>) {
    && len > 0 && |states| == |reqs| + 1 && states[0] == Fresh(len)
    && forall i :: 0 <= i < |reqs| ==>
         && Sound(states[i]) && states[i].len == len && Contract(reqs[i].comp, len)
         && var o := Call(states[i], reqs[i].input, reqs[i].room, reqs[i].last, reqs[i].comp);
            o.ok && states[i + 1] == o.s
  }

  ghost predicate CarefulAt(states: seq<Strm>, reqs: seq<Request>, i: nat)
    requires i < |reqs| && i < |states|
  {
    Careful(states[i], |reqs[i].input|, reqs[i].room, reqs[i].last)
  }

  /** After any run of calls the accounts balance; after careful calls the compressor has seen exactly
      the user's bytes in order, up to those that are pending. */
  lemma {:induction false} RunAccounts(len: nat, states: seq<Strm>, reqs: seq<Request>, n: nat)
    requires CallRun(len, states, reqs) && n <= |reqs|
    ensures Sound(states[n]) && Balanced(states[n]) && states[n].len == len
    ensures (forall i: nat :: i < n ==> CarefulAt(states, reqs, i)) ==> Ordered(states[n])
  {
    hide Call, Careful, Balanced, Ordered, Contract;
    if n > 0 {
      RunAccounts(len, states, reqs, n - 1);
      var s, q := states[n - 1], reqs[n - 1];
      CallAccounts(s, q.input, q.room, q.last, q.comp);
      if forall i: nat :: i < n ==> CarefulAt(states, reqs, i) {
        assert CarefulAt(states, reqs, n - 1);
        CarefulKeepsOrder(s, q.input, q.room, q.last, q.comp);
      }
    }
  }

  /** Input that is pending together with output lies behind a used front. */
  predicate Behind(s: Strm) { s.pendingIn > 0 && s.pendingOut > 0 ==> s.inOffset > 0 }

  lemma {:induction false} RoundsBehind(
    s: Strm, rest: seq<byte>, room: nat, last: bool, comp: Compressor, i: nat, copyMore: bool, start: nat)
    requires InLoop(s, copyMore, start) && Contract(comp, s.len) && Behind(s)
    ensures var o := Rounds(s, rest, room, last, comp, i, copyMore, start); o.ok ==> Behind(o.s)
    decreases |rest| + s.pendingIn, 1
  {
    if s.pendingOut == 0 {
      if Fills(s, copyMore) {
        var s1 := CopyIn(s, rest);
        if s1.pendingIn == s1.len || last { RoundBehind(s1, Uncopied(s, rest), room, last, comp, i, false, start); }
      } else { RoundBehind(s, rest, room, last, comp, i, copyMore, start); }
    }
  }

  lemma {:induction false} RoundBehind(
    s: Strm, rest: seq<byte>, room: nat, last: bool, comp: Compressor, i: nat, copyMore: bool, start: nat)
    requires Bounded(s) && s.pendingOut == 0 && Contract(comp, s.len) && (s.pendingIn == 0 ==> |rest| == 0)
    requires s.flushMore ==> s.inOffset + s.pendingIn <= s.len
    ensures var o := Round(s, rest, room, last, comp, i, copyMore, start); o.ok ==> Behind(o.s)
    decreases |rest| + s.pendingIn, 0
  {
    hide Turn;
    var from := From(s, start);
    if from + s.pendingIn <= s.len {
      var a := Ask(s, rest, last, comp, i, from);
      var t, left := Turn(s, from, a, room), room - Min(room, |a.output|);
      TurnFields(s, from, a, room);
      if !Failed(a) {
        if t.pendingIn > 0 { RoundsBehind(t, rest, left, last, comp, i + 1, copyMore, from + a.consumed); }
        else if |rest| > 0 { RoundsBehind(t, rest, left, last, comp, i + 1, true, 0); }
      }
    }
  }

  /** In runs without failing calls in_offset is no part of the condition: what a caller has to avoid is
      to drain the pending output while input is pending, unless the last call ended for lack of room. */
  lemma {:induction false} RunBehind(len: nat, states: seq<Strm>, reqs: seq<Request>, n: nat)
    requires CallRun(len, states, reqs) && n <= |reqs|
    ensures Behind(states[n])
    ensures n < |reqs| && !states[n].flushMore ==>
              (CarefulAt(states, reqs, n) <==>
                 states[n].pendingIn == 0 || states[n].pendingOut == 0 || reqs[n].room < states[n].pendingOut)
  {
    hide Rounds, Contract;
    if n > 0 {
      RunBehind(len, states, reqs, n - 1);
      var s, q := states[n - 1], reqs[n - 1];
      if !EndsDraining(s, q.room, |q.input|) {
        RoundsBehind(Drained(s, q.room), q.input, q.room - s.pendingOut, q.last, q.comp, 0, true, 0);
      }
    }
  }

  /** How to drain: all but one byte first, whatever input is offered with it, and then one byte. */
  lemma DrainInTwo(s: Strm, input: seq<byte>, last: bool, comp: Compressor)
    requires Sound(s) && Contract(comp, s.len) && s.pendingIn > 0 && s.pendingOut > 0
    ensures Careful(s, |input|, s.pendingOut - 1, last)
    ensures var o := Call(s, input, s.pendingOut - 1, last, comp);
      && o.ok && o.rest == input && o.s.pendingIn == s.pendingIn && o.s.pendingOut == 1
      && forall k: nat, l: bool :: Careful(o.s, k, 1, l)
  {
  }

  /** When every call of the compressor uses all it is given, input and output are never pending
      together, so every run keeps the order. */
  lemma {:induction false} GreedyRunsKeepOrder(len: nat, states: seq<Strm>, reqs: seq<Request>, n: nat)
    requires CallRun(len, states, reqs) && n <= |reqs| && forall i :: 0 <= i < |reqs| ==> Greedy(reqs[i].comp, 0)
    ensures (states[n].pendingIn == 0 || states[n].pendingOut == 0)
    ensures Sound(states[n]) && Ordered(states[n])
    ensures forall i: nat :: i < n ==> CarefulAt(states, reqs, i)
  {
    hide Call, Balanced, Ordered, Contract, Greedy;
    if n > 0 {
      GreedyRunsKeepOrder(len, states, reqs, n - 1);
      var s, q := states[n - 1], reqs[n - 1];
      GreedyCall(s, q.input, q.room, q.last, q.comp);
    }
    RunAccounts(len, states, reqs, n);
  }

  lemma GreedyCall(s: Strm, input: seq<byte>, room: nat, last: bool, comp: Compressor)
    requires Sound(s) && Contract(comp, s.len) && Greedy(comp, 0) && (s.pendingIn == 0 || s.pendingOut == 0)
    ensures var t := Call(s, input, room, last, comp).s; t.pendingIn == 0 || t.pendingOut == 0
  {
    if !EndsDraining(s, room, |input|) {
      GreedyLeaves(Drained(s, room), input, room - s.pendingOut, last, comp, 0, true, 0);
    }
  }

  lemma {:induction false} GreedyLeaves(
    s: Strm, rest: seq<byte>, room: nat, last: bool, comp: Compressor, i: nat, copyMore: bool, start: nat)
    requires InLoop(s, copyMore, start) && Contract(comp, s.len) && Greedy(comp, i) && !s.flushMore
    requires s.pendingIn == 0 || s.pendingOut == 0
    ensures var t := Rounds(s, rest, room, last, comp, i, copyMore, start).s; t.pendingIn == 0 || t.pendingOut == 0
    decreases |rest| + s.pendingIn, 1
  {
    if s.pendingOut == 0 {
      if Fills(s, copyMore) {
        var s1 := CopyIn(s, rest);
        if s1.pendingIn == s1.len || last {
          GreedyRoundLeaves(s1, Uncopied(s, rest), room, last, comp, i, false, start);
        }
      } else { GreedyRoundLeaves(s, rest, room, last, comp, i, copyMore, start); }
    }
  }

  lemma {:induction false} GreedyRoundLeaves(
    s: Strm, rest: seq<byte>, room: nat, last: bool, comp: Compressor, i: nat, copyMore: bool, start: nat)
    requires Bounded(s) && s.pendingOut == 0 && Contract(comp, s.len) && (s.pendingIn == 0 ==> |rest| == 0)
    requires Greedy(comp, i) && !s.flushMore
    ensures var t := Round(s, rest, room, last, comp, i, copyMore, start).s; t.pendingIn == 0 || t.pendingOut == 0
    decreases |rest| + s.pendingIn, 0
  {
    hide Turn;
    if start + s.pendingIn <= s.len {
      var a := Ask(s, rest, last, comp, i, start);
      var t := Turn(s, start, a, room);
      TurnFields(s, start, a, room);
      if |rest| > 0 { GreedyLeaves(t, rest, room - Min(room, |a.output|), last, comp, i + 1, true, 0); }
    }
  }

  // ---- a run that loses track ----

  /** Runs out of output after one byte of input. */
  function Partial(i: nat, d: seq<byte>, l: bool): Answer {
    if |d| == 0 then Answer(Ok, 0, []) else Answer(BufError, 1, [0, 0])
  }

  /** The stream after its buffer has been filled with x, and after one byte of that has been used. */
  function Filled(x: seq<byte>): Strm
    requires |x| >= 2
  {
    Fresh(|x|).(inBuf := x, pendingIn := |x|, taken := x)
  }

  function OneUsed(x: seq<byte>): (s: Strm)
    requires |x| >= 2
    ensures Sound(s) && s.len == |x| && s.inBuf == x && s.inOffset == 1 && s.pendingIn == |x| - 1 && s.pendingOut == 1
    ensures !s.flushMore && s.taken == x && s.eaten == [x[0]]
  {
    assert Part(x, 0, 1) == [x[0]];
    Turn(Filled(x), 0, Answer(BufError, 1, [0, 0]), 1)
  }

  lemma FillsWith(x: seq<byte>)
    requires |x| >= 2
    ensures CopyIn(Fresh(|x|), x) == Filled(x) && Uncopied(Fresh(|x|), x) == []
  {
    assert Stored(Zeros(|x|), 0, x) == x && x[..|x|] == x && [] + x == x;
  }

  /** x fills the buffer of a new stream; the compressor uses its first byte and produces two, of which
      one is handed out. */
  lemma FirstCall(x: seq<byte>) returns (s: Strm)
    requires |x| >= 2
    ensures Contract(Partial, |x|) && var o := Call(Fresh(|x|), x, 1, false, Partial); o.ok && o.s == s && o.rest == []
    ensures s == OneUsed(x)
  {
    var f, u := Fresh(|x|), Filled(x);
    s := OneUsed(x);
    FillsWith(x);
    assert Drained(f, 1) == f by { assert f.delivered + Part(f.outBuf, 0, 0) == f.delivered; }
    assert Ask(u, [], false, Partial, 0, 0) == Answer(BufError, 1, [0, 0]);
    FirstRound(x);
  }

  lemma FirstRound(x: seq<byte>)
    requires |x| >= 2 && Contract(Partial, |x|)
    ensures Round(Filled(x), [], 1, false, Partial, 0, false, 0) == Outcome(OneUsed(x), true, [], false)
  {
    hide Turn;
    var s, u := OneUsed(x), Filled(x);
    assert Ask(u, [], false, Partial, 0, 0) == Answer(BufError, 1, [0, 0]);
    assert s == Turn(u, 0, Answer(BufError, 1, [0, 0]), 1);
    assert Rounds(s, [], 0, false, Partial, 1, false, 1) == Outcome(s, true, [], false);
    assert Min(1, |[0 as int, 0]|) == 1;
  }

  /** The pending byte of output is drained, one more byte y of input is copied, and the compressor uses
      all it is given: the front of x again, without its last byte, and y. */
  lemma SecondCall(x: seq<byte>, y: byte, s: Strm, last: bool) returns (t: Strm)
    requires |x| >= 2 && Sound(s) && s.len == |x| && s.inBuf == x && s.inOffset == 1 && s.pendingIn == |x| - 1
    requires s.pendingOut == 1 && !s.flushMore && s.taken == x && s.eaten == [x[0]]
    ensures Contract(GreedyOne, |x|) && var o := Call(s, [y], 1, last, GreedyOne); o.ok && o.s == t && o.rest == []
    ensures t.pendingIn == 0 && t.taken == x + [y] && t.eaten == [x[0]] + x[..|x| - 1] + [y]
  {
    GreedyPermitted(|x|);
    var d := Drained(s, 1);
    var u := CopyIn(d, [y]);
    assert [y][..1] == [y] && Uncopied(d, [y]) == [];
    assert u.inBuf == x[..|x| - 1] + [y] && Part(u.inBuf, 0, |x|) == u.inBuf;
    var a := Answer(Ok, |x|, [0]);
    assert Ask(u, [], last, GreedyOne, 0, 0) == a;
    t := Turn(u, 0, a, 0);
    assert Round(u, [], 0, last, GreedyOne, 0, false, 0) == Outcome(t, true, [], false);
    assert [x[0]] + (x[..|x| - 1] + [y]) == [x[0]] + x[..|x| - 1] + [y];
  }

  /** Two calls that do not fail, on a stream buffer of any size: although every byte was accepted and
      used, the compressor has not seen the user's bytes, unless all bytes of the first input are equal. */
  lemma TwoCalls(x: seq<byte>, y: byte, last: bool) returns (states: seq<Strm>, reqs: seq<Request>)
    requires |x| >= 2
    ensures CallRun(|x|, states, reqs) && |reqs| == 2
    ensures reqs == [Request(x, 1, false, Partial), Request([y], 1, last, GreedyOne)]
    ensures !states[1].flushMore && states[1].pendingIn > 0 && states[1].pendingOut == reqs[1].room
    ensures states[2].pendingIn == 0 && states[2].taken == x + [y] && |states[2].eaten| == |x| + 1
    ensures states[2].eaten == states[2].taken <==> forall k :: 0 <= k < |x| ==> x[k] == x[0]
  {
    hide Call;
    var s := FirstCall(x);
    var t := SecondCall(x, y, s, last);
    states, reqs := [Fresh(|x|), s, t], [Request(x, 1, false, Partial), Request([y], 1, last, GreedyOne)];
    SameByte(x, y);
  }

  lemma {:induction false} AllEqual(x: seq<byte>, n: nat)
    requires n < |x| && forall k :: 0 < k < |x| ==> x[k] == x[k - 1]
    ensures x[n] == x[0]
  {
    if n > 0 { AllEqual(x, n - 1); }
  }

  lemma SameByte(x: seq<byte>, y: byte)
    requires |x| > 0
    ensures [x[0]] + x[..|x| - 1] + [y] == x + [y] <==> forall k :: 0 <= k < |x| ==> x[k] == x[0]
  {
    var a, b := [x[0]] + x[..|x| - 1] + [y], x + [y];
    if a == b {
      forall k | 0 < k < |x| ensures x[k] == x[k - 1] { assert a[k] == x[k - 1] && b[k] == x[k]; }
      forall k | 0 <= k < |x| ensures x[k] == x[0] { AllEqual(x, k); }
    }
    if forall k :: 0 <= k < |x| ==> x[k] == x[0] {
      forall k | 0 <= k < |b| ensures a[k] == b[k] {
        if 0 < k < |x| { assert a[k] == x[k - 1]; }
      }
    }
  }
}
