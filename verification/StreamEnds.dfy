/** When a call of the streaming interface asks the compressor at all, what it tells it, and how the
    call ends. */
module StreamEnds {
  import opened Bytes
  import opened StreamCalls

  // ---- whether the compressor is asked ----

  /** What is left of earlier output can be handed out, something else remains to be done, and there is
      a reason to compress: a flush that was put off, the end of the input, or a full buffer. */
  predicate Asks(s: Strm, room: nat, inSz: nat, last: bool) {
    && s.pendingOut <= room && (s.pendingOut == 0 || s.pendingIn > 0 || inSz > 0)
    && (s.flushMore || last || s.pendingIn + inSz >= s.len)
  }

  /** A compressor that does nothing. */
  function Refusing(): Compressor {
    (i: nat, d: seq<byte>, l: bool) => Answer(Fail, 0, [])
  }

  lemma RefusingIsAllowed(len: nat)
    ensures Contract(Refusing(), len)
  {
  }

  /** After a call that does not ask: earlier output handed out as far as there is room, and the input
      either not looked at or copied as a whole. */
  ghost predicate OnlyCopies(s: Strm, input: seq<byte>, room: nat, o: Outcome)
    requires Bounded(s)
  {
    && o.ok && !o.overrun && o.s.eaten == s.eaten && o.s.outputs == s.outputs
    && o.s.delivered == s.delivered + Part(s.outBuf, s.outOffset, Min(s.pendingOut, room))
    && o.s.pendingOut == s.pendingOut - Min(s.pendingOut, room)
    && (if s.pendingOut > room then o.rest == input && o.s.taken == s.taken && o.s.pendingIn == s.pendingIn
        else o.rest == [] && o.s.taken == s.taken + input && o.s.pendingIn == s.pendingIn + |input|)
  }

  lemma DrainedFields(s: Strm, room: nat)
    requires Sound(s)
    ensures var t := Drained(s, room);
      && Bounded(t) && t.len == s.len && t.eaten == s.eaten && t.outputs == s.outputs && t.taken == s.taken
      && t.delivered == s.delivered + Part(s.outBuf, s.outOffset, Min(s.pendingOut, room))
      && t.pendingOut == s.pendingOut - Min(s.pendingOut, room) && t.pendingIn == s.pendingIn
      && t.inOffset == s.inOffset && (room >= s.pendingOut ==> t.flushMore == s.flushMore)
  {
  }

  /** A call asks the compressor exactly under this condition, for every compressor: when it does not, it
      only copies; when it does, a compressor that refuses makes the call fail. */
  lemma AskedIff(s: Strm, input: seq<byte>, room: nat, last: bool, comp: Compressor)
    requires Sound(s) && Contract(comp, s.len)
    ensures Contract(Refusing(), s.len)
    ensures Asks(s, room, |input|, last) <==> !Call(s, input, room, last, Refusing()).ok
    ensures !Asks(s, room, |input|, last) ==> OnlyCopies(s, input, room, Call(s, input, room, last, comp))
  {
    RefusingIsAllowed(s.len);
    if Asks(s, room, |input|, last) {
      AskedFails(s, input, room, last);
    } else {
      NotAsked(s, input, room, last, comp);
      NotAsked(s, input, room, last, Refusing());
    }
  }

  lemma NotAsked(s: Strm, input: seq<byte>, room: nat, last: bool, comp: Compressor)
    requires Sound(s) && Contract(comp, s.len) && !Asks(s, room, |input|, last)
    ensures OnlyCopies(s, input, room, Call(s, input, room, last, comp))
  {
    hide Call, Rounds, Drained;
    DrainedFields(s, room);
    CallStarts(s, input, room, last, comp);
    var t := Drained(s, room);
    if EndsDraining(s, room, |input|) {
      if |input| == 0 { assert s.taken + input == s.taken; }
    } else {
      RoundsStep(t, input, room - s.pendingOut, last, comp, 0, true, 0);
      assert input[..|input|] == input && input[|input|..] == [];
    }
  }

  lemma AskedFails(s: Strm, input: seq<byte>, room: nat, last: bool)
    requires Sound(s) && Contract(Refusing(), s.len) && Asks(s, room, |input|, last)
    ensures !Call(s, input, room, last, Refusing()).ok
  {
    hide Call, Rounds, Round, Drained, Turn;
    DrainedFields(s, room);
    CallStarts(s, input, room, last, Refusing());
    var t := Drained(s, room);
    RoundsStep(t, input, room - s.pendingOut, last, Refusing(), 0, true, 0);
    if Fills(t, true) {
      RefusedRound(CopyIn(t, input), Uncopied(t, input), room - s.pendingOut, last, false);
    } else {
      RefusedRound(t, input, room - s.pendingOut, last, true);
    }
  }

  lemma RefusedRound(s: Strm, rest: seq<byte>, room: nat, last: bool, copyMore: bool)
    requires Bounded(s) && s.pendingOut == 0 && Contract(Refusing(), s.len) && (s.pendingIn == 0 ==> |rest| == 0)
    requires s.flushMore ==> s.inOffset + s.pendingIn <= s.len
    ensures !Round(s, rest, room, last, Refusing(), 0, copyMore, 0).ok
  {
    hide Rounds, Turn;
  }

  // ---- how a call ends ----

  /** There is no room left for what is pending; or everything has been taken, and compressed unless the
      call is not the last and less than a buffer is waiting. */
  ghost predicate EndsWell(s: Strm, room: nat, last: bool, o: Outcome) {
    if o.s.pendingOut > 0 then |o.s.delivered| == |s.delivered| + room
    else o.rest == [] && (o.s.pendingIn == 0 || (!last && o.s.pendingIn < o.s.len))
  }

  lemma EndsWellFrom(s: Strm, room: nat, t: Strm, m: nat, last: bool, o: Outcome)
    requires |t.delivered| == |s.delivered| + m && m <= room && EndsWell(t, room - m, last, o)
    ensures EndsWell(s, room, last, o)
  {
  }

  lemma TurnRoom(s: Strm, from: nat, a: Answer, room: nat)
    requires Bounded(s) && s.pendingOut == 0 && from + s.pendingIn <= s.len && Permitted(a, s.pendingIn, s.len)
    ensures var t, m := Turn(s, from, a, room), Min(room, |a.output|);
      && |t.delivered| == |s.delivered| + m && t.pendingOut == |a.output| - m && t.len == s.len
      && (t.pendingOut > 0 ==> m == room)
  {
  }

  lemma {:induction false} RoundsEnd(
    s: Strm, rest: seq<byte>, room: nat, last: bool, comp: Compressor, i: nat, copyMore: bool, start: nat)
    requires InLoop(s, copyMore, start) && Contract(comp, s.len) && (s.pendingOut > 0 ==> room == 0)
    ensures var o := Rounds(s, rest, room, last, comp, i, copyMore, start);
      o.ok ==> EndsWell(s, room, last, o)
    decreases |rest| + s.pendingIn, 1
  {
    hide Rounds, Round, EndsWell;
    RoundsStep(s, rest, room, last, comp, i, copyMore, start);
    var o := Rounds(s, rest, room, last, comp, i, copyMore, start);
    if s.pendingOut > 0 {
      EndsHere(s, room, last, o);
    } else if Fills(s, copyMore) {
      var s1, rest1 := CopyIn(s, rest), Uncopied(s, rest);
      if s1.pendingIn < s1.len && !last {
        EndsHere(s, room, last, o);
      } else {
        RoundEnds(s1, rest1, room, last, comp, i, false, start);
        if o.ok { EndsWellFrom(s, room, s1, 0, last, o); }
      }
    } else {
      RoundEnds(s, rest, room, last, comp, i, copyMore, start);
    }
  }

  lemma EndsHere(s: Strm, room: nat, last: bool, o: Outcome)
    requires |o.s.delivered| == |s.delivered| && (o.s.pendingOut > 0 ==> room == 0)
    requires o.s.pendingOut == 0 ==> o.rest == [] && (o.s.pendingIn == 0 || (!last && o.s.pendingIn < o.s.len))
    ensures EndsWell(s, room, last, o)
  {
  }

  lemma {:induction false} RoundEnds(
    s: Strm, rest: seq<byte>, room: nat, last: bool, comp: Compressor, i: nat, copyMore: bool, start: nat)
    requires Bounded(s) && s.pendingOut == 0 && Contract(comp, s.len) && (s.pendingIn == 0 ==> |rest| == 0)
    requires s.flushMore ==> s.inOffset + s.pendingIn <= s.len
    ensures var o := Round(s, rest, room, last, comp, i, copyMore, start);
      o.ok ==> EndsWell(s, room, last, o)
    decreases |rest| + s.pendingIn, 0
  {
    hide Rounds, Round, Turn, EndsWell;
    if From(s, start) + s.pendingIn > s.len {
      Overrun(s, rest, room, last, comp, i, copyMore, start);
      return;
    }
    RoundStep(s, rest, room, last, comp, i, copyMore, start);
    var a := Ask(s, rest, last, comp, i, From(s, start));
    var t, m := Turn(s, From(s, start), a, room), Min(room, |a.output|);
    TurnRoom(s, From(s, start), a, room);
    var o := Round(s, rest, room, last, comp, i, copyMore, start);
    if !Failed(a) {
      if t.pendingIn > 0 { RoundsEnd(t, rest, room - m, last, comp, i + 1, copyMore, From(s, start) + a.consumed); }
      else if |rest| == 0 { EndsHere(t, room - m, last, o); }
      else { RoundsEnd(t, rest, room - m, last, comp, i + 1, true, 0); }
      if o.ok { EndsWellFrom(s, room, t, m, last, o); }
    }
  }

  lemma Overrun(
    s: Strm, rest: seq<byte>, room: nat, last: bool, comp: Compressor, i: nat, copyMore: bool, start: nat)
    requires Bounded(s) && s.pendingOut == 0 && Contract(comp, s.len) && (s.pendingIn == 0 ==> |rest| == 0)
    requires s.flushMore ==> s.inOffset + s.pendingIn <= s.len
    requires From(s, start) + s.pendingIn > s.len
    ensures Round(s, rest, room, last, comp, i, copyMore, start) == Outcome(s, false, rest, true)
  {
    hide Rounds, Turn;
  }

  /** A call that does not fail has used all its room, or has taken all of its input and leaves nothing
      uncompressed but, when more is to come, less than a buffer. */
  lemma CallEnds(s: Strm, input: seq<byte>, room: nat, last: bool, comp: Compressor)
    requires Sound(s) && Contract(comp, s.len)
    ensures var o := Call(s, input, room, last, comp); o.ok ==> EndsWell(s, room, last, o)
  {
    hide Call, Rounds, Drained, EndsWell;
    DrainedFields(s, room);
    CallStarts(s, input, room, last, comp);
    var t, m := Drained(s, room), Min(s.pendingOut, room);
    var o := Call(s, input, room, last, comp);
    if EndsDraining(s, room, |input|) {
      EndsHere(t, room - m, last, o);
    } else {
      RoundsEnd(t, input, room - m, last, comp, 0, true, 0);
    }
    if o.ok { EndsWellFrom(s, room, t, m, last, o); }
  }

  // ---- what the compressor is told ----

  /** The two answer alike as long as they are not told that the data ends. */
  ghost predicate AlikeBefore(c1: Compressor, c2: Compressor) {
    forall i: nat, d: seq<byte> :: c1(i, d, false) == c2(i, d, false)
  }

  /** Input that has been copied does not come back. */
  lemma {:induction false} RoundsKeepNone(
    s: Strm, rest: seq<byte>, room: nat, last: bool, comp: Compressor, i: nat, copyMore: bool, start: nat)
    requires InLoop(s, copyMore, start) && Contract(comp, s.len) && |rest| == 0
    ensures Rounds(s, rest, room, last, comp, i, copyMore, start).rest == []
    decreases |rest| + s.pendingIn, 1
  {
    hide Rounds, Round;
    RoundsStep(s, rest, room, last, comp, i, copyMore, start);
    if s.pendingOut > 0 {
    } else if Fills(s, copyMore) {
      var s1, rest1 := CopyIn(s, rest), Uncopied(s, rest);
      if s1.pendingIn >= s1.len || last { RoundKeepsNone(s1, rest1, room, last, comp, i, false, start); }
    } else {
      RoundKeepsNone(s, rest, room, last, comp, i, copyMore, start);
    }
  }

  lemma {:induction false} RoundKeepsNone(
    s: Strm, rest: seq<byte>, room: nat, last: bool, comp: Compressor, i: nat, copyMore: bool, start: nat)
    requires Bounded(s) && s.pendingOut == 0 && Contract(comp, s.len) && |rest| == 0
    requires s.flushMore ==> s.inOffset + s.pendingIn <= s.len
    ensures Round(s, rest, room, last, comp, i, copyMore, start).rest == []
    decreases |rest| + s.pendingIn, 0
  {
    hide Rounds, Round, Turn;
    if From(s, start) + s.pendingIn > s.len {
      Overrun(s, rest, room, last, comp, i, copyMore, start);
      return;
    }
    RoundStep(s, rest, room, last, comp, i, copyMore, start);
    var a := Ask(s, rest, last, comp, i, From(s, start));
    var t, m := Turn(s, From(s, start), a, room), Min(room, |a.output|);
    TurnRoom(s, From(s, start), a, room);
    if !Failed(a) && t.pendingIn > 0 {
      RoundsKeepNone(t, rest, room - m, last, comp, i + 1, copyMore, From(s, start) + a.consumed);
    }
  }

  lemma {:induction false} RoundsTell(
    s: Strm, rest: seq<byte>, room: nat, last: bool, c1: Compressor, c2: Compressor, i: nat, copyMore: bool,
    start: nat)
    requires InLoop(s, copyMore, start) && Contract(c1, s.len) && Contract(c2, s.len) && AlikeBefore(c1, c2)
    requires !last || Rounds(s, rest, room, last, c1, i, copyMore, start).rest != []
    ensures Rounds(s, rest, room, last, c1, i, copyMore, start) == Rounds(s, rest, room, last, c2, i, copyMore, start)
    decreases |rest| + s.pendingIn, 1
  {
    hide Rounds, Round;
    RoundsStep(s, rest, room, last, c1, i, copyMore, start);
    RoundsStep(s, rest, room, last, c2, i, copyMore, start);
    if s.pendingOut > 0 {
    } else if Fills(s, copyMore) {
      var s1, rest1 := CopyIn(s, rest), Uncopied(s, rest);
      if s1.pendingIn >= s1.len || last { RoundTells(s1, rest1, room, last, c1, c2, i, false, start); }
    } else {
      RoundTells(s, rest, room, last, c1, c2, i, copyMore, start);
    }
  }

  lemma {:induction false} RoundTells(
    s: Strm, rest: seq<byte>, room: nat, last: bool, c1: Compressor, c2: Compressor, i: nat, copyMore: bool,
    start: nat)
    requires Bounded(s) && s.pendingOut == 0 && (s.pendingIn == 0 ==> |rest| == 0)
    requires Contract(c1, s.len) && Contract(c2, s.len) && AlikeBefore(c1, c2)
    requires s.flushMore ==> s.inOffset + s.pendingIn <= s.len
    requires !last || Round(s, rest, room, last, c1, i, copyMore, start).rest != []
    ensures Round(s, rest, room, last, c1, i, copyMore, start) == Round(s, rest, room, last, c2, i, copyMore, start)
    decreases |rest| + s.pendingIn, 0
  {
    hide Rounds, Round, Turn;
    if From(s, start) + s.pendingIn > s.len {
      Overrun(s, rest, room, last, c1, i, copyMore, start);
      Overrun(s, rest, room, last, c2, i, copyMore, start);
      return;
    }
    if |rest| == 0 { RoundKeepsNone(s, rest, room, last, c1, i, copyMore, start); }
    RoundStep(s, rest, room, last, c1, i, copyMore, start);
    RoundStep(s, rest, room, last, c2, i, copyMore, start);
    var a := Ask(s, rest, last, c1, i, From(s, start));
    assert Ask(s, rest, last, c2, i, From(s, start)) == a;
    var t, m := Turn(s, From(s, start), a, room), Min(room, |a.output|);
    TurnRoom(s, From(s, start), a, room);
    if Failed(a) {
    } else if t.pendingIn > 0 {
      RoundsTell(t, rest, room - m, last, c1, c2, i + 1, copyMore, From(s, start) + a.consumed);
    } else if |rest| > 0 {
      RoundsTell(t, rest, room - m, last, c1, c2, i + 1, true, 0);
    }
  }

  /** The compressor is not told that the data ends unless the call is the last one and all of its input
      has been copied: otherwise its answers to that do not matter. */
  lemma NotToldEarly(s: Strm, input: seq<byte>, room: nat, last: bool, c1: Compressor, c2: Compressor)
    requires Sound(s) && Contract(c1, s.len) && Contract(c2, s.len) && AlikeBefore(c1, c2)
    requires !last || Call(s, input, room, last, c1).rest != []
    ensures Call(s, input, room, last, c1) == Call(s, input, room, last, c2)
  {
    hide Call, Rounds, Drained;
    DrainedFields(s, room);
    CallStarts(s, input, room, last, c1);
    CallStarts(s, input, room, last, c2);
    if !EndsDraining(s, room, |input|) {
      RoundsTell(Drained(s, room), input, room - s.pendingOut, last, c1, c2, 0, true, 0);
    }
  }

  /** It fails when it is told that the data ends. */
  ghost predicate FailsAtEnd(c: Compressor) {
    forall i: nat, d: seq<byte> :: c(i, d, true).rc.Fail?
  }

  lemma {:induction false} RoundsTold(
    s: Strm, rest: seq<byte>, room: nat, comp: Compressor, i: nat, copyMore: bool, start: nat)
    requires InLoop(s, copyMore, start) && Contract(comp, s.len) && FailsAtEnd(comp)
    ensures var o := Rounds(s, rest, room, true, comp, i, copyMore, start);
      o.ok ==> o.s.pendingOut > 0
    decreases |rest| + s.pendingIn, 1
  {
    hide Rounds, Round;
    RoundsStep(s, rest, room, true, comp, i, copyMore, start);
    if s.pendingOut > 0 {
    } else if Fills(s, copyMore) {
      RoundTold(CopyIn(s, rest), Uncopied(s, rest), room, comp, i, false, start);
    } else {
      RoundTold(s, rest, room, comp, i, copyMore, start);
    }
  }

  lemma {:induction false} RoundTold(
    s: Strm, rest: seq<byte>, room: nat, comp: Compressor, i: nat, copyMore: bool, start: nat)
    requires Bounded(s) && s.pendingOut == 0 && (s.pendingIn == 0 ==> |rest| == 0)
    requires Contract(comp, s.len) && FailsAtEnd(comp) && (s.flushMore ==> s.inOffset + s.pendingIn <= s.len)
    ensures var o := Round(s, rest, room, true, comp, i, copyMore, start);
      o.ok ==> o.s.pendingOut > 0
    decreases |rest| + s.pendingIn, 0
  {
    hide Rounds, Round, Turn;
    if From(s, start) + s.pendingIn > s.len {
      Overrun(s, rest, room, true, comp, i, copyMore, start);
      return;
    }
    RoundStep(s, rest, room, true, comp, i, copyMore, start);
    var a := Ask(s, rest, true, comp, i, From(s, start));
    var t, m := Turn(s, From(s, start), a, room), Min(room, |a.output|);
    TurnRoom(s, From(s, start), a, room);
    if !Failed(a) && t.pendingIn > 0 {
      RoundsTold(t, rest, room - m, comp, i + 1, copyMore, From(s, start) + a.consumed);
    } else if !Failed(a) && |rest| > 0 {
      RoundsTold(t, rest, room - m, comp, i + 1, true, 0);
    }
  }

  /** A last call that asks the compressor and leaves no output behind has told it that the data ends. */
  lemma ToldAtEnd(s: Strm, input: seq<byte>, room: nat, comp: Compressor)
    requires Sound(s) && Contract(comp, s.len) && FailsAtEnd(comp) && Asks(s, room, |input|, true)
    ensures var o := Call(s, input, room, true, comp); o.ok ==> o.s.pendingOut > 0
  {
    hide Call, Rounds, Drained;
    DrainedFields(s, room);
    CallStarts(s, input, room, true, comp);
    RoundsTold(Drained(s, room), input, room - s.pendingOut, comp, 0, true, 0);
  }
}
