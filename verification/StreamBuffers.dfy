/** The streaming interface as the code has it: two buffers and their offsets, updated in place. Every
    method is proved to do what the functions of StreamCalls say. */
module StreamBuffers {
  import opened Bytes
  import opened StreamCalls
  import StreamEnds
  import StreamOrder

  class Stream {
    const bufLen: nat
    const inBuf: array<byte>
    const outBuf: array<byte>
    var inOffset: nat
    var outOffset: nat
    var flushMore: bool
    var pendingIn: nat
    var pendingOut: nat
    // history of all calls so far
    ghost var taken: seq<byte>         // user bytes reported as consumed
    ghost var eaten: seq<byte>         // bytes the compressor has used
    ghost var outputs: seq<byte>       // bytes the compressor has produced
    ghost var delivered: seq<byte>     // bytes handed to the user

    ghost function View(): Strm
      reads this, inBuf, outBuf
    {
      Strm(bufLen, inBuf[..], outBuf[..], inOffset, outOffset, flushMore, pendingIn, pendingOut,
           taken, eaten, outputs, delivered)
    }

    ghost predicate InCall()
      reads this, inBuf, outBuf
    {
      inBuf != outBuf && Bounded(View())
    }

    /** Between two calls: the offsets stay inside the buffers and the accounts balance. */
    ghost predicate Valid()
      reads this, inBuf, outBuf
    {
      inBuf != outBuf && Sound(View()) && Balanced(View())
    }

    /** initStream. */
    constructor (n: nat)
      requires n > 0
      ensures Valid() && fresh(inBuf) && fresh(outBuf) && View() == StreamOrder.Fresh(n)
    {
      bufLen, inBuf, outBuf := n, new byte[n](_ => 0), new byte[n](_ => 0);
      inOffset, outOffset, flushMore, pendingIn, pendingOut := 0, 0, false, 0, 0;
      taken, eaten, outputs, delivered := [], [], [], [];
      new;
      assert inBuf[..] == outBuf[..] == StreamOrder.Zeros(n);
    }

    /** d into a buffer from offset at on. */
    static method Store(buf: array<byte>, at: nat, d: seq<byte>)
      requires at + |d| <= buf.Length
      modifies buf
      ensures buf[..] == Stored(old(buf[..]), at, d)
    {
      forall k | 0 <= k < |d| { buf[at + k] := d[k]; }
    }

    /** copyStreamInput: n bytes of rest go behind the first pending_in bytes of the buffer, and no other
        cell changes. */
    method CopyStreamInput(rest: seq<byte>) returns (n: nat)
      requires InCall()
      modifies this`pendingIn, this`taken, inBuf
      ensures InCall() && View() == CopyIn(old(View()), rest) && n <= |rest| && rest[n..] == Uncopied(old(View()), rest)
    {
      var availIn := bufLen - pendingIn;
      n := if |rest| > availIn then availIn else |rest|;
      Store(inBuf, pendingIn, rest[..n]);
      pendingIn := pendingIn + n;
      taken := taken + rest[..n];
    }

    /** copyStreamOutput. */
    method CopyStreamOutput(room: nat) returns (out: seq<byte>)
      requires InCall()
      modifies this`outOffset, this`pendingOut, this`delivered
      ensures InCall() && View() == CopyOut(old(View()), room) && delivered == old(delivered) + out
      ensures |out| == Min(old(pendingOut), room)
    {
      var n := if pendingOut > room then room else pendingOut;
      out := outBuf[outOffset..outOffset + n];
      assert out == Part(outBuf[..], outOffset, n);
      pendingOut := pendingOut - n;
      outOffset := outOffset + n;
      if pendingOut == 0 { outOffset := 0; }
      delivered := delivered + out;
    }

    /** The first loop of a call: hands out what is left from earlier ones. done: the call ends here. */
    method Drain(inSz: nat, room: nat) returns (out: seq<byte>, done: bool)
      requires InCall()
      modifies this`outOffset, this`pendingOut, this`delivered, this`flushMore
      ensures InCall() && View() == Drained(old(View()), room) && done == EndsDraining(old(View()), room, inSz)
      ensures delivered == old(delivered) + out && |out| == Min(old(pendingOut), room)
    {
      hide CopyOut;
      ghost var s := View();
      out, done := [], false;
      CopyOutNone(s);
      while pendingOut > 0
        invariant InCall() && |out| <= Min(s.pendingOut, room) && View() == CopyOut(s, |out|)
        invariant delivered == s.delivered + out && pendingOut == s.pendingOut - |out| && pendingIn == s.pendingIn
        invariant pendingOut == 0 && s.pendingOut > 0 ==> pendingIn > 0 || inSz > 0
        decreases pendingOut
      {
        CopyOutTwice(s, |out|, room);
        var part := CopyStreamOutput(room - |out|);
        CopyOutFields(s, room);
        out := out + part;
        if |part| == 0 || (pendingOut == 0 && pendingIn == 0 && inSz == 0) {
          if pendingIn > 0 { flushMore := true; }
          done := true;
          return;
        }
      }
      CopyOutFields(s, room);
    }

    static lemma CopyOutNone(s: Strm)
      requires Bounded(s)
      ensures CopyOut(s, 0) == s
    {
      assert s.delivered + Part(s.outBuf, s.outOffset, 0) == s.delivered;
    }

    static lemma CopyOutFields(s: Strm, room: nat)
      requires Bounded(s)
      ensures Bounded(CopyOut(s, room)) && CopyOut(s, room).pendingIn == s.pendingIn
      ensures CopyOut(s, room).pendingOut == s.pendingOut - Min(s.pendingOut, room)
      ensures room >= s.pendingOut ==> CopyOut(s, room) == CopyOut(s, s.pendingOut)
    {
    }

    static lemma CopyOutTwice(s: Strm, n: nat, room: nat)
      requires Bounded(s) && n <= room && n < s.pendingOut
      ensures Bounded(CopyOut(s, n))
      ensures CopyOut(CopyOut(s, n), room - n) == CopyOut(s, n + Min(s.pendingOut - n, room - n)) == CopyOut(s, room)
    {
      hide Part;
      var m := Min(s.pendingOut - n, room - n);
      var t := CopyOut(s, n);
      assert t == s.(pendingOut := s.pendingOut - n, outOffset := s.outOffset + n,
                     delivered := s.delivered + Part(s.outBuf, s.outOffset, n));
      TwoParts(s, n, m);
      assert Min(s.pendingOut, room) == n + m == Min(s.pendingOut, n + m);
    }

    static lemma TwoParts(s: Strm, n: nat, m: nat)
      requires Bounded(s) && n + m <= s.pendingOut
      ensures s.delivered + Part(s.outBuf, s.outOffset, n) + Part(s.outBuf, s.outOffset + n, m)
           == s.delivered + Part(s.outBuf, s.outOffset, n + m)
    {
      PartSplits(s.outBuf, s.outOffset, n, n + m);
    }

    /** One call of the compressor on the pending input, and what can be handed out of its output. */
    method CompressPending(from: nat, room: nat, a: Answer) returns (part: seq<byte>)
      requires InCall() && pendingOut == 0 && from + pendingIn <= bufLen && Permitted(a, pendingIn, bufLen)
      modifies this`flushMore, this`pendingIn, this`pendingOut, this`inOffset, this`outOffset, this`eaten, this`outputs,
               this`delivered, outBuf
      ensures InCall() && View() == Turn(old(View()), from, a, room)
      ensures delivered == old(delivered) + part && |part| == Min(|a.output|, room)
    {
      ghost var s := View();
      flushMore := false;
      eaten := eaten + Part(inBuf[..], from, a.consumed);
      Store(outBuf, 0, a.output);
      outputs := outputs + a.output;
      pendingIn := pendingIn - a.consumed;
      pendingOut := |a.output|;
      inOffset := from + a.consumed;
      assert View() == Squeeze(s, from, a);
      part := CopyStreamOutput(room);
    }

    /** Copies more input behind what is pending; done: there is not enough of it yet. */
    method Refill(rest: seq<byte>, last: bool) returns (n: nat, done: bool)
      requires InCall() && pendingOut == 0 && !flushMore
      modifies this`pendingIn, this`taken, inBuf
      ensures InCall() && View() == CopyIn(old(View()), rest) && n <= |rest| && rest[n..] == Uncopied(old(View()), rest)
      ensures pendingIn == old(pendingIn) + n && (pendingIn == 0 ==> n == |rest|)
      ensures done <==> pendingIn < bufLen && !last
    {
      CopyInFields(View(), rest);
      n := CopyStreamInput(rest);
      done := pendingIn < bufLen && !last;
    }

    /** What follows in a round once the input has been copied. done: the call ends here. */
    method Press(rest: seq<byte>, room: nat, last: bool, comp: Compressor, i: nat, copyMore: bool, start: nat)
      returns (done: bool, ok: bool, overrun: bool, part: seq<byte>, next: nat)
      requires InCall() && pendingOut == 0 && Contract(comp, bufLen) && (pendingIn == 0 ==> |rest| == 0)
      requires flushMore ==> inOffset + pendingIn <= bufLen
      modifies this`flushMore, this`pendingIn, this`pendingOut, this`inOffset, this`outOffset, this`eaten, this`outputs,
               this`delivered, outBuf
      ensures InCall() && |part| <= room && delivered == old(delivered) + part
      ensures done ==>
                Round(old(View()), rest, room, last, comp, i, copyMore, start) == Outcome(View(), ok, rest, overrun)
      ensures !done ==> ok && !overrun && pendingIn < old(pendingIn)
      ensures !done ==> InLoop(View(), copyMore || pendingIn == 0, next)
      ensures !done ==> Round(old(View()), rest, room, last, comp, i, copyMore, start)
                        == Rounds(View(), rest, room - |part|, last, comp, i + 1, copyMore || pendingIn == 0, next)
    {
      hide Turn, Rounds, Round, Contract, Part, Permitted;
      done, ok, overrun, part, next := true, true, false, [], 0;
      var from := if flushMore then inOffset else start;
      if from + pendingIn > bufLen {
        RoundOverrun(View(), rest, room, last, comp, i, copyMore, start);
        ok, overrun := false, true;
        return;
      }
      RoundStep(View(), rest, room, last, comp, i, copyMore, start);
      AskIs(View(), rest, last, comp, i, from);
      var a := comp(i, inBuf[from..from + pendingIn], last && |rest| == 0);
      TurnDecreases(View(), from, a, room);
      part := CompressPending(from, room, a);
      if a.rc.Fail? || (a.rc.BufError? && a.consumed == 0) {
        ok := false;
      } else if pendingIn > 0 || |rest| > 0 {
        done, next := false, if pendingIn == 0 then 0 else from + a.consumed;
      }
    }

    /** One round of the second loop; n bytes of rest are copied in it. */
    method OneRound(rest: seq<byte>, room: nat, last: bool, comp: Compressor, i: nat, copyMore: bool, start: nat)
      returns (done: bool, ok: bool, overrun: bool, n: nat, part: seq<byte>, more: bool, next: nat)
      requires InCall() && pendingOut == 0 && InLoop(View(), copyMore, start) && Contract(comp, bufLen)
      modifies this`inOffset, this`outOffset, this`flushMore, this`pendingIn, this`pendingOut, this`taken, this`eaten,
               this`outputs, this`delivered, inBuf, outBuf
      ensures InCall() && n <= |rest| && |part| <= room && delivered == old(delivered) + part
      ensures done ==>
                Rounds(old(View()), rest, room, last, comp, i, copyMore, start)
                == Outcome(View(), ok, rest[n..], overrun)
      ensures !done ==> ok && !overrun && |rest| - n + pendingIn < |rest| + old(pendingIn) && InLoop(View(), more, next)
      ensures !done ==> Rounds(old(View()), rest, room, last, comp, i, copyMore, start)
                        == Rounds(View(), rest[n..], room - |part|, last, comp, i + 1, more, next)
    {
      hide CopyIn, Rounds, Round, Contract, Uncopied;
      RoundsStep(View(), rest, room, last, comp, i, copyMore, start);
      done, ok, overrun, n, part, more, next := false, true, false, 0, [], copyMore, start;
      assert rest[0..] == rest;
      if copyMore && !flushMore {
        n, done := Refill(rest, last);
        more := false;
      }
      if !done {
        done, ok, overrun, part, next := Press(rest[n..], room, last, comp, i, more, start);
        if pendingIn == 0 { more := true; }
      }
    }

    /** qzCompressStream on a stream that has been set up. comp is the block compressor during the call.
        overrun: the code would read past its input buffer. */
    method CompressStream(input: seq<byte>, room: nat, last: bool, comp: Compressor)
      returns (ok: bool, copied: nat, out: seq<byte>, overrun: bool)
      requires Valid() && Contract(comp, bufLen)
      modifies this`inOffset, this`outOffset, this`flushMore, this`pendingIn, this`pendingOut, this`taken, this`eaten,
               this`outputs, this`delivered, inBuf, outBuf
      ensures copied <= |input|
      ensures Outcome(View(), ok, input[copied..], overrun) == Call(old(View()), input, room, last, comp)
      ensures Valid() && delivered == old(delivered) + out && |out| <= room && taken == old(taken) + input[..copied]
      ensures !StreamEnds.Asks(old(View()), room, |input|, last) ==>
                StreamEnds.OnlyCopies(old(View()), input, room, Outcome(View(), ok, input[copied..], overrun))
      ensures ok ==> StreamEnds.EndsWell(old(View()), room, last, Outcome(View(), ok, input[copied..], overrun))
    {
      hide StreamEnds.Asks, StreamEnds.OnlyCopies, StreamEnds.EndsWell;
      hide Rounds, Call, Balanced, Contract, Drained;
      ghost var s := View();
      ok, copied, overrun := true, 0, false;
      var done;
      out, done := Drain(|input|, room);
      assert input[0..] == input;
      CallStarts(s, input, room, last, comp);
      var copyMore, start: nat, i: nat := true, 0, 0;
      while !done && pendingOut == 0
        invariant InCall() && copied <= |input| && |out| <= room && delivered == s.delivered + out
        invariant !done ==> ok && !overrun && InLoop(View(), copyMore, start)
        invariant !done ==> Call(s, input, room, last, comp)
                            == Rounds(View(), input[copied..], room - |out|, last, comp, i, copyMore, start)
        invariant done ==> Call(s, input, room, last, comp) == Outcome(View(), ok, input[copied..], overrun)
        decreases !done, |input| - copied + pendingIn
      {
        var n, part;
        done, ok, overrun, n, part, copyMore, start :=
          OneRound(input[copied..], room - |out|, last, comp, i, copyMore, start);
        assert input[copied..][n..] == input[copied + n..];
        copied, out, i := copied + n, out + part, i + 1;
      }
      if !done { RoundsStep(View(), input[copied..], room - |out|, last, comp, i, copyMore, start); }
      Accounted(s, input, room, last, comp, copied);
      StreamEnds.AskedIff(s, input, room, last, comp);
      StreamEnds.CallEnds(s, input, room, last, comp);
    }
  }

  lemma CopyInFields(s: Strm, rest: seq<byte>)
    requires Bounded(s)
    ensures var t, u := CopyIn(s, rest), Uncopied(s, rest);
      && t.pendingIn + |u| == s.pendingIn + |rest| && t.pendingOut == s.pendingOut && t.flushMore == s.flushMore
      && (t.pendingIn == 0 ==> |u| == 0)
  {
  }

  lemma RoundOverrun(
    s: Strm, rest: seq<byte>, room: nat, last: bool, comp: Compressor, i: nat, copyMore: bool, start: nat)
    requires Bounded(s) && s.pendingOut == 0 && Contract(comp, s.len) && (s.pendingIn == 0 ==> |rest| == 0)
    requires s.flushMore ==> s.inOffset + s.pendingIn <= s.len
    requires From(s, start) + s.pendingIn > s.len
    ensures Round(s, rest, room, last, comp, i, copyMore, start) == Outcome(s, false, rest, true)
  {
  }

  lemma AskIs(s: Strm, rest: seq<byte>, last: bool, comp: Compressor, i: nat, from: nat)
    requires Bounded(s) && from + s.pendingIn <= s.len && Contract(comp, s.len)
    ensures Ask(s, rest, last, comp, i, from) == comp(i, s.inBuf[from..from + s.pendingIn], last && |rest| == 0)
  {
  }

  lemma TurnDecreases(s: Strm, from: nat, a: Answer, room: nat)
    requires Bounded(s) && s.pendingOut == 0 && from + s.pendingIn <= s.len && Permitted(a, s.pendingIn, s.len)
    ensures Turn(s, from, a, room).pendingIn == s.pendingIn - a.consumed
    ensures !Failed(a) && s.pendingIn > 0 ==> a.consumed > 0
  {
  }
}
