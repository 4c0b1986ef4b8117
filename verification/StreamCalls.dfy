/** The streaming interface over the block compressor as a function of a call: what one call does to
    the two buffers and their offsets, when it keeps the order of the user's bytes, and what holds of
    any run of calls. */
module StreamCalls {
  import opened Bytes

  datatype Status = Ok | BufError | Fail

  /** What the block compressor answers: how much of its input it used, and what it produced. */
  datatype Answer = Answer(rc: Status, consumed: nat, output: seq<byte>)

  /** The compressor during one call: it may depend on the number of the round, on the bytes it is
      given and on whether they are the last ones. */
  type Compressor = (nat, seq<byte>, bool) -> Answer

  /** It uses no more than it is given, fills at most one buffer, uses something when it succeeds, and
      a chunk that was used has left its frame in the output. */
  predicate Permitted(a: Answer, given: nat, len: nat) {
    && a.consumed <= given && |a.output| <= len
    && (a.rc.Ok? && given > 0 ==> a.consumed > 0)
    && (!a.rc.Fail? && a.consumed > 0 ==> |a.output| > 0)
  }

  ghost predicate Contract(comp: Compressor, len: nat) {
    forall i: nat, d: seq<byte>, l: bool :: Permitted(comp(i, d, l), |d|, len)
  }

  /** A stream, and as history the user's bytes it has accepted, the bytes the compressor has used,
      what the compressor has produced and what was handed out of that. */
  datatype Strm = Strm(
    len: nat, inBuf: seq<byte>, outBuf: seq<byte>, inOffset: nat, outOffset: nat, flushMore: bool,
    pendingIn: nat, pendingOut: nat,
    taken: seq<byte>, eaten: seq<byte>, outputs: seq<byte>, delivered: seq<byte>)

  function Min(a: nat, b: nat): nat { if a < b then a else b }

  /** p bytes of a buffer from offset a on. */
  function Part(buf: seq<byte>, a: nat, p: nat): (r: seq<byte>)
    requires a + p <= |buf|
    ensures |r| == p
  {
    buf[a..a + p]
  }

  /** d stored in a buffer at offset at. */
  function Stored(buf: seq<byte>, at: nat, d: seq<byte>): (r: seq<byte>)
    requires at + |d| <= |buf|
    ensures |r| == |buf| && Part(r, at, |d|) == d
    ensures forall k :: 0 <= k < at || at + |d| <= k < |buf| ==> r[k] == buf[k]
  {
    buf[..at] + d + buf[at + |d|..]
  }

  // ---- the pieces of a call ----

  /** The sizes of the buffers and the bytes that are waiting in them. */
  predicate Bounded(s: Strm) {
    && s.len > 0 && |s.inBuf| == |s.outBuf| == s.len
    && s.inOffset <= s.len && s.pendingIn <= s.len && s.outOffset + s.pendingOut <= s.len
    && (s.pendingOut == 0 ==> s.outOffset == 0)
  }

  /** Between two calls. */
  predicate Sound(s: Strm) {
    && Bounded(s)
    && (s.pendingIn > 0 && s.pendingOut > 0 ==> s.inOffset + s.pendingIn <= s.len)
    && (s.flushMore ==> s.pendingIn > 0 && s.pendingOut > 0)
  }

  /** copyStreamInput: as much as fits, stored behind pending_in wherever the pending input starts. */
  function CopyIn(s: Strm, rest: seq<byte>): Strm
    requires Bounded(s)
  {
    var n := Min(|rest|, s.len - s.pendingIn);
    s.(inBuf := Stored(s.inBuf, s.pendingIn, rest[..n]), pendingIn := s.pendingIn + n, taken := s.taken + rest[..n])
  }

  function Uncopied(s: Strm, rest: seq<byte>): seq<byte>
    requires Bounded(s)
  {
    rest[Min(|rest|, s.len - s.pendingIn)..]
  }

  /** copyStreamOutput: hands out what fits; an emptied buffer starts over. */
  function CopyOut(s: Strm, room: nat): Strm
    requires Bounded(s)
  {
    var n := Min(s.pendingOut, room);
    s.(pendingOut := s.pendingOut - n, outOffset := if n == s.pendingOut then 0 else s.outOffset + n,
       delivered := s.delivered + Part(s.outBuf, s.outOffset, n))
  }

  /** One call of the compressor on the pending input, taken to lie at offset start. */
  function Squeeze(s: Strm, start: nat, a: Answer): Strm
    requires Bounded(s) && s.pendingOut == 0 && start + s.pendingIn <= s.len && Permitted(a, s.pendingIn, s.len)
  {
    s.(flushMore := false, pendingIn := s.pendingIn - a.consumed, inOffset := start + a.consumed,
       pendingOut := |a.output|, outBuf := Stored(s.outBuf, 0, a.output),
       eaten := s.eaten + Part(s.inBuf, start, a.consumed), outputs := s.outputs + a.output)
  }

  /** The compressor is asked about the pending input. */
  function Ask(s: Strm, rest: seq<byte>, last: bool, comp: Compressor, i: nat, from: nat): (a: Answer)
    requires Bounded(s) && from + s.pendingIn <= s.len && Contract(comp, s.len)
    ensures Permitted(a, s.pendingIn, s.len)
  {
    var given := Part(s.inBuf, from, s.pendingIn);
    assert Permitted(comp(i, given, last && |rest| == 0), |given|, s.len);
    comp(i, given, last && |rest| == 0)
  }

  /** Its answer, and what of that can be handed out at once. */
  function Turn(s: Strm, from: nat, a: Answer, room: nat): (t: Strm)
    requires Bounded(s) && s.pendingOut == 0 && from + s.pendingIn <= s.len && Permitted(a, s.pendingIn, s.len)
    ensures Bounded(t) && t.pendingIn == s.pendingIn - a.consumed && t.inOffset == from + a.consumed
    ensures t.pendingOut == |a.output| - Min(room, |a.output|)
  {
    CopyOut(Squeeze(s, from, a), room)
  }

  /** What a call leaves: overrun, the code would read past its input buffer; rest, input not copied. */
  datatype Outcome = Outcome(s: Strm, ok: bool, rest: seq<byte>, overrun: bool)

  /** The first loop: hands out what earlier calls have left. */
  function Drained(s: Strm, room: nat): Strm
    requires Bounded(s)
  {
    var t := CopyOut(s, room);
    if room < s.pendingOut && s.pendingIn > 0 then t.(flushMore := true) else t
  }

  predicate EndsDraining(s: Strm, room: nat, inSz: nat) {
    s.pendingOut > 0 && (room < s.pendingOut || (s.pendingIn == 0 && inSz == 0))
  }

  /** At the head of the second loop. */
  predicate InLoop(s: Strm, copyMore: bool, start: nat) {
    && Bounded(s) && (s.pendingIn == 0 ==> copyMore && !s.flushMore && start == 0)
    && (s.pendingOut > 0 && s.pendingIn > 0 ==> s.inOffset + s.pendingIn <= s.len && start == s.inOffset)
    && (s.pendingOut > 0 ==> !s.flushMore)
    && (s.flushMore ==> s.inOffset + s.pendingIn <= s.len && start == 0)
    && (start > 0 && s.pendingOut == 0 ==> start == s.inOffset && start + s.pendingIn <= s.len)
  }

  /** Where the next round takes the pending input to lie. */
  function From(s: Strm, start: nat): nat { if s.flushMore then s.inOffset else start }

  /** Where a round goes when it has failed, ended the call, or neither. */
  predicate Failed(a: Answer) { a.rc.Fail? || (a.rc.BufError? && a.consumed == 0) }

  /** The round copies more input first. */
  predicate Fills(s: Strm, copyMore: bool) { copyMore && !s.flushMore }

  /** The second loop, from a round on: copies more input unless some is left from before, compresses,
      and hands out. */
  function Rounds(
    s: Strm, rest: seq<byte>, room: nat, last: bool, comp: Compressor, i: nat, copyMore: bool, start: nat): (o: Outcome)
    requires InLoop(s, copyMore, start) && Contract(comp, s.len)
    decreases |rest| + s.pendingIn, 1
  {
    if s.pendingOut > 0 then Outcome(s, true, rest, false)
    else if Fills(s, copyMore) then
      var s1, rest1 := CopyIn(s, rest), Uncopied(s, rest);
      if s1.pendingIn < s1.len && !last then Outcome(s1, true, rest1, false)
      else Round(s1, rest1, room, last, comp, i, false, start)
    else Round(s, rest, room, last, comp, i, copyMore, start)
  }

  /** What follows once the input has been copied. */
  function Round(
    s: Strm, rest: seq<byte>, room: nat, last: bool, comp: Compressor, i: nat, copyMore: bool, start: nat): (o: Outcome)
    requires Bounded(s) && s.pendingOut == 0 && Contract(comp, s.len) && (s.pendingIn == 0 ==> |rest| == 0)
    requires s.flushMore ==> s.inOffset + s.pendingIn <= s.len
    decreases |rest| + s.pendingIn, 0
  {
    if From(s, start) + s.pendingIn > s.len then Outcome(s, false, rest, true)
    else
      var a := Ask(s, rest, last, comp, i, From(s, start));
      var t := Turn(s, From(s, start), a, room);
      if Failed(a) then Outcome(t, false, rest, false)
      else if t.pendingIn > 0
      then Rounds(t, rest, room - Min(room, |a.output|), last, comp, i + 1, copyMore, From(s, start) + a.consumed)
      else if |rest| == 0 then Outcome(t, true, rest, false)
      else Rounds(t, rest, room - Min(room, |a.output|), last, comp, i + 1, true, 0)
  }

  /** qzCompressStream on a stream that has been set up. */
  function Call(s: Strm, input: seq<byte>, room: nat, last: bool, comp: Compressor): Outcome
    requires Sound(s) && Contract(comp, s.len)
  {
    if EndsDraining(s, room, |input|) then Outcome(Drained(s, room), true, input, false)
    else Rounds(Drained(s, room), input, room - s.pendingOut, last, comp, 0, true, 0)
  }

  // ---- the accounts ----

  /** Bytes reported as consumed are those the compressor has used and those that are pending; what was
      handed out and what is pending is the compressor's output in order. */
  predicate Balanced(s: Strm)
    requires Bounded(s)
  {
    && |s.taken| == |s.eaten| + s.pendingIn
    && s.delivered + Part(s.outBuf, s.outOffset, s.pendingOut) == s.outputs
  }

  lemma PartSplits(buf: seq<byte>, a: nat, n: nat, p: nat)
    requires n <= p && a + p <= |buf|
    ensures Part(buf, a, p) == Part(buf, a, n) + Part(buf, a + n, p - n)
  {
  }

  /** copyStreamOutput keeps the accounts and hands out no more than there is room for. */
  lemma CopyOutKeeps(s: Strm, room: nat)
    requires Bounded(s) && Balanced(s)
    ensures var t := CopyOut(s, room);
      && Bounded(t) && Balanced(t) && |t.delivered| == |s.delivered| + Min(s.pendingOut, room)
      && s.delivered <= t.delivered
  {
    var n := Min(s.pendingOut, room);
    PartSplits(s.outBuf, s.outOffset, n, s.pendingOut);
    var a, b := Part(s.outBuf, s.outOffset, n), Part(s.outBuf, s.outOffset + n, s.pendingOut - n);
    assert s.delivered + (a + b) == s.delivered + a + b;
  }

  lemma SqueezeKeeps(s: Strm, start: nat, a: Answer)
    requires Bounded(s) && s.pendingOut == 0 && start + s.pendingIn <= s.len && Permitted(a, s.pendingIn, s.len)
    requires Balanced(s)
    ensures Bounded(Squeeze(s, start, a)) && Balanced(Squeeze(s, start, a))
  {
    assert s.delivered + [] == s.delivered;
  }

  lemma TurnKeeps(s: Strm, from: nat, a: Answer, room: nat)
    requires Bounded(s) && s.pendingOut == 0 && from + s.pendingIn <= s.len && Permitted(a, s.pendingIn, s.len)
    requires Balanced(s)
    ensures var t := Turn(s, from, a, room);
      && Balanced(t) && t.taken == s.taken && t.len == s.len && !t.flushMore && t.inBuf == s.inBuf
      && s.delivered <= t.delivered && |t.delivered| == |s.delivered| + Min(room, |a.output|)
      && t.eaten == s.eaten + Part(s.inBuf, from, a.consumed)
  {
    hide Stored, Part;
    SqueezeKeeps(s, from, a);
    CopyOutKeeps(Squeeze(s, from, a), room);
  }

  /** What a part of a call may do: nothing is lost, and the room is respected. */
  ghost predicate Accounts(s: Strm, rest: seq<byte>, room: nat, o: Outcome) {
    && Sound(o.s) && Balanced(o.s) && o.s.len == s.len
    && (exists n: nat :: n <= |rest| && o.rest == rest[n..] && o.s.taken == s.taken + rest[..n])
    && s.delivered <= o.s.delivered && |o.s.delivered| <= |s.delivered| + room
  }

  lemma AccountsFrom(s: Strm, rest: seq<byte>, room: nat, t: Strm, n: nat, m: nat, o: Outcome)
    requires n <= |rest| && t.len == s.len && t.taken == s.taken + rest[..n] && s.delivered <= t.delivered
    requires m <= room && |t.delivered| == |s.delivered| + m && Accounts(t, rest[n..], room - m, o)
    ensures Accounts(s, rest, room, o)
  {
    var k: nat :| k <= |rest[n..]| && o.rest == rest[n..][k..] && o.s.taken == t.taken + rest[n..][..k];
    assert rest[n..][k..] == rest[n + k..];
    assert s.taken + rest[..n] + rest[n..][..k] == s.taken + rest[..n + k];
  }

  lemma AccountsHere(s: Strm, rest: seq<byte>, room: nat, ok: bool, overrun: bool)
    requires Sound(s) && Balanced(s)
    ensures Accounts(s, rest, room, Outcome(s, ok, rest, overrun))
  {
    assert rest[0..] == rest && s.taken + rest[..0] == s.taken;
  }

  lemma {:induction false} RoundsAccount(
    s: Strm, rest: seq<byte>, room: nat, last: bool, comp: Compressor, i: nat, copyMore: bool, start: nat)
    requires InLoop(s, copyMore, start) && Contract(comp, s.len) && Balanced(s)
    ensures Accounts(s, rest, room, Rounds(s, rest, room, last, comp, i, copyMore, start))
    decreases |rest| + s.pendingIn, 1
  {
    hide Accounts, Balanced;
    if s.pendingOut > 0 {
      AccountsHere(s, rest, room, true, false);
    } else if Fills(s, copyMore) {
      var s1, rest1, n := CopyIn(s, rest), Uncopied(s, rest), Min(|rest|, s.len - s.pendingIn);
      CopyInKeeps(s, rest);
      if s1.pendingIn < s1.len && !last { AccountsHere(s1, rest1, room, true, false); }
      else { RoundAccounts(s1, rest1, room, last, comp, i, false, start); }
      AccountsFrom(s, rest, room, s1, n, 0, Rounds(s, rest, room, last, comp, i, copyMore, start));
    } else {
      RoundAccounts(s, rest, room, last, comp, i, copyMore, start);
    }
  }

  lemma CopyInKeeps(s: Strm, rest: seq<byte>)
    requires Bounded(s) && Balanced(s)
    ensures Bounded(CopyIn(s, rest)) && Balanced(CopyIn(s, rest))
  {
  }

  lemma {:induction false} RoundAccounts(
    s: Strm, rest: seq<byte>, room: nat, last: bool, comp: Compressor, i: nat, copyMore: bool, start: nat)
    requires Bounded(s) && s.pendingOut == 0 && Contract(comp, s.len) && (s.pendingIn == 0 ==> |rest| == 0)
    requires Balanced(s) && (s.flushMore ==> s.inOffset + s.pendingIn <= s.len)
    ensures Accounts(s, rest, room, Round(s, rest, room, last, comp, i, copyMore, start))
    decreases |rest| + s.pendingIn, 0
  {
    hide Accounts, Balanced, Turn;
    if From(s, start) + s.pendingIn > s.len {
      AccountsHere(s, rest, room, false, true);
    } else {
      var from := From(s, start);
      var a := Ask(s, rest, last, comp, i, from);
      var t, m := Turn(s, from, a, room), Min(room, |a.output|);
      TurnKeeps(s, from, a, room);
      if Failed(a) { AccountsHere(t, rest, room - m, false, false); }
      else if t.pendingIn > 0 { RoundsAccount(t, rest, room - m, last, comp, i + 1, copyMore, from + a.consumed); }
      else if |rest| == 0 { AccountsHere(t, rest, room - m, true, false); }
      else { RoundsAccount(t, rest, room - m, last, comp, i + 1, true, 0); }
      assert rest[0..] == rest && s.taken + rest[..0] == s.taken;
      AccountsFrom(s, rest, room, t, 0, m, Round(s, rest, room, last, comp, i, copyMore, start));
    }
  }

  /** Every call keeps the accounts and the offsets, whatever the compressor answers. */
  lemma CallAccounts(s: Strm, input: seq<byte>, room: nat, last: bool, comp: Compressor)
    requires Sound(s) && Balanced(s) && Contract(comp, s.len)
    ensures Accounts(s, input, room, Call(s, input, room, last, comp))
  {
    hide Accounts, Balanced;
    CopyOutKeeps(s, room);
    var t, m := Drained(s, room), Min(s.pendingOut, room);
    FlagKeeps(s, room);
    assert input[0..] == input && t.taken + input[..0] == t.taken;
    if EndsDraining(s, room, |input|) { AccountsHere(t, input, room - m, true, false); }
    else { RoundsAccount(t, input, room - m, last, comp, 0, true, 0); }
    AccountsFrom(s, input, room, t, 0, m, Call(s, input, room, last, comp));
  }

  lemma FlagKeeps(s: Strm, room: nat)
    requires Bounded(s) && Balanced(CopyOut(s, room))
    ensures Bounded(Drained(s, room)) && Balanced(Drained(s, room))
  {
  }

  // ---- a call step by step ----

  lemma CallStarts(s: Strm, input: seq<byte>, room: nat, last: bool, comp: Compressor)
    requires Sound(s) && Contract(comp, s.len)
    ensures var t := Drained(s, room);
      if EndsDraining(s, room, |input|) then Call(s, input, room, last, comp) == Outcome(t, true, input, false)
      else InLoop(t, true, 0) && room >= s.pendingOut
           && Call(s, input, room, last, comp) == Rounds(t, input, room - s.pendingOut, last, comp, 0, true, 0)
  {
    hide Rounds;
  }

  lemma RoundsStep(
    s: Strm, rest: seq<byte>, room: nat, last: bool, comp: Compressor, i: nat, copyMore: bool, start: nat)
    requires InLoop(s, copyMore, start) && Contract(comp, s.len)
    ensures var o, u := Rounds(s, rest, room, last, comp, i, copyMore, start), CopyIn(s, rest);
      && (s.pendingOut > 0 ==> o == Outcome(s, true, rest, false))
      && (s.pendingOut == 0 && !Fills(s, copyMore) ==> o == Round(s, rest, room, last, comp, i, copyMore, start))
      && (s.pendingOut == 0 && Fills(s, copyMore) && u.pendingIn < u.len && !last ==>
            o == Outcome(u, true, Uncopied(s, rest), false))
      && (s.pendingOut == 0 && Fills(s, copyMore) && (u.pendingIn >= u.len || last) ==>
            o == Round(u, Uncopied(s, rest), room, last, comp, i, false, start))
  {
    hide Round;
  }

  lemma RoundStep(
    s: Strm, rest: seq<byte>, room: nat, last: bool, comp: Compressor, i: nat, copyMore: bool, start: nat)
    requires Bounded(s) && s.pendingOut == 0 && Contract(comp, s.len) && (s.pendingIn == 0 ==> |rest| == 0)
    requires s.flushMore ==> s.inOffset + s.pendingIn <= s.len
    requires From(s, start) + s.pendingIn <= s.len
    ensures var from := From(s, start);
      var a := Ask(s, rest, last, comp, i, from);
      var t, o := Turn(s, from, a, room), Round(s, rest, room, last, comp, i, copyMore, start);
      && (Failed(a) ==> o == Outcome(t, false, rest, false))
      && (!Failed(a) && t.pendingIn > 0 ==>
            InLoop(t, copyMore, from + a.consumed)
            && o == Rounds(t, rest, room - Min(room, |a.output|), last, comp, i + 1, copyMore, from + a.consumed))
      && (!Failed(a) && t.pendingIn == 0 && |rest| == 0 ==> o == Outcome(t, true, rest, false))
      && (!Failed(a) && t.pendingIn == 0 && |rest| > 0 ==>
            InLoop(t, true, 0)
            && o == Rounds(t, rest, room - Min(room, |a.output|), last, comp, i + 1, true, 0))
  {
    hide Rounds;
  }

  lemma Accounted(s: Strm, input: seq<byte>, room: nat, last: bool, comp: Compressor, copied: nat)
    requires Sound(s) && Balanced(s) && Contract(comp, s.len) && copied <= |input|
    requires Call(s, input, room, last, comp).rest == input[copied..]
    ensures var t := Call(s, input, room, last, comp).s;
      Sound(t) && Balanced(t) && t.len == s.len && t.taken == s.taken + input[..copied]
  {
    hide Call;
    CallAccounts(s, input, room, last, comp);
    var o := Call(s, input, room, last, comp);
    var n: nat :| n <= |input| && o.rest == input[n..] && o.s.taken == s.taken + input[..n];
    assert |o.rest| == |input| - n;
  }
}
