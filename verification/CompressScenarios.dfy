/** Runs built step by step: what is needed to show that a session can get into a certain state. */
module CompressScenarios {
  import opened Bytes
  import opened Crc32
  import opened Formats
  import opened CompressProtocol
  import opened CompressInvariant
  import opened CompressRuns

  /** Between two steps: sent chunks handed over, acked given back, log delivered, left counted as
      the space that is left, nothing dropped so far. */
  ghost predicate Stands(
    c: Config, s: State, log: seq<Rec>, left: int, sent: nat, acked: nat, spc: SubmitPc, rpc: RetrievePc)
  {
    && Reachable(c, s) && s.spc == spc && s.rpc == rpc
    && s.sess.seqNo == sent && s.sess.seqIn == acked && s.sess.stat.Ok? && !s.sess.stopSubmitting
    && s.out.log == log && s.out.avail == left && !s.out.dropped && !s.out.late
  }

  /** The first slot is busy with chunk k, in its own destination buffer. */
  predicate Carries(c: Config, s: State, k: nat)
    requires c.Sized()
  {
    HasSlot(s, 0) &&
    var x := s.slots[0];
    x.seqNo == k && x.data == c.Chunk(k) && x.room == c.Room(|c.Chunk(k)|) && !x.zeroCopy
  }

  lemma Take(c: Config, s: State, a: Step) returns (t: State)
    requires Reachable(c, s) && Enabled(c, s, a)
    ensures t == Apply(c, s, a) && Reachable(c, t)
  {
    hide Apply, Enabled, Reachable;
    t := Apply(c, s, a);
    ReachableNext(c, s, a);
  }

  lemma Shape(c: Config, s: State)
    requires Reachable(c, s)
    ensures c.Valid() && WellFormed(c, s) && HasSlot(s, 0) && s.sess.seqIn >= 0
    ensures s.sess.seqNo >= 0 && s.srcPos == c.Start(s.sess.seqNo)
  {
    ReachableInv(c, s);
  }

  /** With nothing under way the first slot is free. */
  lemma FirstIsFree(c: Config, s: State)
    requires Reachable(c, s) && s.spc.Loop? && s.rpc.Poll? && s.sess.seqNo == s.sess.seqIn
    ensures HasSlot(s, 0) && s.slots[0].Free()
  {
    ReachableInv(c, s);
    assert PhaseOk(s, 0);
    assert !Keyed(s, 0);
  }

  function Blank(): Slot {
    Slot(0, 0, 0, 0, 0, [], 0, false, 0, false, [], Results(0, 0, Zero()))
  }

  lemma InitExists(c: Config) returns (s: State)
    requires c.Valid()
    ensures Init(c, s)
  {
    hide Config.Valid;
    var mem: Data := seq(c.destSz, _ => 0);
    s := State(seq(c.slotCount, _ => Blank()), {}, [], Session(0, 0, 0, 0, false, false, Ok),
               Output(mem, 0, 0, 0, c.crc0, c.destSz, [], false, false), Loop, 0, Starting);
  }

  lemma Begin(c: Config) returns (s: State)
    requires c.Valid()
    ensures Stands(c, s, [], c.destSz, 0, 0, Loop, Poll)
  {
    hide Reachable;
    s := InitExists(c);
    ReachableInit(c, s);
    s := Take(c, s, RStart);
  }

  lemma ClaimFirst(c: Config, s: State, log: seq<Rec>, left: int) returns (t: State)
    requires Stands(c, s, log, left, |log|, |log|, Loop, Poll)
    ensures Stands(c, t, log, left, |log|, |log|, Claimed(0), Poll)
  {
    hide Reachable;
    FirstIsFree(c, s);
    Shape(c, s);
    t := Take(c, s, SFind(0));
    t := Take(c, t, SClaim);
  }

  lemma PostFirst(c: Config, s: State, log: seq<Rec>, left: int) returns (t: State)
    requires Stands(c, s, log, left, |log|, |log|, Claimed(0), Poll)
    ensures c.Sized() && Stands(c, t, log, left, |log|, |log|, Posted(0), Poll) && Carries(c, t, |log|)
  {
    hide Reachable;
    Shape(c, s);
    t := Take(c, s, SSetup(false));
    t := Take(c, t, SPost);
  }

  lemma SendFirst(c: Config, s: State, log: seq<Rec>, left: int) returns (t: State)
    requires c.Sized() && Stands(c, s, log, left, |log|, |log|, Posted(0), Poll) && Carries(c, s, |log|)
    ensures Stands(c, t, log, left, |log| + 1, |log|, Counting, Poll) && Carries(c, t, |log|) && 0 in t.hw
  {
    hide Reachable;
    Shape(c, s);
    t := Take(c, s, SSendOk);
    Shape(c, t);
    t := Take(c, t, SIncSeq);
  }

  lemma NextRound(c: Config, s: State, log: seq<Rec>, left: int) returns (t: State)
    requires c.Sized() && Stands(c, s, log, left, |log| + 1, |log|, Counting, Poll) && Carries(c, s, |log|) && 0 in s.hw
    requires Sendable(c, |log| + 1)
    ensures Stands(c, t, log, left, |log| + 1, |log|, Loop, Poll) && Carries(c, t, |log|) && 0 in t.hw
  {
    hide Reachable;
    Shape(c, s);
    t := Take(c, s, SIncSubmitted);
    Shape(c, t);
    t := Take(c, t, SCheck);
  }

  /** A response the hardware or, after a failure, the software may give. */
  predicate Possible(c: Config, r: Rec)
    requires c.Sized()
  {
    GoodRec(c, r) && (r.Sw? ==> |r.frame| <= c.destSz)
  }

  /** The chunk comes back with r: from the hardware, or failed and about to be done in software. */
  ghost predicate AtHandFirst(c: Config, s: State, r: Rec)
    requires c.Sized()
  {
    Carries(c, s, r.chunk) && s.slots[0].Done() && s.slots[0].ok == r.Hw?
    && (r.Hw? ==> s.slots[0].buf == r.payload && s.slots[0].res == ResultOf(c, r.chunk, r.payload))
  }

  lemma Completes(c: Config, s: State, log: seq<Rec>, left: int, spc: SubmitPc, r: Rec) returns (t: State)
    requires c.Sized() && Stands(c, s, log, left, |log| + 1, |log|, spc, Poll) && Carries(c, s, |log|) && 0 in s.hw
    requires r.chunk == |log| && Possible(c, r)
    ensures Stands(c, t, log, left, |log| + 1, |log|, spc, Poll) && AtHandFirst(c, t, r)
  {
    hide Reachable, Write, Crc;
    Shape(c, s);
    CallbackNeverFlowError(c, s, 0);
    if r.Hw? { t := Take(c, s, HDone(0, r.payload)); } else { t := Take(c, s, HError(0)); }
  }

  lemma ComeBack(c: Config, s: State, log: seq<Rec>, left: int, spc: SubmitPc, r: Rec) returns (t: State)
    requires c.Sized() && Stands(c, s, log, left, |log| + 1, |log|, spc, Poll) && Carries(c, s, |log|) && 0 in s.hw
    requires r.chunk == |log| && Possible(c, r)
    ensures Stands(c, t, log, left, |log| + 1, |log|, spc, Got(0)) && AtHandFirst(c, t, r)
  {
    hide Reachable, Write, Crc, ResultOf;
    t := Completes(c, s, log, left, spc, r);
    Shape(c, t);
    t := Take(c, t, RMatch(0));
  }

  function AnswerWith(r: Rec): Step {
    match r case Hw(_, _) => RDeliver case Sw(_, frame) => RDeliverSw(frame)
  }

  lemma RecSize(c: Config, r: Rec)
    requires c.Valid()
    ensures |FrameOf(c, r)| == if r.Hw? then c.hdrSz + |r.payload| + c.ftrSz else |r.frame|
  {
  }

  lemma CanAnswer(c: Config, s: State, log: seq<Rec>, left: int, r: Rec)
    requires c.Valid() && Stands(c, s, log, left, |log| + 1, |log|, s.spc, Got(0)) && AtHandFirst(c, s, r)
    requires r.chunk == |log| && Possible(c, r)
    ensures Enabled(c, s, AnswerWith(r))
    ensures r.Hw? ==> s.slots[0].buf == r.payload && s.slots[0].res.produced == |r.payload|
  {
    hide Reachable, Config.Chunk, Crc, DestSz;
    Shape(c, s);
    if r.Hw? { assert Enabled(c, s, RDeliver); } else { assert Enabled(c, s, RDeliverSw(r.frame)); }
  }

  /** The response is delivered when it fits and dropped when it does not. */
  lemma AnswerFirst(c: Config, s: State, log: seq<Rec>, left: int, r: Rec) returns (t: State)
    requires c.Sized() && Stands(c, s, log, left, |log| + 1, |log|, s.spc, Got(0)) && AtHandFirst(c, s, r)
    requires r.chunk == |log| && Possible(c, r)
    ensures var n := |FrameOf(c, r)|;
      var short := n > left;
      && Reachable(c, t) && t.spc == s.spc && t.rpc == Handled(0, short) && t.sess == s.sess
      && t.out.dropped == short && !t.out.late && t.out.log == (if short then log else log + [r])
      && t.out.avail == left - n
  {
    hide Reachable, Apply, Enabled, FrameOf, AtHandFirst, Possible;
    Shape(c, s);
    RecSize(c, r);
    CanAnswer(c, s, log, left, r);
    t := Take(c, s, AnswerWith(r));
    AnswerEffect(c, s, AnswerWith(r));
    if r.Hw? { DeliverEffect(c, s); } else { DeliverSwEffect(c, s, r.frame); }
  }

  /** A slot is given back: nothing but the session's count of responses moves. */
  lemma Returns(c: Config, s: State) returns (t: State)
    requires Reachable(c, s) && s.rpc.Handled?
    ensures Reachable(c, t) && t.rpc == (if s.rpc.short then Short else Poll) && t.spc == s.spc && t.out == s.out
    ensures t.sess == s.sess.(processed := s.sess.processed + 1, seqIn := s.sess.seqIn + 1)
  {
    hide Reachable;
    Shape(c, s);
    t := Take(c, s, RFree);
    Shape(c, t);
    t := Take(c, t, RCount);
    Shape(c, t);
    t := Take(c, t, RAck);
  }

  lemma GiveBack(c: Config, s: State, log: seq<Rec>, left: int) returns (t: State)
    requires |log| > 0 && Stands(c, s, log, left, |log|, |log| - 1, Loop, Handled(0, false))
    ensures Stands(c, t, log, left, |log|, |log|, Loop, Poll)
  {
    hide Reachable;
    t := Returns(c, s);
  }

  lemma SendableBefore(c: Config, i: nat, k: nat)
    requires Sendable(c, k) && 0 < i <= k
    ensures Sendable(c, i)
  {
    StartMonotone(c, i, k);
  }

  /** The software compressor has a result for every chunk. */
  ghost predicate SoftwareWorks(c: Config) {
    forall k: nat :: exists f: Data :: c.swFrameOf(c.Chunk(k), f) && |f| <= DestSz(|c.Chunk(k)|)
  }
}
