/** The compression protocol cannot get stuck and cannot run for ever. */
module CompressProgress {
  import opened Formats
  import opened CompressProtocol
  import opened CompressInvariant
  import opened CompressRuns

  // ---- how many requests a call needs ----

  /** reqcnt, as the API computes it before choosing between one thread and two. */
  function RequestCount(c: Config): nat
    requires c.hwBuffSz > 0
  {
    |c.src| / c.hwBuffSz + if |c.src| % c.hwBuffSz != 0 then 1 else 0
  }

  /** The submitter sends one chunk even when there is no input. */
  function Chunks(c: Config): nat
    requires c.hwBuffSz > 0
  {
    if RequestCount(c) == 0 then 1 else RequestCount(c)
  }

  lemma {:induction false} StartIs(c: Config, k: nat)
    requires c.hwBuffSz > 0
    ensures c.Start(k) == Min(k * c.hwBuffSz, |c.src|)
  {
    if k > 0 {
      StartIs(c, k - 1);
      assert k * c.hwBuffSz == (k - 1) * c.hwBuffSz + c.hwBuffSz;
    }
  }

  lemma CeilDiv(n: nat, h: nat, k: nat)
    requires h > 0
    ensures k * h < n <==> k < n / h + if n % h != 0 then 1 else 0
  {
    var q := n / h;
    assert n == q * h + n % h;
    if k < q { assert k * h <= (q - 1) * h == q * h - h; }
    if k > q { assert k * h >= (q + 1) * h == q * h + h; }
  }

  /** The chunks the submitting loop sends are counted correctly. */
  lemma SendableIffCounted(c: Config, k: nat)
    requires c.hwBuffSz > 0
    ensures Sendable(c, k) <==> k < Chunks(c)
  {
    StartIs(c, k);
    CeilDiv(|c.src|, c.hwBuffSz, k);
    CeilDiv(|c.src|, c.hwBuffSz, 0);
  }

  lemma HandedOverIsCounted(c: Config, s: State)
    requires c.Valid() && Owned(s) && Counts(c, s)
    ensures Nxt(s) <= Chunks(c) && s.sess.seqNo <= Chunks(c) && s.sess.seqIn <= Chunks(c)
  {
    if Nxt(s) > 0 { SendableIffCounted(c, Nxt(s) - 1); }
  }

  // ---- no infinite runs ----

  function SubmitRank(pc: SubmitPc): nat {
    match pc
    case Counting => 16 case Checking => 15
    case Loop => 14 case Found(_) => 13 case Claimed(_) => 12 case Ready(_) => 11 case Posted(_) => 10
    case Undo(_) => 9 case Undone(_) => 8 case Fallback => 7 case FallbackSeq => 6 case FallbackSw => 5
    case Sent => 4 case SwDone => 4 case Erring => 1 case Finished => 0
  }

  function RetrieveRank(pc: RetrievePc): nat {
    match pc
    case Short => 10 case ShortStat => 9 case Starting => 8 case Poll => 7 case Got(_) => 6 case Handled(_, _) => 5
    case Freed(_) => 4 case Counted(_) => 3 case Exited => 0
  }

  /** Work left: chunks to submit, chunks to retrieve, requests with the hardware. */
  function Rank(c: Config, s: State): int
    requires c.hwBuffSz > 0
  {
    13 * (Chunks(c) - s.sess.seqNo) + SubmitRank(s.spc)
    + 8 * (Chunks(c) - s.sess.seqIn) + RetrieveRank(s.rpc) + |s.hw|
  }

  /** What the submitter's work on a slot does to what the rank looks at. */
  lemma SubmitEffect(c: Config, s: State, a: Step)
    requires Enabled(c, s, a) && SlotStep(a)
    ensures var t := Apply(c, s, a);
      && t.sess == s.sess && t.rpc == s.rpc
      && (if a.SSendOk? then t.hw == s.hw + {s.spc.slot} && s.spc.Posted? && t.spc.Sent?
          else t.hw == s.hw && SubmitRank(t.spc) < SubmitRank(s.spc))
  {
  }

  lemma RankSubmit(c: Config, s: State, a: Step)
    requires c.hwBuffSz > 0 && Enabled(c, s, a) && SlotStep(a)
    ensures Rank(c, Apply(c, s, a)) < Rank(c, s)
  {
    hide Apply, Enabled, Chunks;
    SubmitEffect(c, s, a);
  }

  lemma RankRetrieve(c: Config, s: State, a: Step)
    requires c.hwBuffSz > 0 && Enabled(c, s, a) && RetrieverMove(a)
    ensures Rank(c, Apply(c, s, a)) < Rank(c, s)
  {
    hide Chunks;
  }

  lemma RankOther(c: Config, s: State, a: Step)
    requires c.hwBuffSz > 0 && Enabled(c, s, a) && !SlotStep(a) && !Answer(a) && !RetrieverMove(a)
    ensures !a.SFallbackWait? ==> Rank(c, Apply(c, s, a)) < Rank(c, s)
    ensures a.SFallbackWait? ==> Rank(c, Apply(c, s, a)) == Rank(c, s) + 8
  {
    hide Chunks, Place, Setup, Deliver, DeliverSw;
  }

  lemma RankAnswer(c: Config, s: State, a: Step)
    requires c.hwBuffSz > 0 && Enabled(c, s, a) && Answer(a)
    ensures Rank(c, Apply(c, s, a)) < Rank(c, s)
  {
    AnswerEffect(c, s, a);
  }

  lemma RankIsNatural(c: Config, s: State)
    requires Inv(c, s)
    ensures Rank(c, s) >= 0
  {
    HandedOverIsCounted(c, s);
  }

  /** Every step but waiting for the retriever before a software fallback uses up work. */
  lemma RankStep(c: Config, s: State, a: Step)
    requires Inv(c, s) && Enabled(c, s, a)
    ensures Rank(c, s) >= 0
    ensures !a.SFallbackWait? ==> Rank(c, Apply(c, s, a)) < Rank(c, s)
    ensures a.SFallbackWait? ==> Rank(c, Apply(c, s, a)) == Rank(c, s) + 8
  {
    hide Rank, Apply;
    RankIsNatural(c, s);
    if Answer(a) { RankAnswer(c, s, a); }
    else if SlotStep(a) { RankSubmit(c, s, a); }
    else if RetrieverMove(a) { RankRetrieve(c, s, a); }
    else { RankOther(c, s, a); }
  }

  function Waits(steps: seq<Step>): nat {
    if |steps| == 0 then 0
    else Waits(steps[..|steps| - 1]) + if steps[|steps| - 1].SFallbackWait? then 1 else 0
  }

  lemma RankAtStart(c: Config, s: State)
    requires Init(c, s)
    ensures c.hwBuffSz > 0 && Rank(c, s) == 21 * Chunks(c) + 22
  {
  }

  lemma {:induction false} RankRun(c: Config, states: seq<State>, steps: seq<Step>, n: nat)
    requires Run(c, states, steps) && n <= |steps|
    ensures n + Rank(c, states[n]) <= 21 * Chunks(c) + 22 + 9 * Waits(steps[..n])
  {
    hide Apply, Enabled, Rank, Init, Inv;
    if n == 0 { RankAtStart(c, states[0]); }
    else {
      RankRun(c, states, steps, n - 1);
      InvRun(c, states, steps, n - 1);
      RankStep(c, states[n - 1], steps[n - 1]);
      assert steps[..n][..n - 1] == steps[..n - 1];
    }
  }

  /** A run takes a bounded number of steps, apart from a submitter that keeps waiting. */
  lemma RunsAreBounded(c: Config, states: seq<State>, steps: seq<Step>)
    requires Run(c, states, steps)
    ensures |steps| <= 21 * Chunks(c) + 22 + 9 * Waits(steps)
  {
    InvRun(c, states, steps, |steps|);
    RankRun(c, states, steps, |steps|);
    HandedOverIsCounted(c, states[|steps|]);
    assert steps[..|steps|] == steps;
  }

  // ---- no deadlock ----

  ghost predicate Answers(c: Config, k: nat)
    requires c.Sized()
  {
    && (exists p :: c.payloadOf(c.Chunk(k), p) && |p| <= c.Room(|c.Chunk(k)|))
    && (c.swBackup ==> exists f :: c.swFrameOf(c.Chunk(k), f) && |f| <= Min(c.destSz, DestSz(|c.Chunk(k)|)))
  }

  /** The hardware answers every request with something that fits, and so does the software. */
  ghost predicate Responsive(c: Config)
    requires c.Sized()
  {
    forall k: nat :: Answers(c, k)
  }

  /** Steps that make headway without any new failure. */
  ghost predicate Headway(c: Config, s: State, a: Step) {
    Enabled(c, s, a) && !a.SFallbackWait? && !a.SDeviceDown? && !a.SSendFail? && !a.SFallbackError? && !a.HError?
  }

  lemma HardwareCanAnswer(c: Config, s: State, j: nat)
    requires c.Valid() && WellFormed(c, s) && Phases(s) && Contents(c, s) && Responsive(c) && j in s.hw
    ensures exists a :: Headway(c, s, a)
  {
    assert PhaseOk(s, j) && SlotOk(c, s, j);
    var k: nat := s.slots[j].seqNo;
    assert Answers(c, k);
    var p :| c.payloadOf(c.Chunk(k), p) && |p| <= c.Room(|c.Chunk(k)|);
    assert Headway(c, s, HDone(j, p));
  }

  /** The next chunk to deliver is either done or still with the hardware. */
  lemma OldestIsHeld(s: State)
    requires Phases(s) && Owned(s) && Ack(s) < Nxt(s) && s.rpc.Poll?
    ensures 0 <= s.sess.seqIn < |s.owner| && s.owner[s.sess.seqIn] >= 0
    ensures var j: nat := s.owner[s.sess.seqIn];
      j in s.hw || (HasSlot(s, j) && s.slots[j].Done() && s.slots[j].seqNo == s.sess.seqIn)
  {
    assert Held(s, s.sess.seqIn);
  }

  lemma OldestCanMove(c: Config, s: State)
    requires c.Valid() && WellFormed(c, s) && Phases(s) && Owned(s) && Contents(c, s)
    requires Responsive(c) && Ack(s) < Nxt(s) && s.rpc.Poll?
    ensures exists a :: Headway(c, s, a)
  {
    OldestIsHeld(s);
    var j: nat := s.owner[s.sess.seqIn];
    if j in s.hw { HardwareCanAnswer(c, s, j); }
    else { assert Headway(c, s, RMatch(j)); }
  }

  lemma GotSlot(c: Config, s: State)
    requires c.Valid() && Phases(s) && Owned(s) && Contents(c, s) && s.rpc.Got?
    ensures var x := s.slots[s.rpc.slot];
      && x.seqNo >= 0 && x.data == c.Chunk(x.seqNo) && c.hdrSz + x.room == Min(c.destSz, DestSz(|x.data|))
      && (!x.ok ==> c.swBackup && !x.zeroCopy) && x.res.produced == |x.buf|
  {
    assert PhaseOk(s, s.rpc.slot) && InUse(s, s.rpc.slot) && SlotOk(c, s, s.rpc.slot);
  }

  lemma SoftwareCanAnswer(c: Config, s: State)
    requires c.Sized() && Responsive(c) && WellFormed(c, s) && s.sess.seqIn >= 0
    requires s.rpc.Got? && !s.sess.stat.BufError? && c.swBackup && !s.slots[s.rpc.slot].ok
    requires var x := s.slots[s.rpc.slot];
      x.seqNo >= 0 && x.data == c.Chunk(x.seqNo) && c.hdrSz + x.room == Min(c.destSz, DestSz(|x.data|))
    ensures exists a :: Headway(c, s, a)
  {
    var x := s.slots[s.rpc.slot];
    assert Answers(c, x.seqNo);
    var f :| c.swFrameOf(x.data, f) && |f| <= Min(c.destSz, DestSz(|x.data|));
    assert Headway(c, s, RDeliverSw(f));
  }

  lemma AnswerExists(c: Config, s: State)
    requires c.Valid() && WellFormed(c, s) && Phases(s) && Owned(s) && s.sess.seqIn >= 0 && Contents(c, s)
    requires Responsive(c) && s.rpc.Got?
    ensures exists a :: Headway(c, s, a)
  {
    GotSlot(c, s);
    if s.sess.stat.BufError? { assert Headway(c, s, RSkip); }
    else if s.slots[s.rpc.slot].ok { assert Headway(c, s, RDeliver); }
    else { SoftwareCanAnswer(c, s); }
  }

  lemma RetrieverCanMove(c: Config, s: State)
    requires WellFormed(c, s) && Counts(c, s) && !s.rpc.Exited? && !s.rpc.Got?
             && (s.rpc.Poll? ==> Ack(s) >= Nxt(s) && s.spc.Finished?)
    ensures exists a :: Headway(c, s, a)
  {
    match s.rpc
    case Starting => assert Headway(c, s, RStart);
    case Poll => assert Headway(c, s, RExit);
    case Handled(_, _) => assert Headway(c, s, RFree);
    case Freed(_) => assert Headway(c, s, RCount);
    case Counted(_) => assert Headway(c, s, RAck);
    case Short => assert Headway(c, s, RStop);
    case ShortStat => assert Headway(c, s, RSetStat);
  }

  /** As long as a chunk is under way or the submitter is done, somebody but the submitter can move. */
  lemma OthersCanMove(c: Config, s: State)
    requires Inv(c, s) && Responsive(c) && !s.rpc.Exited?
    requires Ack(s) < Nxt(s) || s.spc.Finished? || !s.rpc.Poll?
    ensures exists a :: Headway(c, s, a)
  {
    if s.rpc.Got? { AnswerExists(c, s); }
    else if s.rpc.Poll? && Ack(s) < Nxt(s) { OldestCanMove(c, s); }
    else { RetrieverCanMove(c, s); }
  }

  lemma SubmitterCanMove(c: Config, s: State)
    requires c.Sized() && WellFormed(c, s) && !s.spc.Loop? && !s.spc.Finished?
    requires !s.spc.Fallback? && !s.spc.FallbackSeq? && !s.spc.FallbackSw?
    ensures exists a :: Headway(c, s, a)
  {
    match s.spc
    case Found(_) => assert Headway(c, s, SClaim);
    case Claimed(_) => assert Headway(c, s, SSetup(false));
    case Ready(_) => assert Headway(c, s, SPost);
    case Posted(_) => assert Headway(c, s, SSendOk);
    case Undo(_) => assert Headway(c, s, SUndo1);
    case Undone(_) => assert Headway(c, s, SUndo2);
    case Sent => assert Headway(c, s, SIncSeq);
    case SwDone => assert Headway(c, s, SIncSeq);
    case Counting => assert Headway(c, s, SIncSubmitted);
    case Checking => assert Headway(c, s, SCheck);
    case Erring => assert Headway(c, s, SErr);
  }

  lemma SubmitterAtLoop(c: Config, s: State)
    requires Inv(c, s) && s.spc.Loop?
    ensures (exists a :: Headway(c, s, a)) || Ack(s) < Nxt(s)
  {
    if j: nat :| HasSlot(s, j) && s.slots[j].Free() { assert Headway(c, s, SFind(j)); }
    else { assert PhaseOk(s, 0) && InUse(s, 0) && Keyed(s, 0); }
  }

  lemma SubmitterAtFallback(c: Config, s: State)
    requires Inv(c, s) && (s.spc.Fallback? || s.spc.FallbackSeq?)
    ensures (exists a :: Headway(c, s, a)) || Ack(s) < Nxt(s) || !s.rpc.Poll?
  {
    if s.spc.Fallback? {
      if MayFallBack(c, s) { assert Headway(c, s, SFallbackGo); } else { assert Headway(c, s, SFallbackRefuse); }
    } else if s.sess.seqNo == s.sess.seqIn { assert Headway(c, s, SFallbackTurn); }
  }

  lemma SubmitterAtSoftware(c: Config, s: State)
    requires c.Valid() && WellFormed(c, s) && Counts(c, s) && Responsive(c) && s.spc.FallbackSw?
    ensures exists a :: Headway(c, s, a)
  {
    assert Answers(c, s.sess.seqNo) && Sending(c, s) == c.Chunk(s.sess.seqNo);
    var f :| c.swFrameOf(Sending(c, s), f) && |f| <= Min(c.destSz, DestSz(|Sending(c, s)|));
    assert Headway(c, s, SFallbackOk(f));
  }

  /** Until both loops have ended, submitter, hardware or retriever can make headway. */
  lemma NoDeadlock(c: Config, s: State)
    requires Reachable(c, s) && c.Sized() && Responsive(c) && !(s.spc.Finished? && s.rpc.Exited?)
    ensures exists a :: Headway(c, s, a)
  {
    ReachableInv(c, s);
    if s.spc.Loop? { SubmitterAtLoop(c, s); }
    else if s.spc.Fallback? || s.spc.FallbackSeq? { SubmitterAtFallback(c, s); }
    else if s.spc.FallbackSw? { SubmitterAtSoftware(c, s); }
    else if !s.spc.Finished? { SubmitterCanMove(c, s); }
    if !exists a :: Headway(c, s, a) { OthersCanMove(c, s); }
  }

  // ---- slots never run out in a short single-threaded call ----

  function Below(n: nat): (r: set<nat>)
    ensures forall i: nat :: i in r <==> i < n
  {
    if n == 0 then {} else Below(n - 1) + {n - 1}
  }

  lemma {:induction false} BelowSize(n: nat)
    ensures |Below(n)| == n
  {
    if n > 0 {
      BelowSize(n - 1);
    }
  }

  lemma {:induction false} SubsetSize(a: set<nat>, b: set<nat>)
    requires a <= b
    ensures |a| <= |b| && (|a| == |b| ==> a == b)
    decreases |a|
  {
    if x :| x in a {
      SubsetSize(a - {x}, b - {x});
      assert a == (a - {x}) + {x} && b == (b - {x}) + {x};
    }
  }

  /** At the head of the loop a free slot exists exactly when fewer slots are occupied than exist. */
  lemma FreeSlotIffRoom(c: Config, s: State)
    requires Inv(c, s) && s.spc.Loop?
    ensures (exists j :: 0 <= j < |s.slots| && s.slots[j].Free()) <==> |Occupied(s)| < |s.slots|
  {
    var all := Below(|s.slots|);
    BelowSize(|s.slots|);
    SubsetSize(Occupied(s), all);
    if j :| 0 <= j < |s.slots| && s.slots[j].Free() {
      assert PhaseOk(s, j) && j in all && j !in Occupied(s);
    }
    if |Occupied(s)| < |s.slots| {
      assert exists j :: j in all && j !in Occupied(s) by {
        if all <= Occupied(s) { SubsetSize(all, Occupied(s)); }
      }
      var j :| j in all && j !in Occupied(s);
      assert PhaseOk(s, j) && !InUse(s, j) && s.slots[j].Free();
    }
  }

  /** The single-threaded submitter never blocks: as long as nothing has been retrieved and the
      call needs no more requests than there are slots, a slot is free for every chunk. */
  lemma SubmitterNeverBlocks(c: Config, s: State)
    requires Reachable(c, s) && s.spc.Loop? && s.sess.seqIn == 0 && RequestCount(c) <= c.slotCount
    requires s.rpc.Starting? || s.rpc.Poll?
    ensures exists j :: 0 <= j < |s.slots| && s.slots[j].Free()
  {
    ReachableInv(c, s);
    SendableIffCounted(c, s.sess.seqNo);
    OccupiedInv(c, s);
    FreeSlotIffRoom(c, s);
  }
}
