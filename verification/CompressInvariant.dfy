/** What every reachable state of the compression protocol satisfies. */
module CompressInvariant {
  import opened Bytes
  import opened Crc32
  import opened Formats
  import opened CompressProtocol

  // ---- the parts of the invariant ----

  /** Number of chunks handed over: the one on its way counts before seq does. */
  function Nxt(s: State): int {
    s.sess.seqNo + if s.spc.Sent? || s.spc.SwDone? then 1 else 0
  }

  /** Number of chunks whose slot has been given back: ahead of seq_in while the retriever is
      between sink2++ and seq_in++. */
  function Ack(s: State): int {
    s.sess.seqIn + if s.rpc.Freed? || s.rpc.Counted? then 1 else 0
  }

  predicate InUse(s: State, j: nat) {
    HasSlot(s, j) && (j in s.hw || s.slots[j].Done())
  }

  /** The slot the submitter is preparing or taking back. */
  predicate Mine(s: State, j: nat) {
    (s.spc.Claimed? || s.spc.Ready? || s.spc.Posted? || s.spc.Undo? || s.spc.Undone?) && s.spc.slot == j
  }

  predicate PhaseOk(s: State, j: nat)
    requires HasSlot(s, j)
  {
    var x := s.slots[j];
    if Mine(s, j) then
      j !in s.hw &&
      (if s.spc.Claimed? || s.spc.Ready? then x.Reserved()
       else if s.spc.Undone? then x.HalfUndone() else x.Busy())
    else if j in s.hw then x.Busy()
    else x.Free() || x.Done()
  }

  ghost predicate Phases(s: State) {
    && (forall j :: j in s.hw ==> HasSlot(s, j))
    && (forall j :: 0 <= j < |s.slots| ==> PhaseOk(s, j))
    && (s.spc.Found? ==> HasSlot(s, s.spc.slot) && s.slots[s.spc.slot].Free())
    && (s.spc.Claimed? || s.spc.Ready? || s.spc.Posted? || s.spc.Undo? || s.spc.Undone? ==>
          HasSlot(s, s.spc.slot))
    && (s.rpc.Got? || s.rpc.Handled? ==> HasSlot(s, s.rpc.slot) && s.slots[s.rpc.slot].Done())
  }

  predicate SlotStep(a: Step) {
    a.SFind? || a.SClaim? || a.SSetup? || a.SPost? || a.SSendOk? || a.SSendFail? || a.SUndo1? || a.SUndo2?
  }

  /** The retriever decides what to do with a response. */
  predicate Answer(a: Step) { a.RSkip? || a.RDeliver? || a.RDeliverSw? }

  /** An answer leaves the slot's counters and number alone and touches no other slot. */
  lemma AnswerEffect(c: Config, s: State, a: Step)
    requires Enabled(c, s, a) && Answer(a)
    ensures var t := Apply(c, s, a);
      && t.slots == s.slots[s.rpc.slot := t.slots[s.rpc.slot]] && t.rpc.Handled? && t.rpc.slot == s.rpc.slot
      && t == s.(slots := t.slots, out := t.out, rpc := t.rpc)
      && t.slots[t.rpc.slot] == s.slots[t.rpc.slot].(zeroCopy := t.slots[t.rpc.slot].zeroCopy)
      && (t.slots[t.rpc.slot].zeroCopy ==> a.RDeliverSw? && s.slots[t.rpc.slot].zeroCopy)
  {
  }

  lemma DeliverEffect(c: Config, s: State)
    requires Enabled(c, s, RDeliver)
    ensures var t, x := Apply(c, s, RDeliver), s.slots[s.rpc.slot];
      var n := c.hdrSz + x.res.produced + c.ftrSz;
      && t.rpc == Handled(s.rpc.slot, s.out.avail < n) && t.out.late == s.out.late && t.out.avail == s.out.avail - n
      && t.out.dropped == (s.out.dropped || s.out.avail < n)
      && t.out.log == if s.out.avail < n then s.out.log else s.out.log + [Hw(s.sess.seqIn, x.buf)]
  {
    hide Place, Fold;
  }

  lemma DeliverSwEffect(c: Config, s: State, frame: Data)
    requires Enabled(c, s, RDeliverSw(frame))
    ensures var t, n := Apply(c, s, RDeliverSw(frame)), |frame|;
      && t.rpc == Handled(s.rpc.slot, s.out.avail < n) && t.out.late == s.out.late && t.out.avail == s.out.avail - n
      && t.out.dropped == (s.out.dropped || s.out.avail < n)
      && t.out.log == if s.out.avail < n then s.out.log else s.out.log + [Sw(s.sess.seqIn, frame)]
  {
    hide Write;
  }

  lemma PhasesSubmit(c: Config, s: State, a: Step)
    requires Enabled(c, s, a) && Phases(s) && SlotStep(a)
    ensures Phases(Apply(c, s, a))
  {
    var t := Apply(c, s, a);
    if s.rpc.Got? || s.rpc.Handled? { assert PhaseOk(s, s.rpc.slot); }
    if !a.SFind? { assert PhaseOk(s, s.spc.slot); }
    forall j | 0 <= j < |t.slots| ensures PhaseOk(t, j) { assert PhaseOk(s, j); }
  }

  lemma PhasesAnswer(c: Config, s: State, a: Step)
    requires Enabled(c, s, a) && Phases(s) && Answer(a)
    ensures Phases(Apply(c, s, a))
  {
    AnswerEffect(c, s, a);
    var t := Apply(c, s, a);
    forall j | 0 <= j < |t.slots| ensures PhaseOk(t, j) { assert PhaseOk(s, j); }
  }

  lemma PhasesOther(c: Config, s: State, a: Step)
    requires Enabled(c, s, a) && Phases(s) && !SlotStep(a) && !Answer(a)
    ensures Phases(Apply(c, s, a))
  {
    var t := Apply(c, s, a);
    if s.rpc.Got? || s.rpc.Handled? { assert PhaseOk(s, s.rpc.slot); }
    if s.spc.Found? { assert PhaseOk(s, s.spc.slot); }
    forall j | 0 <= j < |t.slots| ensures PhaseOk(t, j) { assert PhaseOk(s, j); }
  }

  // ---- who holds which chunk ----

  predicate Held(s: State, k: int)
    requires 0 <= k < |s.owner|
  {
    0 <= s.owner[k] && InUse(s, s.owner[k]) && s.slots[s.owner[k]].seqNo == k
  }

  predicate Keyed(s: State, j: nat)
    requires HasSlot(s, j)
  {
    && Ack(s) <= s.slots[j].seqNo < Nxt(s) && 0 <= s.slots[j].seqNo < |s.owner|
    && s.owner[s.slots[j].seqNo] == j
  }

  /** Occupied slots and the sequence numbers [Ack, Nxt) correspond one to one. */
  ghost predicate Owned(s: State) {
    && |s.owner| == Nxt(s) && 0 <= Ack(s) <= Nxt(s)
    && (forall k :: Ack(s) <= k < Nxt(s) ==> Held(s, k))
    && (forall j: nat :: InUse(s, j) ==> Keyed(s, j))
    && (s.spc.Ready? || s.spc.Posted? ==> HasSlot(s, s.spc.slot) && s.slots[s.spc.slot].seqNo == s.sess.seqNo)
    && (s.rpc.Got? || s.rpc.Handled? ==> HasSlot(s, s.rpc.slot) && s.slots[s.rpc.slot].seqNo == s.sess.seqIn)
    && (s.rpc.Freed? || s.rpc.Counted? ==> 0 <= s.sess.seqIn)
    && (s.spc.FallbackSw? ==> s.sess.seqNo == s.sess.seqIn)
  }

  lemma OwnedFrame(s: State, t: State)
    requires Owned(s) && |t.slots| == |s.slots| && t.owner == s.owner
    requires Nxt(t) == Nxt(s) && Ack(t) == Ack(s)
    requires forall j: nat :: HasSlot(s, j) ==> InUse(t, j) == InUse(s, j)
    requires forall j: nat :: InUse(s, j) ==> t.slots[j].seqNo == s.slots[j].seqNo
    ensures forall k :: Ack(t) <= k < Nxt(t) ==> Held(t, k)
    ensures forall j: nat :: InUse(t, j) ==> Keyed(t, j)
  {
    forall k | Ack(t) <= k < Nxt(t) ensures Held(t, k) { assert Held(s, k); }
    forall j: nat | InUse(t, j) ensures Keyed(t, j) { assert InUse(s, j) && Keyed(s, j); }
  }

  predicate HandOver(a: Step) {
    a.SSendOk? || a.SFallbackOk? || a.RFree?
  }

  lemma OwnedAnswer(c: Config, s: State, a: Step)
    requires Enabled(c, s, a) && Phases(s) && Owned(s) && Answer(a)
    ensures Owned(Apply(c, s, a))
  {
    AnswerEffect(c, s, a);
    OwnedFrame(s, Apply(c, s, a));
  }

  lemma OwnedOther(c: Config, s: State, a: Step)
    requires Enabled(c, s, a) && Phases(s) && Owned(s) && !HandOver(a) && !SlotStep(a) && !Answer(a)
    ensures Owned(Apply(c, s, a))
  {
    var t := Apply(c, s, a);
    forall j: nat | HasSlot(s, j) ensures InUse(t, j) == InUse(s, j) { assert PhaseOk(s, j); }
    OwnedFrame(s, t);
  }

  lemma OwnedSlotStep(c: Config, s: State, a: Step)
    requires Enabled(c, s, a) && Phases(s) && Owned(s) && !HandOver(a) && SlotStep(a)
    ensures Owned(Apply(c, s, a))
  {
    var t := Apply(c, s, a);
    if s.rpc.Got? || s.rpc.Handled? { assert PhaseOk(s, s.rpc.slot); }
    if !a.SFind? { assert PhaseOk(s, s.spc.slot); }
    forall j: nat | HasSlot(s, j) ensures InUse(t, j) == InUse(s, j) { assert PhaseOk(s, j); }
    OwnedFrame(s, t);
  }

  lemma OwnedSendOk(c: Config, s: State, a: Step)
    requires Enabled(c, s, a) && Phases(s) && Owned(s) && a.SSendOk?
    ensures Owned(Apply(c, s, a))
  {
    var t := Apply(c, s, a);
    assert PhaseOk(s, s.spc.slot) && !InUse(s, s.spc.slot);
    forall k | Ack(t) <= k < Nxt(t) ensures Held(t, k) {
      if k < Nxt(s) { assert Held(s, k); }
    }
    forall j: nat | InUse(t, j) ensures Keyed(t, j) {
      if j != s.spc.slot { assert InUse(s, j) && Keyed(s, j); }
    }
  }

  lemma OwnedFallback(c: Config, s: State, a: Step)
    requires Enabled(c, s, a) && Phases(s) && Owned(s) && a.SFallbackOk?
    ensures Owned(Apply(c, s, a))
    ensures forall j: nat :: !InUse(s, j)
    ensures Ack(s) == s.sess.seqIn == s.sess.seqNo && !(s.rpc.Got? || s.rpc.Handled?)
  {
    var t := Apply(c, s, a);
    forall j: nat ensures !InUse(s, j) && !InUse(t, j) {
      if HasSlot(s, j) { assert !Keyed(s, j); }
    }
    assert !(s.rpc.Got? || s.rpc.Handled?) by {
      assert s.rpc.Got? || s.rpc.Handled? ==> InUse(s, s.rpc.slot);
    }
  }

  lemma OwnedFree(c: Config, s: State, a: Step)
    requires Enabled(c, s, a) && Phases(s) && Owned(s) && a.RFree?
    ensures Owned(Apply(c, s, a))
  {
    var t, f := Apply(c, s, a), s.rpc.slot;
    assert PhaseOk(s, f) && InUse(s, f) && Keyed(s, f);
    forall k | Ack(t) <= k < Nxt(t) ensures Held(t, k) { assert Held(s, k); }
    forall j: nat | InUse(t, j) ensures Keyed(t, j) { assert InUse(s, j) && Keyed(s, j); }
  }

  // ---- the session counters ----

  predicate Sendable(c: Config, k: nat) { k == 0 || c.Start(k) < |c.src| }

  predicate Counts(c: Config, s: State) {
    && s.sess.seqNo >= 0 && s.sess.seqIn >= 0
    && s.sess.submitted == s.sess.seqNo - (if s.spc.Counting? then 1 else 0)
    && s.sess.processed == s.sess.seqIn + (if s.rpc.Counted? then 1 else 0)
    && s.sess.lastSubmitted == (s.spc.Erring? || s.spc.Finished?)
    && s.srcPos == c.Start(s.sess.seqNo)
    && (s.spc.Counting? || s.spc.Checking? || s.spc.Erring? || s.spc.Finished? || Sendable(c, s.sess.seqNo))
    && (Nxt(s) > 0 ==> Sendable(c, Nxt(s) - 1))
    && (s.spc.Counting? || s.spc.Checking? ==> s.sess.seqNo > 0)
    && (s.rpc.Exited? ==> s.sess.lastSubmitted && Ack(s) == Nxt(s))
    && (s.spc.FallbackSeq? || s.spc.FallbackSw? ==> c.swBackup && !c.singleThread)
  }

  lemma CountsAnswer(c: Config, s: State, a: Step)
    requires Enabled(c, s, a) && Counts(c, s) && Answer(a)
    ensures Counts(c, Apply(c, s, a))
  {
    AnswerEffect(c, s, a);
  }

  lemma CountsSubmit(c: Config, s: State, a: Step)
    requires c.Valid() && Enabled(c, s, a) && Counts(c, s) && SlotStep(a)
    ensures Counts(c, Apply(c, s, a))
  {
  }

  predicate RetrieverMove(a: Step) {
    a.RStart? || a.RMatch? || a.RFree? || a.RCount? || a.RAck? || a.RStop? || a.RSetStat? || a.RExit?
  }

  lemma CountsRetrieve(c: Config, s: State, a: Step)
    requires Enabled(c, s, a) && Phases(s) && Owned(s) && Counts(c, s) && RetrieverMove(a)
    ensures Counts(c, Apply(c, s, a))
  {
    hide Config.Start, Config.Chunk, Sendable;
  }

  lemma CountsNext(c: Config, s: State, a: Step)
    requires c.Valid() && Enabled(c, s, a) && Counts(c, s) && a.SIncSeq?
    ensures Counts(c, Apply(c, s, a))
  {
  }

  lemma CountsStep(c: Config, s: State, a: Step)
    requires c.Valid() && Enabled(c, s, a) && Owned(s) && Counts(c, s)
    requires !Answer(a) && !SlotStep(a) && !RetrieverMove(a) && !a.SIncSeq?
    ensures Counts(c, Apply(c, s, a))
  {
    hide Config.Chunk;
  }

  // ---- what the slots hold ----

  predicate Loaded(c: Config, x: Slot)
    requires c.Sized()
  {
    && x.seqNo >= 0 && x.data == c.Chunk(x.seqNo) && x.room == c.Room(|x.data|)
    && (x.zeroCopy ==> x.seqNo == 0 && x.dma == c.hdrSz)
  }

  predicate Completed(c: Config, mem: Data, x: Slot) {
    && x.res == Results(|x.data|, |x.buf|, c.sumOf(x.data))
    && (if x.ok then c.payloadOf(x.data, x.buf) && |x.buf| <= x.room else c.swBackup && !x.zeroCopy)
    && (x.zeroCopy ==> At(mem, c.hdrSz, x.buf))
  }

  predicate SlotOk(c: Config, s: State, j: nat)
    requires c.Sized() && HasSlot(s, j)
  {
    Loaded(c, s.slots[j]) && (s.slots[j].Done() ==> Completed(c, s.out.mem, s.slots[j]))
  }

  ghost predicate Contents(c: Config, s: State)
    requires c.Sized()
  {
    && (forall j: nat :: InUse(s, j) ==> SlotOk(c, s, j))
    && (s.spc.Ready? || s.spc.Posted? ==> HasSlot(s, s.spc.slot) && Loaded(c, s.slots[s.spc.slot]))
  }

  // ---- what has been delivered ----

  function ResultOf(c: Config, k: nat, payload: Data): Results {
    Results(|c.Chunk(k)|, |payload|, c.sumOf(c.Chunk(k)))
  }

  /** The bytes a record contributes to the output. */
  function FrameOf(c: Config, r: Rec): Data {
    match r
    case Hw(k, p) =>
      var res := ResultOf(c, k, p);
      c.header(res) + p + (if c.ftrSz <= |c.footer(res)| then c.footer(res)[..c.ftrSz] else c.footer(res))
    case Sw(_, frame) => frame
  }

  function Flat(c: Config, log: seq<Rec>): Data {
    if |log| == 0 then [] else Flat(c, log[..|log| - 1]) + FrameOf(c, log[|log| - 1])
  }

  /** The source bytes the delivered frames stand for. */
  function Taken(c: Config, log: seq<Rec>): Data {
    if |log| == 0 then [] else Taken(c, log[..|log| - 1]) + c.Chunk(log[|log| - 1].chunk)
  }

  /** The caller's checksum after folding in those of the hardware's responses. */
  function Folded(c: Config, log: seq<Rec>): Word {
    if |log| == 0 then c.crc0
    else
      var before, r := Folded(c, log[..|log| - 1]), log[|log| - 1];
      if c.foldCrc && r.Hw? then Fold(before, c.sumOf(c.Chunk(r.chunk)), |c.Chunk(r.chunk)|) else before
  }

  predicate GoodRec(c: Config, r: Rec)
    requires c.Sized()
  {
    match r
    case Hw(k, p) => c.payloadOf(c.Chunk(k), p) && |p| <= c.Room(|c.Chunk(k)|)
    case Sw(k, f) => c.swBackup && c.swFrameOf(c.Chunk(k), f) && |f| <= DestSz(|c.Chunk(k)|)
  }

  ghost predicate InOrder(log: seq<Rec>) {
    forall i :: 0 <= i < |log| ==> log[i].chunk == i
  }

  predicate NoSw(log: seq<Rec>) {
    forall i :: 0 <= i < |log| ==> log[i].Hw?
  }

  /** Chunks delivered or dropped so far. */
  function Gone(s: State): int {
    s.sess.seqIn + if s.rpc.Handled? || s.rpc.Freed? || s.rpc.Counted? then 1 else 0
  }

  predicate IsShort(s: State) {
    s.sess.stat.BufError? || s.rpc.Short? || s.rpc.ShortStat?
    || ((s.rpc.Handled? || s.rpc.Freed? || s.rpc.Counted?) && s.rpc.short)
  }

  /** The destination holds the delivered frames and the counters measure them. */
  ghost predicate Written(c: Config, o: Output)
    requires c.Sized()
  {
    && o.next == o.outLen == |Flat(c, o.log)| <= |o.mem| && c.destSz <= |o.mem|
    && (forall k :: 0 <= k < o.next ==> o.mem[k] == Flat(c, o.log)[k])
    && o.inLen == |Taken(c, o.log)|
    && (forall i :: 0 <= i < |o.log| ==> GoodRec(c, o.log[i]))
    && o.crc == Folded(c, o.log)
    && (o.late ==> c.swBackup && !c.singleThread)
    && (o.avail >= 0 ==> o.avail + o.next >= c.destSz)
  }

  /** What has been delivered, what was thrown away, and how the session shows it. */
  ghost predicate Delivered(c: Config, s: State) {
    && (if s.out.dropped then |s.out.log| < Gone(s) else |s.out.log| == Gone(s))
    && (IsShort(s) ==> s.out.dropped)
    && (s.out.dropped ==> s.out.avail < 0 && (IsShort(s) || s.sess.stat.Fail?))
    && (s.rpc.Starting? ==> !s.out.dropped)
    && (s.out.avail < 0 && !s.out.dropped ==> c.swBackup && !c.singleThread && s.out.outLen > c.destSz)
    && (s.rpc.Starting? && s.out.outLen > 0 ==> c.swBackup && !c.singleThread)
    && (s.out.late <==> !InOrder(s.out.log)) && (s.out.late ==> s.out.dropped)
    && (s.sess.stopSubmitting ==> s.out.dropped || s.spc.Erring? || s.sess.stat.Fail?)
    && (s.sess.stat.Fail? ==> s.spc.Finished?) && (s.spc.Erring? ==> s.sess.stopSubmitting)
    && (s.spc.Finished? ==> s.sess.stopSubmitting || (s.srcPos == |c.src| && s.sess.seqNo > 0))
  }

  ghost predicate Inv(c: Config, s: State) {
    && c.Valid() && |s.slots| == c.slotCount
    && Phases(s) && Owned(s) && Counts(c, s)
    && Contents(c, s) && Written(c, s.out) && Delivered(c, s)
  }

  // ---- output steps ----

  lemma PlaceFills(mem: Data, at: nat, head: Data, payload: Data, tail: Data, inPlace: bool)
    requires at <= |mem| && (inPlace ==> At(mem, at + |head|, payload))
    ensures var r := Place(mem, at, head, payload, tail, inPlace);
      && |r| >= |mem| && |r| >= at + |head| + |payload| + |tail|
      && (|r| == |mem| || |r| == at + |head| + |payload| + |tail|)
      && (forall k :: 0 <= k < at ==> r[k] == mem[k])
      && At(r, at, head) && At(r, at + |head|, payload) && At(r, at + |head| + |payload|, tail)
  {
  }

  lemma Appended(c: Config, log: seq<Rec>, r: Rec)
    ensures Flat(c, log + [r]) == Flat(c, log) + FrameOf(c, r)
    ensures Taken(c, log + [r]) == Taken(c, log) + c.Chunk(r.chunk)
    ensures Folded(c, log + [r]) == if c.foldCrc && r.Hw?
                                    then Fold(Folded(c, log), c.sumOf(c.Chunk(r.chunk)), |c.Chunk(r.chunk)|)
                                    else Folded(c, log)
  {
    assert (log + [r])[..|log|] == log;
  }

  /** One more frame at next_dest keeps the destination in step with the log. */
  lemma WrittenAppend(c: Config, o: Output, r: Rec, o': Output)
    requires c.Valid() && Written(c, o) && GoodRec(c, r)
    requires o'.log == o.log + [r] && o'.next == o'.outLen == o.next + |FrameOf(c, r)|
    requires |o'.mem| >= |o.mem| && (forall k :: 0 <= k < o.next ==> o'.mem[k] == o.mem[k])
    requires At(o'.mem, o.next, FrameOf(c, r))
    requires o'.inLen == o.inLen + |c.Chunk(r.chunk)|
    requires o'.crc == if c.foldCrc && r.Hw? then Fold(o.crc, c.sumOf(c.Chunk(r.chunk)), |c.Chunk(r.chunk)|)
                       else o.crc
    requires o'.late ==> o.late || (c.swBackup && !c.singleThread)
    requires o'.avail >= 0 ==> o.avail >= 0 && (o'.avail == o.avail || o'.avail == o.avail - |FrameOf(c, r)|)
    ensures Written(c, o')
  {
    hide FrameOf, GoodRec, Crc, Fold;
    Appended(c, o.log, r);
    var f := Flat(c, o'.log);
    forall k | 0 <= k < o'.next ensures o'.mem[k] == f[k] {
      if k >= o.next { assert FrameOf(c, r)[k - o.next] == o'.mem[o.next + (k - o.next)]; }
    }
  }

  /** A log stays in order exactly when the next record names the next chunk. */
  lemma InOrderAppend(log: seq<Rec>, r: Rec)
    ensures InOrder(log + [r]) <==> InOrder(log) && r.chunk == |log|
  {
    var l := log + [r];
    if InOrder(l) {
      assert l[|log|].chunk == |log|;
      forall i | 0 <= i < |log| ensures log[i].chunk == i { assert l[i].chunk == i; }
    }
  }

  lemma {:induction false} TakenInOrder(c: Config, log: seq<Rec>)
    requires c.Valid() && InOrder(log)
    ensures Taken(c, log) == c.src[..c.Start(|log|)]
    decreases |log|
  {
    if |log| > 0 {
      var front, k := log[..|log| - 1], |log| - 1;
      assert InOrder(front);
      TakenInOrder(c, front);
      assert log[k].chunk == k;
      assert c.Start(k + 1) == Min(c.Start(k) + c.hwBuffSz, |c.src|);
      assert c.src[..c.Start(k)] + c.src[c.Start(k)..c.Start(k + 1)] == c.src[..c.Start(k + 1)];
    }
  }

  // ---- Delivered ----

  lemma DeliveredSubmit(c: Config, s: State, a: Step)
    requires c.Valid() && Enabled(c, s, a) && Delivered(c, s) && SlotStep(a)
    ensures Delivered(c, Apply(c, s, a))
  {
  }

  lemma DeliveredRetrieve(c: Config, s: State, a: Step)
    requires c.Valid() && Enabled(c, s, a) && Owned(s) && Counts(c, s) && Delivered(c, s) && RetrieverMove(a)
    ensures Delivered(c, Apply(c, s, a))
  {
    hide Config.Start, Config.Chunk, InOrder, InUse, Held, Keyed;
  }

  lemma DeliveredStep(c: Config, s: State, a: Step)
    requires c.Valid() && Enabled(c, s, a) && Owned(s) && Counts(c, s) && Delivered(c, s)
    requires !SlotStep(a) && !RetrieverMove(a) && !a.RDeliver? && !a.RDeliverSw? && !a.SFallbackOk?
    ensures Delivered(c, Apply(c, s, a))
  {
  }

  lemma DeliveredAppend(c: Config, s: State, a: Step)
    requires c.Valid() && Enabled(c, s, a) && Phases(s) && Owned(s) && Counts(c, s) && Contents(c, s) && Delivered(c, s)
    requires a.RDeliver? || a.RDeliverSw?
    ensures Delivered(c, Apply(c, s, a))
  {
    hide Apply, Phases, Contents, InOrder;
    AnswerEffect(c, s, a);
    if a.RDeliver? { DeliverEffect(c, s); } else { DeliverSwEffect(c, s, a.frame); }
    var t := Apply(c, s, a);
    if |t.out.log| > |s.out.log| { InOrderAppend(s.out.log, t.out.log[|s.out.log|]); }
  }

  lemma DeliveredFallback(c: Config, s: State, a: Step)
    requires c.Valid() && Enabled(c, s, a) && Phases(s) && Owned(s) && Counts(c, s) && Delivered(c, s) && a.SFallbackOk?
    ensures Delivered(c, Apply(c, s, a))
  {
    OwnedFallback(c, s, a);
    InOrderAppend(s.out.log, Sw(s.sess.seqNo, a.frame));
  }

  // ---- the zero-copy slot ----

  /** Until the first chunk is delivered nothing has been written. */
  lemma NothingYet(c: Config, s: State)
    requires c.Valid() && Written(c, s.out) && Delivered(c, s) && Gone(s) == 0
    ensures s.out.next == 0 && s.out.log == []
  {
  }

  lemma SameChunkSameSlot(s: State, i: nat, j: nat)
    requires Owned(s) && InUse(s, i) && InUse(s, j) && s.slots[i].seqNo == s.slots[j].seqNo
    ensures i == j
  {
    assert Keyed(s, i) && Keyed(s, j);
  }

  /** While chunk 0 is with the hardware, or about to be delivered, the output is empty. */
  lemma FirstInFlight(s: State, j: nat)
    requires Phases(s) && Owned(s) && InUse(s, j) && s.slots[j].seqNo == 0 && s.sess.seqIn >= 0
    requires j in s.hw || s.rpc.Got?
    ensures Gone(s) == 0
  {
    assert Keyed(s, j) && PhaseOk(s, j);
    if s.rpc.Handled? {
      assert PhaseOk(s, s.rpc.slot);
      SameChunkSameSlot(s, j, s.rpc.slot);
    }
  }

  lemma NotSentYet(s: State)
    requires Phases(s) && Owned(s) && s.sess.seqNo == 0 && s.sess.seqIn >= 0 && s.spc.Claimed?
    ensures Gone(s) == 0
  {
    assert s.rpc.Handled? ==> InUse(s, s.rpc.slot) && Keyed(s, s.rpc.slot) by {
      if s.rpc.Handled? { assert PhaseOk(s, s.rpc.slot); }
    }
  }

  // ---- Contents ----

  lemma ContentsFrame(c: Config, s: State, t: State)
    requires c.Valid() && Contents(c, s) && |t.slots| == |s.slots| && t.out.mem == s.out.mem
    requires forall j: nat :: InUse(t, j) ==> InUse(s, j) && t.slots[j] == s.slots[j]
    ensures forall j: nat :: InUse(t, j) ==> SlotOk(c, t, j)
  {
    forall j: nat | InUse(t, j) ensures SlotOk(c, t, j) { assert SlotOk(c, s, j); }
  }

  predicate Touches(a: Step) {
    a.SSetup? || a.SSendOk? || a.SFallbackOk? || a.HDone? || a.HError? || a.RDeliver? || a.RDeliverSw? || a.RSkip?
  }

  lemma ContentsOther(c: Config, s: State, a: Step)
    requires c.Valid() && Enabled(c, s, a) && Phases(s) && Contents(c, s) && !Touches(a)
    ensures Contents(c, Apply(c, s, a))
  {
    var t := Apply(c, s, a);
    if s.rpc.Got? || s.rpc.Handled? { assert PhaseOk(s, s.rpc.slot); }
    if a.SPost? || a.SClaim? || a.SUndo1? || a.SUndo2? { assert PhaseOk(s, s.spc.slot); }
    ContentsFrame(c, s, t);
  }

  lemma ContentsSetup(c: Config, s: State, a: Step)
    requires c.Valid() && Enabled(c, s, a) && Phases(s) && Owned(s) && Counts(c, s) && Contents(c, s)
    requires Written(c, s.out) && Delivered(c, s) && a.SSetup?
    ensures Contents(c, Apply(c, s, a))
  {
    assert PhaseOk(s, s.spc.slot);
    if s.sess.seqNo == 0 { NotSentYet(s); NothingYet(c, s); }
    ContentsFrame(c, s, Apply(c, s, a));
  }

  lemma ContentsSendOk(c: Config, s: State, a: Step)
    requires c.Valid() && Enabled(c, s, a) && Phases(s) && Contents(c, s) && a.SSendOk?
    ensures Contents(c, Apply(c, s, a))
  {
    var t := Apply(c, s, a);
    assert PhaseOk(s, s.spc.slot);
    forall j: nat | InUse(t, j) ensures SlotOk(c, t, j) {
      if j != s.spc.slot { assert SlotOk(c, s, j); }
    }
  }

  /** Memory outside the payload of a zero-copy slot may change: only chunk 0 is written in place. */
  lemma ContentsChanged(c: Config, s: State, t: State, f: nat)
    requires c.Valid() && Phases(s) && Owned(s) && Contents(c, s) && InUse(s, f)
    requires s.slots[f].zeroCopy || s.slots[f].seqNo == Ack(s)
    requires |t.slots| == |s.slots| && (forall j: nat :: InUse(t, j) ==> InUse(s, j))
    requires forall j: nat :: InUse(t, j) && j != f ==> t.slots[j] == s.slots[j]
    requires InUse(t, f) ==> SlotOk(c, t, f)
    ensures forall j: nat :: InUse(t, j) ==> SlotOk(c, t, j)
  {
    forall j: nat | InUse(t, j) ensures SlotOk(c, t, j) {
      if j != f {
        assert SlotOk(c, s, j) && SlotOk(c, s, f) && Keyed(s, j) && Keyed(s, f);
      }
    }
  }

  lemma SpcSlotNotInUse(s: State)
    requires Phases(s) && (s.spc.Ready? || s.spc.Posted?)
    ensures HasSlot(s, s.spc.slot) && !InUse(s, s.spc.slot)
  {
    assert PhaseOk(s, s.spc.slot);
  }

  lemma ContentsHardware(c: Config, s: State, a: Step)
    requires c.Valid() && Enabled(c, s, a) && Phases(s) && Owned(s) && Counts(c, s) && Contents(c, s)
    requires a.HDone? || a.HError?
    ensures Contents(c, Apply(c, s, a))
  {
    var t, f := Apply(c, s, a), a.slot;
    assert PhaseOk(s, f) && SlotOk(c, s, f);
    if s.spc.Ready? || s.spc.Posted? { SpcSlotNotInUse(s); }
    if s.slots[f].zeroCopy {
      ContentsChanged(c, s, t, f);
    } else {
      forall j: nat | InUse(t, j) ensures SlotOk(c, t, j) {
        if j != f { assert SlotOk(c, s, j); }
      }
    }
  }

  lemma ContentsAnswer(c: Config, s: State, a: Step)
    requires c.Valid() && Enabled(c, s, a) && Phases(s) && Owned(s) && Contents(c, s) && Answer(a)
    ensures Contents(c, Apply(c, s, a))
  {
    hide Apply, At, Loaded;
    AnswerEffect(c, s, a);
    var t, f := Apply(c, s, a), s.rpc.slot;
    assert PhaseOk(s, f) && InUse(s, f) && SlotOk(c, s, f);
    if s.spc.Ready? || s.spc.Posted? { SpcSlotNotInUse(s); }
    AnsweredSlotOk(c, s, a);
    ContentsChanged(c, s, t, f);
  }

  /** The slot at hand stays in order: what it points at no longer matters once it has been answered. */
  lemma AnsweredSlotOk(c: Config, s: State, a: Step)
    requires c.Sized() && Enabled(c, s, a) && Answer(a) && s.slots[s.rpc.slot].Done() && SlotOk(c, s, s.rpc.slot)
    ensures HasSlot(Apply(c, s, a), s.rpc.slot) && SlotOk(c, Apply(c, s, a), s.rpc.slot)
  {
    hide Apply, Loaded, Completed;
    AnswerEffect(c, s, a);
    var t, x := Apply(c, s, a), s.slots[s.rpc.slot];
    RestoredSlotOk(c, s.out.mem, t.out.mem, x);
    assert !t.slots[s.rpc.slot].zeroCopy;
    assert t.slots[s.rpc.slot] == x.(zeroCopy := false);
  }

  lemma RestoredSlotOk(c: Config, mem: Data, now: Data, x: Slot)
    requires c.Sized() && Loaded(c, x) && Completed(c, mem, x)
    ensures Loaded(c, x.(zeroCopy := false)) && Completed(c, now, x.(zeroCopy := false))
    ensures !x.ok ==> !x.zeroCopy
  {
  }

  lemma ContentsFallback(c: Config, s: State, a: Step)
    requires c.Valid() && Enabled(c, s, a) && Phases(s) && Owned(s) && Contents(c, s) && a.SFallbackOk?
    ensures Contents(c, Apply(c, s, a))
  {
    OwnedFallback(c, s, a);
    assert forall j: nat :: !InUse(s, j);
    forall j: nat ensures !InUse(Apply(c, s, a), j) { assert !InUse(s, j); }
  }

  // ---- Written ----

  /** The hardware writes in place only while nothing has been delivered. */
  lemma WrittenHardware(c: Config, s: State, a: Step)
    requires c.Valid() && Enabled(c, s, a) && Phases(s) && Owned(s) && s.sess.seqIn >= 0 && Contents(c, s)
    requires Written(c, s.out) && Delivered(c, s) && (a.HDone? || a.HError?)
    ensures Written(c, Apply(c, s, a).out)
  {
    assert PhaseOk(s, a.slot) && SlotOk(c, s, a.slot);
    if s.slots[a.slot].zeroCopy {
      FirstInFlight(s, a.slot);
      NothingYet(c, s);
    }
  }

  lemma WrittenFallback(c: Config, s: State, a: Step)
    requires c.Valid() && Enabled(c, s, a) && Counts(c, s) && Written(c, s.out) && a.SFallbackOk?
    ensures Written(c, Apply(c, s, a).out)
  {
    WrittenAppend(c, s.out, Sw(s.sess.seqNo, a.frame), Apply(c, s, a).out);
  }

  lemma WrittenDeliverSw(c: Config, s: State, a: Step)
    requires c.Valid() && Enabled(c, s, a) && Phases(s) && Owned(s) && Contents(c, s) && Written(c, s.out)
             && a.RDeliverSw?
    ensures Written(c, Apply(c, s, a).out)
  {
    var t, f := Apply(c, s, a), s.rpc.slot;
    assert PhaseOk(s, f) && InUse(s, f) && SlotOk(c, s, f);
    if t.out.avail >= 0 { WrittenAppend(c, s.out, Sw(s.sess.seqIn, a.frame), t.out); }
  }

  lemma FrameAt(mem: Data, at: nat, head: Data, payload: Data, tail: Data, n: nat)
    requires At(mem, at, head) && At(mem, at + |head|, payload) && At(mem, at + |head| + |payload|, tail)
    requires n <= |tail|
    ensures At(mem, at, head + payload + tail[..n])
  {
    var f := head + payload + tail[..n];
    forall k | 0 <= k < |f| ensures f[k] == mem[at + k] {
      if k < |head| { assert f[k] == head[k]; }
      else if k < |head| + |payload| { assert f[k] == payload[k - |head|] == mem[at + |head| + (k - |head|)]; }
      else {
        var i := k - |head| - |payload|;
        assert f[k] == tail[i] == mem[at + |head| + |payload| + i];
      }
    }
  }

  lemma PlaceFrame(mem: Data, at: nat, head: Data, payload: Data, tail: Data, inPlace: bool, n: nat)
    requires at <= |mem| && (inPlace ==> At(mem, at + |head|, payload)) && n <= |tail|
    ensures var r := Place(mem, at, head, payload, tail, inPlace);
      && |r| >= |mem| && (|r| == |mem| || |r| == at + |head| + |payload| + |tail|)
      && (forall k :: 0 <= k < at ==> r[k] == mem[k])
      && At(r, at, head + payload + tail[..n])
  {
    PlaceFills(mem, at, head, payload, tail, inPlace);
    FrameAt(Place(mem, at, head, payload, tail, inPlace), at, head, payload, tail, n);
  }

  /** One more good response whose header, payload and footer are in place. */
  lemma WrittenPlace(c: Config, o: Output, r: Rec, o': Output)
    requires c.Valid() && Written(c, o) && GoodRec(c, r) && r.Hw? && o.avail >= |FrameOf(c, r)|
    requires var n, res := |FrameOf(c, r)|, ResultOf(c, r.chunk, r.payload);
      && o'.next == o.next + n && o'.outLen == o.outLen + n && o'.inLen == o.inLen + res.consumed
      && o'.crc == (if c.foldCrc then Fold(o.crc, res.checksum, res.consumed) else o.crc)
      && o'.avail == o.avail - n && o'.log == o.log + [r] && o'.late == o.late
      && |o'.mem| >= |o.mem| && (|o'.mem| == |o.mem| || |o'.mem| == o.next + c.hdrSz + |r.payload| + |c.footer(res)|)
    requires forall k :: 0 <= k < o.next ==> o'.mem[k] == o.mem[k]
    requires At(o'.mem, o.next, FrameOf(c, r))
    ensures Written(c, o')
  {
    WrittenAppend(c, o, r, o');
  }

  /** What the retriever has in hand when it decides to deliver. */
  lemma GotFacts(c: Config, s: State)
    requires c.Valid() && Phases(s) && Owned(s) && Counts(c, s) && Contents(c, s)
    requires Written(c, s.out) && Delivered(c, s) && s.rpc.Got? && HasSlot(s, s.rpc.slot) && s.slots[s.rpc.slot].ok
    ensures AtHand(c, s)
  {
    var f := s.rpc.slot;
    assert PhaseOk(s, f) && InUse(s, f) && SlotOk(c, s, f);
    if s.slots[f].zeroCopy { FirstInFlight(s, f); NothingYet(c, s); }
  }

  lemma WrittenDeliver(c: Config, s: State, a: Step)
    requires c.Valid() && Enabled(c, s, a) && Phases(s) && Owned(s) && Counts(c, s) && Contents(c, s)
    requires Written(c, s.out) && Delivered(c, s) && a.RDeliver?
    ensures Written(c, Apply(c, s, a).out)
  {
    GotFacts(c, s);
    WrittenDelivered(c, s);
  }

  /** A response that is dropped only makes the space that is left negative. */
  lemma WrittenShort(c: Config, o: Output, avail: int)
    requires c.Sized() && Written(c, o) && avail < 0
    ensures Written(c, o.(avail := avail, dropped := true))
  {
  }

  /** The retriever starts to count with the space that is left then. */
  lemma WrittenStart(c: Config, s: State, a: Step)
    requires c.Sized() && Enabled(c, s, a) && a.RStart? && Written(c, s.out)
    ensures Written(c, Apply(c, s, a).out)
  {
  }

  /** The retriever's response carries the result of its chunk. */
  predicate AtHand(c: Config, s: State)
    requires c.Sized() && s.rpc.Got? && HasSlot(s, s.rpc.slot) && s.sess.seqIn >= 0
  {
    var x, k := s.slots[s.rpc.slot], s.sess.seqIn;
    && GoodRec(c, Hw(k, x.buf)) && x.res == ResultOf(c, k, x.buf)
    && (x.zeroCopy ==> At(s.out.mem, s.out.next + c.hdrSz, x.buf))
  }

  lemma WrittenFits(c: Config, s: State)
    requires c.Valid() && Written(c, s.out) && s.rpc.Got? && HasSlot(s, s.rpc.slot) && s.sess.seqIn >= 0 && AtHand(c, s)
    requires s.out.avail >= |FrameOf(c, Hw(s.sess.seqIn, s.slots[s.rpc.slot].buf))|
    ensures Written(c, Deliver(c, s).out)
  {
    hide Place, Fold, Crc, Flat, Taken, Write, GoodRec, At;
    var x := s.slots[s.rpc.slot];
    PlaceFrame(s.out.mem, s.out.next, c.header(x.res), x.buf, c.footer(x.res), x.zeroCopy, c.ftrSz);
    WrittenPlace(c, s.out, Hw(s.sess.seqIn, x.buf), Deliver(c, s).out);
  }

  lemma WrittenDelivered(c: Config, s: State)
    requires c.Valid() && Written(c, s.out) && s.rpc.Got? && HasSlot(s, s.rpc.slot) && s.sess.seqIn >= 0 && AtHand(c, s)
    ensures Written(c, Deliver(c, s).out)
  {
    var x := s.slots[s.rpc.slot];
    var size := c.hdrSz + x.res.produced + c.ftrSz;
    if s.out.avail >= size { WrittenFits(c, s); } else { WrittenShort(c, s.out, s.out.avail - size); }
  }

  // ---- every step ----

  lemma {:induction false} InvStep(c: Config, s: State, a: Step)
    requires Inv(c, s) && Enabled(c, s, a)
    ensures Inv(c, Apply(c, s, a))
  {
    hide Apply, Phases, Owned, Counts, Contents, Written, Delivered;
    if SlotStep(a) { PhasesSubmit(c, s, a); }
    else if Answer(a) { PhasesAnswer(c, s, a); }
    else { PhasesOther(c, s, a); }
    if a.SSendOk? { OwnedSendOk(c, s, a); }
    else if a.SFallbackOk? { OwnedFallback(c, s, a); }
    else if a.RFree? { OwnedFree(c, s, a); }
    else if SlotStep(a) { OwnedSlotStep(c, s, a); }
    else if Answer(a) { OwnedAnswer(c, s, a); }
    else { OwnedOther(c, s, a); }
    if Answer(a) { CountsAnswer(c, s, a); }
    else if SlotStep(a) { CountsSubmit(c, s, a); }
    else if RetrieverMove(a) { CountsRetrieve(c, s, a); }
    else if a.SIncSeq? { CountsNext(c, s, a); }
    else { CountsStep(c, s, a); }
    InvStepOutput(c, s, a);
  }

  lemma SlotsKept(c: Config, s: State, a: Step)
    requires Enabled(c, s, a)
    ensures |Apply(c, s, a).slots| == |s.slots|
  {
    hide Write, Place, Fold, Crc;
  }

  lemma OutputKept(c: Config, s: State, a: Step)
    requires Enabled(c, s, a) && (!Touches(a) || a.SSetup? || a.SSendOk?)
    ensures !a.RStart? ==> Apply(c, s, a).out == s.out
    ensures Apply(c, s, a).out.mem == s.out.mem
  {
  }

  lemma SkipKeepsOutput(c: Config, s: State, a: Step)
    requires Enabled(c, s, a) && a.RSkip?
    ensures Apply(c, s, a).out == s.out
  {
  }

  lemma InvStepOutput(c: Config, s: State, a: Step)
    requires Inv(c, s) && Enabled(c, s, a)
    ensures var t := Apply(c, s, a);
      |t.slots| == |s.slots| && Contents(c, t) && Written(c, t.out) && Delivered(c, t)
  {
    hide Apply, Phases, Owned, Contents, Written, Delivered;
    SlotsKept(c, s, a);
    if a.SFallbackOk? { ContentsFallback(c, s, a); WrittenFallback(c, s, a); DeliveredFallback(c, s, a); }
    else if a.RDeliver? { ContentsAnswer(c, s, a); WrittenDeliver(c, s, a); DeliveredAppend(c, s, a); }
    else if a.RDeliverSw? { ContentsAnswer(c, s, a); WrittenDeliverSw(c, s, a); DeliveredAppend(c, s, a); }
    else {
      if SlotStep(a) { DeliveredSubmit(c, s, a); }
      else if RetrieverMove(a) { DeliveredRetrieve(c, s, a); }
      else { DeliveredStep(c, s, a); }
      if a.HDone? || a.HError? { ContentsHardware(c, s, a); WrittenHardware(c, s, a); }
      else if a.RSkip? { ContentsAnswer(c, s, a); SkipKeepsOutput(c, s, a); }
      else {
        OutputKept(c, s, a);
        if a.SSetup? { ContentsSetup(c, s, a); }
        else if a.SSendOk? { ContentsSendOk(c, s, a); }
        else { ContentsOther(c, s, a); }
      }
      if a.RStart? { WrittenStart(c, s, a); }
    }
  }

  lemma InvInit(c: Config, s: State)
    requires Init(c, s)
    ensures Inv(c, s)
  {
    assert Taken(c, []) == [] && Flat(c, []) == [] && Folded(c, []) == c.crc0;
    forall j: nat ensures !InUse(s, j) { if HasSlot(s, j) { assert s.slots[j].Free(); } }
  }
}
