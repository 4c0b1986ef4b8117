/** The compression offload of one API call as a transition system.

    Three agents share an array of slots: the submitter (doCompressIn), the hardware with its
    completion callback (dcCallback), and the retriever (doCompressOut). Steps are sequentially
    consistent and interleave freely; the hardware completes requests in any order. Payloads,
    retries, device failures and software results are choices carried by the step labels. */
module CompressProtocol {
  import opened Bytes
  import opened Crc32
  import opened Formats

  type Data = seq<byte>

  /** What is fixed during a call. sumOf is the checksum the hardware is set up for; payloadOf and
      swFrameOf are the contracts of the hardware and of the software compressor: which outputs they
      may give for a chunk. */
  datatype Config = Config(
    src: Data, hwBuffSz: nat, destSz: nat, slotCount: nat,
    swBackup: bool, singleThread: bool,
    hdrSz: nat, ftrSz: nat, header: Results -> Data, footer: Results -> Data,
    foldCrc: bool, crc0: Word, sumOf: Data -> Word,
    payloadOf: (Data, Data) -> bool, swFrameOf: (Data, Data) -> bool
  ) {
    ghost predicate Valid() {
      && hwBuffSz > 0 && slotCount > 0 && Sized()
      && (forall r :: |header(r)| == hdrSz)
      && (forall r :: |footer(r)| >= ftrSz)
    }

    /** The destination holds at least one header. */
    predicate Sized() { hdrSz <= destSz && hdrSz <= 1024 }

    /** The size function agrees with the footer generator: every format but DEFLATE_4B. */
    ghost predicate Tight() {
      forall r :: |footer(r)| == ftrSz
    }

    /** Where chunk k begins: each but the last has hwBuffSz bytes. */
    function Start(k: nat): (r: nat)
      ensures r <= |src|
    {
      if k == 0 then 0 else Min(Start(k - 1) + hwBuffSz, |src|)
    }

    function Chunk(k: nat): Data {
      src[Start(k)..Min(Start(k) + hwBuffSz, |src|)]
    }

    /** Destination bytes offered to the hardware for a chunk of n bytes. */
    function Room(n: nat): nat
      requires Sized()
    {
      Min(destSz, DestSz(n)) - hdrSz
    }
  }

  function Min(a: int, b: int): int { if a < b then a else b }

  // ---- state ----

  /** One QzCpaStream_T with its source and destination buffers. */
  datatype Slot = Slot(
    seqNo: int, src1: int, src2: int, sink1: int, sink2: int,
    data: Data, room: nat,
    zeroCopy: bool, dma: nat,        // dest_need_reset, and where the hardware then writes
    ok: bool, buf: Data, res: Results
  ) {
    predicate Free() { src1 == src2 == sink1 == sink2 }
    predicate Reserved() { src1 == src2 + 1 && src2 == sink1 == sink2 }
    predicate Busy() { src1 == src2 == sink1 + 1 && sink1 == sink2 }
    predicate Done() { src1 == src2 == sink1 == sink2 + 1 }
    predicate HalfUndone() { src1 == sink1 == sink2 && src2 == src1 + 1 }
  }

  datatype Stat = Ok | BufError | Fail

  datatype SubmitPc =
    | Loop | Found(slot: nat) | Claimed(slot: nat) | Ready(slot: nat) | Posted(slot: nat)
    | Undo(slot: nat) | Undone(slot: nat) | Fallback | FallbackSeq | FallbackSw
    | Sent | SwDone | Counting | Checking | Erring | Finished

  /** short: the response was dropped for lack of space, just now. */
  datatype RetrievePc =
    | Starting | Poll | Got(slot: nat) | Handled(slot: nat, short: bool)
    | Freed(short: bool) | Counted(short: bool)
    | Short | ShortStat | Exited

  datatype Session = Session(
    seqNo: int, seqIn: int, submitted: int, processed: int,
    lastSubmitted: bool, stopSubmitting: bool, stat: Stat)

  /** A delivered frame: which chunk, and what the compressor gave for it. */
  datatype Rec = Hw(chunk: nat, payload: Data) | Sw(chunk: nat, frame: Data)

  /** Destination memory and the counters that describe it. avail is the retriever's own count of
      the space that is left. History: log; dropped, a response was thrown away; late, a chunk was
      delivered after that. */
  datatype Output = Output(
    mem: Data, next: nat, outLen: nat, inLen: nat, crc: Word, avail: int,
    log: seq<Rec>, dropped: bool, late: bool)

  /** owner is history: the slot each chunk was handed over in, -1 for software chunks. */
  datatype State = State(
    slots: seq<Slot>, hw: set<nat>, owner: seq<int>,
    sess: Session, out: Output, spc: SubmitPc, srcPos: nat, rpc: RetrievePc)

  datatype Step =
    // submitter
    | SFind(slot: nat) | SDeviceDown | SClaim | SSetup(pinned: bool) | SPost | SSendOk | SSendFail
    | SUndo1 | SUndo2 | SFallbackRefuse | SFallbackGo | SFallbackWait | SFallbackTurn
    | SFallbackError | SFallbackOk(frame: Data)
    | SIncSeq | SIncSubmitted | SCheck | SErr
    // hardware completion
    | HDone(slot: nat, payload: Data) | HError(slot: nat)
    // retriever
    | RStart | RMatch(slot: nat) | RSkip | RDeliver | RDeliverSw(frame: Data)
    | RFree | RCount | RAck | RStop | RSetStat | RExit

  // ---- steps ----

  function Sending(c: Config, s: State): Data
    requires s.srcPos <= |c.src|
  {
    c.src[s.srcPos..Min(s.srcPos + c.hwBuffSz, |c.src|)]
  }

  predicate MayFallBack(c: Config, s: State) {
    c.swBackup && !c.singleThread && !s.sess.stopSubmitting
  }

  predicate HasSlot(s: State, j: nat) { j < |s.slots| }

  predicate WellFormed(c: Config, s: State) {
    && s.srcPos <= |c.src|
    && (s.spc.Claimed? || s.spc.Ready? || s.spc.Found? || s.spc.Posted? || s.spc.Undo? || s.spc.Undone?
        ==> HasSlot(s, s.spc.slot))
    && (s.rpc.Got? || s.rpc.Handled? ==> HasSlot(s, s.rpc.slot))
  }

  predicate Enabled(c: Config, s: State, a: Step) {
    WellFormed(c, s) &&
    match a
    case SFind(j) => s.spc.Loop? && HasSlot(s, j) && s.slots[j].Free()
    case SDeviceDown => s.spc.Loop?
    case SClaim => s.spc.Found?
    case SSetup(_) => s.spc.Claimed? && c.Sized()
    case SPost => s.spc.Ready?
    case SSendOk => s.spc.Posted?
    case SSendFail => s.spc.Posted?
    case SUndo1 => s.spc.Undo?
    case SUndo2 => s.spc.Undone?
    case SFallbackRefuse => s.spc.Fallback? && !MayFallBack(c, s)
    case SFallbackGo => s.spc.Fallback? && MayFallBack(c, s)
    case SFallbackWait => s.spc.FallbackSeq? && s.sess.seqNo != s.sess.seqIn
    case SFallbackTurn => s.spc.FallbackSeq? && s.sess.seqNo == s.sess.seqIn
    case SFallbackError => s.spc.FallbackSw?
    case SFallbackOk(frame) =>
      s.spc.FallbackSw? && s.sess.seqNo >= 0 && c.swFrameOf(Sending(c, s), frame) && |frame| <= DestSz(|Sending(c, s)|)
    case SIncSeq => s.spc.Sent? || s.spc.SwDone?
    case SIncSubmitted => s.spc.Counting?
    case SCheck => s.spc.Checking?
    case SErr => s.spc.Erring?
    case HDone(j, payload) =>
      j in s.hw && HasSlot(s, j)
      && c.payloadOf(s.slots[j].data, payload) && |payload| <= s.slots[j].room
    case HError(j) => j in s.hw && HasSlot(s, j) && c.swBackup && !s.slots[j].zeroCopy
    case RStart => s.rpc.Starting?
    case RMatch(j) =>
      s.rpc.Poll? && HasSlot(s, j) && s.slots[j].seqNo == s.sess.seqIn && s.slots[j].Done()
    case RSkip => s.rpc.Got? && s.sess.stat.BufError?
    case RDeliver => s.rpc.Got? && !s.sess.stat.BufError? && s.slots[s.rpc.slot].ok && s.sess.seqIn >= 0
    case RDeliverSw(frame) =>
      s.rpc.Got? && !s.sess.stat.BufError? && !s.slots[s.rpc.slot].ok && s.sess.seqIn >= 0
      && c.swBackup && c.swFrameOf(s.slots[s.rpc.slot].data, frame)
      && |frame| <= c.hdrSz + s.slots[s.rpc.slot].room
    case RFree => s.rpc.Handled?
    case RCount => s.rpc.Freed?
    case RAck => s.rpc.Counted?
    case RStop => s.rpc.Short?
    case RSetStat => s.rpc.ShortStat?
    case RExit => s.rpc.Poll? && s.sess.lastSubmitted && s.sess.processed >= s.sess.submitted
  }

  function SetSlot(s: State, j: nat, x: Slot): State
    requires HasSlot(s, j)
  {
    s.(slots := s.slots[j := x])
  }

  /** The completion callback; with zero copy the hardware has written the user's buffer. */
  function Complete(c: Config, s: State, j: nat, payload: Data, ok: bool): State
    requires HasSlot(s, j)
  {
    var x := s.slots[j];
    var y := x.(sink1 := x.sink1 + 1, ok := ok, buf := payload,
                res := Results(|x.data|, |payload|, c.sumOf(x.data)));
    var mem := if ok && x.zeroCopy then Write(s.out.mem, x.dma, payload) else s.out.mem;
    s.(slots := s.slots[j := y], hw := s.hw - {j}, out := s.out.(mem := mem))
  }

  /** compOutCheckDestLen failed: the response is skipped and its destination pointer restored. */
  function TooShort(s: State, size: nat): State
    requires s.rpc.Got? && HasSlot(s, s.rpc.slot)
  {
    var j := s.rpc.slot;
    s.(slots := s.slots[j := s.slots[j].(zeroCopy := false)],
       out := s.out.(avail := s.out.avail - size, dropped := true), rpc := Handled(j, true))
  }

  function Place(mem: Data, at: nat, head: Data, payload: Data, tail: Data, inPlace: bool): Data {
    var a := Write(mem, at, head);
    var b := if inPlace then a else Write(a, at + |head|, payload);
    Write(b, at + |head| + |payload|, tail)
  }

  /** Header, payload, footer; counters; checksum. */
  function Deliver(c: Config, s: State): State
    requires s.rpc.Got? && HasSlot(s, s.rpc.slot) && s.sess.seqIn >= 0
  {
    var j, o := s.rpc.slot, s.out;
    var x := s.slots[j];
    var size := c.hdrSz + x.res.produced + c.ftrSz;
    if o.avail - size < 0 then TooShort(s, size)
    else
      s.(slots := s.slots[j := x.(zeroCopy := false)], rpc := Handled(j, false),
         out := Output(
           Place(o.mem, o.next, c.header(x.res), x.buf, c.footer(x.res), x.zeroCopy),
           o.next + size, o.outLen + size, o.inLen + x.res.consumed,
           if c.foldCrc then Fold(o.crc, x.res.checksum, x.res.consumed) else o.crc,
           o.avail - size, o.log + [Hw(s.sess.seqIn, x.buf)], o.dropped, o.late))
  }

  /** compOutSWFallback on a slot with its own destination buffer. */
  function DeliverSw(c: Config, s: State, frame: Data): State
    requires s.rpc.Got? && HasSlot(s, s.rpc.slot) && s.sess.seqIn >= 0
  {
    var j, o := s.rpc.slot, s.out;
    if o.avail - |frame| < 0 then TooShort(s, |frame|)
    else
      s.(rpc := Handled(j, false),
         out := o.(mem := Write(o.mem, o.next, frame), next := o.next + |frame|,
                   outLen := o.outLen + |frame|, inLen := o.inLen + |s.slots[j].data|,
                   avail := o.avail - |frame|, log := o.log + [Sw(s.sess.seqIn, frame)]))
  }

  /** compInSWFallback, once its three checks have passed: compresses straight into the destination,
      unseen by avail unless the retriever has not started yet. */
  function FallbackOk(c: Config, s: State, frame: Data): State
    requires s.sess.seqNo >= 0 && s.srcPos <= |c.src|
  {
    var o := s.out;
    s.(spc := SwDone, owner := s.owner + [-1],
       sess := s.sess.(seqIn := s.sess.seqIn + 1, processed := s.sess.processed + 1),
       out := o.(mem := Write(o.mem, o.next, frame), next := o.next + |frame|,
                 outLen := o.outLen + |frame|, inLen := o.inLen + |Sending(c, s)|,
                 log := o.log + [Sw(s.sess.seqNo, frame)], late := o.late || o.dropped))
  }

  function Setup(c: Config, s: State, pinned: bool): Slot
    requires s.spc.Claimed? && HasSlot(s, s.spc.slot) && c.Sized() && s.srcPos <= |c.src|
  {
    s.slots[s.spc.slot].(
      seqNo := s.sess.seqNo, data := Sending(c, s), room := c.Room(|Sending(c, s)|),
      zeroCopy := s.sess.seqNo == 0 && pinned, dma := s.out.next + c.hdrSz)
  }

  function Apply(c: Config, s: State, a: Step): State
    requires Enabled(c, s, a)
  {
    match a
    case SFind(j) => s.(spc := Found(j))
    case SDeviceDown => s.(spc := Fallback)
    case SClaim =>
      var x := s.slots[s.spc.slot];
      SetSlot(s, s.spc.slot, x.(src1 := x.src1 + 1)).(spc := Claimed(s.spc.slot))
    case SSetup(pinned) => SetSlot(s, s.spc.slot, Setup(c, s, pinned)).(spc := Ready(s.spc.slot))
    case SPost =>
      var x := s.slots[s.spc.slot];
      SetSlot(s, s.spc.slot, x.(src2 := x.src2 + 1)).(spc := Posted(s.spc.slot))
    case SSendOk => s.(hw := s.hw + {s.spc.slot}, owner := s.owner + [s.spc.slot], spc := Sent)
    case SSendFail => s.(spc := Undo(s.spc.slot))
    case SUndo1 =>
      var x := s.slots[s.spc.slot];
      SetSlot(s, s.spc.slot, x.(zeroCopy := false, src1 := x.src1 - 1)).(spc := Undone(s.spc.slot))
    case SUndo2 =>
      var x := s.slots[s.spc.slot];
      SetSlot(s, s.spc.slot, x.(src2 := x.src2 - 1)).(spc := Fallback)
    case SFallbackRefuse =>
      s.(spc := Erring, sess := s.sess.(stopSubmitting := true, lastSubmitted := true))
    case SFallbackGo => s.(spc := FallbackSeq)
    case SFallbackWait => s.(spc := Loop)
    case SFallbackTurn => s.(spc := FallbackSw)
    case SFallbackError =>
      s.(spc := Erring, sess := s.sess.(stopSubmitting := true, lastSubmitted := true))
    case SFallbackOk(frame) => FallbackOk(c, s, frame)
    case SIncSeq =>
      s.(spc := Counting, srcPos := s.srcPos + |Sending(c, s)|,
         sess := s.sess.(seqNo := s.sess.seqNo + 1))
    case SIncSubmitted => s.(spc := Checking, sess := s.sess.(submitted := s.sess.submitted + 1))
    case SCheck =>
      if s.sess.stopSubmitting || s.srcPos == |c.src|
      then s.(spc := Finished, sess := s.sess.(lastSubmitted := true))
      else s.(spc := Loop)
    case SErr => s.(spc := Finished, sess := s.sess.(stat := Fail))
    case HDone(j, payload) => Complete(c, s, j, payload, true)
    case HError(j) => Complete(c, s, j, [], false)
    case RStart => s.(rpc := Poll, out := s.out.(avail := c.destSz - s.out.outLen))
    case RMatch(j) => s.(rpc := Got(j))
    case RSkip =>
      SetSlot(s, s.rpc.slot, s.slots[s.rpc.slot].(zeroCopy := false))
        .(rpc := Handled(s.rpc.slot, false))
    case RDeliver => Deliver(c, s)
    case RDeliverSw(frame) => DeliverSw(c, s, frame)
    case RFree =>
      var x := s.slots[s.rpc.slot];
      SetSlot(s, s.rpc.slot, x.(sink2 := x.sink2 + 1)).(rpc := Freed(s.rpc.short))
    case RCount =>
      s.(rpc := Counted(s.rpc.short), sess := s.sess.(processed := s.sess.processed + 1))
    case RAck =>
      s.(rpc := if s.rpc.short then Short else Poll, sess := s.sess.(seqIn := s.sess.seqIn + 1))
    case RStop => s.(rpc := ShortStat, sess := s.sess.(stopSubmitting := true))
    case RSetStat => s.(rpc := Poll, sess := s.sess.(stat := BufError))
    case RExit => s.(rpc := Exited)
  }

  /** resetQzsess, with all slots free (their counters keep the values of earlier calls). */
  ghost predicate Init(c: Config, s: State) {
    && c.Valid() && |s.slots| == c.slotCount
    && (forall j :: 0 <= j < |s.slots| ==> s.slots[j].Free())
    && s.hw == {} && s.owner == []
    && s.sess == Session(0, 0, 0, 0, false, false, Ok)
    && |s.out.mem| == c.destSz
    && s.out == Output(s.out.mem, 0, 0, 0, c.crc0, c.destSz, [], false, false)
    && s.spc == Loop && s.srcPos == 0 && s.rpc == Starting
  }
}
