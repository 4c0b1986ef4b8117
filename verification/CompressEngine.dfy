/** The compression engine as the code has it: one session and one array of streams, updated in
    place. Every method takes the steps of the protocol that its C function takes. */
module CompressEngine {
  import opened Bytes
  import opened Crc32
  import opened Formats
  import opened CompressProtocol
  import opened CompressInvariant
  import opened CompressRuns
  import opened CompressProgress
  import opened CompressSpace

  /** What one poll delivers: a good result, or a dummy or failed one. */
  datatype Completion = Good(slot: nat, payload: Data) | Bad(slot: nat)

  /** The protocol's steps of one round of the submitting loop. */
  function ChunkSteps(j: nat, pinned: bool): seq<Step> {
    [SFind(j), SClaim, SSetup(pinned), SPost, SSendOk, SIncSeq, SIncSubmitted, SCheck]
  }

  function SubmitSteps(slots: seq<nat>, pinned: bool): seq<Step> {
    if |slots| == 0 then []
    else SubmitSteps(slots[..|slots| - 1], pinned) + ChunkSteps(slots[|slots| - 1], pinned)
  }

  class Engine {
    const cfg: Config
    const stream: array<Slot>
    var seqNo: int
    var seqIn: int
    var submitted: int
    var processed: int
    var lastSubmitted: bool
    var stopSubmitting: bool
    var stat: Stat
    var mem: Data
    var nextDest: nat
    var outLen: nat
    var inLen: nat
    var crc: Word
    var avail: int
    var srcPos: nat
    // history and program counters
    ghost var hw: set<nat>
    ghost var owner: seq<int>
    ghost var log: seq<Rec>
    ghost var dropped: bool
    ghost var late: bool
    ghost var spc: SubmitPc
    ghost var rpc: RetrievePc

    ghost function View(): State
      reads this, stream
    {
      State(stream[..], hw, owner,
            Session(seqNo, seqIn, submitted, processed, lastSubmitted, stopSubmitting, stat),
            Output(mem, nextDest, outLen, inLen, crc, avail, log, dropped, late), spc, srcPos, rpc)
    }

    /** resetQzsess on an instance all of whose streams are free. */
    constructor (c: Config, streams: array<Slot>, dest: Data)
      requires c.Valid() && streams.Length == c.slotCount && |dest| == c.destSz
      requires forall j :: 0 <= j < streams.Length ==> streams[j].Free()
      ensures cfg == c && stream == streams && Init(c, View())
    {
      cfg, stream := c, streams;
      seqNo, seqIn, submitted, processed := 0, 0, 0, 0;
      lastSubmitted, stopSubmitting, stat := false, false, Ok;
      mem, nextDest, outLen, inLen, crc, avail := dest, 0, 0, 0, c.crc0, c.destSz;
      srcPos := 0;
      hw, owner, log, dropped, late, spc, rpc := {}, [], [], false, false, Loop, Starting;
    }

    // ---- submitter ----

    /** getUnusedBuffer: the first free stream from j on, else the first free one at all. */
    method GetUnusedBuffer(j: int) returns (k: int)
      ensures k == -1 <==> forall i :: 0 <= i < stream.Length ==> !stream[i].Free()
      ensures k != -1 ==> 0 <= k < stream.Length && stream[k].Free()
      ensures k >= j ==> forall i :: 0 <= j <= i < k ==> !stream[i].Free()
      ensures 0 <= k < j ==> forall i :: (0 <= i < k || j <= i < stream.Length) ==> !stream[i].Free()
    {
      var max := stream.Length;
      var start := if j < 0 then 0 else if j >= max then max else j;
      k := start;
      while k < max
        invariant start <= k <= max
        invariant forall i :: start <= i < k ==> !stream[i].Free()
      {
        if stream[k].Free() { return; }
        k := k + 1;
      }
      k := 0;
      while k < max
        invariant 0 <= k <= max
        invariant forall i :: 0 <= i < k || start <= i < max ==> !stream[i].Free()
      {
        if stream[k].Free() { return; }
        k := k + 1;
      }
      k := -1;
    }

    /** src1++ on the stream that was found. */
    method Reserve(j: nat)
      requires Enabled(cfg, View(), SFind(j))
      modifies this`spc, stream
      ensures View() == Apply(cfg, Apply(cfg, old(View()), SFind(j)), SClaim) && spc == Claimed(j)
    {
      stream[j] := stream[j].(src1 := stream[j].src1 + 1);
      spc := Claimed(j);
    }

    /** Feeds the next chunk; zero copy for the first request when the destination is pinned. */
    method CompBufferSetup(j: nat, pinned: bool)
      requires Enabled(cfg, View(), SSetup(pinned)) && spc.slot == j
      modifies this`spc, stream
      ensures View() == Apply(cfg, old(View()), SSetup(pinned)) && spc == Ready(j)
    {
      var sendSz := if |cfg.src| - srcPos < cfg.hwBuffSz then |cfg.src| - srcPos else cfg.hwBuffSz;
      var room := if cfg.destSz > DestSz(sendSz) then DestSz(sendSz) - cfg.hdrSz else cfg.destSz - cfg.hdrSz;
      stream[j] := stream[j].(seqNo := seqNo, data := cfg.src[srcPos..srcPos + sendSz], room := room,
                              zeroCopy := seqNo == 0 && pinned, dma := nextDest + cfg.hdrSz);
      spc := Ready(j);
    }

    /** src2++: this buffer is in use. */
    method Publish(j: nat)
      requires Enabled(cfg, View(), SPost) && spc.slot == j
      modifies this`spc, stream
      ensures View() == Apply(cfg, old(View()), SPost) && spc == Posted(j)
    {
      stream[j] := stream[j].(src2 := stream[j].src2 + 1);
      spc := Posted(j);
    }

    /** cpaDcCompressData2 accepts the request: from here on the hardware may answer. */
    ghost method Send()
      requires Enabled(cfg, View(), SSendOk)
      modifies this`spc, this`hw, this`owner
      ensures View() == Apply(cfg, old(View()), SSendOk) && spc == Sent
    {
      hw, owner, spc := hw + {spc.slot}, owner + [spc.slot], Sent;
    }

    /** compInBufferCleanUp after a refused request: pointers first, then the counters. */
    method CompInBufferCleanUp(j: nat)
      requires Enabled(cfg, View(), SUndo1) && spc.slot == j
      modifies this`spc, stream
      ensures View() == Apply(cfg, Apply(cfg, old(View()), SUndo1), SUndo2)
    {
      stream[j] := stream[j].(zeroCopy := false, src1 := stream[j].src1 - 1);
      stream[j] := stream[j].(src2 := stream[j].src2 - 1);
      spc := Fallback;
    }

    /** Moves on in the source and counts the sequence number. */
    method NextChunk()
      requires Enabled(cfg, View(), SIncSeq)
      modifies this`spc, this`srcPos, this`seqNo
      ensures View() == Apply(cfg, old(View()), SIncSeq) && spc == Counting && seqNo == old(seqNo) + 1
    {
      var remaining := |cfg.src| - srcPos;
      srcPos := srcPos + if remaining < cfg.hwBuffSz then remaining else cfg.hwBuffSz;
      seqNo := seqNo + 1;
      spc := Counting;
    }

    method CountSubmitted()
      requires Enabled(cfg, View(), SIncSubmitted)
      modifies this`spc, this`submitted
      ensures View() == Apply(cfg, old(View()), SIncSubmitted) && spc == Checking
    {
      submitted := submitted + 1;
      spc := Checking;
    }

    /** The end of a round of the submitting loop. */
    method CheckDone() returns (done: bool)
      requires Enabled(cfg, View(), SCheck)
      modifies this`spc, this`lastSubmitted
      ensures View() == Apply(cfg, old(View()), SCheck)
      ensures done == (stopSubmitting || srcPos == |cfg.src|) && spc == if done then Finished else Loop
    {
      var remaining := if stopSubmitting then 0 else |cfg.src| - srcPos;
      done := remaining == 0;
      if done { lastSubmitted := true; }
      spc := if done then Finished else Loop;
    }

    /** The first half of a round: from a free stream to a published request. */
    method Prepare(j: nat, pinned: bool)
      requires Reachable(cfg, View()) && Enabled(cfg, View(), SFind(j)) && cfg.Sized()
      modifies this`spc, stream
      ensures Leads(cfg, old(View()), [SFind(j), SClaim, SSetup(pinned), SPost], View())
      ensures Reachable(cfg, View()) && spc == Posted(j)
    {
      hide Apply, Reachable, Leads;
      ghost var s := View();
      Reserve(j);
      ClaimLeads(s, j);
      ghost var t := View();
      InShape(t);
      CompBufferSetup(j, pinned);
      NextLeads(s, [SFind(j), SClaim], t, SSetup(pinned));
      assert [SFind(j), SClaim] + [SSetup(pinned)] == [SFind(j), SClaim, SSetup(pinned)];
      t := View();
      InShape(t);
      Publish(j);
      NextLeads(s, [SFind(j), SClaim, SSetup(pinned)], t, SPost);
      assert [SFind(j), SClaim, SSetup(pinned)] + [SPost] == [SFind(j), SClaim, SSetup(pinned), SPost];
    }

    /** The second half: the request is accepted and the next chunk comes up. */
    method SendAndMove()
      requires Reachable(cfg, View()) && Enabled(cfg, View(), SSendOk)
      modifies this`spc, this`srcPos, this`seqNo, this`hw, this`owner
      ensures Leads(cfg, old(View()), [SSendOk, SIncSeq], View())
      ensures Reachable(cfg, View()) && spc == Counting && seqNo == old(seqNo) + 1
    {
      hide Apply, Reachable, Leads;
      ghost var s := View();
      Send();
      FirstLeads(s, SSendOk);
      ghost var t := View();
      InShape(t);
      NextChunk();
      NextLeads(s, [SSendOk], t, SIncSeq);
      assert [SSendOk] + [SIncSeq] == [SSendOk, SIncSeq];
    }

    method CountAndCheck() returns (done: bool)
      requires Reachable(cfg, View()) && spc == Counting
      modifies this`spc, this`submitted, this`lastSubmitted
      ensures Leads(cfg, old(View()), [SIncSubmitted, SCheck], View())
      ensures Reachable(cfg, View()) && spc == (if done then Finished else Loop)
      ensures done <==> stopSubmitting || srcPos == |cfg.src|
    {
      hide Apply, Reachable, Leads;
      ghost var s := View();
      InShape(s);
      CountSubmitted();
      FirstLeads(s, SIncSubmitted);
      ghost var t := View();
      InShape(t);
      done := CheckDone();
      NextLeads(s, [SIncSubmitted], t, SCheck);
      assert [SIncSubmitted] + [SCheck] == [SIncSubmitted, SCheck];
    }

    /** One round of the submitting loop: with a free stream left, no waiting is needed. */
    method SendChunk(last: int, pinned: bool) returns (j: int, done: bool)
      requires Reachable(cfg, View()) && WellFormed(cfg, View()) && spc.Loop? && cfg.Sized()
      requires exists i :: 0 <= i < stream.Length && stream[i].Free()
      modifies this`spc, this`srcPos, this`seqNo, this`submitted, this`lastSubmitted, this`hw, this`owner, stream
      ensures j >= 0 && Leads(cfg, old(View()), ChunkSteps(j, pinned), View())
      ensures Reachable(cfg, View()) && spc == (if done then Finished else Loop) && seqNo == old(seqNo) + 1
      ensures done <==> stopSubmitting || srcPos == |cfg.src|
    {
      hide Apply, Reachable, Leads;
      ghost var s := View();
      j := GetUnusedBuffer(last);
      Prepare(j, pinned);
      ghost var t := View();
      InShape(t);
      SendAndMove();
      LeadsAppend(cfg, s, [SFind(j), SClaim, SSetup(pinned), SPost], t, [SSendOk, SIncSeq], View());
      t := View();
      done := CountAndCheck();
      LeadsAppend(cfg, s, [SFind(j), SClaim, SSetup(pinned), SPost] + [SSendOk, SIncSeq],
                  t, [SIncSubmitted, SCheck], View());
      assert ChunkSteps(j, pinned)
          == [SFind(j), SClaim, SSetup(pinned), SPost] + [SSendOk, SIncSeq] + [SIncSubmitted, SCheck];
    }

    /** doCompressIn in a single-threaded call: nothing is retrieved until every chunk is sent. slots
        tells which stream each chunk went to. */
    method DoCompressIn(pinned: bool) returns (ghost slots: seq<nat>)
      requires Reachable(cfg, View()) && spc.Loop? && rpc.Starting? && seqIn == 0 && RequestCount(cfg) <= cfg.slotCount
      modifies this`spc, this`srcPos, this`seqNo, this`submitted, this`lastSubmitted, this`hw, this`owner, stream
      ensures Leads(cfg, old(View()), SubmitSteps(slots, pinned), View())
      ensures Reachable(cfg, View()) && spc.Finished? && seqNo == old(seqNo) + |slots|
      ensures !stopSubmitting ==> seqNo == Chunks(cfg) && srcPos == |cfg.src|
    {
      hide Apply, Reachable, Leads;
      var j, done := -1, false;
      slots := [];
      SeqInRange();
      ghost var s := View();
      StayLeads(s);
      while !done
        invariant Reachable(cfg, View()) && spc == (if done then Finished else Loop)
        invariant cfg.Valid() && WellFormed(cfg, View()) && 0 <= seqNo <= Chunks(cfg)
        invariant Leads(cfg, s, SubmitSteps(slots, pinned), View()) && seqNo == old(seqNo) + |slots|
        invariant done ==> |slots| > 0 && (stopSubmitting || srcPos == |cfg.src|)
        decreases Chunks(cfg) - seqNo
      {
        SomeStreamFree();
        ghost var t := View();
        j, done := SendChunk(j, pinned);
        LeadsAppend(cfg, s, SubmitSteps(slots, pinned), t, ChunkSteps(j, pinned), View());
        assert (slots + [j])[..|slots|] == slots;
        slots := slots + [j];
        SeqInRange();
      }
      AllSent();
    }

    lemma AllSent()
      requires Reachable(cfg, View()) && seqNo > 0 && cfg.hwBuffSz > 0
      ensures srcPos == |cfg.src| ==> seqNo == Chunks(cfg)
    {
      ReachableInv(cfg, View());
      HandedOverIsCounted(cfg, View());
      SendableIffCounted(cfg, seqNo);
    }

    // ---- steps taken one after the other ----

    lemma StayLeads(s: State)
      ensures Leads(cfg, s, [], s)
    {
    }

    lemma FirstLeads(s: State, a: Step)
      requires Reachable(cfg, s) && Enabled(cfg, s, a)
      ensures Leads(cfg, s, [a], Apply(cfg, s, a)) && Reachable(cfg, Apply(cfg, s, a))
    {
      LeadsOne(cfg, s, a);
      ReachableNext(cfg, s, a);
    }

    lemma NextLeads(s: State, steps: seq<Step>, t: State, a: Step)
      requires Leads(cfg, s, steps, t) && Reachable(cfg, t) && Enabled(cfg, t, a)
      ensures Leads(cfg, s, steps + [a], Apply(cfg, t, a)) && Reachable(cfg, Apply(cfg, t, a))
    {
      hide Apply, Leads, Reachable;
      FirstLeads(t, a);
      LeadsAppend(cfg, s, steps, t, [a], Apply(cfg, t, a));
    }

    lemma ClaimLeads(s: State, j: nat)
      requires Reachable(cfg, s) && Enabled(cfg, s, SFind(j))
      ensures Enabled(cfg, Apply(cfg, s, SFind(j)), SClaim)
      ensures var t := Apply(cfg, Apply(cfg, s, SFind(j)), SClaim);
        Leads(cfg, s, [SFind(j), SClaim], t) && Reachable(cfg, t)
    {
      FirstLeads(s, SFind(j));
      NextLeads(s, [SFind(j)], Apply(cfg, s, SFind(j)), SClaim);
      assert [SFind(j)] + [SClaim] == [SFind(j), SClaim];
    }

    lemma SomeStreamFree()
      requires Reachable(cfg, View()) && spc.Loop? && rpc.Starting? && seqIn == 0
      requires cfg.hwBuffSz > 0 && RequestCount(cfg) <= cfg.slotCount
      ensures exists i :: 0 <= i < stream.Length && stream[i].Free()
    {
      SubmitterNeverBlocks(cfg, View());
      var i :| 0 <= i < |View().slots| && View().slots[i].Free();
      assert stream[i].Free();
    }

    lemma SeqInRange()
      requires Reachable(cfg, View())
      ensures cfg.Valid() && WellFormed(cfg, View()) && 0 <= seqNo <= Chunks(cfg)
    {
      ReachableInv(cfg, View());
      HandedOverIsCounted(cfg, View());
    }

    // ---- hardware ----

    /** dcCallback: completes the request only when the four counters say it is in flight. */
    method DcCallback(j: nat, ok: bool, payload: Data) returns (flowError: bool)
      requires j < stream.Length
      modifies this`mem, this`hw, stream
      ensures flowError == !old(stream[j].Busy())
      ensures View() == if flowError then old(View()) else Complete(cfg, old(View()), j, payload, ok)
      ensures hw == if flowError then old(hw) else old(hw) - {j}
    {
      hide Write, Crc;
      var x := stream[j];
      flowError := x.src1 != x.src2 || x.sink1 != x.sink2 || x.src2 != x.sink1 + 1;
      if !flowError {
        stream[j] := x.(sink1 := x.sink1 + 1, ok := ok, buf := payload,
                        res := Results(|x.data|, |payload|, cfg.sumOf(x.data)));
        if ok && x.zeroCopy { mem := Write(mem, x.dma, payload); }
        hw := hw - {j};
      }
    }

    // ---- retriever ----

    /** Stores data at next_dest, unless it is there already, and moves next_dest on by n. */
    method Emit(data: Data, n: nat, inPlace: bool)
      modifies this`mem, this`nextDest, this`outLen
      ensures mem == if inPlace then old(mem) else Write(old(mem), old(nextDest), data)
      ensures nextDest == old(nextDest) + n && outLen == old(outLen) + n
    {
      hide Write;
      if !inPlace { mem := Write(mem, nextDest, data); }
      nextDest := nextDest + n;
      outLen := outLen + n;
    }

    /** Header, payload and footer, with the counters of the output. */
    method EmitFrame(x: Slot)
      requires cfg.Valid() && x.res.produced == |x.buf|
      modifies this`mem, this`nextDest, this`outLen
      ensures mem == Place(old(mem), old(nextDest), cfg.header(x.res), x.buf, cfg.footer(x.res), x.zeroCopy)
      ensures nextDest == old(nextDest) + cfg.hdrSz + x.res.produced + cfg.ftrSz
      ensures outLen == old(outLen) + cfg.hdrSz + x.res.produced + cfg.ftrSz
    {
      hide Write;
      Emit(cfg.header(x.res), cfg.hdrSz, false);
      Emit(x.buf, x.res.produced, x.zeroCopy);
      Emit(cfg.footer(x.res), cfg.ftrSz, false);
    }

    /** Counts an accepted response. */
    method CountAccepted(j: nat, size: nat, consumed: nat, checksum: Word, fold: bool, r: Rec)
      requires j < stream.Length
      modifies this`rpc, this`inLen, this`crc, this`avail, this`log, stream
      ensures avail == old(avail) - size && inLen == old(inLen) + consumed && log == old(log) + [r]
      ensures crc == if fold then Fold(old(crc), checksum, consumed) else old(crc)
      ensures rpc == Handled(j, false) && stream[..] == old(stream[..])[j := old(stream[j]).(zeroCopy := false)]
    {
      hide Fold;
      avail := avail - size;
      stream[j] := stream[j].(zeroCopy := false);
      inLen := inLen + consumed;
      if fold { crc := Fold(crc, checksum, consumed); }
      log := log + [r];
      rpc := Handled(j, false);
    }

    /** compOutCheckDestLen: a response that does not fit is dropped. */
    method CheckDestLen(j: nat, size: nat) returns (fits: bool)
      requires rpc == Got(j) && j < stream.Length
      modifies this`rpc, this`avail, this`dropped, stream
      ensures fits == (old(avail) - size >= 0) && avail == old(avail) - size
      ensures View()
              == if fits then old(View()).(out := old(View()).out.(avail := avail)) else TooShort(old(View()), size)
    {
      avail := avail - size;
      fits := avail >= 0;
      if !fits {
        stream[j] := stream[j].(zeroCopy := false);
        dropped, rpc := true, Handled(j, true);
      }
    }

    /** A good response that fits. */
    method Accept(j: nat)
      requires cfg.Valid() && rpc == Got(j) && j < stream.Length && seqIn >= 0
      requires stream[j].res.produced == |stream[j].buf| && avail >= cfg.hdrSz + stream[j].res.produced + cfg.ftrSz
      modifies this`rpc, this`mem, this`nextDest, this`outLen, this`inLen, this`crc, this`avail, this`log, stream
      ensures View() == Deliver(cfg, old(View())) && rpc == Handled(j, false) && |log| == |old(log)| + 1
    {
      hide Place, Fold;
      var x := stream[j];
      EmitFrame(x);
      CountAccepted(j, cfg.hdrSz + x.res.produced + cfg.ftrSz, x.res.consumed, x.res.checksum, cfg.foldCrc,
          Hw(seqIn, x.buf));
    }

    /** The software result of a failed request that fits. */
    method AcceptSw(j: nat, frame: Data)
      requires rpc == Got(j) && j < stream.Length && seqIn >= 0 && avail >= |frame| && !stream[j].zeroCopy
      modifies this`rpc, this`mem, this`nextDest, this`outLen, this`inLen, this`crc, this`avail, this`log, stream
      ensures View() == DeliverSw(cfg, old(View()), frame) && rpc == Handled(j, false) && |log| == |old(log)| + 1
    {
      hide Write, Fold;
      Emit(frame, |frame|, false);
      CountAccepted(j, |frame|, |stream[j].data|, Zero(), false, Sw(seqIn, frame));
    }

    /** compOutSWFallback. */
    method RespondSw(j: nat, frame: Data) returns (fits: bool)
      requires Enabled(cfg, View(), RDeliverSw(frame)) && rpc.slot == j && !stream[j].zeroCopy
      modifies this`rpc, this`mem, this`nextDest, this`outLen, this`inLen, this`crc, this`avail, this`log,
               this`dropped, stream
      ensures View() == Apply(cfg, old(View()), RDeliverSw(frame)) && rpc == Handled(j, !fits)
      ensures |log| == |old(log)| + if fits then 1 else 0
    {
      hide Write;
      fits := avail >= |frame|;
      if fits { AcceptSw(j, frame); } else { var _ := CheckDestLen(j, |frame|); }
    }

    /** sink2++ frees the stream. */
    method FreeStream(j: nat)
      requires Enabled(cfg, View(), RFree) && rpc.slot == j
      modifies this`rpc, stream
      ensures View() == Apply(cfg, old(View()), RFree) && rpc == Freed(old(rpc.short))
      ensures stream[..] == old(stream[..])[j := old(stream[j]).(sink2 := old(stream[j]).sink2 + 1)]
    {
      stream[j] := stream[j].(sink2 := stream[j].sink2 + 1);
      rpc := Freed(rpc.short);
    }

    method CountProcessed()
      requires Enabled(cfg, View(), RCount)
      modifies this`rpc, this`processed
      ensures View() == Apply(cfg, old(View()), RCount) && rpc == Counted(old(rpc.short))
              && processed == old(processed) + 1
    {
      processed := processed + 1;
      rpc := Counted(rpc.short);
    }

    method NextSeqIn()
      requires Enabled(cfg, View(), RAck)
      modifies this`rpc, this`seqIn
      ensures View() == Apply(cfg, old(View()), RAck) && (rpc == if old(rpc.short) then Short else Poll)
              && seqIn == old(seqIn) + 1
    {
      seqIn := seqIn + 1;
      rpc := if rpc.short then Short else Poll;
    }

    /** compOutProcessedRespond. */
    method ProcessedRespond(j: nat)
      requires Reachable(cfg, View()) && rpc.Handled? && rpc.slot == j && j < stream.Length
      modifies this`rpc, this`processed, this`seqIn, stream
      ensures Leads(cfg, old(View()), [RFree, RCount, RAck], View())
      ensures Reachable(cfg, View()) && rpc == if old(rpc.short) then Short else Poll
      ensures stream[..] == old(stream[..])[j := old(stream[j]).(sink2 := old(stream[j]).sink2 + 1)]
      ensures processed == old(processed) + 1 && seqIn == old(seqIn) + 1
    {
      hide Apply, Enabled, Reachable, Leads;
      GiveBackLeads(View());
      FreeStream(j);
      CountProcessed();
      NextSeqIn();
    }

    /** The three steps that give a stream back follow one another. */
    lemma GiveBackLeads(s: State)
      requires Reachable(cfg, s) && s.rpc.Handled?
      ensures Enabled(cfg, s, RFree)
      ensures var t := Apply(cfg, s, RFree);
        Enabled(cfg, t, RCount) && Enabled(cfg, Apply(cfg, t, RCount), RAck)
      ensures var u := Apply(cfg, Apply(cfg, Apply(cfg, s, RFree), RCount), RAck);
        Reachable(cfg, u) && Leads(cfg, s, [RFree, RCount, RAck], u)
    {
      hide Reachable, Leads;
      InShape(s);
      FirstLeads(s, RFree);
      var t := Apply(cfg, s, RFree);
      InShape(t);
      NextLeads(s, [RFree], t, RCount);
      t := Apply(cfg, t, RCount);
      InShape(t);
      NextLeads(s, [RFree] + [RCount], t, RAck);
      assert [RFree] + [RCount] + [RAck] == [RFree, RCount, RAck];
    }

    method SetStop()
      requires Enabled(cfg, View(), RStop)
      modifies this`rpc, this`stopSubmitting
      ensures View() == Apply(cfg, old(View()), RStop) && rpc == ShortStat && stopSubmitting
    {
      stopSubmitting, rpc := true, ShortStat;
    }

    method SetBufError()
      requires Enabled(cfg, View(), RSetStat)
      modifies this`rpc, this`stat
      ensures View() == Apply(cfg, old(View()), RSetStat) && rpc == Poll && stat == BufError
    {
      stat, rpc := BufError, Poll;
    }

    /** What compOutCheckDestLen does after dropping a response. */
    method StopSubmitting()
      requires Reachable(cfg, View()) && rpc.Short?
      modifies this`rpc, this`stopSubmitting, this`stat
      ensures Leads(cfg, old(View()), [RStop, RSetStat], View())
      ensures Reachable(cfg, View()) && rpc == Poll && stopSubmitting && stat == BufError
    {
      hide Apply, Reachable, Leads;
      ghost var s := View();
      InShape(s);
      SetStop();
      FirstLeads(s, RStop);
      ghost var t := View();
      InShape(t);
      SetBufError();
      NextLeads(s, [RStop], t, RSetStat);
      assert [RStop] + [RSetStat] == [RStop, RSetStat];
    }

    lemma InShape(s: State)
      requires Reachable(cfg, s)
      ensures WellFormed(cfg, s) && cfg.Valid() && s.sess.seqIn >= 0
    {
      ReachableInv(cfg, s);
    }

    /** compOutSkipErrorRespond restores the destination pointer of a response that is not wanted. */
    method Skip(j: nat)
      requires Enabled(cfg, View(), RSkip) && rpc.slot == j
      modifies this`rpc, stream
      ensures View() == Apply(cfg, old(View()), RSkip) && rpc == Handled(j, false)
    {
      stream[j] := stream[j].(zeroCopy := false);
      rpc := Handled(j, false);
    }

    /** The protocol's step that answers the response in stream j. */
    function AnswerStep(j: nat, sw: Data -> Data): (a: Step)
      requires j < stream.Length
      reads this`stat, stream
      ensures CompressInvariant.Answer(a)
    {
      if stat == BufError then RSkip else if !stream[j].ok then RDeliverSw(sw(stream[j].data)) else RDeliver
    }

    /** Decides what becomes of the response at hand. */
    method Answer(j: nat, sw: Data -> Data) returns (fits: bool)
      requires Reachable(cfg, View()) && cfg.Valid() && rpc == Got(j) && SwCompresses(sw) && j < stream.Length
      modifies this`rpc, this`mem, this`nextDest, this`outLen, this`inLen, this`crc, this`avail, this`log,
               this`dropped, stream
      ensures Leads(cfg, old(View()), [old(AnswerStep(j, sw))], View())
      ensures Reachable(cfg, View()) && rpc == Handled(j, !fits) && (stat == BufError ==> fits)
      ensures |log| == |old(log)| + if fits && stat != BufError then 1 else 0
    {
      hide Apply, Reachable, Leads;
      ghost var s := View();
      GotFactsHere(j);
      fits := true;
      if stat == BufError {
        Skip(j);
        FirstLeads(s, RSkip);
      } else if !stream[j].ok {
        var frame := sw(stream[j].data);
        fits := RespondSw(j, frame);
        FirstLeads(s, RDeliverSw(frame));
      } else {
        fits := RespondHw(j);
        FirstLeads(s, RDeliver);
      }
    }

    /** Everything done with one matching response; good is false when it was not wanted or dropped. */
    method Respond(j: nat, sw: Data -> Data) returns (good: bool, ghost steps: seq<Step>)
      requires Reachable(cfg, View()) && cfg.Valid() && rpc == Got(j) && SwCompresses(sw) && j < stream.Length
      modifies this`rpc, this`mem, this`nextDest, this`outLen, this`inLen, this`crc, this`avail, this`log,
               this`dropped, this`processed, this`seqIn, this`stopSubmitting, this`stat, stream
      ensures Leads(cfg, old(View()), steps, View())
      ensures steps == [old(AnswerStep(j, sw)), RFree, RCount, RAck]
                       + if good || old(stat) == BufError then [] else [RStop, RSetStat]
      ensures Reachable(cfg, View()) && rpc == Poll && |log| == |old(log)| + if good then 1 else 0
      ensures seqIn == old(seqIn) + 1 && processed == old(processed) + 1
    {
      hide Apply, Reachable, Leads;
      ghost var s, first := View(), AnswerStep(j, sw);
      good := stat != BufError;
      var fits := Answer(j, sw);
      ghost var t := View();
      ProcessedRespond(j);
      LeadsAppend(cfg, s, [first], t, [RFree, RCount, RAck], View());
      steps := [first] + [RFree, RCount, RAck];
      if !fits {
        t := View();
        StopSubmitting();
        LeadsAppend(cfg, s, steps, t, [RStop, RSetStat], View());
        steps := steps + [RStop, RSetStat];
        good := false;
      }
    }

    /** compOutCheckDestLen, and the frame when it fits. */
    method RespondHw(j: nat) returns (fits: bool)
      requires cfg.Valid() && Enabled(cfg, View(), RDeliver) && rpc.slot == j
               && stream[j].res.produced == |stream[j].buf|
      modifies this`rpc, this`mem, this`nextDest, this`outLen, this`inLen, this`crc, this`avail, this`log,
               this`dropped, stream
      ensures View() == Apply(cfg, old(View()), RDeliver) && rpc == Handled(j, !fits)
      ensures |log| == |old(log)| + if fits then 1 else 0
    {
      var size := cfg.hdrSz + stream[j].res.produced + cfg.ftrSz;
      fits := avail >= size;
      if fits { Accept(j); } else { var _ := CheckDestLen(j, size); }
    }

    /** The software compressor gives a permitted frame that fits the stream's buffer. */
    ghost predicate SwCompresses(sw: Data -> Data)
      requires cfg.Sized()
    {
      cfg.swBackup ==> forall d :: cfg.swFrameOf(d, sw(d)) && |sw(d)| <= Min(cfg.destSz, DestSz(|d|))
    }

    lemma GotFactsHere(j: nat)
      requires Reachable(cfg, View()) && cfg.Valid() && rpc == Got(j)
      ensures WellFormed(cfg, View()) && HasSlot(View(), j) && seqIn >= 0
      ensures cfg.hdrSz + stream[j].room == Min(cfg.destSz, DestSz(|stream[j].data|))
              && (!stream[j].ok ==> cfg.swBackup && !stream[j].zeroCopy)
      ensures stream[j].res.produced == |stream[j].buf|
    {
      ReachableInv(cfg, View());
      GotSlot(cfg, View());
    }

    predicate Allowed(x: Completion)
      reads this, stream
    {
      && x.slot < stream.Length && stream[x.slot].Busy()
      && match x
         case Good(j, payload) => cfg.payloadOf(stream[j].data, payload) && |payload| <= stream[j].room
         case Bad(j) => cfg.swBackup && !stream[j].zeroCopy
    }

    /** The hardware's step behind a completion. */
    static function StepOf(x: Completion): Step {
      match x case Good(j, payload) => HDone(j, payload) case Bad(j) => HError(j)
    }

    /** A completion of a request in flight. */
    method Completed(x: Completion) returns (flowError: bool)
      requires Reachable(cfg, View()) && spc.Finished? && Allowed(x)
      modifies this`mem, this`hw, stream
      ensures !flowError && Leads(cfg, old(View()), [StepOf(x)], View()) && Reachable(cfg, View())
      ensures hw == old(hw) - {x.slot}
    {
      hide Apply, Complete, Reachable, Leads;
      ghost var s := View();
      InFlight(x.slot);
      InShape(s);
      match x
      case Good(j, payload) =>
        flowError := DcCallback(j, true, payload);
        AppliesAs(s, HDone(j, payload));
        FirstLeads(s, HDone(j, payload));
      case Bad(j) =>
        flowError := DcCallback(j, false, []);
        AppliesAs(s, HError(j));
        FirstLeads(s, HError(j));
    }

    lemma AppliesAs(s: State, a: Step)
      requires Enabled(cfg, s, a) && (a.HDone? || a.HError?)
      ensures Apply(cfg, s, a)
              == if a.HDone? then Complete(cfg, s, a.slot, a.payload, true) else Complete(cfg, s, a.slot, [], false)
    {
    }

    lemma InFlight(j: nat)
      requires Reachable(cfg, View()) && spc.Finished? && j < stream.Length && stream[j].Busy()
      ensures j in hw
    {
      ReachableInv(cfg, View());
      assert PhaseOk(View(), j);
    }

    /** icp_sal_DcPollInstance delivers a batch of completions, in any order; entries that are none,
        because their stream is not in flight or does not allow the result, stand for nothing. */
    method Polled(batch: seq<Completion>) returns (flowErrors: nat, ghost steps: seq<Step>)
      requires Reachable(cfg, View()) && spc.Finished?
      modifies this`mem, this`hw, stream
      ensures flowErrors == 0 && Leads(cfg, old(View()), steps, View()) && Reachable(cfg, View())
      ensures |steps| <= |batch| && forall a :: a in steps ==> exists x :: x in batch && a == StepOf(x)
    {
      hide Reachable, Leads;
      ghost var s := View();
      flowErrors, steps := 0, [];
      StayLeads(s);
      for i := 0 to |batch|
        invariant Reachable(cfg, View()) && Leads(cfg, s, steps, View())
        invariant flowErrors == 0 && |steps| <= i
        invariant forall a :: a in steps ==> exists x :: x in batch && a == StepOf(x)
      {
        if Allowed(batch[i]) {
          ghost var t := View();
          var flowError := Completed(batch[i]);
          flowErrors := flowErrors + if flowError then 1 else 0;
          LeadsAppend(cfg, s, steps, t, [StepOf(batch[i])], View());
          steps := steps + [StepOf(batch[i])];
        }
      }
    }

    /** The retriever's own steps, from a match to the next poll. */
    static predicate Retrieves(a: Step) {
      a.RMatch? || CompressInvariant.Answer(a) || a.RFree? || a.RCount? || a.RAck? || a.RStop? || a.RSetStat?
    }

    /** A match and everything that follows from it. */
    method Handle(j: nat, sw: Data -> Data) returns (good: bool, ghost steps: seq<Step>)
      requires Reachable(cfg, View()) && cfg.Valid() && rpc == Poll && SwCompresses(sw) && j < stream.Length
               && Matches(j)
      modifies this`rpc, this`mem, this`nextDest, this`outLen, this`inLen, this`crc, this`avail, this`log,
               this`dropped, this`processed, this`seqIn, this`stopSubmitting, this`stat, stream
      ensures Leads(cfg, old(View()), steps, View()) && (forall a :: a in steps ==> Retrieves(a))
      ensures Reachable(cfg, View()) && rpc == Poll && |log| == |old(log)| + if good then 1 else 0
      ensures seqIn == old(seqIn) + 1 && processed == old(processed) + 1
    {
      hide Reachable, Leads, Apply;
      ghost var s := View();
      Matched(j);
      ghost var t, more := View(), [];
      good, more := Respond(j, sw);
      LeadsAppend(cfg, s, [RMatch(j)], t, more, View());
      steps := [RMatch(j)] + more;
    }

    /** The scan for the next response in sequence; it stops at the first one that was delivered. */
    method Scan(sw: Data -> Data) returns (good: bool, ghost steps: seq<Step>)
      requires Reachable(cfg, View()) && cfg.Valid() && rpc.Poll? && SwCompresses(sw)
      modifies this`rpc, this`mem, this`nextDest, this`outLen, this`inLen, this`crc, this`avail, this`log,
               this`dropped, this`processed, this`seqIn, this`stopSubmitting, this`stat, stream
      ensures Leads(cfg, old(View()), steps, View()) && (forall a :: a in steps ==> Retrieves(a))
      ensures Reachable(cfg, View()) && rpc == Poll && |log| == |old(log)| + if good then 1 else 0
      ensures seqIn - old(seqIn) == processed - old(processed) >= 0
      ensures (forall j :: 0 <= j < stream.Length ==> !old(Matches(j))) <==> seqIn == old(seqIn)
    {
      hide Reachable, Leads, Apply;
      ghost var s := View();
      var j := 0;
      good, steps := false, [];
      StayLeads(s);
      while j < stream.Length && !good
        invariant Reachable(cfg, View()) && rpc == Poll && 0 <= j <= stream.Length
        invariant Leads(cfg, s, steps, View()) && (forall a :: a in steps ==> Retrieves(a))
        invariant |log| == |old(log)| + (if good then 1 else 0)
        invariant seqIn - old(seqIn) == processed - old(processed) >= 0
        invariant seqIn == old(seqIn) ==> View() == s && !good && forall i :: 0 <= i < j ==> !old(Matches(i))
        invariant seqIn != old(seqIn) ==> exists i :: 0 <= i < stream.Length && old(Matches(i))
        decreases stream.Length - j, !good
      {
        if stream[j].seqNo == seqIn && stream[j].Done() {
          ghost var t, more := View(), [];
          assert seqIn == old(seqIn) ==> t.slots[j] == s.slots[j] && old(Matches(j));
          good, more := Handle(j, sw);
          LeadsAppend(cfg, s, steps, t, more, View());
          steps := steps + more;
        } else {
          assert seqIn == old(seqIn) ==> View().slots[j] == s.slots[j];
        }
        j := j + 1;
      }
    }

    /** Stream j holds the response that is next in sequence. */
    predicate Matches(j: nat)
      requires j < stream.Length
      reads this`seqIn, stream
    {
      stream[j].seqNo == seqIn && stream[j].Done()
    }

    ghost method Matched(j: nat)
      requires Reachable(cfg, View()) && rpc.Poll? && j < stream.Length && Matches(j)
      modifies this`rpc
      ensures Leads(cfg, old(View()), [RMatch(j)], View()) && Reachable(cfg, View()) && rpc == Got(j)
    {
      InShape(View());
      FirstLeads(View(), RMatch(j));
      rpc := Got(j);
    }

    /** The space left when the retriever starts, as it counts it. */
    method StartRetrieving()
      requires Reachable(cfg, View()) && rpc.Starting?
      modifies this`rpc, this`avail
      ensures Leads(cfg, old(View()), [RStart], View()) && Reachable(cfg, View()) && rpc == Poll
      ensures avail == cfg.destSz - outLen
    {
      InShape(View());
      FirstLeads(View(), RStart);
      avail := cfg.destSz - outLen;
      rpc := Poll;
    }

    /** The retriever leaves its loop. */
    ghost method Leave()
      requires Reachable(cfg, View()) && rpc.Poll? && lastSubmitted && processed >= submitted
      modifies this`rpc
      ensures Leads(cfg, old(View()), [RExit], View()) && Reachable(cfg, View()) && rpc.Exited?
    {
      InShape(View());
      FirstLeads(View(), RExit);
      rpc := Exited;
    }

    /** One round of the retriever's loop. */
    method PollAndScan(batch: seq<Completion>, sw: Data -> Data) returns (flowErrors: nat, ghost steps: seq<Step>)
      requires Reachable(cfg, View()) && cfg.Valid() && spc.Finished? && rpc == Poll && SwCompresses(sw)
      modifies this`rpc, this`mem, this`hw, this`nextDest, this`outLen, this`inLen, this`crc, this`avail, this`log,
               this`dropped, this`processed, this`seqIn, this`stopSubmitting, this`stat, stream
      ensures flowErrors == 0 && Leads(cfg, old(View()), steps, View()) && Reachable(cfg, View()) && rpc == Poll
    {
      hide Apply, Reachable, Leads;
      ghost var s := View();
      flowErrors, steps := Polled(batch);
      ghost var t := View();
      var _, scanned := Scan(sw);
      LeadsAppend(cfg, s, steps, t, scanned, View());
      steps := steps + scanned;
    }

    /** doCompressOut: polls until everything submitted is processed, or until polls runs out. */
    method DoCompressOut(polls: seq<seq<Completion>>, sw: Data -> Data)
      returns (finished: bool, flowErrors: nat, ghost steps: seq<Step>)
      requires Reachable(cfg, View()) && cfg.Valid() && spc.Finished? && rpc.Starting? && SwCompresses(sw)
      modifies this`rpc, this`mem, this`hw, this`nextDest, this`outLen, this`inLen, this`crc, this`avail, this`log,
               this`dropped, this`processed, this`seqIn, this`stopSubmitting, this`stat, stream
      ensures flowErrors == 0 && Leads(cfg, old(View()), steps, View()) && Reachable(cfg, View())
      ensures spc.Finished? && (finished <==> rpc.Exited?)
      ensures finished <==> lastSubmitted && processed >= submitted
    {
      hide Apply, Reachable, Leads;
      ghost var s := View();
      StartRetrieving();
      flowErrors, steps := 0, [RStart];
      var n := 0;
      while (!lastSubmitted || processed < submitted) && n < |polls|
        invariant Reachable(cfg, View()) && spc.Finished? && rpc == Poll && flowErrors == 0
        invariant Leads(cfg, s, steps, View())
        decreases |polls| - n
      {
        var errors;
        ghost var t, more := View(), [];
        errors, more := PollAndScan(polls[n], sw);
        LeadsAppend(cfg, s, steps, t, more, View());
        steps, flowErrors, n := steps + more, flowErrors + errors, n + 1;
      }
      finished := lastSubmitted && processed >= submitted;
      InShape(View());
      if finished {
        ghost var t := View();
        Leave();
        LeadsAppend(cfg, s, steps, t, [RExit], View());
        steps := steps + [RExit];
      }
    }

    /** A call with one thread: submit everything, then retrieve. When it finishes, every stream is
        free again, the lengths reported describe exactly the frames in the destination, and these
        are the frames of the first chunks in order: of all of them when the status is Ok. No more is
        reported than the destination holds, nothing is written behind it, and a destination that is
        too small for every result is never reported as Ok. */
    method Compress(pinned: bool, polls: seq<seq<Completion>>, sw: Data -> Data)
      returns (finished: bool, destLen: nat, srcLen: nat, ghost steps: seq<Step>)
      requires Init(cfg, View()) && cfg.singleThread && RequestCount(cfg) <= cfg.slotCount && SwCompresses(sw)
      modifies this, stream
      ensures Leads(cfg, old(View()), steps, View()) && seqNo == Chunks(cfg)
      ensures destLen == outLen && srcLen == inLen <= |cfg.src|
      ensures outLen <= |mem| && mem[..outLen] == Flat(cfg, log) && InOrder(log)
      ensures inLen == cfg.Start(|log|)
      ensures finished ==> seqNo == seqIn && forall j :: 0 <= j < stream.Length ==> stream[j].Free()
      ensures finished && stat.Ok? ==> inLen == |cfg.src| && |log| == seqNo
      ensures finished && !stat.Fail? ==> (stat.BufError? <==> avail < 0)
      ensures outLen <= cfg.destSz && (cfg.Tight() ==> |mem| == cfg.destSz)
      ensures finished ==> stat.Fail? || (if avail < 0 then Overflow(cfg, log) else stat.Ok? && Whole(cfg, log))
      ensures finished && TooSmall(cfg) ==> !stat.Ok?
    {
      hide Apply, Reachable, Leads;
      ghost var s := View();
      ReachableInit(cfg, s);
      ghost var slots := DoCompressIn(pinned);
      ghost var t := View();
      var flowErrors;
      ghost var more;
      finished, flowErrors, more := DoCompressOut(polls, sw);
      steps := SubmitSteps(slots, pinned) + more;
      LeadsAppend(cfg, s, SubmitSteps(slots, pinned), t, more, View());
      destLen, srcLen := nextDest, inLen;
      Outcome(finished);
    }

    /** With one thread the submitter does not fall back to software. */
    lemma SpaceUsed()
      requires Reachable(cfg, View()) && cfg.singleThread
      ensures NoFallback(View()) && cfg.Sized() && outLen <= cfg.destSz && (cfg.Tight() ==> |mem| == cfg.destSz)
    {
      hide Reachable, NoFallback;
      NoFallbackSession(cfg, View());
      ReachableAccounted(cfg, View());
      if cfg.Tight() { OverrunIffReported(cfg, View()); }
      InOrderDelivery(cfg, View());
    }

    lemma Outcome(finished: bool)
      requires Reachable(cfg, View()) && cfg.singleThread && (finished ==> spc.Finished? && rpc.Exited?)
      ensures nextDest == outLen <= |mem| && mem[..outLen] == Flat(cfg, log) && InOrder(log)
      ensures inLen == cfg.Start(|log|) <= |cfg.src|
      ensures finished ==> seqNo == seqIn && forall j :: 0 <= j < stream.Length ==> stream[j].Free()
      ensures finished && stat.Ok? ==> inLen == |cfg.src| && |log| == seqNo
      ensures finished && !stat.Fail? ==> (stat.BufError? <==> avail < 0)
      ensures outLen <= cfg.destSz && (cfg.Tight() ==> |mem| == cfg.destSz)
      ensures finished ==> stat.Fail? || (if avail < 0 then Overflow(cfg, log) else stat.Ok? && Whole(cfg, log))
      ensures finished && TooSmall(cfg) ==> !stat.Ok?
    {
      InOrderDelivery(cfg, View());
      SpaceUsed();
      if finished {
        FinalStatus(cfg, View());
        ShortStatus(cfg, View());
        AllFreeAtEnd(cfg, View());
        ReachableInv(cfg, View());
        forall j | 0 <= j < stream.Length ensures stream[j].Free() { assert View().slots[j].Free(); }
      }
    }
  }
}
