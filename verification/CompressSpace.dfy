/** How much of the destination a call uses: never more than there is as long as the submitter does
    not fall back to software, and exactly what it reports in any case. */
module CompressSpace {
  import opened Bytes
  import opened Crc32
  import opened Formats
  import opened CompressProtocol
  import opened CompressInvariant
  import opened CompressRuns

  // ---- what one step does to the space ----

  /** The submitter has not compressed a chunk in software. */
  predicate NoFallback(s: State) {
    forall k :: 0 <= k < |s.owner| ==> s.owner[k] >= 0
  }

  lemma OwnerStep(c: Config, s: State, a: Step)
    requires Enabled(c, s, a)
    ensures Apply(c, s, a).owner == if a.SSendOk? then s.owner + [s.spc.slot]
                                    else if a.SFallbackOk? then s.owner + [-1] else s.owner
  {
    hide Place, Write, Fold, Crc;
  }

  lemma NoFallbackStep(c: Config, s: State, a: Step)
    requires Enabled(c, s, a)
    ensures NoFallback(Apply(c, s, a)) <==> NoFallback(s) && !a.SFallbackOk?
  {
    hide Apply;
    OwnerStep(c, s, a);
    var o := Apply(c, s, a).owner;
    if a.SFallbackOk? { assert o[|s.owner|] == -1; }
    else if NoFallback(Apply(c, s, a)) {
      forall k | 0 <= k < |s.owner| ensures s.owner[k] >= 0 { assert o[k] == s.owner[k]; }
    }
  }

  lemma {:induction false} NoFallbackIff(c: Config, states: seq<State>, steps: seq<Step>, n: nat)
    requires Run(c, states, steps) && n <= |steps|
    ensures NoFallback(states[n]) <==> forall i :: 0 <= i < n ==> !steps[i].SFallbackOk?
  {
    hide Apply, Enabled, NoFallback;
    if n == 0 {
      NoOwners(c, states[0]);
    } else {
      NoFallbackIff(c, states, steps, n - 1);
      NoFallbackStep(c, states[n - 1], steps[n - 1]);
    }
  }

  lemma NoOwners(c: Config, s: State)
    requires Init(c, s)
    ensures NoFallback(s)
  {
  }

  lemma CommitFacts(c: Config, s: State, a: Step)
    requires Inv(c, s) && Enabled(c, s, a) && a.SFallbackOk?
    ensures Gone(s) == s.sess.seqNo >= 0 && Sendable(c, s.sess.seqNo) && c.swBackup && !c.singleThread
  {
    OwnedFallback(c, s, a);
  }

  /** Sessions without the fallback, and those with one thread, never use it. */
  lemma NoFallbackSession(c: Config, s: State)
    requires Reachable(c, s) && (!c.swBackup || c.singleThread)
    ensures NoFallback(s)
  {
    hide Apply, Enabled, NoFallback, Inv;
    var states: seq<State>, steps: seq<Step> :| Run(c, states, steps) && states[|steps|] == s;
    NoFallbackIff(c, states, steps, |steps|);
    forall i | 0 <= i < |steps| ensures !steps[i].SFallbackOk? {
      if steps[i].SFallbackOk? {
        InvRun(c, states, steps, i);
        CommitFacts(c, states[i], steps[i]);
      }
    }
  }

  /** The record of the response at hand. */
  function RecOf(c: Config, s: State, a: Step): (r: Rec)
    requires Enabled(c, s, a) && Answer(a) && !a.RSkip?
    ensures r.chunk == s.sess.seqIn
  {
    if a.RDeliver? then Hw(s.sess.seqIn, s.slots[s.rpc.slot].buf) else Sw(s.sess.seqIn, a.frame)
  }

  lemma RecIsGood(c: Config, s: State, a: Step)
    requires Inv(c, s) && Enabled(c, s, a) && Answer(a) && !a.RSkip?
    ensures GoodRec(c, RecOf(c, s, a))
    ensures |FrameOf(c, RecOf(c, s, a))|
            == if a.RDeliver? then c.hdrSz + s.slots[s.rpc.slot].res.produced + c.ftrSz else |a.frame|
  {
    hide Written, Delivered;
    assert PhaseOk(s, s.rpc.slot) && InUse(s, s.rpc.slot) && SlotOk(c, s, s.rpc.slot);
  }

  lemma DeliverCounts(c: Config, s: State)
    requires Enabled(c, s, RDeliver)
    ensures var t, n := Apply(c, s, RDeliver), c.hdrSz + s.slots[s.rpc.slot].res.produced + c.ftrSz;
      t.out.next == s.out.next + if s.out.avail < n then 0 else n
  {
    hide Place, Fold;
  }

  lemma DeliverSwCounts(c: Config, s: State, frame: Data)
    requires Enabled(c, s, RDeliverSw(frame))
    ensures var t := Apply(c, s, RDeliverSw(frame));
      t.out.next == s.out.next + if s.out.avail < |frame| then 0 else |frame|
  {
    hide Write;
  }

  /** The retriever accepts a response exactly when its frame fits what it counts as left. */
  lemma AnswerCounts(c: Config, s: State, a: Step)
    requires Inv(c, s) && Enabled(c, s, a) && Answer(a) && !a.RSkip?
    ensures var t, r := Apply(c, s, a), RecOf(c, s, a);
      var n := |FrameOf(c, r)|;
      && t.out.avail == s.out.avail - n && t.out.dropped == (s.out.dropped || s.out.avail < n)
      && t.out.late == s.out.late
      && t.out.next == s.out.next + (if s.out.avail < n then 0 else n)
      && t.out.log == if s.out.avail < n then s.out.log else s.out.log + [r]
  {
    hide Apply, Inv, GoodRec, FrameOf;
    RecIsGood(c, s, a);
    if a.RDeliver? {
      DeliverEffect(c, s);
      DeliverCounts(c, s);
    } else {
      DeliverSwEffect(c, s, a.frame);
      DeliverSwCounts(c, s, a.frame);
    }
  }

  // ---- what is written is what is counted ----

  /** Nothing is written behind the destination and behind what is reported, so something is written
      behind the destination exactly when more is reported than it holds. */
  ghost predicate Extent(c: Config, o: Output) {
    |o.mem| == if o.next <= c.destSz then c.destSz else o.next
  }

  lemma ExtentDeliver(c: Config, s: State)
    requires Inv(c, s) && Enabled(c, s, RDeliver) && c.Tight() && Extent(c, s.out)
    ensures Extent(c, Apply(c, s, RDeliver).out)
  {
    hide Place, Fold, Phases, Owned, Counts, Contents, Delivered, FrameOf, Flat, Taken;
    GotFacts(c, s);
    var x := s.slots[s.rpc.slot];
    PlaceFills(s.out.mem, s.out.next, c.header(x.res), x.buf, c.footer(x.res), x.zeroCopy);
  }

  lemma ExtentSoftware(c: Config, s: State, a: Step)
    requires Enabled(c, s, a) && (a.RDeliverSw? || a.SFallbackOk?) && Extent(c, s.out) && s.out.next <= |s.out.mem|
    ensures Extent(c, Apply(c, s, a).out)
  {
  }

  /** With zero copy the hardware stays in the room it was given. */
  lemma ExtentHardware(c: Config, s: State, a: Step)
    requires Inv(c, s) && Enabled(c, s, a) && (a.HDone? || a.HError?) && Extent(c, s.out)
    ensures Extent(c, Apply(c, s, a).out)
  {
    assert PhaseOk(s, a.slot) && SlotOk(c, s, a.slot);
  }

  lemma ExtentKept(c: Config, s: State, a: Step)
    requires Enabled(c, s, a) && Extent(c, s.out)
    requires !a.RDeliver? && !a.RDeliverSw? && !a.SFallbackOk? && !a.HDone? && !a.HError?
    ensures Extent(c, Apply(c, s, a).out)
  {
  }

  lemma ExtentStep(c: Config, s: State, a: Step)
    requires Inv(c, s) && Enabled(c, s, a) && c.Tight() && Extent(c, s.out)
    ensures Extent(c, Apply(c, s, a).out)
  {
    hide Apply, Extent, Phases, Owned, Counts, Contents, Delivered;
    if a.RDeliver? { ExtentDeliver(c, s); }
    else if a.RDeliverSw? || a.SFallbackOk? { ExtentSoftware(c, s, a); }
    else if a.HDone? || a.HError? { ExtentHardware(c, s, a); }
    else { ExtentKept(c, s, a); }
  }

  lemma {:induction false} ExtentRun(c: Config, states: seq<State>, steps: seq<Step>, n: nat)
    requires Run(c, states, steps) && n <= |steps| && c.Tight()
    ensures Extent(c, states[n].out)
  {
    hide Inv, Apply, Enabled;
    if n > 0 {
      ExtentRun(c, states, steps, n - 1);
      InvRun(c, states, steps, n - 1);
      hide Extent;
      ExtentStep(c, states[n - 1], steps[n - 1]);
    }
  }

  /** For every run: the memory written is the destination, or what is reported when that is more. */
  lemma OverrunIffReported(c: Config, s: State)
    requires Reachable(c, s) && c.Tight()
    ensures |s.out.mem| == if s.out.outLen <= c.destSz then c.destSz else s.out.outLen
  {
    hide Inv, Apply, Enabled, Init;
    var states: seq<State>, steps: seq<Step> :| Run(c, states, steps) && states[|steps|] == s;
    ExtentRun(c, states, steps, |steps|);
    InOrderDelivery(c, s);
  }

  // ---- a destination that is too small ----

  /** Some response to the next chunk does not fit behind these frames. */
  ghost predicate Overflow(c: Config, log: seq<Rec>)
    requires c.Sized()
  {
    exists r: Rec :: r.chunk == |log| && GoodRec(c, r) && |Flat(c, log)| + |FrameOf(c, r)| > c.destSz
  }

  /** What the retriever counts as left is what is left, until a response does not fit. */
  ghost predicate Accounted(c: Config, s: State)
    requires c.Sized()
  {
    && s.out.next <= c.destSz && !s.out.late
    && (s.out.avail >= 0 ==> s.out.avail + s.out.next == c.destSz)
    && (s.out.dropped ==> Overflow(c, s.out.log))
  }

  lemma OverflowWith(c: Config, log: seq<Rec>, r: Rec)
    requires c.Sized() && r.chunk == |log| && GoodRec(c, r) && |Flat(c, log)| + |FrameOf(c, r)| > c.destSz
    ensures Overflow(c, log)
  {
  }

  lemma InvOutput(c: Config, s: State)
    requires Inv(c, s)
    ensures c.Valid() && s.out.next == s.out.outLen == |Flat(c, s.out.log)|
    ensures s.out.dropped ==> s.out.avail < 0
    ensures s.out.avail < 0 && !s.out.dropped ==> s.out.outLen > c.destSz
    ensures !s.out.late ==> InOrder(s.out.log)
    ensures if s.out.dropped then |s.out.log| < Gone(s) else |s.out.log| == Gone(s)
  {
  }

  lemma AccountedAnswer(c: Config, s: State, a: Step)
    requires Inv(c, s) && Enabled(c, s, a) && Answer(a) && !a.RSkip? && Accounted(c, s)
    ensures Accounted(c, Apply(c, s, a))
  {
    hide Apply, Inv, Enabled, GoodRec, FrameOf, Flat, Overflow;
    InvOutput(c, s);
    AnswerCounts(c, s, a);
    RecIsGood(c, s, a);
    var r := RecOf(c, s, a);
    if !s.out.dropped && s.out.avail < |FrameOf(c, r)| {
      GotGone(c, s, a);
      OverflowWith(c, s.out.log, r);
    }
  }

  lemma GotGone(c: Config, s: State, a: Step)
    requires Enabled(c, s, a) && Answer(a)
    ensures Gone(s) == s.sess.seqIn
  {
  }

  lemma AccountedOther(c: Config, s: State, a: Step)
    requires Inv(c, s) && Enabled(c, s, a) && !(Answer(a) && !a.RSkip?) && !a.SFallbackOk? && Accounted(c, s)
    ensures Accounted(c, Apply(c, s, a))
  {
    hide Phases, Owned, Counts, Contents, Overflow, GoodRec, FrameOf, Flat, Taken, Write, Crc;
  }

  lemma {:induction false} AccountedRun(c: Config, states: seq<State>, steps: seq<Step>, n: nat)
    requires Run(c, states, steps) && n <= |steps| && NoFallback(states[n])
    ensures c.Sized() && Accounted(c, states[n])
  {
    hide Inv, Apply, Enabled, NoFallback, Overflow;
    if n > 0 {
      var s, a := states[n - 1], steps[n - 1];
      NoFallbackStep(c, s, a);
      AccountedRun(c, states, steps, n - 1);
      InvRun(c, states, steps, n - 1);
      hide Accounted;
      if Answer(a) && !a.RSkip? { AccountedAnswer(c, s, a); } else { AccountedOther(c, s, a); }
    }
  }

  lemma ReachableAccounted(c: Config, s: State)
    requires Reachable(c, s) && NoFallback(s)
    ensures c.Sized() && Accounted(c, s)
  {
    hide Inv, Apply, Enabled, Init, NoFallback, Accounted;
    var states: seq<State>, steps: seq<Step> :| Run(c, states, steps) && states[|steps|] == s;
    AccountedRun(c, states, steps, |steps|);
  }

  /** Whatever the session, as long as the submitter has not fallen back to software nothing is
      written past the destination. What is there are the frames of the first chunks, as many as fit:
      they stop where a response was too long for what is left. The counters describe exactly them. */
  lemma ShortOutput(c: Config, s: State)
    requires Reachable(c, s) && c.Tight() && NoFallback(s)
    ensures |s.out.mem| == c.destSz && s.out.next == s.out.outLen <= c.destSz
    ensures s.out.mem[..s.out.outLen] == Flat(c, s.out.log)
    ensures InOrder(s.out.log) && (!c.swBackup ==> NoSw(s.out.log))
    ensures s.out.inLen == c.Start(|s.out.log|) && Taken(c, s.out.log) == c.src[..s.out.inLen]
    ensures s.out.avail >= 0 <==> !s.out.dropped
    ensures s.out.avail >= 0 ==> s.out.avail + s.out.outLen == c.destSz && |s.out.log| == Gone(s)
    ensures s.out.avail < 0 ==> |s.out.log| < Gone(s) && c.Sized() && Overflow(c, s.out.log)
  {
    hide Inv, NoFallback, Overflow, Reachable, Flat, Taken;
    ReachableAccounted(c, s);
    OverrunIffReported(c, s);
    ReachableInv(c, s);
    InvOutput(c, s);
    InOrderDelivery(c, s);
  }

  /** The frames of all chunks. */
  ghost predicate Whole(c: Config, log: seq<Rec>)
    requires c.Sized()
  {
    && InOrder(log) && (forall i :: 0 <= i < |log| ==> GoodRec(c, log[i]))
    && |log| > 0 && Sendable(c, |log| - 1) && !Sendable(c, |log|)
  }

  /** Whatever the compressors answer, the frames of all chunks do not fit. */
  ghost predicate TooSmall(c: Config)
    requires c.Sized()
  {
    forall log :: Whole(c, log) ==> |Flat(c, log)| > c.destSz
  }

  lemma OkIsWhole(c: Config, s: State)
    requires Reachable(c, s) && s.spc.Finished? && s.rpc.Exited? && s.sess.stat.Ok?
    ensures c.Sized() && Whole(c, s.out.log)
  {
    ReachableInv(c, s);
  }

  /** How such a call ends. OK: the frames of all chunks are in the destination and fit. BUF_ERROR: a
      response did not fit behind those delivered. So a destination that is too small is reported. */
  lemma ShortStatus(c: Config, s: State)
    requires Reachable(c, s) && NoFallback(s) && s.spc.Finished? && s.rpc.Exited?
    ensures c.Sized()
    ensures s.sess.stat.Ok? ==> Whole(c, s.out.log) && |Flat(c, s.out.log)| == s.out.outLen <= c.destSz
    ensures s.sess.stat.BufError? ==> Overflow(c, s.out.log) && |s.out.log| < s.sess.seqNo
    ensures TooSmall(c) ==> s.sess.stat.BufError? || s.sess.stat.Fail?
  {
    hide Inv, NoFallback, Overflow, Reachable, Flat, Taken, Whole;
    ReachableAccounted(c, s);
    ReachableInv(c, s);
    InvOutput(c, s);
    FinalStatus(c, s);
    if s.sess.stat.Ok? { OkIsWhole(c, s); }
    AllFreeAtEnd(c, s);
  }

  // ---- a destination that is large enough ----

  /** Upper bound of the output of the first k chunks. */
  function Bound(c: Config, k: nat): nat {
    if k == 0 then 0 else Bound(c, k - 1) + DestSz(|c.Chunk(k - 1)|) + c.ftrSz
  }

  ghost predicate EnoughSpace(c: Config) {
    forall k: nat :: Sendable(c, k) ==> Bound(c, k + 1) <= c.destSz
  }

  lemma FrameBound(c: Config, r: Rec)
    requires c.Valid() && GoodRec(c, r)
    ensures |FrameOf(c, r)| <= DestSz(|c.Chunk(r.chunk)|) + c.ftrSz
  {
  }

  lemma {:induction false} FlatBound(c: Config, log: seq<Rec>)
    requires c.Valid() && InOrder(log) && forall i :: 0 <= i < |log| ==> GoodRec(c, log[i])
    ensures |Flat(c, log)| <= Bound(c, |log|)
    decreases |log|
  {
    hide FrameOf, GoodRec;
    if |log| > 0 {
      var k := |log| - 1;
      FlatBound(c, log[..k]);
      FrameBound(c, log[k]);
      assert log[k].chunk == k;
    }
  }

  lemma CurrentIsSendable(c: Config, s: State)
    requires Phases(s) && Owned(s) && Counts(c, s) && s.rpc.Got?
    ensures Sendable(c, s.sess.seqIn)
  {
    assert PhaseOk(s, s.rpc.slot) && InUse(s, s.rpc.slot) && Keyed(s, s.rpc.slot);
    StartMonotone(c, s.sess.seqIn, Nxt(s) - 1);
  }

  /** The frame of the next chunk still fits, in the destination as well as in what is counted. */
  lemma RoomForNext(c: Config, o: Output)
    requires c.Valid() && Written(c, o) && InOrder(o.log) && EnoughSpace(c) && Sendable(c, |o.log|)
    ensures o.next + DestSz(|c.Chunk(|o.log|)|) + c.ftrSz <= c.destSz
    ensures o.avail >= 0 ==> o.avail >= DestSz(|c.Chunk(|o.log|)|) + c.ftrSz
  {
    FlatBound(c, o.log);
    var k := |o.log|;
    assert Bound(c, k + 1) == Bound(c, k) + DestSz(|c.Chunk(k)|) + c.ftrSz;
  }

  /** The bytes an answer counts against the available space. */
  function Needs(c: Config, s: State, a: Step): nat
    requires Enabled(c, s, a)
  {
    if a.RDeliver? then c.hdrSz + s.slots[s.rpc.slot].res.produced + c.ftrSz
    else if a.RDeliverSw? then |a.frame| else 0
  }

  lemma AnswerTakes(c: Config, s: State, a: Step)
    requires Enabled(c, s, a) && Answer(a)
    ensures Apply(c, s, a).out.avail == s.out.avail - Needs(c, s, a)
  {
    hide Place, Write, Fold;
  }

  lemma AnswerNeeds(c: Config, s: State, a: Step)
    requires c.Valid() && Enabled(c, s, a) && Answer(a) && SlotOk(c, s, s.rpc.slot) && s.slots[s.rpc.slot].Done()
    ensures Needs(c, s, a) <= DestSz(|s.slots[s.rpc.slot].data|) + c.ftrSz
  {
    hide DestSz, Config.Chunk, Config.Start;
  }

  /** What an answer takes from the available space is at most the worst case of its chunk. */
  lemma AnswerSize(c: Config, s: State, a: Step)
    requires c.Valid() && Enabled(c, s, a) && Phases(s) && Owned(s) && Contents(c, s) && Answer(a)
    ensures s.sess.seqIn >= 0
    ensures Apply(c, s, a).out.avail >= s.out.avail - DestSz(|c.Chunk(s.sess.seqIn)|) - c.ftrSz
  {
    hide Apply, DestSz, Needs, Config.Start, Config.Chunk;
    AnswerTakes(c, s, a);
    assert PhaseOk(s, s.rpc.slot) && InUse(s, s.rpc.slot) && SlotOk(c, s, s.rpc.slot);
    AnswerNeeds(c, s, a);
  }

  lemma EnoughSpaceAnswer(c: Config, s: State, a: Step)
    requires c.Valid() && Enabled(c, s, a) && Phases(s) && Owned(s) && Counts(c, s) && Contents(c, s) && Answer(a)
    requires Written(c, s.out) && InOrder(s.out.log) && |s.out.log| == s.sess.seqIn && EnoughSpace(c)
             && s.out.avail >= 0
    ensures Apply(c, s, a).out.avail >= 0
  {
    AnswerSize(c, s, a);
    CurrentIsSendable(c, s);
    RoomForNext(c, s.out);
  }

  /** No more chunks have been answered than handed over. */
  lemma GoneBound(c: Config, s: State)
    requires Inv(c, s)
    ensures 0 <= Gone(s) <= Nxt(s)
  {
    if s.rpc.Handled? { assert PhaseOk(s, s.rpc.slot) && InUse(s, s.rpc.slot) && Keyed(s, s.rpc.slot); }
  }

  lemma BoundFits(c: Config, s: State)
    requires Inv(c, s) && !s.out.dropped && EnoughSpace(c)
    ensures s.out.next <= c.destSz
  {
    hide Phases, Contents, Config.Start, Config.Chunk, Flat, Taken, FrameOf, GoodRec;
    var k := |s.out.log|;
    FlatBound(c, s.out.log);
    GoneBound(c, s);
    if k > 0 {
      StartMonotone(c, k - 1, Nxt(s) - 1);
      assert Sendable(c, k - 1);
    }
  }

  lemma StartSpace(c: Config, s: State, a: Step)
    requires Inv(c, s) && Enabled(c, s, a) && a.RStart?
    ensures !s.out.dropped && Apply(c, s, a).out.avail == c.destSz - s.out.next
  {
  }

  /** When the retriever starts, what is there already leaves room. */
  lemma EnoughSpaceStart(c: Config, s: State, a: Step)
    requires Inv(c, s) && Enabled(c, s, a) && a.RStart? && EnoughSpace(c)
    ensures Apply(c, s, a).out.avail >= 0
  {
    hide Inv, Apply, Enabled, EnoughSpace;
    StartSpace(c, s, a);
    BoundFits(c, s);
  }

  lemma AvailKept(c: Config, s: State, a: Step)
    requires Enabled(c, s, a) && !Answer(a) && !a.RStart?
    ensures Apply(c, s, a).out.avail == s.out.avail
  {
  }

  lemma EnoughSpaceStep(c: Config, s: State, a: Step)
    requires Inv(c, s) && Enabled(c, s, a) && EnoughSpace(c) && s.out.avail >= 0
    ensures Apply(c, s, a).out.avail >= 0
  {
    hide Apply, EnoughSpace, Phases, Owned, Counts, Contents, Written;
    if Answer(a) { EnoughSpaceAnswer(c, s, a); }
    else if a.RStart? { EnoughSpaceStart(c, s, a); }
    else { AvailKept(c, s, a); }
  }

  /** With room for the worst case of every chunk, nothing is ever dropped. */
  lemma {:induction false} NeverShort(c: Config, states: seq<State>, steps: seq<Step>, n: nat)
    requires Run(c, states, steps) && n <= |steps| && EnoughSpace(c)
    ensures states[n].out.avail >= 0
  {
    hide Inv, Apply, Enabled, EnoughSpace;
    if n > 0 {
      NeverShort(c, states, steps, n - 1);
      InvRun(c, states, steps, n - 1);
      EnoughSpaceStep(c, states[n - 1], steps[n - 1]);
    }
  }

  // ---- no write past the end ----

  lemma NotShort(c: Config, s: State)
    requires Inv(c, s) && s.out.avail >= 0
    ensures !s.out.dropped
  {
  }

  /** With room for the worst case of every chunk no step of any run writes past the destination,
      although the submitter's fallback does not look at how much room there is. */
  lemma NeverOverruns(c: Config, states: seq<State>, steps: seq<Step>, n: nat)
    requires Run(c, states, steps) && n <= |steps| && EnoughSpace(c) && c.Tight()
    ensures |states[n].out.mem| == c.destSz && states[n].out.outLen <= c.destSz
  {
    hide Inv, EnoughSpace, Apply, Enabled;
    NeverShort(c, states, steps, n);
    InvRun(c, states, steps, n);
    NotShort(c, states[n]);
    BoundFits(c, states[n]);
    InvOutput(c, states[n]);
    ExtentRun(c, states, steps, n);
  }

  /** Given enough space, a run that ends without a device failure delivers the frames of all
      chunks in order and nothing else. */
  lemma EnoughSpaceDeliversAll(c: Config, s: State)
    requires Reachable(c, s) && EnoughSpace(c)
    ensures !s.sess.stat.BufError? && InOrder(s.out.log) && |s.out.log| == Gone(s)
    ensures c.Tight() ==> |s.out.mem| == c.destSz
    ensures s.spc.Finished? && s.rpc.Exited? && !s.sess.stat.Fail? ==>
              s.sess.stat.Ok? && Taken(c, s.out.log) == c.src && s.out.outLen <= |s.out.mem|
                  && s.out.mem[..s.out.outLen] == Flat(c, s.out.log)
  {
    var states, steps :| Run(c, states, steps) && states[|steps|] == s;
    NeverShort(c, states, steps, |steps|);
    if c.Tight() { NeverOverruns(c, states, steps, |steps|); }
    InOrderDelivery(c, s);
    ReachableInv(c, s);
    if s.spc.Finished? && s.rpc.Exited? && !s.sess.stat.Fail? { FinalStatus(c, s); }
  }
}
