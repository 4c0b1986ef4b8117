/** What holds of every run of the compression protocol, for every interleaving of submitter,
    hardware and retriever and every completion order. */
module CompressRuns {
  import opened Crc32
  import opened CompressProtocol
  import opened CompressInvariant

  /** One run: states[i] leads to states[i + 1] by steps[i]. */
  ghost predicate Run(c: Config, states: seq<State>, steps: seq<Step>) {
    && |states| == |steps| + 1 && Init(c, states[0])
    && forall i :: 0 <= i < |steps| ==>
         Enabled(c, states[i], steps[i]) && states[i + 1] == Apply(c, states[i], steps[i])
  }

  ghost predicate Reachable(c: Config, s: State) {
    exists states, steps :: Run(c, states, steps) && states[|steps|] == s
  }

  lemma {:induction false} InvRun(c: Config, states: seq<State>, steps: seq<Step>, n: nat)
    requires Run(c, states, steps) && n <= |steps|
    ensures Inv(c, states[n])
  {
    if n == 0 { InvInit(c, states[0]); }
    else {
      InvRun(c, states, steps, n - 1);
      InvStep(c, states[n - 1], steps[n - 1]);
    }
  }

  lemma ReachableInv(c: Config, s: State)
    requires Reachable(c, s)
    ensures Inv(c, s)
  {
    var states, steps :| Run(c, states, steps) && states[|steps|] == s;
    InvRun(c, states, steps, |steps|);
  }

  lemma ReachableInit(c: Config, s: State)
    requires Init(c, s)
    ensures Reachable(c, s)
  {
    assert Run(c, [s], []) && [s][0] == s;
  }

  lemma ReachableNext(c: Config, s: State, a: Step)
    requires Reachable(c, s) && Enabled(c, s, a)
    ensures Reachable(c, Apply(c, s, a))
  {
    hide Apply, Enabled, Init;
    var states, steps :| Run(c, states, steps) && states[|steps|] == s;
    var states', steps' := states + [Apply(c, s, a)], steps + [a];
    assert Run(c, states', steps') && states'[|steps'|] == Apply(c, s, a);
  }

  /** The steps can be taken one after the other from s and end in t. */
  ghost predicate Leads(c: Config, s: State, steps: seq<Step>, t: State)
    decreases |steps|
  {
    if |steps| == 0 then s == t
    else Enabled(c, s, steps[0]) && Leads(c, Apply(c, s, steps[0]), steps[1..], t)
  }

  lemma LeadsOne(c: Config, s: State, a: Step)
    requires Enabled(c, s, a)
    ensures Leads(c, s, [a], Apply(c, s, a))
  {
    assert [a][1..] == [];
  }

  lemma {:induction false} LeadsAppend(c: Config, s: State, a: seq<Step>, t: State, b: seq<Step>, u: State)
    requires Leads(c, s, a, t) && Leads(c, t, b, u)
    ensures Leads(c, s, a + b, u)
    decreases |a|
  {
    hide Enabled, Apply;
    if |a| == 0 {
      assert a + b == b;
    } else {
      assert (a + b)[1..] == a[1..] + b;
      LeadsAppend(c, Apply(c, s, a[0]), a[1..], t, b, u);
    }
  }

  lemma {:induction false} LeadsReachable(c: Config, s: State, steps: seq<Step>, t: State)
    requires Reachable(c, s) && Leads(c, s, steps, t)
    ensures Reachable(c, t)
    decreases |steps|
  {
    hide Enabled, Apply, Reachable;
    if |steps| > 0 {
      ReachableNext(c, s, steps[0]);
      LeadsReachable(c, Apply(c, s, steps[0]), steps[1..], t);
    }
  }

  // ---- the slot protocol ----

  /** The three checks of dcCallback pass for every completion. */
  lemma CallbackNeverFlowError(c: Config, s: State, j: nat)
    requires Reachable(c, s) && j in s.hw
    ensures HasSlot(s, j)
    ensures s.slots[j].src1 == s.slots[j].src2 && s.slots[j].sink1 == s.slots[j].sink2
    ensures s.slots[j].src2 == s.slots[j].sink1 + 1
  {
    ReachableInv(c, s);
    assert PhaseOk(s, j);
  }

  ghost function Occupied(s: State): set<nat> {
    set j: nat | j < |s.slots| && InUse(s, j)
  }

  /** The sequence numbers found in occupied slots. */
  ghost function Carried(s: State): set<int> {
    set j | j in Occupied(s) :: s.slots[j].seqNo
  }

  ghost function Owners(s: State, lo: nat, hi: nat): set<nat> {
    set k: nat | lo <= k < hi && k < |s.owner| && s.owner[k] >= 0 :: s.owner[k]
  }

  lemma {:induction false} OwnersCount(s: State, lo: nat, hi: nat)
    requires lo <= hi <= |s.owner| && forall k :: lo <= k < hi ==> Held(s, k)
    ensures |Owners(s, lo, hi)| == hi - lo
  {
    if lo < hi {
      OwnersCount(s, lo, hi - 1);
      assert Held(s, hi - 1);
      assert s.owner[hi - 1] !in Owners(s, lo, hi - 1) by {
        forall k | lo <= k < hi - 1 ensures s.owner[k] != s.owner[hi - 1] { assert Held(s, k); }
      }
      assert Owners(s, lo, hi) == Owners(s, lo, hi - 1) + {s.owner[hi - 1]};
    }
  }

  lemma OccupiedInv(c: Config, s: State)
    requires Inv(c, s)
    ensures forall i, j :: i in Occupied(s) && j in Occupied(s) && i != j ==> s.slots[i].seqNo != s.slots[j].seqNo
    ensures forall k :: k in Carried(s) <==> Ack(s) <= k < Nxt(s)
    ensures |Occupied(s)| == Nxt(s) - Ack(s)
  {
    forall i, j | i in Occupied(s) && j in Occupied(s) && i != j ensures s.slots[i].seqNo != s.slots[j].seqNo {
      assert Keyed(s, i) && Keyed(s, j);
    }
    forall k | Ack(s) <= k < Nxt(s) ensures k in Carried(s) {
      assert Held(s, k);
      var j: nat := s.owner[k];
      assert j in Occupied(s);
    }
    forall j | j in Occupied(s) ensures Ack(s) <= s.slots[j].seqNo < Nxt(s) { assert Keyed(s, j); }
    OwnersCount(s, Ack(s), Nxt(s));
    assert Occupied(s) == Owners(s, Ack(s), Nxt(s)) by {
      forall j | j in Occupied(s) ensures j in Owners(s, Ack(s), Nxt(s)) { assert Keyed(s, j); }
      forall j | j in Owners(s, Ack(s), Nxt(s)) ensures j in Occupied(s) {
        var k: nat :| Ack(s) <= k < Nxt(s) && k < |s.owner| && s.owner[k] == j;
        assert Held(s, k);
      }
    }
  }

  /** Occupied slots hold distinct chunks, exactly those handed over and not yet given back. */
  lemma OccupiedSlots(c: Config, s: State)
    requires Reachable(c, s)
    ensures forall i, j :: i in Occupied(s) && j in Occupied(s) && i != j ==> s.slots[i].seqNo != s.slots[j].seqNo
    ensures forall k :: k in Carried(s) <==> Ack(s) <= k < Nxt(s)
    ensures |Occupied(s)| == Nxt(s) - Ack(s)
  {
    ReachableInv(c, s);
    OccupiedInv(c, s);
  }

  /** The submitter is not half-way through handing over a chunk. */
  predicate SubmitterQuiet(s: State) { !s.spc.Sent? && !s.spc.SwDone? && !s.spc.Counting? }

  /** The retriever is not half-way through giving a slot back. */
  predicate RetrieverQuiet(s: State) { !s.rpc.Freed? && !s.rpc.Counted? }

  /** The counters agree with the slots, up to the single chunk each thread is half-way through. */
  lemma CountersMatchSlots(c: Config, s: State)
    requires Reachable(c, s)
    ensures SubmitterQuiet(s) && RetrieverQuiet(s) ==>
              s.sess.submitted - s.sess.processed == s.sess.seqNo - s.sess.seqIn == |Occupied(s)|
    ensures -1 <= |Occupied(s)| - (s.sess.seqNo - s.sess.seqIn) <= 1
    ensures -1 <= (s.sess.submitted - s.sess.processed) - (s.sess.seqNo - s.sess.seqIn) + 1 <= 1
  {
    ReachableInv(c, s);
    OccupiedInv(c, s);
  }

  /** The phases of a slot exclude each other and cover every slot at every moment. Only the slot
      the submitter is taking back may be between two of them. */
  lemma OnePhase(c: Config, s: State, j: nat)
    requires Reachable(c, s) && HasSlot(s, j)
    ensures var x := s.slots[j];
      var phases := [x.Free(), x.Reserved(), x.Busy(), x.Done(), x.HalfUndone()];
      && (exists p :: 0 <= p < 5 && phases[p])
      && (forall p, q :: 0 <= p < q < 5 ==> !(phases[p] && phases[q]))
      && (x.HalfUndone() ==> s.spc == Undone(j))
  {
    ReachableInv(c, s);
    assert PhaseOk(s, j);
    var x := s.slots[j];
    var phases := [x.Free(), x.Reserved(), x.Busy(), x.Done(), x.HalfUndone()];
    assert phases[0] || phases[1] || phases[2] || phases[3] || phases[4];
  }

  /** When both loops have ended every slot is free and the counters agree, so the API's check
      seq == seq_in passes. */
  lemma AllFreeAtEnd(c: Config, s: State)
    requires Reachable(c, s) && s.spc.Finished? && s.rpc.Exited?
    ensures s.hw == {} && forall j :: 0 <= j < |s.slots| ==> s.slots[j].Free()
    ensures s.sess.seqNo == s.sess.seqIn && s.sess.submitted == s.sess.processed
  {
    ReachableInv(c, s);
    forall j: nat ensures !InUse(s, j) {
      if HasSlot(s, j) { assert !Keyed(s, j); }
    }
    forall j | 0 <= j < |s.slots| ensures s.slots[j].Free() { assert PhaseOk(s, j) && !InUse(s, j); }
    forall j: nat ensures j !in s.hw { assert !InUse(s, j); }
  }

  lemma {:induction false} StartMonotone(c: Config, i: nat, k: nat)
    requires i <= k
    ensures c.Start(i) <= c.Start(k)
    decreases k
  {
    if i < k { StartMonotone(c, i, k - 1); }
  }

  // ---- in-order delivery ----

  /** The destination is the concatenation of the delivered frames and the counters measure it;
      the frames are those of the first chunks, in submission order, exactly when no software
      fallback of the submitter came after a dropped response. */
  lemma InOrderDelivery(c: Config, s: State)
    requires Reachable(c, s)
    ensures s.out.next == s.out.outLen == |Flat(c, s.out.log)| <= |s.out.mem|
    ensures s.out.mem[..s.out.next] == Flat(c, s.out.log)
    ensures s.out.inLen == |Taken(c, s.out.log)|
    ensures forall i :: 0 <= i < |s.out.log| ==> GoodRec(c, s.out.log[i])
    ensures InOrder(s.out.log) <==> !s.out.late
    ensures !s.out.late ==> s.out.inLen == c.Start(|s.out.log|) && Taken(c, s.out.log) == c.src[..s.out.inLen]
    ensures !c.swBackup || c.singleThread ==> !s.out.late
    ensures !s.out.dropped ==> !s.out.late && |s.out.log| == Gone(s)
  {
    ReachableInv(c, s);
    if !s.out.late { TakenInOrder(c, s.out.log); }
  }

  /** The step throws a response away because it does not fit. */
  predicate Drops(c: Config, s: State, a: Step)
    requires Enabled(c, s, a)
  {
    (a.RDeliver? && s.out.avail < c.hdrSz + s.slots[s.rpc.slot].res.produced + c.ftrSz)
    || (a.RDeliverSw? && s.out.avail < |a.frame|)
  }

  lemma HistoryKept(c: Config, s: State, a: Step)
    requires Enabled(c, s, a) && !Answer(a)
    ensures Apply(c, s, a).out.dropped == s.out.dropped
    ensures Apply(c, s, a).out.late <==> s.out.late || (a.SFallbackOk? && s.out.dropped)
  {
    hide Place, Setup, Deliver, DeliverSw;
  }

  lemma HistoryStep(c: Config, s: State, a: Step)
    requires Enabled(c, s, a)
    ensures Apply(c, s, a).out.dropped <==> s.out.dropped || Drops(c, s, a)
    ensures Apply(c, s, a).out.late <==> s.out.late || (a.SFallbackOk? && s.out.dropped)
  {
    hide Apply;
    if a.RDeliver? { DeliverEffect(c, s); }
    else if a.RDeliverSw? { DeliverSwEffect(c, s, a.frame); }
    else if a.RSkip? { SkipKeepsOutput(c, s, a); }
    else { HistoryKept(c, s, a); }
  }

  /** Step j drops a response and a later step i compresses a chunk in software. */
  ghost predicate LatePair(c: Config, states: seq<State>, steps: seq<Step>, j: nat, i: nat)
    requires Run(c, states, steps) && j < i < |steps|
  {
    Drops(c, states[j], steps[j]) && steps[i].SFallbackOk?
  }

  lemma {:induction false} DroppedIff(c: Config, states: seq<State>, steps: seq<Step>, n: nat)
    requires Run(c, states, steps) && n <= |steps|
    ensures states[n].out.dropped <==> exists j: nat :: j < n && Drops(c, states[j], steps[j])
  {
    hide Apply, Enabled, Drops;
    if n > 0 {
      DroppedIff(c, states, steps, n - 1);
      HistoryStep(c, states[n - 1], steps[n - 1]);
    }
  }

  lemma {:induction false} LateIff(c: Config, states: seq<State>, steps: seq<Step>, n: nat)
    requires Run(c, states, steps) && n <= |steps|
    ensures states[n].out.late <==> exists j: nat, i: nat :: j < i < n && LatePair(c, states, steps, j, i)
  {
    hide Apply, Enabled, Drops;
    if n > 0 {
      LateIff(c, states, steps, n - 1);
      HistoryStep(c, states[n - 1], steps[n - 1]);
      DroppedIff(c, states, steps, n - 1);
      if states[n - 1].out.dropped && steps[n - 1].SFallbackOk? {
        var j: nat :| j < n - 1 && Drops(c, states[j], steps[j]);
        assert LatePair(c, states, steps, j, n - 1);
      }
    }
  }

  /** The delivered chunks are in order exactly in the runs in which no software fallback of the
      submitter comes after a dropped response. */
  lemma InOrderIff(c: Config, states: seq<State>, steps: seq<Step>, n: nat)
    requires Run(c, states, steps) && n <= |steps|
    ensures InOrder(states[n].out.log) <==>
            forall j: nat, i: nat :: j < i < n ==> !LatePair(c, states, steps, j, i)
  {
    InvRun(c, states, steps, n);
    LateIff(c, states, steps, n);
  }

  /** The hardware's checksums are CRCs that start from zero. */
  ghost predicate SumsAreCrcs(c: Config) {
    forall d: Data :: c.sumOf(d) == Crc(Zero(), d)
  }

  lemma {:induction false} FoldedIsCrc(c: Config, log: seq<Rec>)
    requires c.foldCrc && SumsAreCrcs(c) && NoSw(log)
    ensures Folded(c, log) == Crc(c.crc0, Taken(c, log))
    decreases |log|
  {
    hide Crc, Fold;
    if |log| == 0 {
      CrcOfNothing(c.crc0);
    } else {
      var n := |log| - 1;
      assert log[n].Hw? && NoSw(log[..n]);
      FoldedIsCrc(c, log[..n]);
      FoldExtends(c.crc0, Taken(c, log[..n]), c.Chunk(log[n].chunk));
    }
  }

  lemma CrcOfNothing(w: Word)
    ensures Crc(w, []) == w
  {
    XorCancel(w, Ones());
  }

  /** When the hardware computes CRCs, the checksum handed to the caller is the CRC of the consumed
      source bytes. */
  lemma ChecksumOfTaken(c: Config, s: State)
    requires Reachable(c, s) && c.foldCrc && SumsAreCrcs(c) && NoSw(s.out.log) && !s.out.late
    ensures s.out.inLen <= |c.src| && s.out.crc == Crc(c.crc0, c.src[..s.out.inLen])
  {
    ReachableInv(c, s);
    TakenInOrder(c, s.out.log);
    FoldedIsCrc(c, s.out.log);
  }

  /** What the final status says. Ok: everything was delivered, in order. BufError: some response
      did not fit. Fail is the only other possibility and comes from a refused software fallback. */
  lemma FinalStatus(c: Config, s: State)
    requires Reachable(c, s) && s.spc.Finished? && s.rpc.Exited?
    ensures s.sess.stat.Ok? ==>
              !s.out.dropped && !s.out.late && Taken(c, s.out.log) == c.src && |s.out.log| == s.sess.seqNo
    ensures !s.sess.stat.Fail? ==> (s.sess.stat.BufError? <==> s.out.dropped)
  {
    ReachableInv(c, s);
    if s.sess.stat.Ok? {
      TakenInOrder(c, s.out.log);
    }
  }
}
