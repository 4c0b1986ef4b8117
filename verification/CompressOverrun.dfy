/** When a call can report more than the destination holds: the fallback of the submitter writes
    without looking at the space that is left, and the retriever does not count what it writes. */
module CompressOverrun {
  import opened Bytes
  import opened Crc32
  import opened Formats
  import opened CompressProtocol
  import opened CompressInvariant
  import opened CompressRuns
  import opened CompressScenarios
  import opened CompressSpace

  // ---- what must be possible for it ----

  /** The bytes of the frames that come from the hardware. */
  function HwBytes(c: Config, log: seq<Rec>): nat {
    if |log| == 0 then 0
    else HwBytes(c, log[..|log| - 1]) + if log[|log| - 1].Hw? then |FrameOf(c, log[|log| - 1])| else 0
  }

  ghost predicate Good(c: Config, log: seq<Rec>)
    requires c.Sized()
  {
    InOrder(log) && forall i :: 0 <= i < |log| ==> GoodRec(c, log[i])
  }

  /** Results of the first chunks that together are more than the destination holds, although those of
      the hardware by themselves are not. */
  ghost predicate Overlong(c: Config, log: seq<Rec>)
    requires c.Sized()
  {
    && Good(c, log) && |log| > 0 && Sendable(c, |log| - 1)
    && HwBytes(c, log) <= c.destSz < |Flat(c, log)|
  }

  lemma GoodAppend(c: Config, log: seq<Rec>, r: Rec)
    requires c.Sized() && Good(c, log) && r.chunk == |log| && GoodRec(c, r)
    ensures Good(c, log + [r])
    ensures |Flat(c, log + [r])| == |Flat(c, log)| + |FrameOf(c, r)|
    ensures HwBytes(c, log + [r]) == HwBytes(c, log) + if r.Hw? then |FrameOf(c, r)| else 0
  {
    hide FrameOf, GoodRec;
    Appended(c, log, r);
    InOrderAppend(log, r);
    assert (log + [r])[..|log|] == log;
  }

  /** w has a result for every chunk that has been answered, its frames are at least what is written,
      and its hardware results are no more than the retriever has counted. */
  ghost predicate Covers(c: Config, s: State, w: seq<Rec>)
    requires c.Sized()
  {
    && Good(c, w) && |w| == Gone(s) && |Flat(c, w)| >= s.out.next && HwBytes(c, w) <= c.destSz
    && (s.rpc.Starting? ==> HwBytes(c, w) == 0)
    && (!s.rpc.Starting? && s.out.avail >= 0 ==> HwBytes(c, w) + s.out.avail <= c.destSz)
  }

  lemma AnswerGone(c: Config, s: State, a: Step)
    requires Inv(c, s) && Enabled(c, s, a) && Answer(a)
    ensures Gone(s) == s.sess.seqIn >= 0 && Gone(Apply(c, s, a)) == Gone(s) + 1
    ensures !s.rpc.Starting? && !Apply(c, s, a).rpc.Starting?
    ensures a.RSkip? ==> Apply(c, s, a).out == s.out
  {
    hide Apply, Enabled, Phases, Owned, Contents, Written, Delivered;
    AnswerEffect(c, s, a);
    AnswerShape(c, s, a);
    if a.RSkip? { SkipKeepsOutput(c, s, a); }
  }

  lemma AnswerShape(c: Config, s: State, a: Step)
    requires Enabled(c, s, a) && Answer(a)
    ensures s.rpc.Got?
  {
  }

  lemma SoftwareFor(c: Config, k: nat) returns (r: Rec)
    requires c.Sized() && c.swBackup && SoftwareWorks(c)
    ensures r.Sw? && r.chunk == k && GoodRec(c, r)
  {
    var f: Data :| c.swFrameOf(c.Chunk(k), f) && |f| <= DestSz(|c.Chunk(k)|);
    r := Sw(k, f);
  }

  /** One more chunk answered, by a result that is written or by one that software could have given. */
  lemma CoversMore(c: Config, s: State, w: seq<Rec>, r: Rec, t: State)
    requires c.Sized() && Covers(c, s, w) && r.chunk == |w| && GoodRec(c, r)
    requires Gone(t) == Gone(s) + 1 && t.rpc.Starting? == s.rpc.Starting? && (s.rpc.Starting? ==> r.Sw?)
    requires t.out.next <= s.out.next + |FrameOf(c, r)|
    requires r.Hw? ==> 0 <= t.out.avail == s.out.avail - |FrameOf(c, r)|
    requires r.Sw? ==> t.out.avail <= s.out.avail
    ensures Covers(c, t, w + [r])
  {
    hide Good, FrameOf, GoodRec, Gone;
    GoodAppend(c, w, r);
  }

  lemma CoversAnswer(c: Config, s: State, a: Step, w: seq<Rec>) returns (w': seq<Rec>)
    requires Inv(c, s) && Enabled(c, s, a) && Answer(a) && c.swBackup && SoftwareWorks(c) && Covers(c, s, w)
    ensures Covers(c, Apply(c, s, a), w')
  {
    hide Apply, Inv, Enabled, SoftwareWorks, FrameOf, GoodRec, Gone;
    InvSized(c, s);
    AnswerGone(c, s, a);
    var r: Rec;
    if a.RSkip? {
      r := SoftwareFor(c, s.sess.seqIn);
    } else {
      RecIsGood(c, s, a);
      AnswerCounts(c, s, a);
      r := RecOf(c, s, a);
      if s.out.avail < |FrameOf(c, r)| { r := SoftwareFor(c, s.sess.seqIn); }
    }
    CoversMore(c, s, w, r, Apply(c, s, a));
    w' := w + [r];
  }

  lemma InvSized(c: Config, s: State)
    requires Inv(c, s)
    ensures c.Valid() && c.Sized()
  {
  }

  lemma FallbackCounts(c: Config, s: State, a: Step)
    requires Inv(c, s) && Enabled(c, s, a) && a.SFallbackOk?
    ensures Gone(s) == s.sess.seqNo >= 0 && GoodRec(c, Sw(s.sess.seqNo, a.frame))
    ensures var t := Apply(c, s, a);
      && Gone(t) == Gone(s) + 1 && t.rpc == s.rpc && t.out.avail == s.out.avail
      && t.out.next == s.out.next + |a.frame|
  {
    OwnedFallback(c, s, a);
  }

  lemma OtherCounts(c: Config, s: State, a: Step)
    requires Inv(c, s) && Enabled(c, s, a) && !Answer(a) && !a.SFallbackOk? && !a.RStart?
    ensures var t := Apply(c, s, a);
      && Gone(t) == Gone(s) && t.rpc.Starting? == s.rpc.Starting? && t.out.avail == s.out.avail
      && t.out.next == s.out.next
  {
    hide Phases, Owned, Contents, Written, Delivered, Write, Crc;
  }

  lemma StartCounts(c: Config, s: State, a: Step)
    requires Inv(c, s) && Enabled(c, s, a) && a.RStart?
    ensures var t := Apply(c, s, a);
      && Gone(t) == Gone(s) && s.rpc.Starting? && !t.rpc.Starting? && t.out.avail <= c.destSz
      && t.out.next == s.out.next
  {
    hide Phases, Owned, Counts, Contents, Written, Delivered;
  }

  lemma CoversStep(c: Config, s: State, a: Step, w: seq<Rec>) returns (w': seq<Rec>)
    requires Inv(c, s) && Enabled(c, s, a) && c.swBackup && SoftwareWorks(c) && c.Sized() && Covers(c, s, w)
    ensures Covers(c, Apply(c, s, a), w')
  {
    hide Apply, Inv, Enabled, SoftwareWorks, FrameOf, GoodRec, Gone, Good;
    w' := w;
    if Answer(a) {
      w' := CoversAnswer(c, s, a, w);
    } else if a.SFallbackOk? {
      FallbackCounts(c, s, a);
      SwSize(c, s.sess.seqNo, a.frame);
      CoversMore(c, s, w, Sw(s.sess.seqNo, a.frame), Apply(c, s, a));
      w' := w + [Sw(s.sess.seqNo, a.frame)];
    } else if a.RStart? {
      StartCounts(c, s, a);
    } else {
      OtherCounts(c, s, a);
    }
  }

  lemma SwSize(c: Config, k: nat, frame: Data)
    ensures FrameOf(c, Sw(k, frame)) == frame
  {
  }

  lemma CoversInit(c: Config, s: State)
    requires Init(c, s)
    ensures c.Sized() && Covers(c, s, [])
  {
  }

  lemma {:induction false} CoversRun(c: Config, states: seq<State>, steps: seq<Step>, n: nat) returns (w: seq<Rec>)
    requires Run(c, states, steps) && n <= |steps| && c.swBackup && SoftwareWorks(c)
    ensures c.Sized() && Covers(c, states[n], w)
  {
    hide Inv, Apply, Enabled, SoftwareWorks, Covers, Init;
    if n == 0 {
      w := [];
      CoversInit(c, states[0]);
    } else {
      w := CoversRun(c, states, steps, n - 1);
      InvRun(c, states, steps, n - 1);
      w := CoversStep(c, states[n - 1], steps[n - 1], w);
    }
  }

  lemma CoveringIsOverlong(c: Config, s: State, w: seq<Rec>)
    requires Inv(c, s) && Covers(c, s, w) && s.out.next > c.destSz
    ensures Overlong(c, w)
  {
    hide Phases, Contents, Written, Delivered, FrameOf, GoodRec;
    GoneBound(c, s);
    assert |w| > 0;
    if |w| > 1 { SendableBefore(c, |w| - 1, Nxt(s) - 1); }
  }

  /** More than the destination holds is reported only with the fallback, two threads and results
      that are overlong. */
  lemma OverrunNeeds(c: Config, s: State)
    requires Reachable(c, s) && s.out.outLen > c.destSz && (c.swBackup ==> SoftwareWorks(c))
    ensures c.Sized() && c.swBackup && !c.singleThread && exists w :: Overlong(c, w)
  {
    hide Inv, Apply, Enabled, Init, Overlong, Covers, SoftwareWorks, NoFallback;
    InOrderDelivery(c, s);
    if !c.swBackup || c.singleThread {
      NoFallbackSession(c, s);
      ReachableAccounted(c, s);
      assert false;
    }
    var states: seq<State>, steps: seq<Step> :| Run(c, states, steps) && states[|steps|] == s;
    var w := CoversRun(c, states, steps, |steps|);
    InvRun(c, states, steps, |steps|);
    CoveringIsOverlong(c, s, w);
  }

  // ---- a run that gets there ----

  /** The next chunk comes back from the hardware, and its frame fits what is counted as left. */
  lemma ByHardware(c: Config, s: State, log: seq<Rec>, left: int, r: Rec) returns (t: State)
    requires c.Sized() && Stands(c, s, log, left, |log|, |log|, Loop, Poll)
    requires r.Hw? && r.chunk == |log| && GoodRec(c, r) && |FrameOf(c, r)| <= left
    ensures Stands(c, t, log + [r], left - |FrameOf(c, r)|, |log| + 1, |log|, Counting, Handled(0, false))
  {
    hide Reachable, FrameOf, GoodRec, AtHandFirst, Carries;
    t := ClaimFirst(c, s, log, left);
    t := PostFirst(c, t, log, left);
    t := SendFirst(c, t, log, left);
    t := ComeBack(c, t, log, left, Counting, r);
    t := AnswerFirst(c, t, log, left, r);
  }

  /** The submitter finds the device down and compresses the next chunk itself. */
  lemma BySoftware(c: Config, s: State, log: seq<Rec>, left: int, r: Rec) returns (t: State)
    requires c.Sized() && Stands(c, s, log, left, |log|, |log|, Loop, Poll) && c.swBackup && !c.singleThread
    requires r.Sw? && r.chunk == |log| && GoodRec(c, r)
    ensures Stands(c, t, log + [r], left, |log|, |log| + 1, SwDone, Poll)
  {
    hide Reachable;
    Shape(c, s);
    t := Take(c, s, SDeviceDown);
    t := Take(c, t, SFallbackGo);
    t := Take(c, t, SFallbackTurn);
    t := Take(c, t, SFallbackOk(r.frame));
  }

  /** What is counted as left behind these frames: those of the submitter's fallback are not seen. */
  function Seen(c: Config, log: seq<Rec>): int {
    c.destSz - HwBytes(c, log)
  }

  /** A chunk has just been delivered. */
  ghost predicate Arrived(c: Config, s: State, log: seq<Rec>) {
    |log| > 0 &&
    if log[|log| - 1].Hw? then Stands(c, s, log, Seen(c, log), |log|, |log| - 1, Counting, Handled(0, false))
    else Stands(c, s, log, Seen(c, log), |log| - 1, |log|, SwDone, Poll)
  }

  lemma Arrives(c: Config, s: State, log: seq<Rec>, r: Rec) returns (t: State)
    requires c.Sized() && Stands(c, s, log, Seen(c, log), |log|, |log|, Loop, Poll) && c.swBackup && !c.singleThread
    requires Good(c, log) && r.chunk == |log| && GoodRec(c, r) && HwBytes(c, log + [r]) <= c.destSz
    ensures Arrived(c, t, log + [r])
  {
    hide Stands, FrameOf, GoodRec, Good;
    GoodAppend(c, log, r);
    if r.Hw? { t := ByHardware(c, s, log, Seen(c, log), r); } else { t := BySoftware(c, s, log, Seen(c, log), r); }
  }

  lemma ToCounting(c: Config, s: State, log: seq<Rec>) returns (t: State)
    requires Arrived(c, s, log)
    ensures Stands(c, t, log, Seen(c, log), |log|, |log|, Counting, Poll)
  {
    hide Reachable;
    if log[|log| - 1].Hw? {
      t := Returns(c, s);
    } else {
      Shape(c, s);
      t := Take(c, s, SIncSeq);
    }
  }

  lemma Onward(c: Config, s: State, log: seq<Rec>) returns (t: State)
    requires |log| > 0 && Arrived(c, s, log) && Sendable(c, |log|)
    ensures Stands(c, t, log, Seen(c, log), |log|, |log|, Loop, Poll)
  {
    hide Reachable, Arrived;
    t := ToCounting(c, s, log);
    Shape(c, t);
    t := Take(c, t, SIncSubmitted);
    Shape(c, t);
    t := Take(c, t, SCheck);
  }

  /** Every list of results of the first chunks can be delivered, as long as those of the hardware fit
      by themselves. */
  lemma {:induction false} Arrive(c: Config, log: seq<Rec>) returns (s: State)
    requires c.Valid() && c.swBackup && !c.singleThread && Good(c, log) && HwBytes(c, log) <= c.destSz
    requires |log| > 0 && Sendable(c, |log| - 1)
    ensures Arrived(c, s, log)
    decreases |log|
  {
    hide Stands, FrameOf, GoodRec, Arrived;
    var k := |log| - 1;
    var front, r := log[..k], log[k];
    assert front + [r] == log && Good(c, front) && r.chunk == k && GoodRec(c, r);
    if k == 0 {
      s := Begin(c);
    } else {
      if k > 1 { SendableBefore(c, k - 1, k); }
      s := Arrive(c, front);
      s := Onward(c, s, front);
    }
    s := Arrives(c, s, front, r);
  }

  lemma OverrunHappens(c: Config, log: seq<Rec>) returns (s: State)
    requires c.Valid() && c.swBackup && !c.singleThread && Overlong(c, log)
    ensures Reachable(c, s) && s.out.log == log && s.out.outLen == |Flat(c, log)| > c.destSz && |s.out.mem| > c.destSz
  {
    hide Reachable, FrameOf, GoodRec, Flat;
    s := Arrive(c, log);
    InOrderDelivery(c, s);
  }

  // ---- exactly when ----

  /** A session can report more than the destination holds, and outside DEFLATE_4B write past its end,
      exactly when it has the software fallback, runs on two threads, and there are overlong results. */
  lemma OverrunExactly(c: Config)
    requires c.Valid() && (c.swBackup ==> SoftwareWorks(c))
    ensures (exists s :: Reachable(c, s) && s.out.outLen > c.destSz)
            <==> c.swBackup && !c.singleThread && exists log :: Overlong(c, log)
    ensures c.Tight() ==>
      ((exists s :: Reachable(c, s) && |s.out.mem| > c.destSz)
       <==> c.swBackup && !c.singleThread && exists log :: Overlong(c, log))
  {
    hide Reachable, Overlong, SoftwareWorks, Config.Tight;
    if s :| Reachable(c, s) && s.out.outLen > c.destSz { OverrunNeeds(c, s); }
    if c.Tight() {
      if s :| Reachable(c, s) && |s.out.mem| > c.destSz {
        OverrunIffReported(c, s);
        OverrunNeeds(c, s);
      }
    }
    if c.swBackup && !c.singleThread && exists log :: Overlong(c, log) {
      var log :| Overlong(c, log);
      var s := OverrunHappens(c, log);
    }
  }
}
