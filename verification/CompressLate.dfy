/** When delivery can come out of order: a response is dropped for lack of space, and the submitter,
    which has not heard of it yet, compresses the next chunk in software. */
module CompressLate {
  import opened Crc32
  import opened Formats
  import opened CompressProtocol
  import opened CompressInvariant
  import opened CompressRuns
  import opened CompressScenarios
  import opened CompressSpace

  // ---- what must be possible for it ----

  /** These results of the first chunks, delivered in order, do not fit the destination. */
  ghost predicate Overfull(c: Config, log: seq<Rec>)
    requires c.Sized()
  {
    |log| > 0 && InOrder(log) && (forall i :: 0 <= i < |log| ==> GoodRec(c, log[i])) && |Flat(c, log)| > c.destSz
  }

  /** The results of all chunks but the last can already be too much for the destination. */
  ghost predicate TightSpot(c: Config)
    requires c.Sized()
  {
    exists log :: Overfull(c, log) && Sendable(c, |log|)
  }

  lemma AppendGood(c: Config, log: seq<Rec>, r: Rec)
    requires c.Sized() && InOrder(log) && (forall i :: 0 <= i < |log| ==> GoodRec(c, log[i]))
    requires r.chunk == |log| && GoodRec(c, r)
    ensures InOrder(log + [r]) && forall i :: 0 <= i < |log + [r]| ==> GoodRec(c, (log + [r])[i])
    ensures |Flat(c, log + [r])| == |Flat(c, log)| + |FrameOf(c, r)|
  {
    hide FrameOf, GoodRec;
    Appended(c, log, r);
    InOrderAppend(log, r);
  }

  /** The first response that is dropped shows results that do not fit. */
  lemma FirstDrop(c: Config, s: State, a: Step) returns (log: seq<Rec>)
    requires Inv(c, s) && Enabled(c, s, a) && !s.out.dropped && Drops(c, s, a)
    ensures Overfull(c, log) && |log| == s.sess.seqIn + 1
  {
    hide Phases, Owned, Counts, Contents, FrameOf, GoodRec, Flat, Taken;
    RecIsGood(c, s, a);
    AppendGood(c, s.out.log, RecOf(c, s, a));
    log := s.out.log + [RecOf(c, s, a)];
  }

  lemma GoneStep(c: Config, s: State, a: Step)
    requires Enabled(c, s, a)
    ensures Gone(Apply(c, s, a)) >= Gone(s)
    ensures Drops(c, s, a) ==> Gone(Apply(c, s, a)) == s.sess.seqIn + 1
  {
    hide Place, Setup;
  }

  lemma {:induction false} DropShows(c: Config, states: seq<State>, steps: seq<Step>, n: nat) returns (log: seq<Rec>)
    requires Run(c, states, steps) && n <= |steps| && states[n].out.dropped
    ensures c.Sized() && Overfull(c, log) && |log| <= Gone(states[n])
  {
    hide Inv, Apply, Enabled, Overfull, Drops;
    InvRun(c, states, steps, n);
    if n == 0 { assert false; }
    var s, a := states[n - 1], steps[n - 1];
    InvRun(c, states, steps, n - 1);
    HistoryStep(c, s, a);
    GoneStep(c, s, a);
    if s.out.dropped {
      log := DropShows(c, states, steps, n - 1);
    } else {
      log := FirstDrop(c, s, a);
    }
  }

  /** A late chunk needs the fallback, two threads and a tight spot. */
  lemma LateNeeds(c: Config, s: State)
    requires Reachable(c, s) && s.out.late
    ensures c.Sized() && c.swBackup && !c.singleThread && TightSpot(c)
  {
    hide Inv, Apply, Enabled, Overfull, Drops;
    var states: seq<State>, steps: seq<Step> :| Run(c, states, steps) && states[|steps|] == s;
    InvRun(c, states, steps, |steps|);
    LateIff(c, states, steps, |steps|);
    var j: nat, i: nat :| j < i < |steps| && LatePair(c, states, steps, j, i);
    DroppedIff(c, states, steps, i);
    var log := DropShows(c, states, steps, i);
    InvRun(c, states, steps, i);
    CommitFacts(c, states[i], steps[i]);
    OverfullIsSome(c, log);
    SendableBefore(c, |log|, Gone(states[i]));
  }

  lemma OverfullIsSome(c: Config, log: seq<Rec>)
    requires c.Sized() && Overfull(c, log)
    ensures |log| > 0
  {
  }

  // ---- a run that gets there ----

  /** The space left behind these frames. */
  function Left(c: Config, log: seq<Rec>): int {
    c.destSz - |Flat(c, log)|
  }

  /** The response fits and is delivered. */
  lemma DeliverFirst(c: Config, s: State, log: seq<Rec>, r: Rec) returns (t: State)
    requires c.Sized() && Stands(c, s, log, Left(c, log), |log| + 1, |log|, Loop, Got(0)) && AtHandFirst(c, s, r)
    requires r.chunk == |log| && Possible(c, r) && |Flat(c, log + [r])| <= c.destSz
    ensures Stands(c, t, log + [r], Left(c, log + [r]), |log| + 1, |log|, Loop, Handled(0, false))
  {
    hide Reachable, Flat, AtHandFirst, Possible;
    Appended(c, log, r);
    t := AnswerFirst(c, s, log, Left(c, log), r);
  }

  lemma HandOut(c: Config, s: State, log: seq<Rec>, r: Rec) returns (t: State)
    requires c.Sized() && Stands(c, s, log, Left(c, log), |log|, |log|, Loop, Poll)
    requires r.chunk == |log| && Possible(c, r) && Sendable(c, |log| + 1)
    ensures Stands(c, t, log, Left(c, log), |log| + 1, |log|, Loop, Got(0)) && AtHandFirst(c, t, r)
  {
    hide Stands, Carries, AtHandFirst, Possible, Sendable;
    t := ClaimFirst(c, s, log, Left(c, log));
    t := PostFirst(c, t, log, Left(c, log));
    t := SendFirst(c, t, log, Left(c, log));
    t := NextRound(c, t, log, Left(c, log));
    t := ComeBack(c, t, log, Left(c, log), Loop, r);
  }

  /** One chunk after the other is served, as long as the results fit. */
  lemma {:induction false} Serve(c: Config, log: seq<Rec>) returns (s: State)
    requires c.Valid() && InOrder(log) && (forall i :: 0 <= i < |log| ==> Possible(c, log[i]))
    requires Sendable(c, |log|) && |Flat(c, log)| <= c.destSz
    ensures Stands(c, s, log, Left(c, log), |log|, |log|, Loop, Poll)
    decreases |log|
  {
    hide Stands, AtHandFirst, Possible, FrameOf;
    if |log| == 0 {
      s := Begin(c);
    } else {
      var k := |log| - 1;
      var front, r := log[..k], log[k];
      assert front + [r] == log && r.chunk == k;
      Appended(c, front, r);
      if k > 0 { SendableBefore(c, k, k + 1); }
      s := Serve(c, front);
      s := HandOut(c, s, front, r);
      s := DeliverFirst(c, s, front, r);
      s := GiveBack(c, s, log, Left(c, log));
    }
  }

  /** A chunk of the source has been dropped; nobody has told the submitter. */
  ghost predicate Unheard(c: Config, s: State, log: seq<Rec>) {
    && Reachable(c, s) && s.spc.Loop? && s.rpc.Short? && s.sess.seqNo == s.sess.seqIn == |log| + 1
    && !s.sess.stopSubmitting && s.out.log == log && s.out.dropped
  }

  /** The response does not fit and is dropped. */
  lemma DropFirst(c: Config, s: State, log: seq<Rec>, r: Rec) returns (t: State)
    requires c.Sized() && Stands(c, s, log, Left(c, log), |log| + 1, |log|, Loop, Got(0)) && AtHandFirst(c, s, r)
    requires r.chunk == |log| && Possible(c, r) && |Flat(c, log + [r])| > c.destSz
    ensures Unheard(c, t, log)
  {
    hide Reachable, Flat, AtHandFirst, Possible;
    Appended(c, log, r);
    t := AnswerFirst(c, s, log, Left(c, log), r);
    t := Returns(c, t);
  }

  lemma Overtake(c: Config, s: State, log: seq<Rec>, frame: Data) returns (t: State)
    requires Unheard(c, s, log) && c.swBackup && !c.singleThread
    requires c.swFrameOf(c.Chunk(|log| + 1), frame) && |frame| <= DestSz(|c.Chunk(|log| + 1)|)
    ensures Reachable(c, t) && t.out.late && t.out.log == log + [Sw(|log| + 1, frame)]
  {
    hide Reachable;
    Shape(c, s);
    t := Take(c, s, SDeviceDown);
    t := Take(c, t, SFallbackGo);
    t := Take(c, t, SFallbackTurn);
    t := Take(c, t, SFallbackOk(frame));
  }

  /** For every session with fallback and two threads: when a response does not fit behind those
      before it and another chunk follows, that chunk can be delivered in its place. */
  lemma LateCanHappen(c: Config, log: seq<Rec>, r: Rec, frame: Data) returns (s: State)
    requires c.Valid() && c.swBackup && !c.singleThread
    requires InOrder(log + [r]) && (forall i :: 0 <= i < |log| ==> Possible(c, log[i])) && Possible(c, r)
    requires |Flat(c, log)| <= c.destSz < |Flat(c, log + [r])| && Sendable(c, |log| + 1)
    requires c.swFrameOf(c.Chunk(|log| + 1), frame) && |frame| <= DestSz(|c.Chunk(|log| + 1)|)
    ensures Reachable(c, s) && s.out.late && s.out.log == log + [Sw(|log| + 1, frame)] && !InOrder(s.out.log)
  {
    hide Stands, AtHandFirst, Possible, FrameOf, Unheard;
    InOrderAppend(log, r);
    if |log| > 0 { SendableBefore(c, |log|, |log| + 1); }
    s := Serve(c, log);
    s := HandOut(c, s, log, r);
    s := DropFirst(c, s, log, r);
    s := Overtake(c, s, log, frame);
    InOrderAppend(log, Sw(|log| + 1, frame));
  }

  /** It does not help when the stop flag is set in time: a submitter that has read it before may
      still be waiting for its turn, and gets it when the dropped response is given back. */
  lemma LateDespiteStop(c: Config, log: seq<Rec>, r: Rec, frame: Data) returns (s: State)
    requires c.Valid() && c.swBackup && !c.singleThread
    requires InOrder(log + [r]) && (forall i :: 0 <= i < |log| ==> Possible(c, log[i])) && Possible(c, r)
    requires |Flat(c, log)| <= c.destSz < |Flat(c, log + [r])| && Sendable(c, |log| + 1)
    requires c.swFrameOf(c.Chunk(|log| + 1), frame) && |frame| <= DestSz(|c.Chunk(|log| + 1)|)
    ensures Reachable(c, s) && s.out.late && s.sess.stopSubmitting && s.sess.stat.BufError?
    ensures s.out.log == log + [Sw(|log| + 1, frame)]
  {
    hide Stands, AtHandFirst, Possible, FrameOf, Reachable, Flat;
    InOrderAppend(log, r);
    if |log| > 0 { SendableBefore(c, |log|, |log| + 1); }
    s := Serve(c, log);
    s := HandOut(c, s, log, r);
    s := PassCheck(c, s, log, r);
    s := StopLate(c, s, log, r);
    s := CommitAfterStop(c, s, log, frame);
  }

  lemma PassCheck(c: Config, s: State, log: seq<Rec>, r: Rec) returns (t: State)
    requires c.Sized() && Stands(c, s, log, Left(c, log), |log| + 1, |log|, Loop, Got(0)) && AtHandFirst(c, s, r)
    requires c.swBackup && !c.singleThread
    ensures Stands(c, t, log, Left(c, log), |log| + 1, |log|, FallbackSeq, Got(0)) && AtHandFirst(c, t, r)
  {
    hide Reachable, Flat, ResultOf, Crc;
    Shape(c, s);
    t := Take(c, s, SDeviceDown);
    t := Take(c, t, SFallbackGo);
  }

  /** The flag and the status are set; nothing else moves. */
  lemma Stops(c: Config, s: State) returns (t: State)
    requires Reachable(c, s) && s.rpc.Short?
    ensures Reachable(c, t) && t == s.(rpc := Poll, sess := s.sess.(stopSubmitting := true, stat := BufError))
  {
    hide Reachable;
    Shape(c, s);
    t := Take(c, s, RStop);
    Shape(c, t);
    t := Take(c, t, RSetStat);
  }

  lemma StopLate(c: Config, s: State, log: seq<Rec>, r: Rec) returns (t: State)
    requires c.Sized() && Stands(c, s, log, Left(c, log), |log| + 1, |log|, FallbackSeq, Got(0)) && AtHandFirst(c, s, r)
    requires r.chunk == |log| && Possible(c, r) && |Flat(c, log + [r])| > c.destSz
    ensures Reachable(c, t) && t.spc.FallbackSeq? && t.rpc.Poll? && t.sess.seqNo == t.sess.seqIn == |log| + 1
    ensures t.sess.stopSubmitting && t.sess.stat.BufError? && t.out.log == log && t.out.dropped
  {
    hide Reachable, Flat, AtHandFirst, Possible, FrameOf;
    Appended(c, log, r);
    t := AnswerFirst(c, s, log, Left(c, log), r);
    t := Returns(c, t);
    t := Stops(c, t);
  }

  lemma CommitAfterStop(c: Config, s: State, log: seq<Rec>, frame: Data) returns (t: State)
    requires Reachable(c, s) && s.spc.FallbackSeq? && s.sess.seqNo == s.sess.seqIn == |log| + 1
    requires s.sess.stopSubmitting && s.sess.stat.BufError? && s.out.log == log && s.out.dropped
    requires c.swFrameOf(c.Chunk(|log| + 1), frame) && |frame| <= DestSz(|c.Chunk(|log| + 1)|)
    ensures Reachable(c, t) && t.out.late && t.sess.stopSubmitting && t.sess.stat.BufError?
    ensures t.out.log == log + [Sw(|log| + 1, frame)]
  {
    hide Reachable;
    Shape(c, s);
    t := Take(c, s, SFallbackTurn);
    t := Take(c, t, SFallbackOk(frame));
  }

  // ---- exactly when ----

  /** Results of the software compressor are no longer than the destination. */
  ghost predicate SmallFrames(c: Config) {
    forall k: nat, f: Data :: c.swFrameOf(c.Chunk(k), f) ==> |f| <= c.destSz
  }

  /** The first of the results that does not fit. */
  lemma {:induction false} Tightest(c: Config, log: seq<Rec>) returns (m: nat)
    requires c.Valid() && Overfull(c, log)
    ensures m < |log| && |Flat(c, log[..m])| <= c.destSz < |Flat(c, log[..m + 1])|
    decreases |log|
  {
    hide GoodRec, FrameOf;
    var k := |log| - 1;
    if |Flat(c, log[..k])| > c.destSz {
      assert k > 0;
      m := Tightest(c, log[..k]);
      assert log[..k][..m] == log[..m] && log[..k][..m + 1] == log[..m + 1];
    } else {
      m := k;
      assert log[..k + 1] == log;
    }
  }

  lemma LateHappens(c: Config, log: seq<Rec>) returns (s: State)
    requires c.Valid() && c.swBackup && !c.singleThread && SmallFrames(c) && SoftwareWorks(c)
    requires Overfull(c, log) && Sendable(c, |log|)
    ensures Reachable(c, s) && s.out.late
  {
    hide Reachable, Flat, FrameOf, Sendable, DestSz, Config.Valid, Config.Chunk;
    var m := Tightest(c, log);
    assert log[..m] + [log[m]] == log[..m + 1];
    SendableBefore(c, m + 1, |log|);
    var frame :| c.swFrameOf(c.Chunk(m + 1), frame) && |frame| <= DestSz(|c.Chunk(m + 1)|);
    s := LateCanHappen(c, log[..m], log[m], frame);
  }

  /** A session can deliver a chunk out of order exactly when it has the software fallback, runs on
      two threads, and the results of all chunks but the last can be more than the destination holds. */
  lemma LateExactly(c: Config)
    requires c.Valid() && SmallFrames(c) && SoftwareWorks(c)
    ensures (exists s :: Reachable(c, s) && s.out.late) <==> c.swBackup && !c.singleThread && TightSpot(c)
  {
    hide Reachable, Overfull;
    if s :| Reachable(c, s) && s.out.late { LateNeeds(c, s); }
    if c.swBackup && !c.singleThread && TightSpot(c) {
      var log :| Overfull(c, log) && Sendable(c, |log|);
      var s := LateHappens(c, log);
    }
  }
}
