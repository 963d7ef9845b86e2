/** What a stopped stream leaves behind, over every run, and the race that makes it more
than the lost counts. */
module FrameQueueStop {
  import opened FrameQueue
  import opened FrameQueueSafety
  import opened FrameQueueProgress
  import opened FrameQueueLoss

  // ---------------------------------------------------------------- counting in a run

  /** QueueBuffer calls that have inserted their frame. */
  function CallsInserted(ls: seq<Label>): nat {
    if ls == [] then 0 else CallsInserted(ls[..|ls| - 1]) + (if ls[|ls| - 1].PInsert? then 1 else 0)
  }

  /** Calls that had inserted their frame at the thread's last test of the counter, but
      had not counted it. */
  function LateCounts(ls: seq<Label>): int {
    if ls == [] then 0
    else
      var front := ls[..|ls| - 1];
      if ls[|ls| - 1].CInner? then CallsInserted(front) - CallsDone(front) else LateCounts(front)
  }

  /** Calls that inserted their frame after that test. */
  function LateInserts(ls: seq<Label>): nat {
    if ls == [] || ls[|ls| - 1].CInner? then 0
    else LateInserts(ls[..|ls| - 1]) + (if ls[|ls| - 1].PInsert? then 1 else 0)
  }

  lemma LateSnoc(ls: seq<Label>, l: Label)
    ensures CallsInserted(ls + [l]) == CallsInserted(ls) + (if l.PInsert? then 1 else 0)
    ensures LateCounts(ls + [l]) == if l.CInner? then CallsInserted(ls) - CallsDone(ls) else LateCounts(ls)
    ensures LateInserts(ls + [l])
         == if l.CInner? then 0 else LateInserts(ls) + (if l.PInsert? then 1 else 0)
  {
    assert (ls + [l])[..|ls|] == ls;
  }

  predicate IsOpen(pr: Producer) {
    pr.Released? || pr.Counted?
  }

  /** How many calls are between their insertion and their count. */
  ghost function OpenCalls(producers: map<Pid, Producer>): nat {
    |InPhase(producers, Released)| + |InPhase(producers, Counted)|
  }

  lemma OpenMoves(producers: map<Pid, Producer>, p: Pid, x: Producer)
    ensures OpenCalls(producers[p := x])
         == OpenCalls(producers) + One(IsOpen(x)) - One(p in producers && IsOpen(producers[p]))
  {
    PhaseUpdate(producers, p, x, Released);
    PhaseUpdate(producers, p, x, Counted);
  }

  lemma OpenLeaves(producers: map<Pid, Producer>, p: Pid)
    requires p in producers
    ensures OpenCalls(producers - {p}) == OpenCalls(producers) - One(IsOpen(producers[p]))
  {
    PhaseRemove(producers, p, Released);
    PhaseRemove(producers, p, Counted);
  }

  lemma OpenCallsStep(s: State, l: Label)
    requires IsProducerLabel(l) && ProducerEnabled(s, l)
    ensures OpenCalls(DoProducer(s, l).producers) == OpenCalls(s.producers) + One(l.PInsert?) - One(l.PDone?)
  {
    hide OpenCalls;
    match l {
      case PStart(p, i, f) => OpenMoves(s.producers, p, Waiting(i, f));
      case PFull(_) =>
      case PAdmit(p) => OpenMoves(s.producers, p, Admitted(s.producers[p].i, s.producers[p].f));
      case PQbuf(p) => OpenMoves(s.producers, p, Queued(s.producers[p].i, s.producers[p].f));
      case PQbufFail(p) => OpenLeaves(s.producers, p);
      case PInsert(p) => OpenMoves(s.producers, p, Released);
      case PCount(p) => OpenMoves(s.producers, p, Counted);
      case PDone(p) => OpenLeaves(s.producers, p);
      case _ =>
    }
  }

  lemma FramesGrow(s: State, l: Label)
    requires LockInv(s) && MapInv(s) && IsProducerLabel(l) && ProducerEnabled(s, l)
    ensures |DoProducer(s, l).frames| == |s.frames| + One(l.PInsert?)
  {
    if l.PInsert? {
      var (i, f) := (s.producers[l.p].i, s.producers[l.p].f);
      assert MapAt(s, i, f);
      assert s.frames[i := f].Keys == s.frames.Keys + {i};
    } else if l.PQbuf? {
      assert DoProducer(s, l).frames == s.frames;
    } else {
      ProducerElsewhere(s, l);
    }
  }

  lemma ConsumerKeepsProducers(s: State, l: Label)
    requires IsConsumerLabel(l) && ConsumerEnabled(s, l)
    ensures DoConsumer(s, l).producers == s.producers
  {
    match l {
      case COuter =>
      case CInner =>
      case CCheck =>
      case CDqbuf(_) =>
      case CDqbufFail =>
      case CCopy =>
      case CLock =>
      case CFind =>
      case CCall =>
      case CUncount =>
      case CFinish =>
      case _ =>
    }
  }

  lemma OnlyTestEnds(s: State, l: Label)
    requires IsConsumerLabel(l) && ConsumerEnabled(s, l)
    ensures !s.consumer.Exited?
    ensures DoConsumer(s, l).consumer.Exited? ==> l.CInner?
  {
    if DoConsumer(s, l).consumer.Exited? {
      ExitStep(s, l);
    }
  }

  // ---------------------------------------------------------------- over every run

  ghost predicate LeftCounted(ls: seq<Label>, s: State) {
    && OpenCalls(s.producers) == CallsInserted(ls) - CallsDone(ls)
    && LateCounts(ls) >= 0
    && (s.consumer.Exited? ==> |s.frames| == s.lost + LateCounts(ls) + LateInserts(ls))
  }

  lemma LeftCountedByProducer(ls: seq<Label>, s: State, l: Label)
    requires Inv(s) && LeftCounted(ls, s) && IsProducerLabel(l) && ProducerEnabled(s, l)
    ensures LeftCounted(ls + [l], DoProducer(s, l))
  {
    InvMaps(s);
    hide Inv, LockInv, MapInv, PlaceInv, OpenCalls, DoProducer, ProducerEnabled;
    hide CallsInserted, CallsDone, LateCounts, LateInserts;
    CountsSnoc(ls, l);
    LateSnoc(ls, l);
    OpenCallsStep(s, l);
    FramesGrow(s, l);
    ProducerCounts(s, l);
  }

  lemma LeftCountedByConsumer(ls: seq<Label>, s: State, l: Label)
    requires Inv(s) && LeftCounted(ls, s) && IsConsumerLabel(l) && ConsumerEnabled(s, l)
    ensures LeftCounted(ls + [l], DoConsumer(s, l))
  {
    hide Inv, InPhase, DoConsumer, ConsumerEnabled;
    hide CallsInserted, CallsDone, LateCounts, LateInserts;
    CountsSnoc(ls, l);
    LateSnoc(ls, l);
    ConsumerKeepsProducers(s, l);
    OnlyTestEnds(s, l);
    if DoConsumer(s, l).consumer.Exited? {
      ExitLeaves(s, l);
    }
  }

  lemma LeftCountedByControl(ls: seq<Label>, s: State, l: Label)
    requires Inv(s) && LeftCounted(ls, s) && IsControlLabel(l) && Enabled(s, l)
    ensures LeftCounted(ls + [l], Do(s, l))
  {
    InvCounts(s);
    hide Inv, CountInv, OpenCalls, Do, Enabled;
    hide CallsInserted, CallsDone, LateCounts, LateInserts;
    CountsSnoc(ls, l);
    LateSnoc(ls, l);
    ControlElsewhere(s, l);
    ControlCounts(s, l);
  }

  lemma LeftCountedKept(ls: seq<Label>, s: State, l: Label)
    requires Inv(s) && LeftCounted(ls, s) && Enabled(s, l)
    ensures LeftCounted(ls + [l], Do(s, l))
  {
    hide Inv, LeftCounted, DoProducer, DoConsumer;
    if IsProducerLabel(l) {
      LeftCountedByProducer(ls, s, l);
    } else if IsConsumerLabel(l) {
      LeftCountedByConsumer(ls, s, l);
    } else {
      LeftCountedByControl(ls, s, l);
    }
  }

  lemma {:induction false} LeftCountedFrom(done: seq<Label>, s: State, ls: seq<Label>, last: State)
    requires Inv(s) && LeftCounted(done, s) && Runs(s, ls, last)
    ensures LeftCounted(done + ls, last)
    decreases |ls|
  {
    hide Inv, LeftCounted, Do, Enabled;
    if ls == [] {
      assert done + ls == done;
    } else {
      LeftCountedKept(done, s, ls[0]);
      StepKeepsInv(s, ls[0]);
      LeftCountedFrom(done + [ls[0]], Do(s, ls[0]), ls[1..], last);
      assert done + [ls[0]] + ls[1..] == done + ls;
    }
  }

  lemma NothingLeftYet(callback: bool)
    ensures LeftCounted([], Init(callback))
  {
    assert InPhase(Init(callback).producers, Released) == {} && InPhase(Init(callback).producers, Counted) == {};
  }

  lemma LeftInRun(callback: bool, ls: seq<Label>, s: State)
    requires Runs(Init(callback), ls, s)
    ensures LeftCounted(ls, s)
  {
    hide Inv, Runs, LeftCounted, Init;
    InitInv(callback);
    NothingLeftYet(callback);
    LeftCountedFrom([], Init(callback), ls, s);
    assert [] + ls == ls;
  }

  /** After the thread's end, whatever has happened before and since, the map holds as many
      frames as there were QueueBuffer calls completed before StartStream, failed DQBUFs,
      calls that counted their frame only after the thread's last test, and calls that
      inserted theirs only then. */
  lemma LeftAfterExit(callback: bool, ls: seq<Label>, s: State)
    requires Runs(Init(callback), ls, s) && s.consumer.Exited?
    ensures |s.frames| == CallsWiped(ls) + FailedDqbufs(ls) + LateCounts(ls) + LateInserts(ls)
    ensures LateCounts(ls) >= 0
    ensures s.accepted == s.delivered + s.dropped + multiset(Items(s.frames))
  {
    hide Inv, Runs, Init, Items, CallsInserted, CallsDone, CallsWiped, FailedDqbufs, LateCounts, LateInserts, OpenCalls;
    LeftInRun(callback, ls, s);
    LostInRun(callback, ls, s);
    InitInv(callback);
    RunsKeepInv(Init(callback), ls, s);
    LeftBehind(s);
  }

  /** So a stopped stream has given back every accepted frame if and only if there was
      none of these. */
  lemma AllDeliveredIff(callback: bool, ls: seq<Label>, s: State)
    requires Runs(Init(callback), ls, s) && s.consumer.Exited?
    ensures s.accepted == s.delivered + s.dropped
       <==> CallsWiped(ls) == 0 && FailedDqbufs(ls) == 0 && LateCounts(ls) == 0 && LateInserts(ls) == 0
  {
    hide Runs, Init, Items, CallsInserted, CallsDone, CallsWiped, FailedDqbufs, LateCounts, LateInserts;
    LeftAfterExit(callback, ls, s);
    NoneLeftIff(s);
  }

  // ---------------------------------------------------------------- a stop that overtakes a call

  lemma {:induction false} LosesNothingLater(s: State, ls: seq<Label>)
    requires forall k :: 0 <= k < |ls| ==> !ls[k].CDqbufFail? && !ls[k].StartStream?
    ensures LosesNothing(s, ls)
    decreases |ls|
  {
    if ls != [] && Enabled(s, ls[0]) {
      LosesNothingLater(Do(s, ls[0]), ls[1..]);
    }
  }

  lemma {:induction false} LosesNothingConcat(s: State, a: seq<Label>, mid: State, b: seq<Label>)
    requires Runs(s, a, mid) && LosesNothing(s, a) && LosesNothing(mid, b)
    ensures LosesNothing(s, a + b)
    decreases |a|
  {
    hide Do, Enabled;
    if a == [] {
      assert a + b == b;
    } else {
      LosesNothingConcat(Do(s, a[0]), a[1..], mid, b);
      assert (a + b)[1..] == a[1..] + b;
    }
  }

  lemma LosesNothingAtStart(s: State)
    requires s.curr == 0
    ensures LosesNothing(s, [StartStream(true)])
  {
    assert [StartStream(true)][1..] == [];
  }

  lemma AfterStartStream(s: State)
    requires s.phase == Before
    ensures Enabled(s, StartStream(true))
    ensures Do(s, StartStream(true))
         == s.(curr := 0, lost := s.lost + s.curr, streams := 1, phase := Streaming, consumer := Outer)
  {
  }

  lemma AfterStopStream(s: State)
    requires s.phase == Streaming
    ensures Enabled(s, StopStream) && Do(s, StopStream) == s.(streams := 0, phase := Stopping)
  {
  }

  lemma AfterOuter(s: State)
    requires s.consumer.Outer?
    ensures Enabled(s, COuter) && Do(s, COuter) == s.(consumer := Inner, drain := s.streams == 0)
  {
  }

  lemma AfterLastTest(s: State)
    requires s.consumer.Inner? && s.curr == 0 && s.drain
    ensures Enabled(s, CInner) && Do(s, CInner) == s.(consumer := Exited)
  {
  }

  /** Up to the insertion of the frame. */
  function CallBegins(i: Index, f: Frame): seq<Label> {
    [StartStream(true)] + [PStart(0, i, f)] + [PAdmit(0)] + [PQbuf(0)] + [PInsert(0)]
  }

  /** The stop and the thread's end. */
  const THREAD_ENDS := [StopStream] + [COuter] + [CInner]

  /** The rest of the call. */
  const CALL_ENDS := [PCount(0)] + [PDone(0)]

  lemma CallBegun(callback: bool, i: Index, f: Frame) returns (last: State)
    ensures Runs(Init(callback), CallBegins(i, f), last) && LosesNothing(Init(callback), CallBegins(i, f))
    ensures last.producers == map[0 := Released] && last.frames == map[i := f] && last.lock == Free
    ensures last.phase == Streaming && last.consumer.Outer? && last.curr == 0 && last.lost == 0
    ensures last.delivered == last.dropped == multiset{}
  {
    hide Runs, Do, Enabled, LosesNothing;
    var s0 := Init(callback);
    AfterStartStream(s0);
    var s1 := Do(s0, StartStream(true));
    AfterStart(s1, 0, i, f);
    var s2 := Do(s1, PStart(0, i, f));
    AfterAdmit(s2, 0, i, f);
    var s3 := Do(s2, PAdmit(0));
    AfterQbuf(s3, 0, i, f);
    var s4 := Do(s3, PQbuf(0));
    AfterInsert(s4, 0, i, f);
    last := Do(s4, PInsert(0));
    RunsOne(s0, StartStream(true));
    LosesNothingAtStart(s0);
    LosesNothingLater(s1, [PStart(0, i, f)] + [PAdmit(0)] + [PQbuf(0)] + [PInsert(0)]);
    LosesNothingConcat(s0, [StartStream(true)], s1, [PStart(0, i, f)] + [PAdmit(0)] + [PQbuf(0)] + [PInsert(0)]);
    assert CallBegins(i, f) == [StartStream(true)] + ([PStart(0, i, f)] + [PAdmit(0)] + [PQbuf(0)] + [PInsert(0)]);
    RunsSnoc(s0, [StartStream(true)], s1, PStart(0, i, f));
    RunsSnoc(s0, [StartStream(true)] + [PStart(0, i, f)], s2, PAdmit(0));
    RunsSnoc(s0, [StartStream(true)] + [PStart(0, i, f)] + [PAdmit(0)], s3, PQbuf(0));
    RunsSnoc(s0, [StartStream(true)] + [PStart(0, i, f)] + [PAdmit(0)] + [PQbuf(0)], s4, PInsert(0));
  }

  lemma ThreadEnded(s: State) returns (last: State)
    requires s.phase == Streaming && s.consumer.Outer? && s.curr == 0
    ensures Runs(s, THREAD_ENDS, last)
    ensures last == s.(streams := 0, phase := Stopping, drain := true, consumer := Exited)
  {
    hide Runs, Do, Enabled;
    AfterStopStream(s);
    var s1 := Do(s, StopStream);
    AfterOuter(s1);
    var s2 := Do(s1, COuter);
    AfterLastTest(s2);
    last := Do(s2, CInner);
    RunsOne(s, StopStream);
    RunsSnoc(s, [StopStream], s1, COuter);
    RunsSnoc(s, [StopStream] + [COuter], s2, CInner);
  }

  lemma CallEnded(s: State) returns (last: State)
    requires s.producers == map[0 := Released]
    ensures Runs(s, CALL_ENDS, last)
    ensures last == s.(producers := map[], bufCont := s.bufCont + 1, curr := s.curr + 1)
  {
    hide Runs, Do, Enabled;
    AfterCount(s, 0);
    var s1 := Do(s, PCount(0));
    AfterDone(s1, 0);
    last := Do(s1, PDone(0));
    assert last.producers == map[];
    RunsOne(s, PCount(0));
    RunsSnoc(s, [PCount(0)], s1, PDone(0));
  }

  /** Losing nothing is not enough.  The caller has inserted its frame and not yet counted
      it when StopStream comes; the thread sees no count and ends.  The call then completes,
      StreamOff follows, and the frame is still in the map: not delivered, not dropped. */
  lemma StopOvertakesCall(callback: bool, i: Index, f: Frame) returns (ls: seq<Label>, s: State)
    ensures ls == CallBegins(i, f) + THREAD_ENDS + CALL_ENDS
    ensures Runs(Init(callback), ls, s) && LosesNothing(Init(callback), ls)
    ensures s.consumer.Exited? && s.producers == map[] && Enabled(s, StreamOff)
    ensures s.lost == 0 && s.curr == 1 && s.frames == map[i := f]
    ensures s.delivered == s.dropped == multiset{}
  {
    hide Runs, LosesNothing, Do;
    var s0 := Init(callback);
    var s1 := CallBegun(callback, i, f);
    var s2 := ThreadEnded(s1);
    s := CallEnded(s2);
    RunsConcat(s0, CallBegins(i, f), s1, THREAD_ENDS, s2);
    RunsConcat(s0, CallBegins(i, f) + THREAD_ENDS, s2, CALL_ENDS, s);
    ls := CallBegins(i, f) + THREAD_ENDS + CALL_ENDS;
    LosesNothingLater(s1, THREAD_ENDS);
    LosesNothingLater(s2, CALL_ENDS);
    LosesNothingConcat(s0, CallBegins(i, f), s1, THREAD_ENDS);
    LosesNothingConcat(s0, CallBegins(i, f) + THREAD_ENDS, s2, CALL_ENDS);
  }
}
