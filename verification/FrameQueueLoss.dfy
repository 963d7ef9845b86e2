/** Where lost counts come from, in terms of what a run did, and a run that loses enough
of them to stop the queue for good. */
module FrameQueueLoss {
  import opened FrameQueue
  import opened FrameQueueSafety
  import opened FrameQueueProgress

  // ---------------------------------------------------------------- what is lost in a run

  /** QueueBuffer calls completed in a run. */
  function CallsDone(ls: seq<Label>): nat {
    if ls == [] then 0 else CallsDone(ls[..|ls| - 1]) + (if ls[|ls| - 1].PDone? then 1 else 0)
  }

  /** QueueBuffer calls completed before the last StartStream. */
  function CallsWiped(ls: seq<Label>): nat {
    if ls == [] then 0
    else if ls[|ls| - 1].StartStream? then CallsDone(ls[..|ls| - 1])
    else CallsWiped(ls[..|ls| - 1])
  }

  function FailedDqbufs(ls: seq<Label>): nat {
    if ls == [] then 0 else FailedDqbufs(ls[..|ls| - 1]) + (if ls[|ls| - 1].CDqbufFail? then 1 else 0)
  }

  ghost predicate LossCounted(ls: seq<Label>, s: State) {
    && Lost(s) == CallsWiped(ls) + FailedDqbufs(ls)
    && (s.phase == Before ==> s.curr + s.lost == CallsDone(ls) && FailedDqbufs(ls) == 0)
  }

  lemma CountsSnoc(ls: seq<Label>, l: Label)
    ensures CallsDone(ls + [l]) == CallsDone(ls) + (if l.PDone? then 1 else 0)
    ensures CallsWiped(ls + [l]) == if l.StartStream? then CallsDone(ls) else CallsWiped(ls)
    ensures FailedDqbufs(ls + [l]) == FailedDqbufs(ls) + (if l.CDqbufFail? then 1 else 0)
  {
    assert (ls + [l])[..|ls|] == ls;
  }

  lemma ProducerCounts(s: State, l: Label)
    requires IsProducerLabel(l) && ProducerEnabled(s, l)
    ensures
      var t := DoProducer(s, l);
      && t.phase == s.phase && t.curr == s.curr + (if l.PDone? then 1 else 0)
      && t.lost == s.lost && t.consumer == s.consumer
  {
    match l {
      case PStart(_, _, _) =>
      case PFull(_) =>
      case PAdmit(_) =>
      case PQbuf(_) =>
      case PQbufFail(_) =>
      case PInsert(_) =>
      case PCount(_) =>
      case PDone(_) =>
      case _ =>
    }
  }

  lemma LossCountedByConsumer(ls: seq<Label>, s: State, l: Label)
    requires Inv(s) && LossCounted(ls, s) && IsConsumerLabel(l) && ConsumerEnabled(s, l)
    ensures Lost(DoConsumer(s, l)) == Lost(s) + (if l.CDqbufFail? then 1 else 0)
    ensures DoConsumer(s, l).phase != Before
  {
    InvCounts(s);
    hide Inv, LossCounted, CountInv, Lost, DoConsumer;
    ConsumerPhase(s, l);
    if l.CDqbufFail? {
      FailureLoses(s);
    } else {
      DrainStepLost(s, l);
    }
  }

  lemma FailureLoses(s: State)
    requires s.consumer.Dequeue?
    ensures Lost(DoConsumer(s, CDqbufFail)) == Lost(s) + 1
  {
  }

  lemma ConsumerPhase(s: State, l: Label)
    requires ControlInv(s) && IsConsumerLabel(l) && ConsumerEnabled(s, l)
    ensures DoConsumer(s, l).phase == s.phase != Before
  {
    match l {
      case COuter =>
      case CInner =>
      case CCheck =>
      case CDqbuf(_) =>
      case CDqbufFail =>
      case CCopy =>
      case CLock =>
      case CFind =>
      case CCall =>
      case CUncount =>
      case CFinish =>
      case _ =>
    }
  }

  lemma ControlCounts(s: State, l: Label)
    requires ControlInv(s) && IsControlLabel(l) && Enabled(s, l)
    ensures
      var t := Do(s, l);
      && (l.StartStream? ==> s.phase == Before && t.curr == 0 && t.lost == s.lost + s.curr
                             && Lost(s) == s.lost && Lost(t) == t.lost)
      && (!l.StartStream? ==> t.curr == s.curr && t.lost == s.lost && Lost(t) == Lost(s))
      && (t.phase == Before ==> s.phase == Before)
  {
    match l {
      case SetCallback =>
      case StartStream(_) =>
      case StopStream =>
      case StreamOff =>
      case _ =>
    }
  }

  lemma LossCountedKept(ls: seq<Label>, s: State, l: Label)
    requires Inv(s) && LossCounted(ls, s) && Enabled(s, l)
    ensures LossCounted(ls + [l], Do(s, l))
  {
    hide Inv, DoProducer, DoConsumer, ControlInv, CountInv, CallsDone, CallsWiped, FailedDqbufs;
    CountsSnoc(ls, l);
    InvCounts(s);
    if IsProducerLabel(l) {
      hide Lost;
      ProducerCounts(s, l);
      ProducerKeepsLost(s, l);
    } else if IsConsumerLabel(l) {
      hide Lost;
      LossCountedByConsumer(ls, s, l);
    } else {
      hide Lost, Do;
      ControlCounts(s, l);
    }
  }

  lemma {:induction false} LossCountedFrom(done: seq<Label>, s: State, ls: seq<Label>, last: State)
    requires Inv(s) && LossCounted(done, s) && Runs(s, ls, last)
    ensures LossCounted(done + ls, last)
    decreases |ls|
  {
    hide Inv, LossCounted, Do, Enabled;
    if ls == [] {
      assert done + ls == done;
    } else {
      LossCountedKept(done, s, ls[0]);
      StepKeepsInv(s, ls[0]);
      LossCountedFrom(done + [ls[0]], Do(s, ls[0]), ls[1..], last);
      assert done + [ls[0]] + ls[1..] == done + ls;
    }
  }

  lemma NothingLostYet(callback: bool)
    ensures LossCounted([], Init(callback))
  {
  }

  /** In every run, what is lost is exactly the QueueBuffer calls completed before
      StartStream and the failed DQBUFs. */
  lemma LostInRun(callback: bool, ls: seq<Label>, s: State)
    requires Runs(Init(callback), ls, s)
    ensures Lost(s) == CallsWiped(ls) + FailedDqbufs(ls)
  {
    hide Inv, Runs, Lost, Init, LossCounted, CallsWiped, FailedDqbufs;
    InitInv(callback);
    NothingLostYet(callback);
    LossCountedFrom([], Init(callback), ls, s);
    assert [] + ls == ls;
    LossCountedMeans(ls, s);
  }

  lemma LossCountedMeans(ls: seq<Label>, s: State)
    requires LossCounted(ls, s)
    ensures Lost(s) == CallsWiped(ls) + FailedDqbufs(ls)
  {
  }

  /** So a run that fills the map stalls if and only if eight QueueBuffer calls were
      completed before StartStream or ended in a failed DQBUF. */
  lemma StallsIff(callback: bool, ls: seq<Label>, s: State)
    requires Runs(Init(callback), ls, s) && AllWait(s) && AtLoopTest(s)
    ensures Stalled(s) <==> CallsWiped(ls) + FailedDqbufs(ls) >= MAXBUFFER
  {
    hide Runs, Stalled, AllWait;
    LostInRun(callback, ls, s);
    StalledIffEightLost(s);
  }

  // ---------------------------------------------------------------- a run that stalls

  /** Before StartStream, n frames have been queued, with the indexes below n. */
  ghost predicate Filled(s: State, n: nat) {
    && s.producers == map[] && s.lock == Free && s.phase == Before && s.consumer.NotRunning?
    && s.curr == n && |s.frames| == n && (n > 0 ==> s.entry)
    && forall i :: n <= i ==> i !in s.frames && i !in s.kernel && i !in s.place
  }

  lemma FilledFacts(s: State, n: nat)
    requires Filled(s, n)
    ensures s.producers == map[] && s.lock == Free && s.phase == Before && |s.frames| == n
    ensures PlaceOf(s, n) == AtClient && n !in s.kernel
  {
  }

  lemma CallEntered(s: State, n: nat, f: Frame) returns (last: State)
    requires Filled(s, n) && n < MAXBUFFER
    ensures Runs(s, [PStart(0, n, f)] + [PAdmit(0)] + [PQbuf(0)], last)
    ensures last == s.(producers := map[0 := Queued(n, f)], lock := ByProducer(0), kernel := s.kernel[n := f],
                       place := s.place[n := InKernel])
  {
    FilledFacts(s, n);
    hide Runs, Do, Enabled, Filled;
    AfterStart(s, 0, n, f);
    var s1 := Do(s, PStart(0, n, f));
    AfterAdmit(s1, 0, n, f);
    var s2 := Do(s1, PAdmit(0));
    AfterQbuf(s2, 0, n, f);
    last := Do(s2, PQbuf(0));
    assert last.producers == map[0 := Queued(n, f)];
    assert last.place == s.place[n := InKernel];
    RunsOne(s, PStart(0, n, f));
    RunsSnoc(s, [PStart(0, n, f)], s1, PAdmit(0));
    RunsSnoc(s, [PStart(0, n, f)] + [PAdmit(0)], s2, PQbuf(0));
  }

  lemma CallLeft(s: State, n: nat, f: Frame) returns (last: State)
    requires s.producers == map[0 := Queued(n, f)]
    ensures Runs(s, [PInsert(0)] + [PCount(0)] + [PDone(0)], last)
    ensures last == s.(producers := map[], lock := Free, entry := true, frames := s.frames[n := f],
                       accepted := s.accepted + multiset{(n, f)}, bufCont := s.bufCont + 1, curr := s.curr + 1)
  {
    hide Runs, Do, Enabled;
    AfterInsert(s, 0, n, f);
    var s1 := Do(s, PInsert(0));
    AfterCount(s1, 0);
    var s2 := Do(s1, PCount(0));
    AfterDone(s2, 0);
    last := Do(s2, PDone(0));
    assert last.producers == map[];
    RunsOne(s, PInsert(0));
    RunsSnoc(s, [PInsert(0)], s1, PCount(0));
    RunsSnoc(s, [PInsert(0)] + [PCount(0)], s2, PDone(0));
  }

  lemma CallFills(s: State, n: nat, f: Frame) returns (ls: seq<Label>, last: State)
    requires Filled(s, n) && n < MAXBUFFER
    ensures Runs(s, ls, last) && Filled(last, n + 1)
  {
    hide Runs;
    var mid := CallEntered(s, n, f);
    last := CallLeft(mid, n, f);
    assert s.frames[n := f].Keys == s.frames.Keys + {n};
    ls := [PStart(0, n, f)] + [PAdmit(0)] + [PQbuf(0)] + ([PInsert(0)] + [PCount(0)] + [PDone(0)]);
    RunsConcat(s, [PStart(0, n, f)] + [PAdmit(0)] + [PQbuf(0)], mid, [PInsert(0)] + [PCount(0)] + [PDone(0)], last);
  }

  lemma {:induction false} CallsFill(callback: bool, n: nat) returns (ls: seq<Label>, last: State)
    requires n <= MAXBUFFER
    ensures Runs(Init(callback), ls, last) && Filled(last, n)
  {
    if n == 0 {
      ls, last := [], Init(callback);
    } else {
      hide Runs, Filled, Init;
      var ls1, mid := CallsFill(callback, n - 1);
      var ls2;
      ls2, last := CallFills(mid, n - 1, 0);
      RunsConcat(Init(callback), ls1, mid, ls2, last);
      ls := ls1 + ls2;
    }
  }

  lemma FilledStalls(s: State) returns (last: State)
    requires Filled(s, MAXBUFFER)
    ensures Runs(s, [StartStream(true)] + [PStart(0, MAXBUFFER, 0)], last)
    ensures Stalled(last) && last.producers == map[0 := Waiting(MAXBUFFER, 0)]
  {
    hide Runs;
    var s1 := Do(s, StartStream(true));
    last := Do(s1, PStart(0, MAXBUFFER, 0));
    RunsOne(s, StartStream(true));
    RunsSnoc(s, [StartStream(true)], s1, PStart(0, MAXBUFFER, 0));
  }

  /** The stall is real: eight frames queued before StartStream, and the ninth caller
      waits for ever. */
  lemma EightCallsThenStartStall(callback: bool) returns (ls: seq<Label>, s: State)
    ensures Runs(Init(callback), ls, s) && Stalled(s) && 0 in s.producers
    ensures forall more, last :: Runs(s, more, last) ==> Stalled(last) && last.delivered == s.delivered
  {
    hide Runs, Filled, Stalled, Init;
    var ls1, mid := CallsFill(callback, MAXBUFFER);
    s := FilledStalls(mid);
    ls := ls1 + ([StartStream(true)] + [PStart(0, MAXBUFFER, 0)]);
    RunsConcat(Init(callback), ls1, mid, [StartStream(true)] + [PStart(0, MAXBUFFER, 0)], s);
    forall more, last | Runs(s, more, last) ensures Stalled(last) && last.delivered == s.delivered {
      StalledForEver(s, more, last);
    }
  }
}
