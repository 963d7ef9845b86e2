/** When the frame queue keeps moving, when it is stuck for good, and what is left when
the stream stops.

Everything hinges on `lost`: the counts of currStartQueueBuffNum that StartStream wiped
because frames had already been queued, plus those spent on a failed DQBUF. */
module FrameQueueProgress {
  import opened FrameQueue
  import opened FrameQueueSafety

  lemma RunsOne(s: State, l: Label)
    requires Enabled(s, l)
    ensures Runs(s, [l], Do(s, l))
  {
    assert [l][1..] == [];
  }

  lemma {:induction false} RunsConcat(s: State, a: seq<Label>, mid: State, b: seq<Label>, last: State)
    requires Runs(s, a, mid) && Runs(mid, b, last)
    ensures Runs(s, a + b, last)
    decreases |a|
  {
    hide Do, Enabled;
    if a == [] {
      assert a + b == b;
    } else {
      RunsConcat(Do(s, a[0]), a[1..], mid, b, last);
      assert (a + b)[1..] == a[1..] + b;
    }
  }

  lemma RunsSnoc(s: State, a: seq<Label>, mid: State, l: Label)
    requires Runs(s, a, mid) && Enabled(mid, l)
    ensures Runs(s, a + [l], Do(mid, l))
  {
    RunsOne(mid, l);
    RunsConcat(s, a, mid, [l], Do(mid, l));
  }

  // ---------------------------------------------------------------- waiting on a full map

  /** Every thread inside QueueBuffer waits for room in a full map. */
  ghost predicate AllWait(s: State) {
    && s.lock == Free && |s.frames| >= MAXBUFFER
    && forall p :: p in s.producers ==> s.producers[p].Waiting?
  }

  /** The consumer is at one of its loop tests. */
  predicate AtLoopTest(s: State) {
    s.consumer.Outer? || s.consumer.Inner?
  }

  /** All wait, and the consumer has no count left to act on. */
  ghost predicate Stalled(s: State) {
    && AllWait(s) && s.curr <= 0 && s.entry
    && (s.consumer.Outer? || s.consumer.Inner? || s.consumer.Exited?)
    && s.phase != Before
  }

  lemma NobodyCounting(s: State)
    requires AllWait(s)
    ensures InPhase(s.producers, Released) == {} && InPhase(s.producers, Counted) == {}
  {
  }

  /** With all producers waiting on the full map and fewer than eight counts lost,
      wherever the consumer is, both counters are positive: it is enabled, and does not
      take the early error return. */
  lemma NoStall(s: State)
    requires Reachable(s) && AllWait(s) && s.lost < MAXBUFFER
    ensures s.curr > 0 && s.bufCont >= 1
  {
    ReachableInv(s);
    NobodyCounting(s);
  }

  /** With all producers waiting on the full map, the system is stuck exactly if eight
      counts have been lost. */
  lemma StalledIffEightLost(s: State)
    requires Reachable(s) && AllWait(s) && AtLoopTest(s)
    ensures Stalled(s) <==> s.lost >= MAXBUFFER
  {
    ReachableInv(s);
    NobodyCounting(s);
  }

  lemma StalledKept(s: State, l: Label)
    requires Stalled(s) && Enabled(s, l)
    ensures Stalled(Do(s, l)) && Do(s, l).frames == s.frames && Do(s, l).delivered == s.delivered
  {
    if IsProducerLabel(l) {
      hide DoConsumer, ConsumerEnabled;
      assert Stalled(DoProducer(s, l));
    } else {
      hide DoProducer, ProducerEnabled;
    }
  }

  /** A stall is for good: no step of any thread, new QueueBuffer calls and StopStream
      included, ever delivers a frame or makes room again. */
  lemma {:induction false} StalledForEver(s: State, ls: seq<Label>, last: State)
    requires Stalled(s) && Runs(s, ls, last)
    ensures Stalled(last) && last.frames == s.frames && last.delivered == s.delivered
    decreases |ls|
  {
    hide Stalled, Do, Enabled;
    if ls != [] {
      StalledKept(s, ls[0]);
      StalledForEver(Do(s, ls[0]), ls[1..], last);
    }
  }

  lemma SomeKernelIndex(s: State) returns (i: Index)
    requires Inv(s) && s.consumer.Dequeue?
    ensures i in s.kernel
  {
    ConsumerNeverStarves(s);
    i :| i in s.kernel;
  }

  ghost predicate Looping(s: State) {
    !s.consumer.NotRunning? && !s.consumer.Exited?
  }

  /** Inside loopBuffers the consumer can always take a step, unless a producer holds the
      lock; where that step is DQBUF, the kernel has a frame for it. */
  lemma ConsumerStepExists(s: State) returns (l: Label)
    requires Inv(s) && Looping(s) && !s.lock.ByProducer?
    ensures IsConsumerLabel(l) && ConsumerEnabled(s, l) && !l.CDqbufFail?
  {
    match s.consumer {
      case NotRunning => assert false;
      case Outer => l := COuter;
      case Inner => l := CInner;
      case Check => l := CCheck;
      case Dequeue =>
        var i := SomeKernelIndex(s);
        l := CDqbuf(i);
      case Copy(_, _) => l := CCopy;
      case WantLock(_, _) => l := CLock;
      case Find(_, _) => l := CFind;
      case Took(_, _) => l := CCall;
      case Called => l := CUncount;
      case Finish(_) => l := CFinish;
      case Exited => assert false;
    }
  }

  // ---------------------------------------------------------------- losing counts

  /** The counts lost so far, with the one a failed DQBUF is about to spend. */
  function Lost(s: State): int {
    s.lost + One(s.consumer == Finish(true))
  }

  lemma LostKept(s: State, l: Label)
    requires IsConsumerLabel(l) && ConsumerEnabled(s, l) && !l.CDqbufFail?
    requires s.consumer.Check? ==> s.bufCont >= 1
    requires s.consumer.Find? ==> s.entry && s.consumer.i in s.frames
    ensures Lost(DoConsumer(s, l)) == Lost(s)
  {
    match l {
      case COuter =>
      case CInner =>
      case CCheck =>
      case CDqbuf(_) =>
      case CCopy =>
      case CLock =>
      case CFind =>
      case CCall =>
      case CUncount =>
      case CFinish =>
      case _ =>
    }
  }

  lemma DrainStepLost(s: State, l: Label)
    requires Inv(s) && IsConsumerLabel(l) && ConsumerEnabled(s, l) && !l.CDqbufFail?
    ensures Lost(DoConsumer(s, l)) == Lost(s)
  {
    hide LockInv, PlaceInv, MapInv, CountInv, FlowInv, ControlInv, DoConsumer, Lost;
    ConsumerNeverStarves(s);
    if s.consumer.Find? {
      FoundByConsumer(s);
    }
    LostKept(s, l);
  }

  lemma ProducerKeepsLost(s: State, l: Label)
    requires IsProducerLabel(l) && ProducerEnabled(s, l)
    ensures Lost(DoProducer(s, l)) == Lost(s)
  {
  }

  // ---------------------------------------------------------------- a waiter is served

  ghost predicate AllWaiting(producers: map<Pid, Producer>) {
    forall p :: p in producers ==> producers[p].Waiting?
  }

  /** Steps a thread still has to take in its call, once it has got the lock. */
  function StepsLeft(pr: Producer): nat {
    match pr
    case Waiting(_, _) => 0
    case Admitted(_, _) => 4
    case Queued(_, _) => 3
    case Released => 2
    case Counted => 1
  }

  /** A step of a call that is already under way, of another thread than p. */
  predicate IsOthersStep(l: Label, p: Pid) {
    IsProducerLabel(l) && !l.PStart? && l.p != p
  }

  ghost predicate WithoutThread(ls: seq<Label>, p: Pid) {
    forall k :: 0 <= k < |ls| ==> IsConsumerLabel(ls[k]) || IsOthersStep(ls[k], p)
  }

  lemma AfterStart(s: State, p: Pid, i: Index, f: Frame)
    requires p !in s.producers && PlaceOf(s, i) == AtClient && s.phase != Off
    ensures Enabled(s, PStart(p, i, f))
    ensures Do(s, PStart(p, i, f))
         == s.(producers := s.producers[p := Waiting(i, f)], place := s.place[i := WithProducer(p)])
  {
  }

  lemma AfterAdmit(s: State, p: Pid, i: Index, f: Frame)
    requires p in s.producers && s.producers[p] == Waiting(i, f)
    requires s.lock == Free && (s.entry ==> |s.frames| < MAXBUFFER)
    ensures Enabled(s, PAdmit(p))
    ensures Do(s, PAdmit(p)) == s.(producers := s.producers[p := Admitted(i, f)], lock := ByProducer(p))
  {
  }

  lemma AfterQbuf(s: State, p: Pid, i: Index, f: Frame)
    requires p in s.producers && s.producers[p] == Admitted(i, f) && i !in s.kernel
    ensures Enabled(s, PQbuf(p))
    ensures Do(s, PQbuf(p)) == s.(producers := s.producers[p := Queued(i, f)], kernel := s.kernel[i := f],
                                  place := s.place[i := InKernel])
  {
  }

  lemma AfterInsert(s: State, p: Pid, i: Index, f: Frame)
    requires p in s.producers && s.producers[p] == Queued(i, f)
    ensures Enabled(s, PInsert(p))
    ensures Do(s, PInsert(p)) == s.(producers := s.producers[p := Released], lock := Free, entry := true,
                                    frames := s.frames[i := f], accepted := s.accepted + multiset{(i, f)})
  {
  }

  lemma AfterCount(s: State, p: Pid)
    requires p in s.producers && s.producers[p] == Released
    ensures Enabled(s, PCount(p))
    ensures Do(s, PCount(p)) == s.(producers := s.producers[p := Counted], bufCont := s.bufCont + 1)
  {
  }

  lemma AfterDone(s: State, p: Pid)
    requires p in s.producers && s.producers[p] == Counted
    ensures Enabled(s, PDone(p))
    ensures Do(s, PDone(p)) == s.(producers := s.producers - {p}, curr := s.curr + 1)
  {
  }

  /** Once it has got the lock, a thread can always take the next step of its call. */
  lemma NextOfCall(s: State, q: Pid) returns (l: Label)
    requires LockInv(s) && PlaceInv(s) && MapInv(s) && q in s.producers && !s.producers[q].Waiting?
    ensures IsProducerLabel(l) && !l.PStart? && l.p == q && Enabled(s, l)
    ensures
      var t := Do(s, l);
      && t.consumer == s.consumer
      && (if s.producers[q].Counted? then t.producers == s.producers - {q}
          else q in t.producers && t.producers == s.producers[q := t.producers[q]]
               && StepsLeft(t.producers[q]) == StepsLeft(s.producers[q]) - 1)
  {
    hide Do, Enabled, LockInv, PlaceInv, MapInv;
    match s.producers[q] {
      case Waiting(_, _) => assert false;
      case Admitted(i, f) =>
        FreshIndex(s, q);
        AfterQbuf(s, q, i, f);
        l := PQbuf(q);
      case Queued(i, f) =>
        AfterInsert(s, q, i, f);
        l := PInsert(q);
      case Released =>
        AfterCount(s, q);
        l := PCount(q);
      case Counted =>
        AfterDone(s, q);
        l := PDone(q);
    }
  }

  lemma InvMaps(s: State)
    requires Inv(s)
    ensures LockInv(s) && PlaceInv(s) && MapInv(s)
  {
  }

  lemma {:induction false} FinishCall(s: State, q: Pid, p: Pid) returns (ls: seq<Label>, last: State)
    requires Inv(s) && q in s.producers && !s.producers[q].Waiting? && q != p
    ensures Runs(s, ls, last) && Inv(last) && WithoutThread(ls, p)
    ensures last.producers == s.producers - {q} && last.consumer == s.consumer && Lost(last) == Lost(s)
    decreases StepsLeft(s.producers[q])
  {
    hide Inv, LockInv, PlaceInv, MapInv, Runs, DoProducer, Lost, ProducerEnabled;
    InvMaps(s);
    var l := NextOfCall(s, q);
    assert ProducerEnabled(s, l);
    var t := Do(s, l);
    StepKeepsInv(s, l);
    ProducerKeepsLost(s, l);
    RunsOne(s, l);
    if s.producers[q].Counted? {
      ls, last := [l], t;
    } else {
      var rest;
      rest, last := FinishCall(t, q, p);
      assert last.producers == s.producers - {q};
      RunsConcat(s, [l], t, rest, last);
      ls := [l] + rest;
    }
  }

  /** Every call that has got the lock can be finished, while the others wait. */
  lemma {:induction false} FinishCalls(s: State, p: Pid) returns (ls: seq<Label>, last: State)
    requires Inv(s) && p in s.producers && s.producers[p].Waiting?
    ensures Runs(s, ls, last) && Inv(last) && WithoutThread(ls, p)
    ensures AllWaiting(last.producers) && p in last.producers && last.producers[p] == s.producers[p]
    ensures last.consumer == s.consumer && Lost(last) == Lost(s)
    decreases |s.producers|
  {
    hide Inv, Runs, Lost, IsOthersStep;
    if q :| q in s.producers && !s.producers[q].Waiting? {
      var ls1, mid := FinishCall(s, q, p);
      assert mid.producers.Keys == s.producers.Keys - {q};
      assert |mid.producers.Keys| < |s.producers.Keys|;
      var ls2;
      ls2, last := FinishCalls(mid, p);
      RunsConcat(s, ls1, mid, ls2, last);
      ls := ls1 + ls2;
    } else {
      ls, last := [], s;
      RunsNowhere(s);
    }
  }

  lemma RunsNowhere(s: State)
    ensures Runs(s, [], s)
  {
  }

  /** How far the consumer is from looking an index up. */
  function StepsToFind(c: Consumer): nat {
    match c
    case Find(_, _) => 1
    case WantLock(_, _) => 2
    case Copy(_, _) => 3
    case Dequeue => 4
    case Check => 5
    case Inner => 6
    case Outer => 7
    case Finish(_) => 7
    case Called => 8
    case Took(_, _) => 9
    case _ => 0
  }

  lemma NearerToFind(s: State, l: Label)
    requires IsConsumerLabel(l) && ConsumerEnabled(s, l) && !l.CDqbufFail? && !l.CFind?
    requires (s.consumer.Inner? ==> s.curr > 0) && (s.consumer.Check? ==> s.bufCont >= 1)
    ensures
      var t := DoConsumer(s, l);
      && StepsToFind(t.consumer) < StepsToFind(s.consumer) && Looping(t) && t.producers == s.producers
  {
    match l {
      case COuter =>
      case CInner =>
      case CCheck =>
      case CDqbuf(_) =>
      case CCopy =>
      case CLock =>
      case CCall =>
      case CUncount =>
      case CFinish =>
      case _ =>
    }
  }

  lemma FindMakesRoom(s: State)
    requires s.consumer.Find? && s.entry && s.consumer.i in s.frames && |s.frames| <= MAXBUFFER
    ensures
      var t := DoConsumer(s, CFind);
      t.lock == Free && |t.frames| < MAXBUFFER && t.producers == s.producers
  {
    var rest := s.frames - {s.consumer.i};
    assert rest.Keys == s.frames.Keys - {s.consumer.i};
  }

  /** With all producers waiting, the lock is not a producer's, and a full map and fewer
      than eight lost counts leave the consumer a count to act on. */
  lemma RoomFacts(s: State)
    requires Inv(s) && AllWaiting(s.producers)
    ensures !s.lock.ByProducer? && |s.frames| <= MAXBUFFER
    ensures s.lock == Free || s.consumer.Find?
    ensures |s.frames| >= MAXBUFFER && s.lost < MAXBUFFER ==> s.curr > 0
  {
    hide PlaceInv, MapInv, FlowInv, ControlInv;
    assert InPhase(s.producers, Released) == {} && InPhase(s.producers, Counted) == {};
  }

  ghost predicate HasRoom(s: State) {
    s.lock == Free && |s.frames| < MAXBUFFER
  }

  /** Producers wait, and the consumer has counts enough to go on. */
  ghost predicate Clearing(s: State) {
    Inv(s) && AllWaiting(s.producers) && Looping(s) && Lost(s) < MAXBUFFER
  }

  /** Every step of the consumer makes room or brings it nearer to doing so. */
  lemma ClearingStep(s: State, l: Label)
    requires Clearing(s) && !HasRoom(s)
    requires IsConsumerLabel(l) && ConsumerEnabled(s, l) && !l.CDqbufFail?
    ensures
      var t := DoConsumer(s, l);
      && t.producers == s.producers
      && (HasRoom(t) || (Clearing(t) && StepsToFind(t.consumer) < StepsToFind(s.consumer)))
  {
    hide Inv, LockInv, MapInv, DoConsumer, StepsToFind, Looping, AllWaiting, Lost, ConsumerEnabled;
    assert Enabled(s, l) && Do(s, l) == DoConsumer(s, l);
    RoomFacts(s);
    LostIsMore(s);
    ConsumerNeverStarves(s);
    if l.CFind? {
      InvMaps(s);
      FindEnabled(s);
      FoundByConsumer(s);
      FindMakesRoom(s);
    } else {
      NearerToFind(s, l);
      StepKeepsInv(s, l);
      DrainStepLost(s, l);
    }
  }

  lemma FindEnabled(s: State)
    requires ConsumerEnabled(s, CFind)
    ensures s.consumer.Find?
  {
  }

  lemma LostIsMore(s: State)
    ensures s.lost <= Lost(s)
  {
  }

  lemma ClearingFacts(s: State)
    requires Clearing(s)
    ensures Inv(s) && Looping(s) && !s.lock.ByProducer? && StepsToFind(s.consumer) > 0
  {
    hide Inv;
    RoomFacts(s);
  }

  /** The consumer on its own, wherever it is, makes room in the map. */
  lemma {:induction false} MakeRoom(s: State) returns (ls: seq<Label>, last: State)
    requires Clearing(s)
    ensures Runs(s, ls, last) && forall k :: 0 <= k < |ls| ==> IsConsumerLabel(ls[k])
    ensures last.producers == s.producers && HasRoom(last)
    decreases StepsToFind(s.consumer)
  {
    hide Clearing, Inv, Runs, DoConsumer, StepsToFind, Looping;
    RunsNowhere(s);
    if HasRoom(s) {
      ls, last := [], s;
    } else {
      ClearingFacts(s);
      var l := ConsumerStepExists(s);
      RunsOne(s, l);
      ClearingStep(s, l);
      var t := Do(s, l);
      if HasRoom(t) {
        ls, last := [l], t;
      } else {
        var rest;
        rest, last := MakeRoom(t);
        RunsConcat(s, [l], t, rest, last);
        ls := [l] + rest;
      }
    }
  }

  /** While fewer than eight counts are lost, a thread that waits for room is let in:
      from every reachable state, wherever the consumer is in its loop and whatever the
      other threads are doing, a run in which only the consumer and the calls under way
      take steps ends where it can have the lock. */
  lemma WaiterIsServed(s: State, p: Pid) returns (ls: seq<Label>, last: State)
    requires Reachable(s) && p in s.producers && s.producers[p].Waiting?
    requires Looping(s) && Lost(s) < MAXBUFFER
    ensures Runs(s, ls, last) && WithoutThread(ls, p)
    ensures Enabled(last, PAdmit(p)) && last.producers[p] == s.producers[p]
  {
    ReachableInv(s);
    hide Inv, Runs, Lost, AllWaiting, IsOthersStep;
    var ls1, mid := FinishCalls(s, p);
    assert Clearing(mid);
    var ls2;
    ls2, last := MakeRoom(mid);
    RunsConcat(s, ls1, mid, ls2, last);
    ls := ls1 + ls2;
  }

  lemma RunsHead(s: State, ls: seq<Label>, last: State)
    requires ls != [] && Runs(s, ls, last)
    ensures Enabled(s, ls[0]) && Runs(s, ls[..1], Do(s, ls[0])) && Runs(Do(s, ls[0]), ls[1..], last)
  {
    RunsOne(s, ls[0]);
    assert ls[..1] == [ls[0]];
  }

  /** Not only some: every run of the consumer in which no DQBUF fails comes, within
      StepsToFind steps, past a state with room, where a waiter can have the lock. */
  lemma {:induction false} EveryRunMakesRoom(s: State, ls: seq<Label>, last: State) returns (k: nat, mid: State)
    requires Clearing(s) && Runs(s, ls, last) && |ls| >= StepsToFind(s.consumer)
    requires forall i :: 0 <= i < |ls| ==> IsConsumerLabel(ls[i]) && !ls[i].CDqbufFail?
    ensures k <= |ls| && k <= StepsToFind(s.consumer)
    ensures Runs(s, ls[..k], mid) && Runs(mid, ls[k..], last)
    ensures mid.producers == s.producers && HasRoom(mid)
    decreases |ls|
  {
    hide Clearing, Inv, Runs, DoConsumer, ConsumerEnabled, StepsToFind, Looping, HasRoom;
    RunsNowhere(s);
    ClearingFacts(s);
    if HasRoom(s) {
      k, mid := 0, s;
      assert ls[..0] == [] && ls[0..] == ls;
    } else {
      RunsHead(s, ls, last);
      var l, t := ls[0], Do(s, ls[0]);
      ClearingStep(s, l);
      if HasRoom(t) {
        k, mid := 1, t;
      } else {
        var j;
        j, mid := EveryRunMakesRoom(t, ls[1..], last);
        k := j + 1;
        RunsConcat(s, ls[..1], t, ls[1..][..j], mid);
        assert ls[..1] + ls[1..][..j] == ls[..k] && ls[1..][j..] == ls[k..];
      }
    }
  }

  // ---------------------------------------------------------------- stopping

  /** StopStream has been called and no thread is inside QueueBuffer. */
  ghost predicate Quiet(s: State) {
    s.phase == Stopping && s.producers == map[]
  }

  function PointRank(c: Consumer, drain: bool): nat {
    match c
    case Inner => if drain then 9 else 11
    case Outer => 10
    case Check => 8
    case Dequeue => 7
    case Copy(_, _) => 6
    case WantLock(_, _) => 5
    case Find(_, _) => 4
    case Took(_, _) => 3
    case Called => 2
    case Finish(_) => 1
    case _ => 0
  }

  /** Bounds the steps the consumer still takes: twelve for each count left, and those
      to the end of the current iteration. */
  function Rank(s: State): int {
    12 * s.curr + PointRank(s.consumer, s.drain)
  }

  predicate IsLoopLabel(l: Label) {
    l.COuter? || l.CInner? || l.CFinish?
  }

  lemma RankFallsAtLoop(s: State, l: Label)
    requires ControlInv(s) && Quiet(s) && IsLoopLabel(l) && ConsumerEnabled(s, l)
    ensures Rank(DoConsumer(s, l)) < Rank(s)
  {
  }

  lemma RankFallsAtFind(s: State)
    requires s.consumer.Find?
    ensures Rank(DoConsumer(s, CFind)) < Rank(s)
  {
    var s' := DoConsumer(s, CFind);
    assert s'.curr == s.curr && (s'.consumer.Took? || s'.consumer.Finish?);
  }

  lemma RankFallsInside(s: State, l: Label)
    requires IsConsumerLabel(l) && !IsLoopLabel(l) && !l.CFind? && ConsumerEnabled(s, l)
    ensures Rank(DoConsumer(s, l)) < Rank(s)
  {
    match l {
      case COuter =>
      case CInner =>
      case CCheck =>
      case CDqbuf(_) =>
      case CDqbufFail =>
      case CCopy =>
      case CLock =>
      case CFind =>
      case CCall =>
      case CUncount =>
      case CFinish =>
      case _ =>
    }
  }

  lemma RankFalls(s: State, l: Label)
    requires ControlInv(s) && Quiet(s) && IsConsumerLabel(l) && ConsumerEnabled(s, l)
    ensures Rank(DoConsumer(s, l)) < Rank(s)
  {
    hide DoConsumer, Rank, Quiet, ControlInv;
    if IsLoopLabel(l) {
      RankFallsAtLoop(s, l);
    } else if l.CFind? {
      RankFallsAtFind(s);
    } else {
      RankFallsInside(s, l);
    }
  }

  lemma RankNatural(s: State)
    requires Inv(s)
    ensures Rank(s) >= 0
  {
    hide LockInv, PlaceInv, MapInv, FlowInv;
  }

  lemma QuietKept(s: State, l: Label)
    requires Quiet(s) && IsConsumerLabel(l) && ConsumerEnabled(s, l)
    ensures Quiet(DoConsumer(s, l))
  {
  }

  lemma InvCounts(s: State)
    requires Inv(s)
    ensures CountInv(s) && ControlInv(s)
  {
  }

  /** Once producers have stopped, every consumer step, a failing DQBUF included, brings
      loopBuffers closer to its end. */
  lemma DrainStepRanks(s: State, l: Label)
    requires Inv(s) && Quiet(s) && IsConsumerLabel(l) && Enabled(s, l)
    ensures Quiet(Do(s, l)) && Inv(Do(s, l))
    ensures 0 <= Rank(Do(s, l)) < Rank(s)
  {
    hide Inv, Rank, Quiet, CountInv, ControlInv, DoConsumer;
    StepKeepsInv(s, l);
    QuietKept(s, l);
    RankNatural(Do(s, l));
    InvCounts(s);
    RankFalls(s, l);
  }

  /** ... and it can always take one without waiting for anyone, until it has ended. */
  lemma DrainStepExists(s: State) returns (l: Label)
    requires Inv(s) && Quiet(s) && !s.consumer.Exited?
    ensures IsConsumerLabel(l) && Enabled(s, l) && !l.CDqbufFail?
  {
    l := ConsumerStepExists(s);
  }

  /** The thread has ended, and the in-flight map holds exactly the lost counts. */
  ghost predicate Drained(s: State) {
    s.consumer.Exited? && s.curr == 0 && |s.frames| == s.lost
    && s.accepted == s.delivered + s.dropped + multiset(Items(s.frames))
  }

  lemma ExitStep(s: State, l: Label)
    requires IsConsumerLabel(l) && ConsumerEnabled(s, l) && DoConsumer(s, l).consumer.Exited?
    ensures s.consumer.Inner? && s.curr <= 0 && DoConsumer(s, l) == s.(consumer := Exited)
  {
    match l {
      case COuter =>
      case CInner =>
      case CCheck =>
      case CDqbuf(_) =>
      case CDqbufFail =>
      case CCopy =>
      case CLock =>
      case CFind =>
      case CCall =>
      case CUncount =>
      case CFinish =>
      case _ =>
    }
  }

  lemma NobodyInside(producers: map<Pid, Producer>)
    requires producers == map[]
    ensures InPhase(producers, Released) == {} && InPhase(producers, Counted) == {}
  {
  }

  /** What the thread leaves behind: the lost counts, the counts that came too late for
      it, and the frames whose counts are still to come. */
  lemma LeftBehind(s: State)
    requires Inv(s) && s.consumer.Exited?
    ensures |s.frames| == s.lost + s.curr + |InPhase(s.producers, Released)| + |InPhase(s.producers, Counted)|
    ensures s.lost >= 0 && s.curr >= 0
    ensures s.accepted == s.delivered + s.dropped + multiset(Items(s.frames))
  {
    hide LockInv, PlaceInv, MapInv, ControlInv, Items, InPhase;
  }

  /** When the thread ends, it has used up its counts.  What is left in the map are the
      lost counts, and the frames of calls between their insertion and their count. */
  lemma ExitLeaves(s: State, l: Label)
    requires Inv(s) && IsConsumerLabel(l) && ConsumerEnabled(s, l) && DoConsumer(s, l).consumer.Exited?
    ensures
      var t := DoConsumer(s, l);
      && Inv(t) && t == s.(consumer := Exited) && t.curr == 0
      && |t.frames| == t.lost + |InPhase(t.producers, Released)| + |InPhase(t.producers, Counted)|
  {
    hide Inv, DoConsumer, InPhase;
    assert Enabled(s, l) && Do(s, l) == DoConsumer(s, l);
    StepKeepsInv(s, l);
    ExitStep(s, l);
    LeftBehind(DoConsumer(s, l));
  }

  /** If every caller has left by then, that is the lost counts alone. */
  lemma ExitMeansDrained(s: State, l: Label)
    requires Inv(s) && Quiet(s) && IsConsumerLabel(l) && Enabled(s, l)
    requires Do(s, l).consumer.Exited?
    ensures Drained(Do(s, l)) && Enabled(Do(s, l), StreamOff) && Lost(Do(s, l)) == Do(s, l).lost
  {
    hide Inv, DoConsumer, InPhase, ConsumerEnabled;
    ExitLeaves(s, l);
    LeftBehind(DoConsumer(s, l));
    NobodyInside(s.producers);
  }

  /** loopBuffers terminates after StopStream: from every quiet state, a run of the
      consumer alone ends it, the thread can be joined, and StreamOff follows. */
  lemma DrainEnds(s: State) returns (ls: seq<Label>, last: State)
    requires Inv(s) && Quiet(s) && !s.consumer.Exited?
    ensures Runs(s, ls, last) && Drained(last) && Quiet(last) && Enabled(last, StreamOff)
    ensures last.lost == Lost(s)
    decreases Rank(s)
  {
    hide Inv, Runs, Drained, Lost, Rank, Quiet, DoConsumer;
    var l := DrainStepExists(s);
    DrainStepRanks(s, l);
    DrainStepLost(s, l);
    RunsOne(s, l);
    var s1 := Do(s, l);
    if s1.consumer.Exited? {
      ExitMeansDrained(s, l);
      ls, last := [l], s1;
    } else {
      var rest;
      rest, last := DrainEnds(s1);
      RunsConcat(s, [l], s1, rest, last);
      ls := [l] + rest;
    }
  }

  /** Nothing is outstanding exactly if the map is empty. */
  lemma NoneLeftIff(s: State)
    requires s.accepted == s.delivered + s.dropped + multiset(Items(s.frames))
    ensures s.accepted == s.delivered + s.dropped <==> |s.frames| == 0
  {
    ItemsCount(s.frames);
    var rest := multiset(Items(s.frames));
    assert |rest| == |s.frames|;
    if |s.frames| == 0 {
      assert rest == multiset{};
    } else {
      assert |s.accepted| == |s.delivered + s.dropped| + |rest|;
    }
  }

  /** Exactly when a stopped stream has given everything back, in every state after the
      thread's end: no count was lost, none came too late, and none is still to come. */
  lemma ExitedDeliveredIff(s: State)
    requires Reachable(s) && s.consumer.Exited?
    ensures s.accepted == s.delivered + s.dropped
       <==> s.lost == 0 && s.curr == 0
            && InPhase(s.producers, Released) == {} && InPhase(s.producers, Counted) == {}
  {
    ReachableInv(s);
    hide Inv, Items, InPhase;
    LeftBehind(s);
    NoneLeftIff(s);
  }

  lemma {:induction false} ItemsCount(frames: map<Index, Frame>)
    ensures |Items(frames)| == |frames|
    decreases |frames|
  {
    if frames == map[] {
      assert Items(frames) == {};
    } else {
      var i :| i in frames;
      var rest := frames - {i};
      assert rest.Keys == frames.Keys - {i};
      ItemsCount(rest);
      ItemsRemove(frames, i);
      assert |multiset(Items(frames))| == |multiset(Items(rest))| + 1;
    }
  }

  // ---------------------------------------------------------------- losing nothing

  /** Every DQBUF succeeds, and no QueueBuffer call has completed before StartStream. */
  ghost predicate LosesNothing(s: State, ls: seq<Label>)
    decreases |ls|
  {
    ls != [] && Enabled(s, ls[0]) ==>
      && !ls[0].CDqbufFail?
      && (ls[0].StartStream? ==> s.curr == 0)
      && LosesNothing(Do(s, ls[0]), ls[1..])
  }

  lemma ControlKeepsLost(s: State, l: Label)
    requires IsControlLabel(l) && Enabled(s, l) && (l.StartStream? ==> s.curr == 0)
    requires s.lost == 0 && s.consumer != Finish(true)
    ensures Lost(Do(s, l)) == 0
  {
  }

  lemma StepLosesNothing(s: State, l: Label)
    requires Inv(s) && Enabled(s, l) && Lost(s) == 0 && !l.CDqbufFail? && (l.StartStream? ==> s.curr == 0)
    ensures Lost(Do(s, l)) == 0
  {
    InvCounts(s);
    assert s.lost >= 0;
    hide Inv, CountInv, ControlInv, DoProducer, DoConsumer;
    if IsConsumerLabel(l) {
      DrainStepLost(s, l);
    } else if IsProducerLabel(l) {
      ProducerKeepsLost(s, l);
    } else {
      ControlKeepsLost(s, l);
    }
  }

  /** In such a run nothing is ever lost, so no producer is stuck on a full map.  It does
      not follow that every frame is delivered: a stop can overtake a call. */
  lemma {:induction false} NothingLost(s: State, ls: seq<Label>, last: State)
    requires Inv(s) && Lost(s) == 0 && Runs(s, ls, last) && LosesNothing(s, ls)
    ensures Lost(last) == 0
    decreases |ls|
  {
    hide Inv, Lost, Do, Enabled;
    if ls != [] {
      StepLosesNothing(s, ls[0]);
      StepKeepsInv(s, ls[0]);
      NothingLost(Do(s, ls[0]), ls[1..], last);
    }
  }

  lemma DrainedKernelEmpty(s: State)
    requires Inv(s) && Quiet(s) && s.consumer.Exited? && s.frames == map[]
    ensures s.kernel == map[]
  {
    forall i ensures i !in s.kernel {
      assert i in s.kernel ==> MapAt(s, i, s.kernel[i]);
    }
  }

  lemma DrainedLeavesNothing(s: State)
    requires Drained(s) && s.lost == 0
    ensures s.frames == map[]
  {
    assert |s.frames.Keys| == |s.frames|;
  }

  /** If no DQBUF fails and nothing was queued before StartStream, then whenever the
      stream is stopped and the callers have left before the consumer thread, the thread
      can run to its end, and StreamOff finds no frame in the map, none in the kernel, and
      every accepted frame given back. */
  lemma StopDeliversAll(callback: bool, ls: seq<Label>, s: State) returns (more: seq<Label>, last: State)
    requires Runs(Init(callback), ls, s) && LosesNothing(Init(callback), ls)
    requires Quiet(s) && !s.consumer.Exited?
    ensures Runs(s, more, last) && Enabled(last, StreamOff) && last.curr == 0
    ensures last.frames == map[] && last.kernel == map[]
    ensures last.accepted == last.delivered + last.dropped
  {
    hide Inv, Lost, Runs, LosesNothing, Drained, Quiet, Enabled;
    InitInv(callback);
    InitLost(callback);
    RunsKeepInv(Init(callback), ls, s);
    NothingLost(Init(callback), ls, s);
    more, last := DrainEnds(s);
    RunsKeepInv(s, more, last);
    DrainedFacts(last);
    DrainedLeavesNothing(last);
    NoneLeftIff(last);
    DrainedKernelEmpty(last);
  }

  lemma InitLost(callback: bool)
    ensures Lost(Init(callback)) == 0
  {
  }

  lemma DrainedFacts(s: State)
    requires Drained(s)
    ensures s.consumer.Exited? && s.curr == 0
    ensures s.accepted == s.delivered + s.dropped + multiset(Items(s.frames))
  {
  }

  ghost predicate OnlyConsumer(ls: seq<Label>) {
    forall k :: 0 <= k < |ls| ==> IsConsumerLabel(ls[k])
  }

  lemma ExitedStays(s: State, ls: seq<Label>, last: State)
    requires s.consumer.Exited? && Runs(s, ls, last) && OnlyConsumer(ls)
    ensures ls == []
  {
    assert ls != [] ==> IsConsumerLabel(ls[0]);
  }

  /** Every run of the consumer after StopStream, not only some: each step lowers the
      rank, and if the thread ends, it ends with the queue drained. */
  lemma {:induction false} DrainRun(s: State, ls: seq<Label>, last: State)
    requires Inv(s) && Quiet(s) && !s.consumer.Exited? && Runs(s, ls, last) && OnlyConsumer(ls)
    ensures Inv(last) && Quiet(last) && |ls| + Rank(last) <= Rank(s) && Rank(last) >= 0
    ensures last.consumer.Exited? ==> Drained(last) && Enabled(last, StreamOff) && Lost(last) == last.lost
    decreases |ls|
  {
    hide Inv, Quiet, Rank, Drained, Lost, DoConsumer, ConsumerEnabled;
    if ls == [] {
      RankNatural(s);
    } else {
      var l, t, rest := ls[0], Do(s, ls[0]), ls[1..];
      assert IsConsumerLabel(l) && OnlyConsumer(rest);
      DrainStepRanks(s, l);
      if t.consumer.Exited? {
        ExitMeansDrained(s, l);
        ExitedStays(t, rest, last);
      } else {
        DrainRun(t, rest, last);
      }
    }
  }

  /** The same for every run: if no DQBUF fails and nothing was queued before
      StartStream, then once the stream is stopped and the callers have left, the
      consumer takes at most Rank(s) steps, can take one until it has ended, and
      whenever it ends, StreamOff finds no frame in the map, none in the kernel, and
      every accepted frame given back. */
  lemma EveryStopDeliversAll(callback: bool, ls: seq<Label>, s: State, more: seq<Label>, last: State)
    requires Runs(Init(callback), ls, s) && LosesNothing(Init(callback), ls)
    requires Quiet(s) && !s.consumer.Exited?
    requires Runs(s, more, last) && OnlyConsumer(more) && LosesNothing(s, more)
    ensures |more| <= Rank(s)
    ensures !last.consumer.Exited? ==> exists l :: IsConsumerLabel(l) && Enabled(last, l)
    ensures last.consumer.Exited? ==>
      && Enabled(last, StreamOff) && last.curr == 0 && last.frames == map[] && last.kernel == map[]
      && last.accepted == last.delivered + last.dropped
  {
    hide Inv, Lost, Runs, LosesNothing, Drained, Quiet, Rank, Enabled, OnlyConsumer;
    InitInv(callback);
    InitLost(callback);
    RunsKeepInv(Init(callback), ls, s);
    NothingLost(Init(callback), ls, s);
    NothingLost(s, more, last);
    DrainRun(s, more, last);
    if last.consumer.Exited? {
      DrainedFacts(last);
      DrainedLeavesNothing(last);
      NoneLeftIff(last);
      DrainedKernelEmpty(last);
    } else {
      var _ := DrainStepExists(last);
    }
  }

  // ---------------------------------------------------------------- the client's part

  lemma ProducerRun(s: State, p: Pid, i: Index, g: Frame) returns (last: State)
    requires p in s.producers && s.producers[p] == Waiting(i, g)
    requires s.lock == Free && s.entry && |s.frames| < MAXBUFFER && i !in s.kernel
    ensures Runs(s, [PAdmit(p)] + [PQbuf(p)] + [PInsert(p)], last)
    ensures last.frames == s.frames[i := g] && last.consumer == s.consumer && last.lock == Free
    ensures last.entry && last.callback == s.callback
  {
    hide Runs, Do, Enabled;
    AfterAdmit(s, p, i, g);
    var s1 := Do(s, PAdmit(p));
    AfterQbuf(s1, p, i, g);
    var s2 := Do(s1, PQbuf(p));
    AfterInsert(s2, p, i, g);
    last := Do(s2, PInsert(p));
    RunsOne(s, PAdmit(p));
    RunsSnoc(s, [PAdmit(p)], s1, PQbuf(p));
    RunsSnoc(s, [PAdmit(p)] + [PQbuf(p)], s2, PInsert(p));
  }

  lemma AfterCopy(s: State)
    requires s.consumer.Copy?
    ensures Enabled(s, CCopy) && Do(s, CCopy) == s.(consumer := WantLock(s.consumer.i, s.consumer.f))
  {
  }

  lemma AfterLock(s: State)
    requires s.consumer.WantLock? && s.lock == Free
    ensures Enabled(s, CLock) && Do(s, CLock) == s.(consumer := Find(s.consumer.i, s.consumer.f), lock := ByConsumer)
  {
  }

  lemma AfterFind(s: State)
    requires s.consumer.Find? && s.entry && s.callback && s.consumer.i in s.frames
    ensures
      var i := s.consumer.i;
      && Enabled(s, CFind)
      && Do(s, CFind) == s.(consumer := Took(i, s.frames[i]), lock := Free, frames := s.frames - {i})
  {
  }

  lemma ConsumerRun(s: State) returns (last: State)
    requires s.consumer.Copy? && s.lock == Free && s.entry && s.callback && s.consumer.i in s.frames
    ensures Runs(s, [CCopy] + [CLock] + [CFind], last)
    ensures last.consumer == Took(s.consumer.i, s.frames[s.consumer.i])
    ensures last.frames == s.frames - {s.consumer.i}
  {
    hide Runs, Do, Enabled;
    AfterCopy(s);
    var s1 := Do(s, CCopy);
    AfterLock(s1);
    var s2 := Do(s1, CLock);
    AfterFind(s2);
    last := Do(s2, CFind);
    RunsOne(s, CCopy);
    RunsSnoc(s, [CCopy], s1, CLock);
    RunsSnoc(s, [CCopy] + [CLock], s2, CFind);
  }

  /** The client must not requeue an index before its callback.  If another thread does
      so while the consumer is between DQBUF and the lock, the callback is given the new
      frame although DQBUF filled the old one, and no entry is left for either. */
  lemma RequeueBeforeCallback(s: State, p: Pid, g: Frame) returns (last: State)
    requires Inv(s) && s.consumer.Copy? && s.lock == Free && s.entry && s.callback
    requires p !in s.producers && |s.frames| < MAXBUFFER && g != s.consumer.f
    ensures
      var rogue := s.(producers := s.producers[p := Waiting(s.consumer.i, g)]);
      Runs(rogue, [PAdmit(p)] + [PQbuf(p)] + [PInsert(p)] + ([CCopy] + [CLock] + [CFind]), last)
    ensures s.consumer.i in s.frames && s.frames[s.consumer.i] == s.consumer.f
    ensures last.consumer == Took(s.consumer.i, g) && s.consumer.i !in last.frames
  {
    var i := s.consumer.i;
    assert MapAt(s, i, s.consumer.f) && PlaceOfKernel(s, i);
    assert i !in s.kernel && i in s.frames && s.frames[i] == s.consumer.f;
    hide Inv, Runs;
    var rogue := s.(producers := s.producers[p := Waiting(i, g)]);
    var mid := ProducerRun(rogue, p, i, g);
    last := ConsumerRun(mid);
    RunsConcat(rogue, [PAdmit(p)] + [PQbuf(p)] + [PInsert(p)], mid, [CCopy] + [CLock] + [CFind], last);
  }
}
