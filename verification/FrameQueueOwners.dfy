/** Who has a buffer index at each moment, and what the client can count on: an index it
has been called back with can be queued again, as often as it likes. */
module FrameQueueOwners {
  import opened FrameQueue
  import opened FrameQueueSafety
  import opened FrameQueueProgress

  // ---------------------------------------------------------------- owners

  predicate Wants(pr: Producer, i: Index) {
    (pr.Waiting? || pr.Admitted?) && pr.i == i
  }

  /** A thread is in QueueBuffer with index i, and QBUF has not accepted it. */
  ghost predicate ProducerHas(s: State, i: Index) {
    exists p :: p in s.producers && Wants(s.producers[p], i)
  }

  /** DQBUF has returned index i, and the callback has not been made. */
  predicate ConsumerHas(s: State, i: Index) {
    var c := s.consumer;
    (c.Copy? || c.WantLock? || c.Find? || c.Took?) && c.i == i
  }

  /** A frame with index i was dropped for want of a callback. */
  ghost predicate WasDropped(s: State, i: Index) {
    exists f :: (i, f) in s.dropped
  }

  ghost predicate OwnerAt(s: State, i: Index) {
    match PlaceOf(s, i)
    case WithProducer(p) => p in s.producers && Wants(s.producers[p], i)
    case WithConsumer => ConsumerHas(s, i)
    case Leaked => WasDropped(s, i)
    case _ => true
  }

  ghost predicate DroppedAt(s: State, i: Index) {
    WasDropped(s, i) ==> PlaceOf(s, i) == Leaked
  }

  ghost predicate Owned(s: State) {
    forall i :: OwnerAt(s, i) && DroppedAt(s, i)
  }

  lemma DroppedMore(s: State, t: State, i: Index, f: Frame)
    requires t.dropped == s.dropped + multiset{(i, f)}
    ensures forall j :: WasDropped(t, j) <==> WasDropped(s, j) || j == i
  {
    assert (i, f) in t.dropped;
    forall j ensures WasDropped(t, j) <==> WasDropped(s, j) || j == i {
      if WasDropped(s, j) {
        var g :| (j, g) in s.dropped;
        assert (j, g) in t.dropped;
      }
      if WasDropped(t, j) {
        var g :| (j, g) in t.dropped;
        assert (j, g) in s.dropped || (j, g) == (i, f);
      }
    }
  }

  lemma DroppedSame(s: State, t: State, i: Index)
    requires t.dropped == s.dropped
    ensures WasDropped(t, i) <==> WasDropped(s, i)
  {
  }

  /** Moving one index: the others keep their owners, if only that thread changes. */
  lemma OwnedByMove(s: State, t: State, p: Pid, j: Index, i: Index)
    requires OwnerAt(s, i) && DroppedAt(s, i) && i != j
    requires PlaceOf(t, i) == PlaceOf(s, i) && t.dropped == s.dropped && t.consumer == s.consumer
    requires forall q :: q in s.producers && q != p ==> q in t.producers && t.producers[q] == s.producers[q]
    requires p in s.producers ==> forall k :: Wants(s.producers[p], k) ==> k == j
    ensures OwnerAt(t, i) && DroppedAt(t, i)
  {
    hide WasDropped;
    DroppedSame(s, t, i);
  }

  /** A step that moves no index, and no thread that has one. */
  lemma OwnedByStay(s: State, t: State, p: Pid, i: Index)
    requires OwnerAt(s, i) && DroppedAt(s, i)
    requires PlaceOf(t, i) == PlaceOf(s, i) && t.dropped == s.dropped && t.consumer == s.consumer
    requires forall q :: q in s.producers && q != p ==> q in t.producers && t.producers[q] == s.producers[q]
    requires p in s.producers && Wants(s.producers[p], i) ==> p in t.producers && Wants(t.producers[p], i)
    ensures OwnerAt(t, i) && DroppedAt(t, i)
  {
    hide WasDropped;
    DroppedSame(s, t, i);
  }

  lemma OwnedByStart(s: State, p: Pid, j: Index, f: Frame, i: Index)
    requires OwnerAt(s, i) && DroppedAt(s, i) && ProducerEnabled(s, PStart(p, j, f))
    ensures OwnerAt(DoProducer(s, PStart(p, j, f)), i) && DroppedAt(DoProducer(s, PStart(p, j, f)), i)
  {
    var t := DoProducer(s, PStart(p, j, f));
    DroppedSame(s, t, i);
    hide WasDropped;
    if i != j {
      OwnedByMove(s, t, p, j, i);
    }
  }

  lemma OwnedByQbuf(s: State, p: Pid, i: Index)
    requires PlaceInv(s) && OwnerAt(s, i) && DroppedAt(s, i) && p in s.producers && s.producers[p].Admitted?
    ensures ProducerEnabled(s, PQbuf(p)) ==>
      OwnerAt(DoProducer(s, PQbuf(p)), i) && DroppedAt(DoProducer(s, PQbuf(p)), i)
    ensures OwnerAt(DoProducer(s, PQbufFail(p)), i) && DroppedAt(DoProducer(s, PQbufFail(p)), i)
  {
    assert PlaceOfProducer(s, p);
    hide PlaceInv, WasDropped;
    var j := s.producers[p].i;
    var t := DoProducer(s, PQbufFail(p));
    DroppedSame(s, t, i);
    if i != j {
      OwnedByMove(s, t, p, j, i);
    }
    if ProducerEnabled(s, PQbuf(p)) {
      var u := DoProducer(s, PQbuf(p));
      DroppedSame(s, u, i);
      if i != j {
        OwnedByMove(s, u, p, j, i);
      }
    }
  }

  lemma OwnedByProducer(s: State, l: Label, i: Index)
    requires PlaceInv(s) && OwnerAt(s, i) && DroppedAt(s, i) && IsProducerLabel(l) && ProducerEnabled(s, l)
    ensures OwnerAt(DoProducer(s, l), i) && DroppedAt(DoProducer(s, l), i)
  {
    hide PlaceInv, WasDropped, OwnerAt, DroppedAt;
    match l {
      case PStart(p, j, f) => OwnedByStart(s, p, j, f, i);
      case PQbuf(p) => OwnedByQbuf(s, p, i);
      case PQbufFail(p) => OwnedByQbuf(s, p, i);
      case PFull(_) =>
      case PAdmit(p) => OwnedByStay(s, DoProducer(s, l), p, i);
      case PInsert(p) => OwnedByStay(s, DoProducer(s, l), p, i);
      case PCount(p) => OwnedByStay(s, DoProducer(s, l), p, i);
      case PDone(p) => OwnedByStay(s, DoProducer(s, l), p, i);
      case _ =>
    }
  }

  lemma OwnedByFind(s: State, i: Index)
    requires PlaceInv(s) && OwnerAt(s, i) && DroppedAt(s, i)
    requires s.consumer.Find? && s.entry && s.consumer.i in s.frames
    ensures OwnerAt(DoConsumer(s, CFind), i) && DroppedAt(DoConsumer(s, CFind), i)
  {
    hide WasDropped;
    var t := DoConsumer(s, CFind);
    if s.callback {
      DroppedSame(s, t, i);
    } else {
      DroppedMore(s, t, s.consumer.i, s.frames[s.consumer.i]);
    }
  }

  lemma OwnedByConsumer(s: State, l: Label, i: Index)
    requires PlaceInv(s) && OwnerAt(s, i) && DroppedAt(s, i)
    requires IsConsumerLabel(l) && ConsumerEnabled(s, l) && !l.CFind?
    ensures OwnerAt(DoConsumer(s, l), i) && DroppedAt(DoConsumer(s, l), i)
  {
    hide WasDropped;
    match l {
      case COuter => DroppedSame(s, DoConsumer(s, l), i);
      case CInner => DroppedSame(s, DoConsumer(s, l), i);
      case CCheck => DroppedSame(s, DoConsumer(s, l), i);
      case CDqbuf(j) =>
        assert PlaceOfKernel(s, j);
        DroppedSame(s, DoConsumer(s, l), i);
      case CDqbufFail => DroppedSame(s, DoConsumer(s, l), i);
      case CCopy => DroppedSame(s, DoConsumer(s, l), i);
      case CLock => DroppedSame(s, DoConsumer(s, l), i);
      case CCall => DroppedSame(s, DoConsumer(s, l), i);
      case CUncount => DroppedSame(s, DoConsumer(s, l), i);
      case CFinish => DroppedSame(s, DoConsumer(s, l), i);
      case _ =>
    }
  }

  lemma InvPlaces(s: State)
    requires Inv(s)
    ensures LockInv(s) && PlaceInv(s) && MapInv(s) && ControlInv(s)
  {
  }

  lemma OwnedByControl(s: State, l: Label, i: Index)
    requires ControlInv(s) && OwnerAt(s, i) && DroppedAt(s, i) && IsControlLabel(l) && Enabled(s, l)
    ensures OwnerAt(Do(s, l), i) && DroppedAt(Do(s, l), i)
  {
    hide WasDropped, Do, Enabled, ControlInv;
    ControlElsewhere(s, l);
    DroppedSame(s, Do(s, l), i);
  }

  lemma StepKeepsOwned(s: State, l: Label)
    requires Inv(s) && Owned(s) && Enabled(s, l)
    ensures Owned(Do(s, l))
  {
    InvPlaces(s);
    hide Inv, LockInv, PlaceInv, MapInv, ControlInv, OwnerAt, DroppedAt, DoProducer, DoConsumer;
    forall i ensures OwnerAt(Do(s, l), i) && DroppedAt(Do(s, l), i) {
      if IsProducerLabel(l) {
        OwnedByProducer(s, l, i);
      } else if IsConsumerLabel(l) {
        if l.CFind? {
          FindEnabled(s);
          FoundByConsumer(s);
          OwnedByFind(s, i);
        } else {
          OwnedByConsumer(s, l, i);
        }
      } else {
        OwnedByControl(s, l, i);
      }
    }
  }

  lemma {:induction false} RunsKeepOwned(s: State, ls: seq<Label>, last: State)
    requires Inv(s) && Owned(s) && Runs(s, ls, last)
    ensures Owned(last)
    decreases |ls|
  {
    hide Inv, Owned, Do, Enabled;
    if ls != [] {
      StepKeepsInv(s, ls[0]);
      StepKeepsOwned(s, ls[0]);
      RunsKeepOwned(Do(s, ls[0]), ls[1..], last);
    }
  }

  lemma InitOwned(callback: bool)
    ensures Owned(Init(callback))
  {
  }

  lemma ReachableOwned(s: State)
    requires Reachable(s)
    ensures Owned(s)
  {
    hide Inv, Owned;
    var callback, ls :| Runs(Init(callback), ls, s);
    InitInv(callback);
    InitOwned(callback);
    RunsKeepOwned(Init(callback), ls, s);
  }

  /** In every reachable state, an index is the client's to queue if and only if no thread
      is queueing it, neither the kernel nor the consumer has it, and no frame with it was
      ever dropped. */
  lemma AtClientIff(s: State, i: Index)
    requires Reachable(s)
    ensures PlaceOf(s, i) == AtClient
       <==> !ProducerHas(s, i) && i !in s.kernel && !ConsumerHas(s, i) && !WasDropped(s, i)
  {
    ReachableInv(s);
    ReachableOwned(s);
    InvPlaces(s);
    assert OwnerAt(s, i) && DroppedAt(s, i) && PlaceOfKernel(s, i);
    hide Inv, LockInv, MapInv, ControlInv;
    if ProducerHas(s, i) {
      var p :| p in s.producers && Wants(s.producers[p], i);
      assert PlaceOfProducer(s, p);
    }
  }

  // ---------------------------------------------------------------- the callback

  lemma CallbackKeptByConsumer(s: State, l: Label)
    requires s.callback && IsConsumerLabel(l) && ConsumerEnabled(s, l)
    ensures DoConsumer(s, l).callback && DoConsumer(s, l).dropped == s.dropped
  {
    match l {
      case COuter =>
      case CInner =>
      case CCheck =>
      case CDqbuf(_) =>
      case CDqbufFail =>
      case CCopy =>
      case CLock =>
      case CFind =>
      case CCall =>
      case CUncount =>
      case CFinish =>
      case _ =>
    }
  }

  lemma CallbackKeptByProducer(s: State, l: Label)
    requires s.callback && IsProducerLabel(l) && ProducerEnabled(s, l)
    ensures DoProducer(s, l).callback && DoProducer(s, l).dropped == s.dropped
  {
    match l {
      case PStart(_, _, _) =>
      case PFull(_) =>
      case PAdmit(_) =>
      case PQbuf(_) =>
      case PQbufFail(_) =>
      case PInsert(_) =>
      case PCount(_) =>
      case PDone(_) =>
      case _ =>
    }
  }

  lemma CallbackKept(s: State, l: Label)
    requires s.callback && Enabled(s, l)
    ensures Do(s, l).callback && Do(s, l).dropped == s.dropped
  {
    hide DoProducer, DoConsumer, ProducerEnabled, ConsumerEnabled;
    if IsConsumerLabel(l) {
      CallbackKeptByConsumer(s, l);
    } else if IsProducerLabel(l) {
      CallbackKeptByProducer(s, l);
    }
  }

  /** Once a callback has been set, at whatever moment, no frame is dropped any more. */
  lemma {:induction false} NoDropWithCallback(s: State, ls: seq<Label>, last: State)
    requires s.callback && Runs(s, ls, last)
    ensures last.callback && last.dropped == s.dropped
    decreases |ls|
  {
    hide Do, Enabled;
    if ls != [] {
      CallbackKept(s, ls[0]);
      NoDropWithCallback(Do(s, ls[0]), ls[1..], last);
    }
  }

  lemma CallbackCanBeSet(s: State)
    ensures Enabled(s, SetCallback) && Do(s, SetCallback) == s.(callback := true)
  {
  }

  // ---------------------------------------------------------------- queueing again

  /** Any thread not in QueueBuffer can queue any index that is the client's, until
      StreamOff. */
  lemma ClientMayQueue(s: State, p: Pid, i: Index, f: Frame)
    requires Reachable(s) && p !in s.producers && s.phase != Off
    requires !ProducerHas(s, i) && i !in s.kernel && !ConsumerHas(s, i) && !WasDropped(s, i)
    ensures Enabled(s, PStart(p, i, f))
  {
    AtClientIff(s, i);
    AfterStart(s, p, i, f);
  }

  lemma AfterCall(s: State)
    requires s.consumer.Took?
    ensures Enabled(s, CCall)
    ensures Do(s, CCall) == s.(consumer := Called, place := s.place[s.consumer.i := AtClient],
                               delivered := s.delivered + multiset{(s.consumer.i, s.consumer.g)})
  {
  }

  /** The callback gives the index back: any thread may queue it again at once. */
  lemma CallbackFreesIndex(s: State, p: Pid, g: Frame)
    requires s.consumer.Took? && p !in s.producers && s.phase != Off
    ensures Enabled(s, CCall) && Enabled(Do(s, CCall), PStart(p, s.consumer.i, g))
  {
    AfterCall(s);
    hide Do;
    AfterStart(Do(s, CCall), p, s.consumer.i, g);
  }

  /** A QBUF that fails gives it back too, and changes nothing else: the lock is free, the
      thread is out, no frame is queued or counted. */
  lemma FailedQbufFreesIndex(s: State, p: Pid, g: Frame)
    requires p in s.producers && s.producers[p].Admitted? && s.phase != Off
    ensures Enabled(s, PQbufFail(p))
    ensures
      var t, i := Do(s, PQbufFail(p)), s.producers[p].i;
      && t == s.(producers := s.producers - {p}, lock := Free, place := s.place[i := AtClient])
      && Enabled(t, PStart(p, i, g))
  {
  }

  // ---------------------------------------------------------------- room for eight

  /** A thread that finds the lock free goes on if there are fewer than 8 frames in the map,
      and waits again if and only if there are exactly 8. */
  lemma WaitsIffEight(s: State, p: Pid)
    requires Reachable(s) && p in s.producers && s.producers[p].Waiting? && s.lock == Free
    ensures Enabled(s, PAdmit(p)) <==> |s.frames| < 8
    ensures Enabled(s, PFull(p)) <==> |s.frames| == 8
  {
    ReachableInv(s);
    InvPlaces(s);
    InvCounts(s);
    assert !s.entry ==> |s.frames| == 0;
    hide Inv, PlaceInv, MapInv, ControlInv;
  }

  /** There are never more. */
  lemma AtMostEight(s: State)
    requires Reachable(s)
    ensures |s.frames| <= 8
  {
    InFlightBounded(s);
  }

  // ---------------------------------------------------------------- the same index, n times

  /** Between two rounds: nothing is in flight, and index i has been delivered n times. */
  ghost predicate Idle(s: State, i: Index, f: Frame, n: nat) {
    && s.producers == map[] && s.lock == Free && s.frames == map[] && s.kernel == map[]
    && s.callback && s.phase == Streaming && s.streams == 1 && !s.drain && s.consumer.Outer?
    && s.bufCont == 0 && s.curr == 0 && PlaceOf(s, i) == AtClient
    && s.delivered[(i, f)] == n && |s.delivered| == n
  }

  /** One whole QueueBuffer call. */
  function CallOf(i: Index, f: Frame): seq<Label> {
    [PStart(0, i, f)] + [PAdmit(0)] + [PQbuf(0)] + CALL_ENDS
  }

  const CALL_ENDS := [PInsert(0)] + [PCount(0)] + [PDone(0)]

  /** One round of the consumer's two loops, from DQBUF to the callback and back. */
  function FetchOf(i: Index): seq<Label> {
    [COuter] + [CInner] + [CCheck] + [CDqbuf(i)] + [CCopy]
  }

  const HANDOVER := [CLock] + [CFind] + [CCall] + [CUncount] + [CFinish] + [CInner]

  lemma CallEntered(s: State, i: Index, f: Frame) returns (last: State)
    requires s.producers == map[] && s.lock == Free && s.frames == map[] && i !in s.kernel
    requires PlaceOf(s, i) == AtClient && s.phase != Off
    ensures Runs(s, [PStart(0, i, f)] + [PAdmit(0)] + [PQbuf(0)], last)
    ensures last == s.(producers := map[0 := Queued(i, f)], lock := ByProducer(0), kernel := s.kernel[i := f],
                       place := last.place)
  {
    hide Runs, Do, Enabled;
    AfterStart(s, 0, i, f);
    var s1 := Do(s, PStart(0, i, f));
    AfterAdmit(s1, 0, i, f);
    var s2 := Do(s1, PAdmit(0));
    AfterQbuf(s2, 0, i, f);
    last := Do(s2, PQbuf(0));
    assert last.producers == map[0 := Queued(i, f)];
    RunsOne(s, PStart(0, i, f));
    RunsSnoc(s, [PStart(0, i, f)], s1, PAdmit(0));
    RunsSnoc(s, [PStart(0, i, f)] + [PAdmit(0)], s2, PQbuf(0));
  }

  lemma CallLeft(s: State, i: Index, f: Frame) returns (last: State)
    requires s.producers == map[0 := Queued(i, f)] && s.frames == map[]
    ensures Runs(s, CALL_ENDS, last)
    ensures last == s.(producers := map[], lock := Free, entry := true, frames := map[i := f],
                       accepted := last.accepted, bufCont := s.bufCont + 1, curr := s.curr + 1)
  {
    hide Runs, Do, Enabled;
    AfterInsert(s, 0, i, f);
    var s1 := Do(s, PInsert(0));
    AfterCount(s1, 0);
    var s2 := Do(s1, PCount(0));
    AfterDone(s2, 0);
    last := Do(s2, PDone(0));
    assert last.producers == map[];
    RunsOne(s, PInsert(0));
    RunsSnoc(s, [PInsert(0)], s1, PCount(0));
    RunsSnoc(s, [PInsert(0)] + [PCount(0)], s2, PDone(0));
  }

  lemma CallDone(s: State, i: Index, f: Frame) returns (last: State)
    requires s.producers == map[] && s.lock == Free && s.frames == map[] && i !in s.kernel
    requires PlaceOf(s, i) == AtClient && s.phase != Off
    ensures Runs(s, CallOf(i, f), last)
    ensures last == s.(producers := map[], lock := Free, entry := true, frames := map[i := f],
                       kernel := s.kernel[i := f], place := last.place,
                       accepted := last.accepted, bufCont := s.bufCont + 1, curr := s.curr + 1)
  {
    hide Runs;
    var mid := CallEntered(s, i, f);
    last := CallLeft(mid, i, f);
    RunsConcat(s, [PStart(0, i, f)] + [PAdmit(0)] + [PQbuf(0)], mid, CALL_ENDS, last);
  }

  lemma AfterOuter(s: State)
    requires s.consumer.Outer?
    ensures Enabled(s, COuter) && Do(s, COuter) == s.(consumer := Inner, drain := s.streams == 0)
  {
  }

  lemma AfterInner(s: State)
    requires s.consumer.Inner?
    ensures Enabled(s, CInner)
    ensures Do(s, CInner) == s.(consumer := if s.curr > 0 then Check else if s.drain then Exited else Outer)
  {
  }

  lemma AfterCheck(s: State)
    requires s.consumer.Check? && s.bufCont >= 1
    ensures Enabled(s, CCheck) && Do(s, CCheck) == s.(consumer := Dequeue)
  {
  }

  lemma AfterDqbuf(s: State, i: Index)
    requires s.consumer.Dequeue? && i in s.kernel
    ensures Enabled(s, CDqbuf(i))
    ensures Do(s, CDqbuf(i)) == s.(consumer := Copy(i, s.kernel[i]), kernel := s.kernel - {i},
                                   place := s.place[i := WithConsumer])
  {
  }

  lemma AfterUncount(s: State)
    requires s.consumer.Called?
    ensures Enabled(s, CUncount) && Do(s, CUncount) == s.(consumer := Finish(false), bufCont := s.bufCont - 1)
  {
  }

  lemma AfterFinish(s: State)
    requires s.consumer == Finish(false)
    ensures Enabled(s, CFinish) && Do(s, CFinish) == s.(consumer := Inner, curr := s.curr - 1)
  {
  }

  lemma Fetched(s: State, i: Index, f: Frame) returns (last: State)
    requires s.consumer.Outer? && s.curr > 0 && s.bufCont >= 1 && s.kernel == map[i := f] && s.streams == 1
    ensures Runs(s, FetchOf(i), last)
    ensures last == s.(consumer := WantLock(i, f), drain := false, kernel := map[], place := last.place)
  {
    hide Runs, Do, Enabled;
    AfterOuter(s);
    var s1 := Do(s, COuter);
    AfterInner(s1);
    var s2 := Do(s1, CInner);
    AfterCheck(s2);
    var s3 := Do(s2, CCheck);
    AfterDqbuf(s3, i);
    var s4 := Do(s3, CDqbuf(i));
    AfterCopy(s4);
    last := Do(s4, CCopy);
    assert s.kernel - {i} == map[];
    RunsOne(s, COuter);
    RunsSnoc(s, [COuter], s1, CInner);
    RunsSnoc(s, [COuter] + [CInner], s2, CCheck);
    RunsSnoc(s, [COuter] + [CInner] + [CCheck], s3, CDqbuf(i));
    RunsSnoc(s, [COuter] + [CInner] + [CCheck] + [CDqbuf(i)], s4, CCopy);
  }

  lemma HandedOver(s: State, i: Index, f: Frame) returns (last: State)
    requires s.consumer == WantLock(i, f) && s.lock == Free && s.entry && s.callback && s.frames == map[i := f]
    requires s.curr == 1 && s.bufCont == 1 && !s.drain
    ensures Runs(s, HANDOVER, last)
    ensures last == s.(consumer := Outer, frames := map[], bufCont := 0, curr := 0, place := s.place[i := AtClient],
                       delivered := s.delivered + multiset{(i, f)})
  {
    hide Runs, Do, Enabled;
    AfterLock(s);
    var s1 := Do(s, CLock);
    AfterFind(s1);
    var s2 := Do(s1, CFind);
    assert s.frames - {i} == map[];
    AfterCall(s2);
    var s3 := Do(s2, CCall);
    AfterUncount(s3);
    var s4 := Do(s3, CUncount);
    AfterFinish(s4);
    var s5 := Do(s4, CFinish);
    AfterInner(s5);
    last := Do(s5, CInner);
    RunsOne(s, CLock);
    RunsSnoc(s, [CLock], s1, CFind);
    RunsSnoc(s, [CLock] + [CFind], s2, CCall);
    RunsSnoc(s, [CLock] + [CFind] + [CCall], s3, CUncount);
    RunsSnoc(s, [CLock] + [CFind] + [CCall] + [CUncount], s4, CFinish);
    RunsSnoc(s, [CLock] + [CFind] + [CCall] + [CUncount] + [CFinish], s5, CInner);
  }

  lemma Round(s: State, i: Index, f: Frame, n: nat) returns (ls: seq<Label>, last: State)
    requires Idle(s, i, f, n)
    ensures Runs(s, ls, last) && Idle(last, i, f, n + 1)
  {
    hide Runs;
    var s1 := CallDone(s, i, f);
    assert s1.kernel == map[i := f];
    var s2 := Fetched(s1, i, f);
    last := HandedOver(s2, i, f);
    RunsConcat(s, CallOf(i, f), s1, FetchOf(i), s2);
    RunsConcat(s, CallOf(i, f) + FetchOf(i), s2, HANDOVER, last);
    ls := CallOf(i, f) + FetchOf(i) + HANDOVER;
  }

  lemma StreamStarted(i: Index, f: Frame)
    ensures Enabled(Init(true), StartStream(true)) && Idle(Do(Init(true), StartStream(true)), i, f, 0)
  {
  }

  /** For every n there is a run in which one index is queued and delivered n times. */
  lemma {:induction false} DeliveredAgainAndAgain(i: Index, f: Frame, n: nat) returns (ls: seq<Label>, s: State)
    ensures Runs(Init(true), ls, s) && Idle(s, i, f, n)
  {
    hide Runs, Idle, Init, Do, Enabled;
    if n == 0 {
      StreamStarted(i, f);
      RunsOne(Init(true), StartStream(true));
      ls, s := [StartStream(true)], Do(Init(true), StartStream(true));
    } else {
      var ls1, mid := DeliveredAgainAndAgain(i, f, n - 1);
      var ls2;
      ls2, s := Round(mid, i, f, n - 1);
      RunsConcat(Init(true), ls1, mid, ls2, s);
      ls := ls1 + ls2;
    }
  }
}
