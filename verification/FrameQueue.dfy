/** The V4L2 frame queue: any number of threads in QueueBuffer, one thread in
loopBuffers, and the kernel's buffer queue, interleaved step by step.

One step is one access to shared data: an ioctl, an update of a counter, or a piece of
code under `bufferLock_`.  The QBUF ioctl and the insertion into the in-flight map are
two steps under one hold of the lock; the DQBUF ioctl takes no lock. */
module FrameQueue {

  type Index = nat
  type Frame = nat
  type Pid = nat

  const MAXBUFFER := 8

  /** Where a thread is inside QueueBuffer. */
  datatype Producer =
    | Waiting(i: Index, f: Frame)   // wants bufferLock_: on entry, or after the usleep
    | Admitted(i: Index, f: Frame)  // holds the lock, QBUF is next
    | Queued(i: Index, f: Frame)    // holds the lock, QBUF succeeded, insertion is next
    | Released                      // unlocked, bufCont++ is next
    | Counted                       // currStartQueueBuffNum++ is next

  /** Where the consumer thread is.  The pair (i, f) is the index DQBUF returned and,
      for the proofs only, the frame QBUF was given with it. */
  datatype Consumer =
    | NotRunning
    | Outer                         // at the test of streamNumber_
    | Inner                         // at the test of currStartQueueBuffNum
    | Check                         // at the test of bufCont
    | Dequeue                       // at the DQBUF ioctl
    | Copy(i: Index, f: Frame)      // copying the frame bytes
    | WantLock(i: Index, f: Frame)
    | Find(i: Index, f: Frame)      // holds the lock, looks the index up
    | Took(i: Index, g: Frame)      // entry g erased, lock released, callback is next
    | Called                        // bufCont-- is next
    | Finish(burnt: bool)           // currStartQueueBuffNum-- is next
    | Exited

  datatype Lock = Free | ByProducer(p: Pid) | ByConsumer

  /** Whose turn it is with a buffer index. */
  datatype Place = AtClient | WithProducer(p: Pid) | InKernel | WithConsumer | Leaked

  datatype Phase = Before | Streaming | Stopping | Off

  datatype State = State(
    entry: bool,                     // queueBuffers_ has an entry for the fd
    frames: map<Index, Frame>,       // that entry
    lock: Lock,
    bufCont: int,
    curr: int,                       // currStartQueueBuffNum
    streams: nat,                    // streamNumber_
    callback: bool,                  // dequeueBuffer_ is set
    phase: Phase,
    drain: bool,                     // the consumer is in its second loop
    producers: map<Pid, Producer>,
    consumer: Consumer,
    kernel: map<Index, Frame>,       // indexes QBUFed and not yet returned
    place: map<Index, Place>,
    // history
    accepted: multiset<(Index, Frame)>,   // QBUF succeeded and inserted
    delivered: multiset<(Index, Frame)>,  // passed to the callback
    dropped: multiset<(Index, Frame)>,    // erased because no callback was set
    lost: int)                       // counts of `curr` wiped or spent without a frame

  function Init(callback: bool): State {
    State(false, map[], Free, 0, 0, 0, callback, Before, false, map[], NotRunning, map[], map[],
          multiset{}, multiset{}, multiset{}, 0)
  }

  function PlaceOf(s: State, i: Index): Place {
    if i in s.place then s.place[i] else AtClient
  }

  // ---------------------------------------------------------------- steps

  datatype Label =
    | PStart(p: Pid, i: Index, f: Frame)
    | PFull(p: Pid)
    | PAdmit(p: Pid)
    | PQbuf(p: Pid)
    | PQbufFail(p: Pid)
    | PInsert(p: Pid)
    | PCount(p: Pid)
    | PDone(p: Pid)
    | COuter
    | CInner
    | CCheck
    | CDqbuf(i: Index)
    | CDqbufFail
    | CCopy
    | CLock
    | CFind
    | CCall
    | CUncount
    | CFinish
    | SetCallback
    | StartStream(threadOk: bool)
    | StopStream
    | StreamOff

  predicate IsProducerLabel(l: Label) {
    l.PStart? || l.PFull? || l.PAdmit? || l.PQbuf? || l.PQbufFail? || l.PInsert? || l.PCount? || l.PDone?
  }

  predicate IsConsumerLabel(l: Label) {
    l.COuter? || l.CInner? || l.CCheck? || l.CDqbuf? || l.CDqbufFail? || l.CCopy? || l.CLock? || l.CFind?
    || l.CCall? || l.CUncount? || l.CFinish?
  }

  predicate ProducerEnabled(s: State, l: Label)
    requires IsProducerLabel(l)
  {
    match l
    case PStart(p, i, f) => p !in s.producers && PlaceOf(s, i) == AtClient && s.phase != Off
    case PFull(p) => p in s.producers && s.producers[p].Waiting? && s.lock == Free && s.entry && |s.frames| >= MAXBUFFER
    case PAdmit(p) =>
      p in s.producers && s.producers[p].Waiting? && s.lock == Free && (s.entry ==> |s.frames| < MAXBUFFER)
    case PQbuf(p) => p in s.producers && s.producers[p].Admitted? && s.producers[p].i !in s.kernel
    case PQbufFail(p) => p in s.producers && s.producers[p].Admitted?
    case PInsert(p) => p in s.producers && s.producers[p].Queued?
    case PCount(p) => p in s.producers && s.producers[p].Released?
    case PDone(p) => p in s.producers && s.producers[p].Counted?
  }

  predicate ConsumerEnabled(s: State, l: Label)
    requires IsConsumerLabel(l)
  {
    match l
    case COuter => s.consumer.Outer?
    case CInner => s.consumer.Inner?
    case CCheck => s.consumer.Check?
    case CDqbuf(i) => s.consumer.Dequeue? && i in s.kernel
    case CDqbufFail => s.consumer.Dequeue?
    case CCopy => s.consumer.Copy?
    case CLock => s.consumer.WantLock? && s.lock == Free
    case CFind => s.consumer.Find?
    case CCall => s.consumer.Took?
    case CUncount => s.consumer.Called?
    case CFinish => s.consumer.Finish?
  }

  predicate Enabled(s: State, l: Label) {
    if IsProducerLabel(l) then ProducerEnabled(s, l)
    else if IsConsumerLabel(l) then ConsumerEnabled(s, l)
    else match l
      case SetCallback => true
      case StartStream(_) => s.phase == Before
      case StopStream => s.phase == Streaming
      case StreamOff => s.phase == Stopping && s.consumer.Exited?
  }

  function DoProducer(s: State, l: Label): State
    requires IsProducerLabel(l) && ProducerEnabled(s, l)
  {
    match l
    case PStart(p, i, f) =>
      s.(producers := s.producers[p := Waiting(i, f)], place := s.place[i := WithProducer(p)])
    case PFull(p) => s
    case PAdmit(p) =>
      s.(producers := s.producers[p := Admitted(s.producers[p].i, s.producers[p].f)], lock := ByProducer(p))
    case PQbuf(p) =>
      var (i, f) := (s.producers[p].i, s.producers[p].f);
      s.(producers := s.producers[p := Queued(i, f)], kernel := s.kernel[i := f], place := s.place[i := InKernel])
    case PQbufFail(p) =>
      s.(producers := s.producers - {p}, lock := Free, place := s.place[s.producers[p].i := AtClient])
    case PInsert(p) =>
      var (i, f) := (s.producers[p].i, s.producers[p].f);
      s.(producers := s.producers[p := Released], lock := Free, entry := true, frames := s.frames[i := f],
         accepted := s.accepted + multiset{(i, f)})
    case PCount(p) => s.(producers := s.producers[p := Counted], bufCont := s.bufCont + 1)
    case PDone(p) => s.(producers := s.producers - {p}, curr := s.curr + 1)
  }

  function DoConsumer(s: State, l: Label): State
    requires IsConsumerLabel(l) && ConsumerEnabled(s, l)
  {
    match l
    case COuter => s.(consumer := Inner, drain := s.streams == 0)
    case CInner => s.(consumer := if s.curr > 0 then Check else if s.drain then Exited else Outer)
    case CCheck => s.(consumer := if s.bufCont < 1 then Finish(true) else Dequeue)
    case CDqbuf(i) =>
      s.(consumer := Copy(i, s.kernel[i]), kernel := s.kernel - {i}, place := s.place[i := WithConsumer])
    case CDqbufFail => s.(consumer := Finish(true))
    case CCopy => s.(consumer := WantLock(s.consumer.i, s.consumer.f))
    case CLock => s.(consumer := Find(s.consumer.i, s.consumer.f), lock := ByConsumer)
    case CFind =>
      var i := s.consumer.i;
      if !s.entry || i !in s.frames then s.(consumer := Finish(true), lock := Free)
      else if !s.callback then
        s.(consumer := Finish(false), lock := Free, frames := s.frames - {i}, place := s.place[i := Leaked],
           dropped := s.dropped + multiset{(i, s.frames[i])})
      else s.(consumer := Took(i, s.frames[i]), lock := Free, frames := s.frames - {i})
    case CCall =>
      s.(consumer := Called, place := s.place[s.consumer.i := AtClient],
         delivered := s.delivered + multiset{(s.consumer.i, s.consumer.g)})
    case CUncount => s.(consumer := Finish(false), bufCont := s.bufCont - 1)
    case CFinish =>
      s.(consumer := Inner, curr := s.curr - 1, lost := s.lost + (if s.consumer.burnt then 1 else 0))
  }

  function Do(s: State, l: Label): State
    requires Enabled(s, l)
  {
    if IsProducerLabel(l) then DoProducer(s, l)
    else if IsConsumerLabel(l) then DoConsumer(s, l)
    else match l
      case SetCallback => s.(callback := true)
      case StartStream(threadOk) =>
        var s1 := s.(curr := 0, lost := s.lost + s.curr);
        if threadOk then s1.(streams := 1, phase := Streaming, consumer := Outer) else s1
      case StopStream => s.(streams := 0, phase := Stopping)
      case StreamOff => s.(phase := Off)
  }

  /** s leads to last by the labels ls. */
  ghost predicate Runs(s: State, ls: seq<Label>, last: State)
    decreases |ls|
  {
    if ls == [] then last == s
    else Enabled(s, ls[0]) && Runs(Do(s, ls[0]), ls[1..], last)
  }

  /** Some interleaving leads to s. */
  ghost predicate Reachable(s: State) {
    exists callback, ls :: Runs(Init(callback), ls, s)
  }

  // ---------------------------------------------------------------- the invariant

  predicate HoldsLock(pr: Producer) {
    pr.Admitted? || pr.Queued?
  }

  /** The consumer holds an index whose map entry it has not erased. */
  predicate Holding(c: Consumer, i: Index, f: Frame) {
    c == Copy(i, f) || c == WantLock(i, f) || c == Find(i, f)
  }

  ghost predicate LockInv(s: State) {
    && (forall p :: p in s.producers && HoldsLock(s.producers[p]) ==> s.lock == ByProducer(p))
    && (s.lock.ByProducer? ==> s.lock.p in s.producers && HoldsLock(s.producers[s.lock.p]))
    && (s.consumer.Find? <==> s.lock == ByConsumer)
    && (!s.entry ==> s.frames == map[])
  }

  /** QBUF has been done for (i, f), and its thread still holds the lock. */
  ghost predicate Inserting(s: State, i: Index, f: Frame) {
    s.lock.ByProducer? && s.lock.p in s.producers && s.producers[s.lock.p] == Queued(i, f)
  }

  ghost predicate PlaceOfProducer(s: State, p: Pid) {
    (p in s.producers && (s.producers[p].Waiting? || s.producers[p].Admitted?))
      ==> PlaceOf(s, s.producers[p].i) == WithProducer(p)
  }

  ghost predicate PlaceOfKernel(s: State, i: Index) {
    i in s.kernel <==> PlaceOf(s, i) == InKernel
  }

  ghost predicate PlaceOfConsumer(s: State) {
    var c := s.consumer;
    c.Copy? || c.WantLock? || c.Find? || c.Took? ==> PlaceOf(s, c.i) == WithConsumer
  }

  ghost predicate PlaceInv(s: State) {
    && (forall p :: PlaceOfProducer(s, p))
    && (forall i :: PlaceOfKernel(s, i))
    && PlaceOfConsumer(s)
  }

  /** QBUF was given f with index i, and the consumer has not yet taken it out of the
      in-flight map. */
  predicate InFlight(s: State, i: Index, f: Frame) {
    (i in s.kernel && s.kernel[i] == f) || Holding(s.consumer, i, f)
  }

  /** The in-flight map, with what is just being inserted, knows (i, f). */
  ghost predicate Recorded(s: State, i: Index, f: Frame) {
    (i in s.frames && s.frames[i] == f) || Inserting(s, i, f)
  }

  ghost predicate MapAt(s: State, i: Index, f: Frame) {
    && (InFlight(s, i, f) <==> Recorded(s, i, f))
    && (Inserting(s, i, f) ==> i !in s.frames)
  }

  /** The in-flight map agrees with what the kernel and the consumer hold. */
  ghost predicate MapInv(s: State) {
    forall i, f :: MapAt(s, i, f)
  }

  ghost function InPhase(producers: map<Pid, Producer>, pr: Producer): set<Pid> {
    set p | p in producers && producers[p] == pr
  }

  function One(b: bool): int { if b then 1 else 0 }

  ghost predicate CountInv(s: State) {
    && s.bufCont == |s.frames| + |s.dropped| + One(s.consumer.Took? || s.consumer.Called?)
                    - |InPhase(s.producers, Released)|
    && s.curr == |s.frames| + One(s.consumer.Took? || s.consumer.Called? || s.consumer == Finish(false))
                 - |InPhase(s.producers, Released)| - |InPhase(s.producers, Counted)| - s.lost
    && s.lost >= 0
    && s.curr >= One(s.consumer.Check? || s.consumer.Dequeue? || s.consumer.Copy? || s.consumer.WantLock?
                     || s.consumer.Find? || s.consumer.Took? || s.consumer.Called? || s.consumer.Finish?)
    && |s.frames| <= MAXBUFFER
    && (s.lock.ByProducer? ==> |s.frames| < MAXBUFFER)
  }

  ghost function Items(frames: map<Index, Frame>): set<(Index, Frame)> {
    set i | i in frames :: (i, frames[i])
  }

  ghost function InHand(c: Consumer): multiset<(Index, Frame)> {
    if c.Took? then multiset{(c.i, c.g)} else multiset{}
  }

  /** Nothing is lost or made up on the way from QBUF to the callback. */
  ghost predicate FlowInv(s: State) {
    s.accepted == s.delivered + s.dropped + multiset(Items(s.frames)) + InHand(s.consumer)
  }

  ghost predicate ControlInv(s: State) {
    && (s.phase == Before <==> s.consumer.NotRunning?)
    && s.streams == (if s.phase == Streaming then 1 else 0)
    && (s.phase == Off ==> s.consumer.Exited?)
    && (s.phase == Before ==> !s.drain)
    && (s.drain ==> s.streams == 0)
    && (s.consumer.Exited? ==> s.drain && s.phase in {Stopping, Off})
    && (s.consumer.Outer? ==> !s.drain)
  }

  ghost predicate Inv(s: State) {
    LockInv(s) && PlaceInv(s) && MapInv(s) && CountInv(s) && FlowInv(s) && ControlInv(s)
  }
}
