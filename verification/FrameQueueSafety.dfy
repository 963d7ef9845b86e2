/** Every step of the frame queue keeps its invariant, and what that says about every
reachable state. */
module FrameQueueSafety {
  import opened FrameQueue

  // ---------------------------------------------------------------- lock and control

  lemma LockKeptByProducer(s: State, l: Label)
    requires LockInv(s) && IsProducerLabel(l) && ProducerEnabled(s, l)
    ensures LockInv(DoProducer(s, l))
  {
    match l {
      case PStart(_, _, _) =>
      case PFull(_) =>
      case PAdmit(_) =>
      case PQbufFail(_) =>
      case PQbuf(_) =>
      case PInsert(_) =>
      case PCount(_) =>
      case PDone(_) =>
      case _ =>
    }
  }

  lemma LockKeptByConsumer(s: State, l: Label)
    requires LockInv(s) && IsConsumerLabel(l) && ConsumerEnabled(s, l)
    ensures LockInv(DoConsumer(s, l))
  {
    match l {
      case COuter =>
      case CInner =>
      case CCheck =>
      case CDqbuf(_) =>
      case CDqbufFail =>
      case CCopy =>
      case CLock =>
      case CFind =>
      case CCall =>
      case CUncount =>
      case CFinish =>
      case _ =>
    }
  }

  lemma ControlKeptByConsumer(s: State, l: Label)
    requires ControlInv(s) && IsConsumerLabel(l) && ConsumerEnabled(s, l)
    ensures ControlInv(DoConsumer(s, l))
  {
    match l {
      case COuter =>
      case CInner =>
      case CCheck =>
      case CDqbuf(_) =>
      case CDqbufFail =>
      case CCopy =>
      case CLock =>
      case CFind =>
      case CCall =>
      case CUncount =>
      case CFinish =>
      case _ =>
    }
  }

  // ---------------------------------------------------------------- whose turn an index is

  lemma PlaceOfProducerKept(s: State, l: Label, q: Pid)
    requires PlaceInv(s) && IsProducerLabel(l) && ProducerEnabled(s, l)
    ensures PlaceOfProducer(DoProducer(s, l), q)
  {
    assert PlaceOfProducer(s, q);
    if !l.PStart? {
      assert PlaceOfProducer(s, l.p);
    }
  }

  lemma PlaceOfKernelKept(s: State, l: Label, i: Index)
    requires PlaceInv(s) && IsProducerLabel(l) && ProducerEnabled(s, l)
    ensures PlaceOfKernel(DoProducer(s, l), i)
  {
    assert PlaceOfKernel(s, i);
    if !l.PStart? {
      assert PlaceOfProducer(s, l.p);
    }
  }

  lemma PlaceOfConsumerKept(s: State, l: Label)
    requires PlaceInv(s) && IsProducerLabel(l) && ProducerEnabled(s, l)
    ensures PlaceOfConsumer(DoProducer(s, l))
  {
    if !l.PStart? {
      assert PlaceOfProducer(s, l.p);
    }
  }

  lemma PlaceKeptByProducer(s: State, l: Label)
    requires PlaceInv(s) && IsProducerLabel(l) && ProducerEnabled(s, l)
    ensures PlaceInv(DoProducer(s, l))
  {
    hide PlaceOfProducer, PlaceOfKernel, PlaceOfConsumer;
    forall q ensures PlaceOfProducer(DoProducer(s, l), q) {
      PlaceOfProducerKept(s, l, q);
    }
    forall i ensures PlaceOfKernel(DoProducer(s, l), i) {
      PlaceOfKernelKept(s, l, i);
    }
    PlaceOfConsumerKept(s, l);
  }

  lemma PlaceOfProducerKeptByConsumer(s: State, l: Label, q: Pid)
    requires PlaceInv(s) && IsConsumerLabel(l) && ConsumerEnabled(s, l)
    ensures PlaceOfProducer(DoConsumer(s, l), q)
  {
    assert PlaceOfProducer(s, q);
    match l {
      case COuter =>
      case CInner =>
      case CCheck =>
      case CDqbuf(j) => assert PlaceOfKernel(s, j);
      case CDqbufFail =>
      case CCopy =>
      case CLock =>
      case CFind =>
      case CCall =>
      case CUncount =>
      case CFinish =>
      case _ =>
    }
  }

  lemma PlaceOfKernelKeptByConsumer(s: State, l: Label, i: Index)
    requires PlaceInv(s) && IsConsumerLabel(l) && ConsumerEnabled(s, l)
    ensures PlaceOfKernel(DoConsumer(s, l), i)
  {
    assert PlaceOfKernel(s, i);
    match l {
      case COuter =>
      case CInner =>
      case CCheck =>
      case CDqbuf(j) => assert PlaceOfKernel(s, j);
      case CDqbufFail =>
      case CCopy =>
      case CLock =>
      case CFind =>
      case CCall =>
      case CUncount =>
      case CFinish =>
      case _ =>
    }
  }

  lemma PlaceOfConsumerKeptByConsumer(s: State, l: Label)
    requires PlaceOfConsumer(s) && IsConsumerLabel(l) && ConsumerEnabled(s, l)
    ensures PlaceOfConsumer(DoConsumer(s, l))
  {
  }

  lemma PlaceKeptByConsumer(s: State, l: Label)
    requires PlaceInv(s) && IsConsumerLabel(l) && ConsumerEnabled(s, l)
    ensures PlaceInv(DoConsumer(s, l))
  {
    hide PlaceOfProducer, PlaceOfKernel, PlaceOfConsumer, DoConsumer, ConsumerEnabled;
    forall q ensures PlaceOfProducer(DoConsumer(s, l), q) {
      PlaceOfProducerKeptByConsumer(s, l, q);
    }
    forall i ensures PlaceOfKernel(DoConsumer(s, l), i) {
      PlaceOfKernelKeptByConsumer(s, l, i);
    }
    PlaceOfConsumerKeptByConsumer(s, l);
  }

  // ---------------------------------------------------------------- the in-flight map

  /** An index a producer is about to queue is nowhere in flight. */
  lemma FreshIndex(s: State, p: Pid)
    requires PlaceInv(s) && MapInv(s) && p in s.producers && s.producers[p].Admitted?
    ensures s.producers[p].i !in s.frames && s.producers[p].i !in s.kernel
    ensures forall f :: !Holding(s.consumer, s.producers[p].i, f)
  {
    var i := s.producers[p].i;
    assert PlaceOfProducer(s, p) && PlaceOfKernel(s, i);
    assert i in s.frames ==> MapAt(s, i, s.frames[i]);
  }

  lemma MapAtAfterQbuf(s: State, p: Pid, i: Index, f: Frame)
    requires LockInv(s) && PlaceInv(s) && MapInv(s) && ProducerEnabled(s, PQbuf(p))
    ensures MapAt(DoProducer(s, PQbuf(p)), i, f)
  {
    FreshIndex(s, p);
    hide PlaceInv;
    assert MapAt(s, i, f);
  }

  lemma MapAtAfterInsert(s: State, p: Pid, i: Index, f: Frame)
    requires LockInv(s) && MapInv(s) && ProducerEnabled(s, PInsert(p))
    ensures MapAt(DoProducer(s, PInsert(p)), i, f)
  {
    assert MapAt(s, i, f);
    assert MapAt(s, s.producers[p].i, s.producers[p].f);
  }

  predicate TouchesMap(l: Label) {
    l.PQbuf? || l.PInsert? || l.CDqbuf? || l.CFind?
  }

  /** Agreement at (i, f) only depends on who has it. */
  lemma MapAtSame(s: State, t: State, i: Index, f: Frame)
    requires MapAt(s, i, f) && t.kernel == s.kernel && t.frames == s.frames
    requires Holding(t.consumer, i, f) <==> Holding(s.consumer, i, f)
    requires Inserting(t, i, f) <==> Inserting(s, i, f)
    ensures MapAt(t, i, f)
  {
  }

  lemma ProducerElsewhere(s: State, l: Label)
    requires IsProducerLabel(l) && ProducerEnabled(s, l) && !TouchesMap(l)
    ensures
      var t := DoProducer(s, l);
      t.kernel == s.kernel && t.frames == s.frames && t.consumer == s.consumer
  {
    match l {
      case PStart(_, _, _) =>
      case PFull(_) =>
      case PAdmit(_) =>
      case PQbufFail(_) =>
      case PQbuf(_) =>
      case PInsert(_) =>
      case PCount(_) =>
      case PDone(_) =>
      case _ =>
    }
  }

  lemma InsertingElsewhere(s: State, l: Label, i: Index, f: Frame)
    requires LockInv(s) && IsProducerLabel(l) && ProducerEnabled(s, l) && !TouchesMap(l)
    ensures Inserting(DoProducer(s, l), i, f) <==> Inserting(s, i, f)
  {
    match l {
      case PStart(_, _, _) =>
      case PFull(_) =>
      case PAdmit(_) =>
      case PQbufFail(_) =>
      case PQbuf(_) =>
      case PInsert(_) =>
      case PCount(_) =>
      case PDone(_) =>
      case _ =>
    }
  }

  lemma MapAtAfterProducer(s: State, l: Label, i: Index, f: Frame)
    requires LockInv(s) && PlaceInv(s) && MapInv(s) && IsProducerLabel(l) && ProducerEnabled(s, l)
    ensures MapAt(DoProducer(s, l), i, f)
  {
    hide LockInv, PlaceInv, MapAt, DoProducer, ProducerEnabled;
    if l.PQbuf? {
      MapAtAfterQbuf(s, l.p, i, f);
    } else if l.PInsert? {
      MapAtAfterInsert(s, l.p, i, f);
    } else {
      ProducerElsewhere(s, l);
      InsertingElsewhere(s, l, i, f);
      MapAtSame(s, DoProducer(s, l), i, f);
    }
  }

  /** The index the consumer looks up is in the map, with the frame it was queued with. */
  lemma FoundByConsumer(s: State)
    requires LockInv(s) && MapInv(s) && s.consumer.Find?
    ensures s.entry && s.consumer.i in s.frames && s.frames[s.consumer.i] == s.consumer.f
  {
    assert MapAt(s, s.consumer.i, s.consumer.f);
  }

  lemma MapAtAfterFind(s: State, i: Index, f: Frame)
    requires LockInv(s) && PlaceInv(s) && MapInv(s) && s.consumer.Find?
    ensures MapAt(DoConsumer(s, CFind), i, f)
  {
    FoundByConsumer(s);
    assert MapAt(s, i, f);
    assert PlaceOfKernel(s, s.consumer.i);
    hide PlaceInv, MapInv, MapAt, PlaceOfKernel, LockInv, DoConsumer;
    MapAtErased(s, i, f);
  }

  /** Taking the entry out answers for the consumer's no longer holding the index. */
  lemma MapAtErased(s: State, i: Index, f: Frame)
    requires MapAt(s, i, f) && LockInv(s) && s.consumer.Find? && PlaceOfConsumer(s) && PlaceOfKernel(s, s.consumer.i)
    requires s.entry && s.consumer.i in s.frames && s.frames[s.consumer.i] == s.consumer.f
    ensures MapAt(DoConsumer(s, CFind), i, f)
  {
  }

  lemma MapAtAfterDqbuf(s: State, j: Index, i: Index, f: Frame)
    requires LockInv(s) && MapAt(s, i, f) && ConsumerEnabled(s, CDqbuf(j))
    ensures MapAt(DoConsumer(s, CDqbuf(j)), i, f)
  {
  }

  lemma ConsumerElsewhere(s: State, l: Label, i: Index, f: Frame)
    requires IsConsumerLabel(l) && ConsumerEnabled(s, l) && !TouchesMap(l)
    ensures
      var t := DoConsumer(s, l);
      && t.kernel == s.kernel && t.frames == s.frames
      && (Holding(t.consumer, i, f) <==> Holding(s.consumer, i, f))
      && (Inserting(t, i, f) <==> Inserting(s, i, f))
  {
    match l {
      case COuter =>
      case CInner =>
      case CCheck =>
      case CDqbuf(_) =>
      case CDqbufFail =>
      case CCopy =>
      case CLock =>
      case CFind =>
      case CCall =>
      case CUncount =>
      case CFinish =>
      case _ =>
    }
  }

  lemma MapAtAfterConsumer(s: State, l: Label, i: Index, f: Frame)
    requires LockInv(s) && PlaceInv(s) && MapInv(s) && IsConsumerLabel(l) && ConsumerEnabled(s, l)
    ensures MapAt(DoConsumer(s, l), i, f)
  {
    hide LockInv, PlaceInv, MapAt, DoConsumer;
    assert MapAt(s, i, f);
    if l.CFind? {
      MapAtAfterFind(s, i, f);
    } else if l.CDqbuf? {
      MapAtAfterDqbuf(s, l.i, i, f);
    } else {
      ConsumerElsewhere(s, l, i, f);
      MapAtSame(s, DoConsumer(s, l), i, f);
    }
  }

  // ---------------------------------------------------------------- counts

  lemma PhaseUpdate(producers: map<Pid, Producer>, p: Pid, x: Producer, pr: Producer)
    ensures |InPhase(producers[p := x], pr)|
         == |InPhase(producers, pr)| - One(p in producers && producers[p] == pr) + One(x == pr)
  {
    var before := InPhase(producers, pr);
    assert InPhase(producers[p := x], pr) == (if x == pr then before + {p} else before - {p});
  }

  lemma PhaseRemove(producers: map<Pid, Producer>, p: Pid, pr: Producer)
    requires p in producers
    ensures |InPhase(producers - {p}, pr)| == |InPhase(producers, pr)| - One(producers[p] == pr)
  {
    assert InPhase(producers - {p}, pr) == InPhase(producers, pr) - {p};
  }

  lemma CountKeptByInsert(s: State, p: Pid)
    requires LockInv(s) && MapInv(s) && CountInv(s) && ProducerEnabled(s, PInsert(p))
    ensures CountInv(DoProducer(s, PInsert(p)))
  {
    var (i, f) := (s.producers[p].i, s.producers[p].f);
    assert MapAt(s, i, f);
    assert s.frames[i := f].Keys == s.frames.Keys + {i};
    PhaseUpdate(s.producers, p, Released, Released);
    PhaseUpdate(s.producers, p, Released, Counted);
  }

  lemma CountKeptByLeaving(s: State, l: Label)
    requires CountInv(s) && (l.PQbufFail? || l.PDone?) && ProducerEnabled(s, l)
    ensures CountInv(DoProducer(s, l))
  {
    PhaseRemove(s.producers, l.p, Released);
    PhaseRemove(s.producers, l.p, Counted);
  }

  lemma CountKeptByMoving(s: State, l: Label)
    requires CountInv(s) && (l.PStart? || l.PQbuf? || l.PCount?) && ProducerEnabled(s, l)
    ensures CountInv(DoProducer(s, l))
  {
    match l {
      case PStart(p, i, f) =>
        PhaseUpdate(s.producers, p, Waiting(i, f), Released);
        PhaseUpdate(s.producers, p, Waiting(i, f), Counted);
      case PQbuf(p) =>
        PhaseUpdate(s.producers, p, Queued(s.producers[p].i, s.producers[p].f), Released);
        PhaseUpdate(s.producers, p, Queued(s.producers[p].i, s.producers[p].f), Counted);
      case PCount(p) =>
        PhaseUpdate(s.producers, p, Counted, Released);
        PhaseUpdate(s.producers, p, Counted, Counted);
      case _ =>
    }
  }

  lemma CountKeptByAdmit(s: State, p: Pid)
    requires LockInv(s) && CountInv(s) && ProducerEnabled(s, PAdmit(p))
    ensures CountInv(DoProducer(s, PAdmit(p)))
  {
    var x := DoProducer(s, PAdmit(p)).producers[p];
    PhaseUpdate(s.producers, p, x, Released);
    PhaseUpdate(s.producers, p, x, Counted);
  }

  lemma CountKeptByProducer(s: State, l: Label)
    requires LockInv(s) && MapInv(s) && CountInv(s) && IsProducerLabel(l) && ProducerEnabled(s, l)
    ensures CountInv(DoProducer(s, l))
  {
    hide LockInv, MapInv, CountInv, ProducerEnabled;
    match l {
      case PFull(_) =>
      case PInsert(p) =>
        hide DoProducer;
        CountKeptByInsert(s, p);
      case PQbufFail(_) =>
        hide DoProducer;
        CountKeptByLeaving(s, l);
      case PDone(_) =>
        hide DoProducer;
        CountKeptByLeaving(s, l);
      case PAdmit(p) =>
        hide DoProducer;
        CountKeptByAdmit(s, p);
      case _ =>
        hide DoProducer;
        CountKeptByMoving(s, l);
    }
  }

  lemma CountKeptByConsumer(s: State, l: Label)
    requires LockInv(s) && MapInv(s) && CountInv(s) && IsConsumerLabel(l) && ConsumerEnabled(s, l)
    ensures CountInv(DoConsumer(s, l))
  {
    match l {
      case COuter =>
      case CInner =>
      case CCheck =>
      case CDqbuf(_) =>
      case CDqbufFail =>
      case CCopy =>
      case CLock =>
      case CFind =>
        FoundByConsumer(s);
        assert (s.frames - {s.consumer.i}).Keys == s.frames.Keys - {s.consumer.i};
      case CCall =>
      case CUncount =>
      case CFinish =>
      case _ =>
    }
  }

  // ---------------------------------------------------------------- flow

  lemma ItemsInsert(m: map<Index, Frame>, i: Index, f: Frame)
    requires i !in m
    ensures multiset(Items(m[i := f])) == multiset(Items(m)) + multiset{(i, f)}
  {
    forall j | j in m ensures (j, m[j]) in Items(m[i := f]) {
      assert j in m[i := f];
    }
    assert i in m[i := f];
    assert Items(m[i := f]) == Items(m) + {(i, f)};
    assert (i, f) !in Items(m);
  }

  lemma ItemsRemove(m: map<Index, Frame>, i: Index)
    requires i in m
    ensures multiset(Items(m)) == multiset(Items(m - {i})) + multiset{(i, m[i])}
  {
    assert m == (m - {i})[i := m[i]];
    ItemsInsert(m - {i}, i, m[i]);
  }

  lemma FlowKeptByProducer(s: State, l: Label)
    requires LockInv(s) && MapInv(s) && FlowInv(s) && IsProducerLabel(l) && ProducerEnabled(s, l)
    ensures FlowInv(DoProducer(s, l))
  {
    if l.PInsert? {
      var (i, f) := (s.producers[l.p].i, s.producers[l.p].f);
      assert MapAt(s, i, f);
      ItemsInsert(s.frames, i, f);
    }
  }

  lemma FlowKeptByFind(s: State)
    requires FlowInv(s) && s.consumer.Find? && s.entry && s.consumer.i in s.frames
    ensures FlowInv(DoConsumer(s, CFind))
  {
    var i := s.consumer.i;
    ItemsRemove(s.frames, i);
    var rest, x := multiset(Items(s.frames - {i})), multiset{(i, s.frames[i])};
    assert s.accepted == s.delivered + s.dropped + rest + x;
  }

  lemma FlowKeptByCall(s: State)
    requires FlowInv(s) && s.consumer.Took?
    ensures FlowInv(DoConsumer(s, CCall))
  {
    hide Items;
  }

  lemma FlowSame(s: State, l: Label)
    requires IsConsumerLabel(l) && ConsumerEnabled(s, l) && !l.CFind? && !l.CCall?
    ensures
      var t := DoConsumer(s, l);
      && t.accepted == s.accepted && t.delivered == s.delivered && t.dropped == s.dropped && t.frames == s.frames
      && !t.consumer.Took? && !s.consumer.Took?
  {
    match l {
      case COuter =>
      case CInner =>
      case CCheck =>
      case CDqbuf(_) =>
      case CDqbufFail =>
      case CCopy =>
      case CLock =>
      case CUncount =>
      case CFinish =>
      case _ =>
    }
  }

  lemma FlowKeptByConsumer(s: State, l: Label)
    requires LockInv(s) && MapInv(s) && FlowInv(s) && IsConsumerLabel(l) && ConsumerEnabled(s, l)
    ensures FlowInv(DoConsumer(s, l))
  {
    hide LockInv, MapInv, DoConsumer, Items;
    if l.CFind? {
      FoundByConsumer(s);
      hide FlowInv;
      FlowKeptByFind(s);
    } else if l.CCall? {
      hide FlowInv;
      FlowKeptByCall(s);
    } else {
      FlowSame(s, l);
    }
  }

  // ---------------------------------------------------------------- every step

  predicate IsControlLabel(l: Label) {
    !IsProducerLabel(l) && !IsConsumerLabel(l)
  }

  /** What SetCallback, StartStream, StopStream and StreamOff leave alone. */
  lemma ControlElsewhere(s: State, l: Label)
    requires ControlInv(s) && IsControlLabel(l) && Enabled(s, l)
    ensures
      var t := Do(s, l);
      && t.kernel == s.kernel && t.frames == s.frames && t.entry == s.entry && t.producers == s.producers
      && t.place == s.place && t.lock == s.lock
      && t.accepted == s.accepted && t.delivered == s.delivered && t.dropped == s.dropped
      && (t.consumer == s.consumer || (s.consumer.NotRunning? && t.consumer.Outer?))
  {
    match l {
      case SetCallback =>
      case StartStream(_) =>
      case StopStream =>
      case StreamOff =>
      case _ =>
    }
  }

  lemma LockAndControlKept(s: State, l: Label)
    requires LockInv(s) && ControlInv(s) && IsControlLabel(l) && Enabled(s, l)
    ensures LockInv(Do(s, l)) && ControlInv(Do(s, l))
  {
  }

  /** The counters only depend on what they count. */
  lemma CountSame(s: State, t: State)
    requires CountInv(s) && t.frames == s.frames && t.dropped == s.dropped && t.consumer == s.consumer
    requires t.producers == s.producers && t.lock == s.lock
    requires t.bufCont == s.bufCont && t.curr == s.curr && t.lost == s.lost
    ensures CountInv(t)
  {
    hide InPhase;
  }

  lemma CountKeptByStart(s: State, threadOk: bool)
    requires CountInv(s) && s.consumer.NotRunning? && s.phase == Before
    ensures CountInv(Do(s, StartStream(threadOk)))
  {
    hide InPhase;
  }

  lemma CountKeptByControl(s: State, l: Label)
    requires CountInv(s) && ControlInv(s) && IsControlLabel(l) && Enabled(s, l)
    ensures CountInv(Do(s, l))
  {
    if l.StartStream? {
      hide CountInv, Do;
      CountKeptByStart(s, l.threadOk);
    } else {
      hide CountInv, ControlInv;
      CountSame(s, Do(s, l));
    }
  }

  lemma FlowKeptByControl(s: State, l: Label)
    requires FlowInv(s) && ControlInv(s) && IsControlLabel(l) && Enabled(s, l)
    ensures FlowInv(Do(s, l))
  {
    hide Items, Do, Enabled, ControlInv;
    ControlElsewhere(s, l);
  }

  lemma PlaceKeptByControl(s: State, l: Label)
    requires PlaceInv(s) && ControlInv(s) && IsControlLabel(l) && Enabled(s, l)
    ensures PlaceInv(Do(s, l))
  {
    hide Do, Enabled, ControlInv;
    ControlElsewhere(s, l);
    forall p ensures PlaceOfProducer(Do(s, l), p) {
      assert PlaceOfProducer(s, p);
    }
    forall i ensures PlaceOfKernel(Do(s, l), i) {
      assert PlaceOfKernel(s, i);
    }
  }

  lemma MapKeptByControl(s: State, l: Label)
    requires MapInv(s) && ControlInv(s) && IsControlLabel(l) && Enabled(s, l)
    ensures MapInv(Do(s, l))
  {
    hide Do, Enabled, ControlInv, MapAt;
    ControlElsewhere(s, l);
    forall i, f ensures MapAt(Do(s, l), i, f) {
      MapAtSame(s, Do(s, l), i, f);
    }
  }

  lemma KeptByControl(s: State, l: Label)
    requires Inv(s) && IsControlLabel(l) && Enabled(s, l)
    ensures Inv(Do(s, l))
  {
    hide LockInv, PlaceInv, CountInv, FlowInv, MapInv, ControlInv, Do;
    LockAndControlKept(s, l);
    CountKeptByControl(s, l);
    FlowKeptByControl(s, l);
    PlaceKeptByControl(s, l);
    MapKeptByControl(s, l);
  }

  lemma KeptByProducer(s: State, l: Label)
    requires Inv(s) && IsProducerLabel(l) && ProducerEnabled(s, l)
    ensures Inv(DoProducer(s, l))
  {
    hide LockInv, PlaceInv, CountInv, FlowInv, MapAt;
    LockKeptByProducer(s, l);
    PlaceKeptByProducer(s, l);
    forall i, f ensures MapAt(DoProducer(s, l), i, f) {
      MapAtAfterProducer(s, l, i, f);
    }
    CountKeptByProducer(s, l);
    FlowKeptByProducer(s, l);
  }

  lemma KeptByConsumer(s: State, l: Label)
    requires Inv(s) && IsConsumerLabel(l) && ConsumerEnabled(s, l)
    ensures Inv(DoConsumer(s, l))
  {
    hide LockInv, PlaceInv, CountInv, FlowInv, MapAt, ControlInv, DoConsumer;
    LockKeptByConsumer(s, l);
    PlaceKeptByConsumer(s, l);
    forall i, f ensures MapAt(DoConsumer(s, l), i, f) {
      MapAtAfterConsumer(s, l, i, f);
    }
    CountKeptByConsumer(s, l);
    FlowKeptByConsumer(s, l);
    ControlKeptByConsumer(s, l);
  }

  lemma StepKeepsInv(s: State, l: Label)
    requires Inv(s) && Enabled(s, l)
    ensures Inv(Do(s, l))
  {
    hide Inv, DoProducer, DoConsumer;
    if IsProducerLabel(l) {
      KeptByProducer(s, l);
    } else if IsConsumerLabel(l) {
      KeptByConsumer(s, l);
    } else {
      KeptByControl(s, l);
    }
  }

  lemma InitInv(callback: bool)
    ensures Inv(Init(callback))
  {
    var s := Init(callback);
    forall i, f ensures MapAt(s, i, f) {
    }
    assert InPhase(s.producers, Released) == {} && InPhase(s.producers, Counted) == {};
    assert Items(s.frames) == {};
  }

  lemma {:induction false} RunsKeepInv(s: State, ls: seq<Label>, last: State)
    requires Inv(s) && Runs(s, ls, last)
    ensures Inv(last)
    decreases |ls|
  {
    hide Inv, Do;
    if ls != [] {
      StepKeepsInv(s, ls[0]);
      RunsKeepInv(Do(s, ls[0]), ls[1..], last);
    }
  }

  lemma ReachableInv(s: State)
    requires Reachable(s)
    ensures Inv(s)
  {
    hide Inv;
    var callback, ls :| Runs(Init(callback), ls, s);
    InitInv(callback);
    RunsKeepInv(Init(callback), ls, s);
  }

  // ---------------------------------------------------------------- what it says

  /** The index DQBUF returned is always found in the in-flight map, mapped to the very
      frame QBUF was given with it: the two error returns after the lookup are dead. */
  lemma DequeuedIndexIsFound(s: State)
    requires Reachable(s) && s.consumer.Find?
    ensures s.entry && s.consumer.i in s.frames && s.frames[s.consumer.i] == s.consumer.f
  {
    ReachableInv(s);
    FoundByConsumer(s);
  }

  /** Every frame accepted by QBUF is, at every moment and exactly once, delivered,
      dropped for want of a callback, in the in-flight map, or in the consumer's hand. */
  lemma FramesConserved(s: State)
    requires Reachable(s)
    ensures s.accepted == s.delivered + s.dropped + multiset(Items(s.frames)) + InHand(s.consumer)
  {
    ReachableInv(s);
  }

  /** The two unlocked counters, exactly, at every moment. */
  lemma CountersExact(s: State)
    requires Reachable(s)
    ensures s.bufCont == |s.frames| + |s.dropped| + One(s.consumer.Took? || s.consumer.Called?)
                         - |InPhase(s.producers, Released)|
    ensures s.curr == |s.frames| + One(s.consumer.Took? || s.consumer.Called? || s.consumer == Finish(false))
                      - |InPhase(s.producers, Released)| - |InPhase(s.producers, Counted)| - s.lost
    ensures s.curr >= 0 && s.lost >= 0
  {
    ReachableInv(s);
  }

  lemma InFlightBounded(s: State)
    requires Reachable(s)
    ensures |s.frames| <= MAXBUFFER
  {
    ReachableInv(s);
  }

  /** The early return on bufCont is never taken, and DQBUF is only called while the
      kernel holds a buffer, so it cannot wait for ever. */
  lemma ConsumerNeverStarves(s: State)
    requires Inv(s)
    ensures s.consumer.Check? ==> s.bufCont >= 1
    ensures s.consumer.Dequeue? ==> exists i :: i in s.kernel
  {
    if s.consumer.Dequeue? {
      assert |s.frames| >= 1;
      var i :| i in s.frames;
      assert MapAt(s, i, s.frames[i]);
    }
  }
}
