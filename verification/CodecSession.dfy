/** The encoder session and still-capture state of one codec node, as a pure step
function over the calls a client can make, and what holds over every run of it. */
module CodecSession {

  datatype EncodeType = Raw | Jpeg | H264

  /** A frame handed to DeliverBuffer, with the replies the encoder libraries will give
      for it: `prepared` says that the H264 transform succeeded, `jpegOk` that the JPEG
      library is loaded and encoded the picture. */
  datatype Frame = Frame(encodeType: EncodeType, statusOk: bool, prepared: bool, startRet: int, encRet: int,
                         encType: int, jpegOk: bool)

  datatype Event = Start | Stop | CancelCapture | Deliver(frame: Frame)

  /** The node's fields, with the source's 0 / 1 values. */
  datatype Session = Session(status: int, nodestatus: int, startflag: int, stillcaptureok: int)

  const INIT := Session(0, 0, 0, 0)

  /** Calls into the H264 encoder. */
  datatype Call = VspStart(ret: int) | VspEnc | VspStop

  /** The key-frame mark put on a frame; Unmarked if the node left it alone. */
  datatype Mark = Key | NonKey | Unmarked

  /** A frame passed on to the next node. */
  datatype Left = Left(encodeType: EncodeType, ok: bool, mark: Mark)

  datatype Outcome = Outcome(session: Session, calls: seq<Call>, left: seq<Left>)

  /** Yuv420ToH264WithUnisoc, and the status changes DeliverBuffer makes around it. */
  function StepH264(loaded: bool, s: Session, f: Frame): Outcome {
    var s1 := s.(nodestatus := 1);
    if !f.prepared || !loaded then Outcome(s1, [], [Left(H264, true, Unmarked)])
    else if s1.status == 0 && f.startRet < 0 then
      Outcome(s1.(status := 1), [VspStart(f.startRet)], [Left(H264, true, Unmarked)])
    else
      var s2 := if s1.status == 0 then s1.(status := 1, startflag := 1) else s1;
      var calls := if s1.status == 0 then [VspStart(f.startRet), VspEnc] else [VspEnc];
      if f.encRet != 0 then Outcome(s2, calls, [Left(H264, false, NonKey)])
      else if f.encType == 0 then Outcome(s2.(startflag := 0), calls, [Left(H264, true, Key)])
      else Outcome(s2, calls, [Left(H264, s2.startflag != 1, NonKey)])
  }

  /** The part of DeliverBuffer under stillcaptureMutex_. */
  function StepJpeg(s: Session, f: Frame): Outcome {
    if s.stillcaptureok == 0 then
      Outcome(s.(stillcaptureok := if f.jpegOk then 1 else 0), [], [Left(Jpeg, f.jpegOk, Unmarked)])
    else
      Outcome(s, [], [Left(Jpeg, false, Unmarked)])
  }

  function Step(loaded: bool, s: Session, e: Event): Outcome {
    match e
    case Start => Outcome(s.(startflag := 0, stillcaptureok := 0), [], [])
    case Stop => Outcome(s.(startflag := 0, stillcaptureok := 0), [], [])
    case CancelCapture =>
      var closing := s.nodestatus == 1 && s.status == 1;
      Outcome(s.(status := if closing then 0 else s.status,
                 nodestatus := if s.nodestatus == 1 then 0 else s.nodestatus,
                 stillcaptureok := 0),
              if closing && loaded then [VspStop] else [], [])
    case Deliver(f) =>
      if !f.statusOk then Outcome(s, [], [Left(f.encodeType, false, Unmarked)])
      else match f.encodeType
        case Jpeg => StepJpeg(s, f)
        case H264 => StepH264(loaded, s, f)
        case Raw => Outcome(s, [], [Left(Raw, true, Unmarked)])
  }

  /** A whole run: the final fields, every encoder call and every frame passed on. */
  function Run(loaded: bool, s: Session, es: seq<Event>): Outcome {
    if es == [] then Outcome(s, [], [])
    else
      var before := Run(loaded, s, es[..|es| - 1]);
      var last := Step(loaded, before.session, es[|es| - 1]);
      Outcome(last.session, before.calls + last.calls, before.left + last.left)
  }

  // ---------------------------------------------------------------- the session invariant

  ghost predicate Inv(loaded: bool, s: Session) {
    && s.status in {0, 1} && s.nodestatus in {0, 1} && s.startflag in {0, 1} && s.stillcaptureok in {0, 1}
    && (s.status == 1 ==> s.nodestatus == 1 && loaded)
  }

  lemma {:induction false} RunInv(loaded: bool, es: seq<Event>)
    ensures Inv(loaded, Run(loaded, INIT, es).session)
  {
    if es != [] {
      RunInv(loaded, es[..|es| - 1]);
    }
  }

  /** Whether calls come in turn: Legal if every VspStart is followed by a VspStop
      before the next one, and VspEnc comes only between the two.  A start counts as one
      whether or not it succeeds. */
  datatype Verdict = Broken | Legal(open: bool)

  function Judge(calls: seq<Call>): Verdict {
    if calls == [] then Legal(false)
    else match Judge(calls[..|calls| - 1])
      case Broken => Broken
      case Legal(open) =>
        match calls[|calls| - 1]
        case VspStart(_) => if open then Broken else Legal(true)
        case VspEnc => if open then Legal(true) else Broken
        case VspStop => if open then Legal(false) else Broken
  }

  lemma JudgeSnoc(calls: seq<Call>, c: Call)
    requires Judge(calls).Legal?
    requires if c.VspStart? then !Judge(calls).open else Judge(calls).open
    ensures Judge(calls + [c]) == Legal(!c.VspStop?)
  {
    assert (calls + [c])[..|calls|] == calls;
  }

  lemma StepKeepsJudgement(loaded: bool, s: Session, calls: seq<Call>, e: Event)
    requires Inv(loaded, s) && Judge(calls) == Legal(s.status == 1)
    ensures Judge(calls + Step(loaded, s, e).calls) == Legal(Step(loaded, s, e).session.status == 1)
  {
    var made := Step(loaded, s, e).calls;
    hide Judge;
    if made == [] {
      assert calls + made == calls;
    } else {
      JudgeSnoc(calls, made[0]);
      if |made| == 1 {
        assert made == [made[0]];
      } else {
        JudgeSnoc(calls + [made[0]], made[1]);
        assert calls + made == calls + [made[0]] + [made[1]];
      }
    }
  }

  /** In every run, calls to VspStart and VspStop strictly alternate, VspEnc is called
      only after a VspStart, and `status` says which of the two was called last. */
  lemma {:induction false} CallsAlternate(loaded: bool, es: seq<Event>)
    ensures Judge(Run(loaded, INIT, es).calls) == Legal(Run(loaded, INIT, es).session.status == 1)
  {
    hide Judge, Step, Inv;
    if es == [] {
      JudgeNothing();
    } else {
      var before := Run(loaded, INIT, es[..|es| - 1]);
      CallsAlternate(loaded, es[..|es| - 1]);
      RunInv(loaded, es[..|es| - 1]);
      StepKeepsJudgement(loaded, before.session, before.calls, es[|es| - 1]);
    }
  }

  lemma JudgeNothing()
    ensures Judge([]) == Legal(false)
  {
  }

  /** After any run, CancelCapture leaves the session closed, with one VspStop exactly
      if it was open. */
  lemma CancelCloses(loaded: bool, es: seq<Event>)
    ensures
      var before := Run(loaded, INIT, es).session;
      var after := Step(loaded, before, CancelCapture);
      && after.session.status == 0 && after.session.nodestatus == 0
      && after.calls == (if before.status == 1 then [VspStop] else [])
  {
    RunInv(loaded, es);
  }

  // ---------------------------------------------------------------- starts that fail

  /** As Judge, but a session is open only once a VspStart has succeeded. */
  function JudgeStarted(calls: seq<Call>): Verdict {
    if calls == [] then Legal(false)
    else match JudgeStarted(calls[..|calls| - 1])
      case Broken => Broken
      case Legal(open) =>
        match calls[|calls| - 1]
        case VspStart(ret) => if open then Broken else Legal(ret >= 0)
        case VspEnc => if open then Legal(true) else Broken
        case VspStop => if open then Legal(false) else Broken
  }

  predicate Failed(c: Call) {
    c.VspStart? && c.ret < 0
  }

  /** Every VspStart but perhaps a final call succeeded. */
  predicate OnlyLastStartFails(calls: seq<Call>) {
    forall k :: 0 <= k < |calls| - 1 ==> !Failed(calls[k])
  }

  lemma {:induction false} TurnsAndStarts(calls: seq<Call>)
    requires Judge(calls).Legal?
    ensures JudgeStarted(calls).Legal? <==> OnlyLastStartFails(calls)
    ensures OnlyLastStartFails(calls) ==>
      JudgeStarted(calls).open == (Judge(calls).open && !Failed(calls[|calls| - 1]))
  {
    if calls != [] {
      var front := calls[..|calls| - 1];
      TurnsAndStarts(front);
      assert OnlyLastStartFails(calls)
        <==> OnlyLastStartFails(front) && (front != [] ==> !Failed(front[|front| - 1]));
    }
  }

  /** In every run, frames are encoded and sessions stopped only after a start that
      succeeded, if and only if every VspStart but perhaps the last call succeeded. */
  lemma SessionsStartedIff(loaded: bool, es: seq<Event>)
    ensures
      var calls := Run(loaded, INIT, es).calls;
      JudgeStarted(calls).Legal? <==> OnlyLastStartFails(calls)
  {
    hide Judge, JudgeStarted;
    CallsAlternate(loaded, es);
    TurnsAndStarts(Run(loaded, INIT, es).calls);
  }

  lemma RunOne(loaded: bool, s: Session, e: Event)
    ensures Run(loaded, s, [e]) == Step(loaded, s, e)
  {
    assert [e][..0] == [];
  }

  lemma RunTwo(loaded: bool, s: Session, d: Event, e: Event)
    ensures
      var first := Step(loaded, s, d);
      var second := Step(loaded, first.session, e);
      Run(loaded, s, [d, e]) == Outcome(second.session, first.calls + second.calls, first.left + second.left)
  {
    hide Step;
    RunOne(loaded, s, d);
    assert [d, e][..1] == [d];
  }

  /** The condition is needed: a failed start is not noticed.  The next frame is encoded
      all the same, and leaves OK without any key frame; and CancelCapture stops an
      encoder that never started. */
  lemma FailedStartUnnoticed(f: Frame, g: Frame)
    requires f.encodeType == g.encodeType == H264 && f.statusOk && g.statusOk && f.prepared && g.prepared
    requires f.startRet < 0 && g.encRet == 0 && g.encType != 0
    ensures
      var out := Run(true, INIT, [Deliver(f), Deliver(g)]);
      && out.calls == [VspStart(f.startRet), VspEnc] && JudgeStarted(out.calls) == Broken
      && out.left == [Left(H264, true, Unmarked), Left(H264, true, NonKey)]
    ensures
      var calls := Run(true, INIT, [Deliver(f), CancelCapture]).calls;
      calls == [VspStart(f.startRet), VspStop] && JudgeStarted(calls) == Broken
  {
    RunTwo(true, INIT, Deliver(f), Deliver(g));
    RunTwo(true, INIT, Deliver(f), CancelCapture);
    hide Run, JudgeStarted;
    UnstartedUse(f.startRet, VspEnc);
    UnstartedUse(f.startRet, VspStop);
  }

  lemma UnstartedUse(ret: int, c: Call)
    requires ret < 0 && !c.VspStart?
    ensures JudgeStarted([VspStart(ret), c]) == Broken
  {
    assert [VspStart(ret), c][..1] == [VspStart(ret)] && [VspStart(ret)][..0] == [];
  }

  // ---------------------------------------------------------------- the first key frame

  predicate StartsIn(calls: seq<Call>) {
    exists k :: 0 <= k < |calls| && calls[k].VspStart? && calls[k].ret >= 0
  }

  predicate KeyFrameIn(left: seq<Left>) {
    exists k :: 0 <= k < |left| && left[k].mark == Key
  }

  /** What event i of the run makes of the session it finds. */
  function At(loaded: bool, es: seq<Event>, i: nat): Outcome
    requires i < |es|
  {
    Step(loaded, Run(loaded, INIT, es[..i]).session, es[i])
  }

  /** A VspStart succeeds during event i. */
  predicate Begins(loaded: bool, es: seq<Event>, i: nat)
    requires i < |es|
  {
    StartsIn(At(loaded, es, i).calls)
  }

  /** Event i is a Start or a Stop, or a key frame leaves during it. */
  predicate Settles(loaded: bool, es: seq<Event>, i: nat)
    requires i < |es|
  {
    es[i] in {Start, Stop} || KeyFrameIn(At(loaded, es, i).left)
  }

  /** A VspStart has succeeded since the latest key frame, Start or Stop. */
  ghost predicate AwaitsKeyFrame(loaded: bool, es: seq<Event>) {
    exists i :: 0 <= i < |es| && Begins(loaded, es, i) && forall j :: i <= j < |es| ==> !Settles(loaded, es, j)
  }

  lemma StepAwaits(loaded: bool, s: Session, e: Event)
    ensures
      var out := Step(loaded, s, e);
      out.session.startflag ==
        if e in {Start, Stop} || KeyFrameIn(out.left) then 0
        else if StartsIn(out.calls) then 1
        else s.startflag
  {
    var out := Step(loaded, s, e);
    assert out.left != [] && out.left[0].mark == Key ==> KeyFrameIn(out.left);
    assert out.calls != [] && out.calls[0].VspStart? && out.calls[0].ret >= 0 ==> StartsIn(out.calls);
  }

  lemma PrefixAt(loaded: bool, es: seq<Event>, e: Event, i: nat)
    requires i < |es|
    ensures At(loaded, es + [e], i) == At(loaded, es, i)
  {
    assert (es + [e])[..i] == es[..i];
  }

  lemma AwaitsSnoc(loaded: bool, es: seq<Event>, e: Event)
    ensures AwaitsKeyFrame(loaded, es + [e])
       <==> !Settles(loaded, es + [e], |es|)
            && (Begins(loaded, es + [e], |es|) || AwaitsKeyFrame(loaded, es))
  {
    hide At, StartsIn, KeyFrameIn;
    var more, n := es + [e], |es|;
    forall i | 0 <= i < n
      ensures Begins(loaded, more, i) == Begins(loaded, es, i) && Settles(loaded, more, i) == Settles(loaded, es, i)
    {
      PrefixAt(loaded, es, e, i);
    }
    if AwaitsKeyFrame(loaded, es) && !Settles(loaded, more, n) {
      var i :| 0 <= i < n && Begins(loaded, es, i) && forall j :: i <= j < n ==> !Settles(loaded, es, j);
      assert Begins(loaded, more, i);
    }
    if AwaitsKeyFrame(loaded, more) {
      var i :| 0 <= i < n + 1 && Begins(loaded, more, i) && forall j :: i <= j < n + 1 ==> !Settles(loaded, more, j);
      assert !Settles(loaded, more, n);
      if i < n {
        forall j | i <= j < n ensures !Settles(loaded, es, j) {
          assert !Settles(loaded, more, j);
        }
        assert Begins(loaded, es, i);
      }
    }
  }

  /** startflag says, in every run, whether the encoder still owes a key frame. */
  lemma {:induction false} StartflagMeans(loaded: bool, es: seq<Event>)
    ensures Run(loaded, INIT, es).session.startflag == if AwaitsKeyFrame(loaded, es) then 1 else 0
  {
    if es != [] {
      hide Step, StartsIn, KeyFrameIn, AwaitsKeyFrame;
      var n := |es| - 1;
      var front, e := es[..n], es[n];
      assert es == front + [e];
      StartflagMeans(loaded, front);
      StepAwaits(loaded, Run(loaded, INIT, front).session, e);
      AwaitsSnoc(loaded, front, e);
      assert es[..n] == front;
    }
  }

  lemma DeliveredH264(loaded: bool, s: Session, f: Frame)
    requires f.encodeType == H264 && f.statusOk
    ensures
      var out := Step(loaded, s, Deliver(f));
      && out.left == [Left(H264, out.left[0].ok, out.left[0].mark)]
      && (VspEnc in out.calls <==> loaded && f.prepared && (s.status == 0 ==> f.startRet >= 0))
      && (VspEnc in out.calls && f.encRet == 0 && f.encType != 0 ==>
            out.left[0].mark == NonKey && (out.left[0].ok <==> out.session.startflag != 1))
      && (VspEnc in out.calls && f.encRet == 0 && f.encType == 0 ==> out.left[0].mark == Key && out.left[0].ok)
      && (VspEnc in out.calls && f.encRet != 0 ==> out.left[0].mark == NonKey && !out.left[0].ok)
      && (VspEnc !in out.calls ==> out.left[0].mark == Unmarked && out.left[0].ok)
  {
    assert VspEnc in Step(loaded, s, Deliver(f)).calls <==> loaded && f.prepared && (s.status == 0 ==> f.startRet >= 0);
  }

  /** The encoder is called for a frame: it is loaded, the frame is ready for it, and a
      session is open or VspStart succeeds. */
  predicate ReachesEncoder(loaded: bool, s: Session, f: Frame) {
    loaded && f.prepared && (s.status == 0 ==> f.startRet >= 0)
  }

  /** In every run, an H264 frame leaves OK if and only if the encoder is never called
      for it, or returns it as a key frame, or returns it as a non-key frame while no
      VspStart has succeeded since the latest key frame, Start or Stop. */
  lemma FrameLeavesOkIff(loaded: bool, es: seq<Event>, f: Frame)
    requires f.encodeType == H264 && f.statusOk
    ensures
      var before, more := Run(loaded, INIT, es), es + [Deliver(f)];
      var left := Run(loaded, INIT, more).left;
      && |left| == |before.left| + 1 && left[..|before.left|] == before.left
      && (left[|before.left|].ok <==>
            || !ReachesEncoder(loaded, before.session, f)
            || (f.encRet == 0 && (f.encType == 0 || !AwaitsKeyFrame(loaded, more))))
      && left[|before.left|].encodeType == H264
      && left[|before.left|].mark == (if !ReachesEncoder(loaded, before.session, f) then Unmarked
                                      else if f.encRet == 0 && f.encType == 0 then Key else NonKey)
  {
    hide Step, AwaitsKeyFrame;
    var more := es + [Deliver(f)];
    assert more[..|es|] == es;
    StartflagMeans(loaded, more);
    DeliveredH264(loaded, Run(loaded, INIT, es).session, f);
  }
}
