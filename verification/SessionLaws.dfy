/** What each field of the session means over every run, and exactly what each event calls
and passes on. */
module SessionLaws {
  import opened CodecSession

  // ---------------------------------------------------------------- still capture

  predicate IsReset(e: Event) {
    e == Start || e == Stop || e == CancelCapture
  }

  /** A JPEG frame leaves OK during event i. */
  predicate Captures(loaded: bool, es: seq<Event>, i: nat)
    requires i < |es|
  {
    es[i].Deliver? && es[i].frame.encodeType == Jpeg && At(loaded, es, i).left == [Left(Jpeg, true, Unmarked)]
  }

  /** A still picture has left OK since the latest reset. */
  ghost predicate StillDone(loaded: bool, es: seq<Event>) {
    exists i :: 0 <= i < |es| && Captures(loaded, es, i) && forall j :: i < j < |es| ==> !IsReset(es[j])
  }

  lemma StepStill(loaded: bool, s: Session, e: Event)
    requires s.stillcaptureok in {0, 1}
    ensures
      var out := Step(loaded, s, e);
      out.session.stillcaptureok ==
        if IsReset(e) then 0
        else if e.Deliver? && e.frame.encodeType == Jpeg && out.left == [Left(Jpeg, true, Unmarked)] then 1
        else s.stillcaptureok
  {
  }

  lemma StillDoneSnoc(loaded: bool, es: seq<Event>, e: Event)
    ensures StillDone(loaded, es + [e]) <==> Captures(loaded, es + [e], |es|) || (!IsReset(e) && StillDone(loaded, es))
  {
    hide At;
    var more, n := es + [e], |es|;
    forall i | 0 <= i < n ensures Captures(loaded, more, i) == Captures(loaded, es, i) {
      PrefixAt(loaded, es, e, i);
    }
    if StillDone(loaded, es) && !IsReset(e) {
      var i :| 0 <= i < n && Captures(loaded, es, i) && forall j :: i < j < n ==> !IsReset(es[j]);
      assert Captures(loaded, more, i);
    }
    if StillDone(loaded, more) {
      var i :| 0 <= i < n + 1 && Captures(loaded, more, i) && forall j :: i < j < n + 1 ==> !IsReset(more[j]);
      if i < n {
        assert Captures(loaded, es, i);
        assert !IsReset(more[n]);
        forall j | i < j < n ensures !IsReset(es[j]) {
          assert !IsReset(more[j]);
        }
      }
    }
  }

  /** stillcaptureok_ says, in every run, whether a still picture has left since the latest
      Start, Stop or CancelCapture. */
  lemma {:induction false} StillFlagMeans(loaded: bool, es: seq<Event>)
    ensures Run(loaded, INIT, es).session.stillcaptureok == if StillDone(loaded, es) then 1 else 0
  {
    if es != [] {
      hide Step, StillDone, IsReset;
      var n := |es| - 1;
      var front, e := es[..n], es[n];
      assert es == front + [e];
      StillFlagMeans(loaded, front);
      StepStill(loaded, Run(loaded, INIT, front).session, e);
      StillDoneSnoc(loaded, front, e);
    }
  }

  /** In every run, a JPEG frame leaves OK if and only if it is encoded and no still picture
      has left since the latest reset. */
  lemma StillLeavesOkIff(loaded: bool, es: seq<Event>, f: Frame)
    requires f.encodeType == Jpeg && f.statusOk
    ensures
      var before := Run(loaded, INIT, es);
      Run(loaded, INIT, es + [Deliver(f)]).left
        == before.left + [Left(Jpeg, f.jpegOk && !StillDone(loaded, es), Unmarked)]
  {
    hide StillDone;
    assert (es + [Deliver(f)])[..|es|] == es;
    StillFlagMeans(loaded, es);
  }

  // ---------------------------------------------------------------- what events call and pass on

  /** Frames that came in invalid, and frames that are not encoded, are passed on as they
      are, and nothing else happens.  Still pictures touch no part of the video session. */
  lemma PassedOn(loaded: bool, s: Session, f: Frame)
    ensures !f.statusOk ==> Step(loaded, s, Deliver(f)) == Outcome(s, [], [Left(f.encodeType, false, Unmarked)])
    ensures f.statusOk && f.encodeType == Raw ==>
      Step(loaded, s, Deliver(f)) == Outcome(s, [], [Left(Raw, true, Unmarked)])
    ensures f.encodeType == Jpeg ==>
      var out := Step(loaded, s, Deliver(f));
      out.calls == [] && out.session.(stillcaptureok := s.stillcaptureok) == s
  {
  }

  /** VspStart is called for a frame exactly where no session is open, and VspEnc exactly
      where one is, or its start has just succeeded. */
  lemma CallsForFrame(loaded: bool, es: seq<Event>, f: Frame)
    requires f.encodeType == H264 && f.statusOk
    ensures
      var before := Run(loaded, INIT, es);
      var made := Step(loaded, before.session, Deliver(f)).calls;
      && (VspStart(f.startRet) in made <==> loaded && f.prepared && Judge(before.calls) == Legal(false))
      && (VspEnc in made <==> loaded && f.prepared && (Judge(before.calls) == Legal(false) ==> f.startRet >= 0))
      && VspStop !in made && |made| <= 2 && (|made| == 2 ==> made == [VspStart(f.startRet), VspEnc])
      && (forall c :: c in made ==> c == VspStart(f.startRet) || c == VspEnc)
  {
    hide Judge;
    CallsAlternate(loaded, es);
    RunInv(loaded, es);
    hide Run;
    FrameCalls(loaded, Run(loaded, INIT, es).session, f);
  }

  lemma FrameCalls(loaded: bool, s: Session, f: Frame)
    requires f.encodeType == H264 && f.statusOk
    ensures Step(loaded, s, Deliver(f)).calls ==
      if !loaded || !f.prepared then []
      else if s.status != 0 then [VspEnc]
      else if f.startRet < 0 then [VspStart(f.startRet)]
      else [VspStart(f.startRet), VspEnc]
  {
  }

  /** Start and Stop call nothing, pass nothing on, and leave the video session open if it
      was.  CancelCapture leaves startflag as it is. */
  lemma ResetsElsewhere(loaded: bool, s: Session, e: Event)
    requires IsReset(e)
    ensures
      var out := Step(loaded, s, e);
      && out.left == []
      && (e != CancelCapture ==>
            out.calls == [] && out.session.status == s.status && out.session.nodestatus == s.nodestatus)
      && (e == CancelCapture ==> out.session.startflag == s.startflag)
  {
  }

  // ---------------------------------------------------------------- nodestatus

  predicate IsVideo(e: Event) {
    e.Deliver? && e.frame.encodeType == H264 && e.frame.statusOk
  }

  /** nodestatus says, in every run, whether an H264 frame has come since the latest
      CancelCapture. */
  lemma {:induction false} NodestatusMeans(loaded: bool, es: seq<Event>)
    ensures Run(loaded, INIT, es).session.nodestatus in {0, 1}
    ensures Run(loaded, INIT, es).session.nodestatus == 1
       <==> exists i :: 0 <= i < |es| && IsVideo(es[i]) && forall j :: i < j < |es| ==> es[j] != CancelCapture
  {
    if es != [] {
      hide Step;
      var n := |es| - 1;
      var front, e := es[..n], es[n];
      NodestatusMeans(loaded, front);
      StepNodestatus(loaded, Run(loaded, INIT, front).session, e);
      if exists i :: 0 <= i < n && IsVideo(front[i]) && forall j :: i < j < n ==> front[j] != CancelCapture {
        var i :| 0 <= i < n && IsVideo(front[i]) && forall j :: i < j < n ==> front[j] != CancelCapture;
        assert IsVideo(es[i]);
        assert forall j :: i < j < n ==> es[j] == front[j];
      }
      if exists i :: 0 <= i < n + 1 && IsVideo(es[i]) && forall j :: i < j < n + 1 ==> es[j] != CancelCapture {
        var i :| 0 <= i < n + 1 && IsVideo(es[i]) && forall j :: i < j < n + 1 ==> es[j] != CancelCapture;
        if i < n {
          assert IsVideo(front[i]) && es[n] != CancelCapture;
          assert forall j :: i < j < n ==> front[j] == es[j];
        }
      }
    }
  }

  lemma StepNodestatus(loaded: bool, s: Session, e: Event)
    requires s.nodestatus in {0, 1}
    ensures Step(loaded, s, e).session.nodestatus ==
      if IsVideo(e) then 1 else if e == CancelCapture then 0 else s.nodestatus
  {
  }
}
