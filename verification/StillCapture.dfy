/** Still capture by several delivering threads.  The test of `stillcaptureok_`, the
JPEG encoding and the update happen under one mutex, but the buffer is passed on to
the next node after the mutex is released. */
module StillCapture {
  import opened CodecSession

  type Tid = nat

  datatype Label =
    | Encode(t: Tid, f: Frame)   // DeliverBuffer up to the release of stillcaptureMutex_
    | Forward(t: Tid)            // NodeBase::DeliverBuffer on the same thread
    | Reset(e: Event)            // Start, Stop or CancelCapture

  datatype LogMark = Encoded(ok: bool) | Forwarded(ok: bool) | WasReset

  /** `held` maps a thread between its two steps to the status of its buffer. */
  datatype State = State(session: Session, held: map<Tid, bool>, log: seq<LogMark>)

  predicate Enabled(s: State, l: Label) {
    match l
    case Encode(t, f) => t !in s.held && f.encodeType == Jpeg && f.statusOk
    case Forward(t) => t in s.held
    case Reset(e) => e in {Start, Stop, CancelCapture}
  }

  function Do(loaded: bool, s: State, l: Label): State
    requires Enabled(s, l)
  {
    match l
    case Encode(t, f) =>
      var out := Step(loaded, s.session, Deliver(f));
      State(out.session, s.held[t := out.left[0].ok], s.log + [Encoded(out.left[0].ok)])
    case Forward(t) => State(s.session, s.held - {t}, s.log + [Forwarded(s.held[t])])
    case Reset(e) => State(Step(loaded, s.session, e).session, s.held, s.log + [WasReset])
  }

  predicate ResetAfter(log: seq<LogMark>, i: nat) {
    exists k :: i < k < |log| && log[k] == WasReset
  }

  /** Between any two occurrences of the mark lies a reset. */
  ghost predicate Separated(log: seq<LogMark>, m: LogMark) {
    forall i, j :: 0 <= i < j < |log| && log[i] == m && log[j] == m ==> ResetAfter(log[..j], i)
  }

  /** No occurrence of the mark since the last reset. */
  ghost predicate Cleared(log: seq<LogMark>, m: LogMark) {
    forall j :: 0 <= j < |log| && log[j] == m ==> ResetAfter(log, j)
  }

  ghost predicate Inv(s: State) {
    && s.session.stillcaptureok in {0, 1}
    && Separated(s.log, Encoded(true))
    && (s.session.stillcaptureok == 0 ==> Cleared(s.log, Encoded(true)))
  }

  lemma ResetAfterSnoc(log: seq<LogMark>, m: LogMark, i: nat)
    requires ResetAfter(log, i) || (m == WasReset && i < |log|)
    ensures ResetAfter(log + [m], i)
  {
    if ResetAfter(log, i) {
      var k :| i < k < |log| && log[k] == WasReset;
      assert (log + [m])[k] == WasReset;
    } else {
      assert (log + [m])[|log|] == WasReset;
    }
  }

  /** What one step does to the flag and the log. */
  lemma StepShape(loaded: bool, s: State, l: Label)
    requires Enabled(s, l) && s.session.stillcaptureok in {0, 1}
    ensures
      var s' := Do(loaded, s, l);
      && |s'.log| == |s.log| + 1 && s'.log[..|s.log|] == s.log
      && s'.session.stillcaptureok in {0, 1}
      && (l.Reset? ==> s'.log[|s.log|] == WasReset)
      && (!l.Reset? ==>
            s'.session.stillcaptureok == (if s'.log[|s.log|] == Encoded(true) then 1 else s.session.stillcaptureok))
      && (s'.log[|s.log|] == Encoded(true) ==> s.session.stillcaptureok == 0)
  {
  }

  lemma SeparatedSnoc(log: seq<LogMark>, m: LogMark, x: LogMark)
    requires Separated(log, m) && (x == m ==> Cleared(log, m))
    ensures Separated(log + [x], m)
  {
    var more := log + [x];
    forall i, j | 0 <= i < j < |more| && more[i] == m && more[j] == m
      ensures ResetAfter(more[..j], i)
    {
      assert more[..j] == log[..j];
      assert log[..|log|] == log;
    }
  }

  lemma ClearedSnoc(log: seq<LogMark>, m: LogMark, x: LogMark)
    requires m != WasReset && x != m && (Cleared(log, m) || x == WasReset)
    ensures Cleared(log + [x], m)
  {
    forall j | 0 <= j < |log + [x]| && (log + [x])[j] == m ensures ResetAfter(log + [x], j) {
      ResetAfterSnoc(log, x, j);
    }
  }

  lemma StepKeepsInv(loaded: bool, s: State, l: Label)
    requires Inv(s) && Enabled(s, l)
    ensures Inv(Do(loaded, s, l))
  {
    StepShape(loaded, s, l);
    var s' := Do(loaded, s, l);
    var x := s'.log[|s.log|];
    hide Do, Separated, Cleared, ResetAfter;
    assert s'.log == s.log + [x];
    SeparatedSnoc(s.log, Encoded(true), x);
    if s'.session.stillcaptureok == 0 {
      ClearedSnoc(s.log, Encoded(true), x);
    }
  }

  ghost predicate Runs(loaded: bool, s: State, ls: seq<Label>, last: State)
    decreases |ls|
  {
    if ls == [] then last == s
    else Enabled(s, ls[0]) && Runs(loaded, Do(loaded, s, ls[0]), ls[1..], last)
  }

  lemma {:induction false} RunsKeepInv(loaded: bool, s: State, ls: seq<Label>, last: State)
    requires Inv(s) && Runs(loaded, s, ls, last)
    ensures Inv(last)
    decreases |ls|
  {
    if ls != [] {
      StepKeepsInv(loaded, s, ls[0]);
      RunsKeepInv(loaded, Do(loaded, s, ls[0]), ls[1..], last);
    }
  }

  /** In every interleaving of delivering threads and resets, two successful JPEG
      encodings have a reset between them. */
  lemma OneEncodedBetweenResets(loaded: bool, ls: seq<Label>, last: State)
    requires Runs(loaded, State(INIT, map[], []), ls, last)
    ensures Separated(last.log, Encoded(true))
  {
    RunsKeepInv(loaded, State(INIT, map[], []), ls, last);
  }

  // ---------------------------------------------------------------- leaving the node

  /** No thread holds an encoded picture it has yet to forward. */
  predicate NoneHeld(s: State) {
    forall t :: t in s.held ==> !s.held[t]
  }

  /** Resets come only when no encoded picture is waiting to be forwarded. */
  ghost predicate ResetsWait(loaded: bool, s: State, ls: seq<Label>)
    decreases |ls|
  {
    ls != [] && Enabled(s, ls[0]) ==>
      (ls[0].Reset? ==> NoneHeld(s)) && ResetsWait(loaded, Do(loaded, s, ls[0]), ls[1..])
  }

  ghost predicate ForwardInv(s: State) {
    && s.session.stillcaptureok in {0, 1}
    && (forall t, u :: t in s.held && u in s.held && s.held[t] && s.held[u] ==> t == u)
    && (s.session.stillcaptureok == 0 ==> NoneHeld(s))
    && Separated(s.log, Forwarded(true))
    && (s.session.stillcaptureok == 0 || !NoneHeld(s) ==> Cleared(s.log, Forwarded(true)))
  }

  lemma StepKeepsForwardInv(loaded: bool, s: State, l: Label)
    requires ForwardInv(s) && Enabled(s, l) && (l.Reset? ==> NoneHeld(s))
    ensures ForwardInv(Do(loaded, s, l))
  {
    StepShape(loaded, s, l);
    var s' := Do(loaded, s, l);
    var x := s'.log[|s.log|];
    hide Separated, Cleared, ResetAfter;
    assert s'.log == s.log + [x];
    SeparatedSnoc(s.log, Forwarded(true), x);
    if s'.session.stillcaptureok == 0 || !NoneHeld(s') {
      ClearedSnoc(s.log, Forwarded(true), x);
    }
  }

  lemma {:induction false} RunsKeepForwardInv(loaded: bool, s: State, ls: seq<Label>, last: State)
    requires ForwardInv(s) && Runs(loaded, s, ls, last) && ResetsWait(loaded, s, ls)
    ensures ForwardInv(last)
    decreases |ls|
  {
    if ls != [] {
      StepKeepsForwardInv(loaded, s, ls[0]);
      RunsKeepForwardInv(loaded, Do(loaded, s, ls[0]), ls[1..], last);
    }
  }

  /** Two pictures that left the node OK have a reset between them in every run whose
      resets wait for encoded pictures to be forwarded. */
  lemma OneForwardedBetweenResets(loaded: bool, ls: seq<Label>, last: State)
    requires Runs(loaded, State(INIT, map[], []), ls, last) && ResetsWait(loaded, State(INIT, map[], []), ls)
    ensures Separated(last.log, Forwarded(true))
  {
    RunsKeepForwardInv(loaded, State(INIT, map[], []), ls, last);
  }

  /** Resets have to wait: whenever one comes while thread t still holds an encoded
      picture, another thread can make two pictures leave OK with no reset between. */
  lemma ResetWhileHeld(loaded: bool, s: State, e: Event, t: Tid, u: Tid, f: Frame) returns (last: State)
    requires t in s.held && s.held[t] && u !in s.held && e in {Start, Stop, CancelCapture}
    requires f.encodeType == Jpeg && f.statusOk && f.jpegOk
    ensures Runs(loaded, s, [Reset(e), Encode(u, f), Forward(t), Forward(u)], last)
    ensures last.log == s.log + [WasReset, Encoded(true), Forwarded(true), Forwarded(true)]
    ensures !Separated(last.log, Forwarded(true))
  {
    var s1 := Do(loaded, s, Reset(e));
    var s2 := Do(loaded, s1, Encode(u, f));
    var s3 := Do(loaded, s2, Forward(t));
    last := Do(loaded, s3, Forward(u));
    var ls := [Reset(e), Encode(u, f), Forward(t), Forward(u)];
    assert ls[1..] == [Encode(u, f), Forward(t), Forward(u)];
    assert ls[1..][1..] == [Forward(t), Forward(u)];
    assert ls[1..][1..][1..] == [Forward(u)];
    assert Runs(loaded, s3, [Forward(u)], last);
    assert Runs(loaded, s2, [Forward(t), Forward(u)], last);
    assert Runs(loaded, s1, ls[1..], last);
    var n := |s.log|;
    assert last.log[n + 2] == last.log[n + 3] == Forwarded(true);
    assert !ResetAfter(last.log[..n + 3], n + 2);
  }

  lemma {:induction false} WithoutResets(loaded: bool, s: State, ls: seq<Label>)
    requires forall k :: 0 <= k < |ls| ==> !ls[k].Reset?
    ensures ResetsWait(loaded, s, ls)
    decreases |ls|
  {
    if ls != [] && Enabled(s, ls[0]) {
      WithoutResets(loaded, Do(loaded, s, ls[0]), ls[1..]);
    }
  }

  lemma {:induction false} FreeThread(held: map<Tid, bool>) returns (u: Tid)
    ensures forall t :: t in held ==> t < u
    decreases |held|
  {
    if held == map[] {
      u := 0;
    } else {
      var t :| t in held;
      assert (held - {t}).Keys == held.Keys - {t};
      assert |(held - {t}).Keys| < |held.Keys|;
      var v := FreeThread(held - {t});
      u := if v > t then v else t + 1;
      forall x | x in held ensures x < u {
        assert x != t ==> x in held - {t};
      }
    }
  }

  ghost predicate AlwaysSeparated(loaded: bool, s: State) {
    forall ls, last :: Runs(loaded, s, ls, last) && ResetsWait(loaded, s, ls) ==> Separated(last.log, Forwarded(true))
  }

  /** Exactly when a reset may come: in every state that resets so far have waited for,
      the reset leaves every continuation whose resets wait with a reset between any two
      pictures that leave OK, if and only if no encoded picture is being held. */
  lemma ResetSafeIffNoneHeld(loaded: bool, ls: seq<Label>, s: State, e: Event)
    requires Runs(loaded, State(INIT, map[], []), ls, s) && ResetsWait(loaded, State(INIT, map[], []), ls)
    requires e in {Start, Stop, CancelCapture}
    ensures AlwaysSeparated(loaded, Do(loaded, s, Reset(e))) <==> NoneHeld(s)
  {
    RunsKeepForwardInv(loaded, State(INIT, map[], []), ls, s);
    var s1 := Do(loaded, s, Reset(e));
    hide ForwardInv, Separated, Runs, ResetsWait;
    if NoneHeld(s) {
      StepKeepsForwardInv(loaded, s, Reset(e));
      forall more, last | Runs(loaded, s1, more, last) && ResetsWait(loaded, s1, more)
        ensures Separated(last.log, Forwarded(true))
      {
        RunsKeepForwardInv(loaded, s1, more, last);
        ForwardedSeparated(last);
      }
    } else {
      var t :| t in s.held && s.held[t];
      var u := FreeThread(s.held);
      var f := Frame(Jpeg, true, true, 0, 0, 0, true);
      var last := ResetWhileHeld(loaded, s, e, t, u, f);
      RunsTail(loaded, s, [Reset(e), Encode(u, f), Forward(t), Forward(u)], last);
      assert [Reset(e), Encode(u, f), Forward(t), Forward(u)][1..] == [Encode(u, f), Forward(t), Forward(u)];
      WithoutResets(loaded, s1, [Encode(u, f), Forward(t), Forward(u)]);
    }
  }

  lemma ForwardedSeparated(s: State)
    requires ForwardInv(s)
    ensures Separated(s.log, Forwarded(true))
  {
  }

  lemma RunsTail(loaded: bool, s: State, ls: seq<Label>, last: State)
    requires ls != [] && Runs(loaded, s, ls, last)
    ensures Enabled(s, ls[0]) && Runs(loaded, Do(loaded, s, ls[0]), ls[1..], last)
  {
  }

  /** Such a moment is one step away from the start: a thread that has encoded a picture
      and has yet to pass it on. */
  lemma HeldAfterEncoding(loaded: bool, t: Tid, f: Frame) returns (s: State)
    requires f.encodeType == Jpeg && f.statusOk && f.jpegOk
    ensures Runs(loaded, State(INIT, map[], []), [Encode(t, f)], s)
    ensures ResetsWait(loaded, State(INIT, map[], []), [Encode(t, f)])
    ensures t in s.held && s.held[t] && !NoneHeld(s)
  {
    var start := State(INIT, map[], []);
    s := Do(loaded, start, Encode(t, f));
    assert [Encode(t, f)][1..] == [];
    assert Runs(loaded, s, [], s);
    WithoutResets(loaded, start, [Encode(t, f)]);
  }

  // ---------------------------------------------------------------- nothing lost on the way

  function CountOf(log: seq<LogMark>, m: LogMark): nat {
    if log == [] then 0 else CountOf(log[..|log| - 1], m) + (if log[|log| - 1] == m then 1 else 0)
  }

  ghost function HeldAs(held: map<Tid, bool>, ok: bool): set<Tid> {
    set t | t in held && held[t] == ok
  }

  ghost predicate Balanced(s: State, ok: bool) {
    CountOf(s.log, Encoded(ok)) == CountOf(s.log, Forwarded(ok)) + |HeldAs(s.held, ok)|
  }

  lemma CountSnoc(log: seq<LogMark>, x: LogMark, m: LogMark)
    ensures CountOf(log + [x], m) == CountOf(log, m) + (if x == m then 1 else 0)
  {
    assert (log + [x])[..|log|] == log;
  }

  lemma HeldPut(held: map<Tid, bool>, t: Tid, b: bool, ok: bool)
    requires t !in held
    ensures |HeldAs(held[t := b], ok)| == |HeldAs(held, ok)| + (if b == ok then 1 else 0)
  {
    assert HeldAs(held[t := b], ok) == if b == ok then HeldAs(held, ok) + {t} else HeldAs(held, ok);
  }

  lemma HeldDrop(held: map<Tid, bool>, t: Tid, ok: bool)
    requires t in held
    ensures |HeldAs(held - {t}, ok)| == |HeldAs(held, ok)| - (if held[t] == ok then 1 else 0)
  {
    assert HeldAs(held - {t}, ok) == HeldAs(held, ok) - {t};
  }

  lemma StepKeepsBalance(loaded: bool, s: State, l: Label, ok: bool)
    requires Balanced(s, ok) && Enabled(s, l)
    ensures Balanced(Do(loaded, s, l), ok)
  {
    hide CountOf, HeldAs, Step;
    match l {
      case Encode(t, f) =>
        var was := Do(loaded, s, l).held[t];
        HeldPut(s.held, t, was, ok);
        CountSnoc(s.log, Encoded(was), Encoded(ok));
        CountSnoc(s.log, Encoded(was), Forwarded(ok));
      case Forward(t) =>
        HeldDrop(s.held, t, ok);
        CountSnoc(s.log, Forwarded(s.held[t]), Encoded(ok));
        CountSnoc(s.log, Forwarded(s.held[t]), Forwarded(ok));
      case Reset(_) =>
        CountSnoc(s.log, WasReset, Encoded(ok));
        CountSnoc(s.log, WasReset, Forwarded(ok));
    }
  }

  lemma {:induction false} RunsKeepBalance(loaded: bool, s: State, ls: seq<Label>, last: State, ok: bool)
    requires Balanced(s, ok) && Runs(loaded, s, ls, last)
    ensures Balanced(last, ok)
    decreases |ls|
  {
    hide Balanced, Do;
    if ls != [] {
      StepKeepsBalance(loaded, s, ls[0], ok);
      RunsKeepBalance(loaded, Do(loaded, s, ls[0]), ls[1..], last, ok);
    }
  }

  /** In every interleaving, pictures encoded with a status, and those alone, are forwarded
      with it: as many as were encoded, less those still held. */
  lemma EncodedAreForwarded(loaded: bool, ls: seq<Label>, s: State, ok: bool)
    requires Runs(loaded, State(INIT, map[], []), ls, s)
    ensures CountOf(s.log, Encoded(ok)) == CountOf(s.log, Forwarded(ok)) + |HeldAs(s.held, ok)|
  {
    assert HeldAs(map[], ok) == {};
    RunsKeepBalance(loaded, State(INIT, map[], []), ls, s, ok);
  }

  /** A thread that has forwarded its picture can encode the next, and one that holds a
      picture can forward it, whatever the others do. */
  lemma ThreadsGoOn(loaded: bool, s: State, t: Tid, f: Frame)
    requires f.encodeType == Jpeg && f.statusOk
    ensures t in s.held ==>
      Enabled(s, Forward(t)) && Enabled(Do(loaded, s, Forward(t)), Encode(t, f))
    ensures t !in s.held ==>
      Enabled(s, Encode(t, f)) && Enabled(Do(loaded, s, Encode(t, f)), Forward(t))
  {
  }
}
