/** The scene machine of the render side: which audio scene is current, and when the
call-capture PCM is open.  Everything the sound library and the kernel decide is an
input; what the library and the card helpers make of the card is arbitrary. */
module RenderScene {

  /** AudioCategory: the two values the code singles out, and the rest. */
  datatype Scene = InCall | MmapNoirq | Other(category: int)

  /** The card's handles (open or null) and its cardStatus. */
  datatype Card = Card(pcmHandle: bool, mixerHandle: bool, cardStatus: int)

  /** snd_pcm_open and snd_pcm_close on the capture device. */
  datatype CaptureCall = CaptureOpened | CaptureClosed

  datatype State = State(currentScene: Scene, captureHandle: bool, card: Card, calls: seq<CaptureCall>)

  /** What the calls made during one event reply: whether each step succeeds, what
      SndisBusy says each time, and the card that ReOpenPcmAndSetParams leaves. */
  datatype Replies = Replies(busy: bool, busyAgain: bool, muteOff: bool, muteOn: bool, reopen: bool, reopened: Card,
                             captureOpen: bool, captureParams: bool, pcmStart: bool, captureStart: bool,
                             route: bool, device: bool)

  datatype Event = SelectScene(scene: Scene, r: Replies) | RenderStart(r: Replies) | RenderStop

  datatype Result = Result(s: State, ok: bool)

  // ---------------------------------------------------------------- one event

  /** The select enters or leaves a call, or the current scene is MMAP_NOIRQ, as it is at
      first and after that scene has been selected. */
  predicate IsChange(current: Scene, scene: Scene) {
    current.InCall? != scene.InCall? || current.MmapNoirq?
  }

  function CloseCard(card: Card): Card {
    var status := if card.cardStatus > 0 then card.cardStatus - 1 else card.cardStatus;
    if status == 0 then Card(false, false, 0) else card.(cardStatus := status)
  }

  function Close(s: State): State {
    s.(card := CloseCard(s.card), captureHandle := false,
       calls := if s.captureHandle then s.calls + [CaptureClosed] else s.calls)
  }

  function Start(s: State, r: Replies, busy: bool): Result {
    if s.currentScene.InCall? then
      Result(s, s.card.pcmHandle && s.captureHandle && r.pcmStart && r.captureStart && r.route && r.device)
    else if busy then Result(s, true)
    else Result(s.(card := r.reopened), r.reopen)
  }

  /** Whether a change into a call gets as far as opening the capture device. */
  predicate OpensCapture(r: Replies) {
    !r.busy && r.muteOff && r.reopen && r.captureOpen
  }

  function Change(s: State, scene: Scene, r: Replies): Result {
    var closed := Close(s);
    if r.busy then Result(closed, true)
    else
      var entered := closed.(currentScene := scene);
      if !scene.InCall? then Result(Start(entered, r, r.busyAgain).s, true)
      else if !r.muteOff then Result(entered, false)
      else
        var reopened := entered.(card := r.reopened);
        if OpensCapture(r) then
          Result(reopened.(captureHandle := true, calls := closed.calls + [CaptureOpened]), r.captureParams && r.muteOn)
        else Result(reopened, false)
  }

  function Select(s: State, scene: Scene, r: Replies): Result {
    if !IsChange(s.currentScene, scene) then
      Result(s.(currentScene := scene), scene.InCall? ==> r.route && r.device)
    else if s.currentScene.MmapNoirq? then
      Result(if r.route then s.(currentScene := scene) else s, r.route)
    else Change(s, scene, r)
  }

  function Stop(s: State): Result {
    if s.currentScene.InCall? then Result(s, true)
    else if !s.card.pcmHandle then Result(s, false)
    else Result(Close(s), true)
  }

  function Step(s: State, e: Event): Result {
    match e
    case SelectScene(scene, r) => Select(s, scene, r)
    case RenderStart(r) => Start(s, r, r.busy)
    case RenderStop => Stop(s)
  }

  function Run(s: State, es: seq<Event>): State {
    if es == [] then s else Step(Run(s, es[..|es| - 1]), es[|es| - 1]).s
  }

  /** Before any event: no capture, and a card in whatever state. */
  predicate Initial(s: State) {
    s.currentScene == MmapNoirq && !s.captureHandle && s.calls == []
  }

  // ---------------------------------------------------------------- over every run

  /** Opens and closes of the capture device strictly alternate, beginning with an open. */
  ghost predicate Alternate(calls: seq<CaptureCall>) {
    forall i :: 0 <= i < |calls| ==> calls[i] == if i % 2 == 0 then CaptureOpened else CaptureClosed
  }

  ghost predicate Inv(s: State) {
    && (s.captureHandle ==> s.currentScene == InCall)
    && Alternate(s.calls)
    && (s.captureHandle <==> |s.calls| % 2 == 1)
  }

  lemma StepKeepsInv(s: State, e: Event)
    requires Inv(s)
    ensures Inv(Step(s, e).s)
  {
  }

  /** In every run of selects, starts and stops, whatever fails: the capture handle is
      open only in a call, and is never opened over an open one nor closed twice. */
  lemma {:induction false} RunKeepsInv(s: State, es: seq<Event>)
    requires Initial(s)
    ensures Inv(Run(s, es))
  {
    if es != [] {
      RunKeepsInv(s, es[..|es| - 1]);
      StepKeepsInv(Run(s, es[..|es| - 1]), es[|es| - 1]);
    }
  }

  function Count(calls: seq<CaptureCall>, c: CaptureCall): nat {
    if calls == [] then 0 else Count(calls[..|calls| - 1], c) + (if calls[|calls| - 1] == c then 1 else 0)
  }

  lemma {:induction false} AlternateCount(calls: seq<CaptureCall>)
    requires Alternate(calls)
    ensures Count(calls, CaptureOpened) == Count(calls, CaptureClosed) + |calls| % 2
  {
    if calls != [] {
      AlternateCount(calls[..|calls| - 1]);
    }
  }

  /** Opens minus closes is 1 exactly while the handle is not null, and 0 otherwise. */
  lemma OpensMinusCloses(s: State, es: seq<Event>)
    requires Initial(s)
    ensures
      var t := Run(s, es);
      Count(t.calls, CaptureOpened) - Count(t.calls, CaptureClosed) == if t.captureHandle then 1 else 0
  {
    RunKeepsInv(s, es);
    AlternateCount(Run(s, es).calls);
  }

  /** After any run, the next event leaves the handle open if and only if it was open
      and stays, or this event is a select of the call from an ordinary scene whose
      steps succeed up to opening the device. */
  lemma OpenAfterIff(s: State, es: seq<Event>, e: Event)
    requires Initial(s)
    ensures
      var before := Run(s, es);
      Step(before, e).s.captureHandle <==>
        if before.captureHandle then e.SelectScene? ==> e.scene.InCall?
        else e.SelectScene? && e.scene.InCall? && before.currentScene.Other? && OpensCapture(e.r)
  {
    RunKeepsInv(s, es);
  }

  /** What a change means for the devices: a select may open or close something only if
      it enters or leaves a call; any other only sets the scene, which then is no less
      right for the capture handle than before. */
  lemma DevicesOnlyChangeWithCall(s: State, es: seq<Event>, scene: Scene, r: Replies)
    requires Initial(s)
    ensures
      var before := Run(s, es);
      var after := Step(before, SelectScene(scene, r)).s;
      && (!IsChange(before.currentScene, scene) ==>
            after == before.(currentScene := scene) && (after.captureHandle ==> scene.InCall?))
      && (after.card != before.card || after.calls != before.calls ==>
            before.currentScene.InCall? != scene.InCall? && !before.currentScene.MmapNoirq?)
      && (before.captureHandle && !scene.InCall? ==> !after.captureHandle)
  {
    RunKeepsInv(s, es);
  }

  predicate StaysInCall(es: seq<Event>) {
    forall i :: 0 <= i < |es| ==> es[i].SelectScene? ==> es[i].scene.InCall?
  }

  /** A call whose capture is not open stays without it, and every start in it fails,
      until another scene is selected: selecting the call again does not help. */
  lemma {:induction false} CallWithoutCapture(s: State, es: seq<Event>, r: Replies)
    requires s.currentScene == InCall && !s.captureHandle && StaysInCall(es)
    ensures var t := Run(s, es); t.currentScene == InCall && !t.captureHandle && t.calls == s.calls
    ensures !Step(Run(s, es), RenderStart(r)).ok
  {
    if es != [] {
      CallWithoutCapture(s, es[..|es| - 1], r);
    }
  }

  /** That is where selecting a call leads whenever the current scene is MMAP_NOIRQ, as it
      is at first: it never opens the capture device, so until another scene is selected
      no start succeeds. */
  lemma CallFromMmapNoirq(s: State, done: seq<Event>, select: Replies, es: seq<Event>, r: Replies)
    requires Initial(s) && Run(s, done).currentScene == MmapNoirq
    requires select.route && StaysInCall(es)
    ensures
      var before := Run(s, done);
      var entered := Step(before, SelectScene(InCall, select));
      && entered.ok && !Step(Run(entered.s, es), RenderStart(r)).ok
      && Run(entered.s, es).calls == before.calls && !Run(entered.s, es).captureHandle
  {
    RunKeepsInv(s, done);
    CallWithoutCapture(Step(Run(s, done), SelectScene(InCall, select)).s, es, r);
  }

  /** MMAP_NOIRQ is not only the scene at first: it can be selected again, from any scene. */
  lemma MmapNoirqSelectable(s: State, r: Replies)
    requires !r.busy && r.route
    ensures Step(s, SelectScene(MmapNoirq, r)).s.currentScene == MmapNoirq && Step(s, SelectScene(MmapNoirq, r)).ok
  {
  }

  /** A start in a call succeeds only with the capture device open. */
  lemma StartInCall(s: State, es: seq<Event>, r: Replies)
    requires Initial(s) && Run(s, es).currentScene == InCall && Step(Run(s, es), RenderStart(r)).ok
    ensures Run(s, es).captureHandle
    ensures Count(Run(s, es).calls, CaptureOpened) == Count(Run(s, es).calls, CaptureClosed) + 1
  {
    OpensMinusCloses(s, es);
  }

  // ---------------------------------------------------------------- the object

  class Render {
    var g_currentScene: Scene
    var captureHandle: bool
    var pcmHandle: bool
    var mixerHandle: bool
    var cardStatus: int
    var calls: seq<CaptureCall>   // what the sound library has seen

    constructor (card: Card)
      ensures Initial(View()) && View().card == card
    {
      g_currentScene, captureHandle, calls := MmapNoirq, false, [];
      pcmHandle, mixerHandle, cardStatus := card.pcmHandle, card.mixerHandle, card.cardStatus;
    }

    ghost function View(): State
      reads this
    {
      State(g_currentScene, captureHandle, Card(pcmHandle, mixerHandle, cardStatus), calls)
    }

    method PcmCloseHandle()
      modifies this`captureHandle, this`pcmHandle, this`mixerHandle, this`cardStatus, this`calls
      ensures View() == Close(old(View()))
      ensures !captureHandle && (pcmHandle || mixerHandle ==> cardStatus != 0)
    {
      if cardStatus > 0 {
        cardStatus := cardStatus - 1;
      }
      if cardStatus == 0 {
        if pcmHandle {
          pcmHandle := false;
        }
        if mixerHandle {
          mixerHandle := false;
        }
      }
      if captureHandle {
        calls := calls + [CaptureClosed];
        captureHandle := false;
      }
    }

    method OpenCapturePcmAndSetParams(r: Replies) returns (ok: bool)
      modifies this`captureHandle, this`calls
      ensures ok <==> r.captureOpen && r.captureParams
      ensures captureHandle == (r.captureOpen || old(captureHandle))
      ensures calls == (if r.captureOpen then old(calls) + [CaptureOpened] else old(calls))
    {
      if !r.captureOpen {
        return false;
      }
      calls := calls + [CaptureOpened];
      captureHandle := true;
      ok := r.captureParams;
    }

    method ReOpenPcmAndSetParams(r: Replies) returns (ok: bool)
      modifies this`pcmHandle, this`mixerHandle, this`cardStatus
      ensures ok == r.reopen && View() == old(View()).(card := r.reopened)
    {
      pcmHandle, mixerHandle, cardStatus := r.reopened.pcmHandle, r.reopened.mixerHandle, r.reopened.cardStatus;
      ok := r.reopen;
    }

    method CheckSceneIsChange(scene: Scene) returns (change: bool)
      ensures change <==> g_currentScene.InCall? != scene.InCall? || g_currentScene.MmapNoirq?
    {
      if !scene.InCall? {
        if g_currentScene.InCall? || g_currentScene.MmapNoirq? {
          return true;
        } else {
          return false;
        }
      } else {
        if !g_currentScene.InCall? {
          return true;
        } else {
          return false;
        }
      }
    }

    method RenderStartImpl(r: Replies, busy: bool) returns (ok: bool)
      modifies this`pcmHandle, this`mixerHandle, this`cardStatus
      ensures Result(View(), ok) == Start(old(View()), r, busy)
    {
      if g_currentScene.InCall? {
        if pcmHandle && captureHandle {
          if !r.pcmStart || !r.captureStart || !r.route || !r.device {
            return false;
          }
          return true;
        }
        return false;
      } else {
        if !busy {
          ok := ReOpenPcmAndSetParams(r);
          if !ok {
            return false;
          }
        }
      }
      ok := true;
    }

    method ChangeScene(scene: Scene, r: Replies) returns (ok: bool)
      modifies this
      ensures Result(View(), ok) == Change(old(View()), scene, r)
    {
      PcmCloseHandle();
      if !r.busy {
        g_currentScene := scene;
        if scene.InCall? {
          if !r.muteOff {
            return false;
          }
          ok := ReOpenPcmAndSetParams(r);
          if !ok {
            return false;
          }
          ok := OpenCapturePcmAndSetParams(r);
          if !ok {
            return false;
          }
          if !r.muteOn {
            return false;
          }
        }
        var _ := RenderStartImpl(r, r.busyAgain);
      }
      ok := true;
    }

    method RenderSelectSceneImpl(scene: Scene, r: Replies) returns (ok: bool)
      modifies this
      ensures Result(View(), ok) == Step(old(View()), SelectScene(scene, r))
      ensures old(Inv(View())) ==> Inv(View())
    {
      hide Inv, Change, Close, CloseCard, Start;
      if old(Inv(View())) {
        StepKeepsInv(View(), SelectScene(scene, r));
      }
      var change := CheckSceneIsChange(scene);
      if change {
        if g_currentScene.MmapNoirq? {
          if !r.route {
            return false;
          }
          g_currentScene := scene;
        } else {
          ok := ChangeScene(scene, r);
          if !ok {
            return false;
          }
        }
      } else {
        g_currentScene := scene;
        if scene.InCall? {
          if !r.route || !r.device {
            return false;
          }
        }
      }
      ok := true;
    }

    method RenderStopImpl() returns (ok: bool)
      modifies this`captureHandle, this`pcmHandle, this`mixerHandle, this`cardStatus, this`calls
      ensures Result(View(), ok) == Step(old(View()), RenderStop)
    {
      if g_currentScene.InCall? {
        return true;
      }
      if !pcmHandle {
        return false;
      }
      PcmCloseHandle();
      ok := true;
    }
  }
}
