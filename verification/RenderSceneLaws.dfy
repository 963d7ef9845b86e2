/** What a start, a stop and a select of the scene machine do, over every run. */
module RenderSceneLaws {
  import opened RenderScene

  // ---------------------------------------------------------------- starts and stops

  /** Outside a call, in every run: a start leaves a busy card as it is, and succeeds; on a
      free card it opens the playback PCM, and succeeds if and only if that does.  It never
      changes the scene or the capture device. */
  lemma StartOutsideCall(s: State, es: seq<Event>, r: Replies)
    requires Initial(s) && Run(s, es).currentScene != InCall
    ensures
      var before := Run(s, es);
      var after := Step(before, RenderStart(r));
      && (r.busy ==> after.s == before && after.ok)
      && (!r.busy ==> after.s.card == r.reopened && (after.ok <==> r.reopen))
      && after.s.currentScene == before.currentScene && after.s.calls == before.calls && !after.s.captureHandle
  {
    RunKeepsInv(s, es);
  }

  /** In a call, in every run: a start changes nothing that the machine knows of, and
      succeeds if and only if both handles are open and all four steps succeed. */
  lemma StartInsideCall(s: State, es: seq<Event>, r: Replies)
    requires Initial(s) && Run(s, es).currentScene == InCall
    ensures
      var before := Run(s, es);
      var after := Step(before, RenderStart(r));
      && after.s == before
      && (after.ok <==> before.card.pcmHandle && before.captureHandle
                        && r.pcmStart && r.captureStart && r.route && r.device)
  {
  }

  /** A card is closed by counting down; its handles go when the count reaches 0, and only
      then. */
  lemma CardCountsDown(card: Card)
    ensures card.cardStatus == 0 || card.cardStatus == 1 ==> CloseCard(card) == Card(false, false, 0)
    ensures card.cardStatus > 1 ==> CloseCard(card) == Card(card.pcmHandle, card.mixerHandle, card.cardStatus - 1)
    ensures card.cardStatus < 0 ==> CloseCard(card) == card
  {
  }

  /** A stop does nothing in a call.  Outside one it fails, and does nothing, where the
      playback PCM is not open; otherwise it succeeds and counts the card down. */
  lemma StopExactly(s: State, es: seq<Event>)
    requires Initial(s)
    ensures
      var before := Run(s, es);
      var after := Step(before, RenderStop);
      && (before.currentScene == InCall ==> after.ok && after.s == before)
      && (before.currentScene != InCall && !before.card.pcmHandle ==> !after.ok && after.s == before)
      && (before.currentScene != InCall && before.card.pcmHandle ==>
            after.ok && after.s == before.(card := CloseCard(before.card)))
  {
    RunKeepsInv(s, es);
  }

  /** A start on a free card that opens the playback PCM is followed by a stop that
      succeeds, and that closes the PCM if and only if the card was counted at most once; a
      second stop then fails. */
  lemma StartThenStop(s: State, es: seq<Event>, r: Replies)
    requires Initial(s) && Run(s, es).currentScene != InCall && !r.busy
    requires r.reopened.pcmHandle && r.reopened.cardStatus >= 0
    ensures
      var started := Step(Run(s, es), RenderStart(r)).s;
      var stopped := Step(started, RenderStop);
      && stopped.ok && (!stopped.s.card.pcmHandle <==> r.reopened.cardStatus <= 1)
      && (r.reopened.cardStatus <= 1 ==> !Step(stopped.s, RenderStop).ok)
  {
    StartOutsideCall(s, es, r);
    StartedState(Run(s, es), r);
  }

  lemma StartedState(s: State, r: Replies)
    requires s.currentScene != InCall && !r.busy
    ensures Step(s, RenderStart(r)).s == s.(card := r.reopened)
  {
  }

  // ---------------------------------------------------------------- selects

  /** The scene after a select: the selected one, unless it has to be changed to and the
      route cannot be set (from MMAP_NOIRQ) or the card stays busy (from elsewhere). */
  lemma SceneAfterSelect(s: State, scene: Scene, r: Replies)
    ensures
      var after := Step(s, SelectScene(scene, r)).s;
      after.currentScene ==
        if s.currentScene == MmapNoirq then (if r.route then scene else MmapNoirq)
        else if (s.currentScene == InCall) == (scene == InCall) then scene
        else if r.busy then s.currentScene
        else scene
  {
  }

  /** When a select succeeds.  From MMAP_NOIRQ it takes the route; within a call, the route
      and the device; entering a call, every step of it, unless the card stays busy; and
      between ordinary scenes or leaving a call it always does. */
  lemma SelectSucceedsIff(s: State, scene: Scene, r: Replies)
    ensures
      Step(s, SelectScene(scene, r)).ok <==>
        if s.currentScene == MmapNoirq then r.route
        else if scene != InCall then true
        else if s.currentScene == InCall then r.route && r.device
        else r.busy || (r.muteOff && r.reopen && r.captureOpen && r.captureParams && r.muteOn)
  {
  }

  /** What a select does to the card: nothing, unless it enters or leaves a call; then it is
      counted down, and opened anew where the card is free: entering, once the mute is off;
      leaving, if it is still free. */
  lemma CardAfterSelect(s: State, scene: Scene, r: Replies)
    ensures
      Step(s, SelectScene(scene, r)).s.card ==
        if s.currentScene == MmapNoirq || (s.currentScene == InCall) == (scene == InCall) then s.card
        else if r.busy then CloseCard(s.card)
        else if scene == InCall then (if r.muteOff then r.reopened else CloseCard(s.card))
        else if r.busyAgain then CloseCard(s.card)
        else r.reopened
  {
  }

  /** What a select makes of the capture device: a close where it was open and the scene is
      changed, then an open where a call is entered that far. */
  lemma CaptureAfterSelect(s: State, scene: Scene, r: Replies)
    ensures
      var after := Step(s, SelectScene(scene, r)).s;
      var changes := s.currentScene != MmapNoirq && (s.currentScene == InCall) != (scene == InCall);
      var opens := changes && scene == InCall && !r.busy && r.muteOff && r.reopen && r.captureOpen;
      && after.calls == s.calls + (if changes && s.captureHandle then [CaptureClosed] else [])
                                + (if opens then [CaptureOpened] else [])
      && (after.captureHandle <==> opens || (s.captureHandle && !changes))
  {
  }
}
