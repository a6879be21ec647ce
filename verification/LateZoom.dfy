/** Zoom requests that reach the display when no channel is shown. */
module LateZoom {
  import opened StopProtocol
  import opened StopFacts
  import opened StopInvariant

  /** A zoom request is handled while the toolbar is idle, and its handler uses the active window without asking:
      always for a shift of the range, otherwise only without the shift key. */
  predicate IsLate(s: State, l: Label) {
    && l.Deliver? && s.queue != [] && s.queue[0].ZoomEv?
    && (l.all ==> s.queue[0].kind == ShiftRange)
    && !s.view.toolbar
  }

  predicate HasLateZoom(s: State, ls: seq<Label>)
    requires IsRun(s, ls)
    decreases |ls|
  {
    ls != [] && (IsLate(s, ls[0]) || HasLateZoom(Step(s, ls[0]), ls[1..]))
  }

  // ---- scripts that cannot, and scripts that must, use a window of an empty list ----

  predicate Guarded(k: Script, listed: bool) {
    match k
    case Done => true
    case IfRunning(yes, no) => Guarded(yes, true) && Guarded(no, listed)
    case Do(a, next) =>
      match a
      case Deref => listed && Guarded(next, listed)
      case Scan(all) => (listed || all) && Guarded(next, listed)
      case ClearList => Guarded(next, false)
      case RebuildList => Guarded(next, true)
      case _ => Guarded(next, listed)
  }

  predicate Doomed(k: Script) {
    match k
    case Done => false
    case IfRunning(yes, no) => Doomed(yes) && Doomed(no)
    case Do(a, next) => a == Deref || a == Scan(false) || (!a.RebuildList? && Doomed(next))
  }

  lemma PaintGuarded(k: Script, listed: bool)
    requires Guarded(k, listed)
    ensures Guarded(PaintDisplay(k), listed)
  {
    assert Guarded(Do(Unlock(Screen), k), listed);
    assert Guarded(Do(Peek, Do(Unlock(Screen), k)), listed);
  }

  lemma TouchGuarded(x: Mutex, k: Script, listed: bool)
    requires Guarded(k, listed)
    ensures Guarded(Do(Lock(x), Do(Unlock(x), k)), listed)
  {
    assert Guarded(Do(Unlock(x), k), listed);
  }

  lemma PreviewGuarded(k: Script, listed: bool)
    requires Guarded(k, listed)
    requires Guarded(k, true)
    ensures Guarded(PaintPreview(k), listed)
  {
    TouchGuarded(Preview, k, true);
  }

  lemma PreviewBitmapGuarded(k: Script, listed: bool)
    requires Guarded(k, listed)
    requires Guarded(k, true)
    ensures Guarded(PreviewBitmap(k), listed)
  {
    PreviewGuarded(k, true);
    var k1 := PaintPreview(k);
    TouchGuarded(Preview, k1, true);
    var k2 := Do(Lock(Preview), Do(Unlock(Preview), k1));
    assert Guarded(Do(Unlock(Critical), k2), true);
    assert Guarded(Do(Scan(false), Do(Unlock(Critical), k2)), true);
  }

  lemma DrawWaveformsGuarded(listed: bool)
    ensures Guarded(DrawWaveforms(Done), listed)
  {
    var k1 := Do(Unlock(Critical), Done);
    assert Guarded(k1, listed);
    PaintGuarded(k1, listed);
    TouchGuarded(Screen, PaintDisplay(k1), listed);
    assert Guarded(Do(Scan(true), Do(Lock(Screen), Do(Unlock(Screen), PaintDisplay(k1)))), listed);
  }

  lemma UpdateGuarded(small: bool, listed: bool)
    ensures Guarded(Handler(Update, false, small), listed)
  {
    var k := if small then Done else DrawWaveforms(Done);
    DrawWaveformsGuarded(listed);
    assert Guarded(Do(Unlock(Critical), k), listed);
    assert Guarded(Do(Scan(true), Do(Unlock(Critical), k)), listed);
    assert Guarded(RemoveOldData(k), listed);
    TouchGuarded(Critical, RemoveOldData(k), listed);
  }

  lemma AfterClearGuarded()
    ensures Guarded(AfterClear(), false)
  {
    var k1 := Do(ShowToolbar(false), Done);
    assert Guarded(k1, false);
    PaintGuarded(k1, false);
    PaintGuarded(PaintDisplay(k1), false);
    TouchGuarded(Screen, PaintDisplay(PaintDisplay(k1)), false);
  }

  lemma DisplayStopGuarded(listed: bool)
    ensures Guarded(DisplayStop(), listed)
  {
    AfterClearGuarded();
    var k1 := Do(Unlock(Screen), AfterClear());
    assert Guarded(k1, false);
    var k2 := Do(Unlock(Critical), k1);
    assert Guarded(k2, false);
    assert Guarded(Do(ClearList, k2), listed);
    assert Guarded(Do(Lock(Critical), Do(ClearList, k2)), listed);
  }

  lemma StopGuarded(all: bool, small: bool, listed: bool)
    ensures Guarded(Handler(StopEv, all, small), listed)
  {
    DisplayStopGuarded(listed);
    DisplayStopGuarded(true);
    PreviewGuarded(DisplayStop(), listed);
    TouchGuarded(Preview, PaintPreview(DisplayStop()), listed);
  }

  /** Scaling: safe exactly when the list is not empty or every window is scaled. */
  lemma AutoScaleFate(all: bool, listed: bool)
    ensures listed || all ==> Guarded(AutoScaleScript(all), listed)
    ensures !all ==> Doomed(AutoScaleScript(all))
  {
    PaintGuarded(Done, listed);
    var k1 := Do(Unlock(Screen), Repaint(all, Done));
    var k2 := Do(Lock(Critical), Do(Unlock(Critical), k1));
    var k3 := UnlockedScan(all);
    if listed || all {
      assert Guarded(k1, listed);
      TouchGuarded(Critical, k1, listed);
      assert k3 == Do(Scan(all), k2) && Guarded(k3, listed);
      TouchGuarded(Critical, k3, listed);
    }
    if !all {
      assert Doomed(k3);
      assert Doomed(Do(Unlock(Critical), k3));
      assert Doomed(Do(Lock(Critical), Do(Unlock(Critical), k3)));
    }
  }

  lemma MagnifyFate(all: bool, listed: bool)
    ensures listed || all ==> Guarded(MagnifyScript(all), listed)
    ensures !all ==> Doomed(MagnifyScript(all))
  {
    PaintGuarded(Done, listed);
    var k1 := Do(Unlock(Critical), Do(Unlock(Screen), Repaint(all, Done)));
    var k2 := Do(Scan(all), k1);
    if listed || all {
      assert Guarded(Do(Unlock(Screen), Repaint(all, Done)), listed);
      assert Guarded(k1, listed);
      assert Guarded(k2, listed);
      assert Guarded(Do(Lock(Critical), k2), listed);
    }
    if !all {
      assert Doomed(k2);
      assert Doomed(Do(Lock(Critical), k2));
    }
  }

  lemma ShiftFate(listed: bool)
    ensures listed ==> Guarded(ShiftScript(), listed)
    ensures Doomed(ShiftScript())
  {
    PaintGuarded(Done, listed);
    var k1 := Do(Unlock(Critical), Do(Unlock(Screen), PaintDisplay(Done)));
    var k3 := Do(Deref, Do(Scan(false), k1));
    var k2 := Do(Lock(Screen), Do(Lock(Critical), k3));
    if listed {
      assert Guarded(Do(Unlock(Screen), PaintDisplay(Done)), listed);
      assert Guarded(k1, listed);
      assert Guarded(Do(Scan(false), k1), listed);
      assert Guarded(k3, listed);
      assert Guarded(Do(Lock(Critical), k3), listed);
      assert Guarded(k2, listed);
    }
    assert Doomed(Do(Lock(Critical), k3));
    assert Doomed(k2);
  }

  predicate Unsafe(e: Event, all: bool) {
    e.ZoomEv? && (all ==> e.kind == ShiftRange)
  }

  lemma HandlerFate(e: Event, all: bool, small: bool, listed: bool)
    ensures listed || !Unsafe(e, all) ==> Guarded(Handler(e, all, small), listed)
    ensures Unsafe(e, all) ==> Doomed(Handler(e, all, small))
  {
    match e
    case Update => UpdateGuarded(small, listed);
    case Redraw => DrawWaveformsGuarded(listed);
    case DrawPreview =>
      PreviewGuarded(Done, listed); PreviewGuarded(Done, true);
      PreviewBitmapGuarded(PaintPreview(Done), listed);
    case ZoomEv(AutoScale) => AutoScaleFate(all, listed);
    case ZoomEv(Magnify) => MagnifyFate(all, listed);
    case ZoomEv(ShiftRange) => ShiftFate(listed);
    case StopEv => StopGuarded(all, small, listed);
    case SetText =>
  }

  lemma UserGuarded(u: UserAct, listed: bool)
    ensures Guarded(UserScript(u), listed)
  {
    match u
    case RunClick(_) => RunGuarded(listed);
    case StopClick => assert Guarded(Done, listed);
    case ZoomClick(_) => assert Guarded(Done, listed);
    case DisplayPress(hit) => PressGuarded(hit, listed);
    case PreviewPress => PreviewPressGuarded(listed);
    case MouseMove => assert Guarded(Do(Post(SetText), Done), true);
    case Expose =>
      PreviewGuarded(Done, listed);
      PaintGuarded(PaintPreview(Done), listed);
    case ResizePreview => PreviewBitmapGuarded(Done, listed);
  }

  lemma RunGuarded(listed: bool)
    ensures Guarded(RunScript(), listed)
  {
    assert Guarded(RunStarted(), true);
    assert Guarded(RunContinue(), true);
    assert Guarded(RunRebuilt(), false);
    assert Guarded(RunCleared(), listed);
  }

  lemma PressGuarded(hit: bool, listed: bool)
    ensures Guarded(UserScript(DisplayPress(hit)), listed)
  {
    var k1 := Do(Unlock(Critical), Done);
    assert Guarded(k1, listed);
    var k2 := Do(Post(DrawPreview), k1);
    PaintGuarded(k2, listed);
    assert Guarded(Do(Peek, if hit then PaintDisplay(k2) else k1), listed);
  }

  lemma PreviewPressGuarded(listed: bool)
    ensures Guarded(UserScript(PreviewPress), listed)
  {
    var k := Do(Post(Redraw), Done);
    assert Guarded(k, true);
    PreviewBitmapGuarded(k, true);
    TouchGuarded(Critical, PreviewBitmap(k), true);
  }

  // ---- runs ----

  predicate Sound(s: State) {
    !s.view.crashed && Guarded(s.gui, s.view.windows > 0)
  }

  predicate Lost(s: State) {
    s.view.crashed || (s.view.windows == 0 && Doomed(s.gui))
  }

  lemma RunningMeansListed(s: State)
    requires Inv(s)
    ensures s.workers.running ==> s.view.windows > 0
    ensures s.gui == Done ==> (s.view.windows == 0 <==> !s.view.toolbar)
    ensures s.gui.Do? && s.gui.act.RebuildList? ==> s.view.selected > 0
  {}

  lemma StaysSound(s: State, l: Label)
    requires Inv(s) && Enabled(s, l) && Sound(s) && !IsLate(s, l)
    ensures Sound(Step(s, l))
  {
    RunningMeansListed(s);
    match l
    case Deliver(all, small) => HandlerFate(s.queue[0], all, small, s.view.windows > 0);
    case User(u) => UserGuarded(u, s.view.windows > 0);
    case GuiStep =>
    case _ =>
  }

  lemma StaysLost(s: State, l: Label)
    requires Enabled(s, l) && Lost(s)
    ensures Lost(Step(s, l))
  {}

  lemma LateIsLost(s: State, l: Label)
    requires Inv(s) && Enabled(s, l) && IsLate(s, l)
    ensures Lost(Step(s, l))
  {
    RunningMeansListed(s);
    HandlerFate(s.queue[0], l.all, l.small, false);
  }

  lemma {:induction false} LostForGood(s: State, ls: seq<Label>)
    requires IsRun(s, ls) && Lost(s)
    ensures Lost(Run(s, ls))
    decreases |ls|
  {
    if ls != [] {
      StaysLost(s, ls[0]);
      LostForGood(Step(s, ls[0]), ls[1..]);
    }
  }

  lemma {:induction false} FateOfRun(s: State, ls: seq<Label>)
    requires Inv(s) && IsRun(s, ls) && Sound(s)
    ensures if HasLateZoom(s, ls) then Lost(Run(s, ls)) else Sound(Run(s, ls))
    decreases |ls|
  {
    if ls != [] {
      var t := Step(s, ls[0]);
      StepKeeps(s, ls[0]);
      if IsLate(s, ls[0]) {
        LateIsLost(s, ls[0]);
        LostForGood(t, ls[1..]);
      } else {
        StaysSound(s, ls[0]);
        FateOfRun(t, ls[1..]);
      }
    }
  }

  /** In every run that has come to the end of a handler, a window of an empty list was used if and only if some
      request that scales or shifts the active window was handled while the toolbar was idle. */
  lemma EmptyListUsedIffLateZoom(ls: seq<Label>)
    requires IsRun(INIT, ls) && Run(INIT, ls).gui == Done
    ensures Run(INIT, ls).view.crashed <==> HasLateZoom(INIT, ls)
  {
    assert Inv(INIT) && Sound(INIT) by { assert Idle(INIT); }
    FateOfRun(INIT, ls);
  }
}
