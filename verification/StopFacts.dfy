/** What every run of the start/stop protocol keeps: who holds which mutex, which threads are alive, and what the
    event queue may hold. */
module StopFacts {
  import opened StopProtocol

  // ---- lock discipline of the GUI scripts ----

  datatype Held = Held(critical: bool, screen: bool, preview: bool)

  const NONE := Held(false, false, false)

  function HeldByGui(l: Locks): Held {
    Held(l.critical == Gui, l.screen == Gui, l.preview == Gui)
  }

  predicate Has(h: Held, m: Mutex) {
    match m case Critical => h.critical case Screen => h.screen case Preview => h.preview
  }

  function With(h: Held, m: Mutex, b: bool): Held {
    match m case Critical => h.(critical := b) case Screen => h.(screen := b) case Preview => h.(preview := b)
  }

  /** Plain scripts leave the window list alone; the handler of StopEv clears it and then shows the idle toolbar. */
  datatype Mode = Plain | Clearing | Cleared

  predicate IsUnlockedScan(k: Script) {
    k == UnlockedScan(false) || k == UnlockedScan(true)
  }

  /** Along every path the script locks only what it does not hold, unlocks only what it holds, ends with nothing
      held, clears the list under both display mutexes, never posts Update or StopEv, and scans blocks under Critical
      except in OnAutoScale. */
  predicate Ok(k: Script, h: Held, m: Mode) {
    match k
    case Done => h == NONE && m == Plain
    case IfRunning(yes, no) => Ok(yes, h, m) && Ok(no, h, m)
    case Do(a, next) =>
      match a
      case Lock(x) => !Has(h, x) && Ok(next, With(h, x, true), m)
      case Unlock(x) => Has(h, x) && Ok(next, With(h, x, false), m)
      case Peek => Ok(next, h, m)
      case Deref => Ok(next, h, m)
      case Scan(_) => (h.critical || IsUnlockedScan(k)) && Ok(next, h, m)
      case Post(e) => e != Update && e != StopEv && Ok(next, h, m)
      case ClearList => m == Clearing && h.critical && h.screen && Ok(next, h, Cleared)
      case ShowToolbar(r) => m == Cleared && !r && h == NONE && Ok(next, h, Plain)
      case _ => false
  }

  lemma PaintDisplayOk(k: Script, h: Held, m: Mode)
    requires !h.screen && Ok(k, h, m)
    ensures Ok(PaintDisplay(k), h, m)
  {
    var h1 := With(h, Screen, true);
    assert With(h1, Screen, false) == h;
    assert Ok(Do(Unlock(Screen), k), h1, m);
    assert Ok(Do(Peek, Do(Unlock(Screen), k)), h1, m);
  }

  lemma TouchOk(x: Mutex, k: Script, h: Held, m: Mode)
    requires !Has(h, x) && Ok(k, h, m)
    ensures Ok(Do(Lock(x), Do(Unlock(x), k)), h, m)
  {
    var h1 := With(h, x, true);
    assert With(h1, x, false) == h;
    assert Ok(Do(Unlock(x), k), h1, m);
  }

  lemma PaintPreviewOk(k: Script, h: Held, m: Mode)
    requires !h.preview && Ok(k, h, m)
    ensures Ok(PaintPreview(k), h, m)
  {
    TouchOk(Preview, k, h, m);
  }

  lemma DrawWaveformsOk(k: Script)
    requires Ok(k, NONE, Plain)
    ensures Ok(DrawWaveforms(k), NONE, Plain)
  {
    var h := Held(true, false, false);
    var k1 := Do(Unlock(Critical), k);
    assert Ok(k1, h, Plain);
    PaintDisplayOk(k1, h, Plain);
    TouchOk(Screen, PaintDisplay(k1), h, Plain);
    assert Ok(Do(Scan(true), Do(Lock(Screen), Do(Unlock(Screen), PaintDisplay(k1)))), h, Plain);
  }

  lemma PreviewBitmapOk(k: Script)
    requires Ok(k, NONE, Plain)
    ensures Ok(PreviewBitmap(k), NONE, Plain)
  {
    var h := Held(true, false, false);
    PaintPreviewOk(k, NONE, Plain);
    TouchOk(Preview, PaintPreview(k), NONE, Plain);
    var k1 := Do(Lock(Preview), Do(Unlock(Preview), PaintPreview(k)));
    assert Ok(Do(Unlock(Critical), k1), h, Plain);
    assert Ok(Do(Scan(false), Do(Unlock(Critical), k1)), h, Plain);
  }

  lemma RepaintOk(all: bool)
    ensures Ok(Repaint(all, Done), NONE, Plain)
  {
    PaintDisplayOk(Done, NONE, Plain);
  }

  lemma AutoScaleOk(all: bool)
    ensures Ok(AutoScaleScript(all), NONE, Plain)
  {
    RepaintOk(all);
    var h := Held(false, true, false);
    var k1 := Do(Unlock(Screen), Repaint(all, Done));
    assert Ok(k1, h, Plain);
    TouchOk(Critical, k1, h, Plain);
    assert Ok(UnlockedScan(all), h, Plain);
    TouchOk(Critical, UnlockedScan(all), h, Plain);
  }

  lemma MagnifyOk(all: bool)
    ensures Ok(MagnifyScript(all), NONE, Plain)
  {
    RepaintOk(all);
    var h := Held(false, true, false);
    var k1 := Do(Unlock(Screen), Repaint(all, Done));
    assert Ok(k1, h, Plain);
    assert Ok(Do(Unlock(Critical), k1), Held(true, true, false), Plain);
    assert Ok(Do(Scan(all), Do(Unlock(Critical), k1)), Held(true, true, false), Plain);
    assert Ok(Do(Lock(Critical), Do(Scan(all), Do(Unlock(Critical), k1))), h, Plain);
  }

  lemma ShiftOk()
    ensures Ok(ShiftScript(), NONE, Plain)
  {
    PaintDisplayOk(Done, NONE, Plain);
    var h := Held(false, true, false);
    var k1 := Do(Unlock(Screen), PaintDisplay(Done));
    assert Ok(k1, h, Plain);
    assert Ok(Do(Unlock(Critical), k1), Held(true, true, false), Plain);
    assert Ok(Do(Scan(false), Do(Unlock(Critical), k1)), Held(true, true, false), Plain);
    var k2 := Do(Lock(Critical), Do(Deref, Do(Scan(false), Do(Unlock(Critical), k1))));
    assert Ok(k2, h, Plain);
    assert Ok(Do(Lock(Screen), k2), NONE, Plain);
  }

  lemma AfterClearOk()
    ensures Ok(AfterClear(), NONE, Cleared)
  {
    var k1 := Do(ShowToolbar(false), Done);
    assert Ok(k1, NONE, Cleared);
    PaintDisplayOk(k1, NONE, Cleared);
    PaintDisplayOk(PaintDisplay(k1), NONE, Cleared);
    TouchOk(Screen, PaintDisplay(PaintDisplay(k1)), NONE, Cleared);
  }

  lemma DisplayStopOk()
    ensures Ok(DisplayStop(), NONE, Clearing)
  {
    AfterClearOk();
    var k1 := Do(Unlock(Screen), AfterClear());
    assert Ok(k1, Held(false, true, false), Cleared);
    var k2 := Do(Unlock(Critical), k1);
    assert Ok(k2, Held(true, true, false), Cleared);
    assert Ok(Do(ClearList, k2), Held(true, true, false), Clearing);
    assert Ok(Do(Lock(Critical), Do(ClearList, k2)), Held(false, true, false), Clearing);
  }

  lemma StopHandlerOk(all: bool, small: bool)
    ensures Ok(Handler(StopEv, all, small), NONE, Clearing)
  {
    DisplayStopOk();
    PaintPreviewOk(DisplayStop(), NONE, Clearing);
    TouchOk(Preview, PaintPreview(DisplayStop()), NONE, Clearing);
  }

  lemma UpdateOk(small: bool)
    ensures Ok(Handler(Update, false, small), NONE, Plain)
  {
    var k := if small then Done else DrawWaveforms(Done);
    DrawWaveformsOk(Done);
    var k1 := Do(Scan(true), Do(Unlock(Critical), k));
    assert Ok(Do(Unlock(Critical), k), Held(true, false, false), Plain);
    assert Ok(k1, Held(true, false, false), Plain);
    TouchOk(Critical, RemoveOldData(k), NONE, Plain);
  }

  /** Every handler but that of StopEv is a plain, well-locked script, whatever the shift key and the size. */
  lemma HandlersAreWellLocked(e: Event, all: bool, small: bool)
    ensures Ok(Handler(e, all, small), NONE, if e == StopEv then Clearing else Plain)
  {
    match e
    case Update => UpdateOk(small);
    case Redraw => DrawWaveformsOk(Done);
    case DrawPreview => PaintPreviewOk(Done, NONE, Plain); PreviewBitmapOk(PaintPreview(Done));
    case ZoomEv(AutoScale) => AutoScaleOk(all);
    case ZoomEv(Magnify) => MagnifyOk(all);
    case ZoomEv(ShiftRange) => ShiftOk();
    case StopEv => StopHandlerOk(all, small);
    case SetText =>
  }

  lemma DisplayPressOk(hit: bool)
    ensures Ok(UserScript(DisplayPress(hit)), NONE, Plain)
  {
    var h := Held(true, false, false);
    var k1 := Do(Unlock(Critical), Done);
    assert Ok(k1, h, Plain);
    var k2 := Do(Post(DrawPreview), k1);
    assert Ok(k2, h, Plain);
    PaintDisplayOk(k2, h, Plain);
    var k3 := if hit then PaintDisplay(k2) else k1;
    assert Ok(Do(Peek, k3), h, Plain);
  }

  lemma PreviewPressOk()
    ensures Ok(UserScript(PreviewPress), NONE, Plain)
  {
    var k := Do(Post(Redraw), Done);
    assert Ok(k, NONE, Plain);
    PreviewBitmapOk(k);
    TouchOk(Critical, PreviewBitmap(k), NONE, Plain);
  }

  lemma UserScriptsAreWellLocked(u: UserAct)
    requires u.RunClick? ==> u.selected == 0
    requires !u.StopClick?
    ensures Ok(UserScript(u), NONE, Plain)
  {
    match u
    case RunClick(_) =>
    case ZoomClick(kind) => assert Ok(Done, NONE, Plain);
    case DisplayPress(hit) => DisplayPressOk(hit);
    case PreviewPress => PreviewPressOk();
    case MouseMove => assert Ok(Do(Post(SetText), Done), NONE, Plain);
    case Expose => PaintPreviewOk(Done, NONE, Plain); PaintDisplayOk(PaintPreview(Done), NONE, Plain);
    case ResizePreview => PreviewBitmapOk(Done);
  }
}
