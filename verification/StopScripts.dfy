/** What the handlers do besides posting: the mutexes they take, in order, and the windows whose blocks they scan. */
module StopScripts {
  import opened StopProtocol

  /** The mutexes a script takes, in order, if bContinue stays as it is. */
  function Locked(k: Script, running: bool): seq<Mutex> {
    match k
    case Done => []
    case IfRunning(yes, no) => Locked(if running then yes else no, running)
    case Do(a, next) => (if a.Lock? then [a.m] else []) + Locked(next, running)
  }

  /** The scans, of all windows or of the active one. */
  function Scanned(k: Script, running: bool): seq<bool> {
    match k
    case Done => []
    case IfRunning(yes, no) => Scanned(if running then yes else no, running)
    case Do(a, next) => (if a.Scan? then [a.all] else []) + Scanned(next, running)
  }

  /** Both, for a script of which the rest is known. */
  predicate Does(k: Script, running: bool, ms: seq<Mutex>, scans: seq<bool>) {
    Locked(k, running) == ms && Scanned(k, running) == scans
  }

  lemma NextDoes(a: Action, k: Script, running: bool, ms: seq<Mutex>, scans: seq<bool>)
    requires Does(k, running, ms, scans)
    ensures Does(Do(a, k), running, (if a.Lock? then [a.m] else []) + ms, (if a.Scan? then [a.all] else []) + scans)
  {}

  lemma TouchDoes(m: Mutex, k: Script, running: bool, ms: seq<Mutex>, scans: seq<bool>)
    requires Does(k, running, ms, scans)
    ensures Does(Do(Lock(m), Do(Unlock(m), k)), running, [m] + ms, scans)
  {
    assert [] + ms == ms && [] + scans == scans;
    NextDoes(Unlock(m), k, running, ms, scans);
    NextDoes(Lock(m), Do(Unlock(m), k), running, ms, scans);
  }

  lemma PaintDoes(k: Script, running: bool, ms: seq<Mutex>, scans: seq<bool>)
    requires Does(k, running, ms, scans)
    ensures Does(PaintDisplay(k), running, [Screen] + ms, scans)
    ensures Does(PaintPreview(k), running, (if running then [Preview] else []) + ms, scans)
  {
    assert [] + ms == ms && [] + scans == scans;
    NextDoes(Unlock(Screen), k, running, ms, scans);
    NextDoes(Peek, Do(Unlock(Screen), k), running, ms, scans);
    NextDoes(Lock(Screen), Do(Peek, Do(Unlock(Screen), k)), running, ms, scans);
    TouchDoes(Preview, k, running, ms, scans);
  }

  lemma ScanDoes(all: bool, k: Script, running: bool, ms: seq<Mutex>, scans: seq<bool>)
    requires Does(k, running, ms, scans)
    ensures Does(Do(Lock(Critical), Do(Scan(all), Do(Unlock(Critical), k))), running, [Critical] + ms, [all] + scans)
  {
    assert [] + ms == ms && [] + scans == scans;
    NextDoes(Unlock(Critical), k, running, ms, scans);
    NextDoes(Scan(all), Do(Unlock(Critical), k), running, ms, scans);
    NextDoes(Lock(Critical), Do(Scan(all), Do(Unlock(Critical), k)), running, ms, [all] + scans);
  }

  lemma BitmapDoes(k: Script, ms: seq<Mutex>)
    requires Does(k, true, ms, [])
    ensures Does(PreviewBitmap(k), true, [Critical, Preview, Preview] + ms, [false])
  {
    var k1 := PaintPreview(k);
    PaintDoes(k, true, ms, []);
    TouchDoes(Preview, k1, true, [Preview] + ms, []);
    ScanDoes(false, Do(Lock(Preview), Do(Unlock(Preview), k1)), true, [Preview] + ([Preview] + ms), []);
    assert [Critical] + ([Preview] + ([Preview] + ms)) == [Critical, Preview, Preview] + ms;
  }

  /** DrawWaveforms, for an Update or a Redraw. */
  lemma DrawDoes(running: bool)
    ensures Does(DrawWaveforms(Done), running, [Critical, Screen, Screen], [true])
  {
    var k := Do(Unlock(Critical), Done);
    NextDoes(Unlock(Critical), Done, running, [], []);
    PaintDoes(k, running, [], []);
    TouchDoes(Screen, PaintDisplay(k), running, [Screen], []);
    var k1 := Do(Lock(Screen), Do(Unlock(Screen), PaintDisplay(k)));
    NextDoes(Scan(true), k1, running, [Screen, Screen], []);
    NextDoes(Lock(Critical), Do(Scan(true), k1), running, [Screen, Screen], [true]);
  }

  /** An Update sets the time, drops old data, and draws if there is room, taking Critical for each of the three; it
      scans all windows to drop data and again to draw. */
  lemma UpdateDoes(small: bool, running: bool)
    ensures Does(Handler(Update, false, small), running,
                 [Critical, Critical] + (if small then [] else [Critical, Screen, Screen]),
                 [true] + if small then [] else [true])
  {
    var k := if small then Done else DrawWaveforms(Done);
    var ms, scans := if small then [] else [Critical, Screen, Screen], if small then [] else [true];
    DrawDoes(running);
    ScanDoes(true, k, running, ms, scans);
    TouchDoes(Critical, RemoveOldData(k), running, [Critical] + ms, [true] + scans);
    assert [Critical] + ([Critical] + ms) == [Critical, Critical] + ms;
  }

  /** A preview is drawn from the active window only, and only while bContinue is set. */
  lemma PreviewDoes(running: bool)
    ensures Does(Handler(DrawPreview, false, false), running,
                 if running then [Critical, Preview, Preview, Preview] else [], if running then [false] else [])
  {
    if running {
      PaintDoes(Done, true, [], []);
      BitmapDoes(PaintPreview(Done), [Preview]);
    }
  }

  lemma RepaintDoes(all: bool, running: bool)
    ensures Does(Do(Unlock(Screen), Repaint(all, Done)), running, [Screen], [])
  {
    PaintDoes(Done, running, [], []);
    NextDoes(Deref, PaintDisplay(Done), running, [Screen], []);
    NextDoes(Unlock(Screen), Repaint(all, Done), running, [Screen], []);
  }

  lemma UnlockedScanDoes(all: bool, running: bool)
    ensures Does(UnlockedScan(all), running, [Critical, Screen], [all])
  {
    var k := Do(Unlock(Screen), Repaint(all, Done));
    RepaintDoes(all, running);
    TouchDoes(Critical, k, running, [Screen], []);
    NextDoes(Scan(all), Do(Lock(Critical), Do(Unlock(Critical), k)), running, [Critical, Screen], []);
  }

  /** The handlers of zooms take Screen and then Critical; OnAutoScale takes Critical twice, around its scan. */
  lemma AutoScaleDoes(all: bool, running: bool)
    ensures Does(Handler(ZoomEv(AutoScale), all, false), running, [Screen, Critical, Critical, Screen], [all])
  {
    UnlockedScanDoes(all, running);
    TouchDoes(Critical, UnlockedScan(all), running, [Critical, Screen], [all]);
    NextDoes(Lock(Screen), Do(Lock(Critical), Do(Unlock(Critical), UnlockedScan(all))), running,
             [Critical, Critical, Screen], [all]);
  }

  lemma MagnifyDoes(all: bool, running: bool)
    ensures Does(Handler(ZoomEv(Magnify), all, false), running, [Screen, Critical, Screen], [all])
  {
    var k := Do(Unlock(Screen), Repaint(all, Done));
    RepaintDoes(all, running);
    ScanDoes(all, k, running, [Screen], []);
    NextDoes(Lock(Screen), Do(Lock(Critical), Do(Scan(all), Do(Unlock(Critical), k))), running,
             [Critical, Screen], [all]);
  }

  lemma ShiftDoes(all: bool, running: bool)
    ensures Does(Handler(ZoomEv(ShiftRange), all, false), running, [Screen, Critical, Screen], [false])
  {
    PaintDoes(Done, running, [], []);
    NextDoes(Unlock(Screen), PaintDisplay(Done), running, [Screen], []);
    NextDoes(Unlock(Critical), Do(Unlock(Screen), PaintDisplay(Done)), running, [Screen], []);
    var k := Do(Scan(false), Do(Unlock(Critical), Do(Unlock(Screen), PaintDisplay(Done))));
    NextDoes(Scan(false), k.next, running, [Screen], []);
    NextDoes(Deref, k, running, [Screen], [false]);
    NextDoes(Lock(Critical), Do(Deref, k), running, [Screen], [false]);
    NextDoes(Lock(Screen), Do(Lock(Critical), Do(Deref, k)), running, [Critical, Screen], [false]);
    NextDoes(Peek, Do(Lock(Screen), Do(Lock(Critical), Do(Deref, k))), running, [Screen, Critical, Screen], [false]);
  }

  /** The stop handler clears the preview's bitmap, then the list under both of the display's mutexes, then the
      display's bitmap, and paints twice; it scans nothing. */
  lemma StopDoes(running: bool)
    ensures Does(Handler(StopEv, false, false), running,
                 [Preview] + (if running then [Preview] else []) + [Screen, Critical, Screen, Screen, Screen], [])
  {
    ClearDoes(running);
    var ms := [Screen, Critical, Screen, Screen, Screen];
    var k := PaintPreview(DisplayStop());
    PaintDoes(DisplayStop(), running, ms, []);
    TouchDoes(Preview, k, running, (if running then [Preview] else []) + ms, []);
    assert [Preview] + ((if running then [Preview] else []) + ms)
        == [Preview] + (if running then [Preview] else []) + ms;
  }

  lemma AfterClearDoes(running: bool)
    ensures Does(AfterClear(), running, [Screen, Screen, Screen], [])
  {
    var k := Do(ShowToolbar(false), Done);
    NextDoes(ShowToolbar(false), Done, running, [], []);
    PaintDoes(k, running, [], []);
    PaintDoes(PaintDisplay(k), running, [Screen], []);
    TouchDoes(Screen, PaintDisplay(PaintDisplay(k)), running, [Screen, Screen], []);
  }

  lemma ClearDoes(running: bool)
    ensures Does(DisplayStop(), running, [Screen, Critical, Screen, Screen, Screen], [])
  {
    AfterClearDoes(running);
    var ms := [Screen, Screen, Screen];
    var k := Do(Unlock(Screen), AfterClear());
    NextDoes(Unlock(Screen), AfterClear(), running, ms, []);
    NextDoes(Unlock(Critical), k, running, ms, []);
    NextDoes(ClearList, Do(Unlock(Critical), k), running, ms, []);
    NextDoes(Lock(Critical), Do(ClearList, Do(Unlock(Critical), k)), running, ms, []);
    NextDoes(Lock(Screen), Do(Lock(Critical), Do(ClearList, Do(Unlock(Critical), k))), running, [Critical] + ms, []);
  }

  /** A press in the display looks for the window under Critical, and repaints if there is one. */
  lemma DisplayPressDoes(hit: bool, running: bool)
    ensures Does(UserScript(DisplayPress(hit)), running, if hit then [Critical, Screen] else [Critical], [])
  {
    var last := Do(Unlock(Critical), Done);
    NextDoes(Unlock(Critical), Done, running, [], []);
    NextDoes(Post(DrawPreview), last, running, [], []);
    PaintDoes(Do(Post(DrawPreview), last), running, [], []);
    var k := if hit then PaintDisplay(Do(Post(DrawPreview), last)) else last;
    NextDoes(Peek, k, running, if hit then [Screen] else [], []);
    NextDoes(Lock(Critical), Do(Peek, k), running, if hit then [Screen] else [], []);
  }

  /** A press in the preview moves the view under Critical and draws the preview anew, if bContinue is set. */
  lemma PreviewPressDoes(running: bool)
    ensures Does(UserScript(PreviewPress), running, if running then [Critical, Critical, Preview, Preview] else [],
                 if running then [false] else [])
  {
    if running {
      var k := Do(Post(Redraw), Done);
      NextDoes(Post(Redraw), Done, true, [], []);
      BitmapDoes(k, []);
      TouchDoes(Critical, PreviewBitmap(k), true, [Critical, Preview, Preview], [false]);
    }
  }

  /** Exposure paints display and preview, and a new size of the preview draws it anew. */
  lemma PaintEventsDo(running: bool)
    ensures Does(UserScript(Expose), running, if running then [Screen, Preview] else [Screen], [])
    ensures Does(UserScript(ResizePreview), running, if running then [Critical, Preview, Preview] else [],
                 if running then [false] else [])
  {
    PaintDoes(Done, running, [], []);
    PaintDoes(PaintPreview(Done), running, if running then [Preview] else [], []);
    if running {
      BitmapDoes(Done, []);
    }
  }
}
