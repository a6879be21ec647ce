/** What becomes of events: over every run none is lost, doubled or posted without cause. */
module StopEvents {
  import opened StopProtocol
  import opened StopFacts
  import opened StopInvariant

  function One(b: bool): nat {
    if b then 1 else 0
  }

  // ---- what is asked for and what is taken up ----

  /** The draw thread wakes up and it is time to draw again. */
  predicate Fires(s: State, l: Label) {
    s.workers.draw == DSleep && l == DrawStep(true)
  }

  /** Whether a step asks for e: an Update and a DrawPreview when the draw thread fires, a DrawPreview when a window is
      hit, a zoom or a stop when its button is clicked, and a Redraw or a SetText when the preview has been pressed or
      the mouse has moved over it and bContinue is found to be set. */
  predicate Asks(s: State, l: Label, e: Event) {
    match e
    case Update => Fires(s, l)
    case DrawPreview => Fires(s, l) || l == User(DisplayPress(true))
    case ZoomEv(kind) => l == User(ZoomClick(kind))
    case StopEv => l == User(StopClick)
    case Redraw => l == GuiStep && s.gui == UserScript(PreviewPress) && s.workers.running
    case SetText => l == GuiStep && s.gui == UserScript(MouseMove) && s.workers.running
  }

  /** How many steps of a run ask for e. */
  function AskedFor(s: State, ls: seq<Label>, e: Event): nat
    requires IsRun(s, ls)
    decreases |ls|
  {
    if ls == [] then 0 else One(Asks(s, ls[0], e)) + AskedFor(Step(s, ls[0]), ls[1..], e)
  }

  predicate TakesUp(s: State, l: Label, e: Event)
    requires Enabled(s, l)
  {
    l.Deliver? && s.queue[0] == e
  }

  /** How many steps of a run take up an e. */
  function TakenUp(s: State, ls: seq<Label>, e: Event): nat
    requires IsRun(s, ls)
    decreases |ls|
  {
    if ls == [] then 0 else One(TakesUp(s, ls[0], e)) + TakenUp(Step(s, ls[0]), ls[1..], e)
  }

  function InQueue(q: seq<Event>, e: Event): nat {
    multiset(q)[e]
  }

  // ---- what is still owed ----

  /** How often a script posts e, if bContinue is clear. */
  function Owed(k: Script, e: Event): nat {
    match k
    case Done => 0
    case IfRunning(_, no) => Owed(no, e)
    case Do(a, next) => One(a == Post(e)) + Owed(next, e)
  }

  /** How often a script posts e does not depend on bContinue. */
  predicate Even(k: Script, e: Event) {
    match k
    case Done => true
    case IfRunning(yes, no) => Owed(yes, e) == Owed(no, e) && Even(yes, e) && Even(no, e)
    case Do(_, next) => Even(next, e)
  }

  predicate Posts(k: Script, e: Event, n: nat) {
    Even(k, e) && Owed(k, e) == n
  }

  function OwedByDraw(draw: DrawPc, e: Event): nat {
    One((draw == DPost1 && e in {Update, DrawPreview}) || (draw == DPost2 && e == DrawPreview))
  }

  /** A stop is owed by the click that is about to start the stop thread, and then by that thread. */
  function OwedByStop(k: Script, stop: StopPc, e: Event): nat {
    if e == StopEv then One(k == Do(StartStop, Done)) + One(stop != SIdle) else 0
  }

  /** Asked for and not yet posted. */
  function Due(s: State, e: Event): nat {
    Owed(s.gui, e) + OwedByDraw(s.workers.draw, e) + OwedByStop(s.gui, s.workers.stop, e)
  }

  // ---- the scripts ----

  lemma Skips(a: Action, k: Script, e: Event, n: nat)
    requires Posts(k, e, n) && a != Post(e)
    ensures Posts(Do(a, k), e, n)
  {}

  lemma TouchPosts(m: Mutex, k: Script, e: Event, n: nat)
    requires Posts(k, e, n)
    ensures Posts(Do(Lock(m), Do(Unlock(m), k)), e, n)
  {
    Skips(Unlock(m), k, e, n);
    Skips(Lock(m), Do(Unlock(m), k), e, n);
  }

  lemma PaintPosts(k: Script, e: Event, n: nat)
    requires Posts(k, e, n)
    ensures Posts(PaintDisplay(k), e, n) && Posts(PaintPreview(k), e, n)
  {
    TouchPosts(Preview, k, e, n);
    Skips(Unlock(Screen), k, e, n);
    Skips(Peek, Do(Unlock(Screen), k), e, n);
    Skips(Lock(Screen), Do(Peek, Do(Unlock(Screen), k)), e, n);
  }

  lemma ScanPosts(a: Action, k: Script, e: Event, n: nat)
    requires Posts(k, e, n) && a != Post(e)
    ensures Posts(Do(a, Do(Unlock(Critical), k)), e, n)
    ensures Posts(Do(Lock(Critical), Do(a, Do(Unlock(Critical), k))), e, n)
  {
    Skips(Unlock(Critical), k, e, n);
    Skips(a, Do(Unlock(Critical), k), e, n);
    Skips(Lock(Critical), Do(a, Do(Unlock(Critical), k)), e, n);
  }

  lemma BitmapPosts(k: Script, e: Event, n: nat)
    requires Posts(k, e, n)
    ensures Posts(PreviewBitmap(k), e, n)
  {
    PaintPosts(k, e, n);
    TouchPosts(Preview, PaintPreview(k), e, n);
    ScanPosts(Scan(false), Do(Lock(Preview), Do(Unlock(Preview), PaintPreview(k))), e, n);
  }

  lemma DrawingPosts(e: Event)
    ensures Posts(DrawWaveforms(Done), e, 0)
  {
    var k := Do(Unlock(Critical), Done);
    Skips(Unlock(Critical), Done, e, 0);
    PaintPosts(k, e, 0);
    TouchPosts(Screen, PaintDisplay(k), e, 0);
    var k1 := Do(Lock(Screen), Do(Unlock(Screen), PaintDisplay(k)));
    Skips(Scan(true), k1, e, 0);
    Skips(Lock(Critical), Do(Scan(true), k1), e, 0);
  }

  lemma RepaintPosts(all: bool, e: Event)
    ensures Posts(Repaint(all, Done), e, 0) && Posts(Do(Unlock(Screen), Repaint(all, Done)), e, 0)
  {
    PaintPosts(Done, e, 0);
    Skips(Deref, PaintDisplay(Done), e, 0);
    Skips(Unlock(Screen), Repaint(all, Done), e, 0);
  }

  lemma AutoScalePosts(all: bool, e: Event)
    ensures Posts(AutoScaleScript(all), e, 0)
  {
    RepaintPosts(all, e);
    var k := Do(Unlock(Screen), Repaint(all, Done));
    TouchPosts(Critical, k, e, 0);
    Skips(Scan(all), Do(Lock(Critical), Do(Unlock(Critical), k)), e, 0);
    TouchPosts(Critical, UnlockedScan(all), e, 0);
    Skips(Lock(Screen), Do(Lock(Critical), Do(Unlock(Critical), UnlockedScan(all))), e, 0);
  }

  lemma MagnifyPosts(all: bool, e: Event)
    ensures Posts(MagnifyScript(all), e, 0)
  {
    RepaintPosts(all, e);
    var k := Do(Unlock(Screen), Repaint(all, Done));
    ScanPosts(Scan(all), k, e, 0);
    Skips(Lock(Screen), Do(Lock(Critical), Do(Scan(all), Do(Unlock(Critical), k))), e, 0);
  }

  lemma ShiftPosts(e: Event)
    ensures Posts(ShiftScript(), e, 0)
  {
    PaintPosts(Done, e, 0);
    Skips(Unlock(Screen), PaintDisplay(Done), e, 0);
    ScanPosts(Scan(false), Do(Unlock(Screen), PaintDisplay(Done)), e, 0);
    var k := Do(Scan(false), Do(Unlock(Critical), Do(Unlock(Screen), PaintDisplay(Done))));
    Skips(Deref, k, e, 0);
    Skips(Lock(Critical), Do(Deref, k), e, 0);
    Skips(Lock(Screen), Do(Lock(Critical), Do(Deref, k)), e, 0);
    Skips(Peek, Do(Lock(Screen), Do(Lock(Critical), Do(Deref, k))), e, 0);
  }

  lemma AfterClearPosts(e: Event)
    ensures Posts(AfterClear(), e, 0)
  {
    var k := Do(ShowToolbar(false), Done);
    PaintPosts(k, e, 0);
    PaintPosts(PaintDisplay(k), e, 0);
    TouchPosts(Screen, PaintDisplay(PaintDisplay(k)), e, 0);
  }

  lemma DisplayStopPosts(e: Event)
    ensures Posts(DisplayStop(), e, 0)
  {
    AfterClearPosts(e);
    var k := Do(Unlock(Screen), AfterClear());
    Skips(Unlock(Screen), AfterClear(), e, 0);
    ScanPosts(ClearList, k, e, 0);
    Skips(Lock(Screen), Do(Lock(Critical), Do(ClearList, Do(Unlock(Critical), k))), e, 0);
  }

  lemma StopHandlerPosts(k: Script, e: Event)
    requires Posts(k, e, 0)
    ensures Posts(Do(Lock(Preview), Do(Unlock(Preview), PaintPreview(k))), e, 0)
  {
    PaintPosts(k, e, 0);
    TouchPosts(Preview, PaintPreview(k), e, 0);
  }

  /** No handler of an event posts another. */
  lemma HandlersPostNothing(e0: Event, all: bool, small: bool, e: Event)
    ensures Posts(Handler(e0, all, small), e, 0)
  {
    DrawingPosts(e);
    match e0
    case Update =>
      var k := if small then Done else DrawWaveforms(Done);
      ScanPosts(Scan(true), k, e, 0);
      TouchPosts(Critical, RemoveOldData(k), e, 0);
    case Redraw =>
    case DrawPreview => PaintPosts(Done, e, 0); BitmapPosts(PaintPreview(Done), e, 0);
    case ZoomEv(AutoScale) => AutoScalePosts(all, e);
    case ZoomEv(Magnify) => MagnifyPosts(all, e);
    case ZoomEv(ShiftRange) => ShiftPosts(e);
    case StopEv => DisplayStopPosts(e); StopHandlerPosts(DisplayStop(), e);
    case SetText =>
  }

  lemma HitPosts(hit: bool, e: Event)
    ensures Posts(UserScript(DisplayPress(hit)), e, One(hit && e == DrawPreview))
  {
    var last := Do(Unlock(Critical), Done);
    Skips(Unlock(Critical), Done, e, 0);
    var n := One(e == DrawPreview);
    assert Posts(Do(Post(DrawPreview), last), e, n);
    PaintPosts(Do(Post(DrawPreview), last), e, n);
    var k := if hit then PaintDisplay(Do(Post(DrawPreview), last)) else last;
    Skips(Peek, k, e, One(hit && e == DrawPreview));
    Skips(Lock(Critical), Do(Peek, k), e, One(hit && e == DrawPreview));
  }

  /** The two scripts that post nothing if bContinue is clear. */
  lemma PressPosts(e: Event)
    ensures var k := UserScript(PreviewPress); k.IfRunning? && k.no == Done && Posts(k.yes, e, One(e == Redraw))
  {
    var k := Do(Post(Redraw), Done);
    BitmapPosts(k, e, One(e == Redraw));
    TouchPosts(Critical, PreviewBitmap(k), e, One(e == Redraw));
  }

  lemma MovePosts(e: Event)
    ensures var k := UserScript(MouseMove); k.IfRunning? && k.no == Done && Posts(k.yes, e, One(e == SetText))
  {
    Skips(Peek, Do(Post(SetText), Done), e, One(e == SetText));
  }

  lemma OthersPostNothing(u: UserAct, e: Event)
    requires u.RunClick? || u.Expose? || u.ResizePreview?
    ensures Posts(UserScript(u), e, 0) && UserScript(u) != Do(StartStop, Done)
  {
    PaintPosts(Done, e, 0);
    PaintPosts(PaintPreview(Done), e, 0);
    BitmapPosts(Done, e, 0);
    RunPosts(e);
  }

  lemma RunPosts(e: Event)
    ensures Posts(RunScript(), e, 0)
  {
    Skips(StartAcq, Done, e, 0);
    Skips(SetContinue, RunStarted(), e, 0);
    Skips(RebuildList, RunContinue(), e, 0);
    Skips(ClearList, RunRebuilt(), e, 0);
    Skips(ShowToolbar(true), RunCleared(), e, 0);
  }

  predicate Balanced(k: Script, e: Event) {
    Even(k, e) || k == UserScript(PreviewPress) || k == UserScript(MouseMove)
  }

  /** What the script of a click owes at first is what the click asks for. */
  lemma ClicksOwe(s: State, u: UserAct, e: Event)
    ensures Balanced(UserScript(u), e)
    ensures Owed(UserScript(u), e) + OwedByStop(UserScript(u), SIdle, e) == One(Asks(s, User(u), e))
  {
    match u
    case StopClick =>
    case ZoomClick(kind) =>
    case DisplayPress(hit) => HitPosts(hit, e);
    case PreviewPress => PressPosts(e);
    case MouseMove => MovePosts(e);
    case _ => OthersPostNothing(u, e);
  }

  // ---- one step ----

  /** In the queue or still owed. */
  function Coming(s: State, e: Event): nat {
    InQueue(s.queue, e) + Due(s, e)
  }

  /** One step. The quantifier keeps Coming from being unfolded where it is not needed. */
  ghost predicate Conserves(s: State, l: Label, e: Event)
    requires Enabled(s, l)
  {
    forall s' | Same(s', Step(s, l)) ::
      Balanced(s'.gui, e) && One(TakesUp(s, l, e)) + Coming(s', e) == Coming(s, e) + One(Asks(s, l, e))
  }

  predicate Same(s: State, t: State) {
    s == t
  }

  lemma QueueSnoc(q: seq<Event>, x: Event, e: Event)
    ensures InQueue(q + [x], e) == InQueue(q, e) + One(x == e) && q + [] == q
  {}

  lemma QueueHead(q: seq<Event>, e: Event)
    requires q != []
    ensures InQueue(q[1..], e) + One(q[0] == e) == InQueue(q, e)
  {
    assert q == [q[0]] + q[1..];
    assert multiset(q) == multiset{q[0]} + multiset(q[1..]);
  }

  lemma DrawOwes(w: Workers, fire: bool, q: seq<Event>, e: Event)
    ensures InQueue(q + DrawPosts(w.draw), e) + OwedByDraw(DrawDo(w, fire).draw, e)
         == InQueue(q, e) + OwedByDraw(w.draw, e) + One(w.draw == DSleep && fire && e in {Update, DrawPreview})
    ensures DrawDo(w, fire).stop == w.stop
  {
    QueueSnoc(q, Update, e);
    QueueSnoc(q, DrawPreview, e);
  }

  lemma DrawConserves(s: State, fire: bool, e: Event)
    requires Enabled(s, DrawStep(fire)) && Balanced(s.gui, e)
    ensures Conserves(s, DrawStep(fire), e)
  {
    DrawOwes(s.workers, fire, s.queue, e);
  }

  lemma StopOwes(k: Script, w: Workers, q: seq<Event>, e: Event)
    requires w.stop != SIdle
    ensures InQueue(q + StopPosts(w.stop), e) + OwedByStop(k, StopDo(w).stop, e)
         == InQueue(q, e) + OwedByStop(k, w.stop, e)
    ensures StopDo(w).draw == w.draw
  {
    QueueSnoc(q, StopEv, e);
  }

  lemma StopConserves(s: State, e: Event)
    requires Enabled(s, StopStep) && Balanced(s.gui, e)
    ensures Conserves(s, StopStep, e)
  {
    StopOwes(s.gui, s.workers, s.queue, e);
  }

  lemma HandlersStartNoStop(e: Event, all: bool, small: bool)
    ensures Handler(e, all, small) != Do(StartStop, Done)
  {}

  lemma DeliverConserves(s: State, all: bool, small: bool, e: Event)
    requires Enabled(s, Deliver(all, small))
    ensures Conserves(s, Deliver(all, small), e)
  {
    HandlersPostNothing(s.queue[0], all, small, e);
    HandlersStartNoStop(s.queue[0], all, small);
    DeliverTo(s, Handler(s.queue[0], all, small), e);
  }

  lemma DeliverTo(s: State, k: Script, e: Event)
    requires s.gui == Done && s.queue != [] && Posts(k, e, 0) && k != Do(StartStop, Done)
    ensures Balanced(k, e)
    ensures One(s.queue[0] == e) + Coming(s.(queue := s.queue[1..], gui := k), e) == Coming(s, e)
  {
    QueueHead(s.queue, e);
  }

  lemma UserConserves(s: State, u: UserAct, e: Event)
    requires Enabled(s, User(u))
    ensures Conserves(s, User(u), e)
  {
    ClicksOwe(s, u, e);
  }

  lemma QueueAct(q: seq<Event>, a: Action, e: Event)
    ensures InQueue(ActQueue(q, a), e) == InQueue(q, e) + One(a == Post(e))
  {
    if a.Post? {
      QueueSnoc(q, a.e, e);
    }
  }

  lemma StopAct(w: Workers, a: Action, k: Script, e: Event)
    requires k != Do(StartStop, Done) && (a == StartStop ==> k == Done && w.stop == SIdle)
    ensures OwedByStop(k, ActWorkers(w, a).stop, e) == OwedByStop(Do(a, k), w.stop, e)
    ensures ActWorkers(w, a).draw == w.draw
  {}

  lemma NotATest(a: Action, k: Script)
    ensures Do(a, k) != UserScript(PreviewPress) && Do(a, k) != UserScript(MouseMove)
  {}

  lemma ActConserves(s: State, a: Action, k: Script, e: Event)
    requires GuiEnabled(s) && s.gui == Do(a, k) && Even(k, e) && k != Do(StartStop, Done)
    requires a == StartStop ==> k == Done && s.workers.stop == SIdle
    ensures Conserves(s, GuiStep, e)
  {
    NotATest(a, k);
    QueueAct(s.queue, a, e);
    StopAct(s.workers, a, k, e);
  }

  /** What a test of bContinue adds to what is owed. */
  lemma TestOwes(k: Script, running: bool, e: Event)
    requires k.IfRunning? && Balanced(k, e)
    ensures var next := if running then k.yes else k.no;
      && Even(next, e)
      && Owed(next, e) == Owed(k, e) + One(|| (running && k == UserScript(PreviewPress) && e == Redraw)
                                           || (running && k == UserScript(MouseMove) && e == SetText))
  {
    PressPosts(e);
    MovePosts(e);
  }

  lemma TestConserves(s: State, e: Event)
    requires GuiEnabled(s) && s.gui.IfRunning? && Balanced(s.gui, e)
    requires s.gui.yes != Do(StartStop, Done) && s.gui.no != Do(StartStop, Done)
    ensures Conserves(s, GuiStep, e)
  {
    TestOwes(s.gui, s.workers.running, e);
  }

  lemma OkStartsNoStop(k: Script, h: Held, m: Mode)
    requires Ok(k, h, m)
    ensures k != Do(StartStop, Done)
  {}

  lemma OkNext(a: Action, k: Script, h: Held, m: Mode)
    requires Ok(Do(a, k), h, m)
    ensures k != Do(StartStop, Done) && a != StartStop
  {
    match a
    case Lock(x) => OkStartsNoStop(k, With(h, x, true), m);
    case Unlock(x) => OkStartsNoStop(k, With(h, x, false), m);
    case ClearList => OkStartsNoStop(k, h, Cleared);
    case ShowToolbar(_) => OkStartsNoStop(k, h, Plain);
    case _ => OkStartsNoStop(k, h, m);
  }

  lemma OkTests(yes: Script, no: Script, h: Held, m: Mode)
    requires Ok(IfRunning(yes, no), h, m)
    ensures yes != Do(StartStop, Done) && no != Do(StartStop, Done)
  {
    OkStartsNoStop(yes, h, m);
    OkStartsNoStop(no, h, m);
  }

  predicate WellLocked(s: State) {
    exists m :: Ok(s.gui, HeldByGui(s.locks), m)
  }

  /** Only the script of the click on Stop starts the stop thread, and it does nothing else. */
  lemma OnlyStopStarts(s: State)
    requires Inv(s) && GuiEnabled(s)
    ensures WellLocked(s) || s.workers.stop == SIdle
    ensures WellLocked(s) || s.gui == Do(StartStop, Done) || StartPoint(s.gui, s.view, s.workers.running)
  {
    if !Starting(s) && s.gui != Do(StartStop, Done) {
      var m := if !Closing(s) then Plain else if Listed(s.view) then Clearing else Cleared;
      assert Ok(s.gui, HeldByGui(s.locks), m);
    }
  }

  lemma StopIsStarted(s: State)
    requires Inv(s) && GuiEnabled(s) && s.gui.Do?
    ensures s.gui.next != Do(StartStop, Done)
    ensures s.gui.act == StartStop ==> s.gui.next == Done && s.workers.stop == SIdle
  {
    OnlyStopStarts(s);
    if WellLocked(s) {
      var m :| Ok(s.gui, HeldByGui(s.locks), m);
      OkNext(s.gui.act, s.gui.next, HeldByGui(s.locks), m);
    }
  }

  lemma TestIsPlain(s: State)
    requires Inv(s) && GuiEnabled(s) && s.gui.IfRunning?
    ensures s.gui.yes != Do(StartStop, Done) && s.gui.no != Do(StartStop, Done)
  {
    OnlyStopStarts(s);
    var m :| Ok(s.gui, HeldByGui(s.locks), m);
    OkTests(s.gui.yes, s.gui.no, HeldByGui(s.locks), m);
  }

  lemma GuiConserves(s: State, e: Event)
    requires Inv(s) && GuiEnabled(s) && Balanced(s.gui, e)
    ensures Conserves(s, GuiStep, e)
  {
    match s.gui
    case IfRunning(_, _) =>
      TestIsPlain(s);
      TestConserves(s, e);
    case Do(a, k) =>
      NotATest(a, k);
      StopIsStarted(s);
      ActConserves(s, a, k, e);
  }

  lemma AcqOwes(w: Workers, r: Reply, e: Event)
    requires Together(w)
    ensures OwedByDraw(AcqDo(w, r).draw, e) == OwedByDraw(w.draw, e) && AcqDo(w, r).stop == w.stop
  {}

  lemma AcqConserves(s: State, r: Reply, e: Event)
    requires Together(s.workers) && Enabled(s, AcqStep(r)) && Balanced(s.gui, e)
    ensures Conserves(s, AcqStep(r), e)
  {
    AcqOwes(s.workers, r, e);
  }

  lemma StepConserves(s: State, l: Label, e: Event)
    requires Inv(s) && Enabled(s, l) && Balanced(s.gui, e)
    ensures Conserves(s, l, e)
  {
    match l
    case GuiStep => GuiConserves(s, e);
    case Deliver(all, small) => DeliverConserves(s, all, small, e);
    case User(u) => UserConserves(s, u, e);
    case DrawStep(fire) => DrawConserves(s, fire, e);
    case StopStep => StopConserves(s, e);
    case AcqStep(r) => AcqConserves(s, r, e);
    case IntrStep =>
  }

  // ---- every run ----

  lemma {:induction false} RunConserves(s: State, ls: seq<Label>, e: Event)
    requires Inv(s) && Balanced(s.gui, e) && IsRun(s, ls)
    ensures TakenUp(s, ls, e) + Coming(Run(s, ls), e) == Coming(s, e) + AskedFor(s, ls, e)
    decreases |ls|
  {
    if ls != [] {
      StepConserves(s, ls[0], e);
      StepKeeps(s, ls[0]);
      RunConserves(Step(s, ls[0]), ls[1..], e);
    }
  }

  /** In every run, whatever the order of the threads, each event asked for has been taken up, or waits in the queue,
      or is still to be posted, and there are no others. */
  lemma EventsAreConserved(ls: seq<Label>, e: Event)
    requires IsRun(INIT, ls)
    ensures var s := Run(INIT, ls); TakenUp(INIT, ls, e) + InQueue(s.queue, e) + Due(s, e) == AskedFor(INIT, ls, e)
  {
    assert Idle(INIT);
    RunConserves(INIT, ls, e);
  }

  /** So with no thread of a run alive, nothing in the queue and the GUI at rest, as many Updates have been handled as
      the draw thread has fired, and as many stops as have been clicked. */
  lemma NothingIsLeftOver(ls: seq<Label>, e: Event)
    requires IsRun(INIT, ls) && Run(INIT, ls).queue == [] && Run(INIT, ls).gui == Done && Resting(Run(INIT, ls).workers)
    ensures TakenUp(INIT, ls, e) == AskedFor(INIT, ls, e)
  {
    EventsAreConserved(ls, e);
  }

  // ---- the data of frames ----

  /** How many steps of a run receive a frame with data. */
  function Received(s: State, ls: seq<Label>): nat
    requires IsRun(s, ls)
    decreases |ls|
  {
    if ls == [] then 0
    else One(s.workers.acq == Frame && ls[0] == AcqStep(DataFrame)) + Received(Step(s, ls[0]), ls[1..])
  }

  /** How many steps of a run append a block. */
  function Appended(s: State, ls: seq<Label>): nat
    requires IsRun(s, ls)
    decreases |ls|
  {
    if ls == [] then 0
    else One(s.workers.acq == Append && ls[0].AcqStep?) + Appended(Step(s, ls[0]), ls[1..])
  }

  predicate HasData(w: Workers) {
    w.acq in {WantLock, Append}
  }

  lemma DataAcq(w: Workers, r: Reply)
    requires w.acq != Ended
    ensures One(HasData(w)) + One(w.acq == Frame && r == DataFrame) == One(HasData(AcqDo(w, r))) + One(w.acq == Append)
  {}

  lemma OthersKeepAcq(w: Workers, fire: bool)
    ensures DrawDo(w, fire).acq == w.acq && IntrDo(w).acq == w.acq && StopDo(w).acq == w.acq
  {}

  lemma DataStep(s: State, l: Label)
    requires Inv(s) && Enabled(s, l)
    ensures One(HasData(s.workers)) + One(s.workers.acq == Frame && l == AcqStep(DataFrame))
         == One(HasData(Step(s, l).workers)) + One(s.workers.acq == Append && l.AcqStep?)
  {
    match l
    case GuiStep => StartsAtRest(s);
    case AcqStep(r) => DataAcq(s.workers, r);
    case DrawStep(fire) => OthersKeepAcq(s.workers, fire);
    case IntrStep => OthersKeepAcq(s.workers, false);
    case StopStep => OthersKeepAcq(s.workers, false);
    case _ =>
  }

  lemma StartsAtRest(s: State)
    requires Inv(s) && GuiEnabled(s)
    ensures GuiDo(s).workers.acq == s.workers.acq || (s.workers.acq == Ended && GuiDo(s).workers.acq == Begin)
  {
    if s.gui.Do? && s.gui.act == StartAcq {
      OnlyStopStarts(s);
      if WellLocked(s) {
        var m :| Ok(s.gui, HeldByGui(s.locks), m);
      }
    }
  }

  lemma {:induction false} DataConserved(s: State, ls: seq<Label>)
    requires Inv(s) && IsRun(s, ls)
    ensures One(HasData(s.workers)) + Received(s, ls) == Appended(s, ls) + One(HasData(Run(s, ls).workers))
    decreases |ls|
  {
    if ls != [] {
      DataStep(s, ls[0]);
      StepKeeps(s, ls[0]);
      DataConserved(Step(s, ls[0]), ls[1..]);
    }
  }

  /** Every frame of data that is received is appended once, unless it is still in hand; nothing else is appended. */
  lemma DataIsAppendedOnce(ls: seq<Label>)
    requires IsRun(INIT, ls)
    ensures Received(INIT, ls) == Appended(INIT, ls) + One(HasData(Run(INIT, ls).workers))
  {
    assert Idle(INIT);
    DataConserved(INIT, ls);
  }

  // ---- the draw thread by itself ----

  /** When it fires, its next two steps post an Update and then a DrawPreview; its other steps post nothing. */
  lemma FiringPostsBoth(s: State, next: bool, last: bool)
    requires s.workers.draw == DSleep
    ensures var s1 := Step(s, DrawStep(true));
            var s2 := Step(s1, DrawStep(next));
            var s3 := Step(s2, DrawStep(last));
            && s1.queue == s.queue && s2.queue == s.queue + [Update] && s3.queue == s.queue + [Update, DrawPreview]
            && s3.workers == s.workers.(draw := DTest)
    ensures Step(s, DrawStep(false)).queue == s.queue
  {
    assert s.queue + [] == s.queue;
    assert (s.queue + [Update]) + [DrawPreview] == s.queue + [Update, DrawPreview];
  }

  lemma TestPostsNothing(s: State, fire: bool)
    requires s.workers.draw == DTest
    ensures Step(s, DrawStep(fire)).queue == s.queue
    ensures Step(s, DrawStep(fire)).workers.draw == if s.workers.running then DSleep else DEnd
  {
    assert s.queue + [] == s.queue;
  }
}
