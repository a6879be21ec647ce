/** The start/stop protocol of the display program: five threads, three mutexes and the Qt event queue, as
    interleaved steps. The GUI thread works through scripts, one per event handler; the acquisition, draw,
    interrupt and stop threads are automata over their run() functions. */
module StopProtocol {

  /** CRTDisplay::Critical, CRTDisplay::ScreenBitmapCriticalSection, CPreview::ScreenBitmapCriticalSection. */
  datatype Mutex = Critical | Screen | Preview

  datatype Holder = Free | Gui | Acq

  /** AutoScale0/1, ExpandVert/ContractVert, ShiftUp/Down. */
  datatype Zoom = AutoScale | Magnify | ShiftRange

  datatype Event = Update | Redraw | DrawPreview | ZoomEv(kind: Zoom) | StopEv | SetText

  /** The steps of GUI code that matter to other threads. Peek looks at the window list and copes with an empty
      one; Deref uses a window of it without asking; Scan walks the data blocks of all windows, or of the active one
      without asking whether there is one. */
  datatype Action =
    | Lock(m: Mutex) | Unlock(m: Mutex)
    | Peek | Deref | Scan(all: bool) | ClearList | RebuildList
    | SetContinue | ShowToolbar(running: bool) | Post(e: Event) | StartAcq | StartStop

  /** What the GUI thread has left to do; IfRunning is a test of bContinue. */
  datatype Script = Done | Do(act: Action, next: Script) | IfRunning(yes: Script, no: Script)

  // ---- the handlers, each written in front of what follows it ----

  function PaintDisplay(k: Script): Script {
    Do(Lock(Screen), Do(Peek, Do(Unlock(Screen), k)))
  }

  function PaintPreview(k: Script): Script {
    IfRunning(Do(Lock(Preview), Do(Unlock(Preview), k)), k)
  }

  /** DrawWaveforms takes Critical, then Screen; its repaint takes Screen again, still under Critical. */
  function DrawWaveforms(k: Script): Script {
    Do(Lock(Critical), Do(Scan(true), Do(Lock(Screen), Do(Unlock(Screen), PaintDisplay(Do(Unlock(Critical), k))))))
  }

  function SetTime(k: Script): Script {
    Do(Lock(Critical), Do(Unlock(Critical), k))
  }

  function RemoveOldData(k: Script): Script {
    Do(Lock(Critical), Do(Scan(true), Do(Unlock(Critical), k)))
  }

  function PreviewBitmap(k: Script): Script {
    IfRunning(Do(Lock(Critical), Do(Scan(false), Do(Unlock(Critical),
                 Do(Lock(Preview), Do(Unlock(Preview), PaintPreview(k)))))),
              k)
  }

  /** After one window (the active one) or, with the shift key, all of them. */
  function Repaint(all: bool, k: Script): Script {
    if all then PaintDisplay(k) else Do(Deref, PaintDisplay(k))
  }

  /** OnAutoScale takes Screen, then Critical, but scales and draws with Critical released. */
  function AutoScaleScript(all: bool): Script {
    Do(Lock(Screen), Do(Lock(Critical), Do(Unlock(Critical), UnlockedScan(all))))
  }

  function UnlockedScan(all: bool): Script {
    Do(Scan(all), Do(Lock(Critical), Do(Unlock(Critical), Do(Unlock(Screen), Repaint(all, Done)))))
  }

  function MagnifyScript(all: bool): Script {
    Do(Lock(Screen), Do(Lock(Critical), Do(Scan(all), Do(Unlock(Critical), Do(Unlock(Screen), Repaint(all, Done))))))
  }

  function ShiftScript(): Script {
    Do(Peek, Do(Lock(Screen), Do(Lock(Critical), Do(Deref, Do(Scan(false),
       Do(Unlock(Critical), Do(Unlock(Screen), PaintDisplay(Done))))))))
  }

  /** CRTDisplay::Stop, then the toolbar. */
  function DisplayStop(): Script {
    Do(Lock(Screen), Do(Lock(Critical), Do(ClearList, Do(Unlock(Critical), Do(Unlock(Screen), AfterClear())))))
  }

  function AfterClear(): Script {
    Do(Lock(Screen), Do(Unlock(Screen), PaintDisplay(PaintDisplay(Do(ShowToolbar(false), Done)))))
  }

  /** What the handler of an event does; small says that the display is too small to draw. */
  function Handler(e: Event, all: bool, small: bool): Script {
    match e
    case Update => SetTime(RemoveOldData(if small then Done else DrawWaveforms(Done)))
    case Redraw => if small then Done else DrawWaveforms(Done)
    case DrawPreview => PreviewBitmap(PaintPreview(Done))
    case ZoomEv(AutoScale) => AutoScaleScript(all)
    case ZoomEv(Magnify) => MagnifyScript(all)
    case ZoomEv(ShiftRange) => ShiftScript()
    case StopEv => Do(Lock(Preview), Do(Unlock(Preview), PaintPreview(DisplayStop())))
    case SetText => Done
  }

  datatype UserAct =
    | RunClick(selected: nat) | StopClick | ZoomClick(kind: Zoom)
    | DisplayPress(hit: bool) | PreviewPress | MouseMove | Expose | ResizePreview

  function RunScript(): Script {
    Do(ShowToolbar(true), RunCleared())
  }

  function RunCleared(): Script {
    Do(ClearList, RunRebuilt())
  }

  function RunRebuilt(): Script {
    Do(RebuildList, RunContinue())
  }

  function RunContinue(): Script {
    Do(SetContinue, RunStarted())
  }

  function RunStarted(): Script {
    Do(StartAcq, Done)
  }

  function UserScript(u: UserAct): Script {
    match u
    case RunClick(n) => if n == 0 then Done else RunScript()
    case StopClick => Do(StartStop, Done)
    case ZoomClick(kind) => Do(Post(ZoomEv(kind)), Done)
    case DisplayPress(hit) =>
      Do(Lock(Critical), Do(Peek, if hit then PaintDisplay(Do(Post(DrawPreview), Do(Unlock(Critical), Done)))
                                  else Do(Unlock(Critical), Done)))
    case PreviewPress =>
      IfRunning(Do(Lock(Critical), Do(Unlock(Critical), PreviewBitmap(Do(Post(Redraw), Done)))), Done)
    case MouseMove => IfRunning(Do(Peek, Do(Post(SetText), Done)), Done)
    case Expose => PaintDisplay(PaintPreview(Done))
    case ResizePreview => PreviewBitmap(Done)
  }

  // ---- the other threads ----

  /** GettingDataThread::run, by what comes next: Begin and Begin2 start the helpers; Outer, Check1, Check2 and
      Inner test bContinue; Alloc and Connect make the request; a read looks at the break flag at Poll and waits for
      a frame at Frame; WantLock, Append and Release are the locked append; the Joins wait for the helpers. */
  datatype AcqPc =
    | Ended | Begin | Begin2 | Outer | Alloc | Check1 | Connect | Check2 | Inner | Poll | Frame
    | WantLock | Append | Release | JoinDraw | JoinIntr

  datatype DrawPc = DEnd | DTest | DSleep | DPost1 | DPost2

  datatype IntrPc = IEnd | ITest | ISleep | IBreak

  datatype StopPc = SIdle | SDisable | SClear | SWait | SEnable | SPost

  /** What the server does for a call of the ISI library. A request succeeds or fails; a read gets a frame with data,
      with data that cannot be unpacked, the end of the request, or some other frame, or it loses the connection and
      cannot reconnect. Pending is anything that lets the call wait on: a heartbeat instead of the acknowledgement, or
      for a read a receive that fails and a reconnect that succeeds. */
  datatype Reply =
    | Success | Failure
    | DataFrame | BadFrame | EndFrame | OtherFrame | LostServer
    | Pending

  /** Who holds which mutex. */
  datatype Locks = Locks(critical: Holder, screen: Holder, preview: Holder)

  /** What the user sees and what it shows. */
  datatype View = View(
    toolbar: bool,        // the toolbar shows the running buttons
    enabled: bool,        // the toolbar accepts clicks
    selected: nat,        // channels selected when Run was clicked
    windows: nat,         // length of the window list
    stopAsked: bool,      // Stop was clicked in this run
    crashed: bool)        // a window of an empty list was used

  /** bContinue, the helper threads, and the connection they share. */
  datatype Workers = Workers(
    running: bool,        // bContinue
    acq: AcqPc, draw: DrawPc, intr: IntrPc, stop: StopPc,
    conn: bool,           // isi is not NULL
    flag: bool)           // the break flag of the current connection

  datatype State = State(gui: Script, queue: seq<Event>, locks: Locks, view: View, workers: Workers)

  const INIT := State(Done, [], Locks(Free, Free, Free), View(false, true, 0, 0, false, false),
                      Workers(false, Ended, DEnd, IEnd, SIdle, false, false))

  datatype Label =
    | GuiStep | Deliver(all: bool, small: bool) | User(u: UserAct)
    | AcqStep(r: Reply) | DrawStep(fire: bool) | IntrStep | StopStep

  function HolderOf(l: Locks, m: Mutex): Holder {
    match m case Critical => l.critical case Screen => l.screen case Preview => l.preview
  }

  function SetHolder(l: Locks, m: Mutex, h: Holder): Locks {
    match m case Critical => l.(critical := h) case Screen => l.(screen := h) case Preview => l.(preview := h)
  }

  // ---- when a thread can move ----

  predicate GuiEnabled(s: State) {
    match s.gui
    case Done => false
    case IfRunning(_, _) => true
    case Do(a, _) => a.Lock? ==> HolderOf(s.locks, a.m) == Free
  }

  predicate UserEnabled(v: View, u: UserAct) {
    match u
    case RunClick(_) => !v.toolbar && v.enabled
    case StopClick => v.toolbar && v.enabled && !v.stopAsked
    case ZoomClick(_) => v.toolbar && v.enabled
    case _ => true
  }

  predicate AcqEnabled(w: Workers, critical: Holder, r: Reply) {
    match w.acq
    case Ended => false
    case Alloc => r in {Success, Failure}
    case Connect => r in {Success, Failure, Pending}
    case Frame => r !in {Success, Failure}
    case WantLock => critical == Free
    case JoinDraw => w.draw == DEnd
    case JoinIntr => w.intr == IEnd
    case _ => true
  }

  predicate StopEnabled(w: Workers) {
    w.stop != SIdle && (w.stop == SWait ==> w.acq == Ended)
  }

  predicate Enabled(s: State, l: Label) {
    match l
    case GuiStep => GuiEnabled(s)
    case Deliver(_, _) => s.gui == Done && s.queue != []
    case User(u) => s.gui == Done && UserEnabled(s.view, u)
    case AcqStep(r) => AcqEnabled(s.workers, s.locks.critical, r)
    case DrawStep(_) => s.workers.draw != DEnd
    case IntrStep => s.workers.intr != IEnd
    case StopStep => StopEnabled(s.workers)
  }

  // ---- what a move does ----

  function ActLocks(l: Locks, a: Action): Locks {
    match a
    case Lock(m) => SetHolder(l, m, Gui)
    case Unlock(m) => SetHolder(l, m, Free)
    case _ => l
  }

  function ActView(v: View, a: Action): View {
    match a
    case Deref => v.(crashed := v.crashed || v.windows == 0)
    case Scan(all) => v.(crashed := v.crashed || (!all && v.windows == 0))
    case ClearList => v.(windows := 0)
    case RebuildList => v.(windows := v.selected)
    case ShowToolbar(r) => v.(toolbar := r, stopAsked := false)
    case _ => v
  }

  function ActWorkers(w: Workers, a: Action): Workers {
    match a
    case SetContinue => w.(running := true)
    case StartAcq => w.(acq := Begin)
    case StartStop => w.(stop := SDisable)
    case _ => w
  }

  function ActQueue(q: seq<Event>, a: Action): seq<Event> {
    match a
    case Post(e) => q + [e]
    case _ => q
  }

  function GuiDo(s: State): State
    requires GuiEnabled(s)
  {
    match s.gui
    case IfRunning(yes, no) => s.(gui := if s.workers.running then yes else no)
    case Do(a, k) =>
      State(k, ActQueue(s.queue, a), ActLocks(s.locks, a), ActView(s.view, a), ActWorkers(s.workers, a))
  }

  function UserDo(v: View, u: UserAct): View {
    match u
    case RunClick(n) => v.(selected := n)
    case StopClick => v.(stopAsked := true)
    case _ => v
  }

  /** Where a read goes from waiting for a frame. */
  function AfterFrame(r: Reply): AcqPc {
    match r
    case DataFrame => WantLock
    case BadFrame | LostServer => Inner
    case EndFrame => Outer
    case OtherFrame => Poll
    case _ => Frame
  }

  function AcqDo(w: Workers, r: Reply): Workers {
    match w.acq
    case Ended => w
    case Begin => w.(draw := DTest, acq := Begin2, conn := false, flag := false)
    case Begin2 => w.(intr := ITest, acq := Outer)
    case Outer => w.(acq := if w.running then Alloc else JoinDraw)
    case Alloc => w.(acq := if r.Success? then Check1 else Outer)
    case Check1 => w.(acq := if w.running then Connect else JoinDraw)
    case Connect =>
      if r.Pending? then w
      else if r.Success? then w.(conn := true, flag := false, acq := Check2)
      else w.(conn := false, acq := Outer)
    case Check2 => w.(acq := if w.running then Inner else JoinDraw)
    case Inner => w.(acq := if w.running then Poll else Outer)
    case Poll => w.(acq := if w.flag then Outer else Frame)
    case Frame => w.(acq := AfterFrame(r))
    case WantLock => w.(acq := Append)
    case Append => w.(acq := Release)
    case Release => w.(acq := Inner)
    case JoinDraw => w.(acq := JoinIntr)
    case JoinIntr => w.(acq := Ended)
  }

  function AcqLocks(l: Locks, acq: AcqPc): Locks {
    match acq
    case WantLock => l.(critical := Acq)
    case Release => l.(critical := Free)
    case _ => l
  }

  function DrawDo(w: Workers, fire: bool): Workers {
    match w.draw
    case DEnd => w
    case DTest => w.(draw := if w.running then DSleep else DEnd)
    case DSleep => w.(draw := if fire then DPost1 else DTest)
    case DPost1 => w.(draw := DPost2)
    case DPost2 => w.(draw := DTest)
  }

  function DrawPosts(draw: DrawPc): seq<Event> {
    match draw
    case DPost1 => [Update]
    case DPost2 => [DrawPreview]
    case _ => []
  }

  function IntrDo(w: Workers): Workers {
    match w.intr
    case IEnd => w
    case ITest => w.(intr := if w.running then ISleep else IBreak)
    case ISleep => w.(intr := ITest)
    case IBreak => w.(intr := IEnd, flag := w.flag || w.conn)
  }

  function StopDo(w: Workers): Workers {
    match w.stop
    case SIdle => w
    case SDisable => w.(stop := SClear)
    case SClear => w.(stop := SWait, running := false)
    case SWait => w.(stop := SEnable)
    case SEnable => w.(stop := SPost)
    case SPost => w.(stop := SIdle)
  }

  function StopView(v: View, stop: StopPc): View {
    match stop
    case SDisable => v.(enabled := false)
    case SEnable => v.(enabled := true)
    case _ => v
  }

  function StopPosts(stop: StopPc): seq<Event> {
    if stop == SPost then [StopEv] else []
  }

  function Step(s: State, l: Label): State
    requires Enabled(s, l)
  {
    match l
    case GuiStep => GuiDo(s)
    case Deliver(all, small) => s.(queue := s.queue[1..], gui := Handler(s.queue[0], all, small))
    case User(u) => s.(gui := UserScript(u), view := UserDo(s.view, u))
    case AcqStep(r) => s.(workers := AcqDo(s.workers, r), locks := AcqLocks(s.locks, s.workers.acq))
    case DrawStep(fire) => s.(workers := DrawDo(s.workers, fire), queue := s.queue + DrawPosts(s.workers.draw))
    case IntrStep => s.(workers := IntrDo(s.workers))
    case StopStep =>
      s.(workers := StopDo(s.workers), view := StopView(s.view, s.workers.stop),
         queue := s.queue + StopPosts(s.workers.stop))
  }

  /** The labels are a run from s. */
  predicate IsRun(s: State, ls: seq<Label>)
    decreases |ls|
  {
    ls == [] || (Enabled(s, ls[0]) && IsRun(Step(s, ls[0]), ls[1..]))
  }

  function Run(s: State, ls: seq<Label>): State
    requires IsRun(s, ls)
    decreases |ls|
  {
    if ls == [] then s else Run(Step(s, ls[0]), ls[1..])
  }
}
