/** The invariant of the start/stop protocol, kept by every step of every thread. */
module StopInvariant {
  import opened StopProtocol
  import opened StopFacts

  /** The acquisition, draw and interrupt threads have all ended. */
  predicate Quiet(w: Workers) {
    w.acq == Ended && w.draw == DEnd && w.intr == IEnd
  }

  // ---- what holds between the threads, whatever the GUI does ----

  /** The helpers live inside the acquisition thread; one that has broken off or ended has seen bContinue cleared;
      and the connection of a read that nobody will interrupt has been flagged. */
  predicate Together(w: Workers) {
    && (w.acq in {Ended, Begin} ==> w.draw == DEnd)
    && (w.acq in {Ended, Begin, Begin2} ==> w.intr == IEnd)
    && (w.acq == JoinIntr ==> w.draw == DEnd)
    && (w.acq in {JoinDraw, JoinIntr} ==> !w.running)
    && (w.acq in {Check2, Inner, Poll, Frame, WantLock, Append, Release} ==> w.conn)
    && (w.acq !in {Ended, Begin, Begin2} && w.intr in {IBreak, IEnd} ==> !w.running)
    && (w.acq in {Poll, Frame} && w.intr == IEnd ==> w.flag)
  }

  predicate LocksMatch(l: Locks, acq: AcqPc) {
    && l.screen != Acq && l.preview != Acq
    && (l.critical == Acq <==> acq in {Append, Release})
  }

  lemma AcqKeeps(w: Workers, l: Locks, r: Reply)
    requires Together(w) && LocksMatch(l, w.acq) && AcqEnabled(w, l.critical, r)
    ensures Together(AcqDo(w, r)) && LocksMatch(AcqLocks(l, w.acq), AcqDo(w, r).acq)
    ensures HeldByGui(AcqLocks(l, w.acq)) == HeldByGui(l)
    ensures AcqDo(w, r).acq == Ended ==> Quiet(AcqDo(w, r)) && !w.running
  {}

  lemma OthersKeep(w: Workers, fire: bool)
    requires Together(w)
    ensures Together(DrawDo(w, fire)) && Together(IntrDo(w)) && Together(StopDo(w))
  {}

  // ---- the phases of a run ----

  predicate NoStop(q: seq<Event>) {
    StopEv !in q
  }

  predicate Clean(q: seq<Event>) {
    Update !in q && StopEv !in q
  }

  /** One StopEv, with nothing but harmless events after it. */
  predicate OneStop(q: seq<Event>) {
    q != [] && if q[0] == StopEv then Clean(q[1..]) else OneStop(q[1..])
  }

  predicate Listed(v: View) {
    v.windows == v.selected > 0
  }

  predicate PlainGui(s: State) {
    Ok(s.gui, HeldByGui(s.locks), Plain)
  }

  /** No thread of a run is alive: neither the helpers nor the stop thread. */
  predicate Resting(w: Workers) {
    Quiet(w) && w.stop == SIdle
  }

  predicate Idle(s: State) {
    && Resting(s.workers) && !s.workers.running
    && !s.view.toolbar && s.view.enabled && !s.view.stopAsked && s.view.windows == 0
    && Clean(s.queue) && PlainGui(s)
  }

  predicate StartPoint(k: Script, v: View, running: bool) {
    || (k == RunScript() && !v.toolbar && !running && v.windows == 0)
    || (k == RunCleared() && v.toolbar && !running && v.windows == 0)
    || (k == RunRebuilt() && v.toolbar && !running && v.windows == 0)
    || (k == RunContinue() && v.toolbar && !running && Listed(v))
    || (k == RunStarted() && v.toolbar && running && Listed(v))
  }

  predicate Starting(s: State) {
    && Resting(s.workers) && s.view.enabled && !s.view.stopAsked && s.view.selected > 0
    && Clean(s.queue) && HeldByGui(s.locks) == NONE && StartPoint(s.gui, s.view, s.workers.running)
  }

  predicate Active(s: State) {
    && s.workers.acq != Ended && s.workers.stop == SIdle && s.workers.running
    && s.view.toolbar && s.view.enabled && Listed(s.view) && NoStop(s.queue)
    && if s.view.stopAsked then s.gui == Do(StartStop, Done) && HeldByGui(s.locks) == NONE else PlainGui(s)
  }

  predicate StopWorks(w: Workers, enabled: bool) {
    && w.stop != SIdle
    && (w.running <==> w.stop in {SDisable, SClear})
    && (enabled <==> w.stop in {SDisable, SPost})
    && (w.running ==> w.acq != Ended)
    && (w.stop in {SEnable, SPost} ==> Quiet(w))
  }

  predicate Halting(s: State) {
    && StopWorks(s.workers, s.view.enabled)
    && s.view.toolbar && s.view.stopAsked && Listed(s.view) && NoStop(s.queue) && PlainGui(s)
  }

  predicate Posted(s: State) {
    && Resting(s.workers) && !s.workers.running
    && s.view.toolbar && s.view.enabled && s.view.stopAsked && Listed(s.view)
    && OneStop(s.queue) && PlainGui(s)
  }

  predicate Closing(s: State) {
    && Resting(s.workers) && !s.workers.running && s.view.toolbar && s.view.enabled && Clean(s.queue)
    && if Listed(s.view) then Ok(s.gui, HeldByGui(s.locks), Clearing)
       else s.view.windows == 0 && Ok(s.gui, HeldByGui(s.locks), Cleared)
  }

  predicate InPhase(s: State) {
    Idle(s) || Starting(s) || Active(s) || Halting(s) || Posted(s) || Closing(s)
  }

  predicate Inv(s: State) {
    Together(s.workers) && LocksMatch(s.locks, s.workers.acq) && InPhase(s)
  }

  // ---- the queue ----

  lemma {:induction false} OneStopSnoc(q: seq<Event>, e: Event)
    requires OneStop(q) && e != Update && e != StopEv
    ensures OneStop(q + [e])
  {
    assert (q + [e])[0] == q[0];
    assert (q + [e])[1..] == q[1..] + [e];
    if q[0] != StopEv {
      OneStopSnoc(q[1..], e);
    }
  }

  lemma {:induction false} StopSnoc(q: seq<Event>)
    requires NoStop(q)
    ensures OneStop(q + [StopEv])
  {
    if q == [] {
      assert [StopEv][1..] == [];
    } else {
      assert (q + [StopEv])[0] == q[0] != StopEv;
      assert (q + [StopEv])[1..] == q[1..] + [StopEv];
      StopSnoc(q[1..]);
    }
  }

  // ---- the steps of the GUI ----

  /** An action of a well-locked script leaves the rest of it well locked. */
  lemma ActKeepsOk(a: Action, k: Script, l: Locks, m: Mode)
    requires Ok(Do(a, k), HeldByGui(l), m)
    requires a.Lock? ==> HolderOf(l, a.m) == Free
    ensures Ok(k, HeldByGui(ActLocks(l, a)), if a.ClearList? then Cleared else if a.ShowToolbar? then Plain else m)
  {
    var h := HeldByGui(ActLocks(l, a));
    match a
    case Lock(x) => assert h == With(HeldByGui(l), x, true);
    case Unlock(x) => assert h == With(HeldByGui(l), x, false);
    case _ => assert h == HeldByGui(l);
  }

  lemma ActKeepsMatch(a: Action, k: Script, l: Locks, m: Mode, acq: AcqPc)
    requires Ok(Do(a, k), HeldByGui(l), m) && LocksMatch(l, acq)
    requires a.Lock? ==> HolderOf(l, a.m) == Free
    ensures LocksMatch(ActLocks(l, a), acq)
  {}

  /** What a script may do in each mode. */
  lemma ActIsAllowed(a: Action, k: Script, h: Held, m: Mode, v: View, w: Workers, q: seq<Event>)
    requires Ok(Do(a, k), h, m)
    ensures ActWorkers(w, a) == w
    ensures m == Plain ==> ActView(v, a) == v.(crashed := ActView(v, a).crashed)
    ensures a.Post? ==> a.e != Update && a.e != StopEv
    ensures a.ClearList? ==> m == Clearing
    ensures a.ShowToolbar? ==> m == Cleared && !a.running
    ensures !a.RebuildList?
  {}

  /** A GUI step of a plain script. */
  lemma PlainStep(s: State)
    requires PlainGui(s) && GuiEnabled(s) && LocksMatch(s.locks, s.workers.acq)
    ensures PlainGui(GuiDo(s)) && LocksMatch(GuiDo(s).locks, s.workers.acq)
    ensures GuiDo(s).workers == s.workers && GuiDo(s).view == s.view.(crashed := GuiDo(s).view.crashed)
    ensures NoStop(s.queue) ==> NoStop(GuiDo(s).queue)
    ensures Clean(s.queue) ==> Clean(GuiDo(s).queue)
    ensures OneStop(s.queue) ==> OneStop(GuiDo(s).queue)
  {
    match s.gui
    case IfRunning(_, _) =>
    case Do(a, k) =>
      ActKeepsOk(a, k, s.locks, Plain);
      ActKeepsMatch(a, k, s.locks, Plain, s.workers.acq);
      ActIsAllowed(a, k, HeldByGui(s.locks), Plain, s.view, s.workers, s.queue);
      if a.Post? && OneStop(s.queue) {
        OneStopSnoc(s.queue, a.e);
      }
  }

  lemma StartingStep(s: State)
    requires Together(s.workers) && LocksMatch(s.locks, s.workers.acq) && Starting(s)
    ensures Together(GuiDo(s).workers) && LocksMatch(GuiDo(s).locks, GuiDo(s).workers.acq)
    ensures Starting(GuiDo(s)) || Active(GuiDo(s))
  {
  }

  lemma ClosingStep(s: State)
    requires LocksMatch(s.locks, s.workers.acq) && Closing(s) && GuiEnabled(s)
    ensures LocksMatch(GuiDo(s).locks, GuiDo(s).workers.acq) && GuiDo(s).workers == s.workers
    ensures Closing(GuiDo(s)) || Idle(GuiDo(s))
  {
    var m := if Listed(s.view) then Clearing else Cleared;
    match s.gui
    case IfRunning(_, _) =>
    case Do(a, k) =>
      ActKeepsOk(a, k, s.locks, m);
      ActKeepsMatch(a, k, s.locks, m, s.workers.acq);
      ActIsAllowed(a, k, HeldByGui(s.locks), m, s.view, s.workers, s.queue);
  }

  lemma GuiKeeps(s: State)
    requires Inv(s) && GuiEnabled(s)
    ensures Inv(GuiDo(s))
  {
    if Starting(s) {
      StartingStep(s);
    } else if Closing(s) {
      ClosingStep(s);
    } else if PlainGui(s) {
      PlainStep(s);
    }
  }

  /** Between events, taking up a well-locked script k for the first event of the queue. */
  lemma TakeUp(s: State, k: Script)
    requires Inv(s) && s.gui == Done && s.queue != []
    requires Ok(k, NONE, if s.queue[0] == StopEv then Clearing else Plain)
    ensures Inv(s.(queue := s.queue[1..], gui := k))
  {}

  lemma DeliverKeeps(s: State, all: bool, small: bool)
    requires Inv(s) && s.gui == Done && s.queue != []
    ensures Inv(Step(s, Deliver(all, small)))
  {
    HandlersAreWellLocked(s.queue[0], all, small);
    TakeUp(s, Handler(s.queue[0], all, small));
  }

  lemma UserKeeps(s: State, u: UserAct)
    requires Inv(s) && s.gui == Done && UserEnabled(s.view, u)
    ensures Inv(Step(s, User(u)))
  {
    if u.StopClick? {
    } else if u.RunClick? && u.selected > 0 {
    } else {
      UserScriptsAreWellLocked(u);
    }
  }

  lemma AcqStepKeeps(s: State, r: Reply)
    requires Inv(s) && AcqEnabled(s.workers, s.locks.critical, r)
    ensures Inv(Step(s, AcqStep(r)))
  {
    AcqKeeps(s.workers, s.locks, r);
  }

  lemma DrawStepKeeps(s: State, fire: bool)
    requires Inv(s) && s.workers.draw != DEnd
    ensures Inv(Step(s, DrawStep(fire)))
  {
    OthersKeep(s.workers, fire);
  }

  lemma IntrStepKeeps(s: State)
    requires Inv(s) && s.workers.intr != IEnd
    ensures Inv(Step(s, IntrStep))
  {
    OthersKeep(s.workers, false);
  }

  lemma StopStepKeeps(s: State)
    requires Inv(s) && StopEnabled(s.workers)
    ensures Inv(Step(s, StopStep))
  {
    OthersKeep(s.workers, false);
    if s.workers.stop == SPost {
      StopSnoc(s.queue);
    }
  }

  lemma StepKeeps(s: State, l: Label)
    requires Inv(s) && Enabled(s, l)
    ensures Inv(Step(s, l))
  {
    match l
    case GuiStep => GuiKeeps(s);
    case Deliver(all, small) => DeliverKeeps(s, all, small);
    case User(u) => UserKeeps(s, u);
    case AcqStep(r) => AcqStepKeeps(s, r);
    case DrawStep(fire) => DrawStepKeeps(s, fire);
    case IntrStep => IntrStepKeeps(s);
    case StopStep => StopStepKeeps(s);
  }

  /** Every state of every run satisfies the invariant. */
  lemma {:induction false} EveryRunKeepsInv(s: State, ls: seq<Label>)
    requires Inv(s) && IsRun(s, ls)
    ensures Inv(Run(s, ls))
    decreases |ls|
  {
    if ls != [] {
      StepKeeps(s, ls[0]);
      EveryRunKeepsInv(Step(s, ls[0]), ls[1..]);
    }
  }

  lemma ReachableSatisfiesInv(ls: seq<Label>)
    requires IsRun(INIT, ls)
    ensures Inv(Run(INIT, ls))
  {
    assert Idle(INIT);
    EveryRunKeepsInv(INIT, ls);
  }
}
