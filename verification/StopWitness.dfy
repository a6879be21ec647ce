/** Runs that do happen: an append while a window is scaled, a Stop that hangs in a read, and a zoom request that
    outlives its channels. */
module StopWitness {
  import opened StopProtocol
  import opened StopFacts
  import opened StopInvariant
  import opened StopSafety
  import opened StopProgress

  /** Runs compose. */
  lemma {:induction false} RunConcat(s: State, ls: seq<Label>, ms: seq<Label>)
    requires IsRun(s, ls) && IsRun(Run(s, ls), ms)
    ensures IsRun(s, ls + ms) && Run(s, ls + ms) == Run(Run(s, ls), ms)
    decreases |ls|
  {
    if ls == [] {
      assert ls + ms == ms;
    } else {
      assert (ls + ms)[0] == ls[0] && (ls + ms)[1..] == ls[1..] + ms;
      RunConcat(Step(s, ls[0]), ls[1..], ms);
    }
  }

  ghost predicate Reachable(s: State) {
    exists ls :: IsRun(INIT, ls) && Run(INIT, ls) == s
  }

  lemma Reach(s: State, l: Label)
    requires Reachable(s) && Enabled(s, l)
    ensures Reachable(Step(s, l))
  {
    var ls :| IsRun(INIT, ls) && Run(INIT, ls) == s;
    assert [l][1..] == [] && IsRun(Step(s, l), []);
    RunConcat(INIT, ls, [l]);
  }

  const NOBODY := Locks(Free, Free, Free)
  const SHOWING := View(true, true, 1, 1, false, false)
  const STOPPING := View(true, false, 1, 1, true, false)
  const STOPPED := View(true, true, 1, 1, true, false)
  const EMPTIED := View(true, true, 1, 0, true, false)
  const IDLE := View(false, true, 1, 0, false, false)

  /** bContinue is set, the helpers have just started, and nobody has clicked Stop. */
  function Acquiring(acq: AcqPc, conn: bool): Workers {
    Workers(true, acq, DTest, ITest, SIdle, conn, false)
  }

  const BEGUN := Workers(true, Begin, DEnd, IEnd, SIdle, false, false)
  const HALTED := Workers(false, Begin, DEnd, IEnd, SWait, false, false)
  const JOINING := Workers(false, JoinDraw, DEnd, IBreak, SWait, false, false)
  const JOINED := Workers(false, Ended, DEnd, IEnd, SWait, false, false)
  const ENDED := Workers(false, Ended, DEnd, IEnd, SIdle, false, false)
  const HANGING := Workers(false, Frame, DEnd, IEnd, SWait, true, true)

  lemma InitIsReachable()
    ensures Reachable(INIT)
  {
    assert IsRun(INIT, []) && Run(INIT, []) == INIT;
  }

  /** One channel is shown and the acquisition thread is about to run. */
  lemma Started()
    ensures Reachable(State(Done, [], NOBODY, SHOWING, BEGUN))
  {
    InitIsReachable();
    var s0 := INIT;
    Reach(s0, User(RunClick(1)));
    var s1 := Step(s0, User(RunClick(1)));
    Reach(s1, GuiStep);
    var s2 := Step(s1, GuiStep);
    Reach(s2, GuiStep);
    var s3 := Step(s2, GuiStep);
    Reach(s3, GuiStep);
    var s4 := Step(s3, GuiStep);
    Reach(s4, GuiStep);
    var s5 := Step(s4, GuiStep);
    Reach(s5, GuiStep);
  }

  lemma Requesting()
    ensures Reachable(State(Done, [], NOBODY, SHOWING, Acquiring(Connect, false)))
  {
    Started();
    var s0 := State(Done, [], NOBODY, SHOWING, BEGUN);
    Reach(s0, AcqStep(Success));
    var s1 := Step(s0, AcqStep(Success));
    Reach(s1, AcqStep(Success));
    var s2 := Step(s1, AcqStep(Success));
    Reach(s2, AcqStep(Success));
    var s3 := Step(s2, AcqStep(Success));
    Reach(s3, AcqStep(Success));
    var s4 := Step(s3, AcqStep(Success));
    Reach(s4, AcqStep(Success));
  }

  lemma Waiting()
    ensures Reachable(State(Done, [], NOBODY, SHOWING, Acquiring(Frame, true)))
  {
    Requesting();
    var s0 := State(Done, [], NOBODY, SHOWING, Acquiring(Connect, false));
    Reach(s0, AcqStep(Success));
    var s1 := Step(s0, AcqStep(Success));
    Reach(s1, AcqStep(Success));
    var s2 := Step(s1, AcqStep(Success));
    Reach(s2, AcqStep(Success));
    var s3 := Step(s2, AcqStep(Success));
    Reach(s3, AcqStep(Success));
  }

  /** The draw thread fires, and its Update is taken up while the window is shown. */
  lemma UpdateIsHandled()
    ensures exists s :: Reachable(s) && s.gui == Done && s.queue != [] && s.queue[0] == Update && Listed(s.view)
                        && Reachable(Step(s, Deliver(false, false)))
  {
    Waiting();
    TakeOnly(Update);
    var s0 := State(Done, [], NOBODY, SHOWING, Acquiring(Frame, true));
    Reach(s0, DrawStep(false));
    var s1 := Step(s0, DrawStep(false));
    Reach(s1, DrawStep(true));
    var s2 := Step(s1, DrawStep(true));
    Reach(s2, DrawStep(false));
    var s3 := Step(s2, DrawStep(false));
    Reach(s3, Deliver(false, false));
  }

  lemma DataRead()
    ensures Reachable(State(Done, [], NOBODY, SHOWING, Acquiring(WantLock, true)))
  {
    Waiting();
    Reach(State(Done, [], NOBODY, SHOWING, Acquiring(Frame, true)), AcqStep(DataFrame));
  }

  lemma TakeOnly(e: Event)
    ensures [] + [e] == [e] && [e][1..] == []
  {}

  lemma ScaleAsked(all: bool)
    ensures Reachable(State(AutoScaleScript(all), [], NOBODY, SHOWING, Acquiring(WantLock, true)))
  {
    DataRead();
    TakeOnly(ZoomEv(AutoScale));
    var s0 := State(Done, [], NOBODY, SHOWING, Acquiring(WantLock, true));
    Reach(s0, User(ZoomClick(AutoScale)));
    var s1 := Step(s0, User(ZoomClick(AutoScale)));
    Reach(s1, GuiStep);
    var s2 := Step(s1, GuiStep);
    Reach(s2, Deliver(all, false));
  }

  lemma ScanAhead(all: bool)
    ensures Reachable(State(UnlockedScan(all), [], Locks(Free, Gui, Free), SHOWING, Acquiring(WantLock, true)))
  {
    ScaleAsked(all);
    var s0 := State(AutoScaleScript(all), [], NOBODY, SHOWING, Acquiring(WantLock, true));
    Reach(s0, GuiStep);
    var s1 := Step(s0, GuiStep);
    Reach(s1, GuiStep);
    var s2 := Step(s1, GuiStep);
    Reach(s2, GuiStep);
  }

  /** OnAutoScale scans the blocks of the active window, or of all, with Critical released: a block can be appended at
      the same time. */
  lemma ScalingRacesWithAppend(all: bool)
    ensures exists s :: Reachable(s) && Scanning(s) && s.gui.act == Scan(all) && s.workers.acq == Append
  {
    ScanAhead(all);
    var s0 := State(UnlockedScan(all), [], Locks(Free, Gui, Free), SHOWING, Acquiring(WantLock, true));
    Reach(s0, AcqStep(Success));
    var s1 := Step(s0, AcqStep(Success));
    assert Scanning(s1);
  }

  lemma Polling()
    ensures Reachable(State(Done, [], NOBODY, SHOWING, Acquiring(Poll, true)))
  {
    Requesting();
    var s0 := State(Done, [], NOBODY, SHOWING, Acquiring(Connect, false));
    Reach(s0, AcqStep(Success));
    var s1 := Step(s0, AcqStep(Success));
    Reach(s1, AcqStep(Success));
    var s2 := Step(s1, AcqStep(Success));
    Reach(s2, AcqStep(Success));
  }

  lemma StopWhilePolling()
    ensures Reachable(State(Done, [], NOBODY, STOPPING, Workers(false, Poll, DTest, ITest, SWait, true, false)))
  {
    Polling();
    var s0 := State(Done, [], NOBODY, SHOWING, Acquiring(Poll, true));
    Reach(s0, User(StopClick));
    var s1 := Step(s0, User(StopClick));
    Reach(s1, GuiStep);
    var s2 := Step(s1, GuiStep);
    Reach(s2, StopStep);
    var s3 := Step(s2, StopStep);
    Reach(s3, StopStep);
  }

  lemma ReachedKeepsInv(s: State)
    requires Reachable(s)
    ensures Inv(s)
  {
    var ls :| IsRun(INIT, ls) && Run(INIT, ls) == s;
    ReachableSatisfiesInv(ls);
  }

  /** A Stop clicked just before a read looks at the break flag: it can still complete, and it can still hang. */
  lemma StopCanGoEitherWay()
    ensures exists s :: Reachable(s) && s.workers.stop == SWait && CanComplete(s) && !StaysCompletable(s)
  {
    StopWhilePolling();
    var s := State(Done, [], NOBODY, STOPPING, Workers(false, Poll, DTest, ITest, SWait, true, false));
    ReachedKeepsInv(s);
    StopCompletesIff(s);
    StopIsSureIff(s);
  }

  lemma StopWhileWaiting()
    ensures Reachable(State(Done, [], NOBODY, STOPPING, Workers(false, Frame, DTest, ITest, SWait, true, false)))
  {
    Waiting();
    var s0 := State(Done, [], NOBODY, SHOWING, Acquiring(Frame, true));
    Reach(s0, User(StopClick));
    var s1 := Step(s0, User(StopClick));
    Reach(s1, GuiStep);
    var s2 := Step(s1, GuiStep);
    Reach(s2, StopStep);
    var s3 := Step(s2, StopStep);
    Reach(s3, StopStep);
  }

  lemma OnlyTheReadIsLeft()
    ensures Reachable(State(Done, [], NOBODY, STOPPING, HANGING))
  {
    StopWhileWaiting();
    var s0 := State(Done, [], NOBODY, STOPPING, Workers(false, Frame, DTest, ITest, SWait, true, false));
    Reach(s0, DrawStep(false));
    var s1 := Step(s0, DrawStep(false));
    Reach(s1, IntrStep);
    var s2 := Step(s1, IntrStep);
    Reach(s2, IntrStep);
  }

  /** A Stop clicked while a read waits for a frame: the draw and interrupt threads have ended and the break flag is
      set, and still, as long as the server accepts every reconnect and sends nothing, the stop thread waits and the
      toolbar stays disabled. */
  lemma StopCanHang()
    ensures exists s :: && Reachable(s) && s.workers == HANGING && s.gui == Done && s.queue == [] && s.view.stopAsked
                        && Step(s, AcqStep(Pending)) == s
                        && forall ls | IsRun(s, ls) && !Answered(s, ls) ::
                             Run(s, ls).workers.stop == SWait && !Run(s, ls).view.enabled && StopEv !in Run(s, ls).queue
  {
    OnlyTheReadIsLeft();
    var s := State(Done, [], NOBODY, STOPPING, HANGING);
    var before :| IsRun(INIT, before) && Run(INIT, before) == s;
    ReachableSatisfiesInv(before);
    PendingRepeats(s);
    forall ls | IsRun(s, ls) && !Answered(s, ls)
      ensures Run(s, ls).workers.stop == SWait && !Run(s, ls).view.enabled && StopEv !in Run(s, ls).queue
    {
      UnansweredStopHangs(s, ls);
    }
  }

  lemma Halted()
    ensures Reachable(State(Done, [], NOBODY, STOPPING, HALTED))
  {
    Started();
    var s0 := State(Done, [], NOBODY, SHOWING, BEGUN);
    Reach(s0, User(StopClick));
    var s1 := Step(s0, User(StopClick));
    Reach(s1, GuiStep);
    var s2 := Step(s1, GuiStep);
    Reach(s2, StopStep);
    var s3 := Step(s2, StopStep);
    Reach(s3, StopStep);
  }

  lemma Joining()
    ensures Reachable(State(Done, [], NOBODY, STOPPING, JOINING))
  {
    Halted();
    var s0 := State(Done, [], NOBODY, STOPPING, HALTED);
    Reach(s0, AcqStep(Success));
    var s1 := Step(s0, AcqStep(Success));
    Reach(s1, AcqStep(Success));
    var s2 := Step(s1, AcqStep(Success));
    Reach(s2, AcqStep(Success));
    var s3 := Step(s2, AcqStep(Success));
    Reach(s3, DrawStep(false));
    var s4 := Step(s3, DrawStep(false));
    Reach(s4, IntrStep);
  }

  lemma ThreadsEnded()
    ensures Reachable(State(Done, [], NOBODY, STOPPING, JOINED))
  {
    Joining();
    var s0 := State(Done, [], NOBODY, STOPPING, JOINING);
    Reach(s0, IntrStep);
    var s1 := Step(s0, IntrStep);
    Reach(s1, AcqStep(Success));
    var s2 := Step(s1, AcqStep(Success));
    Reach(s2, AcqStep(Success));
  }

  lemma StopPosted()
    ensures Reachable(State(Done, [StopEv], NOBODY, STOPPED, ENDED))
  {
    ThreadsEnded();
    TakeOnly(StopEv);
    var s0 := State(Done, [], NOBODY, STOPPING, JOINED);
    Reach(s0, StopStep);
    var s1 := Step(s0, StopStep);
    Reach(s1, StopStep);
    var s2 := Step(s1, StopStep);
    Reach(s2, StopStep);
  }

  lemma StopHandled()
    ensures Reachable(State(Handler(StopEv, false, false), [ZoomEv(Magnify)], NOBODY, STOPPED, ENDED))
  {
    StopPosted();
    assert ([StopEv] + [ZoomEv(Magnify)])[1..] == [ZoomEv(Magnify)];
    var s0 := State(Done, [StopEv], NOBODY, STOPPED, ENDED);
    Reach(s0, User(ZoomClick(Magnify)));
    var s1 := Step(s0, User(ZoomClick(Magnify)));
    Reach(s1, GuiStep);
    var s2 := Step(s1, GuiStep);
    Reach(s2, Deliver(false, false));
  }

  lemma PreviewStopped()
    ensures Reachable(State(DisplayStop(), [ZoomEv(Magnify)], NOBODY, STOPPED, ENDED))
  {
    StopHandled();
    var s0 := State(Handler(StopEv, false, false), [ZoomEv(Magnify)], NOBODY, STOPPED, ENDED);
    Reach(s0, GuiStep);
    var s1 := Step(s0, GuiStep);
    Reach(s1, GuiStep);
    var s2 := Step(s1, GuiStep);
    Reach(s2, GuiStep);
  }

  lemma Emptied()
    ensures Reachable(State(AfterClear(), [ZoomEv(Magnify)], NOBODY, EMPTIED, ENDED))
  {
    PreviewStopped();
    var s0 := State(DisplayStop(), [ZoomEv(Magnify)], NOBODY, STOPPED, ENDED);
    Reach(s0, GuiStep);
    var s1 := Step(s0, GuiStep);
    Reach(s1, GuiStep);
    var s2 := Step(s1, GuiStep);
    Reach(s2, GuiStep);
    var s3 := Step(s2, GuiStep);
    Reach(s3, GuiStep);
    var s4 := Step(s3, GuiStep);
    Reach(s4, GuiStep);
  }

  lemma Repainted()
    ensures Reachable(State(PaintDisplay(Do(ShowToolbar(false), Done)), [ZoomEv(Magnify)], NOBODY, EMPTIED, ENDED))
  {
    Emptied();
    var s0 := State(AfterClear(), [ZoomEv(Magnify)], NOBODY, EMPTIED, ENDED);
    Reach(s0, GuiStep);
    var s1 := Step(s0, GuiStep);
    Reach(s1, GuiStep);
    var s2 := Step(s1, GuiStep);
    Reach(s2, GuiStep);
    var s3 := Step(s2, GuiStep);
    Reach(s3, GuiStep);
    var s4 := Step(s3, GuiStep);
    Reach(s4, GuiStep);
  }

  lemma AtRest()
    ensures Reachable(State(Done, [ZoomEv(Magnify)], NOBODY, IDLE, ENDED))
  {
    Repainted();
    var s0 := State(PaintDisplay(Do(ShowToolbar(false), Done)), [ZoomEv(Magnify)], NOBODY, EMPTIED, ENDED);
    Reach(s0, GuiStep);
    var s1 := Step(s0, GuiStep);
    Reach(s1, GuiStep);
    var s2 := Step(s1, GuiStep);
    Reach(s2, GuiStep);
    var s3 := Step(s2, GuiStep);
    Reach(s3, GuiStep);
  }

  /** The toolbar accepts clicks again before the stop event is handled; a zoom clicked then is handled after the
      channels are gone, and its handler uses a window of the empty list. */
  lemma LateZoomHappens()
    ensures exists s :: Reachable(s) && s.view.crashed && s.view.windows == 0 && !s.view.toolbar
  {
    AtRest();
    TakeOnly(ZoomEv(Magnify));
    var s0 := State(Done, [ZoomEv(Magnify)], NOBODY, IDLE, ENDED);
    Reach(s0, Deliver(false, false));
    var s1 := Step(s0, Deliver(false, false));
    Reach(s1, GuiStep);
    var s2 := Step(s1, GuiStep);
    Reach(s2, GuiStep);
    var s3 := Step(s2, GuiStep);
    Reach(s3, GuiStep);
    assert Step(s3, GuiStep).view.crashed;
  }
}
