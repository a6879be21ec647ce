/** What the invariant means: when the window list may change, that no cycle of waits can form, and where the data
    blocks are scanned while one may be appended. */
module StopSafety {
  import opened StopProtocol
  import opened StopFacts
  import opened StopInvariant

  /** In every interleaving, when the window finds the stop event every thread of the run has ended, bContinue is
      clear, the list is still there, and no Update waits behind the event. */
  lemma StopIsHandledAfterAllThreadsEnded(ls: seq<Label>)
    requires IsRun(INIT, ls)
    ensures var s := Run(INIT, ls);
      s.gui == Done && s.queue != [] && s.queue[0] == StopEv
      ==> Resting(s.workers) && !s.workers.running && Clean(s.queue[1..]) && Listed(s.view)
  {
    ReachableSatisfiesInv(ls);
  }

  /** The window list is cleared or rebuilt only when no thread is left and no Update is under way: inside Run(), or
      under both display mutexes. */
  lemma ListChangesOnlyAtRest(ls: seq<Label>)
    requires IsRun(INIT, ls)
    ensures var s := Run(INIT, ls);
      s.gui.Do? && (s.gui.act.ClearList? || s.gui.act.RebuildList?)
      ==> && Resting(s.workers) && Clean(s.queue)
          && (s.gui == RunCleared() || s.gui == RunRebuilt() || (s.locks.critical == Gui && s.locks.screen == Gui))
  {
    ReachableSatisfiesInv(ls);
  }

  /** So nothing is appended to a cleared list and no Update is delivered to one: while the acquisition thread lives
      or an Update waits, the list holds exactly the windows selected when Run was clicked. */
  lemma AppendAndUpdateFindTheList(ls: seq<Label>)
    requires IsRun(INIT, ls)
    ensures var s := Run(INIT, ls);
      s.workers.acq != Ended || Update in s.queue ==> Listed(s.view)
  {
    ReachableSatisfiesInv(ls);
  }

  /** The interrupt thread holds a pointer to a variable of the acquisition thread; it never outlives it. */
  lemma HelpersNeverOutliveAcquisition(ls: seq<Label>)
    requires IsRun(INIT, ls)
    ensures var w := Run(INIT, ls).workers; w.acq == Ended ==> w.draw == DEnd && w.intr == IEnd
  {
    ReachableSatisfiesInv(ls);
  }

  /** No handler ever returns holding a mutex, and no thread locks one it holds. */
  lemma HandlersReleaseWhatTheyTake(ls: seq<Label>)
    requires IsRun(INIT, ls)
    ensures var s := Run(INIT, ls);
      && (s.gui == Done ==> HeldByGui(s.locks) == NONE)
      && (s.gui.Do? && s.gui.act.Lock? ==> HolderOf(s.locks, s.gui.act.m) != Gui)
      && (s.gui.Do? && s.gui.act.Unlock? ==> HolderOf(s.locks, s.gui.act.m) == Gui)
  {
    ReachableSatisfiesInv(ls);
  }

  /** Between events, what the toolbar accepts: Run when everything is at rest, Stop and zooms while the windows of a
      run are there, Stop only once, and neither while the stop thread has disabled the toolbar; everything else is
      accepted always. */
  lemma ClicksAreAcceptedIff(ls: seq<Label>, n: nat, kind: Zoom, u: UserAct)
    requires IsRun(INIT, ls) && Run(INIT, ls).gui == Done
    ensures var s := Run(INIT, ls); var disabled := s.workers.stop in {SClear, SWait, SEnable};
      && (Enabled(s, User(RunClick(n))) <==> Resting(s.workers) && s.view.windows == 0)
      && (Enabled(s, User(ZoomClick(kind))) <==> s.view.windows > 0 && !disabled)
      && (Enabled(s, User(StopClick)) <==> s.view.windows > 0 && s.workers.running && !s.view.stopAsked)
      && (!u.RunClick? && !u.StopClick? && !u.ZoomClick? ==> Enabled(s, User(u)))
  {
    ReachableSatisfiesInv(ls);
  }

  // ---- nothing waits for ever ----

  predicate GuiBlocked(s: State) {
    s.gui != Done && !GuiEnabled(s)
  }

  predicate AcqBlocked(s: State) {
    s.workers.acq != Ended && forall r :: !AcqEnabled(s.workers, s.locks.critical, r)
  }

  /** Whatever a blocked thread waits for, it waits for a thread that is not blocked: the GUI only for an append under
      way, acquisition only for a handler that holds Critical or for a helper. So no cycle of waits can form, although
      handlers take the display's two mutexes in both orders. */
  lemma NoThreadWaitsForABlockedOne(ls: seq<Label>)
    requires IsRun(INIT, ls)
    ensures var s := Run(INIT, ls);
      && (GuiBlocked(s) ==> s.gui.act == Lock(Critical) && s.workers.acq in {Append, Release} && !AcqBlocked(s))
      && (AcqBlocked(s) ==> || (s.workers.acq == WantLock && s.locks.critical == Gui && GuiEnabled(s))
                            || (s.workers.acq == JoinDraw && Enabled(s, DrawStep(false)))
                            || (s.workers.acq == JoinIntr && Enabled(s, IntrStep)))
      && (s.workers.stop == SWait && !StopEnabled(s.workers) ==> s.workers.acq != Ended)
  {
    ReachableSatisfiesInv(ls);
    var s := Run(INIT, ls);
    assert || AcqEnabled(s.workers, s.locks.critical, Success) || AcqEnabled(s.workers, s.locks.critical, DataFrame)
           || s.workers.acq in {Ended, WantLock, JoinDraw, JoinIntr};
  }

  // ---- scanning and appending ----

  predicate Scanning(s: State) {
    s.gui.Do? && s.gui.act.Scan?
  }

  lemma ScanIsLocked(s: State, m: Mode)
    requires Ok(s.gui, HeldByGui(s.locks), m) && Scanning(s)
    ensures s.locks.critical == Gui <==> !IsUnlockedScan(s.gui)
  {}

  /** In every reachable state in which data blocks are about to be scanned, the scan holds Critical, the mutex that
      appending takes, if and only if it is not the one in OnAutoScale. */
  lemma ScanHoldsCriticalIff(ls: seq<Label>)
    requires IsRun(INIT, ls) && Scanning(Run(INIT, ls))
    ensures var s := Run(INIT, ls); s.locks.critical == Gui <==> !IsUnlockedScan(s.gui)
  {
    ReachableSatisfiesInv(ls);
    var s := Run(INIT, ls);
    ScanIsLocked(s, if !Closing(s) then Plain else if Listed(s.view) then Clearing else Cleared);
  }

  /** So blocks are scanned while one is being appended only there. */
  lemma OnlyAutoScaleRaces(ls: seq<Label>)
    requires IsRun(INIT, ls) && Scanning(Run(INIT, ls)) && Run(INIT, ls).workers.acq in {Append, Release}
    ensures IsUnlockedScan(Run(INIT, ls).gui)
  {
    ReachableSatisfiesInv(ls);
    ScanHoldsCriticalIff(ls);
  }

  /** And there nothing stops it: whenever the data of a frame wait for the mutex, the append can begin. */
  lemma AutoScaleLetsAppendIn(ls: seq<Label>, r: Reply)
    requires IsRun(INIT, ls) && IsUnlockedScan(Run(INIT, ls).gui) && Run(INIT, ls).workers.acq == WantLock
    ensures var s := Run(INIT, ls);
            Enabled(s, AcqStep(r)) && Scanning(Step(s, AcqStep(r))) && Step(s, AcqStep(r)).workers.acq == Append
  {
    ReachableSatisfiesInv(ls);
    ScanHoldsCriticalIff(ls);
  }
}
