/** How a Stop makes its way to the end: certainly, once no call of the ISI library waits for the server; and never,
    as long as one does. */
module StopProgress {
  import opened StopProtocol
  import opened StopFacts
  import opened StopInvariant

  // ---- what the helpers have left to do ----

  function AcqRank(pc: AcqPc): nat {
    match pc
    case Begin => 20 case Begin2 => 19 case Alloc => 14 case Check1 => 13 case Connect => 12 case Check2 => 11
    case Poll => 10 case Frame => 10 case WantLock => 9 case Append => 8 case Release => 7 case Inner => 6
    case Outer => 3 case JoinDraw => 2 case JoinIntr => 1 case Ended => 0
  }

  function DrawRank(pc: DrawPc): nat {
    match pc case DSleep => 4 case DPost1 => 3 case DPost2 => 2 case DTest => 1 case DEnd => 0
  }

  function IntrRank(pc: IntrPc): nat {
    match pc case ISleep => 3 case ITest => 2 case IBreak => 1 case IEnd => 0
  }

  function Rank(w: Workers): nat {
    10 * AcqRank(w.acq) + DrawRank(w.draw) + IntrRank(w.intr)
  }

  predicate OfHelper(l: Label) {
    l.AcqStep? || l.DrawStep? || l.IntrStep?
  }

  /** The step leaves the acquisition thread inside a call that waits for the server. */
  predicate KeepsWaiting(w: Workers, l: Label) {
    && l.AcqStep?
    && match w.acq
       case Connect => l.r.Pending?
       case Poll => !w.flag
       case Frame => l.r in {Pending, OtherFrame}
       case _ => false
  }

  /** The steps of the helpers that are not such. */
  function HelperSteps(s: State, ls: seq<Label>): nat
    requires IsRun(s, ls)
    decreases |ls|
  {
    if ls == [] then 0
    else (if OfHelper(ls[0]) && !KeepsWaiting(s.workers, ls[0]) then 1 else 0) + HelperSteps(Step(s, ls[0]), ls[1..])
  }

  lemma AcqCountsDown(w: Workers, r: Reply)
    requires !w.running && w.acq != Ended
    requires w.acq == Begin ==> w.draw == DEnd
    requires w.acq in {Begin, Begin2} ==> w.intr == IEnd
    requires w.acq == Frame ==> r !in {Success, Failure}
    ensures if KeepsWaiting(w, AcqStep(r)) then Rank(AcqDo(w, r)) == Rank(w) else Rank(AcqDo(w, r)) < Rank(w)
  {}

  lemma OthersCountDown(w: Workers, fire: bool)
    requires !w.running
    ensures w.draw != DEnd ==> Rank(DrawDo(w, fire)) < Rank(w)
    ensures w.intr != IEnd ==> Rank(IntrDo(w)) < Rank(w)
  {}

  lemma HelperStepCountsDown(s: State, l: Label)
    requires Inv(s) && !s.workers.running && Enabled(s, l) && OfHelper(l)
    ensures if KeepsWaiting(s.workers, l) then Rank(Step(s, l).workers) == Rank(s.workers)
            else Rank(Step(s, l).workers) < Rank(s.workers)
  {
    match l
    case AcqStep(r) => AcqCountsDown(s.workers, r);
    case DrawStep(fire) => OthersCountDown(s.workers, fire);
    case IntrStep => OthersCountDown(s.workers, false);
  }

  lemma WaitingStopIsLeftAlone(s: State, l: Label)
    requires Inv(s) && s.workers.stop == SWait && Enabled(s, l) && !l.StopStep?
    ensures Step(s, l).workers.stop == SWait
    ensures !OfHelper(l) ==> Step(s, l).workers == s.workers
  {
    if l.GuiStep? {
      PlainStep(s);
    }
  }

  /** While the stop thread waits, the three helpers together can make only as many steps as their rank, but for those
      that leave a call waiting for the server, however the GUI, the user and the server behave. */
  lemma {:induction false} ShutdownIsBounded(s: State, ls: seq<Label>)
    requires Inv(s) && s.workers.stop == SWait && IsRun(s, ls) && StopStep !in ls
    ensures Run(s, ls).workers.stop == SWait
    ensures HelperSteps(s, ls) + Rank(Run(s, ls).workers) <= Rank(s.workers)
    decreases |ls|
  {
    if ls != [] {
      var t := Step(s, ls[0]);
      StepKeeps(s, ls[0]);
      WaitingStopIsLeftAlone(s, ls[0]);
      if OfHelper(ls[0]) {
        HelperStepCountsDown(s, ls[0]);
      }
      ShutdownIsBounded(t, ls[1..]);
    }
  }

  // ---- calls that wait for the server ----

  /** The acquisition thread is inside a call that only the server can end: the acknowledgement of a request, or the
      next frame. The break flag is looked at in neither. */
  predicate Blocked(w: Workers) {
    w.acq in {Connect, Frame}
  }

  /** The request succeeds or fails, a frame arrives, or a reconnect fails. */
  predicate Answers(s: State, l: Label) {
    Blocked(s.workers) && l.AcqStep? && !l.r.Pending?
  }

  predicate Answered(s: State, ls: seq<Label>)
    requires IsRun(s, ls)
    decreases |ls|
  {
    ls != [] && (Answers(s, ls[0]) || Answered(Step(s, ls[0]), ls[1..]))
  }

  /** The user does nothing and the server does not answer; events stay in the queue. */
  predicate Unaided(s: State, ls: seq<Label>)
    requires IsRun(s, ls)
    decreases |ls|
  {
    ls == [] || (!ls[0].User? && !ls[0].Deliver? && !Answers(s, ls[0]) && Unaided(Step(s, ls[0]), ls[1..]))
  }

  predicate CompletesStop(s: State, ls: seq<Label>) {
    IsRun(s, ls) && Unaided(s, ls) && StopEv in Run(s, ls).queue
  }

  /** The run can go on to the stop event by itself. */
  ghost predicate CanComplete(s: State) {
    exists ls :: CompletesStop(s, ls)
  }

  /** A heartbeat, or a reconnect after a receive that failed, changes nothing and can be repeated for ever. */
  lemma PendingRepeats(s: State)
    requires Blocked(s.workers)
    ensures Enabled(s, AcqStep(Pending)) && Step(s, AcqStep(Pending)) == s
  {}

  lemma UnansweredStep(s: State, l: Label)
    requires Inv(s) && s.workers.stop == SWait && Blocked(s.workers) && Enabled(s, l) && !Answers(s, l)
    ensures Step(s, l).workers.stop == SWait && Step(s, l).workers.acq == s.workers.acq
  {
    if !l.StopStep? {
      WaitingStopIsLeftAlone(s, l);
    }
  }

  /** As long as the server does not answer, the call goes on, the stop thread waits, the toolbar stays disabled and
      there is no stop event, whatever else happens. */
  lemma {:induction false} UnansweredStopHangs(s: State, ls: seq<Label>)
    requires Inv(s) && s.workers.stop == SWait && Blocked(s.workers) && IsRun(s, ls) && !Answered(s, ls)
    ensures var t := Run(s, ls);
            Inv(t) && t.workers.stop == SWait && t.workers.acq == s.workers.acq && !t.view.enabled && StopEv !in t.queue
    decreases |ls|
  {
    if ls != [] {
      StepKeeps(s, ls[0]);
      UnansweredStep(s, ls[0]);
      UnansweredStopHangs(Step(s, ls[0]), ls[1..]);
    }
  }

  lemma {:induction false} UnaidedIsUnanswered(s: State, ls: seq<Label>)
    requires IsRun(s, ls) && Unaided(s, ls)
    ensures !Answered(s, ls)
    decreases |ls|
  {
    if ls != [] {
      UnaidedIsUnanswered(Step(s, ls[0]), ls[1..]);
    }
  }

  // ---- without such a call ----

  /** The step that brings a waiting stop thread closer to its end. */
  function NextToStop(s: State): Label {
    if s.workers.acq == Ended then StopStep
    else if s.workers.intr != IEnd then IntrStep
    else if s.workers.draw != DEnd then DrawStep(false)
    else if s.workers.acq == WantLock && s.locks.critical != Free then GuiStep
    else AcqStep(Failure)
  }

  function Size(k: Script): nat {
    match k
    case Done => 0
    case Do(_, next) => 1 + Size(next)
    case IfRunning(yes, no) => 1 + Size(yes) + Size(no)
  }

  /** That step can always be taken and counts; the break flag is set before it is polled; and a handler that keeps
      acquisition from its mutex gets shorter. */
  lemma UnblockedMoves(s: State)
    requires Inv(s) && s.workers.stop == SWait && !Blocked(s.workers)
    ensures var l := NextToStop(s);
      && Enabled(s, l) && !KeepsWaiting(s.workers, l)
      && (l == GuiStep ==> Size(Step(s, GuiStep).gui) < Size(s.gui))
      && !Blocked(Step(s, l).workers)
  {}

  /** From every state in which the stop thread waits and no call does, the run can go on to the stop event with no
      user and no server taking part. */
  lemma {:induction false} UnblockedCanComplete(s: State)
    requires Inv(s) && s.workers.stop == SWait && !Blocked(s.workers)
    ensures CanComplete(s)
    decreases Rank(s.workers), Size(s.gui)
  {
    UnblockedMoves(s);
    if s.workers.acq == Ended {
      FinishStop(s);
    } else {
      var l := NextToStop(s);
      var t := Step(s, l);
      StepKeeps(s, l);
      WaitingStopIsLeftAlone(s, l);
      if OfHelper(l) {
        HelperStepCountsDown(s, l);
      }
      UnblockedCanComplete(t);
      var ls :| CompletesStop(t, ls);
      var longer := [l] + ls;
      assert longer[0] == l && longer[1..] == ls;
      assert CompletesStop(s, longer);
    }
  }

  lemma FinishStop(s: State)
    requires s.workers.stop == SWait && s.workers.acq == Ended
    ensures CompletesStop(s, [StopStep, StopStep, StopStep])
  {
    var ls := [StopStep, StopStep, StopStep];
    var s1 := Step(s, StopStep);
    var s2 := Step(s1, StopStep);
    var s3 := Step(s2, StopStep);
    assert ls[1..] == [StopStep, StopStep] && ls[1..][1..] == [StopStep] && ls[1..][1..][1..] == [];
    assert IsRun(s3, []) && Run(s3, []) == s3 && Unaided(s3, []);
    assert IsRun(s2, [StopStep]) && Run(s2, [StopStep]) == s3 && Unaided(s2, [StopStep]);
    assert IsRun(s1, [StopStep, StopStep]) && Run(s1, [StopStep, StopStep]) == s3 && Unaided(s1, [StopStep, StopStep]);
  }

  /** The stop event can be reached without user and server if and only if no call is waiting for the server. */
  lemma StopCompletesIff(s: State)
    requires Inv(s) && s.workers.stop == SWait
    ensures CanComplete(s) <==> !Blocked(s.workers)
  {
    if Blocked(s.workers) {
      forall ls | IsRun(s, ls) && Unaided(s, ls) ensures StopEv !in Run(s, ls).queue {
        UnaidedIsUnanswered(s, ls);
        UnansweredStopHangs(s, ls);
      }
    } else {
      UnblockedCanComplete(s);
    }
  }

  // ---- what an answer does ----

  /** No call waits for the server, and none will: a read that is about to poll finds the break flag set. */
  predicate Released(w: Workers) {
    !Blocked(w) && (w.acq == Poll ==> w.flag)
  }

  /** The break flag of the connection is set, if a frame is what is being waited for. */
  predicate Flagged(w: Workers) {
    w.acq == Frame ==> w.flag
  }

  lemma ReleasedForGood(s: State, l: Label)
    requires Inv(s) && s.workers.stop == SWait && Released(s.workers) && Enabled(s, l) && !l.StopStep?
    ensures Released(Step(s, l).workers) && !KeepsWaiting(s.workers, l)
  {
    WaitingStopIsLeftAlone(s, l);
  }

  lemma FlaggedStep(s: State, l: Label)
    requires Inv(s) && s.workers.stop == SWait && Blocked(s.workers) && Flagged(s.workers) && Enabled(s, l)
    ensures if Answers(s, l) then Released(Step(s, l).workers)
            else Blocked(Step(s, l).workers) && Flagged(Step(s, l).workers)
  {
    if !l.StopStep? {
      WaitingStopIsLeftAlone(s, l);
    }
  }

  lemma {:induction false} ReleasedRuns(s: State, ls: seq<Label>)
    requires Inv(s) && s.workers.stop == SWait && Released(s.workers) && IsRun(s, ls) && StopStep !in ls
    ensures Inv(Run(s, ls)) && Run(s, ls).workers.stop == SWait && Released(Run(s, ls).workers)
    decreases |ls|
  {
    if ls != [] {
      StepKeeps(s, ls[0]);
      WaitingStopIsLeftAlone(s, ls[0]);
      ReleasedForGood(s, ls[0]);
      ReleasedRuns(Step(s, ls[0]), ls[1..]);
    }
  }

  lemma {:induction false} AnswerReleases(s: State, ls: seq<Label>)
    requires Inv(s) && s.workers.stop == SWait && Blocked(s.workers) && Flagged(s.workers)
    requires IsRun(s, ls) && StopStep !in ls && Answered(s, ls)
    ensures Inv(Run(s, ls)) && Run(s, ls).workers.stop == SWait && Released(Run(s, ls).workers)
    decreases |ls|
  {
    StepKeeps(s, ls[0]);
    WaitingStopIsLeftAlone(s, ls[0]);
    FlaggedStep(s, ls[0]);
    if Answers(s, ls[0]) {
      ReleasedRuns(Step(s, ls[0]), ls[1..]);
    } else {
      AnswerReleases(Step(s, ls[0]), ls[1..]);
    }
  }

  /** A Stop that finds a call waiting, with the break flag set, comes to the stop event if and only if the server
      answers: exactly then can the run go on to it. */
  lemma BlockedStopCompletesIffAnswered(s: State, ls: seq<Label>)
    requires Inv(s) && s.workers.stop == SWait && Blocked(s.workers) && Flagged(s.workers)
    requires IsRun(s, ls) && StopStep !in ls
    ensures CanComplete(Run(s, ls)) <==> Answered(s, ls)
  {
    if Answered(s, ls) {
      AnswerReleases(s, ls);
    } else {
      UnansweredStopHangs(s, ls);
    }
    StopCompletesIff(Run(s, ls));
  }

  /** Once no call can wait, the Stop is certain to complete: in every run the helpers make no more steps than their
      rank, and there is always one to make, or a handler to finish, until they have ended. */
  lemma ReleasedStopIsCertain(s: State, ls: seq<Label>)
    requires Inv(s) && s.workers.stop == SWait && Released(s.workers) && IsRun(s, ls) && StopStep !in ls
    ensures AllHelperSteps(ls) + Rank(Run(s, ls).workers) <= Rank(s.workers)
    ensures Enabled(Run(s, ls), NextToStop(Run(s, ls)))
  {
    ShutdownIsBounded(s, ls);
    ReleasedCountsAll(s, ls);
    ReleasedRuns(s, ls);
    UnblockedMoves(Run(s, ls));
  }

  function AllHelperSteps(ls: seq<Label>): nat {
    if ls == [] then 0 else (if OfHelper(ls[0]) then 1 else 0) + AllHelperSteps(ls[1..])
  }

  lemma {:induction false} ReleasedCountsAll(s: State, ls: seq<Label>)
    requires Inv(s) && s.workers.stop == SWait && Released(s.workers) && IsRun(s, ls) && StopStep !in ls
    ensures HelperSteps(s, ls) == AllHelperSteps(ls)
    decreases |ls|
  {
    if ls != [] {
      StepKeeps(s, ls[0]);
      WaitingStopIsLeftAlone(s, ls[0]);
      ReleasedForGood(s, ls[0]);
      ReleasedCountsAll(Step(s, ls[0]), ls[1..]);
    }
  }

  lemma ReleasedCanComplete(s: State, ls: seq<Label>)
    requires Inv(s) && s.workers.stop == SWait && Released(s.workers) && IsRun(s, ls) && StopStep !in ls
    ensures CanComplete(Run(s, ls))
  {
    ReleasedRuns(s, ls);
    StopCompletesIff(Run(s, ls));
  }

  /** A read that is about to poll a clear flag goes on to wait for a frame, and then the Stop cannot complete. */
  lemma PollGoesOnToWait(s: State) returns (ls: seq<Label>)
    requires Inv(s) && s.workers.stop == SWait && s.workers.acq == Poll && !s.workers.flag
    ensures IsRun(s, ls) && Unaided(s, ls) && StopStep !in ls && Run(s, ls).workers.acq == Frame
    ensures !CanComplete(Run(s, ls))
  {
    var l := AcqStep(Pending);
    var t := Step(s, l);
    ls := [l];
    assert ls[1..] == [] && IsRun(t, []) && Run(t, []) == t && Unaided(t, []);
    StepKeeps(s, l);
    StopCompletesIff(t);
  }

  ghost predicate StaysCompletable(s: State) {
    forall ls | IsRun(s, ls) && Unaided(s, ls) && StopStep !in ls :: CanComplete(Run(s, ls))
  }

  /** The Stop cannot be made to hang, whatever order the threads run in without user and server, if and only if no
      call is waiting for the server and none is about to with the break flag clear. */
  lemma StopIsSureIff(s: State)
    requires Inv(s) && s.workers.stop == SWait
    ensures StaysCompletable(s) <==> Released(s.workers)
  {
    if Released(s.workers) {
      forall ls | IsRun(s, ls) && Unaided(s, ls) && StopStep !in ls ensures CanComplete(Run(s, ls)) {
        ReleasedCanComplete(s, ls);
      }
    } else if Blocked(s.workers) {
      StopCompletesIff(s);
      assert IsRun(s, []) && Unaided(s, []) && Run(s, []) == s;
    } else {
      var ls := PollGoesOnToWait(s);
    }
  }
}
