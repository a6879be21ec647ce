/** What the threads of a run do by themselves. */
module StopThreads {
  import opened StopProtocol

  /** The acquisition thread by itself, with what the server does at each step. */
  function Alone(w: Workers, rs: seq<Reply>): Workers
    decreases |rs|
  {
    if rs == [] then w else Alone(AcqDo(w, rs[0]), rs[1..])
  }

  lemma AloneOne(w: Workers, r: Reply)
    ensures Alone(w, [r]) == AcqDo(w, r)
  {
    assert [r][1..] == [];
  }

  lemma AloneTwo(w: Workers, r: Reply, t: Reply)
    ensures Alone(w, [r, t]) == AcqDo(AcqDo(w, r), t)
  {
    AloneOne(AcqDo(w, r), t);
    assert [r, t][1..] == [t];
  }

  lemma AloneThree(w: Workers, r: Reply, t: Reply, u: Reply)
    ensures Alone(w, [r, t, u]) == AcqDo(AcqDo(AcqDo(w, r), t), u)
  {
    AloneTwo(AcqDo(w, r), t, u);
    assert [r, t, u][1..] == [t, u];
  }

  // ---- with bContinue set ----

  /** The thread starts the draw thread and then the interrupt thread, without a connection. */
  lemma HelpersAreStarted(w: Workers, r: Reply)
    requires w.acq == Begin
    ensures Alone(w, [r, r]) == w.(acq := Outer, draw := DTest, intr := ITest, conn := false, flag := false)
  {
    AloneTwo(w, r, r);
  }

  /** A request that is accepted, on a new connection whose break flag is clear, is read from; one that is not is made
      again, after a look at bContinue. */
  lemma RequestIsRead(w: Workers)
    requires w.acq == Outer && w.running
    ensures Alone(w, [Success, Success, Success]) == w.(acq := Connect)
    ensures Alone(w.(acq := Connect), [Success, Success, Success]) == w.(acq := Poll, conn := true, flag := false)
    ensures Alone(w, [Success, Failure]) == w && Alone(w.(acq := Connect), [Failure]) == w.(conn := false)
    ensures Alone(w.(acq := Connect), [Pending]) == w.(acq := Connect)
  {
    AloneThree(w, Success, Success, Success);
    AloneThree(w.(acq := Connect), Success, Success, Success);
    AloneTwo(w, Success, Failure);
    AloneOne(w.(acq := Connect), Failure);
    AloneOne(w.(acq := Connect), Pending);
  }

  /** A read looks at the break flag and then waits for a frame. */
  lemma ReadLooksAtFlag(w: Workers, r: Reply)
    requires w.acq == Poll
    ensures Alone(w, [r]) == if w.flag then w.(acq := Outer) else w.(acq := Frame)
  {
    AloneOne(w, r);
  }

  /** After a frame with data, which is appended under the mutex, the same request is read from again, after a look at
      bContinue. */
  lemma DataIsReadOn(w: Workers, r: Reply)
    requires w.acq == Frame && w.running
    ensures Alone(w, [DataFrame, r, r]) == w.(acq := Release) && Alone(w.(acq := Release), [r, r]) == w.(acq := Poll)
  {
    AloneThree(w, DataFrame, r, r);
    AloneTwo(w.(acq := Release), r, r);
  }

  /** So it is after a frame that cannot be unpacked and a connection that is lost. */
  lemma BadFrameIsPassedOver(w: Workers, r: Reply)
    requires w.acq == Frame && w.running
    ensures Alone(w, [BadFrame, r]) == w.(acq := Poll) && Alone(w, [LostServer, r]) == w.(acq := Poll)
  {
    AloneTwo(w, BadFrame, r);
    AloneTwo(w, LostServer, r);
  }

  /** After another kind of frame it is read from without such a look, and after the last frame a new request is
      made. */
  lemma FrameLeadsOn(w: Workers, r: Reply)
    requires w.acq == Frame && w.running
    ensures Alone(w, [OtherFrame]) == w.(acq := Poll) && Alone(w, [Pending]) == w
    ensures Alone(w, [EndFrame, r]) == w.(acq := Alloc)
  {
    AloneOne(w, OtherFrame);
    AloneOne(w, Pending);
    AloneTwo(w, EndFrame, r);
  }

  // ---- with bContinue clear ----

  /** Wherever the thread looks at bContinue it finds its way to the joins, where it waits for the draw thread and then
      for the interrupt thread, and ends. */
  lemma ClearedLeadsToJoin(w: Workers, r: Reply)
    requires !w.running && r != Pending
    ensures w.acq in {Outer, Check1, Check2} ==> Alone(w, [r]) == w.(acq := JoinDraw)
    ensures w.acq == Inner ==> Alone(w, [r, r]) == w.(acq := JoinDraw)
    ensures w.acq == JoinDraw ==> Alone(w, [r, r]) == w.(acq := Ended)
    ensures w.acq == JoinDraw ==> forall c :: AcqEnabled(w, c, r) <==> w.draw == DEnd
    ensures w.acq == JoinIntr ==> forall c :: AcqEnabled(w, c, r) <==> w.intr == IEnd
  {
    AloneOne(w, r);
    AloneTwo(w, r, r);
  }

  /** The interrupt thread looks at bContinue again and again, and once it is clear sets the break flag, if there is a
      connection, and ends; the draw thread just ends. */
  lemma HelpersEnd(w: Workers, fire: bool)
    requires w.intr == ITest && w.draw == DTest
    ensures w.running ==> IntrDo(IntrDo(w)) == w && DrawDo(DrawDo(w, fire), false) == w
    ensures !w.running ==> IntrDo(IntrDo(w)) == w.(intr := IEnd, flag := w.flag || w.conn)
    ensures !w.running ==> DrawDo(w, fire) == w.(draw := DEnd)
  {}

  /** The stop thread disables the toolbar, clears bContinue, waits for the acquisition thread to end, enables the
      toolbar and posts the stop event, in this order. */
  lemma StopThreadDoes(s: State)
    requires s.workers.stop == SDisable
    ensures var s1 := Step(s, StopStep);
            && !s1.view.enabled && s1.workers.running == s.workers.running && s1.queue == s.queue
            && var s2 := Step(s1, StopStep);
            && !s2.workers.running && !s2.view.enabled && s2.queue == s.queue
            && (Enabled(s2, StopStep) <==> s2.workers.acq == Ended)
            && (Enabled(s2, StopStep) ==>
                 var s3 := Step(s2, StopStep);
                 var s4 := Step(s3, StopStep);
                 var s5 := Step(s4, StopStep);
                 && !s3.view.enabled && s4.view.enabled && s4.queue == s.queue
                 && s5.queue == s.queue + [StopEv] && s5.workers.stop == SIdle)
  {
    assert s.queue + [] == s.queue;
  }
}
