/** Whether closing a failed stream says that it was interrupted, over whole runs. */
module Interruptions {
  import opened Prelude
  import opened Errors
  import opened Framing
  import opened Session

  predicate Failed(reply: Reply) {
    reply.Got? && reply.received.Faulted?
  }

  /** Only `Recv` calls, and none of them failed. */
  predicate Receiving(calls: seq<Call>, replies: seq<Reply>) {
    (forall c :: c in calls ==> c.CallRecv?) && (forall r :: r in replies ==> !Failed(r))
  }

  lemma UnfailedStep(s: Session, before: Context, after: Context, sight: Sight)
    requires s.failure.None? && !s.closed && !Act(s, before, after, sight).1.Faulted?
    ensures var t := Act(s, before, after, sight).0;
            t.failure.None? && !t.closed
  {
  }

  lemma {:induction false} UnfailedRun(s: Session, calls: seq<Call>, look: Session -> Sight)
    requires s.failure.None? && !s.closed && Receiving(calls, Run(s, calls, look).1)
    ensures var t := Run(s, calls, look).0;
            t.failure.None? && !t.closed
  {
    if calls != [] {
      var n := |calls| - 1;
      var (t, replies) := Run(s, calls[..n], look);
      var reply := Step(t, calls[n], look).1;
      assert Run(s, calls, look).1 == replies + [reply];
      assert reply in replies + [reply] && calls[n] in calls;
      assert forall r :: r in replies ==> r in replies + [reply];
      UnfailedRun(s, calls[..n], look);
      UnfailedStep(t, calls[n].before, calls[n].after, look(t));
    }
  }

  /** What a state of a run that has not failed offers to the next `Recv`. */
  lemma ReadyToFail(s: Session, body: Bytes, wire: Wire)
    requires Invariant(s, body, wire) && s.failure.None? && !s.closed
    ensures s.finished || (Active(s) && !s.bodyClosed)
    ensures s.terminal ==> s.sequence.Some? && s.sequence.value.terminal
  {
  }

  lemma FailsOnce(s: Session, before: Context, after: Context, look: Session -> Sight)
    requires s.failure.None? && !s.closed && (s.finished || (Active(s) && !s.bodyClosed))
    requires s.terminal ==> s.sequence.Some? && s.sequence.value.terminal
    requires look(s).SawFrame? && look(s).verdict.Rejected? ==> !Is(look(s).verdict.error, INTERRUPTED)
    requires Failed(Step(s, CallRecv(before, after), look).1)
    ensures var (t, reply) := Step(s, CallRecv(before, after), look);
            && (Is(reply.received.error, INTERRUPTED) <==>
                Interrupts(s, before, after, look(s)) || Wraps(s.setup.closeError, INTERRUPTED))
            && Step(t, CallClose, look).1 == ClosedWith(Some(reply.received.error))
  {
    FailureInterruptsIff(s, before, after, look(s));
  }

  /** The first `Recv` of any run that fails, and the `Close` behind it: `Close`
      repeats the failure, and that is an interruption exactly when the context
      had ended, the body ended before the run was complete, reading it reported
      an interruption, or closing it did. */
  lemma FirstFailureInterruptsIff(body: Bytes, setup: Setup, calls: seq<Call>, before: Context, after: Context,
                                  wire: Wire)
    requires var (s, replies) := Run(Opened(body, setup), calls, Looking(wire));
             Receiving(calls, replies) && Failed(Step(s, CallRecv(before, after), Looking(wire)).1)
    ensures var (s, replies) := Run(Opened(body, setup), calls, Looking(wire));
            exists e ::
              && Run(Opened(body, setup), calls + [CallRecv(before, after), CallClose], Looking(wire)).1 ==
                 replies + [Got(Faulted(e)), ClosedWith(Some(e))]
              && (Is(e, INTERRUPTED) <==>
                  Interrupts(s, before, after, Look(s, wire)) || Wraps(setup.closeError, INTERRUPTED))
  {
    var start, look := Opened(body, setup), Looking(wire);
    var s := Run(start, calls, look).0;
    assert Frames([]) + body == body;
    RunKeeps(start, body, calls, look, wire);
    RunReports(start, calls, look);
    UnfailedRun(start, calls, look);
    ReadyToFail(s, body, wire);
    VerdictIsNoInterruption(s, wire);
    FailsOnce(s, before, after, look);
    RunAppendTwo(start, calls, CallRecv(before, after), CallClose, look);
  }

  /** A stream that breaks off at a bad frame: its body is one line feed, it has
      not been read to its end, and `Close` does not say that it was interrupted. */
  lemma BadFrameClosesWithoutInterruption(trace: Bytes, wire: Wire)
    ensures var calls := [CallRecv(Live, Live), CallClose];
            var replies := Run(Opened("\n", Setup(Eof, 100, trace, None)), calls, Looking(wire)).1;
            exists e :: replies == [Got(Faulted(e)), ClosedWith(Some(e))] && !Is(e, INTERRUPTED)
  {
    var setup := Setup(Eof, 100, trace, None);
    var s := Opened("\n", setup);
    var look := Looking(wire);
    BlankIsNoFrame("\n");
    assert look(s) == SawFault(NotOneDataLine);
    assert Run(s, [], look) == (s, []);
    FirstFailureInterruptsIff("\n", setup, [], Live, Live, wire);
    assert [] + [CallRecv(Live, Live), CallClose] == [CallRecv(Live, Live), CallClose];
  }

  lemma BlankIsNoFrame(s: Bytes)
    requires |s| == 1 && s[0] == '\n'
    ensures FrameOf(s, Eof, 100) == FrameError(NotOneDataLine)
  {
    assert s[..1] == s && s[0] != FIELD[0];
    assert LineOf(s, Eof, 100) == Line(s);
  }
}
