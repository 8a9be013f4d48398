/** What each call on the agent's result stream answers, said of the frame found,
    of the events handed out so far and of what closing the body returns. */
module AgentAnswers {
  import opened Prelude
  import opened Errors
  import opened JsonNames
  import opened Framing
  import opened ResultEvents
  import opened Session
  import opened AgentStream

  /** The identifiers of the run: those the first event opens it with, or those of
      the run that is open. */
  function RunIds(s: Nested, e: Event): Ids {
    Ids(if s.sequence.None? then e.ids.invocation else s.invocation, s.rootTask, s.trace)
  }

  /** A validator that has accepted these events. */
  function ValidatorAfter(ids: Ids, events: seq<Event>): Validator {
    Validator(ids, |events|, Chunks(events), Complete(events))
  }

  /** A payload that decodes to an event, and the event continues the run. */
  predicate CanFollow(s: Nested, payload: Bytes, e: Event, wire: NestedWire) {
    && WalkAccepts(payload, wire.json) && wire.decode(payload) == Some(e) && wire.admits(e)
    && (s.sequence.None? ==> wire.opens(RunIds(s, e)))
    && WellFormed(RunIds(s, e), s.delivered + [e])
  }

  /** What a failure finds of the errors that it wraps. */
  predicate FailureFinds(s: Nested, frame: FrameResult, wire: NestedWire, target: Error) {
    match frame
    case FrameEof => s.sequence.Some? && Is(wire.finishError(ValidatorAfter(s.sequence.value.ids, s.delivered)), target)
    case FrameError(fault) => Is(FaultError(fault), target)
    case Frame(payload) =>
      if !WalkAccepts(payload, wire.json) then Is(wire.walkError(payload), target)
      else match wire.decode(payload)
        case None => Is(wire.decodeError(payload), target)
        case Some(e) =>
          if s.sequence.None? && !e.kind.Accepted? then false
          else if s.sequence.None? && !wire.opens(RunIds(s, e)) then Is(wire.opensError(RunIds(s, e)), target)
          else Is(wire.admitsError(ValidatorAfter(RunIds(s, e), s.delivered), e), target)
  }

  // ----- one call -----

  lemma ValidatorIsAfter(s: Nested)
    requires NestedInvariant(s) && s.sequence.Some?
    ensures s.sequence.value == ValidatorAfter(Ids(s.invocation, s.rootTask, s.trace), s.delivered)
  {
  }

  lemma AdmitAnswers(s: Nested, v: Validator, e: Event, d: Event, wire: NestedWire)
    requires WellFormed(v.ids, s.delivered) && Tracks(v, s.delivered)
    ensures var received := NestedAdmit(s, v, e, wire).1;
            && (received == Delivered(d) <==> e == d && wire.admits(e) && WellFormed(v.ids, s.delivered + [e]))
            && received != EndOfStream
            && (received.Faulted? ==> received.error == Invalid(v, e, wire))
  {
    AcceptIff(v, s.delivered, e, wire.admits);
  }

  lemma TakeAnswers(s: Nested, payload: Bytes, d: Event, wire: NestedWire)
    requires NestedInvariant(s)
    ensures var received := NestedTake(s, payload, wire).1;
            (received == Delivered(d) <==> CanFollow(s, payload, d, wire)) && received != EndOfStream
  {
    if WalkAccepts(payload, wire.json) && wire.decode(payload).Some? {
      var e := wire.decode(payload).value;
      if s.sequence.Some? {
        ValidatorIsAfter(s);
        AdmitAnswers(s, s.sequence.value, e, d, wire);
      } else {
        assert s.delivered + [e] == [e];
        FirstIsAccepted(RunIds(s, e), e);
        var v := NewValidator(OpeningIds(s, e));
        AdmitAnswers(s.(sequence := Some(v), invocation := e.ids.invocation), v, e, d, wire);
      }
    }
  }

  lemma TakeFinds(s: Nested, payload: Bytes, wire: NestedWire, target: Error)
    requires NestedInvariant(s) && target.Sentinel? && NestedTake(s, payload, wire).1.Faulted?
    ensures Is(NestedTake(s, payload, wire).1.error, target) <==> FailureFinds(s, Frame(payload), wire, target)
  {
    if WalkAccepts(payload, wire.json) && wire.decode(payload).Some? {
      var e := wire.decode(payload).value;
      if s.sequence.Some? {
        ValidatorIsAfter(s);
        AdmitAnswers(s, s.sequence.value, e, e, wire);
      } else if e.kind.Accepted? && wire.opens(OpeningIds(s, e)) {
        var v := NewValidator(OpeningIds(s, e));
        assert v == ValidatorAfter(RunIds(s, e), s.delivered);
        AdmitAnswers(s.(sequence := Some(v), invocation := e.ids.invocation), v, e, e, wire);
      }
    }
  }

  lemma RecvFinds(s: Nested, frame: FrameResult, wire: NestedWire, target: Error)
    requires NestedInvariant(s) && !s.closed && !s.finished && target.Sentinel?
    requires NestedRecv(s, frame, wire).1.Faulted?
    ensures Is(NestedRecv(s, frame, wire).1.error, target) <==> FailureFinds(s, frame, wire, target)
  {
    match frame
    case Frame(payload) => TakeFinds(s, payload, wire, target);
    case FrameError(fault) => WrappedFinds("agentsdk: read SSE frame", FaultError(fault), target);
    case FrameEof =>
      if s.sequence.Some? {
        ValidatorIsAfter(s);
        WrappedFinds("agentsdk: finish result stream", wire.finishError(s.sequence.value), target);
      }
  }

  // ----- over runs -----

  lemma {:induction false} FlagsOfRun(rootTask: Bytes, trace: Bytes, closeError: Option<Error>, calls: seq<NestedCall>,
                                      wire: NestedWire)
    ensures var (s, replies) := NestedRun(NestedOpened(rootTask, trace, closeError), calls, wire);
            && (s.closed <==> NestedCloseCall in calls)
            && (s.finished <==> Got(EndOfStream) in replies)
  {
    if calls != [] {
      var n := |calls| - 1;
      var start := NestedOpened(rootTask, trace, closeError);
      FlagsOfRun(rootTask, trace, closeError, calls[..n], wire);
      var t := NestedRun(start, calls[..n], wire).0;
      FlagsOfStep(t, calls[n], wire);
      assert calls == calls[..n] + [calls[n]];
    }
  }

  lemma FlagsOfStep(s: Nested, call: NestedCall, wire: NestedWire)
    ensures var (t, reply) := NestedStep(s, call, wire);
            && (t.closed <==> s.closed || call == NestedCloseCall)
            && (t.finished <==> s.finished || reply == Got(EndOfStream))
  {
  }

  /** The state after a run, as far as its replies tell it. */
  lemma StateOfRun(rootTask: Bytes, trace: Bytes, closeError: Option<Error>, calls: seq<NestedCall>, wire: NestedWire)
    returns (s: Nested)
    ensures var (t, replies) := NestedRun(NestedOpened(rootTask, trace, closeError), calls, wire);
            && s == t && NestedInvariant(s) && s.delivered == EventsOf(replies)
            && s.rootTask == rootTask && s.trace == trace && s.closeError == closeError
            && (s.closed <==> NestedCloseCall in calls)
            && (s.finished <==> Got(EndOfStream) in replies)
  {
    var start := NestedOpened(rootTask, trace, closeError);
    var replies := NestedRun(start, calls, wire).1;
    s := NestedRun(start, calls, wire).0;
    NestedRunKeeps(start, calls, wire);
    NestedRunReports(start, calls, wire);
    FlagsOfRun(rootTask, trace, closeError, calls, wire);
    assert [] + EventsOf(replies) == EventsOf(replies);
  }

  /** Every `Recv` of every run that has been neither closed nor ended, errors or
      not: it delivers an event exactly when the frame found spells one that continues
      the run; it ends exactly at the end of a body whose run is complete; and when it
      fails, its error finds exactly what the error behind the failure finds. */
  lemma NextAnswer(rootTask: Bytes, trace: Bytes, closeError: Option<Error>, calls: seq<NestedCall>,
                   frame: FrameResult, wire: NestedWire)
    requires NestedCloseCall !in calls
    requires Got(EndOfStream) !in NestedRun(NestedOpened(rootTask, trace, closeError), calls, wire).1
    ensures var (s, replies) := NestedRun(NestedOpened(rootTask, trace, closeError), calls, wire);
            var answer := NestedStep(s, NestedRecvCall(frame), wire).1;
            && s.delivered == EventsOf(replies) && answer.Got?
            && (forall e :: answer.received == Delivered(e) <==> frame.Frame? && CanFollow(s, frame.payload, e, wire))
            && (answer.received == EndOfStream <==> frame.FrameEof? && Complete(s.delivered))
            && (forall target: Error :: target.Sentinel? && answer.received.Faulted? ==>
                  (Is(answer.received.error, target) <==> FailureFinds(s, frame, wire, target)))
  {
    var s := StateOfRun(rootTask, trace, closeError, calls, wire);
    forall e
      ensures NestedRecv(s, frame, wire).1 == Delivered(e) <==> frame.Frame? && CanFollow(s, frame.payload, e, wire)
    {
      if frame.Frame? {
        TakeAnswers(s, frame.payload, e, wire);
      }
    }
    forall target: Error | target.Sentinel? && NestedRecv(s, frame, wire).1.Faulted?
      ensures Is(NestedRecv(s, frame, wire).1.error, target) <==> FailureFinds(s, frame, wire, target)
    {
      RecvFinds(s, frame, wire, target);
    }
    EndsAtEof(s, frame, wire);
  }

  /** Before a run is open, an end is refused as one without a run, and an event that
      opens none as one that does not begin with it. */
  lemma RefusedBeforeOpen(rootTask: Bytes, trace: Bytes, closeError: Option<Error>, calls: seq<NestedCall>,
                          frame: FrameResult, wire: NestedWire)
    requires NestedCloseCall !in calls
    requires Got(EndOfStream) !in NestedRun(NestedOpened(rootTask, trace, closeError), calls, wire).1
    ensures var (s, _) := NestedRun(NestedOpened(rootTask, trace, closeError), calls, wire);
            var (t, answer) := NestedStep(s, NestedRecvCall(frame), wire);
            && (s.sequence.None? && frame.FrameEof? ==>
                  answer == Got(Faulted(Message("agentsdk: result stream ended before an accepted event"))))
            && (s.sequence.None? && frame.Frame? && WalkAccepts(frame.payload, wire.json)
                && wire.decode(frame.payload).Some? && !wire.decode(frame.payload).value.kind.Accepted? ==>
                  answer == Got(Faulted(Message("agentsdk: result stream must begin with accepted"))) && t == s)
  {
    FlagsOfRun(rootTask, trace, closeError, calls, wire);
  }

  lemma EndsAtEof(s: Nested, frame: FrameResult, wire: NestedWire)
    requires NestedInvariant(s) && !s.closed && !s.finished
    ensures NestedRecv(s, frame, wire).1 == EndOfStream <==> frame.FrameEof? && Complete(s.delivered)
  {
    if frame.Frame? && WalkAccepts(frame.payload, wire.json) && wire.decode(frame.payload).Some? {
      TakeAnswers(s, frame.payload, wire.decode(frame.payload).value, wire);
    }
  }

  /** The first `Close` of any run: nil once the end has been reported; else it finds
      what closing the body returned and, while a run is open that has no terminal
      event, what the validator that accepted its events says of ending it there. */
  lemma FirstCloseFindsIff(rootTask: Bytes, trace: Bytes, closeError: Option<Error>, calls: seq<NestedCall>,
                           wire: NestedWire, target: Error)
    requires NestedCloseCall !in calls && target.Sentinel?
    ensures var (s, replies) := NestedRun(NestedOpened(rootTask, trace, closeError), calls, wire);
            var answer, events := NestedStep(s, NestedCloseCall, wire).1, EventsOf(replies);
            && answer.ClosedWith? && (events != [] ==> s.sequence.Some?)
            && (answer.outcome.None? <==> Got(EndOfStream) in replies)
            && (answer.outcome.Some? ==>
                  (Is(answer.outcome.value, target) <==>
                   || Wraps(closeError, target)
                   || (s.sequence.Some? && !Complete(events)
                       && var ids := Ids(s.invocation, rootTask, trace);
                          Is(wire.finishError(ValidatorAfter(ids, events)), target))))
  {
    var s := StateOfRun(rootTask, trace, closeError, calls, wire);
    if s.sequence.Some? {
      ValidatorIsAfter(s);
      WrappedFinds("agentsdk: close interrupted result stream", wire.finishError(s.sequence.value), target);
    }
  }

  /** Once closed, a stream refuses every `Recv` with an error that finds nothing, and
      every `Close` is nil; once ended and not closed, it ends every time. */
  lemma LaterAnswers(rootTask: Bytes, trace: Bytes, closeError: Option<Error>, calls: seq<NestedCall>,
                     frame: FrameResult, wire: NestedWire, target: Error)
    requires target.Sentinel?
    ensures var (s, replies) := NestedRun(NestedOpened(rootTask, trace, closeError), calls, wire);
            var (t, answer) := NestedStep(s, NestedRecvCall(frame), wire);
            && (NestedCloseCall in calls ==>
                  && t == s && answer.Got? && answer.received.Faulted? && !Is(answer.received.error, target)
                  && NestedStep(s, NestedCloseCall, wire) == (s, ClosedWith(None)))
            && (NestedCloseCall !in calls && Got(EndOfStream) in replies ==> t == s && answer == Got(EndOfStream))
  {
    FlagsOfRun(rootTask, trace, closeError, calls, wire);
  }
}
