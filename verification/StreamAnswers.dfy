/** What each call on the client's stream answers, said of the body, of the events
    handed out so far and of what closing the body returns. */
module StreamAnswers {
  import opened Prelude
  import opened Errors
  import opened JsonNames
  import opened Framing
  import opened ResultEvents
  import opened Session
  import opened Interruptions

  // ----- what may be answered -----

  /** The identifiers that the next event must carry. */
  function RunIds(events: seq<Event>, e: Event): Ids {
    if events == [] then e.ids else events[0].ids
  }

  /** The unread bytes start with the frame of an event that continues the run. */
  predicate CanFollow(unread: Bytes, events: seq<Event>, payload: Bytes, e: Event, setup: Setup, wire: Wire) {
    && FrameText(payload) <= unread && Sendable(payload, setup.limit)
    && WalkAccepts(payload, wire.json) && wire.decode(payload) == Some(e) && wire.admits(e)
    && (events == [] ==> e.ids.trace == setup.trace && wire.opens(e.ids))
    && WellFormed(RunIds(events, e), events + [e])
  }

  ghost predicate FrameAhead(unread: Bytes, limit: nat) {
    exists payload :: FrameText(payload) <= unread && Sendable(payload, limit)
  }

  /** What the error of a context that is over is. */
  predicate NamesContext(ctx: Context, target: Error) {
    target == INTERRUPTED || target == if ctx.Aborted? then CONTEXT_CANCELED else DEADLINE_EXCEEDED
  }

  /** What is left ends before its line does: then the body's own error is found,
      or, short of a whole line, an unexpected end of file. */
  predicate NamesFault(unread: Bytes, end: End, limit: nat, target: Error) {
    && (forall i :: 0 <= i < |unread| ==> unread[i] != '\n') && |unread| <= limit
    && match end
       case Broken(e) => Is(e, target)
       case Eof => unread != [] && target == Sentinel("unexpected EOF")
  }

  /** What a failure finds, besides what closing the body returned. */
  ghost predicate FailureFinds(unread: Bytes, events: seq<Event>, before: Context, after: Context, setup: Setup,
                               target: Error)
  {
    if !before.Live? then NamesContext(before, target)
    else if unread == [] && setup.end == Eof then target == INTERRUPTED && !Complete(events)
    else if FrameAhead(unread, setup.limit) then false
    else if !after.Live? then NamesContext(after, target)
    else NamesFault(unread, setup.end, setup.limit, target)
  }

  // ----- one Recv -----

  lemma VerdictAdmits(s: Session, payload: Bytes, e: Event, wire: Wire)
    requires s.sequence.Some? <==> s.delivered != []
    requires s.sequence.Some? ==> Tracks(s.sequence.value, s.delivered) && s.sequence.value.ids == s.delivered[0].ids
    requires s.delivered != [] ==> WellFormed(s.delivered[0].ids, s.delivered)
    ensures var verdict := VerdictOn(s.sequence, s.setup.trace, payload, wire);
            (verdict.Admitted? && verdict.event == e) <==>
            && WalkAccepts(payload, wire.json) && wire.decode(payload) == Some(e) && wire.admits(e)
            && (s.delivered == [] ==> e.ids.trace == s.setup.trace && wire.opens(e.ids))
            && WellFormed(RunIds(s.delivered, e), s.delivered + [e])
  {
    var ids := RunIds(s.delivered, e);
    var v := if s.sequence.None? then NewValidator(ids) else s.sequence.value;
    AcceptIff(v, s.delivered, e, wire.admits);
    if s.delivered == [] {
      assert s.delivered + [e] == [e];
      FirstIsAccepted(ids, e);
    }
  }

  lemma TakeDelivers(s: Session, payload: Bytes, verdict: Verdict, e: Event)
    ensures Take(s, payload, verdict).1 == Delivered(e) <==> verdict.Admitted? && verdict.event == e
  {
  }

  lemma NoFrameNoEvent(s: Session, after: Context, sight: Sight, e: Event)
    requires Active(s) && !sight.SawFrame?
    ensures Act(s, Live, after, sight).1 != Delivered(e)
  {
  }

  lemma DeliversIff(s: Session, body: Bytes, after: Context, e: Event, wire: Wire)
    requires Invariant(s, body, wire) && Active(s)
    ensures Recv(s, Live, after, wire).1 == Delivered(e) <==>
            exists payload :: CanFollow(s.unread, s.delivered, payload, e, s.setup, wire)
  {
    var frame, sight := FrameOf(s.unread, s.setup.end, s.setup.limit), Look(s, wire);
    LookCases(s, wire, frame);
    if frame.Frame? {
      FrameOfIff(s.unread, s.setup.end, s.setup.limit, frame.payload);
      VerdictAdmits(s, frame.payload, e, wire);
      ActCases(s, after, sight);
      TakeDelivers(s.(unread := sight.rest), frame.payload, sight.verdict, e);
      if Recv(s, Live, after, wire).1 == Delivered(e) {
        assert CanFollow(s.unread, s.delivered, frame.payload, e, s.setup, wire);
      }
    } else {
      NoFrameNoEvent(s, after, sight, e);
    }
    forall payload | CanFollow(s.unread, s.delivered, payload, e, s.setup, wire)
      ensures frame == Frame(payload) && Recv(s, Live, after, wire).1 == Delivered(e)
    {
      FrameOfIff(s.unread, s.setup.end, s.setup.limit, payload);
    }
  }

  lemma EndsIff(s: Session, body: Bytes, after: Context, wire: Wire)
    requires Invariant(s, body, wire) && Active(s)
    ensures Recv(s, Live, after, wire).1 == EndOfStream <==>
            s.unread == [] && s.setup.end == Eof && Complete(s.delivered) && s.setup.closeError.None?
  {
    var frame := FrameOf(s.unread, s.setup.end, s.setup.limit);
    EndReads(s.unread, s.setup.end, s.setup.limit);
    LookCases(s, wire, frame);
    ActCases(s, after, Look(s, wire));
  }

  lemma FaultNames(s: Bytes, end: End, limit: nat, target: Error)
    requires FrameOf(s, end, limit).FrameError? && target.Sentinel?
    ensures Is(ReadFailed(FrameOf(s, end, limit).fault), target) <==> NamesFault(s, end, limit, target)
  {
    var line := LineOf(s, end, limit);
    LineNames(s, end, limit, target);
    if line.Line? {
      NoBrokenLine(s, end, limit);
    } else {
      assert FrameOf(s, end, limit) == FrameError(BadLine(line));
    }
  }

  lemma NoBrokenLine(s: Bytes, end: End, limit: nat)
    requires LineOf(s, end, limit).Line? && FrameOf(s, end, limit).FrameError?
    ensures !FrameOf(s, end, limit).fault.BadLine?
  {
  }

  lemma LineNames(s: Bytes, end: End, limit: nat, target: Error)
    requires target.Sentinel?
    ensures var line := LineOf(s, end, limit);
            match line
            case Line(_) => exists i :: 0 <= i < |s| && s[i] == '\n'
            case LineEof => s == [] && end == Eof
            case _ => Is(FaultError(BadLine(line)), target) <==> NamesFault(s, end, limit, target)
  {
    var n := FirstNewline(s);
    if n < |s| {
      assert s[n] == '\n';
    }
  }

  lemma FailureFindsIff(s: Session, body: Bytes, before: Context, after: Context, wire: Wire, target: Error)
    requires Invariant(s, body, wire) && Active(s) && target.Sentinel? && Recv(s, before, after, wire).1.Faulted?
    ensures var (t, received) := Recv(s, before, after, wire);
            && (Is(received.error, target) <==>
                || FailureFinds(s.unread, s.delivered, before, after, s.setup, target)
                || Wraps(s.setup.closeError, target))
            && t.failure == Some(received.error) && t.closed == s.closed
  {
    if !before.Live? {
      RecordedFinds(s, ContextEnded(before), target);
      ContextFinds(before, target);
    } else {
      var frame := FrameOf(s.unread, s.setup.end, s.setup.limit);
      LookCases(s, wire, frame);
      ActCases(s, after, Look(s, wire));
      EndReads(s.unread, s.setup.end, s.setup.limit);
      match frame
      case FrameEof => EndFinds(s, target);
      case FrameError(fault) => FaultFinds(s, after, fault, target);
      case Frame(payload) =>
        FrameOfIff(s.unread, s.setup.end, s.setup.limit, payload);
        VerdictFinds(s, payload, wire, target);
        RecordedFinds(s.(unread := Look(s, wire).rest, sequence := Look(s, wire).verdict.sequence),
                      Look(s, wire).verdict.error, target);
    }
  }

  lemma ContextFinds(ctx: Context, target: Error)
    requires !ctx.Live? && target.Sentinel?
    ensures Is(ContextEnded(ctx), target) <==> NamesContext(ctx, target)
  {
    var e := Wrapped("clientsdk: result stream context ended", ContextError(ctx));
    assert Is(ContextEnded(ctx), target) <==> Is(e, target) || Is(INTERRUPTED, target);
    assert Is(e, target) <==> Is(ContextError(ctx), target);
  }

  lemma RecordedFinds(s: Session, e: Error, target: Error)
    requires s.failure.None? && target.Sentinel?
    ensures var (t, received) := RecordFailure(s, e);
            && received.Faulted? && t.failure == Some(received.error) && t.closed == s.closed
            && (Is(received.error, target) <==> Is(e, target) || Wraps(ShutError(s), target))
  {
  }

  lemma EndFinds(s: Session, target: Error)
    requires Active(s) && !s.bodyClosed && target.Sentinel? && AtEnd(s).1.Faulted?
    requires s.terminal == Complete(s.delivered)
    requires s.terminal ==> s.sequence.Some? && s.sequence.value.terminal
    ensures var (t, received) := AtEnd(s);
            && (Is(received.error, target) <==>
                (target == INTERRUPTED && !Complete(s.delivered)) || Wraps(s.setup.closeError, target))
            && t.failure == Some(received.error) && t.closed == s.closed
  {
    if !s.terminal {
      RecordedFinds(s, EARLY_END, target);
      WrappedFinds("clientsdk: result stream ended before a terminal event", INTERRUPTED, target);
    } else {
      WrappedFinds("clientsdk: close completed result stream", s.setup.closeError.value, target);
      RecordedFinds(Shut(s), Wrapped("clientsdk: close completed result stream", s.setup.closeError.value), target);
    }
  }

  lemma FaultFinds(s: Session, after: Context, fault: Fault, target: Error)
    requires Active(s) && !s.bodyClosed && target.Sentinel?
    requires FrameOf(s.unread, s.setup.end, s.setup.limit) == FrameError(fault)
    ensures var e := if !after.Live? then ContextEnded(after) else ReadFailed(fault);
            var (t, received) := RecordFailure(s, e);
            && received.Faulted? && t.failure == Some(received.error) && t.closed == s.closed
            && (Is(received.error, target) <==>
                FailureFinds(s.unread, s.delivered, Live, after, s.setup, target) || Wraps(s.setup.closeError, target))
  {
    RecordedFinds(s, if !after.Live? then ContextEnded(after) else ReadFailed(fault), target);
    FaultNames(s.unread, s.setup.end, s.setup.limit, target);
    if !after.Live? {
      ContextFinds(after, target);
    }
    EndReads(s.unread, s.setup.end, s.setup.limit);
    forall payload | FrameText(payload) <= s.unread && Sendable(payload, s.setup.limit) ensures false {
      FrameOfIff(s.unread, s.setup.end, s.setup.limit, payload);
    }
  }

  lemma VerdictFinds(s: Session, payload: Bytes, wire: Wire, target: Error)
    requires target.Sentinel?
    ensures var verdict := VerdictOn(s.sequence, s.setup.trace, payload, wire);
            verdict.Rejected? ==> !Is(verdict.error, target)
  {
  }

  // ----- one Close -----

  /** The first `Close`: nil behind the end, the failure behind a failure, and
      short of both an interruption with what closing the body returned. */
  lemma CloseFindsIff(s: Session, body: Bytes, wire: Wire, target: Error)
    requires Invariant(s, body, wire) && !s.closed && target.Sentinel?
    ensures var outcome := Close(s).1;
            if s.failure.Some? then outcome == s.failure
            else if s.finished then outcome.None?
            else outcome.Some? && (Is(outcome.value, target) <==>
                                   target == INTERRUPTED || Wraps(s.setup.closeError, target))
  {
    WrappedFinds("clientsdk: result stream closed before terminal EOF", INTERRUPTED, target);
  }

  /** A closed stream says so, and nothing else. */
  lemma ClosedFinds(s: Session, before: Context, after: Context, wire: Wire, target: Error)
    requires s.closed && target.Sentinel?
    ensures var (t, received) := Recv(s, before, after, wire);
            t == s && received.Faulted? && (Is(received.error, target) <==> target == STREAM_CLOSED)
  {
    WrappedFinds("clientsdk: result stream is closed", STREAM_CLOSED, target);
  }

  // ----- over runs -----

  /** Only `Recv` calls, none of which has failed or ended. */
  predicate StillOpen(calls: seq<Call>, replies: seq<Reply>) {
    Receiving(calls, replies) && Got(EndOfStream) !in replies
  }

  lemma UnendedStep(s: Session, before: Context, after: Context, sight: Sight)
    requires !s.finished && !s.closed && Act(s, before, after, sight).1 != EndOfStream
    ensures !Act(s, before, after, sight).0.finished
  {
  }

  lemma {:induction false} UnendedRun(s: Session, calls: seq<Call>, look: Session -> Sight)
    requires Active(s) && StillOpen(calls, Run(s, calls, look).1)
    ensures Active(Run(s, calls, look).0)
  {
    UnfailedRun(s, calls, look);
    if calls != [] {
      var n := |calls| - 1;
      var (t, replies) := Run(s, calls[..n], look);
      var reply := Step(t, calls[n], look).1;
      assert Run(s, calls, look).1 == replies + [reply];
      assert reply in replies + [reply] && calls[n] in calls;
      assert forall r :: r in replies ==> r in replies + [reply];
      UnendedRun(s, calls[..n], look);
      UnendedStep(t, calls[n].before, calls[n].after, look(t));
    }
  }

  /** What an open stream has read, and what is left of the body. */
  ghost predicate HasTaken(body: Bytes, payloads: seq<Bytes>, unread: Bytes, events: seq<Event>, wire: Wire) {
    body == Frames(payloads) + unread && AreDecoded(payloads, events, wire)
  }

  lemma OpenState(body: Bytes, setup: Setup, calls: seq<Call>, wire: Wire) returns (s: Session)
    requires StillOpen(calls, Run(Opened(body, setup), calls, Looking(wire)).1)
    ensures s == Run(Opened(body, setup), calls, Looking(wire)).0
    ensures Invariant(s, body, wire) && Active(s) && s.setup == setup
    ensures s.delivered == EventsOf(Run(Opened(body, setup), calls, Looking(wire)).1)
  {
    var start, look := Opened(body, setup), Looking(wire);
    var replies := Run(start, calls, look).1;
    s := Run(start, calls, look).0;
    assert Frames([]) + body == body;
    RunKeeps(start, body, calls, look, wire);
    RunReports(start, calls, look);
    UnendedRun(start, calls, look);
    assert [] + EventsOf(replies) == EventsOf(replies);
  }

  /** Every `Recv` of every run that is still open: it delivers an event exactly
      when the context is live and what is unread starts with the frame of an event
      that continues the run; it ends exactly when nothing is unread, the body has
      ended, the run is complete and closing the body reports nothing; and when it
      fails, its error finds what closing the body returned and, of the context, an
      interruption and the body's own error, exactly what applies. */
  lemma NextAnswer(body: Bytes, setup: Setup, calls: seq<Call>, before: Context, after: Context, wire: Wire)
    returns (payloads: seq<Bytes>, unread: Bytes)
    requires StillOpen(calls, Run(Opened(body, setup), calls, Looking(wire)).1)
    ensures var (s, replies) := Run(Opened(body, setup), calls, Looking(wire));
            var events, answer := EventsOf(replies), Step(s, CallRecv(before, after), Looking(wire)).1;
            && HasTaken(body, payloads, unread, events, wire)
            && answer.Got?
            && (forall e :: answer.received == Delivered(e) <==>
                  before.Live? && exists payload :: CanFollow(unread, events, payload, e, setup, wire))
            && (answer.received == EndOfStream <==>
                  before.Live? && unread == [] && setup.end == Eof && Complete(events) && setup.closeError.None?)
            && (forall target: Error :: target.Sentinel? && answer.received.Faulted? ==>
                  (Is(answer.received.error, target) <==>
                   FailureFinds(unread, events, before, after, setup, target) || Wraps(setup.closeError, target)))
  {
    var s := OpenState(body, setup, calls, wire);
    payloads, unread := s.payloads, s.unread;
    if before.Live? {
      EndsIff(s, body, after, wire);
      forall e
        ensures Recv(s, Live, after, wire).1 == Delivered(e) <==>
                exists payload :: CanFollow(unread, s.delivered, payload, e, setup, wire)
      {
        DeliversIff(s, body, after, e, wire);
      }
    }
    forall target: Error | target.Sentinel? && Recv(s, before, after, wire).1.Faulted?
      ensures Is(Recv(s, before, after, wire).1.error, target) <==>
              FailureFinds(unread, s.delivered, before, after, setup, target) || Wraps(setup.closeError, target)
    {
      FailureFindsIff(s, body, before, after, wire, target);
    }
  }

  /** The first `Close` of a run that is still open reports the interruption and
      what closing the body returned, and nothing else. */
  lemma EarlyCloseAnswer(body: Bytes, setup: Setup, calls: seq<Call>, wire: Wire, target: Error)
    requires StillOpen(calls, Run(Opened(body, setup), calls, Looking(wire)).1) && target.Sentinel?
    ensures var s := Run(Opened(body, setup), calls, Looking(wire)).0;
            var answer := Step(s, CallClose, Looking(wire)).1;
            && answer.ClosedWith? && answer.outcome.Some?
            && (Is(answer.outcome.value, target) <==> target == INTERRUPTED || Wraps(setup.closeError, target))
  {
    var s := OpenState(body, setup, calls, wire);
    CloseFindsIff(s, body, wire, target);
  }

  /** The refusal of a payload whose event does not continue the run. */
  function RefusalText(events: seq<Event>, setup: Setup, payload: Bytes, wire: Wire): string {
    match if WalkAccepts(payload, wire.json) then wire.decode(payload) else None
    case None => "clientsdk: Gateway stream event is invalid"
    case Some(e) =>
      if events == [] && !e.kind.Accepted? then "clientsdk: result stream must begin with accepted"
      else if events == [] && e.ids.trace != setup.trace then
        "clientsdk: first stream event Trace does not match response header"
      else "clientsdk: Gateway stream event is invalid"
  }

  lemma VerdictText(s: Session, payload: Bytes, wire: Wire)
    requires s.sequence.Some? <==> s.delivered != []
    ensures var verdict := VerdictOn(s.sequence, s.setup.trace, payload, wire);
            verdict.Rejected? ==> verdict.error == Message(RefusalText(s.delivered, s.setup, payload, wire))
  {
  }

  lemma TakeRefuses(s: Session, payload: Bytes, verdict: Verdict)
    requires s.failure.None? && !s.bodyClosed && Take(s, payload, verdict).1.Faulted?
    ensures verdict.Rejected? && Take(s, payload, verdict).1.error == JoinTo(verdict.error, s.setup.closeError)
  {
  }

  lemma RefusedFrame(s: Session, after: Context, payload: Bytes, wire: Wire)
    requires Active(s) && !s.bodyClosed && (s.sequence.Some? <==> s.delivered != [])
    requires FrameText(payload) <= s.unread && Sendable(payload, s.setup.limit) && Recv(s, Live, after, wire).1.Faulted?
    ensures Recv(s, Live, after, wire).1.error ==
            JoinTo(Message(RefusalText(s.delivered, s.setup, payload, wire)), s.setup.closeError)
  {
    FrameOfIff(s.unread, s.setup.end, s.setup.limit, payload);
    LookCases(s, wire, Frame(payload));
    var sight := Look(s, wire);
    ActCases(s, after, sight);
    VerdictText(s, payload, wire);
    TakeRefuses(s.(unread := sight.rest), payload, sight.verdict);
  }

  /** A frame that is there and refused is refused for the first check it fails, and
      with that only what closing the body returned is joined. */
  lemma RefusalAnswer(body: Bytes, setup: Setup, calls: seq<Call>, after: Context, payload: Bytes, wire: Wire)
    returns (payloads: seq<Bytes>, unread: Bytes)
    requires StillOpen(calls, Run(Opened(body, setup), calls, Looking(wire)).1)
    ensures var (s, replies) := Run(Opened(body, setup), calls, Looking(wire));
            var events, answer := EventsOf(replies), Step(s, CallRecv(Live, after), Looking(wire)).1;
            && HasTaken(body, payloads, unread, events, wire)
            && (FrameText(payload) <= unread && Sendable(payload, setup.limit) ==>
                  && answer.Got?
                  && (answer.received.Faulted? ==>
                        answer.received.error ==
                        JoinTo(Message(RefusalText(events, setup, payload, wire)), setup.closeError)))
  {
    var s := OpenState(body, setup, calls, wire);
    payloads, unread := s.payloads, s.unread;
    if FrameText(payload) <= unread && Sendable(payload, setup.limit) && Recv(s, Live, after, wire).1.Faulted? {
      RefusedFrame(s, after, payload, wire);
    }
  }

  // ----- a body whose close fails -----

  /** No run reports the end of a stream whose body fails to close. */
  lemma EndNeedsCleanClose(body: Bytes, setup: Setup, calls: seq<Call>, wire: Wire)
    ensures Got(EndOfStream) in Run(Opened(body, setup), calls, Looking(wire)).1 ==> setup.closeError.None?
  {
    FinishedClean(body, setup, calls, wire);
    RunReports(Opened(body, setup), calls, Looking(wire));
  }

  lemma EndsUnclean(s: Session, look: Session -> Sight, c: Error)
    requires Active(s) && !s.bodyClosed && s.setup.closeError == Some(c) && look(s) == SawEnd
    requires s.terminal && s.sequence.Some? && s.sequence.value.terminal
    ensures var (t, reply) := Step(s, CallRecv(Live, Live), look);
            && reply.Got? && reply.received.Faulted?
            && Step(t, CallClose, look).1 == ClosedWith(Some(reply.received.error))
            && forall target: Error :: target.Sentinel? ==> (Is(reply.received.error, target) <==> Is(c, target))
  {
    forall target: Error | target.Sentinel?
      ensures Is(AtEnd(s).1.error, target) <==> Is(c, target)
    {
      RecordedFinds(Shut(s), Wrapped("clientsdk: close completed result stream", c), target);
    }
  }

  /** A complete run whose body fails to close is delivered in full; then `Recv`
      fails with an error that finds exactly what the failing close returned, and
      `Close` repeats it. */
  lemma FailingCloseIsReported(payloads: seq<Bytes>, events: seq<Event>, limit: nat, trace: Bytes, c: Error, wire: Wire)
    returns (e: Error)
    requires Carries(payloads, events, trace, limit, wire)
    ensures var calls := Receives(|events|) + [CallRecv(Live, Live), CallClose];
            Run(Opened(Frames(payloads), Setup(Eof, limit, trace, Some(c))), calls, Looking(wire)).1 ==
            Handed(events) + [Got(Faulted(e)), ClosedWith(Some(e))]
    ensures forall target: Error :: target.Sentinel? ==> (Is(e, target) <==> Is(c, target))
  {
    var setup, look, n := Setup(Eof, limit, trace, Some(c)), Looking(wire), |events|;
    var start := Opened(Frames(payloads), setup);
    LookingShows(payloads, events, limit, trace, Some(c), wire);
    ReadToTheEnd(payloads, events, setup, look);
    var s := Run(start, Receives(n), look).0;
    EndsUnclean(s, look, c);
    e := Step(s, CallRecv(Live, Live), look).1.received.error;
    RunAppendTwo(start, Receives(n), CallRecv(Live, Live), CallClose, look);
  }
}
