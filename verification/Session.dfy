/** A result stream of the client package as a state machine over values, and
    what holds over every run of `Recv` and `Close` calls. */
module Session {
  import opened Prelude
  import opened Errors
  import opened JsonNames
  import opened Framing
  import opened ResultEvents

  /** What the stream takes from elsewhere: how a payload decodes into an event,
      and Core's checks of the first event's identifiers and of single events. */
  datatype Wire = Wire(json: Library, decode: Bytes -> Option<Event>, opens: Ids -> bool, admits: Event -> bool)

  /** What `ctx.Err()` reports. */
  datatype Context = Live | Aborted | Expired

  function ContextError(ctx: Context): Error
    requires !ctx.Live?
  {
    if ctx.Aborted? then CONTEXT_CANCELED else DEADLINE_EXCEEDED
  }

  /** What never changes: what the body reports behind its last byte, the limit
      on a frame, the response's trace, and what closing the body returns. */
  datatype Setup = Setup(end: End, limit: nat, trace: Bytes, closeError: Option<Error>)

  /** The fields of `Stream`. The last three record what happened: the payloads and
      events handed out, and how often the body was closed. */
  datatype Session = Session(
    setup: Setup, unread: Bytes,
    sequence: Option<Validator>, terminal: bool, finished: bool,
    failure: Option<Error>, closed: bool, closeOutcome: Option<Error>, bodyClosed: bool,
    payloads: seq<Bytes>, delivered: seq<Event>, closes: nat)

  function Opened(body: Bytes, setup: Setup): Session {
    Session(setup, body, None, false, false, None, false, None, false, [], [], 0)
  }

  datatype Received = Delivered(event: Event) | EndOfStream | Faulted(error: Error)

  // ----- errors -----

  const CLOSED_ERROR := Wrapped("clientsdk: result stream is closed", STREAM_CLOSED)
  const EARLY_END := Wrapped("clientsdk: result stream ended before a terminal event", INTERRUPTED)
  const EARLY_CLOSE := Wrapped("clientsdk: result stream closed before terminal EOF", INTERRUPTED)
  const NOT_FINISHED := Wrapped("clientsdk: finish result stream", Message("the run has not ended"))
  const INVALID_EVENT := Message("clientsdk: Gateway stream event is invalid")
  const NOT_ACCEPTED := Message("clientsdk: result stream must begin with accepted")
  const OTHER_TRACE := Message("clientsdk: first stream event Trace does not match response header")

  function ContextEnded(ctx: Context): Error
    requires !ctx.Live?
  {
    Both(Wrapped("clientsdk: result stream context ended", ContextError(ctx)), INTERRUPTED)
  }

  function FaultError(fault: Fault): Error {
    match fault
    case BadLine(LineBroken(e)) => e
    case BadLine(LineTruncated) => Sentinel("unexpected EOF")
    case BadLine(_) => Message("SSE frame exceeds the configured limit")
    case NotOneDataLine => Message("SSE frame must contain exactly one data line")
    case NoBlankLine => Message("SSE frame must end with one blank line")
    case FrameTooLarge => Message("SSE frame exceeds the configured limit")
    case EmptyPayload => Message("SSE data payload is empty")
    case NotCompact => Message("SSE data payload must be compact JSON")
  }

  function ReadFailed(fault: Fault): Error {
    Wrapped("clientsdk: read SSE frame", FaultError(fault))
  }

  // ----- one call -----

  /** `closeBody`: the state it leaves, and what it returns. */
  function Shut(s: Session): Session {
    s.(bodyClosed := true, closes := if s.bodyClosed then s.closes else s.closes + 1)
  }

  function ShutError(s: Session): Option<Error> {
    if s.bodyClosed then None else s.setup.closeError
  }

  /** The first failure is kept; with it, what is unread no longer matters. */
  function RecordFailure(s: Session, e: Error): (Session, Received) {
    if s.failure.Some? then (s, Faulted(s.failure.value))
    else
      var failure := JoinTo(e, ShutError(s));
      (Shut(s).(failure := Some(failure), unread := []), Faulted(failure))
  }

  lemma FailureForgets(s: Session, unread: Bytes, e: Error)
    requires s.failure.None?
    ensures RecordFailure(s.(unread := unread), e) == RecordFailure(s, e)
  {
  }

  function AtEnd(s: Session): (Session, Received) {
    if s.sequence.None? || !s.terminal then RecordFailure(s, EARLY_END)
    else if !s.sequence.value.terminal then RecordFailure(s, NOT_FINISHED)
    else if ShutError(s).Some? then
      RecordFailure(Shut(s), Wrapped("clientsdk: close completed result stream", ShutError(s).value))
    else (Shut(s).(finished := true), EndOfStream)
  }

  /** The validator a frame's event meets. */
  function Checker(sequence: Option<Validator>, event: Event): Validator {
    if sequence.None? then NewValidator(event.ids) else sequence.value
  }

  datatype Verdict = Rejected(error: Error, sequence: Option<Validator>) | Admitted(event: Event, next: Validator)

  /** Every check a frame's payload has to pass, in order; the validator is set up
      before it sees its first event. */
  function VerdictOn(sequence: Option<Validator>, trace: Bytes, payload: Bytes, wire: Wire): Verdict {
    if !WalkAccepts(payload, wire.json) then Rejected(INVALID_EVENT, sequence)
    else match wire.decode(payload)
      case None => Rejected(INVALID_EVENT, sequence)
      case Some(event) =>
        if sequence.None? && !event.kind.Accepted? then Rejected(NOT_ACCEPTED, None)
        else if sequence.None? && event.ids.trace != trace then Rejected(OTHER_TRACE, None)
        else if sequence.None? && !wire.opens(event.ids) then Rejected(INVALID_EVENT, None)
        else match Accept(Checker(sequence, event), event, wire.admits)
          case None => Rejected(INVALID_EVENT, Some(Checker(sequence, event)))
          case Some(next) => Admitted(event, next)
  }

  /** What a `Recv` that gets to read finds next. */
  datatype Sight = SawEnd | SawFault(fault: Fault) | SawFrame(payload: Bytes, rest: Bytes, verdict: Verdict)

  function Look(s: Session, wire: Wire): Sight {
    match FrameOf(s.unread, s.setup.end, s.setup.limit)
    case FrameEof => SawEnd
    case FrameError(fault) => SawFault(fault)
    case Frame(payload) =>
      FrameFits(s.unread, s.setup.end, s.setup.limit, payload);
      SawFrame(payload, s.unread[|payload| + FRAMING..], VerdictOn(s.sequence, s.setup.trace, payload, wire))
  }

  /** What a frame's payload does to the stream. */
  function Take(s: Session, payload: Bytes, verdict: Verdict): (Session, Received) {
    match verdict
    case Rejected(e, sequence) => RecordFailure(s.(sequence := sequence), e)
    case Admitted(event, next) =>
      (s.(sequence := Some(next), terminal := next.terminal,
          payloads := s.payloads + [payload], delivered := s.delivered + [event]),
       Delivered(event))
  }

  /** `Recv`, given what it finds and the context before and after the read. */
  function Act(s: Session, before: Context, after: Context, sight: Sight): (Session, Received) {
    if s.closed then (s, Faulted(CLOSED_ERROR))
    else if s.failure.Some? then (s, Faulted(s.failure.value))
    else if s.finished then (s, EndOfStream)
    else if !before.Live? then RecordFailure(s, ContextEnded(before))
    else match sight
      case SawEnd => AtEnd(s)
      case SawFault(fault) =>
        RecordFailure(s, if !after.Live? then ContextEnded(after) else ReadFailed(fault))
      case SawFrame(payload, rest, verdict) => Take(s.(unread := rest), payload, verdict)
  }

  /** What an open stream does with each thing it may find. */
  lemma ActCases(s: Session, after: Context, sight: Sight)
    requires Active(s)
    ensures Act(s, Live, after, sight) ==
            match sight
            case SawEnd => AtEnd(s)
            case SawFault(fault) => RecordFailure(s, if !after.Live? then ContextEnded(after) else ReadFailed(fault))
            case SawFrame(payload, rest, verdict) => Take(s.(unread := rest), payload, verdict)
  {
  }

  /** The frame a read finds, and what is unread behind it. */
  lemma LookCases(s: Session, wire: Wire, frame: FrameResult)
    requires frame == FrameOf(s.unread, s.setup.end, s.setup.limit)
    ensures var sight := Look(s, wire);
            match frame
            case FrameEof => sight == SawEnd
            case FrameError(fault) => sight == SawFault(fault)
            case Frame(payload) =>
              && sight.SawFrame? && sight.payload == payload && |payload| + FRAMING <= |s.unread|
              && sight.rest == s.unread[|payload| + FRAMING..]
              && sight.verdict == VerdictOn(s.sequence, s.setup.trace, payload, wire)
  {
    if frame.Frame? {
      FrameFits(s.unread, s.setup.end, s.setup.limit, frame.payload);
    }
  }

  function Recv(s: Session, before: Context, after: Context, wire: Wire): (Session, Received) {
    Act(s, before, after, Look(s, wire))
  }

  /** `Close`. */
  function Close(s: Session): (Session, Option<Error>) {
    if s.closed then (s, s.closeOutcome)
    else if s.failure.Some? then (s.(closed := true, closeOutcome := s.failure), s.failure)
    else if s.finished then (s.(closed := true, closeOutcome := None), None)
    else
      var outcome := Some(JoinTo(EARLY_CLOSE, ShutError(s)));
      (Shut(s).(closed := true, closeOutcome := outcome), outcome)
  }

  // ----- runs -----

  datatype Call = CallRecv(before: Context, after: Context) | CallClose

  datatype Reply = Got(received: Received) | ClosedWith(outcome: Option<Error>)

  /** What each state's next read finds, as the bytes decide it. */
  function Looking(wire: Wire): Session -> Sight {
    s => Look(s, wire)
  }

  function Step(s: Session, call: Call, look: Session -> Sight): (Session, Reply) {
    match call
    case CallRecv(before, after) =>
      var (t, received) := Act(s, before, after, look(s));
      (t, Got(received))
    case CallClose =>
      var (t, outcome) := Close(s);
      (t, ClosedWith(outcome))
  }

  /** The state and the replies after any sequence of calls. */
  function Run(s: Session, calls: seq<Call>, look: Session -> Sight): (r: (Session, seq<Reply>))
    ensures |r.1| == |calls|
  {
    if calls == [] then (s, [])
    else
      var (t, replies) := Run(s, calls[..|calls| - 1], look);
      var (u, reply) := Step(t, calls[|calls| - 1], look);
      (u, replies + [reply])
  }

  function EventOf(reply: Reply): seq<Event> {
    match reply
    case Got(Delivered(e)) => [e]
    case _ => []
  }

  /** The events a caller has been handed. */
  function EventsOf(replies: seq<Reply>): seq<Event> {
    if replies == [] then []
    else
      var n := |replies| - 1;
      EventsOf(replies[..n]) + EventOf(replies[n])
  }

  /** What was handed out is a well-formed run that the payloads decode to. */
  ghost predicate HandedOut(s: Session, wire: Wire) {
    && (s.delivered != [] ==> WellFormed(s.delivered[0].ids, s.delivered) && s.delivered[0].ids.trace == s.setup.trace)
    && |s.payloads| == |s.delivered|
    && (forall i :: 0 <= i < |s.payloads| ==>
          wire.decode(s.payloads[i]) == Some(s.delivered[i]) && WalkAccepts(s.payloads[i], wire.json))
    && s.terminal == Complete(s.delivered)
  }

  /** Until a failure, the frames read and the bytes unread make up the body, and
      the validator stands where the events handed out have left it. */
  ghost predicate InStep(s: Session, body: Bytes) {
    && body == Frames(s.payloads) + s.unread
    && (s.sequence.Some? <==> s.delivered != [])
    && (s.sequence.Some? ==> Tracks(s.sequence.value, s.delivered) && s.sequence.value.ids == s.delivered[0].ids)
  }

  predicate FlagsAgree(s: Session) {
    && !(s.finished && s.failure.Some?)
    && (s.finished ==> s.terminal && s.unread == [] && s.setup.end == Eof)
    && (s.bodyClosed <==> s.finished || s.failure.Some? || s.closed)
    && s.closes == (if s.bodyClosed then 1 else 0)
    && (s.closed ==> (s.closeOutcome.None? <==> s.finished))
  }

  /** What holds in every reachable state of a stream opened over `body`. */
  ghost predicate Invariant(s: Session, body: Bytes, wire: Wire) {
    HandedOut(s, wire) && (s.failure.None? ==> InStep(s, body)) && FlagsAgree(s)
  }

  predicate Active(s: Session) {
    !s.closed && s.failure.None? && !s.finished
  }

  lemma {:induction false} FramesAppend(payloads: seq<Bytes>, payload: Bytes)
    ensures Frames(payloads + [payload]) == Frames(payloads) + FrameText(payload)
  {
    if payloads == [] {
      assert payloads + [payload] == [payload] && [payload][1..] == [];
      assert Frames([payload]) == FrameText(payload) + [] == [] + FrameText(payload);
    } else {
      assert (payloads + [payload])[1..] == payloads[1..] + [payload];
      FramesAppend(payloads[1..], payload);
    }
  }

  lemma RecordFailureKeeps(s: Session, e: Error, body: Bytes, wire: Wire)
    requires HandedOut(s, wire) && FlagsAgree(s) && Active(s)
    ensures Invariant(RecordFailure(s, e).0, body, wire)
  {
  }

  lemma HandOut(s: Session, t: Session, payload: Bytes, event: Event, wire: Wire)
    requires HandedOut(s, wire) && wire.decode(payload) == Some(event) && WalkAccepts(payload, wire.json)
    requires t.payloads == s.payloads + [payload] && t.delivered == s.delivered + [event] && t.setup == s.setup
    requires t.terminal == Complete(t.delivered)
    requires WellFormed(t.delivered[0].ids, t.delivered) && t.delivered[0].ids.trace == s.setup.trace
    ensures HandedOut(t, wire)
  {
  }

  /** An event that is taken extends the run, and its frame moves from the unread
      bytes to the frames read. */
  lemma TakenKeeps(s: Session, body: Bytes, payload: Bytes, event: Event, rest: Bytes, wire: Wire)
    requires Invariant(s, body, wire) && Active(s) && s.unread == FrameText(payload) + rest
    requires wire.decode(payload) == Some(event) && WalkAccepts(payload, wire.json)
    requires s.sequence.None? ==> event.ids.trace == s.setup.trace
    requires Accept(Checker(s.sequence, event), event, wire.admits).Some?
    ensures var next := Accept(Checker(s.sequence, event), event, wire.admits).value;
            Invariant(s.(unread := rest, sequence := Some(next), terminal := next.terminal,
                         payloads := s.payloads + [payload], delivered := s.delivered + [event]), body, wire)
  {
    var next := Accept(Checker(s.sequence, event), event, wire.admits).value;
    var t := s.(unread := rest, sequence := Some(next), terminal := next.terminal,
                payloads := s.payloads + [payload], delivered := s.delivered + [event]);
    AcceptIff(Checker(s.sequence, event), s.delivered, event, wire.admits);
    FramesAppend(s.payloads, payload);
    assert t.delivered[0] == if s.delivered == [] then event else s.delivered[0];
    assert InStep(t, body);
    HandOut(s, t, payload, event, wire);
  }

  lemma CloseKeeps(s: Session, body: Bytes, wire: Wire)
    requires Invariant(s, body, wire)
    ensures Invariant(Close(s).0, body, wire)
  {
  }

  lemma AtEndKeeps(s: Session, body: Bytes, wire: Wire)
    requires Invariant(s, body, wire) && Active(s) && s.unread == [] && s.setup.end == Eof
    ensures Invariant(AtEnd(s).0, body, wire)
  {
  }

  /** What may be said of anything a read finds. */
  ghost predicate Faithful(s: Session, sight: Sight, wire: Wire) {
    match sight
    case SawEnd => s.unread == [] && s.setup.end == Eof
    case SawFault(_) => true
    case SawFrame(payload, rest, Rejected(_, _)) => true
    case SawFrame(payload, rest, Admitted(event, next)) =>
      && s.unread == FrameText(payload) + rest
      && wire.decode(payload) == Some(event) && WalkAccepts(payload, wire.json)
      && (s.sequence.None? ==> event.ids.trace == s.setup.trace)
      && Accept(Checker(s.sequence, event), event, wire.admits) == Some(next)
  }

  lemma LookFaithful(s: Session, wire: Wire)
    ensures Faithful(s, Look(s, wire), wire)
  {
    match Look(s, wire)
    case SawFrame(payload, rest, _) =>
      FrameOfIff(s.unread, s.setup.end, s.setup.limit, payload);
      assert s.unread == FrameText(payload) + rest;
      VerdictFaithful(s.sequence, s.setup.trace, payload, wire);
    case SawEnd => EndReads(s.unread, s.setup.end, s.setup.limit);
    case SawFault(_) =>
  }

  lemma VerdictFaithful(sequence: Option<Validator>, trace: Bytes, payload: Bytes, wire: Wire)
    ensures var verdict := VerdictOn(sequence, trace, payload, wire);
            verdict.Admitted? ==>
              && wire.decode(payload) == Some(verdict.event) && WalkAccepts(payload, wire.json)
              && (sequence.None? ==> verdict.event.ids.trace == trace)
              && Accept(Checker(sequence, verdict.event), verdict.event, wire.admits) == Some(verdict.next)
  {
  }

  lemma ActKeeps(s: Session, body: Bytes, before: Context, after: Context, sight: Sight, wire: Wire)
    requires Invariant(s, body, wire) && Faithful(s, sight, wire)
    ensures Invariant(Act(s, before, after, sight).0, body, wire)
  {
    if Active(s) {
      if !before.Live? {
        RecordFailureKeeps(s, ContextEnded(before), body, wire);
      } else {
        match sight
        case SawFrame(_, rest, Rejected(e, sequence)) =>
          RecordFailureKeeps(s.(unread := rest, sequence := sequence), e, body, wire);
        case SawFrame(payload, rest, Admitted(event, _)) => TakenKeeps(s, body, payload, event, rest, wire);
        case SawEnd => AtEndKeeps(s, body, wire);
        case SawFault(fault) =>
          RecordFailureKeeps(s, if !after.Live? then ContextEnded(after) else ReadFailed(fault), body, wire);
      }
    }
  }

  lemma StepKeeps(s: Session, body: Bytes, call: Call, look: Session -> Sight, wire: Wire)
    requires Invariant(s, body, wire) && look(s) == Look(s, wire)
    ensures Invariant(Step(s, call, look).0, body, wire)
  {
    match call
    case CallRecv(before, after) =>
      LookFaithful(s, wire);
      ActKeeps(s, body, before, after, look(s), wire);
    case CallClose => CloseKeeps(s, body, wire);
  }

  lemma {:induction false} RunKeeps(s: Session, body: Bytes, calls: seq<Call>, look: Session -> Sight, wire: Wire)
    requires Invariant(s, body, wire) && forall t :: look(t) == Look(t, wire)
    ensures Invariant(Run(s, calls, look).0, body, wire)
  {
    if calls != [] {
      var n := |calls| - 1;
      RunKeeps(s, body, calls[..n], look, wire);
      StepKeeps(Run(s, calls[..n], look).0, body, calls[n], look, wire);
    }
  }

  // ----- what a caller can rely on -----

  /** How a call's reply and the state it leaves go together. */
  predicate Reports(s: Session, t: Session, reply: Reply) {
    && t.setup == s.setup
    && (match reply
        case Got(Delivered(e)) => t.delivered == s.delivered + [e]
        case _ => t.delivered == s.delivered)
    && (reply == Got(EndOfStream) ==> t.finished)
    && (s.finished ==> t.finished)
  }

  lemma ActReports(s: Session, before: Context, after: Context, sight: Sight)
    ensures Reports(s, Act(s, before, after, sight).0, Got(Act(s, before, after, sight).1))
  {
  }

  lemma StepReports(s: Session, call: Call, look: Session -> Sight)
    ensures Reports(s, Step(s, call, look).0, Step(s, call, look).1)
  {
    match call
    case CallRecv(before, after) => ActReports(s, before, after, look(s));
    case CallClose =>
  }

  lemma {:induction false} RunReports(s: Session, calls: seq<Call>, look: Session -> Sight)
    ensures var (t, replies) := Run(s, calls, look);
            && t.setup == s.setup
            && t.delivered == s.delivered + EventsOf(replies)
            && (Got(EndOfStream) in replies ==> t.finished)
            && (s.finished ==> t.finished)
  {
    if calls == [] {
      assert s.delivered + [] == s.delivered;
    } else {
      var n := |calls| - 1;
      RunReports(s, calls[..n], look);
      var (t, replies) := Run(s, calls[..n], look);
      StepReports(t, calls[n], look);
      EventsAppend(s.delivered, replies, Step(t, calls[n], look).1);
    }
  }

  lemma EventsAppend(before: seq<Event>, replies: seq<Reply>, reply: Reply)
    ensures before + EventsOf(replies + [reply]) == before + EventsOf(replies) + EventOf(reply)
  {
    assert (replies + [reply])[..|replies|] == replies;
  }

  lemma StepFailsEmpty(s: Session, call: Call, look: Session -> Sight)
    ensures var t := Step(s, call, look).0; t.failure.Some? ==> t.payloads == s.payloads
  {
  }

  lemma {:induction false} RunReadsFrames(body: Bytes, setup: Setup, calls: seq<Call>, wire: Wire)
    ensures Frames(Run(Opened(body, setup), calls, Looking(wire)).0.payloads) <= body
  {
    var s := Opened(body, setup);
    assert Frames([]) + body == body;
    RunKeeps(s, body, calls, Looking(wire), wire);
    if calls != [] && Run(s, calls, Looking(wire)).0.failure.Some? {
      var n := |calls| - 1;
      RunReadsFrames(body, setup, calls[..n], wire);
      StepFailsEmpty(Run(s, calls[..n], Looking(wire)).0, calls[n], Looking(wire));
    }
  }

  ghost predicate AreDecoded(payloads: seq<Bytes>, events: seq<Event>, wire: Wire) {
    |payloads| == |events| && forall i :: 0 <= i < |events| ==> wire.decode(payloads[i]) == Some(events[i])
  }

  /** What a caller may conclude from the replies: the events handed out are a
      prefix of one well-formed run that carries the response's trace, and the
      frames that the body begins with decode to them one for one. The end of the
      stream is reported only when that run is complete and the body is exactly
      those frames. */
  ghost predicate Vouched(body: Bytes, setup: Setup, replies: seq<Reply>, wire: Wire) {
    var events := EventsOf(replies);
    && (events != [] ==> WellFormed(events[0].ids, events) && events[0].ids.trace == setup.trace)
    && (exists payloads :: Frames(payloads) <= body && AreDecoded(payloads, events, wire)
                           && (Got(EndOfStream) in replies ==> body == Frames(payloads)))
    && (Got(EndOfStream) in replies ==> Complete(events) && setup.end == Eof)
  }

  lemma StateVouches(t: Session, body: Bytes, replies: seq<Reply>, wire: Wire)
    requires Invariant(t, body, wire) && Frames(t.payloads) <= body
    requires t.delivered == EventsOf(replies) && (Got(EndOfStream) in replies ==> t.finished)
    ensures Vouched(body, t.setup, replies, wire)
  {
    assert AreDecoded(t.payloads, t.delivered, wire);
    if t.finished {
      assert body == Frames(t.payloads) + [];
    }
  }

  /** Over every body, every order of calls and every moment the context ends, and
      whether or not the stream has failed since. */
  lemma RunsAreWellFormed(body: Bytes, setup: Setup, calls: seq<Call>, wire: Wire)
    ensures Vouched(body, setup, Run(Opened(body, setup), calls, Looking(wire)).1, wire)
  {
    var s := Opened(body, setup);
    assert Frames([]) + body == body;
    RunKeeps(s, body, calls, Looking(wire), wire);
    RunReports(s, calls, Looking(wire));
    RunReadsFrames(body, setup, calls, wire);
    var (t, replies) := Run(s, calls, Looking(wire));
    assert [] + EventsOf(replies) == EventsOf(replies);
    StateVouches(t, body, replies, wire);
  }

  // ----- latching -----

  lemma StepLatches(s: Session, call: Call, look: Session -> Sight)
    ensures s.failure.Some? && !s.closed && call.CallRecv? ==> Step(s, call, look) == (s, Got(Faulted(s.failure.value)))
    ensures s.finished && !s.closed && s.failure.None? && call.CallRecv? ==>
              Step(s, call, look) == (s, Got(EndOfStream))
    ensures s.closed && call.CallClose? ==> Step(s, call, look) == (s, ClosedWith(s.closeOutcome))
    ensures s.closed && call.CallRecv? ==> Step(s, call, look) == (s, Got(Faulted(CLOSED_ERROR)))
  {
  }

  /** A failure once recorded is what every later `Recv` returns until `Close`. */
  lemma {:induction false} FailureLatches(s: Session, calls: seq<Call>, look: Session -> Sight)
    requires s.failure.Some? && !s.closed && forall c :: c in calls ==> c.CallRecv?
    ensures Run(s, calls, look).0 == s
    ensures forall r :: r in Run(s, calls, look).1 ==> r == Got(Faulted(s.failure.value))
  {
    if calls != [] {
      var n := |calls| - 1;
      FailureLatches(s, calls[..n], look);
      assert calls[n] in calls;
      StepLatches(s, calls[n], look);
    }
  }

  /** After the first `Close` nothing changes any more: `Recv` is refused, and
      every `Close` returns what the first one did. */
  lemma {:induction false} CloseLatches(s: Session, calls: seq<Call>, look: Session -> Sight)
    requires s.closed
    ensures Run(s, calls, look).0 == s
    ensures forall i :: 0 <= i < |calls| ==>
              Run(s, calls, look).1[i] ==
              if calls[i].CallClose? then ClosedWith(s.closeOutcome) else Got(Faulted(CLOSED_ERROR))
  {
    if calls != [] {
      var n := |calls| - 1;
      CloseLatches(s, calls[..n], look);
      StepLatches(s, calls[n], look);
    }
  }

  lemma EndsOnlyClean(s: Session, call: Call, look: Session -> Sight)
    requires (s.finished ==> s.setup.closeError.None?) && (Active(s) ==> !s.bodyClosed)
    ensures var t := Step(s, call, look).0; t.finished ==> t.setup.closeError.None?
  {
  }

  lemma {:induction false} FinishedClean(body: Bytes, setup: Setup, calls: seq<Call>, wire: Wire)
    ensures Run(Opened(body, setup), calls, Looking(wire)).0.finished ==> setup.closeError.None?
  {
    var start, look := Opened(body, setup), Looking(wire);
    if calls != [] {
      var n := |calls| - 1;
      assert Frames([]) + body == body;
      RunKeeps(start, body, calls[..n], look, wire);
      RunReports(start, calls[..n], look);
      RunReports(start, calls, look);
      FinishedClean(body, setup, calls[..n], wire);
      EndsOnlyClean(Run(start, calls[..n], look).0, calls[n], look);
    }
  }

  /** In any run: a fresh failure is the one that latches, `Close` is clean
      exactly when the end of the stream was reached, and by the time anything
      failed, finished or closed the body has been closed once and for all. */
  lemma RunsCloseOnce(body: Bytes, setup: Setup, calls: seq<Call>, wire: Wire)
    ensures var s := Run(Opened(body, setup), calls, Looking(wire)).0;
            && s.closes <= 1
            && (s.closes == 1 <==> s.finished || s.failure.Some? || s.closed)
            && !(s.finished && s.failure.Some?)
            && (Close(s).1.None? <==> s.finished)
            && (s.finished ==> setup.closeError.None? && Complete(s.delivered))
            && (s.failure.Some? && !s.closed ==> Close(s).1 == s.failure)
            && (Close(s).1.Some? && s.failure.None? ==> Is(Close(s).1.value, INTERRUPTED))
  {
    var s := Opened(body, setup);
    assert Frames([]) + body == body;
    RunKeeps(s, body, calls, Looking(wire), wire);
    FinishedClean(body, setup, calls, wire);
    CloseUnclean(s, calls, Looking(wire));
  }

  predicate LeavesClosed(s: Session, t: Session) {
    t.closed == s.closed && t.closeOutcome == s.closeOutcome
  }

  /** `Recv` never closes the stream and leaves a closed one as it is. */
  lemma ActLeavesClosed(s: Session, before: Context, after: Context, sight: Sight)
    ensures var t := Act(s, before, after, sight).0;
            LeavesClosed(s, t) && (s.closed ==> t == s)
  {
  }

  predicate ClosedEarly(s: Session) {
    s.closed && s.failure.None? && s.closeOutcome.Some?
  }

  /** A stream closed without a failure and short of its end was interrupted. */
  lemma {:induction false} CloseUnclean(s: Session, calls: seq<Call>, look: Session -> Sight)
    requires !s.closed
    ensures var t := Run(s, calls, look).0;
            ClosedEarly(t) ==> Is(t.closeOutcome.value, INTERRUPTED)
  {
    if calls != [] {
      var n := |calls| - 1;
      CloseUnclean(s, calls[..n], look);
      var t := Run(s, calls[..n], look).0;
      match calls[n]
      case CallRecv(before, after) => ActLeavesClosed(t, before, after, look(t));
      case CallClose => assert Is(EARLY_CLOSE, INTERRUPTED);
    }
  }

  // ----- which failures are interruptions -----

  predicate Wraps(e: Option<Error>, target: Error) {
    e.Some? && Is(e.value, target)
  }

  /** The context ended, or the body did before the run was complete, or reading
      it failed with an interruption. */
  predicate Interrupts(s: Session, before: Context, after: Context, sight: Sight) {
    !before.Live? ||
    match sight
    case SawEnd => !s.terminal
    case SawFault(BadLine(LineBroken(e))) => !after.Live? || Is(e, INTERRUPTED)
    case SawFault(_) => !after.Live?
    case SawFrame(_, _, _) => false
  }

  /** When `Recv` first fails, its error, which a later `Close` repeats, is an
      interruption exactly in these cases, or when closing the body reports one.
      A stream that fails on a bad frame or event closes without that word. */
  lemma FailureInterruptsIff(s: Session, before: Context, after: Context, sight: Sight)
    requires Active(s) && !s.bodyClosed && (s.terminal ==> s.sequence.Some? && s.sequence.value.terminal)
    requires Act(s, before, after, sight).1.Faulted?
    requires sight.SawFrame? && sight.verdict.Rejected? ==> !Is(sight.verdict.error, INTERRUPTED)
    ensures var (t, received) := Act(s, before, after, sight);
            && (Is(received.error, INTERRUPTED) <==>
                Interrupts(s, before, after, sight) || Wraps(s.setup.closeError, INTERRUPTED))
            && Close(t).1 == Some(received.error)
  {
    if !before.Live? {
      RecordedInterrupts(s, ContextEnded(before));
    } else {
      match sight
      case SawEnd =>
        RecordedInterrupts(s, EARLY_END);
        if s.setup.closeError.Some? {
          RecordedInterrupts(Shut(s), Wrapped("clientsdk: close completed result stream", s.setup.closeError.value));
        }
      case SawFault(fault) => RecordedInterrupts(s, if !after.Live? then ContextEnded(after) else ReadFailed(fault));
      case SawFrame(_, rest, verdict) =>
        RecordedInterrupts(s.(unread := rest, sequence := verdict.sequence), verdict.error);
    }
  }

  lemma RecordedInterrupts(s: Session, e: Error)
    requires s.failure.None?
    ensures var (t, received) := RecordFailure(s, e);
            && received.Faulted? && t.failure == Some(received.error) && t.closed == s.closed
            && (Is(received.error, INTERRUPTED) <==> Is(e, INTERRUPTED) || Wraps(ShutError(s), INTERRUPTED))
  {
  }

  /** The checks of a frame never call their refusal an interruption. */
  lemma VerdictIsNoInterruption(s: Session, wire: Wire)
    ensures Look(s, wire).SawFrame? && Look(s, wire).verdict.Rejected? ==> !Is(Look(s, wire).verdict.error, INTERRUPTED)
  {
  }

  // ----- telling the end from a failure -----

  predicate EofLike(e: Option<Error>) {
    e.Some? && Is(e.value, EOF)
  }

  /** The documented way to end a receive loop: stop when `errors.Is(err, io.EOF)`. */
  predicate LooksEnded(reply: Reply) {
    match reply
    case Got(EndOfStream) => true
    case Got(Faulted(e)) => Is(e, EOF)
    case _ => false
  }

  lemma FailureIsNotEof(s: Session, e: Error)
    requires !EofLike(s.setup.closeError) && !EofLike(s.failure) && !Is(e, EOF)
    ensures var (t, received) := RecordFailure(s, e);
            !EofLike(t.failure) && !LooksEnded(Got(received))
  {
  }

  lemma FaultIsNotEof(s: Bytes, end: End, limit: nat)
    requires FrameOf(s, end, limit).FrameError? && (end.Broken? ==> !Is(end.error, EOF))
    ensures !Is(ReadFailed(FrameOf(s, end, limit).fault), EOF)
  {
  }

  /** What is found leads to no error that is an end of file. */
  predicate NoEofAhead(sight: Sight) {
    match sight
    case SawFault(fault) => !Is(ReadFailed(fault), EOF)
    case SawFrame(_, _, Rejected(e, _)) => !Is(e, EOF)
    case _ => true
  }

  lemma LookNoEofAhead(s: Session, wire: Wire)
    requires s.setup.end.Broken? ==> !Is(s.setup.end.error, EOF)
    ensures NoEofAhead(Look(s, wire))
  {
    if FrameOf(s.unread, s.setup.end, s.setup.limit).FrameError? {
      FaultIsNotEof(s.unread, s.setup.end, s.setup.limit);
    }
  }

  lemma EndIsNotEof(s: Session)
    requires !EofLike(s.setup.closeError) && s.failure.None?
    ensures var (t, received) := AtEnd(s);
            !EofLike(t.failure) && (LooksEnded(Got(received)) ==> received == EndOfStream)
  {
    FailureIsNotEof(s, EARLY_END);
    FailureIsNotEof(s, NOT_FINISHED);
    if ShutError(s).Some? {
      FailureIsNotEof(Shut(s), Wrapped("clientsdk: close completed result stream", ShutError(s).value));
    }
  }

  lemma FaultsAreNotEof(s: Session, call: Call, look: Session -> Sight)
    requires NoEofAhead(look(s)) && !EofLike(s.setup.closeError) && !EofLike(s.failure)
    ensures var (t, reply) := Step(s, call, look);
            !EofLike(t.failure) && (LooksEnded(reply) ==> reply == Got(EndOfStream))
  {
    if call.CallRecv? && Active(s) {
      if !call.before.Live? {
        FailureIsNotEof(s, ContextEnded(call.before));
      } else {
        match look(s)
        case SawFrame(_, rest, Rejected(e, sequence)) => FailureIsNotEof(s.(unread := rest, sequence := sequence), e);
        case SawFrame(_, _, Admitted(_, _)) =>
        case SawEnd => EndIsNotEof(s);
        case SawFault(fault) =>
          FailureIsNotEof(s, if !call.after.Live? then ContextEnded(call.after) else ReadFailed(fault));
      }
    }
  }

  lemma {:induction false} RunsTellTheEnd(s: Session, calls: seq<Call>, look: Session -> Sight, wire: Wire)
    requires forall t :: look(t) == Look(t, wire)
    requires !EofLike(s.setup.closeError) && !EofLike(s.failure)
    requires s.setup.end.Broken? ==> !Is(s.setup.end.error, EOF)
    ensures !EofLike(Run(s, calls, look).0.failure)
    ensures forall r :: r in Run(s, calls, look).1 && LooksEnded(r) ==> r == Got(EndOfStream)
  {
    if calls != [] {
      var n := |calls| - 1;
      RunsTellTheEnd(s, calls[..n], look, wire);
      RunReports(s, calls[..n], look);
      var t := Run(s, calls[..n], look).0;
      LookNoEofAhead(t, wire);
      FaultsAreNotEof(t, calls[n], look);
    }
  }

  /** Whether over every body and every run nothing but the end of the stream
      looks like it. */
  ghost predicate EndIsUnmistakable(closeError: Option<Error>, wire: Wire) {
    forall body: Bytes, setup: Setup, calls: seq<Call> |
      setup.closeError == closeError && (setup.end.Broken? ==> !Is(setup.end.error, EOF)) ::
      forall r :: r in Run(Opened(body, setup), calls, Looking(wire)).1 && LooksEnded(r) ==>
        r == Got(EndOfStream)
  }

  /** A failure joins the error of closing the body, so a body whose `Close`
      fails with an end-of-file error makes a stream that broke off look ended.
      That is the only way: the end is unmistakable exactly otherwise. */
  lemma EndIsUnmistakableIff(closeError: Option<Error>, wire: Wire)
    ensures EndIsUnmistakable(closeError, wire) <==> !EofLike(closeError)
  {
    if EofLike(closeError) {
      var s := Opened([], Setup(Eof, 1, [], closeError));
      var call := CallRecv(Live, Live);
      EndReads([], Eof, 1);
      assert FrameOf([], Eof, 1) == FrameEof;
      var broken := Got(Faulted(Both(EARLY_END, closeError.value)));
      assert [call][..0] == [];
      assert Run(s, [call], Looking(wire)).1 == [broken];
      assert broken in Run(s, [call], Looking(wire)).1 && LooksEnded(broken);
    } else {
      forall body: Bytes, setup: Setup, calls: seq<Call> |
        setup.closeError == closeError && (setup.end.Broken? ==> !Is(setup.end.error, EOF))
        ensures forall r :: r in Run(Opened(body, setup), calls, Looking(wire)).1 && LooksEnded(r) ==>
                  r == Got(EndOfStream)
      {
        RunsTellTheEnd(Opened(body, setup), calls, Looking(wire), wire);
      }
    }
  }

  // ----- clean streams are read in full -----

  /** A body a correct server sends: sendable payloads that decode to the events
      of one complete run with the response's trace. */
  ghost predicate Carries(payloads: seq<Bytes>, events: seq<Event>, trace: Bytes, limit: nat, wire: Wire) {
    && |payloads| == |events|
    && Complete(events)
    && events[0].ids.trace == trace
    && WellFormed(events[0].ids, events)
    && wire.opens(events[0].ids)
    && forall i :: 0 <= i < |events| ==>
         && Sendable(payloads[i], limit)
         && WalkAccepts(payloads[i], wire.json)
         && wire.decode(payloads[i]) == Some(events[i])
         && wire.admits(events[i])
  }

  /** One reply for each event. */
  function Handed(events: seq<Event>): seq<Reply> {
    seq(|events|, i requires 0 <= i < |events| => Got(Delivered(events[i])))
  }

  function Receives(n: nat): seq<Call> {
    seq(n, _ => CallRecv(Live, Live))
  }

  /** Where the stream stands when the first `k` events are out. */
  ghost predicate HasRead(s: Session, payloads: seq<Bytes>, events: seq<Event>, k: nat)
    requires k <= |payloads| == |events|
  {
    && Active(s) && !s.bodyClosed
    && s.unread == Frames(payloads[k..])
    && s.delivered == events[..k]
    && (s.sequence.Some? <==> k > 0)
    && (k > 0 ==> Tracks(s.sequence.value, events[..k]) && s.sequence.value.ids == events[0].ids)
    && s.terminal == Complete(events[..k])
  }

  lemma NextIsAdmitted(s: Session, payloads: seq<Bytes>, events: seq<Event>, limit: nat, trace: Bytes, wire: Wire,
                       k: nat)
    requires Carries(payloads, events, trace, limit, wire) && k < |events| && s.setup.trace == trace
    requires s.sequence.Some? <==> k > 0
    requires k > 0 ==> Tracks(s.sequence.value, events[..k]) && s.sequence.value.ids == events[0].ids
    ensures var verdict := VerdictOn(s.sequence, s.setup.trace, payloads[k], wire);
            && verdict.Admitted? && verdict.event == events[k]
            && Tracks(verdict.next, events[..k + 1]) && verdict.next.ids == events[0].ids
  {
    var ids := events[0].ids;
    assert events[..k] + [events[k]] == events[..k + 1];
    WellFormedPrefix(ids, events, k);
    WellFormedPrefix(ids, events, k + 1);
    AcceptIff(Checker(s.sequence, events[k]), events[..k], events[k], wire.admits);
  }

  /** What is found when the first `k` events are out: the next one. */
  ghost predicate ShowsNext(sight: Sight, payloads: seq<Bytes>, events: seq<Event>, k: nat)
    requires k < |events| == |payloads|
  {
    && sight.SawFrame?
    && sight.rest == Frames(payloads[k + 1..])
    && sight.verdict.Admitted?
    && sight.verdict.event == events[k]
    && Tracks(sight.verdict.next, events[..k + 1])
    && sight.verdict.next.ids == events[0].ids
  }

  lemma NextIsSeen(s: Session, payloads: seq<Bytes>, events: seq<Event>, limit: nat, trace: Bytes, wire: Wire, k: nat)
    requires Carries(payloads, events, trace, limit, wire) && k < |events|
    requires s.setup.end == Eof && s.setup.limit == limit && s.setup.trace == trace
    requires HasRead(s, payloads, events, k)
    ensures ShowsNext(Look(s, wire), payloads, events, k)
  {
    var payload := payloads[k];
    assert payloads[k..][0] == payload && payloads[k..][1..] == payloads[k + 1..];
    FrameOfIff(s.unread, Eof, limit, payload);
    assert s.unread == FrameText(payload) + Frames(payloads[k + 1..]);
    assert s.unread[|payload| + FRAMING..] == Frames(payloads[k + 1..]);
    NextIsAdmitted(s, payloads, events, limit, trace, wire, k);
  }

  lemma ActReads(s: Session, payloads: seq<Bytes>, events: seq<Event>, sight: Sight, k: nat)
    requires k < |events| == |payloads| && HasRead(s, payloads, events, k) && ShowsNext(sight, payloads, events, k)
    ensures HasRead(Act(s, Live, Live, sight).0, payloads, events, k + 1)
    ensures Act(s, Live, Live, sight).1 == Delivered(events[k])
  {
    assert events[..k] + [events[k]] == events[..k + 1];
  }

  /** A reader that finds event after event, and then the end. */
  ghost predicate Shows(look: Session -> Sight, payloads: seq<Bytes>, events: seq<Event>, setup: Setup)
    requires |events| == |payloads|
  {
    && (forall s: Session, k: nat :: k < |events| && s.setup == setup && HasRead(s, payloads, events, k) ==>
          ShowsNext(look(s), payloads, events, k))
    && (forall s: Session :: s.setup == setup && HasRead(s, payloads, events, |events|) ==> look(s) == SawEnd)
  }

  lemma LookingShows(payloads: seq<Bytes>, events: seq<Event>, limit: nat, trace: Bytes, closeError: Option<Error>,
                     wire: Wire)
    requires Carries(payloads, events, trace, limit, wire)
    ensures Shows(Looking(wire), payloads, events, Setup(Eof, limit, trace, closeError))
  {
    var setup := Setup(Eof, limit, trace, closeError);
    forall s: Session, k: nat | k < |events| && s.setup == setup && HasRead(s, payloads, events, k)
      ensures ShowsNext(Looking(wire)(s), payloads, events, k)
    {
      NextIsSeen(s, payloads, events, limit, trace, wire, k);
    }
    forall s: Session | s.setup == setup && HasRead(s, payloads, events, |events|)
      ensures Looking(wire)(s) == SawEnd
    {
      assert payloads[|events|..] == [];
      EndReads(s.unread, Eof, limit);
    }
  }

  /** After `n` calls the first `n` events are out and the other frames unread. */
  lemma {:induction false} ReadsInFull(
      payloads: seq<Bytes>, events: seq<Event>, setup: Setup, look: Session -> Sight, n: nat)
    requires |payloads| == |events| && Shows(look, payloads, events, setup) && n <= |events|
    ensures var (s, replies) := Run(Opened(Frames(payloads), setup), Receives(n), look);
            && s.setup == setup
            && HasRead(s, payloads, events, n)
            && replies == Handed(events[..n])
  {
    if n == 0 {
      assert payloads[0..] == payloads;
    } else {
      var k := n - 1;
      ReadsInFull(payloads, events, setup, look, k);
      var s := Run(Opened(Frames(payloads), setup), Receives(k), look).0;
      ActReports(s, Live, Live, look(s));
      ActReads(s, payloads, events, look(s), k);
      RunAppend(Opened(Frames(payloads), setup), Receives(k), CallRecv(Live, Live), look);
      assert Receives(k) + [CallRecv(Live, Live)] == Receives(n);
      assert Handed(events[..k]) + [Got(Delivered(events[k]))] == Handed(events[..n]);
    }
  }

  /** A complete run that is framed within the limit is delivered in full, event
      by event; then the end is reported, and `Close` is clean. */
  lemma CleanStreamsComplete(payloads: seq<Bytes>, events: seq<Event>, limit: nat, trace: Bytes, wire: Wire)
    requires Carries(payloads, events, trace, limit, wire)
    ensures var n := |events|;
            var calls := Receives(n) + [CallRecv(Live, Live), CallClose];
            Run(Opened(Frames(payloads), Setup(Eof, limit, trace, None)), calls, Looking(wire)).1 ==
            Handed(events) + [Got(EndOfStream), ClosedWith(None)]
  {
    LookingShows(payloads, events, limit, trace, None, wire);
    ShownInFull(payloads, events, Setup(Eof, limit, trace, None), Looking(wire));
  }

  lemma ReadToTheEnd(payloads: seq<Bytes>, events: seq<Event>, setup: Setup, look: Session -> Sight)
    requires |payloads| == |events| && Shows(look, payloads, events, setup) && Complete(events)
    ensures var n := |events|;
            var (s, replies) := Run(Opened(Frames(payloads), setup), Receives(n), look);
            && Active(s) && !s.bodyClosed && s.setup == setup && look(s) == SawEnd
            && s.terminal && s.sequence.Some? && s.sequence.value.terminal
            && replies == Handed(events)
  {
    ReadsInFull(payloads, events, setup, look, |events|);
    assert events[..|events|] == events;
  }

  /** The end of a complete run, and the close after it. */
  lemma EndsCleanly(s: Session, look: Session -> Sight)
    requires Active(s) && !s.bodyClosed && s.setup.closeError.None? && look(s) == SawEnd
    requires s.terminal && s.sequence.Some? && s.sequence.value.terminal
    ensures var (t, reply) := Step(s, CallRecv(Live, Live), look);
            reply == Got(EndOfStream) && Step(t, CallClose, look).1 == ClosedWith(None)
  {
  }

  lemma ShownInFull(payloads: seq<Bytes>, events: seq<Event>, setup: Setup, look: Session -> Sight)
    requires |payloads| == |events| && Shows(look, payloads, events, setup)
    requires Complete(events) && setup.closeError.None?
    ensures var n := |events|;
            var calls := Receives(n) + [CallRecv(Live, Live), CallClose];
            Run(Opened(Frames(payloads), setup), calls, look).1 ==
            Handed(events) + [Got(EndOfStream), ClosedWith(None)]
  {
    var n := |events|;
    var start := Opened(Frames(payloads), setup);
    ReadToTheEnd(payloads, events, setup, look);
    var (s, replies) := Run(start, Receives(n), look);
    EndsCleanly(s, look);
    RunAppendTwo(start, Receives(n), CallRecv(Live, Live), CallClose, look);
  }

  lemma RunAppend(s: Session, calls: seq<Call>, call: Call, look: Session -> Sight)
    ensures var (t, replies) := Run(s, calls, look);
            Run(s, calls + [call], look) == (Step(t, call, look).0, replies + [Step(t, call, look).1])
  {
    assert (calls + [call])[..|calls|] == calls;
  }

  lemma RunContinues(start: Session, calls: seq<Call>, i: nat, look: Session -> Sight,
                     s: Session, replies: seq<Reply>, t: Session, reply: Reply)
    requires i < |calls| && (s, replies) == Run(start, calls[..i], look) && (t, reply) == Step(s, calls[i], look)
    ensures (t, replies + [reply]) == Run(start, calls[..i + 1], look)
  {
    assert calls[..i + 1][..i] == calls[..i];
  }

  lemma RunAppendTwo(s: Session, calls: seq<Call>, c: Call, d: Call, look: Session -> Sight)
    ensures var (t, replies) := Run(s, calls, look);
            var (u, reply) := Step(t, c, look);
            Run(s, calls + [c, d], look).1 == replies + [reply, Step(u, d, look).1]
  {
    RunAppend(s, calls, c, look);
    RunAppend(s, calls + [c], d, look);
    assert calls + [c] + [d] == calls + [c, d];
  }
}
