/** The agent package's result stream. It keeps no failure: a caller may go on
    receiving after an error. What it hands out stays one well-formed run even so. */
module AgentStream {
  import opened Prelude
  import opened Errors
  import opened JsonNames
  import opened JsonWalk
  import opened Framing
  import opened ResultEvents
  import opened Session

  const CLOSED := Message("agentsdk: result stream is closed")
  const NO_EVENT := Message("agentsdk: result stream ended before an accepted event")
  const MUST_ACCEPT := Message("agentsdk: result stream must begin with accepted")
  const INTERRUPTED_STREAM := Message("agentsdk: close interrupted result stream")

  /** What the stream takes from elsewhere, as the client's does, and with it the
      errors it wraps: of the walk and of decoding a payload, and of Core's
      validator when it is made, when it refuses an event and when it is told that
      the stream has ended too early. */
  datatype NestedWire = NestedWire(
    json: Library, decode: Bytes -> Option<Event>, opens: Ids -> bool, admits: Event -> bool,
    walkError: Bytes -> Error, decodeError: Bytes -> Error, opensError: Ids -> Error,
    admitsError: (Validator, Event) -> Error, finishError: Validator -> Error)

  function Undecoded(cause: Error): Error {
    Wrapped("agentsdk: decode SSE event", cause)
  }

  function Unopened(ids: Ids, wire: NestedWire): Error {
    Wrapped("agentsdk: initialize result stream validator", wire.opensError(ids))
  }

  function Invalid(v: Validator, event: Event, wire: NestedWire): Error {
    Wrapped("agentsdk: validate SSE event", wire.admitsError(v, event))
  }

  function Unfinished(v: Validator, wire: NestedWire): Error {
    Wrapped("agentsdk: finish result stream", wire.finishError(v))
  }

  function Interrupted(v: Validator, wire: NestedWire): Error {
    Wrapped("agentsdk: close interrupted result stream", wire.finishError(v))
  }

  /** The fields of `NestedResultStream`. The last two record what happened. */
  datatype Nested = Nested(
    rootTask: Bytes, trace: Bytes, closeError: Option<Error>,
    sequence: Option<Validator>, invocation: Bytes, terminal: bool, finished: bool, closed: bool, bodyClosed: bool,
    delivered: seq<Event>, closes: nat)

  function NestedOpened(rootTask: Bytes, trace: Bytes, closeError: Option<Error>): Nested {
    Nested(rootTask, trace, closeError, None, [], false, false, false, false, [], 0)
  }

  function NestedShut(s: Nested): Nested {
    s.(bodyClosed := true, closes := if s.bodyClosed then s.closes else s.closes + 1)
  }

  function ReadError(fault: Fault): Error {
    Wrapped("agentsdk: read SSE frame", FaultError(fault))
  }

  /** The identifiers a run opened by this event must carry. */
  function OpeningIds(s: Nested, event: Event): Ids {
    Ids(event.ids.invocation, s.rootTask, s.trace)
  }

  function NestedTake(s: Nested, payload: Bytes, wire: NestedWire): (Nested, Received) {
    if !WalkAccepts(payload, wire.json) then (s, Faulted(Undecoded(wire.walkError(payload))))
    else match wire.decode(payload)
      case None => (s, Faulted(Undecoded(wire.decodeError(payload))))
      case Some(event) =>
        if s.sequence.Some? then NestedAdmit(s, s.sequence.value, event, wire)
        else if !event.kind.Accepted? then (s, Faulted(MUST_ACCEPT))
        else if !wire.opens(OpeningIds(s, event)) then (s, Faulted(Unopened(OpeningIds(s, event), wire)))
        else
          var v := NewValidator(OpeningIds(s, event));
          NestedAdmit(s.(sequence := Some(v), invocation := event.ids.invocation), v, event, wire)
  }

  function NestedAdmit(s: Nested, v: Validator, event: Event, wire: NestedWire): (Nested, Received) {
    match Accept(v, event, wire.admits)
    case None => (s, Faulted(Invalid(v, event, wire)))
    case Some(next) =>
      (s.(sequence := Some(next), terminal := next.terminal, delivered := s.delivered + [event]), Delivered(event))
  }

  /** `Recv`, given what the frame reader returns if it is asked. */
  function NestedRecv(s: Nested, frame: FrameResult, wire: NestedWire): (Nested, Received) {
    if s.closed then (s, Faulted(CLOSED))
    else if s.finished then (s, EndOfStream)
    else match frame
      case FrameEof =>
        if s.sequence.None? then (s, Faulted(NO_EVENT))
        else if !s.sequence.value.terminal then (s, Faulted(Unfinished(s.sequence.value, wire)))
        else (NestedShut(s).(finished := true), EndOfStream)
      case FrameError(fault) => (s, Faulted(ReadError(fault)))
      case Frame(payload) => NestedTake(s, payload, wire)
  }

  /** `Close`. */
  function NestedClose(s: Nested, wire: NestedWire): (Nested, Option<Error>) {
    if s.closed then (s, None)
    else
      var bodyError := if s.bodyClosed then None else s.closeError;
      (NestedShut(s).(closed := true),
       if s.finished then bodyError
       else if s.sequence.Some? && !s.sequence.value.terminal then
         Join(bodyError, Some(Interrupted(s.sequence.value, wire)))
       else Join(bodyError, Some(INTERRUPTED_STREAM)))
  }

  // ----- the object -----

  class NestedResultStream {
    const reader: Reader
    const eventLimit: nat
    const rootTask: Bytes
    const trace: Bytes
    const closeError: Option<Error>
    const wire: NestedWire

    var sequence: Option<Validator>
    var invocation: Bytes
    var terminal: bool
    var finished: bool
    var closed: bool
    var bodyClosed: bool

    ghost var delivered: seq<Event>
    ghost var closes: nat

    constructor (reader: Reader, limit: nat, rootTask: Bytes, trace: Bytes, closeError: Option<Error>, wire: NestedWire)
      ensures this.reader == reader && this.eventLimit == limit && this.wire == wire
      ensures Value() == NestedOpened(rootTask, trace, closeError)
    {
      this.reader, this.eventLimit, this.rootTask, this.trace := reader, limit, rootTask, trace;
      this.closeError, this.wire := closeError, wire;
      sequence, invocation, terminal, finished, closed, bodyClosed := None, [], false, false, false, false;
      delivered, closes := [], 0;
    }

    ghost function Value(): Nested
      reads this
    {
      Nested(rootTask, trace, closeError,
             sequence, invocation, terminal, finished, closed, bodyClosed, delivered, closes)
    }

    method CloseBody() returns (e: Option<Error>)
      modifies this`bodyClosed, this`closes
      ensures Value() == NestedShut(old(Value())) && e == if old(bodyClosed) then None else closeError
    {
      if bodyClosed {
        return None;
      }
      bodyClosed, closes := true, closes + 1;
      return closeError;
    }

    method TakePayload(payload: Bytes) returns (r: Received)
      modifies this
      ensures (Value(), r) == NestedTake(old(Value()), payload, wire)
    {
      var unique := RejectDuplicateMembers(payload, wire.json);
      if !unique {
        return Faulted(Undecoded(wire.walkError(payload)));
      }
      var decoded := wire.decode(payload);
      if decoded.None? {
        return Faulted(Undecoded(wire.decodeError(payload)));
      }
      var event := decoded.value;
      if sequence.None? {
        if !event.kind.Accepted? {
          return Faulted(MUST_ACCEPT);
        }
        var ids := Ids(event.ids.invocation, rootTask, trace);
        if !wire.opens(ids) {
          return Faulted(Unopened(ids, wire));
        }
        sequence, invocation := Some(NewValidator(ids)), event.ids.invocation;
      }
      var next := Accept(sequence.value, event, wire.admits);
      if next.None? {
        return Faulted(Invalid(sequence.value, event, wire));
      }
      sequence, terminal, delivered := next, next.value.terminal, delivered + [event];
      return Delivered(event);
    }

    method Recv() returns (r: Received)
      requires reader.size > 0
      modifies this, reader`rest
      ensures var frame := AgentFrameOf(old(reader.rest), reader.end, eventLimit);
              && (Value(), r) == NestedRecv(old(Value()), frame, wire)
              && (old(closed) || old(finished) ==> reader.rest == old(reader.rest))
              && (!old(closed) && !old(finished) && frame.Frame? ==>
                    |frame.payload| + FRAMING <= |old(reader.rest)|
                    && reader.rest == old(reader.rest)[|frame.payload| + FRAMING..])
              && (!old(closed) && !old(finished) && frame.FrameEof? ==> old(reader.rest) == reader.rest == [])
    {
      if closed {
        return Faulted(CLOSED);
      }
      if finished {
        return EndOfStream;
      }
      var frame := AgentReadSseFrame(reader, eventLimit);
      match frame
      case FrameEof =>
        if sequence.None? {
          return Faulted(NO_EVENT);
        }
        if !sequence.value.terminal {
          return Faulted(Unfinished(sequence.value, wire));
        }
        finished := true;
        var _ := CloseBody();
        return EndOfStream;
      case FrameError(fault) => return Faulted(ReadError(fault));
      case Frame(payload) => r := TakePayload(payload);
    }

    method Close() returns (outcome: Option<Error>)
      modifies this
      ensures (Value(), outcome) == NestedClose(old(Value()), wire)
    {
      if closed {
        return None;
      }
      closed := true;
      var bodyError := CloseBody();
      if !finished && sequence.Some? && !sequence.value.terminal {
        return Join(bodyError, Some(Interrupted(sequence.value, wire)));
      }
      if !finished {
        return Join(bodyError, Some(INTERRUPTED_STREAM));
      }
      return bodyError;
    }
  }

  // ----- runs -----

  /** One call, with what the frame reader would return to it: anything at all,
      since after an error the reader may stand anywhere in the body. */
  datatype NestedCall = NestedRecvCall(frame: FrameResult) | NestedCloseCall

  function NestedStep(s: Nested, call: NestedCall, wire: NestedWire): (Nested, Reply) {
    match call
    case NestedRecvCall(frame) => var (t, r) := NestedRecv(s, frame, wire); (t, Got(r))
    case NestedCloseCall => var (t, outcome) := NestedClose(s, wire); (t, ClosedWith(outcome))
  }

  function NestedRun(s: Nested, calls: seq<NestedCall>, wire: NestedWire): (r: (Nested, seq<Reply>))
    ensures |r.1| == |calls|
  {
    if calls == [] then (s, [])
    else
      var (t, replies) := NestedRun(s, calls[..|calls| - 1], wire);
      var (u, reply) := NestedStep(t, calls[|calls| - 1], wire);
      (u, replies + [reply])
  }

  ghost predicate NestedInvariant(s: Nested) {
    && (s.sequence.None? ==> s.delivered == [])
    && (s.sequence.Some? ==>
          var ids := Ids(s.invocation, s.rootTask, s.trace);
          s.sequence.value.ids == ids && WellFormed(ids, s.delivered) && Tracks(s.sequence.value, s.delivered))
    && s.terminal == Complete(s.delivered)
    && (s.finished ==> s.terminal)
    && (s.bodyClosed <==> s.finished || s.closed)
    && s.closes == if s.bodyClosed then 1 else 0
  }

  lemma AdmitKeeps(s: Nested, v: Validator, event: Event, wire: NestedWire)
    requires NestedInvariant(s) && s.sequence == Some(v) && !s.finished
    ensures NestedInvariant(NestedAdmit(s, v, event, wire).0)
  {
    AcceptIff(v, s.delivered, event, wire.admits);
  }

  lemma NestedStepKeeps(s: Nested, call: NestedCall, wire: NestedWire)
    requires NestedInvariant(s)
    ensures NestedInvariant(NestedStep(s, call, wire).0)
  {
    if call.NestedRecvCall? && call.frame.Frame? && !s.closed && !s.finished && wire.decode(call.frame.payload).Some? {
      var event := wire.decode(call.frame.payload).value;
      if s.sequence.Some? {
        AdmitKeeps(s, s.sequence.value, event, wire);
      } else {
        var v := NewValidator(OpeningIds(s, event));
        AdmitKeeps(s.(sequence := Some(v), invocation := event.ids.invocation), v, event, wire);
      }
    }
  }

  predicate SameStream(s: Nested, t: Nested) {
    t.rootTask == s.rootTask && t.trace == s.trace && t.closeError == s.closeError
  }

  lemma NestedStepReports(s: Nested, call: NestedCall, wire: NestedWire)
    ensures var (t, reply) := NestedStep(s, call, wire);
            && t.delivered == s.delivered + EventOf(reply)
            && SameStream(s, t)
            && (reply == Got(EndOfStream) ==> t.finished)
            && (s.finished ==> t.finished)
  {
    var reply := NestedStep(s, call, wire).1;
    if EventOf(reply) == [] {
      assert s.delivered + [] == s.delivered;
    }
  }

  lemma {:induction false} NestedRunKeeps(s: Nested, calls: seq<NestedCall>, wire: NestedWire)
    requires NestedInvariant(s)
    ensures NestedInvariant(NestedRun(s, calls, wire).0)
  {
    if calls != [] {
      var n := |calls| - 1;
      NestedRunKeeps(s, calls[..n], wire);
      NestedStepKeeps(NestedRun(s, calls[..n], wire).0, calls[n], wire);
    }
  }

  lemma {:induction false} NestedRunReports(s: Nested, calls: seq<NestedCall>, wire: NestedWire)
    ensures var (t, replies) := NestedRun(s, calls, wire);
            && t.delivered == s.delivered + EventsOf(replies)
            && SameStream(s, t)
            && (Got(EndOfStream) in replies ==> t.finished)
            && (s.finished ==> t.finished)
  {
    if calls == [] {
      assert s.delivered + [] == s.delivered;
    } else {
      var n := |calls| - 1;
      NestedRunReports(s, calls[..n], wire);
      var (t, replies) := NestedRun(s, calls[..n], wire);
      NestedStepReports(t, calls[n], wire);
      EventsAppend(s.delivered, replies, NestedStep(t, calls[n], wire).1);
    }
  }

  /** Whatever frames and errors the reader yields, and however often the caller
      goes on after an error: the events handed out are one well-formed run under
      the invocation's own root task and trace; the end is reported only after a
      terminal event; and the body is closed at most once. */
  lemma NestedRunsAreWellFormed(rootTask: Bytes, trace: Bytes, closeError: Option<Error>, calls: seq<NestedCall>,
                                wire: NestedWire)
    ensures var (s, replies) := NestedRun(NestedOpened(rootTask, trace, closeError), calls, wire);
            var events := EventsOf(replies);
            && (events != [] ==> WellFormed(Ids(s.invocation, rootTask, trace), events))
            && (Got(EndOfStream) in replies ==> Complete(events))
            && s.closes <= 1
  {
    var start := NestedOpened(rootTask, trace, closeError);
    NestedRunKeeps(start, calls, wire);
    NestedRunReports(start, calls, wire);
    var replies := NestedRun(start, calls, wire).1;
    assert [] + EventsOf(replies) == EventsOf(replies);
  }

  /** A first `Close` is nil exactly when the end had been reported; any later one
      always is. */
  lemma NestedCloseIff(s: Nested, wire: NestedWire)
    requires NestedInvariant(s)
    ensures NestedClose(s, wire).1.None? <==> s.closed || s.finished
    ensures NestedClose(NestedClose(s, wire).0, wire).1.None?
  {
  }
}
