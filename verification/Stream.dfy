/** The client package's `Stream` object, proved against the state machine. */
module Stream {
  import opened Prelude
  import opened Errors
  import opened JsonWalk
  import opened Framing
  import opened ResultEvents
  import Session

  class Stream {
    const reader: Reader
    const eventLimit: nat
    const trace: Bytes
    const closeError: Option<Error>
    const wire: Session.Wire

    var sequence: Option<Validator>
    var terminal: bool
    var finished: bool
    var failure: Option<Error>
    var closed: bool
    var closeOutcome: Option<Error>
    var bodyClosed: bool

    ghost var payloads: seq<Bytes>
    ghost var delivered: seq<Event>
    ghost var closes: nat

    constructor (reader: Reader, limit: nat, trace: Bytes, closeError: Option<Error>, wire: Session.Wire)
      requires reader.size > 0
      ensures this.reader == reader && this.wire == wire
      ensures Value() == Session.Opened(reader.rest, Session.Setup(reader.end, limit, trace, closeError))
    {
      this.reader, this.eventLimit, this.trace, this.closeError, this.wire := reader, limit, trace, closeError, wire;
      sequence, terminal, finished := None, false, false;
      failure, closed, closeOutcome, bodyClosed := None, false, None, false;
      payloads, delivered, closes := [], [], 0;
    }

    ghost function Value(): Session.Session
      reads this, reader
    {
      Session.Session(
        Session.Setup(reader.end, eventLimit, trace, closeError),
        if failure.Some? then [] else reader.rest,
        sequence, terminal, finished, failure, closed, closeOutcome, bodyClosed, payloads, delivered, closes)
    }

    /** `closeBody`: the body itself is closed at most once. */
    method CloseBody() returns (e: Option<Error>)
      modifies this`bodyClosed, this`closes
      ensures e == Session.ShutError(old(Value())) && Value() == Session.Shut(old(Value()))
    {
      if bodyClosed {
        return None;
      }
      bodyClosed := true;
      closes := closes + 1;
      return closeError;
    }

    /** `recordFailure`: keeps the first failure, whatever comes after it. */
    method RecordFailure(e: Error) returns (r: Session.Received)
      modifies this`failure, this`bodyClosed, this`closes
      ensures (Value(), r) == Session.RecordFailure(old(Value()), e)
    {
      if failure.Some? {
        return Session.Faulted(failure.value);
      }
      var closing := CloseBody();
      failure := Some(JoinTo(e, closing));
      return Session.Faulted(failure.value);
    }

    /** What `Recv` does once the transport has ended. */
    method FinishAtEnd() returns (r: Session.Received)
      modifies this`finished, this`failure, this`bodyClosed, this`closes
      ensures (Value(), r) == Session.AtEnd(old(Value()))
    {
      if sequence.None? || !terminal {
        r := RecordFailure(Session.EARLY_END);
        return;
      }
      if !sequence.value.terminal {
        r := RecordFailure(Session.NOT_FINISHED);
        return;
      }
      var closing := CloseBody();
      if closing.Some? {
        r := RecordFailure(Wrapped("clientsdk: close completed result stream", closing.value));
        return;
      }
      finished := true;
      return Session.EndOfStream;
    }

    /** What `Recv` does with the payload of a frame. */
    method TakePayload(payload: Bytes, ghost verdict: Session.Verdict) returns (r: Session.Received)
      requires verdict == Session.VerdictOn(sequence, trace, payload, wire)
      modifies this
      ensures (Value(), r) == Session.Take(old(Value()), payload, verdict)
    {
      var unique := RejectDuplicateMembers(payload, wire.json);
      if !unique {
        r := RecordFailure(Session.INVALID_EVENT);
        return;
      }
      var decoded := wire.decode(payload);
      if decoded.None? {
        r := RecordFailure(Session.INVALID_EVENT);
        return;
      }
      var event := decoded.value;
      if sequence.None? {
        if !event.kind.Accepted? {
          r := RecordFailure(Session.NOT_ACCEPTED);
          return;
        }
        if event.ids.trace != trace {
          r := RecordFailure(Session.OTHER_TRACE);
          return;
        }
        if !wire.opens(event.ids) {
          r := RecordFailure(Session.INVALID_EVENT);
          return;
        }
        sequence := Some(NewValidator(event.ids));
      }
      var next := Accept(sequence.value, event, wire.admits);
      if next.None? {
        r := RecordFailure(Session.INVALID_EVENT);
        return;
      }
      sequence := next;
      terminal := next.value.terminal;
      payloads, delivered := payloads + [payload], delivered + [event];
      return Session.Delivered(event);
    }

    /** What `Recv` does once it gets to read. */
    method ReadNext(after: Session.Context) returns (r: Session.Received)
      requires reader.size > 0 && Session.Active(Value())
      modifies this, reader`rest
      ensures (Value(), r) == Session.Act(old(Value()), Session.Live, after, Session.Look(old(Value()), wire))
    {
      ghost var s := Value();
      ghost var sight := Session.Look(s, wire);
      var frame := ReadSseFrame(reader, eventLimit);
      Session.LookCases(s, wire, frame);
      Session.ActCases(s, after, sight);
      match frame
      case FrameEof =>
        assert Value() == s;
        r := FinishAtEnd();
      case FrameError(fault) =>
        var e := if !after.Live? then Session.ContextEnded(after) else Session.ReadFailed(fault);
        Session.FailureForgets(s, Value().unread, e);
        r := RecordFailure(e);
      case Frame(payload) =>
        assert Value() == s.(unread := sight.rest);
        r := TakePayload(payload, sight.verdict);
    }

    method Recv(before: Session.Context, after: Session.Context) returns (r: Session.Received)
      requires reader.size > 0
      modifies this, reader`rest
      ensures (Value(), r) == Session.Recv(old(Value()), before, after, wire)
    {
      if closed {
        return Session.Faulted(Session.CLOSED_ERROR);
      }
      if failure.Some? {
        return Session.Faulted(failure.value);
      }
      if finished {
        return Session.EndOfStream;
      }
      if !before.Live? {
        r := RecordFailure(Session.ContextEnded(before));
        return;
      }
      r := ReadNext(after);
    }

    method Close() returns (outcome: Option<Error>)
      modifies this
      ensures (Value(), outcome) == Session.Close(old(Value()))
    {
      if closed {
        return closeOutcome;
      }
      closed := true;
      if failure.Some? {
        closeOutcome := failure;
        return closeOutcome;
      }
      if finished {
        closeOutcome := None;
        return None;
      }
      var closing := CloseBody();
      closeOutcome := Some(JoinTo(Session.EARLY_CLOSE, closing));
      return closeOutcome;
    }

    /** One call. */
    method Make(call: Session.Call) returns (reply: Session.Reply)
      requires reader.size > 0
      modifies this, reader`rest
      ensures (Value(), reply) == Session.Step(old(Value()), call, Session.Looking(wire))
    {
      match call
      case CallRecv(before, after) =>
        var received := Recv(before, after);
        return Session.Got(received);
      case CallClose =>
        var outcome := Close();
        return Session.ClosedWith(outcome);
    }

    /** Any sequence of calls, one after the other, as the stream's one consumer makes them. */
    method Play(calls: seq<Session.Call>) returns (replies: seq<Session.Reply>)
      requires reader.size > 0
      modifies this, reader`rest
      ensures (Value(), replies) == Session.Run(old(Value()), calls, Session.Looking(wire))
    {
      ghost var start, look := Value(), Session.Looking(wire);
      replies := [];
      for i := 0 to |calls|
        invariant (Value(), replies) == Session.Run(start, calls[..i], look)
      {
        ghost var s := Value();
        var reply := Make(calls[i]);
        Session.RunContinues(start, calls, i, look, s, replies, Value(), reply);
        replies := replies + [reply];
      }
      assert calls[..|calls|] == calls;
    }
  }

  /** A stream opened over a body through a buffer of any size replies to any
      calls as the state machine does over the body alone. */
  method OpenAndPlay(body: Bytes, end: End, size: nat, limit: nat, trace: Bytes, closeError: Option<Error>,
                     wire: Session.Wire, calls: seq<Session.Call>)
    returns (replies: seq<Session.Reply>)
    requires size > 0
    ensures replies ==
            var setup := Session.Setup(end, limit, trace, closeError);
            Session.Run(Session.Opened(body, setup), calls, Session.Looking(wire)).1
  {
    var reader := new Reader(body, end, size);
    var stream := new Stream(reader, limit, trace, closeError, wire);
    replies := stream.Play(calls);
  }
}
