/** When the agent's result stream reports a failure that looks like its end:
    exactly when Core or the decoder gives it an error that is an end of file. */
module AgentEnds {
  import opened Prelude
  import opened Errors
  import opened JsonGrammar
  import opened JsonNames
  import opened Framing
  import opened ResultEvents
  import opened Session
  import opened AgentStream
  import opened AgentBody

  // ----- which errors a stream can meet -----

  predicate Spells(payload: Bytes, event: Event, wire: NestedWire) {
    IsCompact(payload) && WalkAccepts(payload, wire.json) && wire.decode(payload) == Some(event)
  }

  ghost predicate Sent(event: Event, wire: NestedWire) {
    exists payload :: Spells(payload, event, wire)
  }

  ghost predicate AllSent(events: seq<Event>, wire: NestedWire) {
    forall e :: e in events ==> Sent(e, wire) && wire.admits(e)
  }

  /** An event that may open a run with these identifiers. */
  ghost predicate Opens(event: Event, ids: Ids, wire: NestedWire) {
    Sent(event, wire) && event.kind.Accepted? && event.ids.invocation == ids.invocation && wire.opens(ids)
  }

  ghost predicate OpenedInVain(v: Validator, wire: NestedWire) {
    exists e :: Opens(e, v.ids, wire) && Accept(v, e, wire.admits).None?
  }

  /** A validator of the call's runs that has accepted `events`. */
  ghost predicate HasAccepted(v: Validator, events: seq<Event>, rootTask: Bytes, trace: Bytes, wire: NestedWire) {
    && v.ids.rootTask == rootTask && v.ids.trace == trace && wire.opens(v.ids)
    && WellFormed(v.ids, events) && Tracks(v, events) && AllSent(events, wire)
  }

  /** One that a stream can hold: a validator that has accepted nothing stays only
      when it refused the event it was made for. */
  ghost predicate Held(v: Validator, events: seq<Event>, rootTask: Bytes, trace: Bytes, wire: NestedWire) {
    HasAccepted(v, events, rootTask, trace, wire) && (events == [] ==> OpenedInVain(v, wire))
  }

  /** A validator that can be asked about this event. */
  ghost predicate Asked(v: Validator, event: Event, rootTask: Bytes, trace: Bytes, wire: NestedWire) {
    || (v == NewValidator(Ids(event.ids.invocation, rootTask, trace)) && Opens(event, v.ids, wire))
    || (Sent(event, wire) && exists events :: Held(v, events, rootTask, trace, wire))
  }

  /** No error that the stream can be given is an end of file: of a compact payload
      that is refused, of identifiers that open no run, of an event that a validator
      refuses, and of ending a run that is not over. */
  ghost predicate Harmless(rootTask: Bytes, trace: Bytes, wire: NestedWire) {
    && (forall p :: IsCompact(p) && !WalkAccepts(p, wire.json) ==> !Is(wire.walkError(p), EOF))
    && (forall p :: IsCompact(p) && WalkAccepts(p, wire.json) && wire.decode(p).None? ==> !Is(wire.decodeError(p), EOF))
    && (forall e :: Sent(e, wire) && e.kind.Accepted? ==>
          var ids := Ids(e.ids.invocation, rootTask, trace); !wire.opens(ids) ==> !Is(wire.opensError(ids), EOF))
    && (forall v, e :: Asked(v, e, rootTask, trace, wire) && Accept(v, e, wire.admits).None? ==>
          !Is(wire.admitsError(v, e), EOF))
    && (forall v, events :: Held(v, events, rootTask, trace, wire) && !v.terminal ==> !Is(wire.finishError(v), EOF))
  }

  // ----- harmless errors never look like the end -----

  ghost predicate Traced(s: Nested, wire: NestedWire) {
    s.sequence.Some? ==> Held(s.sequence.value, s.delivered, s.rootTask, s.trace, wire)
  }

  /** What the reader may return over a body that reports no end of file but its end. */
  predicate Fair(frame: FrameResult) {
    match frame
    case Frame(payload) => IsCompact(payload)
    case FrameError(fault) => !Is(FaultError(fault), EOF)
    case FrameEof => true
  }

  predicate TellsTheEnd(reply: Reply) {
    LooksEnded(reply) ==> reply == Got(EndOfStream)
  }

  lemma HeldNext(v: Validator, events: seq<Event>, e: Event, rootTask: Bytes, trace: Bytes, wire: NestedWire)
    requires HasAccepted(v, events, rootTask, trace, wire) && Sent(e, wire) && Accept(v, e, wire.admits).Some?
    ensures Held(Accept(v, e, wire.admits).value, events + [e], rootTask, trace, wire)
  {
    AcceptIff(v, events, e, wire.admits);
  }

  lemma AdmitTells(s: Nested, v: Validator, event: Event, wire: NestedWire)
    requires NestedInvariant(s) && Harmless(s.rootTask, s.trace, wire) && s.sequence == Some(v) && Sent(event, wire)
    requires Asked(v, event, s.rootTask, s.trace, wire) && HasAccepted(v, s.delivered, s.rootTask, s.trace, wire)
    requires Accept(v, event, wire.admits).None? && s.delivered == [] ==> OpenedInVain(v, wire)
    ensures var (t, received) := NestedAdmit(s, v, event, wire);
            Traced(t, wire) && TellsTheEnd(Got(received))
  {
    if Accept(v, event, wire.admits).Some? {
      HeldNext(v, s.delivered, event, s.rootTask, s.trace, wire);
    }
  }

  lemma TakeTells(s: Nested, payload: Bytes, wire: NestedWire)
    requires NestedInvariant(s) && Harmless(s.rootTask, s.trace, wire) && Traced(s, wire) && IsCompact(payload)
    ensures var (t, received) := NestedTake(s, payload, wire);
            Traced(t, wire) && TellsTheEnd(Got(received))
  {
    if WalkAccepts(payload, wire.json) && wire.decode(payload).Some? {
      var event := wire.decode(payload).value;
      assert Spells(payload, event, wire);
      if s.sequence.Some? {
        AdmitTells(s, s.sequence.value, event, wire);
      } else if event.kind.Accepted? && wire.opens(OpeningIds(s, event)) {
        var v := NewValidator(OpeningIds(s, event));
        assert Opens(event, v.ids, wire);
        AdmitTells(s.(sequence := Some(v), invocation := event.ids.invocation), v, event, wire);
      }
    }
  }

  lemma StepTells(s: Nested, call: NestedCall, wire: NestedWire)
    requires NestedInvariant(s) && Harmless(s.rootTask, s.trace, wire) && Traced(s, wire)
    requires call.NestedRecvCall? ==> Fair(call.frame)
    ensures var (t, reply) := NestedStep(s, call, wire);
            Traced(t, wire) && TellsTheEnd(reply)
  {
    if call.NestedRecvCall? && call.frame.Frame? && !s.closed && !s.finished {
      TakeTells(s, call.frame.payload, wire);
    }
  }

  /** Over every run, also one that goes on after errors or closes in between. */
  lemma {:induction false} HarmlessRunsTellTheEnd(
      rootTask: Bytes, trace: Bytes, closeError: Option<Error>, calls: seq<NestedCall>, wire: NestedWire)
    requires Harmless(rootTask, trace, wire)
    requires forall call :: call in calls && call.NestedRecvCall? ==> Fair(call.frame)
    ensures var (s, replies) := NestedRun(NestedOpened(rootTask, trace, closeError), calls, wire);
            Traced(s, wire) && forall r :: r in replies ==> TellsTheEnd(r)
  {
    if calls != [] {
      var n := |calls| - 1;
      var start := NestedOpened(rootTask, trace, closeError);
      HarmlessRunsTellTheEnd(rootTask, trace, closeError, calls[..n], wire);
      NestedRunKeeps(start, calls[..n], wire);
      NestedRunReports(start, calls[..n], wire);
      StepTells(NestedRun(start, calls[..n], wire).0, calls[n], wire);
    }
  }

  lemma LineIsFair(s: Bytes, end: End, limit: nat)
    requires end.Broken? ==> !Is(end.error, EOF)
    ensures LineOf(s, end, limit).LineBroken? ==> !Is(LineOf(s, end, limit).error, EOF)
  {
  }

  lemma DataLineIsFair(s: Bytes, end: End, limit: nat)
    requires end.Broken? ==> !Is(end.error, EOF)
    ensures DataLineOf(s, end, limit).Ends? ==> Fair(DataLineOf(s, end, limit).r)
  {
    LineIsFair(s, end, limit);
    var line := LineOf(s, end, limit);
    if line.LineBroken? {
      assert FaultError(BadLine(line)) == line.error;
    }
  }

  lemma JudgeIsFair(payload: Bytes, limit: nat)
    ensures Fair(AgentJudge(payload, limit))
  {
  }

  lemma FrameIsFair(s: Bytes, end: End, limit: nat)
    requires end.Broken? ==> !Is(end.error, EOF)
    ensures Fair(AgentFrameOf(s, end, limit))
  {
    DataLineIsFair(s, end, limit);
    var data := DataLineOf(s, end, limit);
    if data.Carried? {
      JudgeIsFair(data.payload, limit);
      assert AgentFrameOf(s, end, limit) == AgentJudge(data.payload, limit);
    }
  }

  // ----- any other error can be made to look like the end -----

  function FramesOf(payloads: seq<Bytes>): (frames: seq<FrameResult>)
    ensures |frames| == |payloads|
  {
    seq(|payloads|, i requires 0 <= i < |payloads| => Frame(payloads[i]))
  }

  lemma FramesOfGrows(payloads: seq<Bytes>, payload: Bytes)
    ensures FramesOf(payloads + [payload]) == FramesOf(payloads) + [Frame(payload)]
  {
  }

  lemma NextRead(payloads: seq<Bytes>, limit: nat)
    requires payloads != [] && AllSendable(payloads, limit)
    ensures AgentFrameOf(Frames(payloads), Eof, limit) == Frame(payloads[0])
    ensures |payloads[0]| + FRAMING <= |Frames(payloads)|
    ensures Frames(payloads[1..]) == Frames(payloads)[|payloads[0]| + FRAMING..]
  {
    FramesSplit(Frames(payloads), payloads, limit);
    FrameOfIff(Frames(payloads), Eof, limit, payloads[0]);
    ReadersAgree(Frames(payloads), Eof, limit);
  }

  /** The body has been read as these frames, and stands before those payloads. */
  ghost predicate ReadUpTo(body: Bytes, limit: nat, frames: seq<FrameResult>, rest: seq<Bytes>) {
    ReadFrom(body, Eof, limit, frames) && AtFrame(body, Frames(rest), frames)
  }

  lemma ReadsNext(body: Bytes, limit: nat, frames: seq<FrameResult>, rest: seq<Bytes>)
    requires rest != [] && AllSendable(rest, limit) && ReadUpTo(body, limit, frames, rest)
    ensures ReadUpTo(body, limit, frames + [Frame(rest[0])], rest[1..])
  {
    NextRead(rest, limit);
    ReadFromGrows(body, Eof, limit, frames, Frames(rest), Frame(rest[0]));
    AtNextFrame(body, Frames(rest), frames, Frame(rest[0]), Frames(rest[1..]));
  }

  lemma StartsReading(body: Bytes, limit: nat, rest: seq<Bytes>)
    requires body == Frames(rest)
    ensures ReadUpTo(body, limit, [], rest)
  {
    assert body[0..] == body;
  }

  lemma FramesOfSplits(frames: seq<FrameResult>, rest: seq<Bytes>)
    requires rest != []
    ensures frames + [Frame(rest[0])] + FramesOf(rest[1..]) == frames + FramesOf(rest)
  {
  }

  lemma ReadsEnd(body: Bytes, limit: nat, frames: seq<FrameResult>)
    requires ReadUpTo(body, limit, frames, [])
    ensures ReadFrom(body, Eof, limit, frames + [FrameEof])
  {
    assert AgentFrameOf([], Eof, limit) == FrameEof;
    ReadFromGrows(body, Eof, limit, frames, [], FrameEof);
  }

  /** A body made of frames is read as them and then as its end. */
  lemma {:induction false} ReadsOn(body: Bytes, limit: nat, frames: seq<FrameResult>, rest: seq<Bytes>)
    requires AllSendable(rest, limit) && ReadUpTo(body, limit, frames, rest)
    ensures ReadFrom(body, Eof, limit, frames + FramesOf(rest) + [FrameEof])
    decreases |rest|
  {
    if rest == [] {
      assert frames + FramesOf(rest) == frames;
      ReadsEnd(body, limit, frames);
    } else {
      ReadsNext(body, limit, frames, rest);
      ReadsOn(body, limit, frames + [Frame(rest[0])], rest[1..]);
      FramesOfSplits(frames, rest);
    }
  }

  lemma {:induction false} FitsInBody(payloads: seq<Bytes>, payload: Bytes)
    requires payload in payloads
    ensures |payload| + FRAMING <= |Frames(payloads)|
  {
    if payload != payloads[0] {
      FitsInBody(payloads[1..], payload);
    }
  }

  /** Whether over every body and however often the caller receives nothing but the
      end of the stream looks like it. A body whose error is an end of file has
      ended, as far as the reader can tell. */
  ghost predicate EndIsUnmistakable(rootTask: Bytes, trace: Bytes, wire: NestedWire) {
    forall body: Bytes, end: End, limit: nat, closeError: Option<Error>, frames: seq<FrameResult> |
      ReadFrom(body, end, limit, frames) && (end.Broken? ==> !Is(end.error, EOF)) ::
      forall r :: r in NestedRun(NestedOpened(rootTask, trace, closeError), RecvCalls(frames), wire).1 ==>
        TellsTheEnd(r)
  }

  predicate AllCompact(payloads: seq<Bytes>) {
    forall p :: p in payloads ==> IsCompact(p)
  }

  /** The stream when the frames of these payloads are behind it. */
  function Behind(rootTask: Bytes, trace: Bytes, payloads: seq<Bytes>, wire: NestedWire): Nested {
    NestedRun(NestedOpened(rootTask, trace, None), RecvCalls(FramesOf(payloads)), wire).0
  }

  lemma BehindNext(rootTask: Bytes, trace: Bytes, payloads: seq<Bytes>, payload: Bytes, wire: NestedWire)
    ensures Behind(rootTask, trace, payloads + [payload], wire) ==
            NestedRecv(Behind(rootTask, trace, payloads, wire), Frame(payload), wire).0
  {
    FramesOfGrows(payloads, payload);
    LastReceive(NestedOpened(rootTask, trace, None), FramesOf(payloads + [payload]), wire);
    assert FramesOf(payloads + [payload])[..|payloads|] == FramesOf(payloads);
  }

  lemma AllFit(payloads: seq<Bytes>)
    requires AllCompact(payloads)
    ensures AllSendable(payloads, |Frames(payloads)|)
  {
    forall p | p in payloads ensures Sendable(p, |Frames(payloads)|) {
      FitsInBody(payloads, p);
    }
  }

  /** The frame, or the end, can be read behind these payloads. */
  lemma CanBeRead(payloads: seq<Bytes>, last: FrameResult) returns (body: Bytes, limit: nat)
    requires AllCompact(payloads) && (last.FrameEof? || (last.Frame? && IsCompact(last.payload)))
    ensures ReadFrom(body, Eof, limit, FramesOf(payloads) + [last])
  {
    var all := if last.Frame? then payloads + [last.payload] else payloads;
    var read, n := FramesOf(all) + [FrameEof], |payloads| + 1;
    body, limit := Frames(all), |Frames(all)|;
    AllFit(all);
    StartsReading(body, limit, all);
    ReadsOn(body, limit, [], all);
    assert [] + FramesOf(all) == FramesOf(all);
    assert read[..n] == FramesOf(payloads) + [last];
    ReadFromPrefix(body, Eof, limit, read, n);
  }

  /** What is replied to it tells the end. */
  lemma ReplyTells(rootTask: Bytes, trace: Bytes, payloads: seq<Bytes>, last: FrameResult, wire: NestedWire)
    requires EndIsUnmistakable(rootTask, trace, wire)
    requires AllCompact(payloads) && (last.FrameEof? || (last.Frame? && IsCompact(last.payload)))
    ensures TellsTheEnd(Got(NestedRecv(Behind(rootTask, trace, payloads, wire), last, wire).1))
  {
    var start, frames := NestedOpened(rootTask, trace, None), FramesOf(payloads) + [last];
    var body, limit := CanBeRead(payloads, last);
    LastReceive(start, frames, wire);
    assert frames[..|payloads|] == FramesOf(payloads);
    var reply := Got(NestedRecv(Behind(rootTask, trace, payloads, wire), last, wire).1);
    assert reply in NestedRun(start, RecvCalls(frames), wire).1;
  }

  lemma CauseShows(rootTask: Bytes, trace: Bytes, payloads: seq<Bytes>, last: FrameResult, text: string, cause: Error,
                   wire: NestedWire)
    requires EndIsUnmistakable(rootTask, trace, wire)
    requires AllCompact(payloads) && (last.FrameEof? || (last.Frame? && IsCompact(last.payload)))
    requires NestedRecv(Behind(rootTask, trace, payloads, wire), last, wire).1 == Faulted(Wrapped(text, cause))
    ensures !Is(cause, EOF)
  {
    ReplyTells(rootTask, trace, payloads, last, wire);
  }

  predicate Open(s: Nested, rootTask: Bytes, trace: Bytes) {
    !s.closed && !s.finished && s.rootTask == rootTask && s.trace == trace
  }

  lemma RecvAdmits(s: Nested, p: Bytes, e: Event, wire: NestedWire)
    requires !s.closed && !s.finished && s.sequence.Some? && Spells(p, e, wire)
    ensures NestedRecv(s, Frame(p), wire) == NestedAdmit(s, s.sequence.value, e, wire)
  {
  }

  lemma RecvOpens(s: Nested, p: Bytes, e: Event, wire: NestedWire)
    requires !s.closed && !s.finished && s.sequence.None? && Spells(p, e, wire) && e.kind.Accepted?
    ensures var ids := OpeningIds(s, e);
            NestedRecv(s, Frame(p), wire) ==
            if !wire.opens(ids) then (s, Faulted(Unopened(ids, wire)))
            else
              var v := NewValidator(ids);
              NestedAdmit(s.(sequence := Some(v), invocation := ids.invocation), v, e, wire)
  {
  }

  lemma StartsOpen(rootTask: Bytes, trace: Bytes, wire: NestedWire)
    ensures Behind(rootTask, trace, [], wire) == NestedOpened(rootTask, trace, None)
  {
    assert RecvCalls(FramesOf([])) == [];
  }

  ghost function Spelling(event: Event, wire: NestedWire): (payload: Bytes)
    requires Sent(event, wire)
    ensures Spells(payload, event, wire)
  {
    var payload :| Spells(payload, event, wire);
    payload
  }

  /** Events that a stream can have accepted bring it to a validator that has. */
  lemma {:induction false} Bring(v: Validator, events: seq<Event>, wire: NestedWire) returns (payloads: seq<Bytes>)
    requires WellFormed(v.ids, events) && Tracks(v, events) && AllSent(events, wire) && wire.opens(v.ids)
    ensures AllCompact(payloads)
    ensures var s := Behind(v.ids.rootTask, v.ids.trace, payloads, wire);
            && Open(s, v.ids.rootTask, v.ids.trace)
            && s.sequence == if events == [] then None else Some(v)
    decreases |events|
  {
    if events == [] {
      payloads := [];
      StartsOpen(v.ids.rootTask, v.ids.trace, wire);
    } else {
      var n := |events| - 1;
      var w := Validator(v.ids, n, Chunks(events[..n]), Complete(events[..n]));
      WellFormedPrefix(v.ids, events, n);
      payloads := Bring(w, events[..n], wire);
      var p := Spelling(events[n], wire);
      BringNext(v, events, w, Behind(v.ids.rootTask, v.ids.trace, payloads, wire), p, wire);
      BehindNext(v.ids.rootTask, v.ids.trace, payloads, p, wire);
      payloads := payloads + [p];
    }
  }

  lemma BringNext(v: Validator, events: seq<Event>, w: Validator, s: Nested, p: Bytes, wire: NestedWire)
    requires events != [] && WellFormed(v.ids, events) && Tracks(v, events) && wire.opens(v.ids)
    requires var n := |events| - 1;
             && w.ids == v.ids && Tracks(w, events[..n]) && Spells(p, events[n], wire) && wire.admits(events[n])
             && Open(s, v.ids.rootTask, v.ids.trace) && s.sequence == if n == 0 then None else Some(w)
    ensures var t := NestedRecv(s, Frame(p), wire).0;
            Open(t, v.ids.rootTask, v.ids.trace) && t.sequence == Some(v)
  {
    var n := |events| - 1;
    var e := events[n];
    WellFormedPrefix(v.ids, events, n);
    assert events[..n] + [e] == events;
    AcceptIff(w, events[..n], e, wire.admits);
    assert Fits(v.ids, events, n);
    if n == 0 {
      RecvOpens(s, p, e, wire);
      assert OpeningIds(s, e) == v.ids && w == NewValidator(v.ids);
    } else {
      RecvAdmits(s, p, e, wire);
    }
  }

  lemma BringHeld(v: Validator, events: seq<Event>, rootTask: Bytes, trace: Bytes, wire: NestedWire)
    returns (payloads: seq<Bytes>)
    requires Held(v, events, rootTask, trace, wire)
    ensures AllCompact(payloads)
    ensures var s := Behind(rootTask, trace, payloads, wire);
            Open(s, rootTask, trace) && s.sequence == Some(v)
  {
    if events == [] {
      var e :| Opens(e, v.ids, wire) && Accept(v, e, wire.admits).None?;
      var p := Spelling(e, wire);
      StartsOpen(rootTask, trace, wire);
      RecvOpens(NestedOpened(rootTask, trace, None), p, e, wire);
      BehindNext(rootTask, trace, [], p, wire);
      payloads := [p];
      assert [] + payloads == payloads;
    } else {
      payloads := Bring(v, events, wire);
    }
  }

  lemma PayloadShows(rootTask: Bytes, trace: Bytes, p: Bytes, wire: NestedWire)
    requires EndIsUnmistakable(rootTask, trace, wire) && IsCompact(p)
    ensures !WalkAccepts(p, wire.json) ==> !Is(wire.walkError(p), EOF)
    ensures WalkAccepts(p, wire.json) && wire.decode(p).None? ==> !Is(wire.decodeError(p), EOF)
  {
    StartsOpen(rootTask, trace, wire);
    if !WalkAccepts(p, wire.json) {
      CauseShows(rootTask, trace, [], Frame(p), "agentsdk: decode SSE event", wire.walkError(p), wire);
    } else if wire.decode(p).None? {
      CauseShows(rootTask, trace, [], Frame(p), "agentsdk: decode SSE event", wire.decodeError(p), wire);
    }
  }

  lemma OpeningShows(rootTask: Bytes, trace: Bytes, e: Event, wire: NestedWire)
    requires EndIsUnmistakable(rootTask, trace, wire) && Sent(e, wire) && e.kind.Accepted?
    ensures var ids := Ids(e.ids.invocation, rootTask, trace); !wire.opens(ids) ==> !Is(wire.opensError(ids), EOF)
  {
    var p, start := Spelling(e, wire), NestedOpened(rootTask, trace, None);
    var ids := OpeningIds(start, e);
    StartsOpen(rootTask, trace, wire);
    if !wire.opens(ids) {
      RecvOpens(start, p, e, wire);
      CauseShows(rootTask, trace, [], Frame(p), Unopened(ids, wire).text, wire.opensError(ids), wire);
    }
  }

  lemma RefusalShows(rootTask: Bytes, trace: Bytes, v: Validator, e: Event, wire: NestedWire)
    requires EndIsUnmistakable(rootTask, trace, wire)
    requires Asked(v, e, rootTask, trace, wire) && Accept(v, e, wire.admits).None?
    ensures !Is(wire.admitsError(v, e), EOF)
  {
    var p, payloads := Spelling(e, wire), [];
    if v == NewValidator(Ids(e.ids.invocation, rootTask, trace)) && Opens(e, v.ids, wire) {
      StartsOpen(rootTask, trace, wire);
      RecvOpens(NestedOpened(rootTask, trace, None), p, e, wire);
    } else {
      var events :| Held(v, events, rootTask, trace, wire);
      payloads := BringHeld(v, events, rootTask, trace, wire);
      RecvAdmits(Behind(rootTask, trace, payloads, wire), p, e, wire);
    }
    CauseShows(rootTask, trace, payloads, Frame(p), Invalid(v, e, wire).text, wire.admitsError(v, e), wire);
  }

  lemma EarlyEndShows(rootTask: Bytes, trace: Bytes, v: Validator, events: seq<Event>, wire: NestedWire)
    requires EndIsUnmistakable(rootTask, trace, wire) && Held(v, events, rootTask, trace, wire) && !v.terminal
    ensures !Is(wire.finishError(v), EOF)
  {
    var payloads := BringHeld(v, events, rootTask, trace, wire);
    CauseShows(rootTask, trace, payloads, FrameEof, Unfinished(v, wire).text, wire.finishError(v), wire);
  }

  /** The stream wraps the errors it is given, so one that is an end of file makes a
      failure look like the end. That is the only way: closing the body, unlike in
      the client's stream, adds nothing to what `Recv` returns. */
  lemma EndIsUnmistakableIff(rootTask: Bytes, trace: Bytes, wire: NestedWire)
    ensures EndIsUnmistakable(rootTask, trace, wire) <==> Harmless(rootTask, trace, wire)
  {
    if Harmless(rootTask, trace, wire) {
      forall body: Bytes, end: End, limit: nat, closeError: Option<Error>, frames: seq<FrameResult> |
        ReadFrom(body, end, limit, frames) && (end.Broken? ==> !Is(end.error, EOF))
        ensures forall r :: r in NestedRun(NestedOpened(rootTask, trace, closeError), RecvCalls(frames), wire).1 ==>
                  TellsTheEnd(r)
      {
        forall frame | frame in frames ensures Fair(frame) {
          var rest :| frame == AgentFrameOf(rest, end, limit);
          FrameIsFair(rest, end, limit);
        }
        HarmlessRunsTellTheEnd(rootTask, trace, closeError, RecvCalls(frames), wire);
      }
    }
    if EndIsUnmistakable(rootTask, trace, wire) {
      UnmistakableIsHarmless(rootTask, trace, wire);
    }
  }

  lemma UnmistakableIsHarmless(rootTask: Bytes, trace: Bytes, wire: NestedWire)
    requires EndIsUnmistakable(rootTask, trace, wire)
    ensures Harmless(rootTask, trace, wire)
  {
    forall p | IsCompact(p)
      ensures !WalkAccepts(p, wire.json) ==> !Is(wire.walkError(p), EOF)
      ensures WalkAccepts(p, wire.json) && wire.decode(p).None? ==> !Is(wire.decodeError(p), EOF)
    {
      PayloadShows(rootTask, trace, p, wire);
    }
    forall e | Sent(e, wire) && e.kind.Accepted?
      ensures var ids := Ids(e.ids.invocation, rootTask, trace); !wire.opens(ids) ==> !Is(wire.opensError(ids), EOF)
    {
      OpeningShows(rootTask, trace, e, wire);
    }
    forall v, e | Asked(v, e, rootTask, trace, wire) && Accept(v, e, wire.admits).None?
      ensures !Is(wire.admitsError(v, e), EOF)
    {
      RefusalShows(rootTask, trace, v, e, wire);
    }
    forall v, events | Held(v, events, rootTask, trace, wire) && !v.terminal ensures !Is(wire.finishError(v), EOF) {
      EarlyEndShows(rootTask, trace, v, events, wire);
    }
  }
}
