/** The agent's result stream over one body: until its first error it hands out
    the body's frames, and a clean end means the body is exactly those. */
module AgentBody {
  import opened Prelude
  import opened Errors
  import opened Framing
  import opened ResultEvents
  import opened Session
  import opened AgentStream

  // ----- what a body yields -----

  function Payloads(frames: seq<FrameResult>): seq<Bytes> {
    if frames == [] then []
    else
      var n := |frames| - 1;
      Payloads(frames[..n]) + (if frames[n].Frame? then [frames[n].payload] else [])
  }

  predicate Unbroken(frames: seq<FrameResult>) {
    forall i :: 0 <= i < |frames| ==> !frames[i].FrameError?
  }

  /** The bytes that frames in front take. */
  function Taken(frames: seq<FrameResult>): nat {
    |Frames(Payloads(frames))|
  }

  /** What the reader returns somewhere. */
  ghost predicate FoundSomewhere(frame: FrameResult, end: End, limit: nat) {
    exists rest :: frame == AgentFrameOf(rest, end, limit)
  }

  /** Up to the first error, each frame is what the reader finds behind the ones
      before it; behind an error the reader may stand anywhere. */
  ghost predicate ReadFrom(body: Bytes, end: End, limit: nat, frames: seq<FrameResult>) {
    && (forall frame :: frame in frames ==> FoundSomewhere(frame, end, limit))
    && (forall i :: 0 <= i < |frames| && Unbroken(frames[..i]) ==>
          Taken(frames[..i]) <= |body| && frames[i] == AgentFrameOf(body[Taken(frames[..i])..], end, limit))
  }

  function RecvCalls(frames: seq<FrameResult>): (calls: seq<NestedCall>)
    ensures |calls| == |frames|
  {
    seq(|frames|, i requires 0 <= i < |frames| => NestedRecvCall(frames[i]))
  }

  predicate Failed(reply: Reply) {
    reply.Got? && reply.received.Faulted?
  }

  predicate NoneFailed(replies: seq<Reply>) {
    forall i :: 0 <= i < |replies| ==> !Failed(replies[i])
  }

  // ----- what is handed out -----

  /** The events so far are the payloads so far, and the rest is still unread. */
  predicate HandsOutPayloads(s: Nested, body: Bytes, end: End, payloads: seq<Bytes>, wire: NestedWire) {
    && !s.closed
    && Frames(payloads) <= body
    && |payloads| == |s.delivered|
    && (forall i :: 0 <= i < |payloads| ==> wire.decode(payloads[i]) == Some(s.delivered[i]))
    && (s.finished ==> body == Frames(payloads) && end == Eof)
  }

  predicate HandsOutFrames(s: Nested, body: Bytes, end: End, frames: seq<FrameResult>, wire: NestedWire) {
    Unbroken(frames) && HandsOutPayloads(s, body, end, Payloads(frames), wire)
  }

  lemma AgentFrameIff(s: Bytes, end: End, limit: nat, payload: Bytes)
    ensures AgentFrameOf(s, end, limit) == Frame(payload) ==> FrameText(payload) <= s
    ensures AgentFrameOf(s, end, limit) == FrameEof <==> s == [] && end == Eof
  {
    ReadersAgree(s, end, limit);
    FrameOfIff(s, end, limit, payload);
    EndReads(s, end, limit);
  }

  lemma FramesGrow(body: Bytes, payloads: seq<Bytes>, payload: Bytes)
    requires Frames(payloads) <= body && FrameText(payload) <= body[|Frames(payloads)|..]
    ensures Frames(payloads + [payload]) <= body
  {
    var n, m := |Frames(payloads)|, |FrameText(payload)|;
    FramesAppend(payloads, payload);
    assert body[..n + m] == body[..n] + body[n..][..m];
  }

  lemma PayloadsGrow(frames: seq<FrameResult>, frame: FrameResult)
    ensures Payloads(frames + [frame]) == Payloads(frames) + (if frame.Frame? then [frame.payload] else [])
    ensures Unbroken(frames + [frame]) <==> Unbroken(frames) && !frame.FrameError?
  {
    assert (frames + [frame])[..|frames|] == frames;
    assert forall i :: 0 <= i < |frames| ==> (frames + [frame])[i] == frames[i];
  }

  /** One `Recv` that does not fail hands out its frame's event, or ends. */
  lemma UnfailedRecv(s: Nested, frame: FrameResult, wire: NestedWire)
    requires !s.closed && !NestedRecv(s, frame, wire).1.Faulted?
    ensures var t := NestedRecv(s, frame, wire).0;
            && !t.closed
            && (s.finished ==> t == s)
            && (!s.finished ==> match frame
                case FrameEof => t.finished && t.delivered == s.delivered
                case FrameError(_) => false
                case Frame(payload) =>
                  && !t.finished && wire.decode(payload).Some?
                  && t.delivered == s.delivered + [wire.decode(payload).value])
  {
  }

  lemma HandsOutNext(s: Nested, body: Bytes, end: End, limit: nat, payloads: seq<Bytes>, frame: FrameResult,
                     wire: NestedWire)
    requires HandsOutPayloads(s, body, end, payloads, wire)
    requires frame == AgentFrameOf(body[|Frames(payloads)|..], end, limit)
    requires !NestedRecv(s, frame, wire).1.Faulted?
    ensures !frame.FrameError?
    ensures HandsOutPayloads(NestedRecv(s, frame, wire).0, body, end,
                             payloads + (if frame.Frame? then [frame.payload] else []), wire)
  {
    var rest := body[|Frames(payloads)|..];
    assert body == Frames(payloads) + rest;
    AgentFrameIff(rest, end, limit, if frame.Frame? then frame.payload else []);
    UnfailedRecv(s, frame, wire);
    if s.finished || frame.FrameEof? {
      assert frame.FrameEof? && payloads + [] == payloads;
      assert rest == [];
    } else {
      FramesGrow(body, payloads, frame.payload);
      HandsOutPayload(payloads, s.delivered, frame.payload, wire);
    }
  }

  lemma HandsOutPayload(payloads: seq<Bytes>, events: seq<Event>, payload: Bytes, wire: NestedWire)
    requires |payloads| == |events| && wire.decode(payload).Some?
    requires forall i :: 0 <= i < |payloads| ==> wire.decode(payloads[i]) == Some(events[i])
    ensures forall i :: 0 <= i < |payloads + [payload]| ==>
              wire.decode((payloads + [payload])[i]) == Some((events + [wire.decode(payload).value])[i])
  {
  }

  lemma ReadFromPrefix(body: Bytes, end: End, limit: nat, frames: seq<FrameResult>, n: nat)
    requires ReadFrom(body, end, limit, frames) && n <= |frames|
    ensures ReadFrom(body, end, limit, frames[..n])
  {
    assert forall i :: 0 <= i < n ==> frames[..n][..i] == frames[..i] && frames[..n][i] == frames[i];
  }

  lemma LastReceive(s: Nested, frames: seq<FrameResult>, wire: NestedWire)
    requires frames != []
    ensures var n := |frames| - 1;
            var (t, replies) := NestedRun(s, RecvCalls(frames[..n]), wire);
            var (u, r) := NestedRecv(t, frames[n], wire);
            NestedRun(s, RecvCalls(frames), wire) == (u, replies + [Got(r)])
  {
    var n := |frames| - 1;
    assert RecvCalls(frames)[..n] == RecvCalls(frames[..n]);
  }

  lemma NoneFailedSplits(replies: seq<Reply>, reply: Reply)
    ensures NoneFailed(replies + [reply]) <==> NoneFailed(replies) && !Failed(reply)
  {
    assert (replies + [reply])[|replies|] == reply;
    assert forall i :: 0 <= i < |replies| ==> (replies + [reply])[i] == replies[i];
  }

  lemma {:induction false} HandsOut(
      s: Nested, body: Bytes, end: End, limit: nat, frames: seq<FrameResult>, wire: NestedWire)
    requires HandsOutFrames(s, body, end, [], wire) && ReadFrom(body, end, limit, frames)
    requires NoneFailed(NestedRun(s, RecvCalls(frames), wire).1)
    ensures HandsOutFrames(NestedRun(s, RecvCalls(frames), wire).0, body, end, frames, wire)
  {
    if frames == [] {
      assert RecvCalls(frames) == [];
    } else {
      var n := |frames| - 1;
      var before := NestedRun(s, RecvCalls(frames[..n]), wire);
      LastReceive(s, frames, wire);
      NoneFailedSplits(before.1, Got(NestedRecv(before.0, frames[n], wire).1));
      ReadFromPrefix(body, end, limit, frames, n);
      HandsOut(s, body, end, limit, frames[..n], wire);
      HandsOutLast(before.0, body, end, limit, frames, wire);
    }
  }

  lemma ReadFromAt(body: Bytes, end: End, limit: nat, frames: seq<FrameResult>, n: nat)
    requires ReadFrom(body, end, limit, frames) && n < |frames| && Unbroken(frames[..n])
    ensures Taken(frames[..n]) <= |body| && frames[n] == AgentFrameOf(body[Taken(frames[..n])..], end, limit)
  {
  }

  lemma HandsOutLast(t: Nested, body: Bytes, end: End, limit: nat, frames: seq<FrameResult>, wire: NestedWire)
    requires frames != [] && ReadFrom(body, end, limit, frames)
    requires var n := |frames| - 1;
             HandsOutFrames(t, body, end, frames[..n], wire) && !NestedRecv(t, frames[n], wire).1.Faulted?
    ensures HandsOutFrames(NestedRecv(t, frames[|frames| - 1], wire).0, body, end, frames, wire)
  {
    var n := |frames| - 1;
    ReadFromAt(body, end, limit, frames, n);
    HandsOutNext(t, body, end, limit, Payloads(frames[..n]), frames[n], wire);
    UnbrokenLast(frames);
  }

  lemma UnbrokenLast(frames: seq<FrameResult>)
    requires frames != []
    ensures Unbroken(frames) <==> Unbroken(frames[..|frames| - 1]) && !frames[|frames| - 1].FrameError?
  {
  }

  /** As long as no `Recv` has failed, the events handed out are what the body's
      first frames decode to, one for one; and when the end has been reported, the
      body is those frames and nothing else. */
  ghost predicate Faithful(body: Bytes, end: End, replies: seq<Reply>, wire: NestedWire) {
    NoneFailed(replies) ==>
      exists payloads ::
        && Frames(payloads) <= body
        && |payloads| == |EventsOf(replies)|
        && (forall i :: 0 <= i < |payloads| ==> wire.decode(payloads[i]) == Some(EventsOf(replies)[i]))
        && (Got(EndOfStream) in replies ==> body == Frames(payloads) && end == Eof)
  }

  lemma EventsAreFrames(body: Bytes, end: End, limit: nat, frames: seq<FrameResult>, rootTask: Bytes, trace: Bytes,
                        closeError: Option<Error>, wire: NestedWire)
    requires ReadFrom(body, end, limit, frames)
    ensures Faithful(body, end, NestedRun(NestedOpened(rootTask, trace, closeError), RecvCalls(frames), wire).1, wire)
  {
    var start := NestedOpened(rootTask, trace, closeError);
    var (s, replies) := NestedRun(start, RecvCalls(frames), wire);
    if NoneFailed(replies) {
      HandsOut(start, body, end, limit, frames, wire);
      NestedRunReports(start, RecvCalls(frames), wire);
      assert [] + EventsOf(replies) == EventsOf(replies);
      assert Frames(Payloads(frames)) <= body;
    }
  }

  // ----- the object over a body -----

  predicate AtFrame(body: Bytes, rest: Bytes, frames: seq<FrameResult>) {
    Unbroken(frames) ==> Taken(frames) <= |body| && rest == body[Taken(frames)..]
  }

  lemma ReadFromGrows(body: Bytes, end: End, limit: nat, frames: seq<FrameResult>, rest: Bytes, frame: FrameResult)
    requires ReadFrom(body, end, limit, frames) && AtFrame(body, rest, frames)
    requires frame == AgentFrameOf(rest, end, limit)
    ensures ReadFrom(body, end, limit, frames + [frame])
  {
    var all, n := frames + [frame], |frames|;
    forall i | 0 <= i < |all| && Unbroken(all[..i])
      ensures Taken(all[..i]) <= |body| && all[i] == AgentFrameOf(body[Taken(all[..i])..], end, limit)
    {
      assert all[..i] == frames[..i];
      if i == n {
        assert frames[..i] == frames;
      }
    }
  }

  lemma AtNextFrame(body: Bytes, rest: Bytes, frames: seq<FrameResult>, frame: FrameResult, after: Bytes)
    requires AtFrame(body, rest, frames)
    requires frame.Frame? ==> |frame.payload| + FRAMING <= |rest| && after == rest[|frame.payload| + FRAMING..]
    requires frame.FrameEof? ==> after == rest
    ensures AtFrame(body, after, frames + [frame])
  {
    PayloadsGrow(frames, frame);
    if frame.Frame? {
      FramesAppend(Payloads(frames), frame.payload);
    } else {
      assert Payloads(frames) + [] == Payloads(frames);
    }
  }

  /** Where a stream that only receives stands, as far as its body goes. */
  ghost predicate InPlace(s: Nested, body: Bytes, end: End, limit: nat, rest: Bytes, frames: seq<FrameResult>) {
    && !s.closed && (s.finished ==> rest == [] && end == Eof)
    && ReadFrom(body, end, limit, frames) && AtFrame(body, rest, frames)
  }

  lemma NextInPlace(s: Nested, body: Bytes, end: End, limit: nat, rest: Bytes, frames: seq<FrameResult>, after: Bytes,
                    wire: NestedWire)
    requires InPlace(s, body, end, limit, rest, frames)
    requires var frame := AgentFrameOf(rest, end, limit);
             && (s.finished ==> after == rest)
             && (!s.finished && frame.Frame? ==>
                   |frame.payload| + FRAMING <= |rest| && after == rest[|frame.payload| + FRAMING..])
             && (!s.finished && frame.FrameEof? ==> rest == after == [])
    ensures var frame := AgentFrameOf(rest, end, limit);
            InPlace(NestedRecv(s, frame, wire).0, body, end, limit, after, frames + [frame])
  {
    var frame := AgentFrameOf(rest, end, limit);
    AgentFrameIff(rest, end, limit, []);
    ReadFromGrows(body, end, limit, frames, rest, frame);
    AtNextFrame(body, rest, frames, frame, after);
    RecvLeavesOpen(s, frame, wire);
  }

  lemma RecvLeavesOpen(s: Nested, frame: FrameResult, wire: NestedWire)
    ensures var t := NestedRecv(s, frame, wire).0;
            t.closed == s.closed && (t.finished ==> s.finished || frame.FrameEof?)
  {
  }

  /** A caller that receives `n` times, errors or not. */
  method ReceiveAll(stream: NestedResultStream, n: nat) returns (replies: seq<Reply>, ghost frames: seq<FrameResult>)
    requires stream.reader.size > 0 && !stream.closed && !stream.finished
    modifies stream, stream.reader`rest
    ensures ReadFrom(old(stream.reader.rest), stream.reader.end, stream.eventLimit, frames)
    ensures (stream.Value(), replies) == NestedRun(old(stream.Value()), RecvCalls(frames), stream.wire)
  {
    ghost var start, body := stream.Value(), stream.reader.rest;
    replies, frames := [], [];
    for i := 0 to n
      invariant InPlace(stream.Value(), body, stream.reader.end, stream.eventLimit, stream.reader.rest, frames)
      invariant (stream.Value(), replies) == NestedRun(start, RecvCalls(frames), stream.wire)
    {
      ghost var s, rest := stream.Value(), stream.reader.rest;
      ghost var frame := AgentFrameOf(rest, stream.reader.end, stream.eventLimit);
      var r := stream.Recv();
      NextInPlace(s, body, stream.reader.end, stream.eventLimit, rest, frames, stream.reader.rest, stream.wire);
      NextReceive(start, frames, frame, stream.wire, s, replies, stream.Value(), r);
      frames, replies := frames + [frame], replies + [Got(r)];
    }
  }

  lemma NextReceive(start: Nested, frames: seq<FrameResult>, frame: FrameResult, wire: NestedWire,
                    s: Nested, replies: seq<Reply>, t: Nested, r: Received)
    requires (s, replies) == NestedRun(start, RecvCalls(frames), wire) && (t, r) == NestedRecv(s, frame, wire)
    ensures (t, replies + [Got(r)]) == NestedRun(start, RecvCalls(frames + [frame]), wire)
  {
    LastReceive(start, frames + [frame], wire);
    assert (frames + [frame])[..|frames|] == frames;
  }

  /** A stream opened over a body through a buffer of any size is faithful to it. */
  method OpenAndReceive(body: Bytes, end: End, size: nat, limit: nat, rootTask: Bytes, trace: Bytes,
                        closeError: Option<Error>, wire: NestedWire, n: nat)
    returns (replies: seq<Reply>)
    requires size > 0
    ensures Faithful(body, end, replies, wire)
  {
    var reader := new Reader(body, end, size);
    var stream := new NestedResultStream(reader, limit, rootTask, trace, closeError, wire);
    ghost var frames;
    replies, frames := ReceiveAll(stream, n);
    EventsAreFrames(body, end, limit, frames, rootTask, trace, closeError, wire);
  }
}
