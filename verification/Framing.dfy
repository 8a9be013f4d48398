/** The bounded line and frame readers of the two stream clients. */
module Framing {
  import opened Prelude
  import opened JsonLexer
  import opened JsonGrammar
  import opened Errors

  /** What the body reports behind its last byte. `Eof` stands for every error
      that `errors.Is` takes for `io.EOF`. */
  datatype End = Eof | Broken(error: Error)

  // ----- lines -----

  datatype LineResult =
    | Line(bytes: Bytes) | LineEof | LineTruncated | LineTooLong | LineBroken(error: Error)

  /** How many bytes come before the first line feed; all of them if there is none. */
  function FirstNewline(s: Bytes): (n: nat)
    ensures n <= |s|
    ensures forall i :: 0 <= i < n ==> s[i] != '\n'
    ensures n < |s| ==> s[n] == '\n'
  {
    if s == [] || s[0] == '\n' then 0 else 1 + FirstNewline(s[1..])
  }

  /** The size of the first line, its line feed included. */
  function LineSize(s: Bytes): (n: nat)
    ensures n <= |s|
  {
    var n := FirstNewline(s);
    if n < |s| then n + 1 else n
  }

  /** What reading a line means, without a buffer: the bytes up to and including
      the first line feed, unless they are too many or the body ends first. */
  function LineOf(s: Bytes, end: End, limit: int): LineResult {
    if LineSize(s) > limit then LineTooLong
    else if FirstNewline(s) < |s| then Line(s[..LineSize(s)])
    else match end
      case Broken(e) => LineBroken(e)
      case Eof => if s == [] then LineEof else LineTruncated
  }

  datatype Slice = Found(part: Bytes) | Full(part: Bytes) | Ended(part: Bytes)

  /** A buffered reader over a body: the bytes still to come, what the body
      reports behind them, and the size of the buffer. */
  class Reader {
    var rest: Bytes
    const end: End
    const size: nat

    constructor (body: Bytes, end: End, size: nat)
      ensures rest == body && this.end == end && this.size == size
    {
      this.rest, this.end, this.size := body, end, size;
    }

    /** `ReadSlice`: a whole line, or a full buffer without a line feed, or what
        is left when the body ends. A buffer that fills up on the very last byte
        may be reported either way, as the body may end with its last read or
        with the next one. */
    method ReadSlice() returns (slice: Slice)
      modifies this`rest
      ensures slice.part <= old(rest) && rest == old(rest)[|slice.part|..]
      ensures match slice
              case Found(part) => FirstNewline(old(rest)) < |old(rest)|
                                  && |part| == FirstNewline(old(rest)) + 1 && |part| <= size
              case Full(part) => |part| == size && size <= FirstNewline(old(rest))
              case Ended(part) => FirstNewline(old(rest)) == |old(rest)| && |part| == |old(rest)| && |part| <= size
    {
      var n := FirstNewline(rest);
      var k;
      if n < |rest| && n < size {
        k := n + 1;
        slice := Found(rest[..k]);
      } else if size < n || n < |rest| {
        k := size;
        slice := Full(rest[..k]);
      } else {
        var atOnce := n < size;
        if n == size {
          atOnce := *;
        }
        k := n;
        slice := if atOnce then Ended(rest[..k]) else Full(rest[..k]);
      }
      rest := rest[k..];
    }
  }

  lemma {:induction false} FirstNewlineSkip(s: Bytes, k: nat)
    requires k <= FirstNewline(s)
    ensures FirstNewline(s) == k + FirstNewline(s[k..])
  {
    if k > 0 {
      FirstNewlineSkip(s[1..], k - 1);
      assert s[1..][k - 1..] == s[k..];
    }
  }

  lemma SplitAgain(s: Bytes, i: nat, k: nat)
    requires i + k <= |s|
    ensures s[..i] + s[i..][..k] == s[..i + k] && s[i..][k..] == s[i + k..]
  {
  }

  lemma PartTaken(s: Bytes, line: Bytes, rest: Bytes, part: Bytes, after: Bytes)
    requires |line| <= |s| && line == s[..|line|] && rest == s[|line|..]
    requires part <= rest && after == rest[|part|..]
    ensures |line + part| <= |s| && line + part == s[..|line + part|] && after == s[|line + part|..]
    ensures |s| - |after| == |line + part|
  {
  }

  /** Reading has taken `s` to its suffix `rest`, and no more than `most` bytes. */
  predicate TakenAtMost(s: Bytes, rest: Bytes, most: nat) {
    |rest| <= |s| <= |rest| + most && rest == s[|s| - |rest|..]
  }

  /** What reading a line leaves behind, besides its result. */
  predicate LineRead(s: Bytes, rest: Bytes, end: End, limit: nat, size: nat, r: LineResult) {
    && r == LineOf(s, end, limit)
    && TakenAtMost(s, rest, limit + size)
    && (r.Line? ==> rest == s[|r.bytes|..])
    && (r.LineEof? ==> rest == [])
  }

  lemma StopsLong(s: Bytes, line: Bytes, rest: Bytes, end: End, limit: nat, size: nat)
    requires limit < |line| <= limit + size && |line| <= LineSize(s) && rest == s[|line|..]
    ensures LineRead(s, rest, end, limit, size, LineTooLong)
  {
  }

  lemma StopsAtLine(s: Bytes, line: Bytes, rest: Bytes, end: End, limit: nat, size: nat)
    requires |line| == LineSize(s) <= limit && FirstNewline(s) < |s| && line == s[..|line|] && rest == s[|line|..]
    ensures LineRead(s, rest, end, limit, size, Line(line))
  {
  }

  lemma StopsAtEnd(s: Bytes, end: End, limit: nat, size: nat)
    requires |s| == FirstNewline(s) <= limit
    ensures LineRead(s, [], end, limit, size, LineOf(s, end, limit))
  {
  }

  /** `readSSELine`. Whatever the size of the buffer, the result is the one
      `LineOf` gives, and neither the line held nor the bytes taken from the body
      ever exceed the limit by more than one buffer, however long the input. */
  method ReadSseLine(reader: Reader, limit: nat) returns (r: LineResult)
    requires reader.size > 0
    modifies reader`rest
    ensures LineRead(old(reader.rest), reader.rest, reader.end, limit, reader.size, r)
  {
    ghost var s := reader.rest;
    var line: Bytes := [];
    while true
      invariant |line| <= limit && |line| <= FirstNewline(s)
      invariant line == s[..|line|] && reader.rest == s[|line|..]
      decreases limit - |line|
    {
      FirstNewlineSkip(s, |line|);
      ghost var rest := reader.rest;
      var slice := reader.ReadSlice();
      PartTaken(s, line, rest, slice.part, reader.rest);
      line := line + slice.part;
      if |line| > limit {
        StopsLong(s, line, reader.rest, reader.end, limit, reader.size);
        return LineTooLong;
      }
      match slice
      case Found(_) =>
        StopsAtLine(s, line, reader.rest, reader.end, limit, reader.size);
        return Line(line);
      case Full(_) =>
      case Ended(_) =>
        StopsAtEnd(s, reader.end, limit, reader.size);
        match reader.end
        case Eof => return if line == [] then LineEof else LineTruncated;
        case Broken(e) => return LineBroken(e);
    }
  }

  // ----- frames -----

  datatype Fault =
    | BadLine(line: LineResult) | NotOneDataLine | NoBlankLine | FrameTooLarge | EmptyPayload | NotCompact

  datatype FrameResult = Frame(payload: Bytes) | FrameEof | FrameError(fault: Fault)

  const FIELD: Bytes := "data: "
  const BLANK: Bytes := "\n"

  predicate IsDataLine(line: Bytes) {
    && FIELD <= line
    && '\r' !in line
    && |line| >= |FIELD| + 1
    && line[|line| - 1] == '\n'
  }

  function Payload(line: Bytes): Bytes
    requires IsDataLine(line)
  {
    line[|FIELD|..|line| - 1]
  }

  datatype DataLine = Carried(payload: Bytes) | Ends(r: FrameResult)

  /** The two lines of a frame, before their payload is judged. */
  function DataLineOf(s: Bytes, end: End, limit: nat): DataLine {
    match LineOf(s, end, limit)
    case LineEof => Ends(FrameEof)
    case Line(line) =>
      if !IsDataLine(line) then Ends(FrameError(NotOneDataLine))
      else if LineOf(s[|line|..], end, limit) != Line(BLANK) then Ends(FrameError(NoBlankLine))
      else Carried(Payload(line))
    case other => Ends(FrameError(BadLine(other)))
  }

  /** The bytes of a frame around its payload: the field, and two line feeds. */
  const FRAMING := |FIELD| + 2

  /** The client package tests the size first. */
  function Judge(payload: Bytes, limit: nat): FrameResult {
    if |payload| + FRAMING > limit then FrameError(FrameTooLarge)
    else if payload == [] then FrameError(EmptyPayload)
    else if !IsCompact(payload) then FrameError(NotCompact)
    else Frame(payload)
  }

  /** The agent package tests the size last. */
  function AgentJudge(payload: Bytes, limit: nat): FrameResult {
    if payload == [] then FrameError(EmptyPayload)
    else if !IsCompact(payload) then FrameError(NotCompact)
    else if |payload| + FRAMING > limit then FrameError(FrameTooLarge)
    else Frame(payload)
  }

  function FrameOf(s: Bytes, end: End, limit: nat): FrameResult {
    match DataLineOf(s, end, limit)
    case Carried(payload) => Judge(payload, limit)
    case Ends(r) => r
  }

  function AgentFrameOf(s: Bytes, end: End, limit: nat): FrameResult {
    match DataLineOf(s, end, limit)
    case Carried(payload) => AgentJudge(payload, limit)
    case Ends(r) => r
  }

  lemma LineTaken(s: Bytes, end: End, limit: nat)
    ensures var r := LineOf(s, end, limit);
            && (r.Line? ==> |r.bytes| <= |s| && r.bytes == s[..|r.bytes|])
            && (r.LineEof? ==> s == [])
  {
  }

  /** The two lines of a frame, which both packages read and test alike: on
      success, they have taken the payload and its framing and nothing more. */
  method ReadTwoLines(reader: Reader, limit: nat) returns (data: DataLine)
    requires reader.size > 0
    modifies reader`rest
    ensures data == DataLineOf(old(reader.rest), reader.end, limit)
    ensures data.Carried? ==> |data.payload| + FRAMING <= |old(reader.rest)|
                              && reader.rest == old(reader.rest)[|data.payload| + FRAMING..]
    ensures data.Ends? ==> !data.r.Frame? && (data.r.FrameEof? ==> old(reader.rest) == reader.rest == [])
  {
    ghost var s := reader.rest;
    var first := ReadSseLine(reader, limit);
    LineTaken(s, reader.end, limit);
    if first.LineEof? {
      return Ends(FrameEof);
    }
    if !first.Line? {
      return Ends(FrameError(BadLine(first)));
    }
    var line := first.bytes;
    if !IsDataLine(line) {
      return Ends(FrameError(NotOneDataLine));
    }
    ghost var t := reader.rest;
    var blank := ReadSseLine(reader, limit);
    LineTaken(t, reader.end, limit);
    if blank != Line(BLANK) {
      return Ends(FrameError(NoBlankLine));
    }
    SplitAgain(s, |line|, |BLANK|);
    assert |Payload(line)| + FRAMING == |line| + |BLANK|;
    return Carried(Payload(line));
  }

  /** `readSSEFrame` of the client package. */
  method ReadSseFrame(reader: Reader, limit: nat) returns (r: FrameResult)
    requires reader.size > 0
    modifies reader`rest
    ensures r == FrameOf(old(reader.rest), reader.end, limit)
    ensures r.Frame? ==> |r.payload| + FRAMING <= |old(reader.rest)|
                         && reader.rest == old(reader.rest)[|r.payload| + FRAMING..]
    ensures r.FrameEof? ==> old(reader.rest) == reader.rest == []
  {
    var data := ReadTwoLines(reader, limit);
    if data.Ends? {
      return data.r;
    }
    var payload := data.payload;
    if |payload| + FRAMING > limit {
      return FrameError(FrameTooLarge);
    }
    if |payload| == 0 {
      return FrameError(EmptyPayload);
    }
    var compact := Compact(payload);
    if compact != Some(payload) {
      return FrameError(NotCompact);
    }
    return Frame(payload);
  }

  /** `readSSEFrame` of the agent package. */
  method AgentReadSseFrame(reader: Reader, limit: nat) returns (r: FrameResult)
    requires reader.size > 0
    modifies reader`rest
    ensures r == AgentFrameOf(old(reader.rest), reader.end, limit)
    ensures r.Frame? ==> |r.payload| + FRAMING <= |old(reader.rest)|
                         && reader.rest == old(reader.rest)[|r.payload| + FRAMING..]
    ensures r.FrameEof? ==> old(reader.rest) == reader.rest == []
  {
    var data := ReadTwoLines(reader, limit);
    if data.Ends? {
      return data.r;
    }
    var payload := data.payload;
    if |payload| == 0 {
      return FrameError(EmptyPayload);
    }
    var compact := Compact(payload);
    if compact != Some(payload) {
      return FrameError(NotCompact);
    }
    if |payload| + FRAMING > limit {
      return FrameError(FrameTooLarge);
    }
    return Frame(payload);
  }

  /** The two frame readers accept the same streams with the same payloads, and
      tell a clean end alike; only what they call a refusal can differ. */
  lemma ReadersAgree(s: Bytes, end: End, limit: nat)
    ensures FrameOf(s, end, limit).FrameError? <==> AgentFrameOf(s, end, limit).FrameError?
    ensures !FrameOf(s, end, limit).FrameError? ==> FrameOf(s, end, limit) == AgentFrameOf(s, end, limit)
    ensures FrameOf(s, end, limit) != AgentFrameOf(s, end, limit) ==>
              FrameOf(s, end, limit) == FrameError(FrameTooLarge)
  {
  }

  // ----- framing is a bijection -----

  function FrameText(payload: Bytes): Bytes {
    FIELD + payload + "\n\n"
  }

  function Frames(payloads: seq<Bytes>): Bytes {
    if payloads == [] then [] else FrameText(payloads[0]) + Frames(payloads[1..])
  }

  /** A payload that a server may send under `limit`. */
  predicate Sendable(payload: Bytes, limit: nat) {
    IsCompact(payload) && |payload| + FRAMING <= limit
  }

  predicate AllSendable(payloads: seq<Bytes>, limit: nat) {
    forall p :: p in payloads ==> Sendable(p, limit)
  }

  /** What it takes to start with a frame, byte by byte. */
  predicate StartsWithFrame(s: Bytes, payload: Bytes) {
    && |payload| + FRAMING <= |s|
    && FIELD <= s
    && s[|FIELD|..|FIELD| + |payload|] == payload
    && s[|FIELD| + |payload|] == '\n'
    && s[|FIELD| + |payload| + 1] == '\n'
  }

  lemma FrameTextShape(payload: Bytes, s: Bytes)
    ensures FrameText(payload) <= s <==> StartsWithFrame(s, payload)
  {
    var n := |FIELD| + |payload|;
    assert |FrameText(payload)| == n + 2;
    if n + 2 <= |s| {
      assert s[..n + 2] == s[..|FIELD|] + s[|FIELD|..n] + [s[n], s[n + 1]];
      assert FrameText(payload)[..|FIELD|] == FIELD && FrameText(payload)[|FIELD|..n] == payload;
    }
  }

  /** A line that ends where its payload and one line feed say. */
  lemma DataLineRead(s: Bytes, payload: Bytes)
    requires StartsWithFrame(s, payload) && Printable(payload)
    ensures FirstNewline(s) == |FIELD| + |payload|
    ensures IsDataLine(s[..|FIELD| + |payload| + 1]) && Payload(s[..|FIELD| + |payload| + 1]) == payload
  {
    var n := |FIELD| + |payload|;
    assert s[..n] == FIELD + payload;
    assert Printable(FIELD + payload);
    assert forall i :: 0 <= i < n ==> s[i] == s[..n][i];
    assert FirstNewline(s) == n;
    assert s[..n + 1] == FIELD + payload + ['\n'];
  }

  lemma BlankLineRead(s: Bytes, end: End, limit: nat)
    requires limit >= 1
    ensures LineOf(s, end, limit) == Line(BLANK) <==> s != [] && s[0] == '\n'
  {
    if s != [] && s[0] == '\n' {
      assert FirstNewline(s) == 0;
      assert s[..1] == BLANK;
    }
    if LineOf(s, end, limit) == Line(BLANK) {
      assert s[..LineSize(s)][0] == s[0];
    }
  }

  lemma FrameReads(s: Bytes, end: End, limit: nat, payload: Bytes)
    requires Sendable(payload, limit) && StartsWithFrame(s, payload)
    ensures FrameOf(s, end, limit) == Frame(payload)
  {
    CompactPrintable(payload);
    DataLineRead(s, payload);
    var n := |FIELD| + |payload| + 1;
    BlankLineRead(s[n..], end, limit);
    assert LineOf(s, end, limit) == Line(s[..n]);
  }

  lemma FrameWasThere(s: Bytes, end: End, limit: nat, payload: Bytes)
    requires FrameOf(s, end, limit) == Frame(payload)
    ensures Sendable(payload, limit) && StartsWithFrame(s, payload)
  {
    var n := LineSize(s);
    var line := s[..n];
    assert LineOf(s, end, limit) == Line(line);
    assert Payload(line) == payload && |payload| + FRAMING <= limit;
    BlankLineRead(s[n..], end, limit);
    assert s[n..][0] == s[n];
    assert line[|FIELD|..n - 1] == s[|FIELD|..n - 1];
  }

  /** One frame is read exactly when a sendable payload's frame comes next. */
  lemma FrameOfIff(s: Bytes, end: End, limit: nat, payload: Bytes)
    ensures FrameOf(s, end, limit) == Frame(payload) <==> Sendable(payload, limit) && FrameText(payload) <= s
  {
    FrameTextShape(payload, s);
    if FrameOf(s, end, limit) == Frame(payload) {
      FrameWasThere(s, end, limit, payload);
    }
    if Sendable(payload, limit) && FrameText(payload) <= s {
      FrameReads(s, end, limit, payload);
    }
  }

  lemma FrameFits(s: Bytes, end: End, limit: nat, payload: Bytes)
    requires FrameOf(s, end, limit) == Frame(payload)
    ensures |payload| + FRAMING <= |s|
  {
    FrameWasThere(s, end, limit, payload);
  }

  /** All frames up to the first that is none. */
  function ReadAll(s: Bytes, end: End, limit: nat): (r: (seq<Bytes>, FrameResult))
    decreases |s|
  {
    match FrameOf(s, end, limit)
    case Frame(payload) =>
      FrameFits(s, end, limit, payload);
      var (payloads, last) := ReadAll(s[|payload| + FRAMING..], end, limit);
      ([payload] + payloads, last)
    case other => ([], other)
  }

  lemma EndReads(s: Bytes, end: End, limit: nat)
    ensures FrameOf(s, end, limit) == FrameEof <==> s == [] && end == Eof
  {
  }

  lemma FramesSplit(s: Bytes, payloads: seq<Bytes>, limit: nat)
    requires payloads != []
    ensures s == Frames(payloads) && AllSendable(payloads, limit) <==>
            && Sendable(payloads[0], limit) && FrameText(payloads[0]) <= s
            && s[|payloads[0]| + FRAMING..] == Frames(payloads[1..]) && AllSendable(payloads[1..], limit)
  {
    var head := FrameText(payloads[0]);
    assert |head| == |payloads[0]| + FRAMING;
    if head <= s {
      assert s == head + s[|head|..];
    }
    assert payloads == [payloads[0]] + payloads[1..];
  }

  lemma ReadSplit(s: Bytes, end: End, limit: nat, payloads: seq<Bytes>)
    requires payloads != []
    ensures ReadAll(s, end, limit) == (payloads, FrameEof) <==>
            && FrameOf(s, end, limit) == Frame(payloads[0]) && |payloads[0]| + FRAMING <= |s|
            && ReadAll(s[|payloads[0]| + FRAMING..], end, limit) == (payloads[1..], FrameEof)
  {
    if FrameOf(s, end, limit).Frame? {
      FrameFits(s, end, limit, FrameOf(s, end, limit).payload);
    }
    assert payloads == [payloads[0]] + payloads[1..];
  }

  /** Reading to a clean end returns exactly the payloads whose frames the stream
      is made of: reading undoes framing, and nothing else reads cleanly. */
  lemma {:induction false} FramingBijection(s: Bytes, end: End, limit: nat, payloads: seq<Bytes>)
    ensures ReadAll(s, end, limit) == (payloads, FrameEof)
       <==> end == Eof && s == Frames(payloads) && AllSendable(payloads, limit)
    decreases |payloads|
  {
    if payloads == [] {
      EndReads(s, end, limit);
      if FrameOf(s, end, limit).Frame? {
        FrameOfIff(s, end, limit, FrameOf(s, end, limit).payload);
      }
    } else {
      ReadSplit(s, end, limit, payloads);
      FramesSplit(s, payloads, limit);
      FrameOfIff(s, end, limit, payloads[0]);
      if FrameText(payloads[0]) <= s {
        FramingBijection(s[|payloads[0]| + FRAMING..], end, limit, payloads[1..]);
      }
    }
  }
}
