/** The general way to read an event stream (sections 9.2.5 and 9.2.6 of the
    WHATWG HTML Standard), and the proof that the strict reader's streams mean
    the same to it. Bytes are kept as they are: UTF-8 decoding is not modelled. */
module EventSource {
  import opened Prelude
  import opened JsonLexer
  import opened JsonGrammar
  import opened Framing

  // ----- lines -----

  /** How many bytes come before the first line feed or carriage return. */
  function LineEnd(s: Bytes): (n: nat)
    ensures n <= |s|
    ensures forall i :: 0 <= i < n ==> s[i] != '\n' && s[i] != '\r'
    ensures n < |s| ==> s[n] == '\n' || s[n] == '\r'
  {
    if s == [] || s[0] == '\n' || s[0] == '\r' then 0 else 1 + LineEnd(s[1..])
  }

  /** The size of the line terminator at `n`: two for a carriage return with a
      line feed behind it, one for either alone. */
  function TerminatorSize(s: Bytes, n: nat): (k: nat)
    requires n < |s|
    ensures 1 <= k && n + k <= |s|
  {
    if s[n] == '\r' && n + 1 < |s| && s[n + 1] == '\n' then 2 else 1
  }

  const BYTE_ORDER_MARK: Bytes := "\U{EF}\U{BB}\U{BF}"

  // ----- interpreting -----

  datatype Dispatched = Event(kind: Bytes, data: Bytes)

  /** The data buffer and the event type buffer. */
  datatype Buffers = Buffers(data: Bytes, kind: Bytes)

  const EMPTY := Buffers([], [])

  function Colon(line: Bytes): (n: nat)
    ensures n <= |line|
    ensures forall i :: 0 <= i < n ==> line[i] != ':'
    ensures n < |line| ==> line[n] == ':'
  {
    if line == [] || line[0] == ':' then 0 else 1 + Colon(line[1..])
  }

  function FieldValue(line: Bytes): Bytes {
    var n := Colon(line);
    if n == |line| then []
    else if n + 1 < |line| && line[n + 1] == ' ' then line[n + 2..]
    else line[n + 1..]
  }

  /** One line that is not blank. A line that starts with a colon is a comment;
      `id`, `retry` and unknown fields leave both buffers alone. */
  function Field(line: Bytes, buffers: Buffers): Buffers {
    var name := line[..Colon(line)];
    if name == "data" then buffers.(data := buffers.data + FieldValue(line) + "\n")
    else if name == "event" then buffers.(kind := FieldValue(line))
    else buffers
  }

  /** A blank line: nothing without data, else an event without the last line feed. */
  function Dispatch(buffers: Buffers): seq<Dispatched> {
    if buffers.data == [] then []
    else
      var n := |buffers.data| - 1;
      [Event(if buffers.kind == [] then "message" else buffers.kind,
             if buffers.data[n] == '\n' then buffers.data[..n] else buffers.data)]
  }

  /** The events of the complete lines of `s`; what is pending at the end is dropped. */
  function Interpret(s: Bytes, buffers: Buffers): seq<Dispatched>
    decreases |s|
  {
    var n := LineEnd(s);
    if n == |s| then []
    else
      var rest := s[n + TerminatorSize(s, n)..];
      if n == 0 then Dispatch(buffers) + Interpret(rest, EMPTY)
      else Interpret(rest, Field(s[..n], buffers))
  }

  /** A leading byte order mark is dropped before the stream is interpreted. */
  function Events(s: Bytes): seq<Dispatched> {
    Interpret(if BYTE_ORDER_MARK <= s then s[3..] else s, EMPTY)
  }

  // ----- strict streams mean the same -----

  function Messages(payloads: seq<Bytes>): seq<Dispatched> {
    if payloads == [] then [] else [Event("message", payloads[0])] + Messages(payloads[1..])
  }

  lemma DataField(payload: Bytes)
    ensures Field(FIELD + payload, EMPTY) == Buffers(payload + "\n", [])
  {
    var line := FIELD + payload;
    assert line[4] == ':' && forall i :: 0 <= i < 4 ==> line[i] != ':';
    assert Colon(line) == 4;
    assert line[..4] == "data";
    assert line[6..] == payload;
    assert [] + payload + "\n" == payload + "\n";
  }

  lemma FirstLine(line: Bytes, rest: Bytes)
    requires Printable(line)
    ensures var s := line + ("\n" + rest);
            LineEnd(s) == |line| < |s| && s[..|line|] == line
            && TerminatorSize(s, |line|) == 1 && s[|line| + 1..] == rest
  {
    var s := line + ("\n" + rest);
    assert forall i :: 0 <= i < |line| ==> s[i] == line[i];
    assert s[|line|] == '\n';
    assert LineEnd(s) == |line|;
  }

  lemma InterpretField(line: Bytes, rest: Bytes, buffers: Buffers)
    requires Printable(line) && line != []
    ensures Interpret(line + ("\n" + rest), buffers) == Interpret(rest, Field(line, buffers))
  {
    FirstLine(line, rest);
  }

  lemma InterpretBlank(rest: Bytes, buffers: Buffers)
    ensures Interpret("\n" + rest, buffers) == Dispatch(buffers) + Interpret(rest, EMPTY)
  {
    FirstLine([], rest);
    var s := "\n" + rest;
    assert [] + s == s;
  }

  lemma DispatchOne(payload: Bytes)
    ensures Dispatch(Buffers(payload + "\n", [])) == [Event("message", payload)]
  {
    assert (payload + "\n")[..|payload|] == payload;
  }

  /** A field line and a blank line dispatch one message. */
  lemma FieldThenBlank(line: Bytes, payload: Bytes, rest: Bytes)
    requires Printable(line) && line != [] && Field(line, EMPTY) == Buffers(payload + "\n", [])
    ensures Interpret(line + ("\n" + ("\n" + rest)), EMPTY) == [Event("message", payload)] + Interpret(rest, EMPTY)
  {
    InterpretField(line, "\n" + rest, EMPTY);
    InterpretBlank(rest, Field(line, EMPTY));
    DispatchOne(payload);
  }

  lemma TwoFeeds(a: Bytes, b: Bytes, c: Bytes)
    ensures (a + b + "\n\n") + c == (a + b) + ("\n" + ("\n" + c))
  {
  }

  /** One strict frame is one field line and one dispatch. */
  lemma FrameInterprets(payload: Bytes, rest: Bytes)
    requires Printable(payload)
    ensures Interpret(FrameText(payload) + rest, EMPTY) == [Event("message", payload)] + Interpret(rest, EMPTY)
  {
    assert Printable(FIELD + payload);
    TwoFeeds(FIELD, payload, rest);
    DataField(payload);
    FieldThenBlank(FIELD + payload, payload, rest);
  }

  lemma {:induction false} FramesInterpret(payloads: seq<Bytes>)
    requires forall p :: p in payloads ==> Printable(p)
    ensures Interpret(Frames(payloads), EMPTY) == Messages(payloads)
  {
    if payloads != [] {
      assert payloads[0] in payloads;
      FramesInterpret(payloads[1..]);
      FrameInterprets(payloads[0], Frames(payloads[1..]));
    }
  }

  /** Whatever the strict reader reads to a clean end, the general algorithm
      reads as the same payloads, each one message event. */
  lemma StrictIsStandard(s: Bytes, end: End, limit: nat, payloads: seq<Bytes>)
    requires ReadAll(s, end, limit) == (payloads, FrameEof)
    ensures Events(s) == Messages(payloads)
  {
    FramingBijection(s, end, limit, payloads);
    forall p | p in payloads ensures Printable(p) {
      CompactPrintable(p);
    }
    FramesInterpret(payloads);
    if payloads != [] {
      assert s[0] == FIELD[0];
    }
  }

  const SHORT_FIELD: Bytes := "data:"

  lemma ShortDataField(payload: Bytes)
    requires payload != [] && payload[0] != ' '
    ensures Field(SHORT_FIELD + payload, EMPTY) == Buffers(payload + "\n", [])
  {
    var line := SHORT_FIELD + payload;
    assert line[4] == ':' && forall i :: 0 <= i < 4 ==> line[i] != ':';
    assert Colon(line) == 4;
    assert line[..4] == "data";
    assert line[5..] == payload && line[5] == payload[0];
    assert [] + payload + "\n" == payload + "\n";
  }

  lemma StandardReadsShort(payload: Bytes)
    requires Printable(payload) && payload != [] && payload[0] != ' '
    ensures Interpret(SHORT_FIELD + payload + "\n\n", EMPTY) == Messages([payload])
  {
    var line := SHORT_FIELD + payload;
    assert Printable(line);
    ShortDataField(payload);
    FieldThenBlank(line, payload, []);
    TwoFeeds(SHORT_FIELD, payload, []);
    assert line + "\n\n" + [] == line + "\n\n";
    assert [payload][1..] == [];
  }

  lemma StrictRefusesShort(payload: Bytes, limit: nat)
    requires Printable(payload) && payload != [] && payload[0] != ' '
    ensures FrameOf(SHORT_FIELD + payload + "\n\n", Eof, limit).FrameError?
  {
    var s := SHORT_FIELD + payload + "\n\n";
    assert s[5] == payload[0];
    assert forall i :: 0 <= i < 5 ==> s[i] == SHORT_FIELD[i];
    NotADataLine(s, limit);
  }

  /** The converse fails for every compact payload: without the space the
      standard reads the same message, and the strict reader refuses it. */
  lemma StandardIsWider(payload: Bytes, limit: nat)
    requires IsCompact(payload)
    ensures var s := SHORT_FIELD + payload + "\n\n";
            Interpret(s, EMPTY) == Messages([payload]) && FrameOf(s, Eof, limit).FrameError?
  {
    CompactPrintable(payload);
    StandardReadsShort(payload);
    StrictRefusesShort(payload, limit);
  }

  lemma NotADataLine(s: Bytes, limit: nat)
    requires |s| > 5 && s[5] != ' ' && Printable(s[..6])
    ensures FrameOf(s, Eof, limit).FrameError?
  {
    forall i | 0 <= i < 6 ensures s[i] != '\n' { assert s[..6][i] == s[i]; }
    assert LineSize(s) >= 6;
    assert s[..LineSize(s)][5] == s[5];
    assert FIELD[5] == ' ';
  }
}
