# A verified model of the NeKiro Go SDK's protocol core

The SDK connects applications, agents and the Router of the NeKiro platform.
This project models the parts of it whose promises span whole runs, and proves
those promises for every input, every interleaving and every reachable state.

- **Result streams.** A bounded line reader over a buffered body, a strict
  two-line SSE frame reader, and the `Stream` object whose `Recv` and `Close`
  hand out the events of one invocation (`Framing`, `EventSource`,
  `ResultEvents`, `Session`, `Interruptions`, `StreamAnswers`, `Stream`).
  `Session` is the state machine over values about which whole runs are reasoned;
  `Stream` is the object with the source's fields, each method proved equal to a
  step of that machine.
  `AgentStream` and `AgentBody` do both for the agent package's stream, which
  keeps no failure, `AgentEnds` says when its end can be mistaken, and
  `StreamAnswers` and `AgentAnswers` say exactly what each call answers.
- **JSON.** Lexer, grammar and printer (RFC 8259), byte by byte in `JsonSpelling`
  and `JsonText`, the decoder's token cursor, the walk that refuses repeated member
  names, and the request encoder that prints by concatenation (`JsonLexer`,
  `JsonGrammar`, `JsonDecoder`, `JsonNames`, `JsonWalk`, `Request`).
- **Router credentials.** Strict base64url, the compact form, the exact-member
  object decoder, context headers in an unordered map, the ordered checks of
  `Verify`, the pruning replay guard, and concurrent requests around it
  (`Base64Url`, `StrictBits`, `Credential`, `ExactObject`, `Headers`,
  `SignedClaims`, `Verifier`, `Replay`, `VerifyRuns`).
- **Host lifecycle.** `Run`, the server goroutine, the lease goroutine, the
  caller and the shutdown timer as one machine of labelled steps, the staged
  errors, and a Nacos registration under it (`Errors`, `HostErrors`, `Host`,
  `HostRuns`, `HostOutcome`, `HostFailures`, `HostMessages`, `Registration`).

`dafny verify dfyconfig.toml` checks everything.

## How the model is laid out

Code that changes an object step by step is a class or a method with loops,
proved against a function of values; the promises are then lemmas about that
function. Code that only computes is a function. The two protocols in which
several threads take part are machines of steps with any interleaving.

Parameters stand for what the source takes from elsewhere: the bytes of a body
and what it reports behind them, what `ctx.Err()` says, clock readings, what a
call into the server, the registrar or the lease returns, how a payload decodes
into an event, how the standard library decodes a string outside ASCII and which
numbers a 64-bit float holds, letter-case folding of header names, the signature check,
and Core's checks of identifiers, single events, claims and traces, with the
errors that the agent's stream wraps. All results hold for every choice of them;
where one depends on such an error, its condition names it. Core's sequence
validator is not part of the SDK; `ResultEvents` is the small machine that
client/README.md:105-109 and the stream tests describe.

## Where code and documentation part

- client/README.md:108-110 says that a `Close` before the clean end wraps the
  interruption. After a failure `Close` repeats that failure, which is an
  interruption exactly in the cases of `Interruptions.FirstFailureInterruptsIff`;
  over a body of one line feed it is none.
- client/README.md:95-100 ends the receive loop on `errors.Is(err, io.EOF)`.
  That test is safe exactly when closing the body reports no end-of-file error
  (`Session.EndIsUnmistakableIff`).
- agent/client.go:284-285 says that `io.EOF` is returned only after a terminal
  event and the end of the stream. `Recv` wraps the errors of the decoder and of
  Core's validator, so for a caller that asks `errors.Is(err, io.EOF)` this holds
  exactly when none of those errors is an end of file (`AgentEnds.EndIsUnmistakableIff`).
- The comment at agent/host/host.go:67-69 says that server and lease failures
  remain errors. `HostMessages.FailureReportedIff` gives the exact condition.
  Besides a lease's cancellation there are two ways to lose one. A failure taken
  at the first select is dropped when the context has been ended from outside
  before `Run` reads it (`HostOutcome.FailureDropped` is such a run,
  `HostFailures.FirstFailureKeptIff` the condition). And once the shutdown timeout
  has passed, `Run` may give a goroutine up and report the timeout in its place,
  even if the message was sent in time and is there: the select may choose either
  (`HostMessages.SentInTimeUnheard`). Without that timeout only the first way is
  left (`HostMessages.InTimeReportedIff`). `HostOutcome.NilIff` answers another
  question: when `Run` returns nil.
- The replay guard needs a clock whose readings have no peak; `Replay.ClockCondition`
  shows that this is exactly what it needs. A clock that never goes backwards is one.
- `rejectDuplicateJSONMembers` also refuses numbers outside the range of a
  64-bit float, repeated names or not (`JsonNames.WalkAcceptsIff`).

## Model

| member | source | states |
|---|---|---|
| `Framing.Reader.ReadSlice` | client/stream.go:203 | what a buffered read up to a line feed may return: a line, a full buffer without one, or the rest of the body |
| `Framing.ReadSseLine` | client/stream.go:200-222 | for every buffer size and every place where the buffer cuts, the result is the one `LineOf` defines without any buffer; at most limit + one buffer bytes are ever taken; what ends the loop is the limit, not the body |
| `Framing.ReadSseFrame` | client/stream.go:171-198 | the two-line frame reader returns what `FrameOf` defines and leaves the reader right behind an accepted frame |
| `Framing.AgentReadSseFrame` | agent/client.go:477-507 | the same for the agent's reader, which tests compactness before size |
| `Framing.ReadersAgree` | client/stream.go:171-198 | client and agent readers accept the same inputs with the same payload, and report the end on the same inputs, for every limit |
| `Framing.FrameOfIff` | client/stream.go:179-197 | a frame is accepted exactly when the input starts with `data: ` + payload + two line feeds, the payload is compact JSON, and payload + 8 fits the limit |
| `Framing.FramingBijection` | client/stream.go:171-222 | reading to a clean end yields a list of payloads exactly when the bytes are the concatenated frames of that list, all of them sendable: framing is a bijection |
| `Framing.EndReads` | client/stream.go:173-175 | the end is reported only with nothing left to read, on a frame boundary |
| `EventSource.StrictIsStandard` | client/stream.go:171-198 | whatever is read to a clean end is read as the same data payloads by the algorithm of sections 9.2.5 and 9.2.6 of the WHATWG HTML Standard |
| `EventSource.StandardIsWider` | client/stream.go:179-181 | the converse fails for every compact payload: without the space after the colon the standard reads it and the strict reader refuses it |
| `JsonGrammar.ParsedValuePrints` | client/json.go:129-179 | what the JSON parser accepts is the printed form of the tree it returns (sections 2 to 7 of RFC 8259, on tokens) |
| `JsonGrammar.PrintedValueParses` | client/json.go:129-179 | and every tree's printed form parses to that tree, whatever follows it |
| `JsonGrammar.TokensInjective` | client/json.go:129-179 | no two trees print alike, so a text stands for one tree |
| `JsonGrammar.CompactPrintable` | client/stream.go:193-196 | a payload that passes the compact test holds no byte below a space, hence no line feed |
| `JsonLexer.LexAppend` | client/json.go:57-59 | a text that lexes cleanly lexes the same in front of a comma, a bracket or white space |
| `JsonSpelling.TokenReads` | client/json.go:129-179 | byte by byte: a number made of its parts (an optional minus, 0 or digits without a leading zero, an optional fraction, an optional exponent) in front of a delimiter or the end, a string made of plain characters and the escapes, true, false, null and each punctuation mark are read as that one token (sections 2, 3, 6 and 7 of RFC 8259) |
| `JsonSpelling.LexLays` | client/json.go:129-179 | and nothing else is: whatever lexes cleanly is such tokens with white space in front of, between or behind them |
| `JsonSpelling.LaidLexes` | client/json.go:129-179 | such tokens lex back to themselves, whatever white space is put between them |
| `JsonText.TextIff` | client/json.go:129-179 | a byte string is a text of a tree exactly when the tree's leaves and names are so spelled and the bytes are its tokens with white space anywhere between them |
| `JsonText.CompactIff` | client/stream.go:193-196 | a payload is compact JSON exactly when it is the bytes of a well-spelled tree, printed without white space, that nests no deeper than 10000 |
| `JsonText.TokensNest` | client/stream.go:193-196 | and the depth of a tree is the most brackets and braces that its tokens hold open at once; they close them all |
| `JsonText.WalkAcceptsTexts` | client/json.go:129-179 | the duplicate-member walk accepts a byte string exactly when it is, byte by byte, a text of a tree that repeats no name and holds no number out of range |
| `JsonText.DecodedSays` | client/json.go:149-156 | a name of ASCII characters, written as themselves or as escapes, decodes to those characters (section 7 of RFC 8259) |
| `JsonText.EscapesHideNothing` | client/json.go:149-156 | so an escape hides no repeat: an object whose two names are spelled with the same ASCII characters, however written, is refused |
| `JsonDecoder.Decoder.Token` | client/json.go:133 | one step of the decoder's cursor over the tokens, as the standard library's state machine defines it |
| `JsonDecoder.Decoder.More` | client/json.go:144 | whether another element or member is ahead, seen without consuming a token |
| `JsonWalk.WalkValue` | client/json.go:132-174 | the recursive walk over the mutable decoder refines the functional walk, leaves the decoder behind the value at the same depth, and its recursion consumes tokens; an inner `seen` set never reaches its parent |
| `JsonWalk.WalkElements` | client/json.go:163-170 | the array loop, against the functional walk |
| `JsonWalk.WalkObject` | client/json.go:142-162 | the object loop with its own `seen` set, against the functional walk |
| `JsonWalk.WalkMember` | client/json.go:144-160 | one turn of the object loop: the name is refused when seen before, and added otherwise |
| `JsonWalk.RejectDuplicateMembers` | client/json.go:129-179 | accepts exactly the texts the functional walk accepts |
| `JsonNames.WalkDecides` | client/json.go:129-179 | the walk that never builds a tree decides a property of the tree: distinct decoded names in every object at every depth, and numbers in range |
| `JsonNames.WalkAcceptsIff` | client/json.go:129-179 | a text is accepted exactly when it is one JSON value with that property |
| `JsonNames.RepeatedNameRefused` | client/json.go:153-155 | a text that repeats a name anywhere is refused |
| `JsonNames.UniqueNamesNotEnough` | client/json.go:133-136 | unique names alone do not suffice: a text of one number that the library cannot hold is refused |
| `JsonNames.TooLargeRefused` | client/json.go:133-136 | so is 1e400 wherever 64-bit floats cannot hold it |
| `Request.SafeIdentifier` | client/json.go:16-27 | accepts exactly 1 to 128 letters, digits and marks with no mark first |
| `Request.AgentSafeIdentifier` | agent/client.go:601-613 | the agent's loop, which tests in another order, accepts the same strings |
| `Request.ValidateJsonObject` | client/json.go:29-41 | accepts exactly the texts of one JSON object in which no object repeats a name, at any depth; a missing input, one that the walk refuses and one that is no object are told apart |
| `Request.FirstByteShows` | client/json.go:36-39 | the first byte behind white space tells an object from every other value |
| `Request.FixedParts` | client/json.go:44-48 | the modelled prefix and suffix are the literal bytes the source writes |
| `Request.EncodeInvocationRequest` | client/json.go:43-61 | the payload is prefix + input verbatim + suffix within the limit; a refusal is for the size first and then for the input, with its reason |
| `Request.PrepareRequest` | client/client.go:87-96 | with the identifier checks before it, whatever is encoded passes the duplicate walk and parses back to the four members; refusals come in the order of the checks |
| `Request.RequestLexes` | client/json.go:43-61 | for plain identifiers the concatenated bytes are a text of the object with members agentId, capability, input and stream, in that order, with the given values |
| `Request.RequestParsesBack` | client/json.go:43-61 | for safe identifiers and accepted input the payload passes the walker and is a text of exactly that object |
| `ResultEvents.AcceptIff` | client/stream_test.go:130-156 | the explicit validator admits an event exactly when the run stays well formed with it: fixed ids, sequence 0,1,2…, chunk index 0,1,2…, accepted first, nothing behind a terminal event |
| `ResultEvents.WellFormedPrefix` | client/README.md:105-107 | every prefix of a well-formed run is one |
| `Session.RunKeeps` | client/stream.go:69-169 | the invariant of the session over every run: events handed out are a well-formed run decoded from the frames read, frames read + bytes unread = body until a failure, and the flags agree |
| `Session.RunsAreWellFormed` | client/README.md:105-108 | over every body, every order of calls and every moment the context ends, failed runs included: the events handed out are a prefix of one well-formed run with the header's trace, the frames the body begins with decode to them one for one, and the end is reported only when that run is complete and the body is exactly those frames |
| `Stream.OpenAndPlay` | client/stream.go:58-169 | a `Stream` over any body, read through a buffer of any size, gives any sequence of calls the replies of `Session.Run`, so what holds of those holds of it |
| `Stream.Stream.Play` | client/stream.go:69-153 | one consumer's calls, one after the other, leave the object in the state and with the replies of `Session.Run` |
| `Session.FailureLatches` | client/stream.go:73-75 | a recorded failure is what every later `Recv` returns until `Close` |
| `Session.StepLatches` | client/stream.go:69-78 | one more call on a failed, ended or closed stream changes nothing and answers as before |
| `Session.CloseLatches` | client/stream.go:137-140 | after the first `Close` every `Close` returns the same outcome and every `Recv` is refused |
| `Session.RunsCloseOnce` | client/stream.go:137-169 | in every run: `finished` and `failure` exclude each other, the body is closed exactly once by the time the stream failed, finished or closed, and `Close` is nil exactly at a clean end; and `Close` is nil only behind a complete run whose body closed without an error |
| `Session.CloseUnclean` | client/README.md:108-110 | a stream closed without a failure and before its end returns an error that wraps the interruption |
| `Interruptions.FirstFailureInterruptsIff` | client/README.md:108-110 | the documented wrapping of the interruption does not hold after every failure: for every run, the first `Recv` that fails and the `Close` behind it return the same error, and it is an interruption exactly when the context or the body had ended early, reading reported one, or closing the body did |
| `Interruptions.BadFrameClosesWithoutInterruption` | client/README.md:108-110 | the input that shows it: over a body of one line feed, `Recv` fails and `Close` does not mention an interruption |
| `Session.FailureInterruptsIff` | client/stream.go:155-161 | the same for one step from a given state |
| `Session.VerdictIsNoInterruption` | client/stream.go:105-130 | no refusal of a frame's contents is an interruption |
| `Session.RunsTellTheEnd` | client/README.md:95-100 | when closing the body reports no end-of-file error, nothing but the clean end satisfies the documented test for it |
| `Session.EndIsUnmistakableIff` | client/stream.go:155-161 | and exactly then: a failure joins the error of closing the body, so a body whose `Close` reports end of file makes a broken stream look ended |
| `Session.CleanStreamsComplete` | client/stream.go:69-133 | a complete run framed within the limit is delivered event by event, then the end is reported and `Close` is nil |
| `StreamAnswers.NextAnswer` | client/stream.go:69-133 | every `Recv` of every run that is still open: it delivers an event exactly when the context is live and the unread bytes start with the frame of an event that continues the run under every check; it ends exactly when nothing is unread, the body has ended, the run is complete and closing the body reports nothing; and the error of a failure finds exactly what closing the body returned and, of the context's error, the interruption and the body's own error, what applies |
| `StreamAnswers.RefusalAnswer` | client/stream.go:105-130 | a frame that is there and refused is refused for the first check it fails, by that check's message, joined with what closing the body returned |
| `StreamAnswers.EarlyCloseAnswer` | client/stream.go:149-152 | the first `Close` of a run that is still open finds the interruption and what closing the body returned, and nothing else |
| `StreamAnswers.EndNeedsCleanClose` | client/stream.go:90-95 | no run reports the end of a stream whose body fails to close |
| `StreamAnswers.FailingCloseIsReported` | client/stream.go:84-97 | a complete run whose body fails to close is delivered in full; then `Recv` fails with an error that finds exactly what the failing close returned, and `Close` repeats it |
| `StreamAnswers.ClosedFinds` | client/stream.go:70-72 | a closed stream refuses `Recv` with an error that finds that it is closed and nothing else |
| `Stream.Stream.constructor` | client/stream.go:58-64 | an opened stream |
| `Stream.Stream.Recv` | client/stream.go:69-133 | updates the fields exactly as the state machine's `Recv` does, over the bounded reader |
| `Stream.Stream.TakePayload` | client/stream.go:105-132 | the checks on a frame's payload, in their order, with the validator set up by the first event |
| `Stream.Stream.FinishAtEnd` | client/stream.go:84-97 | what the end of the body leads to |
| `Stream.Stream.Close` | client/stream.go:137-153 | updates the fields exactly as the state machine's `Close` does |
| `Stream.Stream.RecordFailure` | client/stream.go:155-161 | keeps the first failure, joined with the error of closing the body |
| `Stream.Stream.CloseBody` | client/stream.go:163-169 | closes the body at most once |
| `AgentStream.NestedResultStream.Recv` | agent/client.go:286-336 | updates the fields exactly as the nested state machine's `Recv` does, over the agent's reader, and wraps the errors of the walk, the decoder and Core's validator as it does |
| `AgentStream.NestedResultStream.Close` | agent/client.go:340-359 | updates the fields exactly as the nested state machine's `Close` does |
| `AgentStream.NestedRunsAreWellFormed` | agent/client.go:284-336 | though no failure is kept and the reader may stand anywhere after an error: the events handed out are one well-formed run under the call's root task and trace, the end is reported only behind a terminal event, the body is closed at most once |
| `AgentBody.EventsAreFrames` | agent/client.go:286-336 | as long as no `Recv` has failed, the events are what the body's first frames decode to, one for one, and a clean end means that the body is exactly those frames |
| `AgentBody.OpenAndReceive` | agent/client.go:286-336 | the same for the object over any body, read through a buffer of any size |
| `AgentBody.ReceiveAll` | agent/client.go:286-336 | a caller that receives any number of times, going on after errors, is a run over the frames the reader finds |
| `AgentStream.NestedCloseIff` | agent/client.go:340-359 | the first `Close` is nil exactly after the end was reported; every later one is nil |
| `AgentAnswers.NextAnswer` | agent/client.go:286-336 | every `Recv` of every run neither closed nor ended, errors or not: it delivers an event exactly when the frame found spells one that continues the run under every check, ends exactly at the end of a body whose run is complete, and the error of a failure finds exactly what the error behind it finds |
| `AgentAnswers.RefusedBeforeOpen` | agent/client.go:295-325 | before a run is open an end and an event that is not accepted are refused by their own messages, and leave the stream as it was |
| `AgentAnswers.FirstCloseFindsIff` | agent/client.go:340-359 | the first `Close` of any run is nil exactly once the end has been reported; else it finds what closing the body returned and, while a run is open without a terminal event, what the validator says of finishing it there, and nothing else |
| `AgentAnswers.LaterAnswers` | agent/client.go:287-292 | a closed stream refuses every `Recv` and its `Close` stays nil; an ended one ends every time; neither changes |
| `AgentEnds.EndIsUnmistakableIff` | agent/client.go:284-336 | over every body and any number of `Recv` calls nothing but the end of the stream looks like it, if and only if no error the stream can be given is an end of file: of the walk or the decoder on a compact payload they refuse, of the validator's constructor on an opening event's identifiers, of a validator that can be reached on an event it refuses, of finishing one whose run is not over |
| `AgentEnds.HarmlessRunsTellTheEnd` | agent/client.go:286-359 | the same over runs in which `Close` may come anywhere |
| `Base64Url.DecodeIff` | agent/routerauth/verifier.go:112 | strict unpadded base64url (sections 3.5 and 5 of RFC 4648): a string decodes to some data exactly when it is the encoding of that data |
| `Base64Url.BlockIsNumber` | agent/routerauth/verifier.go:112 | three bytes are a 24-bit number and the four characters its digits to the base 64, the most significant first (section 4 of RFC 4648) |
| `Base64Url.AlphabetIs` | agent/routerauth/verifier.go:112 | in the alphabet of section 5 of RFC 4648 |
| `Base64Url.DecodeSegmentIff` | agent/routerauth/verifier.go:108-117 | the Go decoder skips line breaks, so a segment decodes exactly when it is an encoding but for those; the test for padding refuses nothing more |
| `Base64Url.BreaksBreakInjectivity` | agent/routerauth/verifier.go:108-117 | without line breaks the spelling is unique; with them every segment has another one |
| `StrictBits.StrictBitsNeeded` | agent/routerauth/verifier.go:112 | without the strict test for stray bits exactly the data that do not fill their last group would have a second spelling, which the strict decoder refuses |
| `Credential.ParseIff` | agent/routerauth/verifier.go:53-68 | a credential without line breaks parses exactly when it is the printed form of what it parses to (section 7.1 of RFC 7515), and the signed bytes are the printed header and claims |
| `Credential.PrintedParses` | agent/routerauth/verifier.go:53-68 | printing three segments and parsing gives them back |
| `Credential.SigningInputInjective` | agent/routerauth/verifier.go:79 | what is signed determines header and claims |
| `Credential.SplitJoins` | agent/routerauth/verifier.go:53 | splitting at dots is undone by joining |
| `Credential.JoinSplits` | agent/routerauth/verifier.go:53 | joining segments without dots is undone by splitting |
| `Credential.BearerIff` | agent/routerauth/headers.go:11-21 | the bearer test accepts exactly one value, the scheme and a credential without separators, which therefore has no line breaks |
| `Headers.HeaderValues` | agent/routerauth/headers.go:54-62 | the values of all matching names, each name once, in some order of the map; no value, and one value alone, are told apart exactly |
| `Headers.CredentialFromHeaders` | agent/routerauth/headers.go:11-21 | returns a credential exactly when the request presents that one and no other authorization |
| `Headers.ValidateContextHeaders` | agent/routerauth/headers.go:23-52 | accepts exactly when every signed name has its one value and the parent header is there exactly when its claim is, in any order of both maps |
| `ExactObject.DecodeObject` | agent/routerauth/verifier.go:119-155 | the loop over the mutable decoder equals the functional reading |
| `ExactObject.DecodeMember` | agent/routerauth/verifier.go:125-144 | one turn of it: a repeated or unknown name, or a bad value, is refused |
| `ExactObject.ObjectOfIff` | agent/routerauth/verifier.go:119-155 | an object is read exactly when the text spells one with distinct names out of the allowed ones, and it holds exactly its members |
| `ExactObject.ExactMembers` | agent/routerauth/verifier.go:69-72 | known names, no repeats and the right count accept exactly the objects whose name set is the allowed one |
| `SignedClaims.DecodeClaims` | agent/routerauth/verifier.go:157-207 | yields claims exactly when the segment spells one object of known members, none of them twice, whose members of these very names say them: eleven texts (null is the empty one), the audience's items in order, the two times, and the parent exactly when its member is there |
| `SignedClaims.SaysClaimsIff` | agent/routerauth/verifier.go:161-206 | the same for the map of an object: each claim comes from the member of its name |
| `Verifier.NewVerifier` | agent/routerauth/verifier.go:31-46 | a verifier with an empty guard of its own exactly for a valid configuration and a clock |
| `Verifier.Verifier.constructor` | agent/routerauth/verifier.go:45 | the fields of a new verifier |
| `Verifier.Verifier.CheckCredential` | agent/routerauth/verifier.go:53-101 | the ordered checks on the credential itself |
| `Verifier.Verifier.CheckRequest` | agent/routerauth/verifier.go:48-104 | all checks before the guard, each refusal with its status |
| `Verifier.Verifier.Verify` | agent/routerauth/verifier.go:48-106 | a request refused before the guard leaves its map alone; one refused by it only loses what has expired; a verified one is entered |
| `Verifier.CredentialIff` | agent/routerauth/verifier.go:53-101 | a credential passes exactly when it is the printed form of a header with exactly the three members and their supported values, of an object that says the claims by name, and of a signature by the configured key over both, and the claims stand |
| `Verifier.PassesIff` | agent/routerauth/verifier.go:48-102 | a request passes every check before the guard exactly when it presents one genuine credential and each context header has one value, the text of the member of the signed claims that it stands for |
| `Verifier.ForbiddenIff` | agent/routerauth/verifier.go:94-99 | a credential is forbidden rather than unauthenticated exactly when it would pass for another audience |
| `Verifier.SignedBytesFixClaims` | agent/routerauth/verifier.go:79-84 | passing credentials that agree in what was signed carry the same claims |
| `Verifier.OneVerdict` | agent/routerauth/verifier.go:48-104 | every request either passes with one set of claims or is turned away with one status |
| `Replay.ReplayGuard.Accept` | agent/routerauth/replay.go:22-39 | in any order of the deletion loop: the answer and the map that remains |
| `Replay.ForgettingIsHarmless` | agent/routerauth/replay.go:26-30 | over every call history whose clock readings have no peak, the pruning guard answers like one that keeps every accepted credential for ever |
| `Replay.NonDecreasingIsValley` | agent/routerauth/replay.go:25 | a clock that does not go backwards has no peak |
| `Replay.ClockCondition` | agent/routerauth/replay.go:22-39 | that condition on the clock is exact: pruning is unnoticed, and no credential is accepted twice, if and only if no reading is higher than both an earlier and a later one |
| `Replay.WindowsDisjoint` | agent/routerauth/replay.go:31-38 | successive acceptances of one id have disjoint windows from acceptance to expiry |
| `Replay.LedgerWindows` | agent/routerauth/replay.go:31-38 | the same for the guard that never forgets |
| `Replay.StoreUnexpired` | agent/routerauth/replay.go:26-37 | after every call each entry expires strictly after the time that was read |
| `Replay.StoreIsLive` | agent/routerauth/replay.go:22-39 | with a clock that does not go backwards the map holds exactly the accepted credentials that are unexpired |
| `VerifyRuns.RunKeeps` | agent/routerauth/verifier.go:48-106 | the invariant over every interleaving of concurrent requests with the guard's locked calls |
| `VerifyRuns.VerifiedWindowsDisjoint` | agent/routerauth/replay.go:22-39 | over every interleaving, of two verified requests with one JWT id one was accepted only after the other had expired |
| `VerifyRuns.VerifiedOnce` | agent/routerauth/verifier.go:103-106 | a credential with a given id and expiry is verified at most once in any run |
| `VerifyRuns.SignedOnce` | agent/routerauth/verifier.go:51-106 | with one verifier's checks, over every interleaving on a clock without peaks: no two requests whose credentials agree in the signed bytes are both verified |
| `VerifyRuns.VerifiedRightly` | agent/routerauth/verifier.go:48-106 | whoever was answered had passed every check, and got the answer of a guard that never forgets |
| `VerifyRuns.StoreHoldsTheLiving` | agent/routerauth/replay.go:22-39 | the shared map holds exactly the verified credentials unexpired at the last reading |
| `VerifyRuns.CallIsSteps` | agent/routerauth/verifier.go:48-106 | one call of `Verify` is a check followed by the guard's step, with the outcome the method's contract gives |
| `HostErrors.WrapStages` | agent/host/error.go:32-40 | the result is always staged and hides no cause; its stage is the caller's exactly when stage and message are valid, and config otherwise |
| `HostErrors.CheckMessage` | agent/host/error.go:42-52 | the check of a message, loop and trimming included, accepts exactly the valid messages |
| `HostErrors.StageIsFirst` | agent/host/error.go:77-83 | on a tree of joined errors `StageOf` finds the stage of the one joined first |
| `HostErrors.IsInJoined` | agent/host/error.go:61-66 | `errors.Is` finds a sentinel in a tree of joined errors exactly when it finds it in one of them |
| `Host.RunIsSound` | agent/host/host.go:70-163 | what every step of `Run`, the two goroutines, the caller and the timer keeps |
| `HostRuns.RunsEnd` | agent/host/host.go:70-163 | every interleaving ends: no run has more than 21 steps |
| `HostRuns.StandsStillOnlyInSelects` | agent/host/host.go:107-156 | `Run` stands still only in its three selects and only while nothing they watch has happened; what it waits for has then not been sent, so no message is missed |
| `HostRuns.StuckIsDone` | agent/host/host.go:70-162 | a run in which no step of anyone is possible any more is one in which `Run` has returned |
| `HostRuns.CanFinish` | agent/host/host.go:129-156 | from every reachable state `Run` gets to its return by its own steps, the context ending and the shutdown timeout alone, though neither server nor lease ever returns |
| `HostRuns.SendsNeverBlock` | agent/host/host.go:90-102 | each goroutine that has a result can send it at once, even after `Run` has returned, and sends once |
| `HostRuns.DeregisterProtocol` | agent/host/host.go:83-162 | in every interleaving `Deregister` is called exactly once if `Register` succeeded and never otherwise, after the one `Shutdown` has returned; a started server has been shut down when `Run` returns |
| `HostOutcome.DeregistersLast` | agent/host/host.go:139-161 | when `Deregister` is called, server and lease have each been heard from, or the shutdown timeout has passed |
| `HostOutcome.ErrorIsFailures` | agent/host/host.go:104-162 | the error returned joins exactly the failures of the run, in the order in which they came to light |
| `HostOutcome.StageOfFirstFailure` | agent/host/host.go:129-161 | every non-nil error is staged with the stage of the failure that came first, and `errors.Is` finds each cause in it |
| `HostOutcome.TextsValid` | agent/host/error.go:42-52 | all messages the host uses are valid, so no failure is restaged as config |
| `HostOutcome.NilIff` | agent/host/host.go:107-162 | `Run` returns nil exactly when it saw the context end and every shutdown step it waited for was clean |
| `HostOutcome.EndCameFromOutside` | agent/host/host.go:107-128 | an end that `Run` saw had come from outside, before its own cancel |
| `HostOutcome.CancelsFirst` | agent/host/host.go:128 | while `Run` shuts down, waits and deregisters it has cancelled the context the lease runs under |
| `HostFailures.FirstFailureKeptIff` | agent/host/host.go:109-127 | for every finished run, server and lease alike: a message taken at the first select is decided by one later reading of the context, and its failure is among those returned exactly when the context had not been ended from outside before that reading |
| `HostFailures.JudgedIff` | agent/host/host.go:117-126 | a failure that is judged counts exactly when the context had not been ended before |
| `HostFailures.StoppedFailureKeptIff` | agent/host/host.go:135-150 | a message taken while shutting down is reported whenever it is an error, save a lease's cancellation |
| `HostMessages.SettledExactlyOnce` | agent/host/host.go:107-156 | in every finished run each goroutine that was started is settled exactly once: its message is taken at the first select, taken while shutting down, or given up |
| `HostMessages.HeardIsReturned` | agent/host/host.go:93-105 | what `Run` hears of a goroutine is what its one call returned, and nil exactly if that is nil or the server's word that it has been closed |
| `HostMessages.WorldMay` | agent/host/host.go:93-132 | what may happen around `Run` at any point of any run, exactly: the context ends once, the timeout passes once after the cancel, each goroutine's one call returns anything after its start |
| `HostMessages.CancellationIsNormal` | agent/host/host.go:67-69 | a cancellation is a normal end: every finished run that saw the context end returns nil when the server stops or says that it has been closed, the lease stops or is cancelled, nothing is given up, and shutting down and deregistering succeed |
| `HostMessages.ClosedServerIsNormal` | agent/host/host.go:95-99 | the ordinary stop of a server, which returns that it has been closed, is such a run |
| `HostMessages.OverdueReportsTimeout` | agent/host/host.go:138-155 | a goroutine is given up only behind the shutdown timeout; then its message is never heard, the timeout is reported and no failure of its own is, save that a server's deadline error reads like the timeout |
| `HostMessages.FailureReportedIff` | agent/host/host.go:67-69 | the exact condition on the doc comment, for every finished run and every failure of server or lease: it is among the errors returned exactly when its goroutine was not given up, it was not taken at the first select with the context ended from outside before the deciding reading, and it is no lease's cancellation taken while shutting down |
| `HostMessages.InTimeReportedIff` | agent/host/host.go:109-150 | when the shutdown timeout does not pass, the last two conditions alone decide it |
| `HostMessages.SentInTimeUnheard` | agent/host/host.go:138-145 | a run without any end from outside in which the server's failure is sent before the timeout and before `Run` cancels, and is in no error returned, as the select may choose the timeout |
| `HostOutcome.FailureDropped` | agent/host/host.go:109-119 | a run in which a server failure is taken at the first select and dropped, and `Run` even returns nil |
| `Registration.Registration.constructor` | agent/registration/nacos/registration.go:79 | a registration starts without a lease |
| `Registration.Registration.Register` | agent/registration/nacos/registration.go:82-97 | writes the lease once, on success only |
| `Registration.Registration.Run` | agent/registration/nacos/registration.go:100-120 | nil exactly when the context is over while a lease is there; a lease's own end is wrapped |
| `Registration.Registration.Deregister` | agent/registration/nacos/registration.go:124-136 | closes the lease, if there is one, and the registrar, and joins their errors |
| `Registration.Registration.Ready` | agent/registration/nacos/registration.go:139-152 | true exactly when a lease was published and has not ended |
| `Registration.LeaseIsClosed` | agent/host/host.go:83-161 | in every run of host and registration as one machine, once the host has returned the lease it published has been closed exactly once and the registrar behind it, and nothing was closed where nothing was published |
| `Registration.LeaseIsThere` | agent/registration/nacos/registration.go:104-109 | while the lease goroutine runs there is a lease, so `Run` never finds that the registration has not started |
| `Registration.LeaseMayReturnIff` | agent/registration/nacos/registration.go:110-119 | and it may return nil exactly once the context has been ended from outside or the host has cancelled it |
| `Registration.TogetherNeverStopsEarly` | agent/host/host.go:121-123 | in every such run a lease never looks as if it had stopped early without an error |
| `Registration.TogetherIsNacos` | agent/registration/nacos/registration.go:110-119 | whatever `Run` may answer is a step of a host whose lease returns nil only when the context is over |
| `Registration.PlayCalls` | agent/host/host.go:83-161 | the host's calls made on a `Registration` object leave what folding `RegisterOf` and `DeregisterOf` over them gives |
| `Registration.HostClosesItsLease` | agent/host/host.go:157-161 | and for a finished run that is: publish, close the lease, close the registrar, once each, or nothing |
| `Registration.NeverStopsEarly` | agent/host/host.go:121-123 | a host whose lease returns nil only when the context is over never reads a live context after such a nil |

## Left out

- HTTP requests, redirects, TLS, PEM loading, signals, real time and the parsing of configuration: their outcomes are inputs.
- The decoding of a payload into Go structs, Go's case-insensitive field matching, `json.Marshal` of the agent's request: library behaviour; a payload decodes by an arbitrary function.
- Ed25519 and Core's validation of claims, identifiers, traces and releases: arbitrary predicates.
- Unescaping of JSON strings: a string of ASCII characters, plain or escaped, decodes to them, any other by an arbitrary function. Raw messages are kept as trees, not as bytes.
- Error texts are shortened where they only add context; which errors wrap which is kept. In the client's stream the error of `Finish` is a fixed one: `Recv` asks for it only when the run is over, and then there is none.
- `errors.Is` identity of error values is equality of modelled values; Go's `context.Cause` is not used by the code.
- `ctx.Err()` is nil, canceled or deadline exceeded.
- UTF-8 decoding and the byte order mark in the event-source algorithm: the standard's steps run on bytes; the `id` and `retry` fields are ignored, as they never reach a data payload.
- `bytes.TrimSpace` beyond ASCII: what it trims in `validateJSONObject` was accepted as JSON before, where only ASCII white space may stand.
- A body that itself returns `bufio.ErrBufferFull`: `readSSELine` would read on; no reader does.
- Integer widths: limits, expiry times and clock readings are only compared or added to small constants; they are mathematical integers, so a limit within 1 of the largest 64-bit integer is not distinguished.
- `Claims.Audience[0]` panics on an empty list that Core's validator let through; the model answers Forbidden there. `contracts` is not part of this model.
- The mutexes of the guard and of the registration: a locked section is one step.
- `readBounded`, `readAndCloseBounded`, the single-header checks, status and code tables, middleware responses, log redaction: settled by reading their few lines.
- The host's `New`, its default server factory and signal set-up: only their outcomes enter `Host`.
- Nacos request and endpoint construction (agent/registration/nacos/registration.go:34-79): calls into Core.
- VerifyRuns.VerifiedOnce: assumes clock readings under the lock without a peak, which the source does not check; the condition is exact by `Replay.ClockCondition`.
- Verifier.PassesIff: takes the nine context header names to differ, as keys of one map literal of constants do.
- Verifier.ForbiddenIff: takes Core's check of the claims to demand an audience, as the source indexes the first one without looking.
