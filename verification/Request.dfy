/** The hand-written encoder of an invocation request. */
module Request {
  import opened Prelude
  import opened JsonLexer
  import opened JsonGrammar
  import opened JsonNames
  import opened JsonWalk

  // ----- safe identifiers -----

  predicate IsLetterOrDigit(c: byte) {
    'A' <= c <= 'Z' || 'a' <= c <= 'z' || '0' <= c <= '9'
  }

  predicate IsMark(c: byte) {
    c == '.' || c == '_' || c == ':' || c == '-'
  }

  /** The identifier grammar: a letter or digit, then letters, digits and marks. */
  predicate IsIdentifier(s: Bytes) {
    && 1 <= |s| <= 128
    && IsLetterOrDigit(s[0])
    && forall i :: 0 <= i < |s| ==> IsLetterOrDigit(s[i]) || IsMark(s[i])
  }

  /** `safeIdentifier` of the client package. */
  method SafeIdentifier(value: Bytes) returns (ok: bool)
    ensures ok <==> IsIdentifier(value)
  {
    if |value| < 1 || |value| > 128 {
      return false;
    }
    for i := 0 to |value|
      invariant forall j :: 0 <= j < i ==> IsLetterOrDigit(value[j]) || IsMark(value[j])
      invariant i > 0 ==> IsLetterOrDigit(value[0])
    {
      var c := value[i];
      var allowed := 'A' <= c <= 'Z' || 'a' <= c <= 'z' || '0' <= c <= '9'
                     || c == '.' || c == '_' || c == ':' || c == '-';
      if !allowed || (i == 0 && (c == '.' || c == '_' || c == ':' || c == '-')) {
        return false;
      }
    }
    return true;
  }

  /** `safeIdentifier` of the agent package, which tests the other way round. */
  method AgentSafeIdentifier(value: Bytes) returns (ok: bool)
    ensures ok <==> IsIdentifier(value)
  {
    if |value| < 1 || |value| > 128 {
      return false;
    }
    var i := 0;
    while i < |value|
      invariant 0 <= i <= |value|
      invariant forall j :: 0 <= j < i ==> IsLetterOrDigit(value[j]) || IsMark(value[j])
      invariant i > 0 ==> IsLetterOrDigit(value[0])
    {
      var c := value[i];
      if 'A' <= c <= 'Z' || 'a' <= c <= 'z' || '0' <= c <= '9' || c == '.' || c == '_' || c == ':' || c == '-' {
        if i > 0 || (c != '.' && c != '_' && c != ':' && c != '-') {
          i := i + 1;
          continue;
        }
      }
      return false;
    }
    return true;
  }

  // ----- the input -----

  /** The white space `bytes.TrimSpace` drops, among ASCII bytes. */
  predicate IsTrimmed(c: byte) {
    IsSpace(c) || c == '\U{0B}' || c == '\U{0C}'
  }

  function TrimLeft(s: Bytes): Bytes {
    if s != [] && IsTrimmed(s[0]) then TrimLeft(s[1..]) else s
  }

  datatype Refusal = TooLarge | NoInput | InvalidInput | NotAnObject | UnsafeAgentId | UnsafeCapability

  /** Why an input that is not an acceptable object is refused. */
  function InputRefusal(data: Option<Bytes>, lib: Library): Refusal {
    if data.None? then NoInput else if !WalkAccepts(data.value, lib) then InvalidInput else NotAnObject
  }

  /** `validateJSONObject`: `None` is the nil message, which the source keeps
      apart from an empty one. */
  method ValidateJsonObject(data: Option<Bytes>, lib: Library) returns (refusal: Option<Refusal>)
    ensures refusal.None? <==> data.Some? && IsObjectText(data.value, lib)
    ensures refusal.Some? ==> refusal.value == InputRefusal(data, lib)
  {
    if data.None? {
      return Some(NoInput);
    }
    var ok := RejectDuplicateMembers(data.value, lib);
    WalkAcceptsIff(data.value, lib);
    if !ok {
      return Some(InvalidInput);
    }
    ghost var v :| IsTextOf(data.value, v) && Acceptable(v, lib);
    TextIsOneTree(data.value, v);
    FirstByteShows(data.value, v);
    var trimmed := TrimLeft(data.value);
    if trimmed == [] || trimmed[0] != '{' {
      return Some(NotAnObject);
    }
    return None;
  }

  /** One JSON object that no object inside it spoils with a repeated name. */
  ghost predicate IsObjectText(s: Bytes, lib: Library) {
    exists v :: IsTextOf(s, v) && v.Obj? && Acceptable(v, lib)
  }

  lemma TextIsOneTree(s: Bytes, v: Json)
    requires IsTextOf(s, v)
    ensures forall w :: IsTextOf(s, w) ==> w == v
  {
    forall w | IsTextOf(s, w) ensures w == v {
      TokensInjective(v, w);
    }
  }

  /** The first byte behind white space tells an object from any other value. */
  lemma {:induction false} FirstByteShows(s: Bytes, v: Json)
    requires IsTextOf(s, v)
    ensures TrimLeft(s) != [] && (TrimLeft(s)[0] == '{' <==> v.Obj?)
  {
    TokensHead(v);
    if IsSpace(s[0]) {
      FirstByteShows(s[1..], v);
    }
  }

  // ----- the encoder -----

  /** `open"name":` */
  function Named(open: byte, name: Bytes): Bytes {
    [open] + "\"" + name + "\"" + ":"
  }

  /** `open"name":"value"` */
  function Pair(open: byte, name: Bytes, value: Bytes): Bytes {
    Named(open, name) + ("\"" + value + "\"")
  }

  function Prefix(agentId: Bytes, capability: Bytes): Bytes {
    Pair('{', "agentId", agentId) + Pair(',', "capability", capability) + Named(',', "input")
  }

  function Suffix(stream: bool): Bytes {
    Named(',', "stream") + (if stream then "true}" else "false}")
  }

  /** The parts the source prints, spelled out. */
  lemma FixedParts(agentId: Bytes, capability: Bytes)
    ensures Prefix(agentId, capability) ==
            "{\"agentId\":\"" + agentId + "\",\"capability\":\"" + capability + "\",\"input\":"
    ensures Suffix(true) == ",\"stream\":true}" && Suffix(false) == ",\"stream\":false}"
  {
    var q: Bytes := "\"";
    SpelledNames();
    SpelledSuffix();
    Respell(Named('{', "agentId"), q, agentId, Named(',', "capability"), capability, Named(',', "input"));
  }

  lemma SpelledNames()
    ensures var q: Bytes := "\"";
            && Named('{', "agentId") + q == "{\"agentId\":\""
            && q + Named(',', "capability") + q == "\",\"capability\":\""
            && q + Named(',', "input") == "\",\"input\":"
  {
  }

  lemma SpelledSuffix()
    ensures Suffix(true) == ",\"stream\":true}" && Suffix(false) == ",\"stream\":false}"
  {
  }

  lemma Respell(a: Bytes, q: Bytes, b: Bytes, c: Bytes, d: Bytes, e: Bytes)
    ensures (a + (q + b + q)) + (c + (q + d + q)) + e == (a + q) + b + (q + c + q) + d + (q + e)
  {
  }

  datatype Outcome = Encoded(payload: Bytes) | Refused(why: Refusal)

  /** `encodeInvocationRequest`. */
  method EncodeInvocationRequest(agentId: Bytes, capability: Bytes, input: Option<Bytes>, stream: bool,
                                 limit: int, lib: Library)
    returns (r: Outcome)
    ensures r.Encoded? ==>
              && input.Some? && IsObjectText(input.value, lib)
              && r.payload == Prefix(agentId, capability) + input.value + Suffix(stream)
              && |r.payload| <= limit
    ensures r.Refused? ==>
              var size := |Prefix(agentId, capability)| + (if input.Some? then |input.value| else 0) + |Suffix(stream)|;
              if size > limit then r.why == TooLarge
              else r.why == InputRefusal(input, lib) && (input.None? || !IsObjectText(input.value, lib))
  {
    var prefix := Prefix(agentId, capability);
    var suffix := Suffix(stream);
    var total := |prefix| + (if input.Some? then |input.value| else 0) + |suffix|;
    if total > limit {
      return Refused(TooLarge);
    }
    var refusal := ValidateJsonObject(input, lib);
    if refusal.Some? {
      return Refused(refusal.value);
    }
    var payload: Bytes := [];
    payload := payload + prefix;
    payload := payload + input.value;
    payload := payload + suffix;
    return Encoded(payload);
  }

  /** The checks `do` makes before it encodes. */
  method PrepareRequest(agentId: Bytes, capability: Bytes, input: Option<Bytes>, stream: bool,
                        limit: int, lib: Library)
    returns (r: Outcome)
    ensures r.Encoded? ==>
              && IsIdentifier(agentId) && IsIdentifier(capability) && input.Some?
              && |r.payload| <= limit
              && r.payload == Prefix(agentId, capability) + input.value + Suffix(stream)
              && WalkAccepts(r.payload, lib)
              && exists members ::
                   && IsTextOf(input.value, Obj(members))
                   && IsTextOf(r.payload, RequestTree(agentId, capability, Obj(members), stream))
    ensures r.Refused? ==>
              var size := |Prefix(agentId, capability)| + (if input.Some? then |input.value| else 0) + |Suffix(stream)|;
              if !IsIdentifier(agentId) then r.why == UnsafeAgentId
              else if !IsIdentifier(capability) then r.why == UnsafeCapability
              else if size > limit then r.why == TooLarge
              else r.why == InputRefusal(input, lib) && (input.None? || !IsObjectText(input.value, lib))
  {
    var ok := SafeIdentifier(agentId);
    if !ok {
      return Refused(UnsafeAgentId);
    }
    ok := SafeIdentifier(capability);
    if !ok {
      return Refused(UnsafeCapability);
    }
    r := EncodeInvocationRequest(agentId, capability, input, stream, limit, lib);
    if r.Encoded? {
      RequestParsesBack(agentId, capability, input.value, stream, lib);
    }
  }

  // ----- what was printed parses back -----

  /** The object the wire contract asks for. */
  function RequestTree(agentId: Bytes, capability: Bytes, input: Json, stream: bool): Json {
    Obj(Member("agentId", Quoted(agentId),
        Member("capability", Quoted(capability),
        Member("input", input,
        Member("stream", Literal(if stream then "true" else "false"), NoMembers)))))
  }

  lemma {:induction false} PlainStringSize(raw: Bytes, rest: Bytes)
    requires IsPlain(raw)
    ensures StringSize(raw + "\"" + rest) == Some(|raw|)
  {
    var s := raw + "\"" + rest;
    if raw != [] {
      assert s[1..] == raw[1..] + "\"" + rest;
      PlainStringSize(raw[1..], rest);
    }
  }

  lemma QuotedSlices(q: Bytes, raw: Bytes, rest: Bytes)
    requires |q| == 1
    ensures var s := q + raw + q + rest;
            && s[0] == q[0] && s[1..] == raw + q + rest
            && s[1..|raw| + 1] == raw && s[|raw| + 2..] == rest
  {
  }

  lemma LexPlainString(raw: Bytes, rest: Bytes)
    requires IsPlain(raw)
    ensures Lex("\"" + raw + "\"" + rest) == [Str(raw)] + Lex(rest)
  {
    var q: Bytes := "\"";
    var s := q + raw + q + rest;
    QuotedSlices(q, raw, rest);
    PlainStringSize(raw, rest);
    assert First(s) == Lexeme(Str(raw), |raw| + 2);
  }

  lemma LexPunctuation(c: byte, rest: Bytes)
    requires c in {'{', '}', '[', ']', ':', ','}
    ensures First([c] + rest).size == 1 && !First([c] + rest).token.Bad?
    ensures Lex([c] + rest) == [First([c] + rest).token] + Lex(rest)
  {
    assert ([c] + rest)[1..] == rest;
  }

  lemma Regroup(a: Bytes, b: Bytes, c: Bytes, d: Bytes)
    ensures a + b + c + d == a + (b + (c + d))
    ensures a + b + c + d == a + (b + c + d)
  {
  }

  function NamedTokens(open: byte, name: Bytes): seq<Token> {
    [if open == '{' then LBrace else Comma, Str(name), Colon]
  }

  /** `open"raw":` is one mark, one string and a colon. */
  lemma LexName(open: byte, raw: Bytes, rest: Bytes)
    requires (open == '{' || open == ',') && IsPlain(raw)
    ensures Lex(Named(open, raw) + rest) == NamedTokens(open, raw) + Lex(rest)
  {
    var q: Bytes := "\"";
    var colon: Bytes := ":";
    var name := q + raw + q + (colon + rest);
    assert Named(open, raw) + rest == [open] + name by {
      Regroup([open] + q + raw, q, colon, rest);
      Regroup([open], q, raw, q + (colon + rest));
    }
    LexPunctuation(open, name);
    LexPlainString(raw, colon + rest);
    LexPunctuation(':', rest);
  }

  lemma IdentifierIsPlain(s: Bytes)
    requires IsIdentifier(s)
    ensures IsPlain(s)
  {
  }

  function PairTokens(open: byte, name: Bytes, value: Bytes): seq<Token> {
    NamedTokens(open, name) + [Str(value)]
  }

  lemma LexPair(open: byte, name: Bytes, value: Bytes, rest: Bytes)
    requires (open == '{' || open == ',') && IsPlain(name) && IsPlain(value)
    ensures Lex(Pair(open, name, value) + rest) == PairTokens(open, name, value) + Lex(rest)
  {
    var q: Bytes := "\"";
    assert Pair(open, name, value) + rest == Named(open, name) + (q + value + q + rest);
    LexName(open, name, q + value + q + rest);
    LexPlainString(value, rest);
  }

  /** Two pairs and a name, whatever they are called. */
  lemma LexTwoPairs(n0: Bytes, v0: Bytes, n1: Bytes, v1: Bytes, n2: Bytes, rest: Bytes)
    requires IsPlain(n0) && IsPlain(v0) && IsPlain(n1) && IsPlain(v1) && IsPlain(n2)
    ensures Lex(Pair('{', n0, v0) + Pair(',', n1, v1) + Named(',', n2) + rest) ==
            PairTokens('{', n0, v0) + PairTokens(',', n1, v1) + NamedTokens(',', n2) + Lex(rest)
  {
    var last := Named(',', n2) + rest;
    Regroup(Pair('{', n0, v0), Pair(',', n1, v1), Named(',', n2), rest);
    LexPair('{', n0, v0, Pair(',', n1, v1) + last);
    LexPair(',', n1, v1, last);
    LexName(',', n2, rest);
  }

  lemma LexWord(stream: bool)
    ensures Lex(if stream then "true}" else "false}") == [Word(if stream then "true" else "false"), RBrace]
  {
    var s: Bytes := if stream then "true}" else "false}";
    var n := if stream then 4 else 5;
    var end: Bytes := "}";
    assert s[n..] == end && end[1..] == [];
    assert s[..n] == if stream then "true" else "false";
    assert First(s) == Lexeme(Word(s[..n]), n);
    assert Lex(end) == [RBrace];
  }

  lemma PlainNames()
    ensures IsPlain("agentId") && IsPlain("capability") && IsPlain("input") && IsPlain("stream")
  {
  }

  lemma LexLast(name: Bytes, stream: bool)
    requires IsPlain(name)
    ensures Lex(Named(',', name) + (if stream then "true}" else "false}")) ==
            NamedTokens(',', name) + [Word(if stream then "true" else "false"), RBrace]
  {
    LexWord(stream);
    LexName(',', name, if stream then "true}" else "false}");
  }

  lemma FirstMember(name: Bytes, value: Json, rest: Members)
    ensures [LBrace] + MemberTokens(Member(name, value, rest), false) ==
            NamedTokens('{', name) + Tokens(value) + MemberTokens(rest, true)
  {
  }

  lemma NextMember(name: Bytes, value: Json, rest: Members)
    ensures MemberTokens(Member(name, value, rest), true) ==
            NamedTokens(',', name) + Tokens(value) + MemberTokens(rest, true)
  {
  }

  /** Four members, one behind the other. */
  lemma FourParts(a: seq<Token>, b: seq<Token>, c: seq<Token>, u: seq<Token>, d: seq<Token>, w: seq<Token>,
                  end: seq<Token>)
    ensures (a + (b + (c + u + (d + w)))) + end == a + b + c + (u + (d + (w + end)))
  {
  }

  /** Four members with plain names, and plain strings for the first two, lex to
      the tokens of the object they spell. */
  lemma MembersLex(n0: Bytes, v0: Bytes, n1: Bytes, v1: Bytes, n2: Bytes, input: Bytes, v: Json, n3: Bytes,
                   stream: bool)
    requires IsPlain(n0) && IsPlain(v0) && IsPlain(n1) && IsPlain(v1) && IsPlain(n2) && IsPlain(n3)
    requires IsTextOf(input, v)
    ensures var word: Bytes := if stream then "true" else "false";
            var last := Member(n3, Literal(word), NoMembers);
            var suffix := Named(',', n3) + (if stream then "true}" else "false}");
            IsTextOf(Pair('{', n0, v0) + Pair(',', n1, v1) + Named(',', n2) + input + suffix,
                     Obj(Member(n0, Quoted(v0), Member(n1, Quoted(v1), Member(n2, v, last)))))
  {
    var word: Bytes := if stream then "true" else "false";
    var suffix: Bytes := Named(',', n3) + (if stream then "true}" else "false}");
    var head := Pair('{', n0, v0) + Pair(',', n1, v1) + Named(',', n2);
    assert head + input + suffix == head + (input + suffix);
    LexTwoPairs(n0, v0, n1, v1, n2, input + suffix);
    TokensNotBad(v);
    LexAppend(input, suffix);
    LexLast(n3, stream);
    TreeTokens(n0, v0, n1, v1, n2, v, n3, word);
    FourParts(PairTokens('{', n0, v0), PairTokens(',', n1, v1), NamedTokens(',', n2), Tokens(v),
              NamedTokens(',', n3), [Word(word)], [RBrace]);
  }

  lemma TreeTokens(n0: Bytes, v0: Bytes, n1: Bytes, v1: Bytes, n2: Bytes, v: Json, n3: Bytes, word: Bytes)
    ensures Tokens(Obj(Member(n0, Quoted(v0), Member(n1, Quoted(v1),
                       Member(n2, v, Member(n3, Literal(word), NoMembers)))))) ==
            (PairTokens('{', n0, v0) + (PairTokens(',', n1, v1) + (NamedTokens(',', n2) + Tokens(v) +
              (NamedTokens(',', n3) + [Word(word)])))) + [RBrace]
  {
    var last := Member(n3, Literal(word), NoMembers);
    var third := Member(n2, v, last);
    var second := Member(n1, Quoted(v1), third);
    NextMember(n3, Literal(word), NoMembers);
    NextMember(n2, v, last);
    NextMember(n1, Quoted(v1), third);
    FirstMember(n0, Quoted(v0), second);
  }

  /** The printed request lexes to the tokens of the tree it stands for. */
  lemma RequestLexes(agentId: Bytes, capability: Bytes, input: Bytes, v: Json, stream: bool)
    requires IsPlain(agentId) && IsPlain(capability) && IsTextOf(input, v)
    ensures IsTextOf(Prefix(agentId, capability) + input + Suffix(stream), RequestTree(agentId, capability, v, stream))
  {
    PlainNames();
    MembersLex("agentId", agentId, "capability", capability, "input", input, v, "stream", stream);
  }

  lemma NamesDecode(lib: Library)
    ensures Decoded("agentId", lib) == "agentId" && Decoded("capability", lib) == "capability"
    ensures Decoded("input", lib) == "input" && Decoded("stream", lib) == "stream"
  {
    PlainNames();
    PlainDecodes("agentId");
    PlainDecodes("capability");
    PlainDecodes("input");
    PlainDecodes("stream");
  }

  lemma RequestTreeAcceptable(agentId: Bytes, capability: Bytes, input: Json, stream: bool, lib: Library)
    requires Acceptable(input, lib)
    ensures Acceptable(RequestTree(agentId, capability, input, stream), lib)
  {
    var tree := RequestTree(agentId, capability, input, stream);
    var word: Bytes := if stream then "true" else "false";
    var last := Member("stream", Literal(word), NoMembers);
    var third := Member("input", input, last);
    var second := Member("capability", Quoted(capability), third);
    NamesDecode(lib);
    assert Names(last, lib) == ["stream"];
    assert Names(third, lib) == ["input", "stream"];
    assert Names(second, lib) == ["capability", "input", "stream"];
    var names := Names(tree.members, lib);
    assert names == ["agentId", "capability", "input", "stream"];
    assert |names[0]| == 7 && |names[1]| == 10 && |names[2]| == 5 && |names[3]| == 6;
    assert Distinct(names);
    assert Unique(Literal(word), lib) && InRange(Literal(word), lib);
    assert UniqueValues(NoMembers, lib) && MembersInRange(NoMembers, lib);
    assert UniqueValues(last, lib) && MembersInRange(last, lib);
    assert UniqueValues(third, lib) && MembersInRange(third, lib);
    assert UniqueValues(second, lib) && MembersInRange(second, lib);
  }

  lemma RequestParsesBack(agentId: Bytes, capability: Bytes, input: Bytes, stream: bool, lib: Library)
    requires IsIdentifier(agentId) && IsIdentifier(capability) && IsObjectText(input, lib)
    ensures var payload := Prefix(agentId, capability) + input + Suffix(stream);
            && WalkAccepts(payload, lib)
            && exists members ::
                 && IsTextOf(input, Obj(members))
                 && IsTextOf(payload, RequestTree(agentId, capability, Obj(members), stream))
  {
    var payload := Prefix(agentId, capability) + input + Suffix(stream);
    var v :| IsTextOf(input, v) && v.Obj? && Acceptable(v, lib);
    var tree := RequestTree(agentId, capability, v, stream);
    IdentifierIsPlain(agentId);
    IdentifierIsPlain(capability);
    RequestLexes(agentId, capability, input, v, stream);
    RequestTreeAcceptable(agentId, capability, v, stream, lib);
    assert IsTextOf(payload, tree) && Acceptable(tree, lib);
    WalkAcceptsIff(payload, lib);
    var members := v.members;
    assert IsTextOf(input, Obj(members));
  }
}
