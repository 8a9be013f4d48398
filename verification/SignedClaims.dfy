/** The claims that a router credential signs: which member each of them comes from,
    and the decoder that reads them. */
module SignedClaims {
  import opened Prelude
  import opened JsonGrammar
  import opened JsonNames
  import opened ExactObject
  import opened Headers

  datatype Claims = Claims(
    issuer: Bytes, jwtId: Bytes, workspaceId: Bytes, agentId: Bytes, agentVersion: Bytes, releaseId: Bytes,
    cardDigest: Bytes, capability: Bytes, invocationId: Bytes, rootTaskId: Bytes, traceId: Bytes,
    audience: seq<Bytes>, expiresAt: int, issuedAt: int, parent: Option<Bytes>)

  /** The names of the signed context headers. */
  datatype HeaderNames = HeaderNames(
    authorization: Bytes, workspace: Bytes, agent: Bytes, cardVersion: Bytes, release: Bytes, cardDigest: Bytes,
    capability: Bytes, invocation: Bytes, rootTask: Bytes, trace: Bytes, parent: Bytes)

  /** What is decided elsewhere: header names, name folding, signatures, which
      numbers are 64-bit integers, and Core's check of the claims at a time. */
  datatype Core = Core(
    json: Library, names: HeaderNames, fold: Fold,
    signed: (Bytes, Bytes, Bytes) -> bool,
    asInteger: Bytes -> Option<int>,
    valid: (Claims, int) -> bool)

  const REQUIRED_CLAIMS: seq<Bytes> := [
    "iss", "aud", "exp", "iat", "jti", "workspaceId", "agentId", "agentVersion", "releaseId", "cardDigest",
    "capability", "invocationId", "rootTaskId", "traceId"]

  const CLAIM_MEMBERS: set<Bytes> := {
    "iss", "aud", "exp", "iat", "jti", "workspaceId", "agentId", "agentVersion", "releaseId", "cardDigest",
    "capability", "invocationId", "rootTaskId", "parentInvocationId", "traceId"}

  /** The string claims, in the order of the first fields of `Claims`. */
  const TEXT_CLAIMS: seq<Bytes> := [
    "iss", "jti", "workspaceId", "agentId", "agentVersion", "releaseId", "cardDigest", "capability",
    "invocationId", "rootTaskId", "traceId"]

  // ----- members -----

  /** `decodeJSONString`: null leaves the empty string in place. */
  function TextOf(fields: Object, name: Bytes, lib: Library): Option<Bytes> {
    if name !in fields then None
    else match fields[name]
      case Quoted(raw) => Some(Decoded(raw, lib))
      case Literal(word) => if word == "null" then Some([]) else None
      case _ => None
  }

  /** An integer member; null leaves zero in place. */
  function IntegerOf(fields: Object, name: Bytes, core: Core): Option<int> {
    if name !in fields then None
    else match fields[name]
      case Number(text) => core.asInteger(text)
      case Literal(word) => if word == "null" then Some(0) else None
      case _ => None
  }

  function TextItems(items: Items, lib: Library): Option<seq<Bytes>> {
    match items
    case NoItems => Some([])
    case Item(head, tail) =>
      match TextItems(tail, lib)
      case None => None
      case Some(rest) =>
        match head
        case Quoted(raw) => Some([Decoded(raw, lib)] + rest)
        case Literal(word) => if word == "null" then Some([[]] + rest) else None
        case _ => None
  }

  function AudienceOf(fields: Object, lib: Library): Option<seq<Bytes>> {
    if "aud" in fields && fields["aud"].Arr? then TextItems(fields["aud"].items, lib) else None
  }

  // ----- claims -----

  predicate HasAll(fields: Object, names: seq<Bytes>) {
    forall i :: 0 <= i < |names| ==> names[i] in fields
  }

  function Texts(fields: Object, names: seq<Bytes>, lib: Library): (r: Option<seq<Bytes>>)
    ensures r.Some? ==> |r.value| == |names|
  {
    if names == [] then Some([])
    else
      var n := |names| - 1;
      var before, last := Texts(fields, names[..n], lib), TextOf(fields, names[n], lib);
      if before.None? || last.None? then None else Some(before.value + [last.value])
  }

  function ClaimsOf(fields: Object, core: Core): Option<Claims> {
    var texts := Texts(fields, TEXT_CLAIMS, core.json);
    var audience := AudienceOf(fields, core.json);
    var expiresAt, issuedAt := IntegerOf(fields, "exp", core), IntegerOf(fields, "iat", core);
    var parent := TextOf(fields, "parentInvocationId", core.json);
    if !HasAll(fields, REQUIRED_CLAIMS) || texts.None? || audience.None? || expiresAt.None? || issuedAt.None? then None
    else if "parentInvocationId" in fields && parent.None? then None
    else Some(Assembled(texts.value, audience.value, expiresAt.value, issuedAt.value, parent))
  }

  function Assembled(t: seq<Bytes>, audience: seq<Bytes>, expiresAt: int, issuedAt: int, parent: Option<Bytes>): Claims
    requires |t| == 11
  {
    Claims(t[0], t[1], t[2], t[3], t[4], t[5], t[6], t[7], t[8], t[9], t[10], audience, expiresAt, issuedAt, parent)
  }

  // ----- what an object says -----

  /** The object has a member of this very name and value. */
  predicate Has(members: Members, name: Bytes, v: Json, lib: Library) {
    match members
    case NoMembers => false
    case Member(n, w, rest) => (Decoded(n, lib) == name && w == v) || Has(rest, name, v, lib)
  }

  /** A string is its decoded text, and null the empty one. */
  predicate IsText(v: Json, text: Bytes, lib: Library) {
    (v.Quoted? && text == Decoded(v.raw, lib)) || (v == Literal("null") && text == "")
  }

  predicate IsInteger(v: Json, n: int, core: Core) {
    (v.Number? && core.asInteger(v.text) == Some(n)) || (v == Literal("null") && n == 0)
  }

  predicate AreTexts(items: Items, texts: seq<Bytes>, lib: Library) {
    match items
    case NoItems => texts == []
    case Item(head, tail) => texts != [] && IsText(head, texts[0], lib) && AreTexts(tail, texts[1..], lib)
  }

  ghost predicate SaysText(members: Members, name: Bytes, text: Bytes, lib: Library) {
    exists v :: Has(members, name, v, lib) && IsText(v, text, lib)
  }

  ghost predicate SaysInteger(members: Members, name: Bytes, n: int, core: Core) {
    exists v :: Has(members, name, v, core.json) && IsInteger(v, n, core)
  }

  ghost predicate SaysTexts(members: Members, name: Bytes, texts: seq<Bytes>, lib: Library) {
    exists items :: Has(members, name, Arr(items), lib) && AreTexts(items, texts, lib)
  }

  ghost predicate SaysNothing(members: Members, name: Bytes, lib: Library) {
    forall v :: !Has(members, name, v, lib)
  }

  /** Each string claim is what the member of its very name says. */
  ghost predicate SaysAllTexts(members: Members, claims: Claims, lib: Library) {
    && SaysText(members, "iss", claims.issuer, lib)
    && SaysText(members, "jti", claims.jwtId, lib)
    && SaysText(members, "workspaceId", claims.workspaceId, lib)
    && SaysText(members, "agentId", claims.agentId, lib)
    && SaysText(members, "agentVersion", claims.agentVersion, lib)
    && SaysText(members, "releaseId", claims.releaseId, lib)
    && SaysText(members, "cardDigest", claims.cardDigest, lib)
    && SaysText(members, "capability", claims.capability, lib)
    && SaysText(members, "invocationId", claims.invocationId, lib)
    && SaysText(members, "rootTaskId", claims.rootTaskId, lib)
    && SaysText(members, "traceId", claims.traceId, lib)
  }

  /** So are the audience and the times; and the parent is there exactly when its
      member is. */
  ghost predicate SaysClaims(members: Members, claims: Claims, core: Core) {
    && SaysAllTexts(members, claims, core.json)
    && SaysTexts(members, "aud", claims.audience, core.json)
    && SaysInteger(members, "exp", claims.expiresAt, core)
    && SaysInteger(members, "iat", claims.issuedAt, core)
    && (match claims.parent
        case Some(text) => SaysText(members, "parentInvocationId", text, core.json)
        case None => SaysNothing(members, "parentInvocationId", core.json))
  }

  /** `data` spells one object of known claims, none of them twice, that says these. */
  ghost predicate SpellsClaims(data: Bytes, members: Members, claims: Claims, core: Core) {
    && IsTextOf(data, Obj(members))
    && Distinct(Names(members, core.json))
    && AllIn(Names(members, core.json), {
         "iss", "aud", "exp", "iat", "jti", "workspaceId", "agentId", "agentVersion", "releaseId", "cardDigest",
         "capability", "invocationId", "rootTaskId", "parentInvocationId", "traceId"})
    && MembersDepth(members) <= 10000
    && SaysClaims(members, claims, core)
  }

  // ----- objects and their maps -----

  lemma {:induction false} NameNotMapped(members: Members, name: Bytes, lib: Library)
    ensures name in MapOf(members, lib) <==> name in Names(members, lib)
  {
    if members.Member? {
      NameNotMapped(members.rest, name, lib);
    }
  }

  lemma {:induction false} HasIff(members: Members, name: Bytes, v: Json, lib: Library)
    requires Distinct(Names(members, lib))
    ensures Has(members, name, v, lib) <==> name in MapOf(members, lib) && MapOf(members, lib)[name] == v
  {
    match members
    case NoMembers =>
    case Member(n, w, rest) =>
      var names, others := Names(members, lib), Names(rest, lib);
      assert names == [Decoded(n, lib)] + others;
      assert forall i :: 0 <= i < |others| ==> names[i + 1] == others[i];
      assert names[0] !in others;
      HasIff(rest, name, v, lib);
      NameNotMapped(rest, Decoded(n, lib), lib);
  }

  lemma SaysTextIff(members: Members, name: Bytes, text: Bytes, lib: Library)
    requires Distinct(Names(members, lib))
    ensures SaysText(members, name, text, lib) <==> TextOf(MapOf(members, lib), name, lib) == Some(text)
  {
    var fields := MapOf(members, lib);
    if name in fields {
      HasIff(members, name, fields[name], lib);
    }
    forall v | Has(members, name, v, lib) ensures name in fields && fields[name] == v {
      HasIff(members, name, v, lib);
    }
  }

  lemma SaysIntegerIff(members: Members, name: Bytes, n: int, core: Core)
    requires Distinct(Names(members, core.json))
    ensures SaysInteger(members, name, n, core) <==> IntegerOf(MapOf(members, core.json), name, core) == Some(n)
  {
    var fields := MapOf(members, core.json);
    if name in fields {
      HasIff(members, name, fields[name], core.json);
    }
    forall v | Has(members, name, v, core.json) ensures name in fields && fields[name] == v {
      HasIff(members, name, v, core.json);
    }
  }

  lemma {:induction false} AreTextsIff(items: Items, texts: seq<Bytes>, lib: Library)
    ensures AreTexts(items, texts, lib) <==> TextItems(items, lib) == Some(texts)
  {
    match items
    case NoItems =>
    case Item(head, tail) =>
      if texts != [] {
        AreTextsIff(tail, texts[1..], lib);
        assert texts == [texts[0]] + texts[1..];
      }
      if TextItems(items, lib) == Some(texts) {
        assert texts[1..] == TextItems(tail, lib).value;
      }
  }

  lemma SaysTextsIff(members: Members, texts: seq<Bytes>, lib: Library)
    requires Distinct(Names(members, lib))
    ensures SaysTexts(members, "aud", texts, lib) <==> AudienceOf(MapOf(members, lib), lib) == Some(texts)
  {
    var fields := MapOf(members, lib);
    if "aud" in fields && fields["aud"].Arr? {
      HasIff(members, "aud", fields["aud"], lib);
      AreTextsIff(fields["aud"].items, texts, lib);
    }
    forall items | Has(members, "aud", Arr(items), lib) ensures "aud" in fields && fields["aud"] == Arr(items) {
      HasIff(members, "aud", Arr(items), lib);
    }
  }

  lemma SaysNothingIff(members: Members, name: Bytes, lib: Library)
    requires Distinct(Names(members, lib))
    ensures SaysNothing(members, name, lib) <==> name !in MapOf(members, lib)
  {
    var fields := MapOf(members, lib);
    if name in fields {
      HasIff(members, name, fields[name], lib);
    }
    forall v ensures Has(members, name, v, lib) ==> name in fields {
      HasIff(members, name, v, lib);
    }
  }

  lemma {:induction false} TextsIff(fields: Object, names: seq<Bytes>, texts: seq<Bytes>, lib: Library)
    ensures Texts(fields, names, lib) == Some(texts) <==>
            |texts| == |names| && forall i :: 0 <= i < |names| ==> TextOf(fields, names[i], lib) == Some(texts[i])
  {
    if names != [] && |texts| == |names| {
      var n := |names| - 1;
      TextsIff(fields, names[..n], texts[..n], lib);
      assert texts == texts[..n] + [texts[n]];
      assert forall i :: 0 <= i < n ==> names[..n][i] == names[i] && texts[..n][i] == texts[i];
    }
  }

  /** The string claims, in the order of the fields. */
  function TextsOf(claims: Claims): seq<Bytes> {
    [claims.issuer, claims.jwtId, claims.workspaceId, claims.agentId, claims.agentVersion, claims.releaseId,
     claims.cardDigest, claims.capability, claims.invocationId, claims.rootTaskId, claims.traceId]
  }

  lemma AssembledIff(texts: seq<Bytes>, audience: seq<Bytes>, expiresAt: int, issuedAt: int, parent: Option<Bytes>,
                     claims: Claims)
    requires |texts| == 11
    ensures Assembled(texts, audience, expiresAt, issuedAt, parent) == claims <==>
            && texts == TextsOf(claims) && claims.audience == audience
            && claims.expiresAt == expiresAt && claims.issuedAt == issuedAt && claims.parent == parent
  {
  }

  /** The parts of `ClaimsOf`. */
  predicate HoldsClaims(fields: Object, claims: Claims, core: Core) {
    && Texts(fields, TEXT_CLAIMS, core.json) == Some(TextsOf(claims))
    && AudienceOf(fields, core.json) == Some(claims.audience)
    && IntegerOf(fields, "exp", core) == Some(claims.expiresAt)
    && IntegerOf(fields, "iat", core) == Some(claims.issuedAt)
    && ("parentInvocationId" in fields <==> claims.parent.Some?)
    && TextOf(fields, "parentInvocationId", core.json) == claims.parent
  }

  lemma RequiredAreRead(fields: Object, claims: Claims, core: Core)
    requires HoldsClaims(fields, claims, core)
    ensures HasAll(fields, REQUIRED_CLAIMS)
  {
    TextsIff(fields, TEXT_CLAIMS, TextsOf(claims), core.json);
    assert forall i :: 0 <= i < 11 ==> TextOf(fields, TEXT_CLAIMS[i], core.json).Some?;
    assert forall i :: 0 <= i < 11 ==> TEXT_CLAIMS[i] in fields;
    forall i | 0 <= i < 14 ensures REQUIRED_CLAIMS[i] in fields {
      RequiredIsRead(fields, i);
    }
  }

  lemma RequiredIsRead(fields: Object, i: nat)
    requires i < 14 && "aud" in fields && "exp" in fields && "iat" in fields
    requires forall k :: 0 <= k < 11 ==> TEXT_CLAIMS[k] in fields
    ensures REQUIRED_CLAIMS[i] in fields
  {
    assert |REQUIRED_CLAIMS| == 14;
    if i == 0 {
      assert REQUIRED_CLAIMS[0] == TEXT_CLAIMS[0];
    } else if i == 4 {
      assert REQUIRED_CLAIMS[4] == TEXT_CLAIMS[1];
    } else if i >= 5 {
      assert REQUIRED_CLAIMS[i] == TEXT_CLAIMS[i - 3];
    }
  }

  lemma ClaimsOfIff(fields: Object, claims: Claims, core: Core)
    ensures ClaimsOf(fields, core) == Some(claims) <==> HoldsClaims(fields, claims, core)
  {
    var texts := Texts(fields, TEXT_CLAIMS, core.json);
    if texts.Some? {
      var parent := TextOf(fields, "parentInvocationId", core.json);
      var audience, expiresAt := AudienceOf(fields, core.json), IntegerOf(fields, "exp", core);
      var issuedAt := IntegerOf(fields, "iat", core);
      if audience.Some? && expiresAt.Some? && issuedAt.Some? {
        AssembledIff(texts.value, audience.value, expiresAt.value, issuedAt.value, parent, claims);
      }
    }
    if HoldsClaims(fields, claims, core) {
      RequiredAreRead(fields, claims, core);
    }
  }

  /** The decoder reads from an object's map exactly the claims that its members say. */
  lemma SaysClaimsIff(members: Members, claims: Claims, core: Core)
    requires Distinct(Names(members, core.json))
    ensures ClaimsOf(MapOf(members, core.json), core) == Some(claims) <==> SaysClaims(members, claims, core)
  {
    var fields := MapOf(members, core.json);
    ClaimsOfIff(fields, claims, core);
    TextsIff(fields, TEXT_CLAIMS, TextsOf(claims), core.json);
    AllTextsIff(members, claims, core.json);
    SaysTextsIff(members, claims.audience, core.json);
    SaysIntegerIff(members, "exp", claims.expiresAt, core);
    SaysIntegerIff(members, "iat", claims.issuedAt, core);
    SaysNothingIff(members, "parentInvocationId", core.json);
    if claims.parent.Some? {
      SaysTextIff(members, "parentInvocationId", claims.parent.value, core.json);
    }
  }

  lemma AllTextsSplit(members: Members, claims: Claims, lib: Library)
    ensures SaysAllTexts(members, claims, lib) <==>
            forall i :: 0 <= i < 11 ==> SaysText(members, TEXT_CLAIMS[i], TextsOf(claims)[i], lib)
  {
    if SaysAllTexts(members, claims, lib) {
      forall i | 0 <= i < 11 ensures SaysText(members, TEXT_CLAIMS[i], TextsOf(claims)[i], lib) {
        assert i in {0, 1, 2, 3, 4, 5, 6, 7, 8, 9, 10};
      }
    }
    if forall i :: 0 <= i < 11 ==> SaysText(members, TEXT_CLAIMS[i], TextsOf(claims)[i], lib) {
      assert SaysText(members, TEXT_CLAIMS[0], TextsOf(claims)[0], lib);
      assert SaysText(members, TEXT_CLAIMS[1], TextsOf(claims)[1], lib);
      assert SaysText(members, TEXT_CLAIMS[2], TextsOf(claims)[2], lib);
      assert SaysText(members, TEXT_CLAIMS[3], TextsOf(claims)[3], lib);
      assert SaysText(members, TEXT_CLAIMS[4], TextsOf(claims)[4], lib);
      assert SaysText(members, TEXT_CLAIMS[5], TextsOf(claims)[5], lib);
      assert SaysText(members, TEXT_CLAIMS[6], TextsOf(claims)[6], lib);
      assert SaysText(members, TEXT_CLAIMS[7], TextsOf(claims)[7], lib);
      assert SaysText(members, TEXT_CLAIMS[8], TextsOf(claims)[8], lib);
      assert SaysText(members, TEXT_CLAIMS[9], TextsOf(claims)[9], lib);
      assert SaysText(members, TEXT_CLAIMS[10], TextsOf(claims)[10], lib);
    }
  }

  lemma AllTextsIff(members: Members, claims: Claims, lib: Library)
    requires Distinct(Names(members, lib))
    ensures SaysAllTexts(members, claims, lib) <==>
            forall i :: 0 <= i < 11 ==> TextOf(MapOf(members, lib), TEXT_CLAIMS[i], lib) == Some(TextsOf(claims)[i])
  {
    AllTextsSplit(members, claims, lib);
    forall i | 0 <= i < 11
      ensures TextOf(MapOf(members, lib), TEXT_CLAIMS[i], lib) == Some(TextsOf(claims)[i]) <==>
              SaysText(members, TEXT_CLAIMS[i], TextsOf(claims)[i], lib)
    {
      SaysTextIff(members, TEXT_CLAIMS[i], TextsOf(claims)[i], lib);
    }
  }

  // ----- the decoder -----

  /** The test for required members. */
  method CheckRequired(fields: Object, names: seq<Bytes>) returns (ok: bool)
    ensures ok == HasAll(fields, names)
  {
    for i := 0 to |names|
      invariant forall j :: 0 <= j < i ==> names[j] in fields
    {
      if names[i] !in fields {
        return false;
      }
    }
    return true;
  }

  /** The loop over the string claims. */
  method ReadTexts(fields: Object, names: seq<Bytes>, lib: Library) returns (texts: Option<seq<Bytes>>)
    ensures texts == Texts(fields, names, lib)
  {
    var found: seq<Bytes> := [];
    for i := 0 to |names|
      invariant Texts(fields, names[..i], lib) == Some(found)
    {
      var value := TextOf(fields, names[i], lib);
      assert names[..i + 1][..i] == names[..i];
      if value.None? {
        TextsFail(fields, names, i, lib);
        return None;
      }
      found := found + [value.value];
    }
    assert names[..|names|] == names;
    return Some(found);
  }

  /** `decodeClaims`, as a function of the object read. */
  function ClaimsIn(data: Bytes, core: Core): Option<Claims> {
    match ObjectOf(data, CLAIM_MEMBERS, core.json)
    case None => None
    case Some(fields) => ClaimsOf(fields, core)
  }

  lemma ClaimsInIff(data: Bytes, core: Core, claims: Claims)
    ensures ClaimsIn(data, core) == Some(claims) <==> exists members :: SpellsClaims(data, members, claims, core)
  {
    var fields := ObjectOf(data, CLAIM_MEMBERS, core.json);
    if fields.Some? {
      ObjectOfIff(data, CLAIM_MEMBERS, core.json, fields.value);
      var members :| Spells(data, members, CLAIM_MEMBERS, core.json) && fields.value == MapOf(members, core.json);
      SaysClaimsIff(members, claims, core);
      if ClaimsIn(data, core) == Some(claims) {
        assert SpellsClaims(data, members, claims, core);
      }
    }
    forall members | SpellsClaims(data, members, claims, core) ensures ClaimsIn(data, core) == Some(claims) {
      assert Spells(data, members, CLAIM_MEMBERS, core.json);
      ObjectOfIff(data, CLAIM_MEMBERS, core.json, MapOf(members, core.json));
      SaysClaimsIff(members, claims, core);
    }
  }

  /** `decodeClaims`: the claims that the object says, if `data` spells one. */
  method DecodeClaims(data: Bytes, core: Core) returns (claims: Option<Claims>)
    ensures claims == ClaimsIn(data, core)
    ensures forall c :: claims == Some(c) <==> exists members :: SpellsClaims(data, members, c, core)
  {
    forall c ensures ClaimsIn(data, core) == Some(c) <==> exists members :: SpellsClaims(data, members, c, core) {
      ClaimsInIff(data, core, c);
    }
    var fields := DecodeObject(data, CLAIM_MEMBERS, core.json);
    if fields.None? {
      return None;
    }
    claims := ReadClaims(fields.value, core);
  }

  method ReadClaims(fields: Object, core: Core) returns (claims: Option<Claims>)
    ensures claims == ClaimsOf(fields, core)
  {
    var complete := CheckRequired(fields, REQUIRED_CLAIMS);
    if !complete {
      return None;
    }
    var texts := ReadTexts(fields, TEXT_CLAIMS, core.json);
    if texts.None? {
      return None;
    }
    var audience := AudienceOf(fields, core.json);
    if audience.None? {
      return None;
    }
    var expiresAt := IntegerOf(fields, "exp", core);
    if expiresAt.None? {
      return None;
    }
    var issuedAt := IntegerOf(fields, "iat", core);
    if issuedAt.None? {
      return None;
    }
    var parent := TextOf(fields, "parentInvocationId", core.json);
    if "parentInvocationId" in fields && parent.None? {
      return None;
    }
    return Some(Assembled(texts.value, audience.value, expiresAt.value, issuedAt.value, parent));
  }

  lemma {:induction false} TextsFail(fields: Object, names: seq<Bytes>, i: nat, lib: Library)
    requires i < |names| && TextOf(fields, names[i], lib).None?
    ensures Texts(fields, names, lib).None?
  {
    var n := |names| - 1;
    if i < n {
      TextsFail(fields, names[..n], i, lib);
    }
  }
}
