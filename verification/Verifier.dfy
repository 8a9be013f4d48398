/** The router credential verifier: ordered checks that end in the replay guard. */
module Verifier {
  import opened Prelude
  import opened JsonGrammar
  import opened JsonNames
  import opened ExactObject
  import opened Credential
  import opened Headers
  import opened Replay
  import opened SignedClaims

  datatype Config = Config(issuer: Bytes, audience: Bytes, keyId: Bytes, publicKey: Bytes)

  const ALGORITHM: Bytes := "EdDSA"
  const CREDENTIAL_TYPE: Bytes := "nekiro-router+jwt"
  const HEADER_MEMBERS: set<Bytes> := {"alg", "typ", "kid"}

  // ----- one credential -----

  datatype Status = Unauthenticated | Forbidden

  datatype Checked = Refuse(status: Status) | Pass(claims: Claims)

  predicate HeaderSupported(fields: Object, config: Config, lib: Library) {
    && TextOf(fields, "alg", lib) == Some(ALGORITHM)
    && TextOf(fields, "typ", lib) == Some(CREDENTIAL_TYPE)
    && TextOf(fields, "kid", lib) == Some(config.keyId)
  }

  /** The checks on the credential itself, in order, at the time `now`. */
  function Check(credential: Bytes, config: Config, core: Core, now: int): Checked {
    match ParseCompact(credential)
    case None => Refuse(Unauthenticated)
    case Some(parsed) =>
      match ObjectOf(parsed.header, HEADER_MEMBERS, core.json)
      case None => Refuse(Unauthenticated)
      case Some(header) =>
        if |header| != |HEADER_MEMBERS| || !HeaderSupported(header, config, core.json) then Refuse(Unauthenticated)
        else if !core.signed(config.publicKey, parsed.signed, parsed.signature) then Refuse(Unauthenticated)
        else match ClaimsIn(parsed.claims, core)
          case None => Refuse(Unauthenticated)
          case Some(claims) => CheckClaims(claims, config, core, now)
  }

  function CheckClaims(claims: Claims, config: Config, core: Core, now: int): Checked {
    if claims.parent == Some([]) then Refuse(Unauthenticated)
    else if !core.valid(claims, now) || claims.issuer != config.issuer then Refuse(Unauthenticated)
    else if claims.audience == [] || claims.audience[0] != config.audience then Refuse(Forbidden)
    else Pass(claims)
  }

  function ExpectedContext(claims: Claims, names: HeaderNames): map<Bytes, Bytes> {
    map[names.workspace := claims.workspaceId, names.agent := claims.agentId,
        names.cardVersion := claims.agentVersion, names.release := claims.releaseId,
        names.cardDigest := claims.cardDigest, names.capability := claims.capability,
        names.invocation := claims.invocationId, names.rootTask := claims.rootTaskId, names.trace := claims.traceId]
  }

  ghost predicate ContextSigned(header: Header, claims: Claims, core: Core) {
    ContextAgrees(header, ExpectedContext(claims, core.names), core.names.parent, claims.parent, core.fold)
  }

  /** The checks on credentials at the time `now`. */
  function Checker(config: Config, core: Core, now: int): Bytes -> Checked {
    credential => Check(credential, config, core, now)
  }

  ghost predicate PassesAs(check: Bytes -> Checked, credential: Bytes, header: Header, core: Core, claims: Claims) {
    && Presents(header, core.names.authorization, credential, core.fold)
    && check(credential) == Pass(claims)
    && ContextSigned(header, claims, core)
  }

  ghost predicate DeniedAs(check: Bytes -> Checked, credential: Bytes, header: Header, core: Core, status: Status) {
    && Presents(header, core.names.authorization, credential, core.fold)
    && match check(credential)
       case Refuse(s) => status == s
       case Pass(claims) => status == Forbidden && !ContextSigned(header, claims, core)
  }

  ghost predicate PresentsNone(header: Header, core: Core) {
    forall c :: !Presents(header, core.names.authorization, c, core.fold)
  }

  ghost predicate PassesBy(check: Bytes -> Checked, header: Header, core: Core, claims: Claims) {
    exists credential :: PassesAs(check, credential, header, core, claims)
  }

  ghost predicate DeniedBy(check: Bytes -> Checked, header: Header, core: Core, status: Status) {
    || (PresentsNone(header, core) && status == Unauthenticated)
    || exists credential :: DeniedAs(check, credential, header, core, status)
  }

  /** A request that passes every check before the replay guard at the time `now`. */
  ghost predicate Passes(header: Header, config: Config, core: Core, now: int, claims: Claims) {
    PassesBy(Checker(config, core, now), header, core, claims)
  }

  /** A request that an earlier check turns away with `status`. */
  ghost predicate Denied(header: Header, config: Config, core: Core, now: int, status: Status) {
    DeniedBy(Checker(config, core, now), header, core, status)
  }

  /** What a presented credential and the context headers decide. */
  lemma Decided(check: Bytes -> Checked, credential: Bytes, header: Header, core: Core)
    requires Presents(header, core.names.authorization, credential, core.fold)
    ensures match check(credential)
            case Refuse(status) => DeniedBy(check, header, core, status)
            case Pass(claims) =>
              if ContextSigned(header, claims, core) then PassesBy(check, header, core, claims)
              else DeniedBy(check, header, core, Forbidden)
  {
    match check(credential)
    case Refuse(status) =>
      assert DeniedAs(check, credential, header, core, status);
    case Pass(claims) =>
      assert PassesAs(check, credential, header, core, claims) || DeniedAs(check, credential, header, core, Forbidden);
  }

  // ----- what a passing credential is -----

  /** `data` spells an object of exactly the three members of the protected header,
      each with the one value that is supported. */
  ghost predicate SpellsHeader(data: Bytes, members: Members, config: Config, lib: Library) {
    && IsTextOf(data, Obj(members)) && Distinct(Names(members, lib)) && MembersDepth(members) <= 10000
    && NameSet(members, lib) == {"alg", "typ", "kid"}
    && SaysText(members, "alg", "EdDSA", lib)
    && SaysText(members, "typ", "nekiro-router+jwt", lib)
    && SaysText(members, "kid", config.keyId, lib)
  }

  lemma SupportedIff(members: Members, config: Config, lib: Library)
    requires Distinct(Names(members, lib))
    ensures HeaderSupported(MapOf(members, lib), config, lib) <==>
            && SaysText(members, "alg", "EdDSA", lib)
            && SaysText(members, "typ", "nekiro-router+jwt", lib)
            && SaysText(members, "kid", config.keyId, lib)
  {
    SaysTextIff(members, "alg", ALGORITHM, lib);
    SaysTextIff(members, "typ", CREDENTIAL_TYPE, lib);
    SaysTextIff(members, "kid", config.keyId, lib);
  }

  /** The credential is the printed form of a header with exactly the three known
      members, of claims that none repeats and all are known, and of a signature
      over both; and the claims stand at the time `now`. */
  ghost predicate Genuine(credential: Bytes, config: Config, core: Core, now: int, claims: Claims,
                          header: Bytes, body: Bytes, signature: Bytes, named: Members, claimed: Members) {
    && credential == Print(header, body, signature) && |signature| == 64
    && core.signed(config.publicKey, SigningInput(header, body), signature)
    && SpellsHeader(header, named, config, core.json)
    && SpellsClaims(body, claimed, claims, core)
    && claims.parent != Some([]) && core.valid(claims, now) && claims.issuer == config.issuer
    && claims.audience != [] && claims.audience[0] == config.audience
  }

  lemma SpelledIsNotEmpty(s: Bytes, v: Json)
    requires IsTextOf(s, v)
    ensures s != []
  {
    ParseIsTextOf(s, v);
  }

  lemma ExactHeader(header: Bytes, named: Members, config: Config, lib: Library)
    requires SpellsHeader(header, named, config, lib)
    ensures ObjectOf(header, HEADER_MEMBERS, lib) == Some(MapOf(named, lib)) && |MapOf(named, lib)| == |HEADER_MEMBERS|
    ensures HeaderSupported(MapOf(named, lib), config, lib)
  {
    SupportedIff(named, config, lib);
    NameSetOfNames(named, lib);
    assert Spells(header, named, HEADER_MEMBERS, lib);
    ObjectOfIff(header, HEADER_MEMBERS, lib, MapOf(named, lib));
    assert |MapOf(named, lib)| == |MapOf(named, lib).Keys|;
  }

  lemma GenuinePasses(credential: Bytes, config: Config, core: Core, now: int, claims: Claims,
                      header: Bytes, body: Bytes, signature: Bytes, named: Members, claimed: Members)
    requires Genuine(credential, config, core, now, claims, header, body, signature, named, claimed)
    ensures Check(credential, config, core, now) == Pass(claims)
  {
    SpelledIsNotEmpty(header, Obj(named));
    SpelledIsNotEmpty(body, Obj(claimed));
    PrintedParses(header, body, signature);
    ExactHeader(header, named, config, core.json);
    ClaimsInIff(body, core, claims);
  }

  lemma HeaderSpelled(data: Bytes, config: Config, lib: Library) returns (named: Members)
    requires var fields := ObjectOf(data, HEADER_MEMBERS, lib);
             fields.Some? && |fields.value| == |HEADER_MEMBERS| && HeaderSupported(fields.value, config, lib)
    ensures SpellsHeader(data, named, config, lib)
  {
    var fields := ObjectOf(data, HEADER_MEMBERS, lib).value;
    ObjectOfIff(data, HEADER_MEMBERS, lib, fields);
    named :| Spells(data, named, HEADER_MEMBERS, lib) && fields == MapOf(named, lib);
    NameSetOfNames(named, lib);
    assert |fields| == |fields.Keys|;
    SubsetOfEqualSize(fields.Keys, HEADER_MEMBERS);
    SupportedIff(named, config, lib);
  }

  /** A credential passes exactly when it is genuine: nothing but the one printed
      form of a header and claims that the configured key has signed gets through. */
  lemma CredentialIff(credential: Bytes, config: Config, core: Core, now: int, claims: Claims)
    requires NoBreaks(credential)
    ensures Check(credential, config, core, now) == Pass(claims) <==>
            exists header, body, signature, named, claimed ::
              Genuine(credential, config, core, now, claims, header, body, signature, named, claimed)
  {
    if Check(credential, config, core, now) == Pass(claims) {
      var parsed := ParseCompact(credential).value;
      ParseIff(credential, parsed);
      ClaimsInIff(parsed.claims, core, claims);
      var named := HeaderSpelled(parsed.header, config, core.json);
      var claimed :| SpellsClaims(parsed.claims, claimed, claims, core);
      assert Genuine(credential, config, core, now, claims,
                     parsed.header, parsed.claims, parsed.signature, named, claimed);
    }
    forall header, body, signature, named, claimed |
      Genuine(credential, config, core, now, claims, header, body, signature, named, claimed)
      ensures Check(credential, config, core, now) == Pass(claims)
    {
      GenuinePasses(credential, config, core, now, claims, header, body, signature, named, claimed);
    }
  }

  /** A credential is forbidden, and not merely unauthenticated, exactly when it
      would pass a verifier for another audience. Core's check is taken to demand
      an audience, as the source does when it looks at the first one. */
  lemma ForbiddenIff(credential: Bytes, config: Config, core: Core, now: int)
    requires forall claims, t :: core.valid(claims, t) ==> claims.audience != []
    ensures Check(credential, config, core, now) == Refuse(Forbidden) <==>
            exists other :: other != config.audience && Check(credential, config.(audience := other), core, now).Pass?
  {
    if Check(credential, config, core, now) == Refuse(Forbidden) {
      var parsed := ParseCompact(credential).value;
      var claims := ClaimsIn(parsed.claims, core).value;
      var other := claims.audience[0];
      assert Check(credential, config.(audience := other), core, now) == Pass(claims);
    }
    forall other | other != config.audience && Check(credential, config.(audience := other), core, now).Pass?
      ensures Check(credential, config, core, now) == Refuse(Forbidden)
    {
    }
  }

  /** Two passing credentials that agree in what was signed carry the same claims. */
  lemma SignedBytesFixClaims(c1: Bytes, c2: Bytes, config: Config, core: Core, t1: int, t2: int,
                             claims1: Claims, claims2: Claims)
    requires NoBreaks(c1) && NoBreaks(c2)
    requires Check(c1, config, core, t1) == Pass(claims1) && Check(c2, config, core, t2) == Pass(claims2)
    requires ParseCompact(c1).value.signed == ParseCompact(c2).value.signed
    ensures claims1 == claims2
  {
    var p1, p2 := ParseCompact(c1).value, ParseCompact(c2).value;
    ParseIff(c1, p1);
    ParseIff(c2, p2);
    SigningInputInjective(p1.header, p1.claims, p2.header, p2.claims);
  }

  lemma PresentsOne(header: Header, authorization: Bytes, fold: Fold, c1: Bytes, c2: Bytes)
    requires Presents(header, authorization, c1, fold) && Presents(header, authorization, c2, fold)
    ensures c1 == c2 && NoBreaks(c1)
  {
    BearerIff([SCHEME + c1], c1);
    var k1 :| k1 in header && Matches(k1, authorization, fold) && header[k1] == [SCHEME + c1]
              && forall o :: o in header && o != k1 && Matches(o, authorization, fold) ==> header[o] == [];
    var k2 :| k2 in header && Matches(k2, authorization, fold) && header[k2] == [SCHEME + c2]
              && forall o :: o in header && o != k2 && Matches(o, authorization, fold) ==> header[o] == [];
    assert k1 == k2;
    BearerIff([SCHEME + c2], c2);
    assert [SCHEME + c1][0] == [SCHEME + c2][0];
    BearerIff([SCHEME + c1], c2);
  }

  lemma VerdictOnce(check: Bytes -> Checked, header: Header, core: Core)
    ensures (exists claims :: PassesBy(check, header, core, claims)) <==>
            !exists status :: DeniedBy(check, header, core, status)
    ensures forall a, b :: PassesBy(check, header, core, a) && PassesBy(check, header, core, b) ==> a == b
    ensures forall a, b :: DeniedBy(check, header, core, a) && DeniedBy(check, header, core, b) ==> a == b
  {
    var name := core.names.authorization;
    forall c1, c2 | Presents(header, name, c1, core.fold) && Presents(header, name, c2, core.fold)
      ensures c1 == c2
    {
      PresentsOne(header, core.names.authorization, core.fold, c1, c2);
    }
    if c :| Presents(header, core.names.authorization, c, core.fold) {
      Decided(check, c, header, core);
    } else {
      assert DeniedBy(check, header, core, Unauthenticated);
    }
  }

  /** The checks before the replay guard decide every request one way only. */
  lemma OneVerdict(header: Header, config: Config, core: Core, now: int)
    ensures (exists claims :: Passes(header, config, core, now, claims)) <==>
            !exists status :: Denied(header, config, core, now, status)
    ensures forall a, b :: Passes(header, config, core, now, a) && Passes(header, config, core, now, b) ==> a == b
    ensures forall a, b :: Denied(header, config, core, now, a) && Denied(header, config, core, now, b) ==> a == b
  {
    var check := Checker(config, core, now);
    VerdictOnce(check, header, core);
    assert forall claims :: Passes(header, config, core, now, claims) <==> PassesBy(check, header, core, claims);
    assert forall status :: Denied(header, config, core, now, status) <==> DeniedBy(check, header, core, status);
  }

  // ----- what the context headers carry -----

  /** The header has one value, the text of the member that it stands for. */
  ghost predicate CarriesText(header: Header, name: Bytes, members: Members, member: Bytes, core: Core) {
    exists text :: SaysText(members, member, text, core.json) && OnlyValue(header, name, text, core.fold)
  }

  /** The headers that name the agent, its card and its workspace. */
  ghost predicate TargetSays(header: Header, members: Members, core: Core) {
    var names := core.names;
    && CarriesText(header, names.workspace, members, "workspaceId", core)
    && CarriesText(header, names.agent, members, "agentId", core)
    && CarriesText(header, names.cardVersion, members, "agentVersion", core)
    && CarriesText(header, names.release, members, "releaseId", core)
    && CarriesText(header, names.cardDigest, members, "cardDigest", core)
  }

  /** The headers that name the invocation. */
  ghost predicate CallSays(header: Header, members: Members, core: Core) {
    var names := core.names;
    && CarriesText(header, names.capability, members, "capability", core)
    && CarriesText(header, names.invocation, members, "invocationId", core)
    && CarriesText(header, names.rootTask, members, "rootTaskId", core)
    && CarriesText(header, names.trace, members, "traceId", core)
  }

  /** The parent's header is there exactly when its member is. */
  ghost predicate ParentSays(header: Header, members: Members, core: Core) {
    if SaysNothing(members, "parentInvocationId", core.json) then NoValue(header, core.names.parent, core.fold)
    else CarriesText(header, core.names.parent, members, "parentInvocationId", core)
  }

  ghost predicate ContextSays(header: Header, members: Members, core: Core) {
    TargetSays(header, members, core) && CallSays(header, members, core) && ParentSays(header, members, core)
  }

  /** The signed names are nine different ones. */
  predicate NamesDiffer(names: HeaderNames) {
    var all := ContextNames(names);
    forall i, j :: 0 <= i < j < |all| ==> all[i] != all[j]
  }

  function ContextNames(names: HeaderNames): (all: seq<Bytes>)
    ensures |all| == 9
  {
    [names.workspace, names.agent, names.cardVersion, names.release, names.cardDigest,
     names.capability, names.invocation, names.rootTask, names.trace]
  }

  /** Each of the nine headers has the value of its claim. */
  ghost predicate ContextValues(header: Header, claims: Claims, core: Core) {
    forall i :: 0 <= i < 9 ==> OnlyValue(header, ContextNames(core.names)[i], ContextTexts(claims)[i], core.fold)
  }

  function ContextTexts(claims: Claims): (all: seq<Bytes>)
    ensures |all| == 9
  {
    [claims.workspaceId, claims.agentId, claims.agentVersion, claims.releaseId, claims.cardDigest,
     claims.capability, claims.invocationId, claims.rootTaskId, claims.traceId]
  }

  lemma ExpectedAt(claims: Claims, names: HeaderNames, i: nat)
    requires NamesDiffer(names) && i < 9
    ensures ContextNames(names)[i] in ExpectedContext(claims, names)
    ensures ExpectedContext(claims, names)[ContextNames(names)[i]] == ContextTexts(claims)[i]
  {
    var all := ContextNames(names);
    assert forall j :: i < j < 9 ==> all[i] != all[j];
    MapAt(all, ContextTexts(claims), i);
  }

  /** A map of nine names, where a name hides no later one. */
  lemma MapAt(k: seq<Bytes>, v: seq<Bytes>, i: nat)
    requires |k| == |v| == 9 && i < 9 && forall j :: i < j < 9 ==> k[i] != k[j]
    ensures var m := map[k[0] := v[0], k[1] := v[1], k[2] := v[2], k[3] := v[3], k[4] := v[4],
                         k[5] := v[5], k[6] := v[6], k[7] := v[7], k[8] := v[8]];
            k[i] in m && m[k[i]] == v[i]
  {
  }

  lemma ExpectedNames(claims: Claims, names: HeaderNames, name: Bytes)
    ensures name in ExpectedContext(claims, names) <==> name in ContextNames(names)
  {
  }

  lemma ContextValuesIff(header: Header, claims: Claims, core: Core)
    requires NamesDiffer(core.names)
    ensures (forall name :: name in ExpectedContext(claims, core.names) ==>
               OnlyValue(header, name, ExpectedContext(claims, core.names)[name], core.fold)) <==>
            ContextValues(header, claims, core)
  {
    var names, expected := ContextNames(core.names), ExpectedContext(claims, core.names);
    var texts := ContextTexts(claims);
    forall i | 0 <= i < 9 ensures names[i] in expected && expected[names[i]] == texts[i] {
      ExpectedAt(claims, core.names, i);
    }
    if ContextValues(header, claims, core) {
      forall name | name in expected ensures OnlyValue(header, name, expected[name], core.fold) {
        ExpectedNames(claims, core.names, name);
        var i :| 0 <= i < 9 && names[i] == name;
      }
    }
  }

  lemma CarriesTextIff(header: Header, name: Bytes, members: Members, member: Bytes, text: Bytes, core: Core)
    requires Distinct(Names(members, core.json)) && SaysText(members, member, text, core.json)
    ensures CarriesText(header, name, members, member, core) <==> OnlyValue(header, name, text, core.fold)
  {
    SaysTextIff(members, member, text, core.json);
    forall other | SaysText(members, member, other, core.json) ensures other == text {
      SaysTextIff(members, member, other, core.json);
    }
  }

  /** Five values, one by one. */
  lemma FirstValues(header: Header, claims: Claims, core: Core)
    ensures (forall i :: 0 <= i < 5 ==>
               OnlyValue(header, ContextNames(core.names)[i], ContextTexts(claims)[i], core.fold)) <==>
            && OnlyValue(header, core.names.workspace, claims.workspaceId, core.fold)
            && OnlyValue(header, core.names.agent, claims.agentId, core.fold)
            && OnlyValue(header, core.names.cardVersion, claims.agentVersion, core.fold)
            && OnlyValue(header, core.names.release, claims.releaseId, core.fold)
            && OnlyValue(header, core.names.cardDigest, claims.cardDigest, core.fold)
  {
    var all, texts := ContextNames(core.names), ContextTexts(claims);
    assert all[0] == core.names.workspace && texts[0] == claims.workspaceId;
    assert all[1] == core.names.agent && texts[1] == claims.agentId;
    assert all[2] == core.names.cardVersion && texts[2] == claims.agentVersion;
    assert all[3] == core.names.release && texts[3] == claims.releaseId;
    assert all[4] == core.names.cardDigest && texts[4] == claims.cardDigest;
  }

  lemma TargetIff(header: Header, members: Members, claims: Claims, core: Core)
    requires Distinct(Names(members, core.json)) && SaysAllTexts(members, claims, core.json)
    ensures TargetSays(header, members, core) <==>
            forall i :: 0 <= i < 5 ==>
              OnlyValue(header, ContextNames(core.names)[i], ContextTexts(claims)[i], core.fold)
  {
    var names := core.names;
    FirstValues(header, claims, core);
    CarriesTextIff(header, names.workspace, members, "workspaceId", claims.workspaceId, core);
    CarriesTextIff(header, names.agent, members, "agentId", claims.agentId, core);
    CarriesTextIff(header, names.cardVersion, members, "agentVersion", claims.agentVersion, core);
    CarriesTextIff(header, names.release, members, "releaseId", claims.releaseId, core);
    CarriesTextIff(header, names.cardDigest, members, "cardDigest", claims.cardDigest, core);
  }

  lemma CallIff(header: Header, members: Members, claims: Claims, core: Core)
    requires Distinct(Names(members, core.json)) && SaysAllTexts(members, claims, core.json)
    ensures CallSays(header, members, core) <==>
            forall i :: 5 <= i < 9 ==>
              OnlyValue(header, ContextNames(core.names)[i], ContextTexts(claims)[i], core.fold)
  {
    var names := core.names;
    CarriesTextIff(header, names.capability, members, "capability", claims.capability, core);
    CarriesTextIff(header, names.invocation, members, "invocationId", claims.invocationId, core);
    CarriesTextIff(header, names.rootTask, members, "rootTaskId", claims.rootTaskId, core);
    CarriesTextIff(header, names.trace, members, "traceId", claims.traceId, core);
    var all, texts := ContextNames(names), ContextTexts(claims);
    assert all[5] == names.capability && texts[5] == claims.capability;
    assert all[6] == names.invocation && texts[6] == claims.invocationId;
    assert all[7] == names.rootTask && texts[7] == claims.rootTaskId;
    assert all[8] == names.trace && texts[8] == claims.traceId;
  }

  lemma ParentIff(header: Header, members: Members, claims: Claims, core: Core)
    requires Distinct(Names(members, core.json)) && SaysClaims(members, claims, core)
    ensures ParentSays(header, members, core) <==>
            match claims.parent
            case Some(text) => OnlyValue(header, core.names.parent, text, core.fold)
            case None => NoValue(header, core.names.parent, core.fold)
  {
    if claims.parent.Some? {
      CarriesTextIff(header, core.names.parent, members, "parentInvocationId", claims.parent.value, core);
      var v :| Has(members, "parentInvocationId", v, core.json);
      assert !SaysNothing(members, "parentInvocationId", core.json);
    }
  }

  lemma ContextIff(header: Header, members: Members, claims: Claims, core: Core)
    requires Distinct(Names(members, core.json)) && SaysClaims(members, claims, core) && NamesDiffer(core.names)
    ensures ContextSigned(header, claims, core) <==> ContextSays(header, members, core)
  {
    ContextValuesIff(header, claims, core);
    TargetIff(header, members, claims, core);
    CallIff(header, members, claims, core);
    ParentIff(header, members, claims, core);
  }

  /** A request passes the checks before the guard exactly when it presents one
      genuine credential and each context header, and no other value of it, is the
      text of the member of the signed claims that it stands for. */
  lemma PassesIff(header: Header, config: Config, core: Core, now: int, claims: Claims)
    requires NamesDiffer(core.names)
    ensures Passes(header, config, core, now, claims) <==>
            exists credential, protected, body, signature, named, claimed ::
              && Presents(header, core.names.authorization, credential, core.fold)
              && Genuine(credential, config, core, now, claims, protected, body, signature, named, claimed)
              && ContextSays(header, claimed, core)
  {
    var check := Checker(config, core, now);
    forall credential | PassesAs(check, credential, header, core, claims)
      ensures exists protected, body, signature, named, claimed ::
                && Genuine(credential, config, core, now, claims, protected, body, signature, named, claimed)
                && ContextSays(header, claimed, core)
    {
      BearerIff([SCHEME + credential], credential);
      CredentialIff(credential, config, core, now, claims);
      var protected, body, signature, named, claimed :|
        Genuine(credential, config, core, now, claims, protected, body, signature, named, claimed);
      ContextIff(header, claimed, claims, core);
    }
    forall credential, protected, body, signature, named, claimed |
      && Presents(header, core.names.authorization, credential, core.fold)
      && Genuine(credential, config, core, now, claims, protected, body, signature, named, claimed)
      && ContextSays(header, claimed, core)
      ensures PassesAs(check, credential, header, core, claims)
    {
      GenuinePasses(credential, config, core, now, claims, protected, body, signature, named, claimed);
      ContextIff(header, claimed, claims, core);
    }
  }

  datatype Outcome = Verified(claims: Claims) | Refused(status: Status) | Replayed

  /** The checks before the guard: which claims pass, and how a request is turned away. */
  datatype Rules = Rules(passes: (Header, int, Claims) -> bool, denied: (Header, int, Status) -> bool)

  /** The checks of one verifier. */
  ghost function RulesOf(config: Config, core: Core): Rules {
    Rules((header, now, claims) => Passes(header, config, core, now, claims),
          (header, now, status) => Denied(header, config, core, now, status))
  }

  /** What one call of `Verify` makes of a request and of the guard's store, when
      it reads `now` for the claims and `later` under the guard's lock. */
  ghost predicate Served(header: Header, rules: Rules, now: int, later: int, outcome: Outcome,
                         before: Store, after: Store)
  {
    match outcome
    case Verified(claims) =>
      var call := CallOf(claims, later);
      rules.passes(header, now, claims) && Answer(before, call) && after == After(before, call)
    case Replayed =>
      && (exists claims :: rules.passes(header, now, claims) && !Answer(before, CallOf(claims, later)))
      && after == Prune(before, later)
    case Refused(status) =>
      rules.denied(header, now, status) && after == before
  }

  lemma Guarded(header: Header, rules: Rules, now: int, later: int, claims: Claims, store: Store)
    requires rules.passes(header, now, claims)
    ensures var call := CallOf(claims, later);
            var outcome := if Answer(store, call) then Verified(claims) else Replayed;
            Served(header, rules, now, later, outcome, store, After(store, call))
  {
  }

  function CallOf(claims: Claims, now: int): Call {
    Call(now, claims.jwtId, claims.expiresAt)
  }

  class Verifier {
    const config: Config
    const core: Core
    const replay: ReplayGuard

    constructor (config: Config, core: Core)
      ensures this.config == config && this.core == core
      ensures fresh(replay) && replay.expires == map[]
    {
      this.config, this.core := config, core;
      replay := new ReplayGuard();
    }

    /** The checks on a credential, as `Verify` makes them. */
    method CheckCredential(credential: Bytes, now: int) returns (checked: Checked)
      ensures checked == Checker(config, core, now)(credential)
    {
      var parsed := ParseCompact(credential);
      if parsed.None? {
        return Refuse(Unauthenticated);
      }
      var header := DecodeObject(parsed.value.header, HEADER_MEMBERS, core.json);
      if header.None? || |header.value| != |HEADER_MEMBERS| || !HeaderSupported(header.value, config, core.json) {
        return Refuse(Unauthenticated);
      }
      if !core.signed(config.publicKey, parsed.value.signed, parsed.value.signature) {
        return Refuse(Unauthenticated);
      }
      var claims := DecodeClaims(parsed.value.claims, core);
      if claims.None? {
        return Refuse(Unauthenticated);
      }
      return CheckClaims(claims.value, config, core, now);
    }

    /** Everything `Verify` does before it asks the guard. */
    method CheckRequest(header: Header, now: int) returns (checked: Checked)
      ensures match checked
              case Pass(claims) => RulesOf(config, core).passes(header, now, claims)
              case Refuse(status) => RulesOf(config, core).denied(header, now, status)
    {
      var credential := CredentialFromHeaders(header, core.names.authorization, core.fold);
      if credential.None? {
        return Refuse(Unauthenticated);
      }
      Decided(Checker(config, core, now), credential.value, header, core);
      checked := CheckCredential(credential.value, now);
      if checked.Pass? {
        var claims := checked.claims;
        var agreed := ValidateContextHeaders(header, ExpectedContext(claims, core.names), core.names.parent,
                                             claims.parent, core.fold);
        if !agreed {
          return Refuse(Forbidden);
        }
      }
    }

    /** `Verify`, with its two clock readings: `now` for the claims, `later` under
        the guard's lock. */
    method Verify(header: Header, now: int, later: int) returns (outcome: Outcome)
      modifies replay
      ensures Served(header, RulesOf(config, core), now, later, outcome, old(replay.expires), replay.expires)
    {
      var checked := CheckRequest(header, now);
      if checked.Refuse? {
        return Refused(checked.status);
      }
      var claims := checked.claims;
      Guarded(header, RulesOf(config, core), now, later, claims, replay.expires);
      var fresh_ := replay.Accept(later, claims.jwtId, claims.expiresAt);
      return if fresh_ then Verified(claims) else Replayed;
    }
  }

  /** `NewVerifier`: a verifier of its own for a valid configuration and a clock. */
  method NewVerifier(config: Config, core: Core, valid: Config -> bool, hasClock: bool)
    returns (verifier: Option<Verifier>)
    ensures verifier.Some? <==> valid(config) && hasClock
    ensures verifier.Some? ==>
              && fresh(verifier.value) && fresh(verifier.value.replay)
              && verifier.value.config == config && verifier.value.core == core
              && verifier.value.replay.expires == map[]
  {
    if !valid(config) || !hasClock {
      return None;
    }
    var made := new Verifier(config, core);
    return Some(made);
  }
}
