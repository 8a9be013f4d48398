/** The compact credential (section 7.1 of RFC 7515): bearer extraction, three
    segments, and why a credential has one spelling only. */
module Credential {
  import opened Prelude
  import opened Base64Url

  // ----- splitting at dots -----

  /** `strings.Split` at every dot. */
  function Split(s: Bytes): (parts: seq<Bytes>)
    ensures |parts| >= 1
  {
    if s == [] then [[]]
    else
      var rest := Split(s[1..]);
      if s[0] == '.' then [[]] + rest else [[s[0]] + rest[0]] + rest[1..]
  }

  function Join(parts: seq<Bytes>): Bytes
    requires |parts| >= 1
  {
    if |parts| == 1 then parts[0] else parts[0] + "." + Join(parts[1..])
  }

  predicate NoDots(parts: seq<Bytes>) {
    forall i :: 0 <= i < |parts| ==> '.' !in parts[i]
  }

  lemma {:induction false} SplitJoins(s: Bytes)
    ensures Join(Split(s)) == s && NoDots(Split(s))
  {
    if s != [] {
      var rest := Split(s[1..]);
      SplitJoins(s[1..]);
      if s[0] == '.' {
        assert Split(s)[1..] == rest;
      } else {
        assert Split(s)[1..] == rest[1..];
      }
    }
  }

  lemma {:induction false} JoinSplits(parts: seq<Bytes>)
    requires |parts| >= 1 && NoDots(parts)
    ensures Split(Join(parts)) == parts
    decreases |parts|, |parts[0]|
  {
    var s := Join(parts);
    if parts[0] == [] {
      if |parts| > 1 {
        assert s[1..] == Join(parts[1..]);
        JoinSplits(parts[1..]);
      }
    } else {
      var c := parts[0][0];
      var less := [parts[0][1..]] + parts[1..];
      assert c in parts[0];
      assert less[1..] == parts[1..];
      assert s[0] == c && s[1..] == Join(less);
      JoinSplits(less);
      assert less[0] == parts[0][1..] && [c] + less[0] == parts[0];
      assert parts == [parts[0]] + less[1..];
    }
  }

  // ----- the credential -----

  const SIGNATURE_SIZE := 64

  /** The three decoded segments, and the bytes the signature covers. */
  datatype Compact = Compact(header: Bytes, claims: Bytes, signature: Bytes, signed: Bytes)

  function ParseCompact(credential: Bytes): Option<Compact> {
    var parts := Split(credential);
    if |parts| != 3 || parts[0] == [] || parts[1] == [] || parts[2] == [] then None
    else
      var header, claims, signature := DecodeSegment(parts[0]), DecodeSegment(parts[1]), DecodeSegment(parts[2]);
      if header.None? || claims.None? || signature.None? || |signature.value| != SIGNATURE_SIZE then None
      else Some(Compact(header.value, claims.value, signature.value, parts[0] + "." + parts[1]))
  }

  function SigningInput(header: Bytes, claims: Bytes): Bytes {
    Encode(header) + "." + Encode(claims)
  }

  function Print(header: Bytes, claims: Bytes, signature: Bytes): Bytes {
    SigningInput(header, claims) + "." + Encode(signature)
  }

  predicate NoBreaks(s: Bytes) {
    forall c :: c in s ==> !IsBreak(c)
  }

  lemma EncodedHasNoDots(data: Bytes)
    ensures '.' !in Encode(data) && NoBreaks(Encode(data)) && (Encode(data) == [] <==> data == [])
  {
    EncodedIsPlain(data);
  }

  lemma EncodedDecodes(data: Bytes)
    ensures '.' !in Encode(data) && (Encode(data) == [] <==> data == []) && DecodeSegment(Encode(data)) == Some(data)
  {
    EncodedHasNoDots(data);
    UnbrokenDecodes(Encode(data), data);
  }

  lemma JoinThree(a: Bytes, b: Bytes, c: Bytes)
    ensures Join([a, b, c]) == a + "." + b + "." + c
  {
    assert [a, b, c][1..] == [b, c] && [b, c][1..] == [c];
    assert Join([b, c]) == b + "." + c;
  }

  lemma PartsOf(credential: Bytes, parts: seq<Bytes>)
    requires |parts| == 3
    ensures Split(credential) == parts <==> credential == parts[0] + "." + parts[1] + "." + parts[2] && NoDots(parts)
  {
    JoinThree(parts[0], parts[1], parts[2]);
    assert parts == [parts[0], parts[1], parts[2]];
    SplitJoins(credential);
    if NoDots(parts) {
      JoinSplits(parts);
    }
  }

  lemma PartHasNoBreaks(credential: Bytes, parts: seq<Bytes>)
    requires |parts| == 3 && NoBreaks(credential) && credential == parts[0] + "." + parts[1] + "." + parts[2]
    ensures NoBreaks(parts[0]) && NoBreaks(parts[1]) && NoBreaks(parts[2])
  {
    forall i, c | 0 <= i < 3 && c in parts[i] ensures c in credential {
    }
  }

  /** Printing a triple and parsing it back gives the triple. */
  lemma PrintedParses(header: Bytes, claims: Bytes, signature: Bytes)
    requires header != [] && claims != [] && |signature| == SIGNATURE_SIZE
    ensures ParseCompact(Print(header, claims, signature)) ==
            Some(Compact(header, claims, signature, SigningInput(header, claims)))
  {
    EncodedDecodes(header);
    EncodedDecodes(claims);
    EncodedDecodes(signature);
    PartsOf(Print(header, claims, signature), [Encode(header), Encode(claims), Encode(signature)]);
  }

  /** A credential without line breaks parses exactly when it is the printed form
      of what it parses to; so it is the only spelling, and what the signature
      covers is the printed form of the header and the claims. */
  lemma ParseIff(credential: Bytes, parsed: Compact)
    requires NoBreaks(credential)
    ensures ParseCompact(credential) == Some(parsed) <==>
            && credential == Print(parsed.header, parsed.claims, parsed.signature)
            && parsed.header != [] && parsed.claims != [] && |parsed.signature| == SIGNATURE_SIZE
            && parsed.signed == SigningInput(parsed.header, parsed.claims)
  {
    if ParseCompact(credential) == Some(parsed) {
      var parts := Split(credential);
      PartsOf(credential, parts);
      PartHasNoBreaks(credential, parts);
      UnbrokenDecodes(parts[0], parsed.header);
      UnbrokenDecodes(parts[1], parsed.claims);
      UnbrokenDecodes(parts[2], parsed.signature);
      EncodedHasNoDots(parsed.header);
      EncodedHasNoDots(parsed.claims);
    }
    if credential == Print(parsed.header, parsed.claims, parsed.signature)
       && parsed.header != [] && parsed.claims != [] && |parsed.signature| == SIGNATURE_SIZE {
      PrintedParses(parsed.header, parsed.claims, parsed.signature);
    }
  }

  /** What is signed determines the header and the claims. */
  lemma SigningInputInjective(h1: Bytes, c1: Bytes, h2: Bytes, c2: Bytes)
    requires SigningInput(h1, c1) == SigningInput(h2, c2)
    ensures h1 == h2 && c1 == c2
  {
    EncodedHasNoDots(h1);
    EncodedHasNoDots(c1);
    EncodedHasNoDots(h2);
    EncodedHasNoDots(c2);
    var p, q := [Encode(h1), Encode(c1)], [Encode(h2), Encode(c2)];
    assert p[1..] == [Encode(c1)] && q[1..] == [Encode(c2)];
    JoinSplits(p);
    JoinSplits(q);
    assert Join(p) == SigningInput(h1, c1) && Join(q) == SigningInput(h2, c2);
    assert p[0] == q[0] && p[1] == q[1];
    DecodeIff(Encode(h1), h1);
    DecodeIff(Encode(h2), h2);
    DecodeIff(Encode(c1), c1);
    DecodeIff(Encode(c2), c2);
  }

  // ----- the bearer header -----

  const SCHEME: Bytes := "Bearer "

  predicate IsTokenText(s: Bytes) {
    s != [] && forall c :: c in s ==> c !in {' ', '\t', '\r', '\n', ','}
  }

  /** `credentialFromHeaders`, once the header's values are gathered. */
  function BearerOf(values: seq<Bytes>): Option<Bytes> {
    if |values| != 1 || !(SCHEME <= values[0]) then None
    else
      var credential := values[0][|SCHEME|..];
      if IsTokenText(credential) then Some(credential) else None
  }

  lemma BearerIff(values: seq<Bytes>, credential: Bytes)
    ensures BearerOf(values) == Some(credential) <==> values == [SCHEME + credential] && IsTokenText(credential)
    ensures IsTokenText(credential) ==> NoBreaks(credential)
  {
    if BearerOf(values) == Some(credential) {
      assert values[0] == SCHEME + credential;
    }
    assert (SCHEME + credential)[|SCHEME|..] == credential;
  }
}
