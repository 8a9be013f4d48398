/** The object decoder of the credential verifier: one object, only known
    members, none of them twice. */
module ExactObject {
  import opened Prelude
  import opened JsonLexer
  import opened JsonGrammar
  import opened JsonNames
  import opened JsonDecoder
  import opened JsonWalk

  type Object = map<Bytes, Json>

  /** The members of a tree as a map; a later member hides an earlier namesake. */
  function MapOf(members: Members, lib: Library): Object {
    match members
    case NoMembers => map[]
    case Member(name, value, rest) => map[Decoded(name, lib) := value] + MapOf(rest, lib)
  }

  predicate AllIn(names: seq<Bytes>, allowed: set<Bytes>) {
    forall i :: 0 <= i < |names| ==> names[i] in allowed
  }

  /** What the decoder is for: the object `s` spells, when it spells one with
      distinct names out of `allowed` that nests no deeper than the library reads. */
  ghost predicate Spells(s: Bytes, members: Members, allowed: set<Bytes>, lib: Library) {
    && IsTextOf(s, Obj(members))
    && Distinct(Names(members, lib))
    && AllIn(Names(members, lib), allowed)
    && MembersDepth(members) <= MAX_NESTING
  }

  // ----- the loop as a function -----

  datatype Collected = Failed | Collected(fields: Object, rest: seq<Token>)

  function Collect(ts: seq<Token>, sep: bool, allowed: set<Bytes>, found: Object, lib: Library): Collected
    decreases |ts|
  {
    if ts == [] then Failed
    else if ts[0] == RBrace then Collected(found, ts[1..])
    else match AfterSeparator(ts, sep)
      case None => Failed
      case Some(body) =>
        if |body| < 2 || !body[0].Str? || body[1] != Colon then Failed
        else
          var name := Decoded(body[0].raw, lib);
          if name in found || name !in allowed then Failed
          else match ParseValue(body[2..])
            case Rejected => Failed
            case Parsed(value, more) =>
              if Depth(value) > MAX_NESTING then Failed
              else Collect(more, true, allowed, found[name := value], lib)
  }

  function ObjectOf(s: Bytes, allowed: set<Bytes>, lib: Library): Option<Object> {
    var ts := Lex(s);
    if ts == [] || ts[0] != LBrace then None
    else match Collect(ts[1..], false, allowed, map[], lib)
      case Failed => None
      case Collected(fields, rest) => if rest == [] then Some(fields) else None
  }

  lemma {:induction false} CollectDecides(ts: seq<Token>, sep: bool, allowed: set<Bytes>, found: Object, lib: Library)
    ensures Collect(ts, sep, allowed, found, lib) ==
            (match ParseMembers(ts, sep)
             case Rejected => Failed
             case Parsed(members, rest) =>
               if Distinct(Names(members, lib)) && Fresh(Names(members, lib), found.Keys)
                  && AllIn(Names(members, lib), allowed) && MembersDepth(members) <= MAX_NESTING
               then Collected(found + MapOf(members, lib), rest) else Failed)
    decreases |ts|
  {
    if ts != [] {
      if ts[0] == RBrace {
        assert found + map[] == found;
      } else if AfterSeparator(ts, sep).Some? {
        var body := AfterSeparator(ts, sep).value;
        if |body| >= 2 && body[0].Str? && body[1] == Colon && ParseValue(body[2..]).Parsed? {
          var name := Decoded(body[0].raw, lib);
          var value := ParseValue(body[2..]).value;
          var more := ParseValue(body[2..]).rest;
          CollectDecides(more, true, allowed, found[name := value], lib);
          if ParseMembers(more, true).Parsed? {
            CollectTurn(name, value, ParseMembers(more, true).value, allowed, found, lib);
          }
        }
      }
    }
  }

  lemma CollectTurn(name: Bytes, value: Json, rest: Members, allowed: set<Bytes>, found: Object, lib: Library)
    ensures var names := [name] + Names(rest, lib);
            && (Distinct(names) && Fresh(names, found.Keys) <==>
                name !in found && Distinct(Names(rest, lib)) && Fresh(Names(rest, lib), found[name := value].Keys))
            && (AllIn(names, allowed) <==> name in allowed && AllIn(Names(rest, lib), allowed))
    ensures found[name := value] + MapOf(rest, lib) == found + (map[name := value] + MapOf(rest, lib))
  {
    FirstNameFresh(name, Names(rest, lib), found.Keys);
    assert found[name := value].Keys == found.Keys + {name};
    FirstNameIn(name, Names(rest, lib), allowed);
    Merged(found, name, value, MapOf(rest, lib));
  }

  lemma FirstNameIn(name: Bytes, names: seq<Bytes>, allowed: set<Bytes>)
    ensures AllIn([name] + names, allowed) <==> name in allowed && AllIn(names, allowed)
  {
    var all := [name] + names;
    assert all[0] == name;
    assert forall i :: 0 <= i < |names| ==> all[i + 1] == names[i];
    assert forall i :: 1 <= i < |all| ==> all[i] == names[i - 1];
  }

  lemma Merged(found: Object, name: Bytes, value: Json, rest: Object)
    ensures found[name := value] + rest == found + (map[name := value] + rest)
  {
  }

  /** The decoder yields an object exactly when the text spells one. */
  lemma ObjectOfIff(s: Bytes, allowed: set<Bytes>, lib: Library, fields: Object)
    ensures ObjectOf(s, allowed, lib) == Some(fields)
       <==> exists members :: Spells(s, members, allowed, lib) && fields == MapOf(members, lib)
  {
    var ts := Lex(s);
    if ts != [] && ts[0] == LBrace {
      CollectDecides(ts[1..], false, allowed, map[], lib);
      assert forall m: Object :: map[] + m == m;
      if ObjectOf(s, allowed, lib) == Some(fields) {
        var members := ParseMembers(ts[1..], false).value;
        ParseIsTextOf(s, Obj(members));
        assert Spells(s, members, allowed, lib);
      }
    }
    forall members | Spells(s, members, allowed, lib)
      ensures ObjectOf(s, allowed, lib) == Some(MapOf(members, lib))
    {
      ParseIsTextOf(s, Obj(members));
    }
  }

  // ----- the loop itself -----

  /** The raw message behind a name, and the tokens behind it. */
  function RawAt(ts: seq<Token>): Option<(Json, seq<Token>)> {
    if ts == [] || ts[0] != Colon then None
    else match ParseValue(ts[1..])
      case Rejected => None
      case Parsed(v, rest) => if Depth(v) > MAX_NESTING then None else Some((v, rest))
  }

  /** Reads a whole value into a raw message: the colon before it, then the value. */
  method DecodeRaw(d: Decoder) returns (value: Option<Json>)
    requires WellStacked(d.Position()) && d.state == ObjectColon
    modifies d
    ensures var raw := RawAt(old(d.toks));
            match value
            case None => raw.None?
            case Some(v) => raw == Some((v, d.toks)) && |d.toks| < old(|d.toks|)
                            && d.state == ObjectComma && d.stack == old(d.stack)
  {
    if d.toks == [] || d.toks[0] != Colon {
      return None;
    }
    match ParseValue(d.toks[1..])
    case Rejected => return None;
    case Parsed(v, rest) =>
      if Depth(v) > MAX_NESTING {
        return None;
      }
      d.toks, d.state := rest, ObjectComma;
      return Some(v);
  }

  /** One turn of `Collect`, in terms of where the decoder stands. */
  lemma CollectMemberTurn(c: Cursor, allowed: set<Bytes>, found: Object, lib: Library)
    requires c.toks != [] && c.toks[0] != RBrace
    ensures var body := MemberBody(c);
            Collect(c.toks, c.state == ObjectComma, allowed, found, lib) ==
            if body.None? then Failed
            else
              var name := Decoded(body.value[0].raw, lib);
              if name in found || name !in allowed then Failed
              else match RawAt(body.value[1..])
                case None => Failed
                case Some((value, more)) => Collect(more, true, allowed, found[name := value], lib)
  {
    var body := MemberBody(c);
    if body.Some? && |body.value| >= 2 {
      assert body.value[1..][0] == body.value[1] && body.value[1..][1..] == body.value[2..];
    }
  }

  /** One turn of the member loop. */
  method DecodeMember(d: Decoder, allowed: set<Bytes>, found: Object) returns (grown: Option<Object>)
    requires WellStacked(d.Position()) && d.state in {ObjectStart, ObjectComma}
    requires d.toks != [] && d.toks[0] != RBrace
    modifies d
    ensures Collect(old(d.toks), old(d.state) == ObjectComma, allowed, found, d.lib) ==
            if grown.None? then Failed else Collect(d.toks, true, allowed, grown.value, d.lib)
    ensures grown.Some? ==> WellStacked(d.Position()) && d.state == ObjectComma
    ensures grown.Some? ==> d.stack == old(d.stack) && |d.toks| < old(|d.toks|)
  {
    CollectMemberTurn(d.Position(), allowed, found, d.lib);
    var name := ReadName(d);
    if name.None? || name.value in found || name.value !in allowed {
      return None;
    }
    var value := DecodeRaw(d);
    if value.None? {
      return None;
    }
    return Some(found[name.value := value.value]);
  }

  /** The member loop, up to the token that ends it. */
  method DecodeMembers(d: Decoder, allowed: set<Bytes>) returns (members: Option<Object>)
    requires WellStacked(d.Position()) && d.state == ObjectStart
    modifies d
    ensures Collect(old(d.toks), false, allowed, map[], d.lib) ==
            if members.None? then Failed else Collect(d.toks, d.state == ObjectComma, allowed, members.value, d.lib)
    ensures members.Some? ==> WellStacked(d.Position()) && d.state in {ObjectStart, ObjectComma}
    ensures members.Some? ==> d.stack == old(d.stack) && (d.toks == [] || d.toks[0] == RBracket || d.toks[0] == RBrace)
  {
    var found: Object := map[];
    var more := d.More();
    while more
      invariant WellStacked(d.Position()) && d.state in {ObjectStart, ObjectComma} && d.stack == old(d.stack)
      invariant more <==> d.toks != [] && d.toks[0] != RBracket && d.toks[0] != RBrace
      invariant Collect(old(d.toks), false, allowed, map[], d.lib) ==
                Collect(d.toks, d.state == ObjectComma, allowed, found, d.lib)
      decreases |d.toks|, more
    {
      var grown := DecodeMember(d, allowed, found);
      if grown.None? {
        return None;
      }
      found := grown.value;
      more := d.More();
    }
    return Some(found);
  }

  /** Where the loop ends, only a closing brace goes on. */
  lemma CollectAtEnd(c: Cursor, allowed: set<Bytes>, found: Object, lib: Library)
    requires WellStacked(c) && c.state in {ObjectStart, ObjectComma}
    requires c.toks == [] || c.toks[0] == RBracket || c.toks[0] == RBrace
    ensures Collect(c.toks, c.state == ObjectComma, allowed, found, lib) ==
            if c.toks != [] && c.toks[0] == RBrace then Collected(found, c.toks[1..]) else Failed
  {
  }

  method DecodeObject(data: Bytes, allowed: set<Bytes>, lib: Library) returns (fields: Option<Object>)
    ensures fields == ObjectOf(data, allowed, lib)
  {
    var d := new Decoder(data, lib);
    TokenBeforeValue(d.Position(), lib);
    var opening := d.Token();
    if opening.Refused? || opening.token != LBrace {
      return None;
    }
    var members := DecodeMembers(d, allowed);
    if members.None? {
      return None;
    }
    CollectAtEnd(d.Position(), allowed, members.value, lib);
    TokenAtEnd(d.Position(), lib);
    var closing := d.Token();
    if closing.Refused? || d.toks != [] {
      return None;
    }
    return members;
  }

  // ----- exact member sets -----

  function NameSet(members: Members, lib: Library): set<Bytes> {
    MapOf(members, lib).Keys
  }

  lemma {:induction false} NameSetOfNames(members: Members, lib: Library)
    ensures NameSet(members, lib) == set i | 0 <= i < |Names(members, lib)| :: Names(members, lib)[i]
  {
    match members
    case NoMembers =>
    case Member(name, value, rest) =>
      NameSetOfNames(rest, lib);
      var names := Names(members, lib);
      var others := Names(rest, lib);
      assert names[0] == Decoded(name, lib);
      assert forall i :: 0 <= i < |others| ==> names[i + 1] == others[i];
      assert forall i :: 1 <= i < |names| ==> names[i] == others[i - 1];
  }

  lemma SubsetOfEqualSize<T>(a: set<T>, b: set<T>)
    requires a <= b && |a| == |b|
    ensures a == b
  {
    if x :| x in b && x !in a {
      assert |b - {x}| == |b| - 1;
      SubsetSize(a, b - {x});
    }
  }

  lemma {:induction false} SubsetSize<T>(a: set<T>, b: set<T>)
    requires a <= b
    ensures |a| <= |b|
    decreases a
  {
    if x :| x in a {
      SubsetSize(a - {x}, b - {x});
    }
  }

  /** Known members only, none twice, and as many as are known: together these
      checks accept exactly the objects whose name set is the allowed one. */
  lemma ExactMembers(s: Bytes, allowed: set<Bytes>, lib: Library)
    ensures ObjectOf(s, allowed, lib).Some? && |ObjectOf(s, allowed, lib).value| == |allowed|
       <==> exists members :: IsTextOf(s, Obj(members)) && Distinct(Names(members, lib))
                              && NameSet(members, lib) == allowed && MembersDepth(members) <= MAX_NESTING
  {
    var fields := ObjectOf(s, allowed, lib);
    if fields.Some? && |fields.value| == |allowed| {
      ObjectOfIff(s, allowed, lib, fields.value);
      var members :| Spells(s, members, allowed, lib) && fields.value == MapOf(members, lib);
      NameSetOfNames(members, lib);
      assert |fields.value| == |fields.value.Keys|;
      SubsetOfEqualSize(NameSet(members, lib), allowed);
    }
    forall members | IsTextOf(s, Obj(members)) && Distinct(Names(members, lib))
                     && NameSet(members, lib) == allowed && MembersDepth(members) <= MAX_NESTING
      ensures fields.Some? && |fields.value| == |allowed|
    {
      NameSetOfNames(members, lib);
      assert Spells(s, members, allowed, lib);
      ObjectOfIff(s, allowed, lib, MapOf(members, lib));
    }
  }
}
