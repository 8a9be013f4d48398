/** What the SDK demands of a JSON text beyond its grammar: no object at any
    depth repeats a member name, and every number is one it can hold. */
module JsonNames {
  import opened Prelude
  import opened JsonLexer
  import opened JsonGrammar

  /** The decisions of the standard library that this model leaves open: how a
      string decodes that holds anything outside ASCII, as a byte or as an escape,
      and which numbers a 64-bit float can hold. */
  datatype Library = Library(unescape: Bytes -> Bytes, inRange: Bytes -> bool)

  predicate IsPlain(raw: Bytes) {
    forall i :: 0 <= i < |raw| ==> ' ' <= raw[i] <= '~' && raw[i] != '\\' && raw[i] != '\"'
  }

  function HexValue(c: byte): (n: nat)
    requires IsHex(c)
    ensures n < 16
  {
    if IsDigit(c) then c as int - '0' as int
    else if 'a' <= c <= 'f' then c as int - 'a' as int + 10
    else c as int - 'A' as int + 10
  }

  /** The character that the escape at the head of `s` stands for, if it is ASCII. */
  function EscapeValue(s: Bytes): Option<byte>
    requires EscapeSize(s) > 0
  {
    if EscapeSize(s) == 6 then
      if s[2] == '0' && s[3] == '0' && HexValue(s[4]) < 8
      then Some((HexValue(s[4]) * 16 + HexValue(s[5])) as char) else None
    else if s[1] == 'b' then Some('\U{08}')
    else if s[1] == 'f' then Some('\U{0C}')
    else if s[1] == 'n' then Some('\n')
    else if s[1] == 'r' then Some('\r')
    else if s[1] == 't' then Some('\t')
    else Some(s[1])
  }

  /** What the content of a string spells, when all of it is ASCII. */
  function Unescaped(s: Bytes): Option<Bytes> {
    if s == [] then Some([])
    else if s[0] == '\\' then
      if EscapeSize(s) == 0 then None
      else
        var c, rest := EscapeValue(s), Unescaped(s[EscapeSize(s)..]);
        if c.None? || rest.None? then None else Some([c.value] + rest.value)
    else if s[0] as int >= 0x80 then None
    else
      var rest := Unescaped(s[1..]);
      if rest.None? then None else Some([s[0]] + rest.value)
  }

  /** The name a string spells. */
  function Decoded(raw: Bytes, lib: Library): Bytes {
    var text := Unescaped(raw);
    if text.Some? then text.value else lib.unescape(raw)
  }

  lemma {:induction false} PlainDecodes(raw: Bytes)
    requires IsPlain(raw)
    ensures Unescaped(raw) == Some(raw)
  {
    if raw != [] {
      assert IsPlain(raw[1..]);
      PlainDecodes(raw[1..]);
      assert raw == [raw[0]] + raw[1..];
    }
  }

  // ----- the property, on trees -----

  function Names(members: Members, lib: Library): seq<Bytes> {
    match members
    case NoMembers => []
    case Member(name, _, rest) => [Decoded(name, lib)] + Names(rest, lib)
  }

  predicate Distinct(names: seq<Bytes>) {
    forall i, j :: 0 <= i < j < |names| ==> names[i] != names[j]
  }

  predicate Unique(v: Json, lib: Library) {
    match v
    case Arr(items) => UniqueItems(items, lib)
    case Obj(members) => Distinct(Names(members, lib)) && UniqueValues(members, lib)
    case _ => true
  }

  predicate UniqueItems(items: Items, lib: Library) {
    match items
    case NoItems => true
    case Item(head, tail) => Unique(head, lib) && UniqueItems(tail, lib)
  }

  predicate UniqueValues(members: Members, lib: Library) {
    match members
    case NoMembers => true
    case Member(_, value, rest) => Unique(value, lib) && UniqueValues(rest, lib)
  }

  predicate InRange(v: Json, lib: Library) {
    match v
    case Number(text) => lib.inRange(text)
    case Arr(items) => ItemsInRange(items, lib)
    case Obj(members) => MembersInRange(members, lib)
    case _ => true
  }

  predicate ItemsInRange(items: Items, lib: Library) {
    match items
    case NoItems => true
    case Item(head, tail) => InRange(head, lib) && ItemsInRange(tail, lib)
  }

  predicate MembersInRange(members: Members, lib: Library) {
    match members
    case NoMembers => true
    case Member(_, value, rest) => InRange(value, lib) && MembersInRange(rest, lib)
  }

  predicate Acceptable(v: Json, lib: Library) {
    Unique(v, lib) && InRange(v, lib)
  }

  // ----- the walk over tokens that never builds a tree -----

  /** The tokens left after walking one value, if the walk succeeds. */
  function Walk(ts: seq<Token>, lib: Library): (r: Option<seq<Token>>)
    ensures r.Some? ==> |r.value| < |ts|
    decreases |ts|, 0
  {
    if ts == [] then None
    else match ts[0]
      case Str(_) => Some(ts[1..])
      case Num(text) => if lib.inRange(text) then Some(ts[1..]) else None
      case Word(_) => Some(ts[1..])
      case LBracket => WalkItems(ts[1..], false, lib)
      case LBrace => WalkMembers(ts[1..], false, {}, lib)
      case _ => None
  }

  function WalkItems(ts: seq<Token>, sep: bool, lib: Library): (r: Option<seq<Token>>)
    ensures r.Some? ==> |r.value| < |ts|
    decreases |ts|, 1
  {
    if ts == [] then None
    else if ts[0] == RBracket then Some(ts[1..])
    else match AfterSeparator(ts, sep)
      case None => None
      case Some(body) =>
        match Walk(body, lib)
        case None => None
        case Some(more) => WalkItems(more, true, lib)
  }

  function WalkMembers(ts: seq<Token>, sep: bool, seen: set<Bytes>, lib: Library): (r: Option<seq<Token>>)
    ensures r.Some? ==> |r.value| < |ts|
    decreases |ts|, 1
  {
    if ts == [] then None
    else if ts[0] == RBrace then Some(ts[1..])
    else match AfterSeparator(ts, sep)
      case None => None
      case Some(body) =>
        if |body| < 2 || !body[0].Str? || body[1] != Colon then None
        else
          var name := Decoded(body[0].raw, lib);
          if name in seen then None
          else match Walk(body[2..], lib)
            case None => None
            case Some(more) => WalkMembers(more, true, seen + {name}, lib)
  }

  // ----- the walk decides the property -----

  predicate Fresh(names: seq<Bytes>, seen: set<Bytes>) {
    forall i :: 0 <= i < |names| ==> names[i] !in seen
  }

  lemma FirstNameFresh(name: Bytes, names: seq<Bytes>, seen: set<Bytes>)
    ensures Distinct([name] + names) && Fresh([name] + names, seen)
       <==> name !in seen && Distinct(names) && Fresh(names, seen + {name})
  {
    var all := [name] + names;
    assert all[0] == name;
    assert forall i :: 0 <= i < |names| ==> all[i + 1] == names[i];
    assert forall i :: 1 <= i < |all| ==> all[i] == names[i - 1];
  }

  lemma {:induction false} WalkDecides(ts: seq<Token>, lib: Library)
    ensures Walk(ts, lib) ==
            (match ParseValue(ts)
             case Rejected => None
             case Parsed(v, rest) => if Acceptable(v, lib) then Some(rest) else None)
    decreases |ts|, 0
  {
    if ts != [] {
      match ts[0]
      case LBracket => WalkItemsDecides(ts[1..], false, lib);
      case LBrace =>
        WalkMembersDecides(ts[1..], false, {}, lib);
      case _ =>
    }
  }

  lemma {:induction false} WalkItemsDecides(ts: seq<Token>, sep: bool, lib: Library)
    ensures WalkItems(ts, sep, lib) ==
            (match ParseItems(ts, sep)
             case Rejected => None
             case Parsed(items, rest) =>
               if UniqueItems(items, lib) && ItemsInRange(items, lib) then Some(rest) else None)
    decreases |ts|, 1
  {
    if ts != [] && ts[0] != RBracket && AfterSeparator(ts, sep).Some? {
      var body := AfterSeparator(ts, sep).value;
      WalkDecides(body, lib);
      if ParseValue(body).Parsed? {
        WalkItemsDecides(ParseValue(body).rest, true, lib);
      }
    }
  }

  lemma {:induction false} WalkMembersDecides(ts: seq<Token>, sep: bool, seen: set<Bytes>, lib: Library)
    ensures WalkMembers(ts, sep, seen, lib) ==
            (match ParseMembers(ts, sep)
             case Rejected => None
             case Parsed(members, rest) =>
               if Distinct(Names(members, lib)) && Fresh(Names(members, lib), seen)
                  && UniqueValues(members, lib) && MembersInRange(members, lib)
               then Some(rest) else None)
    decreases |ts|, 1
  {
    if ts != [] && ts[0] != RBrace && AfterSeparator(ts, sep).Some? {
      var body := AfterSeparator(ts, sep).value;
      if |body| >= 2 && body[0].Str? && body[1] == Colon {
        var name := Decoded(body[0].raw, lib);
        WalkDecides(body[2..], lib);
        if ParseValue(body[2..]).Parsed? {
          var more := ParseValue(body[2..]).rest;
          WalkMembersDecides(more, true, seen + {name}, lib);
          if ParseMembers(more, true).Parsed? {
            FirstNameFresh(name, Names(ParseMembers(more, true).value, lib), seen);
          }
        }
      }
    }
  }

  /** Whether the walk accepts all of `s`. */
  predicate WalkAccepts(s: Bytes, lib: Library) {
    Walk(Lex(s), lib) == Some([])
  }

  /** The walk accepts exactly the texts of one value in which no object repeats
      a decoded name, at any depth, and no number is out of range. */
  lemma WalkAcceptsIff(s: Bytes, lib: Library)
    ensures WalkAccepts(s, lib) <==> exists v :: IsTextOf(s, v) && Acceptable(v, lib)
  {
    WalkDecides(Lex(s), lib);
    if WalkAccepts(s, lib) {
      ParseIsTextOf(s, ParseValue(Lex(s)).value);
    }
    forall v | IsTextOf(s, v) && Acceptable(v, lib)
      ensures WalkAccepts(s, lib)
    {
      ParseIsTextOf(s, v);
    }
  }

  /** A text of a value that repeats a name anywhere is refused. */
  lemma RepeatedNameRefused(s: Bytes, v: Json, lib: Library)
    requires IsTextOf(s, v) && !Unique(v, lib)
    ensures !WalkAccepts(s, lib)
  {
    ParseIsTextOf(s, v);
    WalkDecides(Lex(s), lib);
  }

  /** Repeated names are not the only ground for refusal: a text of one number,
      which has no object at all, is refused when the number cannot be held. */
  lemma UniqueNamesNotEnough(text: Bytes, lib: Library)
    requires Lex(text) == [Num(text)] && !lib.inRange(text)
    ensures IsTextOf(text, Number(text)) && Unique(Number(text), lib) && !WalkAccepts(text, lib)
  {
  }

  const TOO_LARGE: Bytes := "1e400"

  /** A 64-bit float cannot hold 1e400, and the walk refuses it. */
  lemma TooLargeRefused(lib: Library)
    requires !lib.inRange(TOO_LARGE)
    ensures IsTextOf(TOO_LARGE, Number(TOO_LARGE)) && Unique(Number(TOO_LARGE), lib) && !WalkAccepts(TOO_LARGE, lib)
  {
    OneExponent(TOO_LARGE);
    UniqueNamesNotEnough(TOO_LARGE, lib);
  }

  /** A digit, an exponent mark and three digits are one number. */
  lemma OneExponent(s: Bytes)
    requires |s| == 5 && s[0] == '1' && s[1] == 'e' && IsDigit(s[2]) && IsDigit(s[3]) && IsDigit(s[4])
    ensures Lex(s) == [Num(s)]
  {
    assert s[0..] == s && s[5..] == [] && s[..5] == s;
    assert DigitsSize(s[5..]) == 0 && s[4..][1..] == s[5..] && s[3..][1..] == s[4..] && s[2..][1..] == s[3..];
    assert DigitsSize(s[3..]) == 2 && DigitsSize(s[2..]) == 3;
    assert DigitsSize(s[1..]) == 0 && DigitsSize(s[0..]) == 1;
    assert FractionEnd(s, 1) == Some(1) && ExponentEnd(s, 1) == Some(5);
    assert NumberSize(s) == Some(5) && WordSize(s) == 0;
    assert First(s) == Lexeme(Num(s), 5);
  }
}
