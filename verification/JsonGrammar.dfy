/** The grammar level of JSON (sections 2 to 4 of RFC 8259): trees, the tokens
    each tree prints to, and the parser that undoes the printing. */
module JsonGrammar {
  import opened Prelude
  import opened JsonLexer

  datatype Json =
    | Quoted(raw: Bytes) | Number(text: Bytes) | Literal(word: Bytes)
    | Arr(items: Items) | Obj(members: Members)

  datatype Items = NoItems | Item(head: Json, tail: Items)

  datatype Members = NoMembers | Member(name: Bytes, value: Json, rest: Members)

  // ----- printing -----

  function Tokens(v: Json): seq<Token> {
    match v
    case Quoted(raw) => [Str(raw)]
    case Number(text) => [Num(text)]
    case Literal(word) => [Word(word)]
    case Arr(items) => [LBracket] + ItemTokens(items, false) + [RBracket]
    case Obj(members) => [LBrace] + MemberTokens(members, false) + [RBrace]
  }

  function Separator(sep: bool): seq<Token> {
    if sep then [Comma] else []
  }

  /** The tokens of the items still to come; `sep` says that one came before. */
  function ItemTokens(items: Items, sep: bool): seq<Token> {
    match items
    case NoItems => []
    case Item(head, tail) => Separator(sep) + Tokens(head) + ItemTokens(tail, true)
  }

  function MemberTokens(members: Members, sep: bool): seq<Token> {
    match members
    case NoMembers => []
    case Member(name, value, rest) =>
      Separator(sep) + [Str(name), Colon] + Tokens(value) + MemberTokens(rest, true)
  }

  // ----- parsing -----

  datatype Parsed<T> = Rejected | Parsed(value: T, rest: seq<Token>)

  /** The tokens behind a separator that must be there exactly when `sep`. */
  function AfterSeparator(ts: seq<Token>, sep: bool): (r: Option<seq<Token>>)
    ensures r.Some? ==> ts == Separator(sep) + r.value
  {
    if !sep then Some(ts) else if ts != [] && ts[0] == Comma then Some(ts[1..]) else None
  }

  function ParseValue(ts: seq<Token>): (p: Parsed<Json>)
    ensures p.Parsed? ==> |p.rest| < |ts|
    decreases |ts|, 0
  {
    if ts == [] then Rejected
    else match ts[0]
      case Str(raw) => Parsed(Quoted(raw), ts[1..])
      case Num(text) => Parsed(Number(text), ts[1..])
      case Word(word) => Parsed(Literal(word), ts[1..])
      case LBracket =>
        (match ParseItems(ts[1..], false)
         case Rejected => Rejected
         case Parsed(items, rest) => Parsed(Arr(items), rest))
      case LBrace =>
        (match ParseMembers(ts[1..], false)
         case Rejected => Rejected
         case Parsed(members, rest) => Parsed(Obj(members), rest))
      case _ => Rejected
  }

  /** The items up to and including the closing bracket. */
  function ParseItems(ts: seq<Token>, sep: bool): (p: Parsed<Items>)
    ensures p.Parsed? ==> |p.rest| < |ts|
    decreases |ts|, 1
  {
    if ts == [] then Rejected
    else if ts[0] == RBracket then Parsed(NoItems, ts[1..])
    else match AfterSeparator(ts, sep)
      case None => Rejected
      case Some(body) =>
        match ParseValue(body)
        case Rejected => Rejected
        case Parsed(head, more) =>
          match ParseItems(more, true)
          case Rejected => Rejected
          case Parsed(tail, rest) => Parsed(Item(head, tail), rest)
  }

  /** The members up to and including the closing brace. */
  function ParseMembers(ts: seq<Token>, sep: bool): (p: Parsed<Members>)
    ensures p.Parsed? ==> |p.rest| < |ts|
    decreases |ts|, 1
  {
    if ts == [] then Rejected
    else if ts[0] == RBrace then Parsed(NoMembers, ts[1..])
    else match AfterSeparator(ts, sep)
      case None => Rejected
      case Some(body) =>
        if |body| < 2 || !body[0].Str? || body[1] != Colon then Rejected
        else match ParseValue(body[2..])
          case Rejected => Rejected
          case Parsed(value, more) =>
            match ParseMembers(more, true)
            case Rejected => Rejected
            case Parsed(members, rest) => Parsed(Member(body[0].raw, value, members), rest)
  }

  // ----- parsing and printing undo each other -----

  lemma {:induction false} ParsedValuePrints(ts: seq<Token>)
    requires ParseValue(ts).Parsed?
    ensures ts == Tokens(ParseValue(ts).value) + ParseValue(ts).rest
    decreases |ts|, 0
  {
    match ts[0]
    case LBracket => ParsedItemsPrint(ts[1..], false);
    case LBrace => ParsedMembersPrint(ts[1..], false);
    case _ =>
  }

  lemma {:induction false} ParsedItemsPrint(ts: seq<Token>, sep: bool)
    requires ParseItems(ts, sep).Parsed?
    ensures ts == ItemTokens(ParseItems(ts, sep).value, sep) + [RBracket] + ParseItems(ts, sep).rest
    decreases |ts|, 1
  {
    var p := ParseItems(ts, sep);
    if ts[0] == RBracket {
      assert ts == [] + [RBracket] + p.rest;
    } else {
      var body := AfterSeparator(ts, sep).value;
      var v := ParseValue(body);
      var q := ParseItems(v.rest, true);
      ParsedValuePrints(body);
      ParsedItemsPrint(v.rest, true);
      Regroup(Separator(sep), Tokens(v.value), ItemTokens(q.value, true), [RBracket], q.rest);
    }
  }

  /** One turn of `ParseMembers`: the name read, the value, the members left. */
  lemma ParseMembersTurn(ts: seq<Token>, sep: bool) returns (name: Bytes, tail: seq<Token>)
    requires ParseMembers(ts, sep).Parsed? && ts[0] != RBrace
    ensures ts == (Separator(sep) + [Str(name), Colon]) + tail
    ensures |tail| < |ts| && ParseValue(tail).Parsed? && ParseMembers(ParseValue(tail).rest, true).Parsed?
    ensures var q := ParseMembers(ParseValue(tail).rest, true);
            ParseMembers(ts, sep) == Parsed(Member(name, ParseValue(tail).value, q.value), q.rest)
  {
    var body := AfterSeparator(ts, sep).value;
    name, tail := body[0].raw, body[2..];
    assert body == [Str(name), Colon] + tail;
    NameAhead(Separator(sep), [Str(name), Colon], tail);
  }

  lemma {:induction false} ParsedMembersPrint(ts: seq<Token>, sep: bool)
    requires ParseMembers(ts, sep).Parsed?
    ensures ts == MemberTokens(ParseMembers(ts, sep).value, sep) + [RBrace] + ParseMembers(ts, sep).rest
    decreases |ts|, 1
  {
    if ts[0] == RBrace {
      assert ts == [] + [RBrace] + ParseMembers(ts, sep).rest;
    } else {
      var name, tail := ParseMembersTurn(ts, sep);
      var v := ParseValue(tail);
      var q := ParseMembers(v.rest, true);
      ParsedValuePrints(tail);
      ParsedMembersPrint(v.rest, true);
      Regroup(Separator(sep) + [Str(name), Colon], Tokens(v.value), MemberTokens(q.value, true), [RBrace], q.rest);
    }
  }

  lemma Regroup(a: seq<Token>, b: seq<Token>, c: seq<Token>, d: seq<Token>, e: seq<Token>)
    ensures a + (b + (c + d + e)) == (a + b + c) + d + e
  {
  }

  lemma Enclose(a: Token, b: seq<Token>, c: seq<Token>, d: seq<Token>)
    ensures [a] + b + c + d == [a] + (b + c + d)
    ensures ([a] + b + c + d)[1..] == b + c + d
  {
  }

  /** A value never starts with what closes or separates values. */
  lemma TokensHead(v: Json)
    ensures Tokens(v) != [] && Tokens(v)[0] !in {RBracket, RBrace, Comma, Colon}
  {
  }

  lemma {:induction false} PrintedValueParses(v: Json, rest: seq<Token>)
    ensures ParseValue(Tokens(v) + rest) == Parsed(v, rest)
    decreases v
  {
    var ts := Tokens(v) + rest;
    match v
    case Arr(items) =>
      var body := ItemTokens(items, false) + [RBracket] + rest;
      PrintedItemsParse(items, false, rest);
      Enclose(LBracket, ItemTokens(items, false), [RBracket], rest);
      assert ts[0] == LBracket && ts[1..] == body;
    case Obj(members) =>
      var body := MemberTokens(members, false) + [RBrace] + rest;
      PrintedMembersParse(members, false, rest);
      Enclose(LBrace, MemberTokens(members, false), [RBrace], rest);
      assert ts[0] == LBrace && ts[1..] == body;
    case _ =>
      assert ts[1..] == rest;
  }

  lemma {:induction false} PrintedItemsParse(items: Items, sep: bool, rest: seq<Token>)
    ensures ParseItems(ItemTokens(items, sep) + [RBracket] + rest, sep) == Parsed(items, rest)
    decreases items
  {
    var ts := ItemTokens(items, sep) + [RBracket] + rest;
    match items
    case NoItems =>
      assert ts[1..] == rest;
    case Item(head, tail) =>
      var more := ItemTokens(tail, true) + [RBracket] + rest;
      var body := Tokens(head) + more;
      Regroup(Separator(sep), Tokens(head), ItemTokens(tail, true), [RBracket], rest);
      TokensHead(head);
      SkipSeparator(body, sep);
      PrintedValueParses(head, more);
      PrintedItemsParse(tail, true, rest);
  }

  lemma {:induction false} PrintedMembersParse(members: Members, sep: bool, rest: seq<Token>)
    ensures ParseMembers(MemberTokens(members, sep) + [RBrace] + rest, sep) == Parsed(members, rest)
    decreases members
  {
    var ts := MemberTokens(members, sep) + [RBrace] + rest;
    match members
    case NoMembers =>
      assert ts[1..] == rest;
    case Member(name, value, others) =>
      var more := MemberTokens(others, true) + [RBrace] + rest;
      var body := [Str(name), Colon] + (Tokens(value) + more);
      Regroup(Separator(sep) + [Str(name), Colon], Tokens(value), MemberTokens(others, true), [RBrace], rest);
      NameAhead(Separator(sep), [Str(name), Colon], Tokens(value) + more);
      SkipSeparator(body, sep);
      PrintedValueParses(value, more);
      PrintedMembersParse(others, true, rest);
  }

  lemma NameAhead(a: seq<Token>, name: seq<Token>, b: seq<Token>)
    requires |name| == 2
    ensures a + (name + b) == (a + name) + b
    ensures (name + b)[2..] == b
  {
  }

  lemma SkipSeparator(body: seq<Token>, sep: bool)
    ensures AfterSeparator(Separator(sep) + body, sep) == Some(body)
  {
    assert Separator(false) + body == body;
    assert (Separator(true) + body)[1..] == body;
  }

  /** No two trees print alike, so a text has at most one reading. */
  lemma TokensInjective(v: Json, w: Json)
    requires Tokens(v) == Tokens(w)
    ensures v == w
  {
    PrintedValueParses(v, []);
    PrintedValueParses(w, []);
    assert Tokens(v) + [] == Tokens(v);
    assert Tokens(w) + [] == Tokens(w);
  }

  lemma {:induction false} TokensNotBad(v: Json)
    ensures Bad !in Tokens(v)
    decreases v
  {
    match v
    case Arr(items) => ItemTokensNotBad(items, false);
    case Obj(members) => MemberTokensNotBad(members, false);
    case _ =>
  }

  lemma {:induction false} ItemTokensNotBad(items: Items, sep: bool)
    ensures Bad !in ItemTokens(items, sep)
    decreases items
  {
    if items.Item? {
      TokensNotBad(items.head);
      ItemTokensNotBad(items.tail, true);
    }
  }

  lemma {:induction false} MemberTokensNotBad(members: Members, sep: bool)
    ensures Bad !in MemberTokens(members, sep)
    decreases members
  {
    if members.Member? {
      TokensNotBad(members.value);
      MemberTokensNotBad(members.rest, true);
    }
  }

  /** Whether `s` is one JSON text whose tree is `v`. */
  ghost predicate IsTextOf(s: Bytes, v: Json) {
    Lex(s) == Tokens(v)
  }

  lemma ParseIsTextOf(s: Bytes, v: Json)
    ensures IsTextOf(s, v) <==> ParseValue(Lex(s)) == Parsed(v, [])
  {
    PrintedValueParses(v, []);
    assert Tokens(v) + [] == Tokens(v);
    if ParseValue(Lex(s)) == Parsed(v, []) {
      ParsedValuePrints(Lex(s));
    }
  }

  // ----- compact texts -----

  /** The nesting the standard library's scanner gives up beyond. */
  const MAX_NESTING := 10000

  function Max(a: nat, b: nat): nat {
    if a < b then b else a
  }

  function Depth(v: Json): nat {
    match v
    case Arr(items) => 1 + ItemsDepth(items)
    case Obj(members) => 1 + MembersDepth(members)
    case _ => 0
  }

  function ItemsDepth(items: Items): nat {
    match items
    case NoItems => 0
    case Item(head, tail) => Max(Depth(head), ItemsDepth(tail))
  }

  function MembersDepth(members: Members): nat {
    match members
    case NoMembers => 0
    case Member(_, value, rest) => Max(Depth(value), MembersDepth(rest))
  }

  function Concat(ts: seq<Token>): Bytes {
    if ts == [] then [] else Text(ts[0]) + Concat(ts[1..])
  }

  /** `json.Compact`: the same tokens without the white space between them. */
  function Compact(s: Bytes): Option<Bytes> {
    match ParseValue(Lex(s))
    case Rejected => None
    case Parsed(v, rest) => if rest == [] && Depth(v) <= MAX_NESTING then Some(Concat(Lex(s))) else None
  }

  predicate IsCompact(s: Bytes) {
    Compact(s) == Some(s)
  }

  lemma {:induction false} ConcatPrintable(ts: seq<Token>)
    requires forall t :: t in ts ==> Printable(Text(t))
    ensures Printable(Concat(ts))
  {
    if ts != [] {
      assert ts[0] in ts;
      ConcatPrintable(ts[1..]);
    }
  }

  lemma {:induction false} LexHeadsVisible(s: Bytes)
    ensures forall t :: t in Lex(s) && !t.Bad? ==> Text(t) != [] && !IsSpace(Text(t)[0])
  {
    if s != [] {
      if IsSpace(s[0]) {
        LexHeadsVisible(s[1..]);
      } else if !First(s).token.Bad? {
        LexHeadsVisible(s[First(s).size..]);
      }
    }
  }

  /** A compact text is never empty, does not start with white space and holds no
      control byte, so no line feed and no carriage return. */
  lemma CompactPrintable(s: Bytes)
    requires IsCompact(s)
    ensures s != [] && s[0] != ' ' && Printable(s)
  {
    var ts := Lex(s);
    LexPrintable(s);
    ConcatPrintable(ts);
    LexHeadsVisible(s);
    assert ts[0] in ts;
    assert Concat(ts)[0] == Text(ts[0])[0];
  }
}
