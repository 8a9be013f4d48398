/** JSON texts byte by byte: the trees of RFC 8259, printed with and without white
    space, are exactly what the grammar and the walk read. */
module JsonText {
  import opened Prelude
  import opened JsonLexer
  import opened JsonGrammar
  import opened JsonNames
  import opened JsonSpelling

  // ----- trees -----

  /** The leaves of a tree, and its names, are spelled as the standard says. */
  ghost predicate WellSpelled(v: Json) {
    match v
    case Quoted(raw) => IsContent(raw)
    case Number(text) => IsNumber(text)
    case Literal(word) => IsLiteral(word)
    case Arr(items) => ItemsSpelled(items)
    case Obj(members) => MembersSpelled(members)
  }

  ghost predicate ItemsSpelled(items: Items) {
    match items
    case NoItems => true
    case Item(head, tail) => WellSpelled(head) && ItemsSpelled(tail)
  }

  ghost predicate MembersSpelled(members: Members) {
    match members
    case NoMembers => true
    case Member(name, value, rest) => IsContent(name) && WellSpelled(value) && MembersSpelled(rest)
  }

  /** A tree without white space, printed byte by byte. */
  function Render(v: Json): Bytes {
    match v
    case Quoted(raw) => "\"" + (raw + "\"")
    case Number(text) => text
    case Literal(word) => word
    case Arr(items) => "[" + (RenderItems(items, false) + "]")
    case Obj(members) => "{" + (RenderMembers(members, false) + "}")
  }

  function RenderComma(sep: bool): Bytes {
    if sep then "," else ""
  }

  function RenderItems(items: Items, sep: bool): Bytes {
    match items
    case NoItems => ""
    case Item(head, tail) => RenderComma(sep) + (Render(head) + RenderItems(tail, true))
  }

  function RenderMembers(members: Members, sep: bool): Bytes {
    match members
    case NoMembers => ""
    case Member(name, value, rest) =>
      RenderComma(sep) + (("\"" + (name + "\"") + ":") + (Render(value) + RenderMembers(rest, true)))
  }

  lemma {:induction false} ConcatAppend(a: seq<Token>, b: seq<Token>)
    ensures Concat(a + b) == Concat(a) + Concat(b)
  {
    if a == [] {
      assert a + b == b;
    } else {
      assert (a + b)[1..] == a[1..] + b;
      ConcatAppend(a[1..], b);
    }
  }

  lemma ConcatOne(t: Token)
    ensures Concat([t]) == Written(t)
  {
    TextIsWritten(t);
    assert Text(t) + [] == Text(t);
  }

  lemma ConcatThree(a: seq<Token>, b: seq<Token>, c: seq<Token>)
    ensures Concat(a + b + c) == Concat(a) + (Concat(b) + Concat(c))
  {
    ConcatAppend(a + b, c);
    ConcatAppend(a, b);
    Nested(Concat(a), Concat(b), Concat(c));
  }

  lemma Nested(a: Bytes, b: Bytes, c: Bytes)
    ensures a + b + c == a + (b + c)
  {
  }

  lemma ConcatEnclosed(open: Token, ts: seq<Token>, close: Token)
    ensures Concat([open] + ts + [close]) == Written(open) + (Concat(ts) + Written(close))
  {
    ConcatThree([open], ts, [close]);
    ConcatOne(open);
    ConcatOne(close);
  }

  lemma ConcatSeparator(sep: bool)
    ensures Concat(Separator(sep)) == RenderComma(sep)
  {
    ConcatOne(Comma);
  }

  lemma ConcatName(name: Bytes)
    ensures Concat([Str(name), Colon]) == "\"" + (name + "\"") + ":"
  {
    assert [Str(name), Colon] == [Str(name)] + [Colon];
    ConcatAppend([Str(name)], [Colon]);
    ConcatOne(Str(name));
    ConcatOne(Colon);
  }

  /** The tokens of a tree, written one behind the other. */
  lemma {:induction false} TokensRender(v: Json)
    ensures Concat(Tokens(v)) == Render(v)
    decreases v
  {
    match v
    case Arr(items) =>
      ItemsRender(items, false);
      ConcatEnclosed(LBracket, ItemTokens(items, false), RBracket);
    case Obj(members) =>
      MembersRender(members, false);
      ConcatEnclosed(LBrace, MemberTokens(members, false), RBrace);
    case _ => ConcatOne(Tokens(v)[0]);
  }

  lemma {:induction false} ItemsRender(items: Items, sep: bool)
    ensures Concat(ItemTokens(items, sep)) == RenderItems(items, sep)
    decreases items
  {
    match items
    case NoItems =>
    case Item(head, tail) =>
      TokensRender(head);
      ItemsRender(tail, true);
      ConcatSeparator(sep);
      ConcatThree(Separator(sep), Tokens(head), ItemTokens(tail, true));
  }

  lemma {:induction false} MembersRender(members: Members, sep: bool)
    ensures Concat(MemberTokens(members, sep)) == RenderMembers(members, sep)
    decreases members
  {
    match members
    case NoMembers =>
    case Member(name, value, rest) =>
      var head := Separator(sep) + [Str(name), Colon];
      TokensRender(value);
      MembersRender(rest, true);
      ConcatSeparator(sep);
      ConcatName(name);
      ConcatThree(head, Tokens(value), MemberTokens(rest, true));
      ConcatAppend(Separator(sep), [Str(name), Colon]);
      Nested(RenderComma(sep), Concat([Str(name), Colon]), Render(value) + RenderMembers(rest, true));
  }

  lemma SpelledSplits(a: seq<Token>, b: seq<Token>)
    ensures AllSpelled(a + b) <==> AllSpelled(a) && AllSpelled(b)
  {
    assert forall i :: 0 <= i < |a| ==> (a + b)[i] == a[i];
    assert forall i :: 0 <= i < |b| ==> (a + b)[|a| + i] == b[i];
  }

  lemma {:induction false} TokensSpelled(v: Json)
    ensures AllSpelled(Tokens(v)) <==> WellSpelled(v)
    decreases v
  {
    match v
    case Arr(items) =>
      ItemsTokensSpelled(items, false);
      SpelledSplits([LBracket] + ItemTokens(items, false), [RBracket]);
      SpelledSplits([LBracket], ItemTokens(items, false));
    case Obj(members) =>
      MembersTokensSpelled(members, false);
      SpelledSplits([LBrace] + MemberTokens(members, false), [RBrace]);
      SpelledSplits([LBrace], MemberTokens(members, false));
    case _ => assert AllSpelled(Tokens(v)) <==> Spelled(Tokens(v)[0]);
  }

  lemma {:induction false} ItemsTokensSpelled(items: Items, sep: bool)
    ensures AllSpelled(ItemTokens(items, sep)) <==> ItemsSpelled(items)
    decreases items
  {
    match items
    case NoItems =>
    case Item(head, tail) =>
      TokensSpelled(head);
      ItemsTokensSpelled(tail, true);
      SpelledSplits(Separator(sep) + Tokens(head), ItemTokens(tail, true));
      SpelledSplits(Separator(sep), Tokens(head));
  }

  lemma {:induction false} MembersTokensSpelled(members: Members, sep: bool)
    ensures AllSpelled(MemberTokens(members, sep)) <==> MembersSpelled(members)
    decreases members
  {
    match members
    case NoMembers =>
    case Member(name, value, rest) =>
      var head := Separator(sep) + [Str(name), Colon];
      TokensSpelled(value);
      MembersTokensSpelled(rest, true);
      SpelledSplits(head + Tokens(value), MemberTokens(rest, true));
      SpelledSplits(head, Tokens(value));
      SpelledSplits(Separator(sep), [Str(name), Colon]);
      assert AllSpelled([Str(name), Colon]) <==> IsContent(name) by {
        assert [Str(name), Colon][0] == Str(name) && Spelled(Colon);
      }
  }

  /** A number may stand in front of these. */
  predicate ClosesFirst(ts: seq<Token>) {
    ts == [] || Closes(ts[0])
  }

  lemma ApartMore(t: Token, ts: seq<Token>)
    requires Apart(ts) && (t.Num? ==> ClosesFirst(ts))
    ensures Apart([t] + ts)
  {
    var all := [t] + ts;
    assert all[1..] == ts;
    assert forall i :: 0 < i < |all| ==> all[i] == ts[i - 1];
  }

  lemma ApartSeparator(sep: bool, ts: seq<Token>)
    requires Apart(ts)
    ensures Apart(Separator(sep) + ts)
  {
    if sep {
      ApartMore(Comma, ts);
    } else {
      assert Separator(sep) + ts == ts;
    }
  }

  lemma ApartEnclosed(open: Token, ts: seq<Token>, close: Token, rest: seq<Token>)
    requires !open.Num? && !close.Num? && Apart(ts + ([close] + rest))
    ensures Apart([open] + ts + [close] + rest)
  {
    ApartMore(open, ts + ([close] + rest));
    assert [open] + ts + [close] + rest == [open] + (ts + ([close] + rest));
  }

  lemma ApartName(name: Bytes, ts: seq<Token>)
    requires Apart(ts)
    ensures Apart([Str(name), Colon] + ts)
  {
    ApartMore(Colon, ts);
    ApartMore(Str(name), [Colon] + ts);
    assert [Str(name), Colon] + ts == [Str(name)] + ([Colon] + ts);
  }

  lemma ThreeInFront(a: seq<Token>, b: seq<Token>, c: seq<Token>, rest: seq<Token>)
    ensures a + b + c + rest == a + (b + (c + rest))
  {
  }

  lemma {:induction false} TokensApart(v: Json, rest: seq<Token>)
    requires Apart(rest) && ClosesFirst(rest)
    ensures Apart(Tokens(v) + rest)
    decreases v
  {
    match v
    case Arr(items) =>
      ApartMore(RBracket, rest);
      ItemsApart(items, false, [RBracket] + rest);
      ApartEnclosed(LBracket, ItemTokens(items, false), RBracket, rest);
    case Obj(members) =>
      ApartMore(RBrace, rest);
      MembersApart(members, false, [RBrace] + rest);
      ApartEnclosed(LBrace, MemberTokens(members, false), RBrace, rest);
    case _ => ApartMore(Tokens(v)[0], rest);
  }

  lemma {:induction false} ItemsApart(items: Items, sep: bool, rest: seq<Token>)
    requires Apart(rest) && rest != [] && Closes(rest[0])
    ensures Apart(ItemTokens(items, sep) + rest)
    ensures items.NoItems? || sep ==> ClosesFirst(ItemTokens(items, sep) + rest)
    decreases items
  {
    match items
    case NoItems => assert [] + rest == rest;
    case Item(head, tail) =>
      var behind := ItemTokens(tail, true) + rest;
      ItemsApart(tail, true, rest);
      TokensApart(head, behind);
      ApartSeparator(sep, Tokens(head) + behind);
      ThreeInFront(Separator(sep), Tokens(head), ItemTokens(tail, true), rest);
  }

  lemma {:induction false} MembersApart(members: Members, sep: bool, rest: seq<Token>)
    requires Apart(rest) && rest != [] && Closes(rest[0])
    ensures Apart(MemberTokens(members, sep) + rest)
    ensures members.NoMembers? || sep ==> ClosesFirst(MemberTokens(members, sep) + rest)
    decreases members
  {
    match members
    case NoMembers => assert [] + rest == rest;
    case Member(name, value, others) =>
      var behind := MemberTokens(others, true) + rest;
      MembersApart(others, true, rest);
      TokensApart(value, behind);
      ApartName(name, Tokens(value) + behind);
      ApartSeparator(sep, [Str(name), Colon] + (Tokens(value) + behind));
      ThreeInFront(Separator(sep) + [Str(name), Colon], Tokens(value), MemberTokens(others, true), rest);
      NameAhead(Separator(sep), [Str(name), Colon], Tokens(value) + behind);
  }

  function NoGaps(n: nat): (gaps: seq<Bytes>)
    ensures |gaps| == n && AllGaps(gaps)
  {
    seq(n, _ => [])
  }

  lemma {:induction false} LaidClosely(ts: seq<Token>)
    ensures Laid(ts, NoGaps(|ts| + 1)) == Concat(ts)
  {
    if ts != [] {
      assert NoGaps(|ts| + 1)[1..] == NoGaps(|ts[1..]| + 1);
      LaidClosely(ts[1..]);
      TextIsWritten(ts[0]);
    }
  }

  lemma TreeApart(v: Json)
    ensures Apart(Tokens(v))
  {
    TokensApart(v, []);
    assert Tokens(v) + [] == Tokens(v);
  }

  // ----- what a text is -----

  /** A byte string is a text of a tree exactly when the tree's strings, numbers
      and literals are spelled as the standard says and the bytes are its tokens
      with white space in front of, between or behind them. */
  lemma TextIff(s: Bytes, v: Json)
    ensures IsTextOf(s, v) <==>
            && WellSpelled(v)
            && exists gaps :: |gaps| == |Tokens(v)| + 1 && AllGaps(gaps) && s == Laid(Tokens(v), gaps)
  {
    TreeApart(v);
    TokensSpelled(v);
    if IsTextOf(s, v) {
      TokensNotBad(v);
      var gaps := LexLays(s);
    }
    forall gaps | WellSpelled(v) && |gaps| == |Tokens(v)| + 1 && AllGaps(gaps) && s == Laid(Tokens(v), gaps)
      ensures IsTextOf(s, v)
    {
      LaidLexes(Tokens(v), gaps);
    }
  }

  /** Printed without white space a well-spelled tree is a text of itself. */
  lemma RenderedIsText(v: Json)
    requires WellSpelled(v)
    ensures IsTextOf(Render(v), v)
  {
    TokensRender(v);
    LaidClosely(Tokens(v));
    TextIff(Render(v), v);
  }

  /** A payload is compact exactly when it is the bytes of a well-spelled tree
      that nests no deeper than 10000, without any white space. */
  lemma CompactIff(s: Bytes)
    ensures IsCompact(s) <==> exists v :: WellSpelled(v) && Depth(v) <= 10000 && s == Render(v)
  {
    if IsCompact(s) {
      var v := ParseValue(Lex(s)).value;
      ParseIsTextOf(s, v);
      TextIff(s, v);
      TokensRender(v);
      assert WellSpelled(v) && Depth(v) <= 10000 && s == Render(v);
    }
    forall v | WellSpelled(v) && Depth(v) <= 10000 && s == Render(v) ensures IsCompact(s) {
      RenderedIsText(v);
      ParseIsTextOf(s, v);
      TokensRender(v);
    }
  }

  /** The duplicate-member walk accepts a byte string exactly when it is a text,
      byte by byte, of a tree that repeats no name and holds no number out of range. */
  lemma WalkAcceptsTexts(s: Bytes, lib: Library)
    ensures WalkAccepts(s, lib) <==>
            exists v, gaps ::
              && WellSpelled(v) && Acceptable(v, lib)
              && |gaps| == |Tokens(v)| + 1 && AllGaps(gaps) && s == Laid(Tokens(v), gaps)
  {
    WalkAcceptsIff(s, lib);
    if WalkAccepts(s, lib) {
      var v :| IsTextOf(s, v) && Acceptable(v, lib);
      TextIff(s, v);
      var gaps :| |gaps| == |Tokens(v)| + 1 && AllGaps(gaps) && s == Laid(Tokens(v), gaps);
      assert WellSpelled(v) && Acceptable(v, lib);
    }
    forall v, gaps | WellSpelled(v) && Acceptable(v, lib) && |gaps| == |Tokens(v)| + 1 && AllGaps(gaps)
                     && s == Laid(Tokens(v), gaps)
      ensures WalkAccepts(s, lib)
    {
      TextIff(s, v);
    }
  }

  // ----- nesting -----

  /** How many brackets and braces these tokens leave open. */
  function Level(ts: seq<Token>): int {
    var m := multiset(ts);
    (m[LBracket] + m[LBrace]) as int - (m[RBracket] + m[RBrace]) as int
  }

  /** They close all that they open, and hold open `depth` at most, and that once. */
  ghost predicate Nests(ts: seq<Token>, depth: nat) {
    && Level(ts) == 0
    && (forall i :: 0 <= i <= |ts| ==> Level(ts[..i]) <= depth)
    && (exists i :: 0 <= i <= |ts| && Level(ts[..i]) == depth)
  }

  lemma LevelAppends(a: seq<Token>, b: seq<Token>)
    ensures Level(a + b) == Level(a) + Level(b)
  {
  }

  lemma NestsBehind(a: seq<Token>, b: seq<Token>, d: nat, e: nat)
    requires Nests(a, d) && Nests(b, e)
    ensures Nests(a + b, Max(d, e))
  {
    var all := a + b;
    LevelAppends(a, b);
    forall i | 0 <= i <= |all| ensures Level(all[..i]) == if i <= |a| then Level(a[..i]) else Level(b[..i - |a|]) {
      if i <= |a| {
        assert all[..i] == a[..i];
      } else {
        assert all[..i] == a + b[..i - |a|];
        LevelAppends(a, b[..i - |a|]);
      }
    }
    var i :| 0 <= i <= |a| && Level(a[..i]) == d;
    var j :| 0 <= j <= |b| && Level(b[..j]) == e;
    assert Level(all[..i]) == d;
    assert b[..0] == [] && a[..|a|] == a;
    assert Level(all[..|a| + j]) == e;
  }

  lemma LevelOne(t: Token)
    ensures Level([t]) == if t.LBracket? || t.LBrace? then 1 else if t.RBracket? || t.RBrace? then -1 else 0
  {
  }

  lemma NestsEnclosed(open: Token, ts: seq<Token>, close: Token, depth: nat)
    requires Nests(ts, depth) && (open.LBracket? || open.LBrace?) && (close.RBracket? || close.RBrace?)
    ensures Nests([open] + ts + [close], depth + 1)
  {
    var all, n := [open] + ts + [close], |ts|;
    LevelOne(open);
    LevelOne(close);
    LevelAppends([open] + ts, [close]);
    LevelAppends([open], ts);
    forall i | 0 <= i <= |all|
      ensures Level(all[..i]) == if i == 0 then 0 else if i <= n + 1 then 1 + Level(ts[..i - 1]) else 0
    {
      if i == 0 {
        assert all[..i] == [];
      } else if i <= n + 1 {
        assert all[..i] == [open] + ts[..i - 1];
        LevelAppends([open], ts[..i - 1]);
      } else {
        assert all[..i] == all;
      }
    }
    var j :| 0 <= j <= n && Level(ts[..j]) == depth;
    assert Level(all[..j + 1]) == depth + 1;
  }

  predicate Flat(ts: seq<Token>) {
    LBracket !in ts && LBrace !in ts && RBracket !in ts && RBrace !in ts
  }

  lemma FlatNests(ts: seq<Token>)
    requires Flat(ts)
    ensures Nests(ts, 0)
  {
    forall i | 0 <= i <= |ts| ensures Level(ts[..i]) == 0 {
      assert Flat(ts[..i]);
    }
    assert ts[..|ts|] == ts;
  }

  lemma NestsInRow(front: seq<Token>, a: seq<Token>, b: seq<Token>, d: nat, e: nat)
    requires Flat(front) && Nests(a, d) && Nests(b, e)
    ensures Nests(front + a + b, Max(d, e))
  {
    FlatNests(front);
    NestsBehind(front, a, 0, d);
    NestsBehind(front + a, b, d, e);
  }

  lemma FrontIsFlat(sep: bool, name: Bytes)
    ensures Flat(Separator(sep)) && Flat(Separator(sep) + [Str(name), Colon])
  {
  }

  lemma ArrayNests(items: Items)
    requires Nests(ItemTokens(items, false), ItemsDepth(items))
    ensures Nests(Tokens(Arr(items)), Depth(Arr(items)))
  {
    NestsEnclosed(LBracket, ItemTokens(items, false), RBracket, ItemsDepth(items));
  }

  lemma ObjectNests(members: Members)
    requires Nests(MemberTokens(members, false), MembersDepth(members))
    ensures Nests(Tokens(Obj(members)), Depth(Obj(members)))
  {
    NestsEnclosed(LBrace, MemberTokens(members, false), RBrace, MembersDepth(members));
  }

  lemma LeafNests(v: Json)
    requires !v.Arr? && !v.Obj?
    ensures Nests(Tokens(v), Depth(v))
  {
    assert Flat(Tokens(v));
    FlatNests(Tokens(v));
  }

  /** The depth of a tree is the most brackets and braces that its tokens hold open at
      once, which is what the library's scanner counts. */
  lemma {:induction false} TokensNest(v: Json)
    ensures Nests(Tokens(v), Depth(v))
    decreases v
  {
    match v
    case Arr(items) =>
      ItemsNest(items, false);
      ArrayNests(items);
    case Obj(members) =>
      MembersNest(members, false);
      ObjectNests(members);
    case _ => LeafNests(v);
  }

  lemma {:induction false} ItemsNest(items: Items, sep: bool)
    ensures Nests(ItemTokens(items, sep), ItemsDepth(items))
    decreases items
  {
    match items
    case NoItems => FlatNests([]);
    case Item(head, tail) =>
      TokensNest(head);
      ItemsNest(tail, true);
      FrontIsFlat(sep, []);
      NestsInRow(Separator(sep), Tokens(head), ItemTokens(tail, true), Depth(head), ItemsDepth(tail));
  }

  lemma {:induction false} MembersNest(members: Members, sep: bool)
    ensures Nests(MemberTokens(members, sep), MembersDepth(members))
    decreases members
  {
    match members
    case NoMembers => FlatNests([]);
    case Member(name, value, rest) =>
      var front := Separator(sep) + [Str(name), Colon];
      TokensNest(value);
      MembersNest(rest, true);
      FrontIsFlat(sep, name);
      NestsInRow(front, Tokens(value), MemberTokens(rest, true), Depth(value), MembersDepth(rest));
  }

  // ----- what a string says -----

  /** The value of a hexadecimal digit. */
  function DigitOf(c: byte): int
    requires HexDigit(c)
  {
    if '0' <= c <= '9' then c as int - 0x30 else if 'A' <= c <= 'F' then c as int - 0x37 else c as int - 0x57
  }

  function CodeOf(hex: Bytes): int
    requires |hex| == 4 && forall i :: 0 <= i < 4 ==> HexDigit(hex[i])
  {
    DigitOf(hex[0]) * 0x1000 + DigitOf(hex[1]) * 0x100 + DigitOf(hex[2]) * 0x10 + DigitOf(hex[3])
  }

  /** The code of the character that a piece stands for (section 7 of RFC 8259),
      for a byte outside ASCII the byte itself. */
  function Meaning(p: Piece): int
    requires IsPiece(p)
  {
    match p
    case Plain(c) => c as int
    case Short(c) =>
      if c == 'b' then 0x08 else if c == 'f' then 0x0C else if c == 'n' then 0x0A
      else if c == 'r' then 0x0D else if c == 't' then 0x09 else c as int
    case Unicode(hex) => CodeOf(hex)
  }

  predicate AllAscii(ps: seq<Piece>)
    requires AllPieces(ps)
  {
    forall i :: 0 <= i < |ps| ==> Meaning(ps[i]) < 0x80
  }

  /** A text of these characters. */
  predicate Says(ps: seq<Piece>, text: Bytes)
    requires AllPieces(ps)
  {
    |text| == |ps| && forall i :: 0 <= i < |ps| ==> text[i] as int == Meaning(ps[i])
  }

  lemma HexValueIs(c: byte)
    requires HexDigit(c)
    ensures IsHex(c) && HexValue(c) == DigitOf(c)
  {
    HexIff(c);
  }

  lemma EscapeMeans(p: Piece, rest: Bytes)
    requires IsPiece(p) && !p.Plain?
    ensures var s := PieceText(p) + rest;
            && EscapeSize(s) == |PieceText(p)| > 0
            && (EscapeValue(s).Some? <==> Meaning(p) < 0x80)
            && (EscapeValue(s).Some? ==> EscapeValue(s).value as int == Meaning(p))
  {
    PieceReads(p, rest);
    if p.Unicode? {
      HexMeans(p.hex, PieceText(p) + rest);
    }
  }

  lemma HexMeans(hex: Bytes, s: Bytes)
    requires |hex| == 4 && forall i :: 0 <= i < 4 ==> HexDigit(hex[i])
    requires |s| >= 6 && s[2..6] == hex && EscapeSize(s) == 6
    ensures EscapeValue(s).Some? <==> CodeOf(hex) < 0x80
    ensures EscapeValue(s).Some? ==> EscapeValue(s).value as int == CodeOf(hex)
  {
    assert s[2] == hex[0] && s[3] == hex[1] && s[4] == hex[2] && s[5] == hex[3];
    HexValueIs(hex[0]);
    HexValueIs(hex[1]);
    HexValueIs(hex[2]);
    HexValueIs(hex[3]);
  }

  lemma {:induction false} PiecesUnescape(ps: seq<Piece>)
    requires AllPieces(ps)
    ensures Unescaped(Content(ps)).Some? <==> AllAscii(ps)
    ensures Unescaped(Content(ps)).Some? ==> Says(ps, Unescaped(Content(ps)).value)
  {
    if ps != [] {
      var p, rest := ps[0], Content(ps[1..]);
      PiecesUnescape(ps[1..]);
      PieceReads(p, rest);
      if !p.Plain? {
        EscapeMeans(p, rest);
      }
      assert ps == [p] + ps[1..];
      assert AllAscii(ps) <==> Meaning(p) < 0x80 && AllAscii(ps[1..]);
    }
  }

  /** A name made of ASCII characters, written as themselves or as escapes, decodes to
      them; any other decodes as the library says. So two spellings of one ASCII name
      are one name. */
  lemma DecodedSays(ps: seq<Piece>, lib: Library)
    requires AllPieces(ps)
    ensures if AllAscii(ps) then Says(ps, Decoded(Content(ps), lib))
            else Decoded(Content(ps), lib) == lib.unescape(Content(ps))
  {
    PiecesUnescape(ps);
  }

  lemma SpellingsAgree(ps: seq<Piece>, qs: seq<Piece>, lib: Library)
    requires AllPieces(ps) && AllPieces(qs) && AllAscii(ps) && |ps| == |qs|
    requires forall i :: 0 <= i < |ps| ==> Meaning(ps[i]) == Meaning(qs[i])
    ensures Decoded(Content(ps), lib) == Decoded(Content(qs), lib)
  {
    DecodedSays(ps, lib);
    DecodedSays(qs, lib);
    SaysOnce(ps, qs, Decoded(Content(ps), lib), Decoded(Content(qs), lib));
  }

  lemma SaysOnce(ps: seq<Piece>, qs: seq<Piece>, a: Bytes, b: Bytes)
    requires AllPieces(ps) && AllPieces(qs) && |ps| == |qs| && Says(ps, a) && Says(qs, b)
    requires forall i :: 0 <= i < |ps| ==> Meaning(ps[i]) == Meaning(qs[i])
    ensures a == b
  {
    assert forall i :: 0 <= i < |a| ==> a[i] as int == b[i] as int;
  }

  lemma TwiceNamed(a: Bytes, b: Bytes, v: Json, w: Json, lib: Library)
    requires Decoded(a, lib) == Decoded(b, lib)
    ensures !Unique(Obj(Member(a, v, Member(b, w, NoMembers))), lib)
  {
    var second := Member(b, w, NoMembers);
    assert Names(second, lib) == [Decoded(b, lib)] + Names(NoMembers, lib);
    var names := Names(Member(a, v, second), lib);
    assert names == [Decoded(a, lib)] + Names(second, lib);
    assert names[0] == Decoded(a, lib) && names[1] == Decoded(b, lib);
  }

  /** An escape does not hide a repeated name: an object whose two names are spelled
      with the same ASCII characters, however they are written, is refused. */
  lemma EscapesHideNothing(s: Bytes, ps: seq<Piece>, qs: seq<Piece>, v: Json, w: Json, lib: Library)
    requires AllPieces(ps) && AllPieces(qs) && AllAscii(ps) && |ps| == |qs|
    requires forall i :: 0 <= i < |ps| ==> Meaning(ps[i]) == Meaning(qs[i])
    requires IsTextOf(s, Obj(Member(Content(ps), v, Member(Content(qs), w, NoMembers))))
    ensures !WalkAccepts(s, lib)
  {
    SpellingsAgree(ps, qs, lib);
    TwiceNamed(Content(ps), Content(qs), v, w, lib);
    RepeatedNameRefused(s, Obj(Member(Content(ps), v, Member(Content(qs), w, NoMembers))), lib);
  }
}
