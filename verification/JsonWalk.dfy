/** The duplicate-member walk over the JSON decoder, and what both of the loops
    that drive the decoder meet. */
module JsonWalk {
  import opened Prelude
  import opened JsonLexer
  import opened JsonGrammar
  import opened JsonNames
  import opened JsonDecoder

  // ----- where a value may start -----

  predicate BeforeValue(state: State) {
    state in {TopValue, ArrayStart, ArrayComma, ObjectColon}
  }

  /** The tokens behind the comma or colon that has to come before a value. */
  function Ahead(c: Cursor): Option<seq<Token>> {
    match c.state
    case ArrayComma => AfterSeparator(c.toks, true)
    case ObjectColon => if c.toks != [] && c.toks[0] == Colon then Some(c.toks[1..]) else None
    case _ => Some(c.toks)
  }

  /** The state the decoder is in once that separator is behind it. */
  function Waiting(state: State): State {
    match state
    case ArrayComma => ArrayValue
    case ObjectColon => ObjectValue
    case _ => state
  }

  lemma TokenBeforeValue(c: Cursor, lib: Library)
    requires WellStacked(c) && BeforeValue(c.state)
    ensures Ahead(c).None? || Ahead(c).value == [] ==>
              var step := NextToken(c, lib);
              step.Refused? || step.token == RBracket
    ensures Ahead(c).Some? && Ahead(c).value != [] ==>
              var ts := Ahead(c).value;
              var step := NextToken(c, lib);
              var state := Waiting(c.state);
              match ts[0]
              case LBracket => step == Read(LBracket, Cursor(ts[1..], ArrayStart, c.stack + [state]))
              case LBrace => step == Read(LBrace, Cursor(ts[1..], ObjectStart, c.stack + [state]))
              case Str(_) => step == Read(ts[0], Cursor(ts[1..], Ended(state), c.stack))
              case Word(_) => step == Read(ts[0], Cursor(ts[1..], Ended(state), c.stack))
              case Num(text) =>
                if lib.inRange(text) then step == Read(ts[0], Cursor(ts[1..], Ended(state), c.stack)) else step.Refused?
              case _ => step.Refused? || step.token == RBracket
  {
    if Ahead(c).Some? && c.state in {ArrayComma, ObjectColon} {
      var behind := Cursor(c.toks[1..], Waiting(c.state), c.stack);
      assert NextToken(c, lib) == NextToken(behind, lib);
    }
  }

  lemma TokenBeforeName(c: Cursor, lib: Library)
    requires WellStacked(c) && c.state in {ObjectStart, ObjectComma}
    requires c.toks != [] && c.toks[0] != RBrace
    ensures var body := AfterSeparator(c.toks, c.state == ObjectComma);
            NextToken(c, lib) ==
            if body.Some? && body.value != [] && body.value[0].Str?
            then Read(body.value[0], Cursor(body.value[1..], ObjectColon, c.stack))
            else Refused
  {
    if c.state == ObjectComma && c.toks[0] == Comma {
      var behind := Cursor(c.toks[1..], ObjectKey, c.stack);
      assert NextToken(c, lib) == NextToken(behind, lib);
    }
  }

  /** What ends an array or an object: only its own closer, which puts back the
      state around it. */
  lemma TokenAtEnd(c: Cursor, lib: Library)
    requires WellStacked(c) && c.state in {ArrayStart, ArrayComma, ObjectStart, ObjectComma}
    requires c.toks == [] || c.toks[0] == RBracket || c.toks[0] == RBrace
    ensures var closer := if c.state in {ArrayStart, ArrayComma} then RBracket else RBrace;
            var n := |c.stack| - 1;
            NextToken(c, lib) ==
            if c.toks != [] && c.toks[0] == closer
            then Read(closer, Cursor(c.toks[1..], Ended(c.stack[n]), c.stack[..n]))
            else Refused
  {
  }

  // ----- the duplicate-member walk -----

  function WalkFrom(c: Cursor, lib: Library): Option<seq<Token>> {
    match Ahead(c)
    case None => None
    case Some(ts) => Walk(ts, lib)
  }

  /** Walks one value. The walk works on its own `seen` set per object, and on
      success leaves the decoder right behind the value, at the same depth. */
  method WalkValue(d: Decoder) returns (ok: bool)
    requires WellStacked(d.Position()) && BeforeValue(d.state)
    modifies d
    ensures ok ==> WellStacked(d.Position())
    ensures ok <==> WalkFrom(old(d.Position()), d.lib).Some?
    ensures ok ==> d.Position() == Cursor(WalkFrom(old(d.Position()), d.lib).value,
                                          Ended(Waiting(old(d.state))), old(d.stack))
    decreases |d.toks|, 0
  {
    TokenBeforeValue(d.Position(), d.lib);
    var step := d.Token();
    if step.Refused? {
      return false;
    }
    match step.token
    case Str(_) => return true;
    case Num(_) => return true;
    case Word(_) => return true;
    case LBracket =>
      ok := WalkElements(d);
    case LBrace =>
      ok := WalkObject(d);
    case _ => return false;
  }

  method WalkElements(d: Decoder) returns (ok: bool)
    requires WellStacked(d.Position()) && d.state == ArrayStart
    modifies d
    ensures ok ==> WellStacked(d.Position())
    ensures ok <==> WalkItems(old(d.toks), false, d.lib).Some?
    ensures ok ==> var n := |old(d.stack)| - 1;
                   d.Position() == Cursor(WalkItems(old(d.toks), false, d.lib).value,
                                          Ended(old(d.stack)[n]), old(d.stack)[..n])
    decreases |d.toks|, 1
  {
    var more := d.More();
    while more
      invariant WellStacked(d.Position()) && d.state in {ArrayStart, ArrayComma} && d.stack == old(d.stack)
      invariant |d.toks| <= old(|d.toks|)
      invariant more <==> d.toks != [] && d.toks[0] != RBracket && d.toks[0] != RBrace
      invariant WalkItems(old(d.toks), false, d.lib) == WalkItems(d.toks, d.state == ArrayComma, d.lib)
      decreases |d.toks|, more
    {
      ok := WalkValue(d);
      if !ok {
        return;
      }
      more := d.More();
    }
    TokenAtEnd(d.Position(), d.lib);
    var step := d.Token();
    ok := step.Read?;
  }

  /** The body of a member, once a separator and its name are behind it. */
  function MemberBody(c: Cursor): Option<seq<Token>> {
    match AfterSeparator(c.toks, c.state == ObjectComma)
    case None => None
    case Some(body) => if body != [] && body[0].Str? then Some(body) else None
  }

  /** Reads a member's name. The decoder yields nothing but strings here, so the
      source's check of the token's type cannot fail. */
  method ReadName(d: Decoder) returns (name: Option<Bytes>)
    requires WellStacked(d.Position()) && d.state in {ObjectStart, ObjectComma}
    requires d.toks != [] && d.toks[0] != RBrace
    modifies d
    ensures var body := MemberBody(old(d.Position()));
            match name
            case None => body.None?
            case Some(n) => body.Some? && n == Decoded(body.value[0].raw, d.lib)
                            && d.Position() == Cursor(body.value[1..], ObjectColon, old(d.stack))
    ensures name.Some? ==> WellStacked(d.Position()) && |d.toks| < old(|d.toks|)
  {
    TokenBeforeName(d.Position(), d.lib);
    var step := d.Token();
    if step.Refused? {
      return None;
    }
    assert step.token.Str?;
    name := Some(Decoded(step.token.raw, d.lib));
  }

  /** One turn of the member loop from where the decoder stands: the tokens behind
      the member and its name, unless it is malformed or the name was seen before. */
  function Turn(c: Cursor, seen: set<Bytes>, lib: Library): Option<(seq<Token>, Bytes)> {
    match MemberBody(c)
    case None => None
    case Some(body) =>
      var name := Decoded(body[0].raw, lib);
      if name in seen then None
      else match WalkFrom(Cursor(body[1..], ObjectColon, c.stack), lib)
        case None => None
        case Some(more) => Some((more, name))
  }

  /** `WalkMembers` goes on behind the member, with its name seen. */
  lemma WalkMembersTurn(c: Cursor, seen: set<Bytes>, lib: Library)
    requires c.toks != [] && c.toks[0] != RBrace
    ensures WalkMembers(c.toks, c.state == ObjectComma, seen, lib) ==
            match Turn(c, seen, lib)
            case None => None
            case Some((more, name)) => WalkMembers(more, true, seen + {name}, lib)
  {
    var body := MemberBody(c);
    if body.Some? {
      BehindName(body.value, c, lib);
    }
  }

  /** Behind a name stands a colon and then the value. */
  lemma BehindName(body: seq<Token>, c: Cursor, lib: Library)
    requires body != []
    ensures WalkFrom(Cursor(body[1..], ObjectColon, c.stack), lib) ==
            if |body| < 2 || body[1] != Colon then None else Walk(body[2..], lib)
  {
    if |body| >= 2 {
      assert body[1..][0] == body[1] && body[1..][1..] == body[2..];
    }
  }

  /** The value of a member whose name has been read. */
  method WalkMemberValue(d: Decoder) returns (ok: bool)
    requires WellStacked(d.Position()) && d.state == ObjectColon
    modifies d
    ensures var rest := WalkFrom(old(d.Position()), d.lib);
            && (ok <==> rest.Some?)
            && (ok ==> d.Position() == Cursor(rest.value, ObjectComma, old(d.stack)) && WellStacked(d.Position()))
    ensures ok ==> |d.toks| < old(|d.toks|)
    decreases |d.toks|, 1
  {
    ok := WalkValue(d);
  }

  /** One turn of the member loop: the names seen so far, with this member's. */
  method WalkMember(d: Decoder, seen: set<Bytes>) returns (grown: Option<set<Bytes>>)
    requires WellStacked(d.Position()) && d.state in {ObjectStart, ObjectComma}
    requires d.toks != [] && d.toks[0] != RBrace
    modifies d
    ensures match Turn(old(d.Position()), seen, d.lib)
            case None => grown.None?
            case Some((more, name)) =>
              name !in seen && grown == Some(seen + {name}) && d.Position() == Cursor(more, ObjectComma, old(d.stack))
    ensures grown.Some? ==> WellStacked(d.Position()) && |d.toks| < old(|d.toks|)
    decreases |d.toks|, 2
  {
    var name := ReadName(d);
    if name.None? || name.value in seen {
      return None;
    }
    var ok := WalkMemberValue(d);
    return if ok then Some(seen + {name.value}) else None;
  }

  method WalkObject(d: Decoder) returns (ok: bool)
    requires WellStacked(d.Position()) && d.state == ObjectStart
    modifies d
    ensures ok ==> WellStacked(d.Position())
    ensures ok <==> WalkMembers(old(d.toks), false, {}, d.lib).Some?
    ensures ok ==> var n := |old(d.stack)| - 1;
                   d.Position() == Cursor(WalkMembers(old(d.toks), false, {}, d.lib).value,
                                          Ended(old(d.stack)[n]), old(d.stack)[..n])
    decreases |d.toks|, 3
  {
    var seen: set<Bytes> := {};
    var more := d.More();
    while more
      invariant WellStacked(d.Position()) && d.state in {ObjectStart, ObjectComma} && d.stack == old(d.stack)
      invariant |d.toks| <= old(|d.toks|)
      invariant more <==> d.toks != [] && d.toks[0] != RBracket && d.toks[0] != RBrace
      invariant WalkMembers(old(d.toks), false, {}, d.lib) == WalkMembers(d.toks, d.state == ObjectComma, seen, d.lib)
      decreases |d.toks|, more
    {
      WalkMembersTurn(d.Position(), seen, d.lib);
      var grown := WalkMember(d, seen);
      if grown.None? {
        return false;
      }
      seen := grown.value;
      more := d.More();
    }
    TokenAtEnd(d.Position(), d.lib);
    var step := d.Token();
    ok := step.Read?;
  }

  /** `rejectDuplicateJSONMembers`: walk one value, then require the end. */
  method RejectDuplicateMembers(data: Bytes, lib: Library) returns (ok: bool)
    ensures ok <==> WalkAccepts(data, lib)
  {
    var d := new Decoder(data, lib);
    ok := WalkValue(d);
    ok := ok && d.toks == [];
  }
}
