/** The token cursor of the standard library's JSON decoder. */
module JsonDecoder {
  import opened Prelude
  import opened JsonLexer
  import opened JsonNames

  /** Where in the enclosing array or object the decoder stands. */
  datatype State =
    | TopValue
    | ArrayStart | ArrayValue | ArrayComma
    | ObjectStart | ObjectKey | ObjectColon | ObjectValue | ObjectComma

  datatype Cursor = Cursor(toks: seq<Token>, state: State, stack: seq<State>)

  predicate ValueAllowed(state: State) {
    state in {TopValue, ArrayStart, ArrayValue, ObjectValue}
  }

  /** The state after a value that was read in `state`. */
  function Ended(state: State): State {
    match state
    case ArrayStart => ArrayComma
    case ArrayValue => ArrayComma
    case ObjectValue => ObjectComma
    case _ => state
  }

  /** Only the top level has nothing around it, and what is suspended on the
      stack is always waiting for a value. */
  predicate WellStacked(c: Cursor) {
    && (c.state == TopValue <==> c.stack == [])
    && (forall i :: 0 <= i < |c.stack| ==> ValueAllowed(c.stack[i]) && (c.stack[i] == TopValue <==> i == 0))
  }

  datatype Step = Refused | Read(token: Token, cursor: Cursor)

  function Open(c: Cursor, inner: State): Step
    requires c.toks != []
  {
    if ValueAllowed(c.state) then Read(c.toks[0], Cursor(c.toks[1..], inner, c.stack + [c.state])) else Refused
  }

  function Close(c: Cursor, states: set<State>): Step
    requires c.toks != [] && WellStacked(c)
  {
    if c.state in states && c.stack != [] then
      var n := |c.stack| - 1;
      Read(c.toks[0], Cursor(c.toks[1..], Ended(c.stack[n]), c.stack[..n]))
    else Refused
  }

  /** The next token that is not a colon or a comma, as `Token` reports it. */
  function NextToken(c: Cursor, lib: Library): Step
    requires WellStacked(c)
    decreases |c.toks|
  {
    if c.toks == [] then Refused
    else match c.toks[0]
      case LBracket => Open(c, ArrayStart)
      case LBrace => Open(c, ObjectStart)
      case RBracket => Close(c, {ArrayStart, ArrayComma})
      case RBrace => Close(c, {ObjectStart, ObjectComma})
      case Colon =>
        if c.state == ObjectColon then NextToken(Cursor(c.toks[1..], ObjectValue, c.stack), lib) else Refused
      case Comma =>
        if c.state == ArrayComma then NextToken(Cursor(c.toks[1..], ArrayValue, c.stack), lib)
        else if c.state == ObjectComma then NextToken(Cursor(c.toks[1..], ObjectKey, c.stack), lib)
        else Refused
      case Str(_) =>
        if c.state == ObjectStart || c.state == ObjectKey then
          Read(c.toks[0], Cursor(c.toks[1..], ObjectColon, c.stack))
        else ReadScalar(c, true)
      case Num(text) => ReadScalar(c, lib.inRange(text))
      case Word(_) => ReadScalar(c, true)
      case Bad => Refused
  }

  function ReadScalar(c: Cursor, held: bool): Step
    requires c.toks != []
  {
    if ValueAllowed(c.state) && held then Read(c.toks[0], Cursor(c.toks[1..], Ended(c.state), c.stack)) else Refused
  }

  class Decoder {
    const lib: Library
    var toks: seq<Token>
    var state: State
    var stack: seq<State>

    constructor (data: Bytes, lib: Library)
      ensures this.lib == lib
      ensures Position() == Cursor(Lex(data), TopValue, [])
    {
      this.lib := lib;
      toks, state, stack := Lex(data), TopValue, [];
    }

    function Position(): Cursor
      reads this
    {
      Cursor(toks, state, stack)
    }

    method Token() returns (step: Step)
      requires WellStacked(Position())
      modifies this
      ensures step == NextToken(old(Position()), lib)
      ensures step.Read? ==> Position() == step.cursor && WellStacked(Position()) && |toks| < old(|toks|)
    {
      while toks != []
        invariant WellStacked(Position()) && |toks| <= old(|toks|)
        invariant NextToken(Position(), lib) == NextToken(old(Position()), lib)
        decreases |toks|
      {
        if toks[0] == Colon {
          if state != ObjectColon {
            return Refused;
          }
          toks, state := toks[1..], ObjectValue;
        } else if toks[0] == Comma {
          if state == ArrayComma {
            toks, state := toks[1..], ArrayValue;
          } else if state == ObjectComma {
            toks, state := toks[1..], ObjectKey;
          } else {
            return Refused;
          }
        } else {
          step := NextToken(Position(), lib);
          if step.Read? {
            toks, state, stack := step.cursor.toks, step.cursor.state, step.cursor.stack;
          }
          return;
        }
      }
      return Refused;
    }

    /** Whether another element or member may follow: anything but a closer. */
    method More() returns (more: bool)
      ensures more <==> toks != [] && toks[0] != RBracket && toks[0] != RBrace
    {
      more := toks != [] && toks[0] != RBracket && toks[0] != RBrace;
    }
  }
}
