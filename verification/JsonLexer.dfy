/** The lexical level of JSON (section 2 of RFC 8259): bytes to tokens. */
module JsonLexer {
  import opened Prelude

  /** A token. `Str` keeps the bytes between the quotes, escapes included;
      `Bad` stands for the first byte at which no token can be read. */
  datatype Token =
    | LBrace | RBrace | LBracket | RBracket | Colon | Comma
    | Str(raw: Bytes) | Num(text: Bytes) | Word(text: Bytes)
    | Bad

  datatype Lexeme = Lexeme(token: Token, size: nat)

  predicate IsSpace(c: byte) {
    c == ' ' || c == '\t' || c == '\r' || c == '\n'
  }

  predicate IsDigit(c: byte) {
    '0' <= c <= '9'
  }

  predicate IsHex(c: byte) {
    IsDigit(c) || 'a' <= c <= 'f' || 'A' <= c <= 'F'
  }

  /** A byte that ends a number or a word wherever it follows one. */
  predicate IsDelimiter(c: byte) {
    IsSpace(c) || c == ',' || c == ':' || c == ']' || c == '}'
  }

  /** The size of the escape at the head of `s`, or 0 when it is malformed. */
  function EscapeSize(s: Bytes): (n: nat)
    ensures n <= |s|
  {
    if |s| < 2 then 0
    else if s[1] in {'b', 'f', 'n', 'r', 't', '\\', '/', '\"'} then 2
    else if s[1] == 'u' && |s| >= 6 && IsHex(s[2]) && IsHex(s[3]) && IsHex(s[4]) && IsHex(s[5]) then 6
    else 0
  }

  /** How many bytes of string content precede the closing quote in `s`. */
  function StringSize(s: Bytes): (r: Option<nat>)
    ensures r.Some? ==> r.value < |s| && s[r.value] == '\"'
  {
    if s == [] then None
    else if s[0] == '\"' then Some(0)
    else if s[0] < ' ' then None
    else
      var k := if s[0] == '\\' then EscapeSize(s) else 1;
      if k == 0 then None
      else match StringSize(s[k..])
        case None => None
        case Some(n) => Some(k + n)
  }

  function DigitsSize(s: Bytes): (n: nat)
    ensures n <= |s|
  {
    if s == [] || !IsDigit(s[0]) then 0 else 1 + DigitsSize(s[1..])
  }

  /** Where the optional fraction that starts at `i` ends. */
  function FractionEnd(s: Bytes, i: nat): (r: Option<nat>)
    requires i <= |s|
    ensures r.Some? ==> i <= r.value <= |s|
  {
    if i < |s| && s[i] == '.' then
      var d := DigitsSize(s[i + 1..]);
      if d == 0 then None else Some(i + 1 + d)
    else Some(i)
  }

  /** Where the optional exponent that starts at `i` ends. */
  function ExponentEnd(s: Bytes, i: nat): (r: Option<nat>)
    requires i <= |s|
    ensures r.Some? ==> i <= r.value <= |s|
  {
    if i < |s| && (s[i] == 'e' || s[i] == 'E') then
      var j := if i + 1 < |s| && (s[i + 1] == '+' || s[i + 1] == '-') then i + 2 else i + 1;
      var d := DigitsSize(s[j..]);
      if d == 0 then None else Some(j + d)
    else Some(i)
  }

  /** The size of the longest number at the head of `s`; a number that breaks
      off after its sign, its point or its exponent mark is malformed. */
  function NumberSize(s: Bytes): (r: Option<nat>)
    ensures r.Some? ==> 0 < r.value <= |s|
  {
    var i := if s != [] && s[0] == '-' then 1 else 0;
    if i == |s| || !IsDigit(s[i]) then None
    else
      var j := if s[i] == '0' then i + 1 else i + DigitsSize(s[i..]);
      match FractionEnd(s, j)
      case None => None
      case Some(k) => ExponentEnd(s, k)
  }

  /** A token with the number of bytes it takes; a token that is not `Bad` takes
      some, and they are the bytes it was read from. */
  predicate Reads(s: Bytes, x: Lexeme) {
    x.token.Bad? || (0 < x.size <= |s| && Text(x.token) == s[..x.size])
  }

  function FirstString(s: Bytes): (x: Lexeme)
    requires s != [] && s[0] == '\"'
    ensures Reads(s, x)
  {
    match StringSize(s[1..])
    case None => Lexeme(Bad, 0)
    case Some(n) => Lexeme(Str(s[1..n + 1]), n + 2)
  }

  function WordSize(s: Bytes): (n: nat)
    ensures n <= |s|
  {
    if "true" <= s || "null" <= s then 4 else if "false" <= s then 5 else 0
  }

  function FirstNumber(s: Bytes): (x: Lexeme)
    ensures Reads(s, x)
  {
    match NumberSize(s)
    case None => Lexeme(Bad, 0)
    case Some(n) => Lexeme(Num(s[..n]), n)
  }

  function Punctuation(c: byte): Token {
    if c == '{' then LBrace
    else if c == '}' then RBrace
    else if c == '[' then LBracket
    else if c == ']' then RBracket
    else if c == ':' then Colon
    else if c == ',' then Comma
    else Bad
  }

  /** The token at the head of `s`, which does not start with white space. */
  function First(s: Bytes): (x: Lexeme)
    requires s != []
    ensures Reads(s, x)
  {
    if !Punctuation(s[0]).Bad? then Lexeme(Punctuation(s[0]), 1)
    else if s[0] == '\"' then FirstString(s)
    else if WordSize(s) > 0 then Lexeme(Word(s[..WordSize(s)]), WordSize(s))
    else FirstNumber(s)
  }

  /** The bytes a token was read from. */
  function Text(t: Token): Bytes {
    match t
    case LBrace => "{"
    case RBrace => "}"
    case LBracket => "["
    case RBracket => "]"
    case Colon => ":"
    case Comma => ","
    case Str(raw) => "\"" + raw + "\""
    case Num(text) => text
    case Word(text) => text
    case Bad => ""
  }

  /** All tokens of `s`, white space dropped, up to the first malformed one. */
  function Lex(s: Bytes): seq<Token> {
    if s == [] then []
    else if IsSpace(s[0]) then Lex(s[1..])
    else
      var x := First(s);
      if x.token.Bad? then [Bad] else [x.token] + Lex(s[x.size..])
  }

  // ----- what follows a text does not change how it is read -----

  lemma {:induction false} StringSizeAppend(a: Bytes, b: Bytes)
    requires StringSize(a).Some?
    ensures StringSize(a + b) == StringSize(a)
    decreases |a|
  {
    if a[0] != '\"' {
      var k := if a[0] == '\\' then EscapeSize(a) else 1;
      StringSizeAppend(a[k..], b);
      assert (a + b)[k..] == a[k..] + b;
    }
  }

  lemma {:induction false} DigitsSizeAppend(a: Bytes, b: Bytes)
    requires b != [] && IsDelimiter(b[0])
    ensures DigitsSize(a + b) == DigitsSize(a)
  {
    if a == [] {
      assert a + b == b;
      assert !IsDigit(b[0]);
    } else if IsDigit(a[0]) {
      DigitsSizeAppend(a[1..], b);
      assert (a + b)[0] == a[0] && (a + b)[1..] == a[1..] + b;
    } else {
      assert (a + b)[0] == a[0];
    }
  }

  lemma DigitsSizeAppendAt(a: Bytes, b: Bytes, i: nat)
    requires b != [] && IsDelimiter(b[0]) && i <= |a|
    ensures DigitsSize((a + b)[i..]) == DigitsSize(a[i..])
  {
    assert (a + b)[i..] == a[i..] + b;
    DigitsSizeAppend(a[i..], b);
  }

  lemma FractionEndAppend(a: Bytes, b: Bytes, i: nat)
    requires b != [] && IsDelimiter(b[0]) && i <= |a|
    ensures FractionEnd(a + b, i) == FractionEnd(a, i)
  {
    if i < |a| {
      DigitsSizeAppendAt(a, b, i + 1);
    }
  }

  lemma ExponentEndAppend(a: Bytes, b: Bytes, i: nat)
    requires b != [] && IsDelimiter(b[0]) && i <= |a| && ExponentEnd(a, i).Some?
    ensures ExponentEnd(a + b, i) == ExponentEnd(a, i)
  {
    if i < |a| && (a[i] == 'e' || a[i] == 'E') {
      DigitsSizeAppendAt(a, b, i + 1);
      if i + 1 < |a| {
        DigitsSizeAppendAt(a, b, i + 2);
      }
    }
  }

  lemma NumberSizeAppend(a: Bytes, b: Bytes)
    requires b != [] && IsDelimiter(b[0]) && NumberSize(a).Some?
    ensures NumberSize(a + b) == NumberSize(a)
  {
    var i := if a[0] == '-' then 1 else 0;
    DigitsSizeAppendAt(a, b, i);
    var j := if a[i] == '0' then i + 1 else i + DigitsSize(a[i..]);
    FractionEndAppend(a, b, j);
    ExponentEndAppend(a, b, FractionEnd(a, j).value);
  }

  lemma FirstStringAppend(a: Bytes, b: Bytes)
    requires a != [] && a[0] == '\"' && !FirstString(a).token.Bad?
    ensures FirstString(a + b) == FirstString(a)
  {
    var n := StringSize(a[1..]).value;
    assert (a + b)[1..] == a[1..] + b;
    StringSizeAppend(a[1..], b);
    assert (a + b)[1..n + 1] == a[1..n + 1];
  }

  lemma WordSizeAppend(a: Bytes, b: Bytes)
    requires WordSize(a) > 0
    ensures WordSize(a + b) == WordSize(a) && (a + b)[..WordSize(a)] == a[..WordSize(a)]
  {
    if "true" <= a || "null" <= a {
      assert (a + b)[..4] == a[..4];
    } else {
      assert (a + b)[..5] == a[..5];
    }
  }

  lemma NumberIsNoWord(s: Bytes)
    requires NumberSize(s).Some?
    ensures WordSize(s) == 0
  {
    assert s[0] == '-' || IsDigit(s[0]);
  }

  lemma FirstAppend(a: Bytes, b: Bytes)
    requires a != [] && b != [] && IsDelimiter(b[0]) && !First(a).token.Bad?
    ensures First(a + b) == First(a)
  {
    if !Punctuation(a[0]).Bad? {
    } else if a[0] == '\"' {
      FirstStringAppend(a, b);
    } else if WordSize(a) > 0 {
      WordSizeAppend(a, b);
    } else {
      FirstNumberAppend(a, b);
    }
  }

  lemma FirstNumberAppend(a: Bytes, b: Bytes)
    requires b != [] && IsDelimiter(b[0]) && NumberSize(a).Some?
    ensures FirstNumber(a + b) == FirstNumber(a) && WordSize(a + b) == 0
  {
    NumberSizeAppend(a, b);
    NumberIsNoWord(a + b);
    assert (a + b)[..NumberSize(a).value] == a[..NumberSize(a).value];
  }

  lemma LexHead(a: Bytes)
    requires a != [] && !IsSpace(a[0]) && Bad !in Lex(a)
    ensures !First(a).token.Bad?
    ensures Lex(a) == [First(a).token] + Lex(a[First(a).size..])
    ensures Bad !in Lex(a[First(a).size..])
  {
    assert Lex(a)[0] in Lex(a);
  }

  /** A text that lexes cleanly lexes the same in front of a delimiter. */
  lemma {:induction false} LexAppend(a: Bytes, b: Bytes)
    requires Bad !in Lex(a) && b != [] && IsDelimiter(b[0])
    ensures Lex(a + b) == Lex(a) + Lex(b)
    decreases |a|
  {
    if a == [] {
      assert a + b == b;
    } else if IsSpace(a[0]) {
      assert (a + b)[1..] == a[1..] + b;
      LexAppend(a[1..], b);
    } else {
      LexHead(a);
      var t := a[First(a).size..];
      LexAppend(t, b);
      LexAppendFirst(a, b, t);
    }
  }

  lemma LexAppendFirst(a: Bytes, b: Bytes, t: Bytes)
    requires a != [] && !IsSpace(a[0]) && b != [] && IsDelimiter(b[0])
    requires !First(a).token.Bad? && t == a[First(a).size..] && Lex(t + b) == Lex(t) + Lex(b)
    ensures Lex(a + b) == Lex(a) + Lex(b)
  {
    FirstAppend(a, b);
    FirstTaken(a + b);
    FirstTaken(a);
    DropAppend(a, b, First(a).size);
    Shifted(First(a).token, Lex(t), Lex(b), Lex(t + b), Lex(a), Lex(a + b));
  }

  lemma FirstTaken(s: Bytes)
    requires s != [] && !IsSpace(s[0]) && !First(s).token.Bad?
    ensures Lex(s) == [First(s).token] + Lex(s[First(s).size..])
  {
  }

  lemma DropAppend(a: Bytes, b: Bytes, n: nat)
    requires n <= |a|
    ensures (a + b)[n..] == a[n..] + b
  {
  }

  lemma Shifted(x: Token, a: seq<Token>, b: seq<Token>, ab: seq<Token>, xa: seq<Token>, xab: seq<Token>)
    requires ab == a + b && xa == [x] + a && xab == [x] + ab
    ensures xab == xa + b
  {
  }

  // ----- no token holds a control byte -----

  predicate Printable(s: Bytes) {
    forall i :: 0 <= i < |s| ==> ' ' <= s[i]
  }

  lemma PrintableSplit(s: Bytes, i: nat, d: nat)
    requires i + d <= |s| && Printable(s[..i]) && Printable(s[i..][..d])
    ensures Printable(s[..i + d])
  {
    assert s[..i + d] == s[..i] + s[i..][..d];
  }

  lemma EscapePrintable(s: Bytes)
    requires s != [] && s[0] == '\\'
    ensures Printable(s[..EscapeSize(s)])
  {
  }

  lemma {:induction false} StringPrintable(s: Bytes)
    requires StringSize(s).Some?
    ensures Printable(s[..StringSize(s).value])
    decreases |s|
  {
    if s[0] != '\"' {
      var k := if s[0] == '\\' then EscapeSize(s) else 1;
      StringPrintable(s[k..]);
      if s[0] == '\\' {
        EscapePrintable(s);
      }
      PrintableSplit(s, k, StringSize(s[k..]).value);
    }
  }

  lemma {:induction false} DigitsPrintable(s: Bytes)
    ensures Printable(s[..DigitsSize(s)])
  {
    if s != [] && IsDigit(s[0]) {
      DigitsPrintable(s[1..]);
      assert s[..DigitsSize(s)] == [s[0]] + s[1..][..DigitsSize(s[1..])];
    }
  }

  lemma FractionPrintable(s: Bytes, i: nat)
    requires i <= |s| && Printable(s[..i]) && FractionEnd(s, i).Some?
    ensures Printable(s[..FractionEnd(s, i).value])
  {
    if i < |s| && s[i] == '.' {
      DigitsPrintable(s[i + 1..]);
      PrintableSplit(s, i + 1, DigitsSize(s[i + 1..]));
    }
  }

  lemma ExponentPrintable(s: Bytes, i: nat)
    requires i <= |s| && Printable(s[..i]) && ExponentEnd(s, i).Some?
    ensures Printable(s[..ExponentEnd(s, i).value])
  {
    if i < |s| && (s[i] == 'e' || s[i] == 'E') {
      var j := if i + 1 < |s| && (s[i + 1] == '+' || s[i + 1] == '-') then i + 2 else i + 1;
      DigitsPrintable(s[j..]);
      PrintableSplit(s, j, DigitsSize(s[j..]));
    }
  }

  lemma NumberPrintable(s: Bytes)
    requires NumberSize(s).Some?
    ensures Printable(s[..NumberSize(s).value])
  {
    var i := if s[0] == '-' then 1 else 0;
    DigitsPrintable(s[i..]);
    PrintableSplit(s, i, DigitsSize(s[i..]));
    var j := if s[i] == '0' then i + 1 else i + DigitsSize(s[i..]);
    FractionPrintable(s, j);
    ExponentPrintable(s, FractionEnd(s, j).value);
  }

  lemma FirstStringPrintable(s: Bytes)
    requires s != [] && s[0] == '\"'
    ensures Printable(Text(FirstString(s).token))
  {
    if StringSize(s[1..]).Some? {
      StringPrintable(s[1..]);
      assert s[1..][..StringSize(s[1..]).value] == s[1..StringSize(s[1..]).value + 1];
    }
  }

  lemma WordPrintable(s: Bytes)
    ensures Printable(s[..WordSize(s)])
  {
    if "true" <= s || "null" <= s {
      assert s[..4] == "true" || s[..4] == "null";
    } else if "false" <= s {
      assert s[..5] == "false";
    } else {
      assert s[..0] == [];
    }
  }

  lemma FirstPrintable(s: Bytes)
    requires s != []
    ensures Printable(Text(First(s).token))
  {
    if !Punctuation(s[0]).Bad? {
    } else if s[0] == '\"' {
      FirstStringPrintable(s);
    } else if WordSize(s) > 0 {
      WordPrintable(s);
    } else if NumberSize(s).Some? {
      NumberPrintable(s);
    }
  }

  lemma {:induction false} LexPrintable(s: Bytes)
    ensures forall t :: t in Lex(s) ==> Printable(Text(t))
  {
    if s != [] {
      if IsSpace(s[0]) {
        LexPrintable(s[1..]);
      } else {
        FirstPrintable(s);
        if !First(s).token.Bad? {
          LexPrintable(s[First(s).size..]);
        }
      }
    }
  }
}
