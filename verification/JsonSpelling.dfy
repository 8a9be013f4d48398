/** The tokens of JSON byte by byte, as sections 2, 3, 6 and 7 of RFC 8259 spell
    them, and that the lexer reads exactly those. */
module JsonSpelling {
  import opened Prelude
  import opened JsonLexer

  // ----- spelling -----

  predicate Digit(c: byte) {
    c in {'0', '1', '2', '3', '4', '5', '6', '7', '8', '9'}
  }

  predicate HexDigit(c: byte) {
    Digit(c) || c in {'a', 'b', 'c', 'd', 'e', 'f', 'A', 'B', 'C', 'D', 'E', 'F'}
  }

  predicate Space(c: byte) {
    c in {' ', '\t', '\n', '\r'}
  }

  predicate AllDigits(s: Bytes) {
    s != [] && forall i :: 0 <= i < |s| ==> Digit(s[i])
  }

  predicate AllSpace(s: Bytes) {
    forall i :: 0 <= i < |s| ==> Space(s[i])
  }

  /** The exponent of a number: its mark, an optional sign, and digits. */
  datatype Exponent = Exponent(mark: byte, sign: Bytes, digits: Bytes)

  datatype Numeral = Numeral(negative: bool, whole: Bytes, fraction: Option<Bytes>, exponent: Option<Exponent>)

  predicate IsExponent(e: Exponent) {
    e.mark in {'e', 'E'} && (e.sign == "" || e.sign == "+" || e.sign == "-") && AllDigits(e.digits)
  }

  predicate IsNumeral(n: Numeral) {
    && AllDigits(n.whole) && (n.whole[0] == '0' ==> |n.whole| == 1)
    && (n.fraction.Some? ==> AllDigits(n.fraction.value))
    && (n.exponent.Some? ==> IsExponent(n.exponent.value))
  }

  function SignText(negative: bool): Bytes {
    if negative then "-" else ""
  }

  function FractionText(fraction: Option<Bytes>): Bytes {
    if fraction.None? then "" else "." + fraction.value
  }

  function ExponentText(exponent: Option<Exponent>): Bytes {
    if exponent.None? then "" else [exponent.value.mark] + exponent.value.sign + exponent.value.digits
  }

  function NumeralText(n: Numeral): Bytes {
    SignText(n.negative) + (n.whole + (FractionText(n.fraction) + ExponentText(n.exponent)))
  }

  /** A character of a string: itself, or one of the escapes. */
  datatype Piece = Plain(c: byte) | Short(c: byte) | Unicode(hex: Bytes)

  predicate IsPiece(p: Piece) {
    match p
    case Plain(c) => c as int >= 0x20 && c != '\"' && c != '\\'
    case Short(c) => c in {'\"', '\\', '/', 'b', 'f', 'n', 'r', 't'}
    case Unicode(hex) => |hex| == 4 && forall i :: 0 <= i < 4 ==> HexDigit(hex[i])
  }

  function PieceText(p: Piece): Bytes {
    match p
    case Plain(c) => [c]
    case Short(c) => ['\\', c]
    case Unicode(hex) => ['\\', 'u'] + hex
  }

  predicate AllPieces(ps: seq<Piece>) {
    forall i :: 0 <= i < |ps| ==> IsPiece(ps[i])
  }

  function Content(ps: seq<Piece>): Bytes {
    if ps == [] then [] else PieceText(ps[0]) + Content(ps[1..])
  }

  ghost predicate IsContent(raw: Bytes) {
    exists ps :: AllPieces(ps) && raw == Content(ps)
  }

  ghost predicate IsNumber(text: Bytes) {
    exists n :: IsNumeral(n) && text == NumeralText(n)
  }

  predicate IsLiteral(word: Bytes) {
    word == "true" || word == "false" || word == "null"
  }

  // ----- numbers -----

  lemma DigitIff(c: byte)
    ensures IsDigit(c) <==> Digit(c)
  {
  }

  predicate NoDigitAhead(s: Bytes) {
    s == [] || !Digit(s[0])
  }

  lemma {:induction false} DigitsRead(d: Bytes, rest: Bytes)
    requires (forall i :: 0 <= i < |d| ==> Digit(d[i])) && NoDigitAhead(rest)
    ensures DigitsSize(d + rest) == |d|
  {
    if d == [] {
      assert d + rest == rest;
      if rest != [] {
        DigitIff(rest[0]);
      }
    } else {
      DigitIff(d[0]);
      assert (d + rest)[1..] == d[1..] + rest;
      DigitsRead(d[1..], rest);
    }
  }

  lemma {:induction false} DigitsTaken(s: Bytes)
    ensures forall i :: 0 <= i < DigitsSize(s) ==> Digit(s[i])
    ensures NoDigitAhead(s[DigitsSize(s)..])
  {
    if s != [] {
      DigitIff(s[0]);
      if IsDigit(s[0]) {
        DigitsTaken(s[1..]);
        assert s[DigitsSize(s)..] == s[1..][DigitsSize(s[1..])..];
        assert forall i :: 0 < i < DigitsSize(s) ==> s[i] == s[1..][i - 1];
      }
    }
  }

  /** What may follow a number: nothing of it. */
  predicate EndsNumber(rest: Bytes) {
    rest == [] || Space(rest[0]) || rest[0] in {',', ':', ']', '}'}
  }

  lemma Behind(s: Bytes, i: nat, a: Bytes, b: Bytes)
    requires i <= |s| && s[i..] == a + b
    ensures i + |a| <= |s| && s[i + |a|..] == b && s[i..i + |a|] == a
    ensures a != [] ==> s[i] == a[0]
  {
    assert s[i + |a|..] == s[i..][|a|..];
    assert s[i..i + |a|] == s[i..][..|a|];
  }

  lemma FractionRead(s: Bytes, j: nat, fraction: Option<Bytes>, rest: Bytes)
    requires j <= |s| && s[j..] == FractionText(fraction) + rest
    requires fraction.Some? ==> AllDigits(fraction.value)
    requires NoDigitAhead(rest) && (rest != [] ==> rest[0] != '.')
    ensures FractionEnd(s, j) == Some(j + |FractionText(fraction)|)
  {
    if fraction.Some? {
      assert s[j] == s[j..][0] == '.';
      assert s[j + 1..] == s[j..][1..] == fraction.value + rest;
      DigitsRead(fraction.value, rest);
    } else {
      assert s[j..] == rest;
      assert j < |s| ==> s[j] == rest[0];
    }
  }

  lemma SignRead(s: Bytes, k: nat, e: Exponent, rest: Bytes)
    requires IsExponent(e) && k < |s| && s[k + 1..] == e.sign + (e.digits + rest)
    ensures var j := if k + 1 < |s| && (s[k + 1] == '+' || s[k + 1] == '-') then k + 2 else k + 1;
            j <= |s| && s[j..] == e.digits + rest && j == k + 1 + |e.sign|
  {
    Behind(s, k + 1, e.sign, e.digits + rest);
    if e.sign == "" {
      assert s[k + 1] == s[k + 1..][0] == e.digits[0];
      assert Digit(e.digits[0]);
    }
  }

  lemma MarkRead(s: Bytes, k: nat, e: Exponent, rest: Bytes)
    requires IsExponent(e) && EndsNumber(rest)
    requires k < |s| && s[k] == e.mark && s[k + 1..] == e.sign + (e.digits + rest)
    ensures ExponentEnd(s, k) == Some(k + 1 + |e.sign| + |e.digits|)
  {
    SignRead(s, k, e, rest);
    DigitsRead(e.digits, rest);
  }

  lemma Regrouped(a: Bytes, b: Bytes, c: Bytes, d: Bytes)
    ensures a + b + c + d == a + (b + (c + d))
    ensures |a + b + c| == |a| + |b| + |c|
  {
  }

  lemma ExponentRead(s: Bytes, k: nat, exponent: Option<Exponent>, rest: Bytes)
    requires k <= |s| && s[k..] == ExponentText(exponent) + rest
    requires (exponent.Some? ==> IsExponent(exponent.value)) && EndsNumber(rest)
    ensures ExponentEnd(s, k) == Some(k + |ExponentText(exponent)|)
  {
    if exponent.Some? {
      var e := exponent.value;
      Regrouped([e.mark], e.sign, e.digits, rest);
      Behind(s, k, [e.mark], e.sign + (e.digits + rest));
      MarkRead(s, k, e, rest);
    } else {
      assert s[k..] == rest;
      assert k < |s| ==> s[k] == rest[0];
    }
  }

  /** What comes behind the whole part goes on neither with a digit nor, behind
      the fraction, with a point. */
  lemma NumeralTail(n: Numeral, rest: Bytes)
    requires IsNumeral(n) && EndsNumber(rest)
    ensures var tail := ExponentText(n.exponent) + rest;
            && NoDigitAhead(tail) && (tail != [] ==> tail[0] != '.')
            && NoDigitAhead(FractionText(n.fraction) + tail)
  {
    var tail := ExponentText(n.exponent) + rest;
    if n.exponent.Some? {
      assert tail[0] == n.exponent.value.mark;
    } else {
      assert tail == rest;
    }
    if n.fraction.Some? {
      assert (FractionText(n.fraction) + tail)[0] == '.';
    } else {
      assert FractionText(n.fraction) + tail == tail;
    }
  }

  /** Where four parts stand in front of `rest`. */
  lemma FourInFront(a: Bytes, b: Bytes, c: Bytes, d: Bytes, rest: Bytes)
    ensures var s := a + (b + (c + d)) + rest;
            && |a| + |b| + |c| <= |s|
            && s[|a|..] == b + (c + (d + rest))
            && s[|a| + |b|..] == c + (d + rest)
            && s[|a| + |b| + |c|..] == d + rest
  {
    InFront(a, b + (c + d), rest);
    InFront(b, c + d, rest);
    InFront(c, d, rest);
    var s := a + (b + (c + d)) + rest;
    assert s[0..] == s;
    Behind(s, 0, a, b + (c + (d + rest)));
    Behind(s, |a|, b, c + (d + rest));
    Behind(s, |a| + |b|, c, d + rest);
  }

  lemma InFront(a: Bytes, b: Bytes, rest: Bytes)
    ensures a + b + rest == a + (b + rest)
  {
  }

  lemma NumeralStarts(s: Bytes, n: Numeral, behind: Bytes)
    requires IsNumeral(n) && |SignText(n.negative)| <= |s| && SignText(n.negative) <= s
    requires s[|SignText(n.negative)|..] == n.whole + behind
    ensures var i := if s != [] && s[0] == '-' then 1 else 0;
            i == |SignText(n.negative)| && i < |s| && s[i] == n.whole[0]
  {
    var i := |SignText(n.negative)|;
    Behind(s, i, n.whole, behind);
    assert Digit(n.whole[0]);
  }

  lemma WholeReads(s: Bytes, n: Numeral, i: nat, behind: Bytes)
    requires IsNumeral(n) && i < |s| && s[i..] == n.whole + behind && s[i] == n.whole[0] && NoDigitAhead(behind)
    ensures IsDigit(s[i]) && (if s[i] == '0' then i + 1 else i + DigitsSize(s[i..])) == i + |n.whole|
  {
    DigitIff(s[i]);
    DigitsRead(n.whole, behind);
  }

  lemma NumberSizeSteps(s: Bytes, j: nat, k: nat, m: nat)
    requires WholeEnds(s, j) && j <= k <= |s| && FractionEnd(s, j) == Some(k) && ExponentEnd(s, k) == Some(m)
    ensures NumberSize(s) == Some(m)
  {
  }

  predicate WholeEnds(s: Bytes, j: nat) {
    var i := if s != [] && s[0] == '-' then 1 else 0;
    i < |s| && IsDigit(s[i]) && j == if s[i] == '0' then i + 1 else i + DigitsSize(s[i..])
  }

  lemma WholeRead(s: Bytes, n: Numeral, sign: Bytes, behind: Bytes)
    requires IsNumeral(n) && sign == SignText(n.negative) && sign <= s && s[|sign|..] == n.whole + behind
    requires NoDigitAhead(behind)
    ensures WholeEnds(s, |sign| + |n.whole|)
  {
    NumeralStarts(s, n, behind);
    WholeReads(s, n, |sign|, behind);
  }

  /** The parts of a number, one behind the other, in front of `rest`. */
  predicate PartsAt(s: Bytes, n: Numeral, rest: Bytes, j: nat, k: nat) {
    var sign, fraction, tail := SignText(n.negative), FractionText(n.fraction), ExponentText(n.exponent) + rest;
    && j == |sign| + |n.whole| && k == j + |fraction| && k <= |s|
    && sign <= s && s[|sign|..] == n.whole + (fraction + tail)
    && s[j..] == fraction + tail && s[k..] == tail
  }

  lemma PartsFound(n: Numeral, rest: Bytes) returns (j: nat, k: nat)
    ensures PartsAt(NumeralText(n) + rest, n, rest, j, k)
    ensures k + |ExponentText(n.exponent)| == |NumeralText(n)|
  {
    j := |SignText(n.negative)| + |n.whole|;
    k := j + |FractionText(n.fraction)|;
    FourInFront(SignText(n.negative), n.whole, FractionText(n.fraction), ExponentText(n.exponent), rest);
  }

  lemma WholeAt(s: Bytes, n: Numeral, rest: Bytes, j: nat, k: nat)
    requires IsNumeral(n) && EndsNumber(rest) && PartsAt(s, n, rest, j, k)
    ensures WholeEnds(s, j)
  {
    NumeralTail(n, rest);
    WholeRead(s, n, SignText(n.negative), FractionText(n.fraction) + (ExponentText(n.exponent) + rest));
  }

  lemma FractionAt(s: Bytes, n: Numeral, rest: Bytes, j: nat, k: nat)
    requires IsNumeral(n) && EndsNumber(rest) && PartsAt(s, n, rest, j, k)
    ensures FractionEnd(s, j) == Some(k)
  {
    NumeralTail(n, rest);
    FractionRead(s, j, n.fraction, ExponentText(n.exponent) + rest);
  }

  lemma NumberReads(n: Numeral, rest: Bytes)
    requires IsNumeral(n) && EndsNumber(rest)
    ensures NumberSize(NumeralText(n) + rest) == Some(|NumeralText(n)|)
  {
    var s := NumeralText(n) + rest;
    var j, k := PartsFound(n, rest);
    WholeAt(s, n, rest, j, k);
    FractionAt(s, n, rest, j, k);
    ExponentRead(s, k, n.exponent, rest);
    NumberSizeSteps(s, j, k, |NumeralText(n)|);
  }

  lemma FractionTaken(s: Bytes, j: nat) returns (fraction: Option<Bytes>)
    requires j <= |s| && FractionEnd(s, j).Some?
    ensures fraction.Some? ==> AllDigits(fraction.value)
    ensures s[j..FractionEnd(s, j).value] == FractionText(fraction)
  {
    fraction := None;
    if j < |s| && s[j] == '.' {
      var d := DigitsSize(s[j + 1..]);
      DigitsTaken(s[j + 1..]);
      fraction := Some(s[j + 1..][..d]);
      assert s[j..j + 1 + d] == [s[j]] + s[j + 1..][..d];
    }
  }

  lemma Spliced(s: Bytes, k: nat, j: nat, d: nat, sign: Bytes)
    requires k < j && j + d <= |s| && sign == s[k + 1..j]
    ensures s[k..j + d] == [s[k]] + sign + s[j..][..d]
  {
  }

  lemma SignTaken(s: Bytes, k: nat) returns (j: nat, sign: Bytes)
    requires k < |s|
    ensures j == if k + 1 < |s| && (s[k + 1] == '+' || s[k + 1] == '-') then k + 2 else k + 1
    ensures j <= |s| && sign == s[k + 1..j] && (sign == "" || sign == "+" || sign == "-")
  {
    j, sign := k + 1, [];
    if k + 1 < |s| && (s[k + 1] == '+' || s[k + 1] == '-') {
      j, sign := k + 2, [s[k + 1]];
    }
  }

  lemma ExponentTaken(s: Bytes, k: nat) returns (exponent: Option<Exponent>)
    requires k <= |s| && ExponentEnd(s, k).Some?
    ensures exponent.Some? ==> IsExponent(exponent.value)
    ensures s[k..ExponentEnd(s, k).value] == ExponentText(exponent)
  {
    exponent := None;
    if k < |s| && (s[k] == 'e' || s[k] == 'E') {
      var j, sign := SignTaken(s, k);
      var d := DigitsSize(s[j..]);
      DigitsTaken(s[j..]);
      exponent := Some(Exponent(s[k], sign, s[j..][..d]));
      Spliced(s, k, j, d, sign);
    }
  }

  lemma WholeTaken(s: Bytes, i: nat) returns (j: nat)
    requires i < |s| && IsDigit(s[i])
    ensures j == if s[i] == '0' then i + 1 else i + DigitsSize(s[i..])
    ensures i < j <= |s| && AllDigits(s[i..j]) && (s[i] == '0' ==> j == i + 1)
  {
    j := if s[i] == '0' then i + 1 else i + DigitsSize(s[i..]);
    DigitIff(s[i]);
    DigitsTaken(s[i..]);
    assert forall l :: 0 <= l < j - i ==> s[i..j][l] == s[i..][l];
  }

  lemma FourParts(s: Bytes, i: nat, j: nat, k: nat, m: nat)
    requires i <= j <= k <= m <= |s|
    ensures s[..m] == s[..i] + (s[i..j] + (s[j..k] + s[k..m]))
  {
  }

  lemma NumeralOf(s: Bytes, i: nat, j: nat, k: nat, m: nat, fraction: Option<Bytes>, exponent: Option<Exponent>)
    requires i < j <= k <= m <= |s| && i == if s[0] == '-' then 1 else 0
    requires AllDigits(s[i..j]) && (s[i] == '0' ==> j == i + 1)
    requires (fraction.Some? ==> AllDigits(fraction.value)) && s[j..k] == FractionText(fraction)
    requires (exponent.Some? ==> IsExponent(exponent.value)) && s[k..m] == ExponentText(exponent)
    ensures IsNumber(s[..m])
  {
    var n := Numeral(s[0] == '-', s[i..j], fraction, exponent);
    FourParts(s, i, j, k, m);
    assert s[..i] == SignText(n.negative);
    assert s[i..j][0] == s[i];
    assert IsNumeral(n) && s[..m] == NumeralText(n);
  }

  lemma NumberTaken(s: Bytes)
    requires NumberSize(s).Some?
    ensures IsNumber(s[..NumberSize(s).value])
  {
    var i := if s[0] == '-' then 1 else 0;
    var j := WholeTaken(s, i);
    var k := FractionEnd(s, j).value;
    var fraction := FractionTaken(s, j);
    var exponent := ExponentTaken(s, k);
    NumeralOf(s, i, j, k, ExponentEnd(s, k).value, fraction, exponent);
  }

  // ----- strings -----

  lemma HexIff(c: byte)
    ensures IsHex(c) <==> HexDigit(c)
  {
    DigitIff(c);
  }

  lemma PieceReads(p: Piece, rest: Bytes)
    requires IsPiece(p)
    ensures var s := PieceText(p) + rest;
            var k := if s[0] == '\\' then EscapeSize(s) else 1;
            s[0] != '\"' && !(s[0] < ' ') && k == |PieceText(p)| && s[k..] == rest
  {
    if p.Unicode? {
      HexIff(p.hex[0]);
      HexIff(p.hex[1]);
      HexIff(p.hex[2]);
      HexIff(p.hex[3]);
    }
  }

  lemma StringReadsOn(p: Piece, tail: Bytes)
    requires IsPiece(p) && StringSize(tail).Some?
    ensures StringSize(PieceText(p) + tail) == Some(|PieceText(p)| + StringSize(tail).value)
  {
    PieceReads(p, tail);
    StringSizeOn(PieceText(p) + tail, |PieceText(p)|);
  }

  lemma StringSizeOn(s: Bytes, k: nat)
    requires s != [] && s[0] != '\"' && !(s[0] < ' ') && k == if s[0] == '\\' then EscapeSize(s) else 1
    requires 0 < k <= |s| && StringSize(s[k..]).Some?
    ensures StringSize(s) == Some(k + StringSize(s[k..]).value)
  {
  }

  lemma {:induction false} StringReads(ps: seq<Piece>, rest: Bytes)
    requires AllPieces(ps) && rest != [] && rest[0] == '\"'
    ensures StringSize(Content(ps) + rest) == Some(|Content(ps)|)
  {
    if ps == [] {
      assert Content(ps) + rest == rest;
    } else {
      var text, content := PieceText(ps[0]), Content(ps[1..]);
      StringReads(ps[1..], rest);
      assert (text + content) + rest == text + (content + rest);
      StringReadsOn(ps[0], content + rest);
    }
  }

  lemma PieceTaken(s: Bytes) returns (p: Piece)
    requires s != [] && s[0] != '\"' && !(s[0] < ' ') && (s[0] == '\\' ==> EscapeSize(s) > 0)
    ensures IsPiece(p) && PieceText(p) == s[..if s[0] == '\\' then EscapeSize(s) else 1]
  {
    if s[0] != '\\' {
      p := Plain(s[0]);
    } else if s[1] == 'u' {
      HexIff(s[2]);
      HexIff(s[3]);
      HexIff(s[4]);
      HexIff(s[5]);
      p := Unicode(s[2..6]);
    } else {
      p := Short(s[1]);
    }
  }

  lemma StringSizeSteps(s: Bytes, k: nat)
    requires StringSize(s).Some? && s[0] != '\"' && k == if s[0] == '\\' then EscapeSize(s) else 1
    ensures 0 < k <= |s| && !(s[0] < ' ') && StringSize(s[k..]).Some?
    ensures StringSize(s).value == k + StringSize(s[k..]).value
  {
  }

  lemma PrefixSplits(s: Bytes, k: nat, n: nat)
    requires k + n <= |s|
    ensures s[..k + n] == s[..k] + s[k..][..n]
  {
  }

  lemma ContentOfMore(p: Piece, ps: seq<Piece>)
    requires IsPiece(p) && AllPieces(ps)
    ensures AllPieces([p] + ps) && Content([p] + ps) == PieceText(p) + Content(ps)
  {
    assert ([p] + ps)[1..] == ps;
  }

  lemma {:induction false} StringTaken(s: Bytes) returns (ps: seq<Piece>)
    requires StringSize(s).Some?
    ensures AllPieces(ps) && Content(ps) == s[..StringSize(s).value]
    decreases |s|
  {
    ps := [];
    if s[0] != '\"' {
      var k := if s[0] == '\\' then EscapeSize(s) else 1;
      StringSizeSteps(s, k);
      var p := PieceTaken(s);
      var rest := StringTaken(s[k..]);
      PrefixSplits(s, k, StringSize(s[k..]).value);
      ContentOfMore(p, rest);
      ps := [p] + rest;
    }
  }

  // ----- tokens -----

  ghost predicate Spelled(t: Token) {
    match t
    case Str(raw) => IsContent(raw)
    case Num(text) => IsNumber(text)
    case Word(text) => IsLiteral(text)
    case Bad => false
    case _ => true
  }

  function Written(t: Token): Bytes {
    match t
    case LBrace => "{"
    case RBrace => "}"
    case LBracket => "["
    case RBracket => "]"
    case Colon => ":"
    case Comma => ","
    case Str(raw) => "\"" + (raw + "\"")
    case Num(text) => text
    case Word(text) => text
    case Bad => ""
  }

  predicate Closes(t: Token) {
    t.RBracket? || t.RBrace? || t.Colon? || t.Comma?
  }

  lemma QuotedFirst(s: Bytes, raw: Bytes, rest: Bytes)
    requires s != [] && s[0] == '\"' && s[1..] == raw + rest && StringSize(raw + rest) == Some(|raw|)
    ensures First(s) == Lexeme(Str(raw), |raw| + 2)
  {
    assert s[1..|raw| + 1] == s[1..][..|raw|] == raw;
    assert FirstString(s) == Lexeme(Str(raw), |raw| + 2);
  }

  lemma QuotedParts(raw: Bytes, rest: Bytes)
    ensures var s := Written(Str(raw)) + rest; s != [] && s[0] == '\"' && s[1..] == raw + ("\"" + rest)
  {
  }

  lemma StringFirst(raw: Bytes, rest: Bytes)
    requires IsContent(raw)
    ensures First(Written(Str(raw)) + rest) == Lexeme(Str(raw), |raw| + 2)
  {
    var ps :| AllPieces(ps) && raw == Content(ps);
    StringReads(ps, "\"" + rest);
    QuotedParts(raw, rest);
    QuotedFirst(Written(Str(raw)) + rest, raw, "\"" + rest);
  }

  lemma NumeralHead(n: Numeral, rest: Bytes)
    requires IsNumeral(n)
    ensures var s := NumeralText(n) + rest; s[0] == '-' || Digit(s[0])
  {
    if !n.negative {
      assert NumeralText(n)[0] == n.whole[0];
    }
  }

  lemma NumberFirst(text: Bytes, rest: Bytes)
    requires IsNumber(text) && EndsNumber(rest)
    ensures First(text + rest) == Lexeme(Num(text), |text|)
  {
    var n :| IsNumeral(n) && text == NumeralText(n);
    NumberReads(n, rest);
    NumeralHead(n, rest);
    SizedFirst(text, rest);
  }

  lemma SizedFirst(text: Bytes, rest: Bytes)
    requires NumberSize(text + rest) == Some(|text|)
    ensures First(text + rest) == Lexeme(Num(text), |text|)
  {
    var s := text + rest;
    assert s[..|text|] == text;
    NumberIsNoWord(s);
    FirstIsNumber(s);
  }

  lemma FirstIsNumber(s: Bytes)
    requires NumberSize(s).Some? && WordSize(s) == 0
    ensures First(s) == FirstNumber(s)
  {
    assert s[0] == '-' || IsDigit(s[0]);
  }

  lemma LiteralFirst(word: Bytes, rest: Bytes)
    requires IsLiteral(word)
    ensures First(word + rest) == Lexeme(Word(word), |word|)
  {
    var s := word + rest;
    assert s[..|word|] == word;
    assert s[0] == word[0];
  }

  lemma MarkFirst(t: Token, rest: Bytes)
    requires t.LBrace? || t.LBracket? || Closes(t)
    ensures First(Written(t) + rest) == Lexeme(t, 1)
  {
  }

  lemma TokenReads(t: Token, rest: Bytes)
    requires Spelled(t) && (t.Num? ==> EndsNumber(rest))
    ensures Lex(Written(t) + rest) == [t] + Lex(rest)
  {
    var s := Written(t) + rest;
    match t {
      case Str(raw) => StringFirst(raw, rest);
      case Num(text) => NumberFirst(text, rest);
      case Word(text) => LiteralFirst(text, rest);
      case _ => MarkFirst(t, rest);
    }
    assert First(s) == Lexeme(t, |Written(t)|);
    assert s[|Written(t)|..] == rest;
    FirstTaken(s);
  }

  lemma SpelledToken(s: Bytes)
    requires s != [] && !First(s).token.Bad?
    ensures Spelled(First(s).token)
  {
    if !Punctuation(s[0]).Bad? {
    } else if s[0] == '\"' {
      var ps := StringTaken(s[1..]);
      assert First(s).token.raw == s[1..][..StringSize(s[1..]).value];
    } else if WordSize(s) > 0 {
      LiteralTaken(s);
    } else {
      NumberTaken(s);
    }
  }

  lemma TextIsWritten(t: Token)
    ensures Text(t) == Written(t)
  {
  }

  lemma TokenTaken(s: Bytes)
    requires s != [] && !First(s).token.Bad?
    ensures Spelled(First(s).token)
    ensures First(s).size <= |s| && s == Written(First(s).token) + s[First(s).size..]
  {
    SpelledToken(s);
    TextIsWritten(First(s).token);
  }

  lemma LiteralTaken(s: Bytes)
    requires WordSize(s) > 0
    ensures IsLiteral(s[..WordSize(s)])
  {
  }

  // ----- layout -----

  /** White space in front of each token and behind the last. */
  function Laid(ts: seq<Token>, gaps: seq<Bytes>): Bytes
    requires |gaps| == |ts| + 1
  {
    if ts == [] then gaps[0] else gaps[0] + (Written(ts[0]) + Laid(ts[1..], gaps[1..]))
  }

  predicate AllGaps(gaps: seq<Bytes>) {
    forall i :: 0 <= i < |gaps| ==> AllSpace(gaps[i])
  }

  ghost predicate AllSpelled(ts: seq<Token>) {
    forall i :: 0 <= i < |ts| ==> Spelled(ts[i])
  }

  /** Numbers stand in front of a token that cannot go on with them. */
  predicate Apart(ts: seq<Token>) {
    forall i :: 0 <= i < |ts| - 1 && ts[i].Num? ==> Closes(ts[i + 1])
  }

  lemma SpaceIff(c: byte)
    ensures IsSpace(c) <==> Space(c)
  {
  }

  lemma {:induction false} SpaceSkipped(gap: Bytes, rest: Bytes)
    requires AllSpace(gap)
    ensures Lex(gap + rest) == Lex(rest)
  {
    if gap == [] {
      assert gap + rest == rest;
    } else {
      SpaceIff(gap[0]);
      assert (gap + rest)[1..] == gap[1..] + rest;
      SpaceSkipped(gap[1..], rest);
    }
  }

  lemma LaidEndsNumber(ts: seq<Token>, gaps: seq<Bytes>)
    requires |gaps| == |ts| + 1 && AllGaps(gaps) && (ts != [] ==> Closes(ts[0]))
    ensures EndsNumber(Laid(ts, gaps))
  {
    var s := Laid(ts, gaps);
    assert AllSpace(gaps[0]);
    if gaps[0] != [] {
      assert s[0] == gaps[0][0];
    } else if ts != [] {
      assert s[0] == Written(ts[0])[0];
    }
  }

  /** Well-spelled tokens lex back to themselves, whatever white space is put
      between them. */
  lemma {:induction false} LaidLexes(ts: seq<Token>, gaps: seq<Bytes>)
    requires |gaps| == |ts| + 1 && AllGaps(gaps) && AllSpelled(ts) && Apart(ts)
    ensures Lex(Laid(ts, gaps)) == ts
  {
    assert AllSpace(gaps[0]);
    if ts == [] {
      SpaceSkipped(gaps[0], []);
      assert gaps[0] + [] == gaps[0];
    } else {
      var rest := Laid(ts[1..], gaps[1..]);
      assert Apart(ts[1..]) by {
        assert forall i :: 0 <= i < |ts| - 1 ==> ts[1..][i] == ts[i + 1];
      }
      LaidLexes(ts[1..], gaps[1..]);
      if ts[0].Num? {
        LaidEndsNumber(ts[1..], gaps[1..]);
      }
      SpaceSkipped(gaps[0], Written(ts[0]) + rest);
      TokenReads(ts[0], rest);
    }
  }

  lemma LaidMore(space: Bytes, ts: seq<Token>, gaps: seq<Bytes>)
    requires |gaps| == |ts| + 1
    ensures Laid(ts, [space + gaps[0]] + gaps[1..]) == space + Laid(ts, gaps)
  {
    var more := [space + gaps[0]] + gaps[1..];
    assert more[1..] == gaps[1..];
  }

  /** Whatever lexes cleanly is its well-spelled tokens with white space between. */
  lemma {:induction false} LexLays(s: Bytes) returns (gaps: seq<Bytes>)
    requires Bad !in Lex(s)
    ensures AllSpelled(Lex(s))
    ensures |gaps| == |Lex(s)| + 1 && AllGaps(gaps) && s == Laid(Lex(s), gaps)
    decreases |s|
  {
    if s == [] {
      gaps := [[]];
    } else if IsSpace(s[0]) {
      SpaceIff(s[0]);
      var behind := LexLays(s[1..]);
      LaidMore([s[0]], Lex(s), behind);
      gaps := [[s[0]] + behind[0]] + behind[1..];
      assert s == [s[0]] + s[1..];
    } else {
      LexHead(s);
      TokenTaken(s);
      var behind := LexLays(s[First(s).size..]);
      gaps := [[]] + behind;
      assert gaps[1..] == behind && Lex(s)[1..] == Lex(s[First(s).size..]);
    }
  }
}
