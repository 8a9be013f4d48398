/** Strict unpadded base64url (sections 3.5 and 5 of RFC 4648), with the standard
    library's habit of skipping line breaks. */
module Base64Url {
  import opened Prelude

  type Sextet = v: int | 0 <= v < 64

  // ----- the alphabet -----

  function CharOf(v: Sextet): (c: byte)
    ensures ValueOf(c) == Some(v)
  {
    if v < 26 then (v + 'A' as int) as char
    else if v < 52 then (v - 26 + 'a' as int) as char
    else if v < 62 then (v - 52 + '0' as int) as char
    else if v == 62 then '-'
    else '_'
  }

  function ValueOf(c: byte): Option<Sextet> {
    if 'A' <= c <= 'Z' then Some(c as int - 'A' as int)
    else if 'a' <= c <= 'z' then Some(c as int - 'a' as int + 26)
    else if '0' <= c <= '9' then Some(c as int - '0' as int + 52)
    else if c == '-' then Some(62)
    else if c == '_' then Some(63)
    else None
  }

  lemma CharOfValue(c: byte)
    requires ValueOf(c).Some?
    ensures CharOf(ValueOf(c).value) == c
  {
  }

  // ----- encoding -----

  /** The four characters of three bytes; a missing byte counts as zero, and its
      character is dropped. */
  function EncodeBlock(a: byte, b: byte, c: byte): (s: Bytes)
    ensures |s| == 4
  {
    var x, y, z := a as int, b as int, c as int;
    [CharOf(x / 4), CharOf(x % 4 * 16 + y / 16), CharOf(y % 16 * 4 + z / 64), CharOf(z % 64)]
  }

  const ZERO: byte := '\0'

  function Encode(data: Bytes): Bytes {
    if data == [] then []
    else if |data| == 1 then EncodeBlock(data[0], ZERO, ZERO)[..2]
    else if |data| == 2 then EncodeBlock(data[0], data[1], ZERO)[..3]
    else EncodeBlock(data[0], data[1], data[2]) + Encode(data[3..])
  }

  /** The digit of `n` to the base 64 that `unit` stands for. */
  function Digit(n: nat, unit: nat): (v: Sextet)
    requires unit > 0
  {
    n / unit % 64
  }

  lemma FourDigits(p: Sextet, q: Sextet, r: Sextet, v: Sextet)
    ensures var n := p * 262144 + q * 4096 + r * 64 + v;
            Digit(n, 262144) == p && Digit(n, 4096) == q && Digit(n, 64) == r && Digit(n, 1) == v
  {
    var n := p * 262144 + q * 4096 + r * 64 + v;
    assert n / 262144 == p;
    assert n / 4096 == p * 64 + q;
    assert n / 64 == (p * 64 + q) * 64 + r;
  }

  /** Bits move from the bytes to the characters without loss. */
  lemma BitsOfBytes(x: nat, y: nat, z: nat)
    requires x < 256 && y < 256 && z < 256
    ensures x / 4 * 262144 + (x % 4 * 16 + y / 16) * 4096 + (y % 16 * 4 + z / 64) * 64 + z % 64 ==
            x * 65536 + y * 256 + z
  {
    assert x == x / 4 * 4 + x % 4 && y == y / 16 * 16 + y % 16 && z == z / 64 * 64 + z % 64;
  }

  /** Three bytes are a number of 24 bits, and the four characters are its digits to
      the base 64, the most significant one first. */
  lemma BlockIsNumber(a: byte, b: byte, c: byte)
    ensures var n := a as int * 65536 + b as int * 256 + c as int;
            EncodeBlock(a, b, c) ==
            [CharOf(Digit(n, 262144)), CharOf(Digit(n, 4096)), CharOf(Digit(n, 64)), CharOf(Digit(n, 1))]
  {
    var x, y, z := a as int, b as int, c as int;
    BitsOfBytes(x, y, z);
    FourDigits(x / 4, x % 4 * 16 + y / 16, y % 16 * 4 + z / 64, z % 64);
  }

  const UPPER: string := "ABCDEFGHIJKLMNOPQRSTUVWXYZ"
  const LOWER: string := "abcdefghijklmnopqrstuvwxyz"
  const OTHERS: string := "0123456789-_"

  /** The alphabet of section 5 of RFC 4648. */
  lemma AlphabetIs(v: Sextet)
    ensures |UPPER| == |LOWER| == 26 && |OTHERS| == 12
    ensures CharOf(v) == if v < 26 then UPPER[v] else if v < 52 then LOWER[v - 26] else OTHERS[v - 52]
  {
  }

  // ----- decoding -----

  function ByteOf(n: int): byte
    requires 0 <= n < 256
  {
    n as char
  }

  /** The three bytes of four values. */
  function DecodeBlock(p: Sextet, q: Sextet, r: Sextet, t: Sextet): (s: Bytes)
    ensures |s| == 3
  {
    [ByteOf(p * 4 + q / 16), ByteOf(q % 16 * 16 + r / 4), ByteOf(r % 4 * 64 + t)]
  }

  function Values(s: Bytes): Option<seq<Sextet>> {
    if s == [] then Some([])
    else
      var v, vs := ValueOf(s[0]), Values(s[1..]);
      if v.None? || vs.None? then None else Some([v.value] + vs.value)
  }

  /** A last group of two or three characters must leave no stray bits, and one
      character alone is no group. */
  function DecodeValues(vs: seq<Sextet>): Option<Bytes> {
    if vs == [] then Some([])
    else if |vs| == 1 then None
    else if |vs| == 2 then
      var block := DecodeBlock(vs[0], vs[1], 0, 0);
      if block[1] != ZERO then None else Some(block[..1])
    else if |vs| == 3 then
      var block := DecodeBlock(vs[0], vs[1], vs[2], 0);
      if block[2] != ZERO then None else Some(block[..2])
    else match DecodeValues(vs[4..])
      case None => None
      case Some(rest) => Some(DecodeBlock(vs[0], vs[1], vs[2], vs[3]) + rest)
  }

  function Decode(s: Bytes): Option<Bytes> {
    match Values(s)
    case None => None
    case Some(vs) => DecodeValues(vs)
  }

  predicate IsBreak(c: byte) {
    c == '\r' || c == '\n'
  }

  function Strip(s: Bytes): Bytes {
    if s == [] then [] else (if IsBreak(s[0]) then [] else [s[0]]) + Strip(s[1..])
  }

  /** `decodeSegment`: padding is refused by name, line breaks are skipped. */
  function DecodeSegment(s: Bytes): Option<Bytes> {
    if '=' in s then None else Decode(Strip(s))
  }

  // ----- decoding and encoding undo each other -----

  function EncodeValues(data: Bytes): seq<Sextet> {
    if data == [] then []
    else
      var x := data[0] as int;
      if |data| == 1 then [x / 4, x % 4 * 16]
      else
        var y := data[1] as int;
        if |data| == 2 then [x / 4, x % 4 * 16 + y / 16, y % 16 * 4]
        else
          var z := data[2] as int;
          [x / 4, x % 4 * 16 + y / 16, y % 16 * 4 + z / 64, z % 64] + EncodeValues(data[3..])
  }

  lemma {:induction false} EncodedValues(data: Bytes)
    ensures Values(Encode(data)) == Some(EncodeValues(data))
  {
    if |data| >= 3 {
      EncodedValues(data[3..]);
      var block := EncodeBlock(data[0], data[1], data[2]);
      FourValues(block);
      ValuesAppend(block, Encode(data[3..]));
    } else if |data| == 2 {
      var block := EncodeBlock(data[0], data[1], ZERO);
      ThreeValues(block[..3]);
    } else if |data| == 1 {
      var block := EncodeBlock(data[0], ZERO, ZERO);
      TwoValues(block[..2]);
    }
  }

  lemma {:induction false} ValuesAppend(a: Bytes, b: Bytes)
    requires Values(a).Some? && Values(b).Some?
    ensures Values(a + b) == Some(Values(a).value + Values(b).value)
  {
    if a == [] {
      assert a + b == b;
      assert Values(a).value + Values(b).value == Values(b).value;
    } else {
      ValuesAppend(a[1..], b);
      assert (a + b)[1..] == a[1..] + b;
      Regrouped([ValueOf(a[0]).value], Values(a[1..]).value, Values(b).value);
    }
  }

  lemma Regrouped(a: seq<Sextet>, b: seq<Sextet>, c: seq<Sextet>)
    ensures a + (b + c) == (a + b) + c
  {
  }

  lemma ValuesCons(c: byte, s: Bytes)
    requires ValueOf(c).Some? && Values(s).Some?
    ensures Values([c] + s) == Some([ValueOf(c).value] + Values(s).value)
  {
    assert ([c] + s)[1..] == s;
  }

  lemma TwoValues(s: Bytes)
    requires |s| == 2 && ValueOf(s[0]).Some? && ValueOf(s[1]).Some?
    ensures Values(s) == Some([ValueOf(s[0]).value, ValueOf(s[1]).value])
  {
    ValuesCons(s[1], []);
    ValuesCons(s[0], [s[1]] + []);
    assert s == [s[0]] + ([s[1]] + []);
    var v, w := ValueOf(s[0]).value, ValueOf(s[1]).value;
    assert [v] + ([w] + []) == [v, w];
  }

  lemma ThreeValues(s: Bytes)
    requires |s| == 3 && forall i :: 0 <= i < 3 ==> ValueOf(s[i]).Some?
    ensures Values(s) == Some([ValueOf(s[0]).value, ValueOf(s[1]).value, ValueOf(s[2]).value])
  {
    TwoValues(s[1..]);
    ValuesCons(s[0], s[1..]);
    assert s == [s[0]] + s[1..];
    var u, v, w := ValueOf(s[0]).value, ValueOf(s[1]).value, ValueOf(s[2]).value;
    assert [u] + [v, w] == [u, v, w];
  }

  lemma FourValues(s: Bytes)
    requires |s| == 4 && forall i :: 0 <= i < 4 ==> ValueOf(s[i]).Some?
    ensures Values(s) == Some([ValueOf(s[0]).value, ValueOf(s[1]).value, ValueOf(s[2]).value, ValueOf(s[3]).value])
  {
    ThreeValues(s[1..]);
    ValuesCons(s[0], s[1..]);
    assert s == [s[0]] + s[1..];
    var t, u, v, w := ValueOf(s[0]).value, ValueOf(s[1]).value, ValueOf(s[2]).value, ValueOf(s[3]).value;
    assert [t] + [u, v, w] == [t, u, v, w];
  }

  lemma {:induction false} ValuesInjective(s: Bytes, t: Bytes)
    requires Values(s).Some? && Values(s) == Values(t)
    ensures s == t
  {
    if s != [] && t != [] {
      var a, b := Values(s).value, Values(t).value;
      assert a[0] == ValueOf(s[0]).value && b[0] == ValueOf(t[0]).value;
      CharOfValue(s[0]);
      CharOfValue(t[0]);
      assert a[1..] == Values(s[1..]).value && b[1..] == Values(t[1..]).value;
      ValuesInjective(s[1..], t[1..]);
      assert s == [s[0]] + s[1..] && t == [t[0]] + t[1..];
    }
  }

  lemma BlockThere(a: byte, b: byte, c: byte)
    ensures var x, y, z := a as int, b as int, c as int;
            DecodeBlock(x / 4, x % 4 * 16 + y / 16, y % 16 * 4 + z / 64, z % 64) == [a, b, c]
  {
    BlockNumbers(a as int, b as int, c as int);
  }

  /** Three bytes cut into four groups of six bits, and put together again. */
  lemma BlockNumbers(x: int, y: int, z: int)
    requires 0 <= x < 256 && 0 <= y < 256 && 0 <= z < 256
    ensures 0 <= x % 4 * 16 + y / 16 < 64 && 0 <= y % 16 * 4 + z / 64 < 64
    ensures x / 4 * 4 + (x % 4 * 16 + y / 16) / 16 == x
    ensures (x % 4 * 16 + y / 16) % 16 * 16 + (y % 16 * 4 + z / 64) / 4 == y
    ensures (y % 16 * 4 + z / 64) % 4 * 64 + z % 64 == z
  {
    assert (x % 4 * 16 + y / 16) / 16 == x % 4 && (x % 4 * 16 + y / 16) % 16 == y / 16;
    assert (y % 16 * 4 + z / 64) / 4 == y % 16 && (y % 16 * 4 + z / 64) % 4 == z / 64;
  }

  lemma BlockBack(p: Sextet, q: Sextet, r: Sextet, t: Sextet)
    ensures var block := DecodeBlock(p, q, r, t);
            var x, y, z := block[0] as int, block[1] as int, block[2] as int;
            p == x / 4 && q == x % 4 * 16 + y / 16 && r == y % 16 * 4 + z / 64 && t == z % 64
  {
  }

  lemma OneThere(a: byte)
    ensures DecodeBlock(a as int / 4, a as int % 4 * 16, 0, 0) == [a, ZERO, ZERO]
  {
    BlockThere(a, ZERO, ZERO);
  }

  lemma TwoThere(a: byte, b: byte)
    ensures var x, y := a as int, b as int;
            DecodeBlock(x / 4, x % 4 * 16 + y / 16, y % 16 * 4, 0) == [a, b, ZERO]
  {
    BlockThere(a, b, ZERO);
  }

  lemma PairDecodes(p: Sextet, q: Sextet, a: byte)
    requires DecodeBlock(p, q, 0, 0) == [a, ZERO, ZERO]
    ensures DecodeValues([p, q]) == Some([a])
  {
    assert [a, ZERO, ZERO][..1] == [a];
  }

  lemma TripleDecodes(p: Sextet, q: Sextet, r: Sextet, a: byte, b: byte)
    requires DecodeBlock(p, q, r, 0) == [a, b, ZERO]
    ensures DecodeValues([p, q, r]) == Some([a, b])
  {
    assert [a, b, ZERO][..2] == [a, b];
  }

  lemma OneValueThere(a: byte)
    ensures DecodeValues(EncodeValues([a])) == Some([a])
  {
    var p: Sextet, q: Sextet := a as int / 4, a as int % 4 * 16;
    OneThere(a);
    assert EncodeValues([a]) == [p, q];
    PairDecodes(p, q, a);
  }

  lemma TwoValuesThere(a: byte, b: byte)
    ensures DecodeValues(EncodeValues([a, b])) == Some([a, b])
  {
    var x, y := a as int, b as int;
    var p: Sextet, q: Sextet, r: Sextet := x / 4, x % 4 * 16 + y / 16, y % 16 * 4;
    TwoThere(a, b);
    assert EncodeValues([a, b]) == [p, q, r];
    TripleDecodes(p, q, r, a, b);
  }

  lemma ShortValuesThere(data: Bytes)
    requires |data| < 3
    ensures DecodeValues(EncodeValues(data)) == Some(data)
  {
    if |data| == 1 {
      OneValueThere(data[0]);
      assert data == [data[0]];
    } else if |data| == 2 {
      TwoValuesThere(data[0], data[1]);
      assert data == [data[0], data[1]];
    }
  }

  lemma {:induction false} ValuesThere(data: Bytes)
    ensures DecodeValues(EncodeValues(data)) == Some(data)
  {
    if |data| < 3 {
      ShortValuesThere(data);
    } else {
      var x, y, z := data[0] as int, data[1] as int, data[2] as int;
      var block := [x / 4, x % 4 * 16 + y / 16, y % 16 * 4 + z / 64, z % 64];
      var rest := EncodeValues(data[3..]);
      assert EncodeValues(data) == block + rest;
      assert (block + rest)[4..] == rest;
      BlockThere(data[0], data[1], data[2]);
      ValuesThere(data[3..]);
      assert data == [data[0], data[1], data[2]] + data[3..];
    }
  }

  lemma {:induction false} ValuesBack(vs: seq<Sextet>)
    requires DecodeValues(vs).Some?
    ensures EncodeValues(DecodeValues(vs).value) == vs
  {
    var data := DecodeValues(vs).value;
    if |vs| == 2 {
      BlockBack(vs[0], vs[1], 0, 0);
    } else if |vs| == 3 {
      BlockBack(vs[0], vs[1], vs[2], 0);
    } else if |vs| >= 4 {
      BlockBack(vs[0], vs[1], vs[2], vs[3]);
      ValuesBack(vs[4..]);
      assert data[3..] == DecodeValues(vs[4..]).value;
      assert vs == [vs[0], vs[1], vs[2], vs[3]] + vs[4..];
    }
  }

  /** A string decodes to `data` exactly when it is the encoding of `data`. */
  lemma DecodeIff(s: Bytes, data: Bytes)
    ensures Decode(s) == Some(data) <==> s == Encode(data)
  {
    EncodedValues(data);
    ValuesThere(data);
    if Decode(s) == Some(data) {
      ValuesBack(Values(s).value);
      ValuesInjective(s, Encode(data));
    }
  }

  lemma {:induction false} EncodedIsPlain(data: Bytes)
    ensures forall i :: 0 <= i < |Encode(data)| ==> ValueOf(Encode(data)[i]).Some?
  {
    if |data| >= 3 {
      EncodedIsPlain(data[3..]);
    }
  }

  lemma {:induction false} StripKeeps(s: Bytes)
    ensures forall c :: c in Strip(s) <==> c in s && !IsBreak(c)
  {
    if s != [] {
      StripKeeps(s[1..]);
      assert forall c :: c in s <==> c == s[0] || c in s[1..];
    }
  }

  lemma {:induction false} StripNothing(s: Bytes)
    requires forall c :: c in s ==> !IsBreak(c)
    ensures Strip(s) == s
  {
    if s != [] {
      assert s[0] in s;
      StripNothing(s[1..]);
    }
  }

  /** A segment decodes exactly when, but for line breaks, it is an encoding; the
      separate test for padding refuses nothing more. */
  lemma DecodeSegmentIff(s: Bytes, data: Bytes)
    ensures DecodeSegment(s) == Some(data) <==> Strip(s) == Encode(data)
  {
    DecodeIff(Strip(s), data);
    if Strip(s) == Encode(data) {
      EncodedIsPlain(data);
      StripKeeps(s);
      assert '=' !in Strip(s);
    }
  }

  lemma UnbrokenDecodes(s: Bytes, data: Bytes)
    requires forall c :: c in s ==> c != '\r' && c != '\n'
    ensures DecodeSegment(s) == Some(data) <==> s == Encode(data)
  {
    DecodeSegmentIff(s, data);
    StripNothing(s);
  }

  /** Without line breaks, a segment is the only spelling of what it decodes to;
      with them, every segment has others. */
  lemma BreaksBreakInjectivity(data: Bytes)
    ensures forall s :: (forall c :: c in s ==> c != '\r' && c != '\n') ==>
              (DecodeSegment(s) == Some(data) <==> s == Encode(data))
    ensures DecodeSegment(Encode(data) + "\n") == DecodeSegment(Encode(data) + "\r") == Some(data)
  {
    forall s | forall c :: c in s ==> c != '\r' && c != '\n'
      ensures DecodeSegment(s) == Some(data) <==> s == Encode(data)
    {
      UnbrokenDecodes(s, data);
    }
    EncodedIsPlain(data);
    StripTail(Encode(data), '\n');
    StripTail(Encode(data), '\r');
    DecodeSegmentIff(Encode(data) + "\n", data);
    DecodeSegmentIff(Encode(data) + "\r", data);
  }

  lemma {:induction false} StripTail(s: Bytes, c: byte)
    requires (forall i :: 0 <= i < |s| ==> ValueOf(s[i]).Some?) && IsBreak(c)
    ensures Strip(s + [c]) == s
  {
    if s == [] {
      assert s + [c] == [c] && [c][1..] == [];
      assert Strip([c]) == [];
    } else {
      assert (s + [c])[1..] == s[1..] + [c];
      StripTail(s[1..], c);
    }
  }
}
