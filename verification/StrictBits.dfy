/** Why base64url has to be decoded strictly: without the test for stray bits in
    the last group, segments have more than one spelling. */
module StrictBits {
  import opened Prelude
  import opened Base64Url

  /** `DecodeValues` without that test. */
  function LooseValues(vs: seq<Sextet>): Option<Bytes> {
    if vs == [] then Some([])
    else if |vs| == 1 then None
    else if |vs| == 2 then Some(DecodeBlock(vs[0], vs[1], 0, 0)[..1])
    else if |vs| == 3 then Some(DecodeBlock(vs[0], vs[1], vs[2], 0)[..2])
    else match LooseValues(vs[4..])
      case None => None
      case Some(rest) => Some(DecodeBlock(vs[0], vs[1], vs[2], vs[3]) + rest)
  }

  function LooseDecode(s: Bytes): Option<Bytes> {
    match Values(s)
    case None => None
    case Some(vs) => LooseValues(vs)
  }

  lemma {:induction false} StrictIsLoose(vs: seq<Sextet>)
    ensures DecodeValues(vs).Some? ==> LooseValues(vs) == DecodeValues(vs)
    ensures |vs| % 4 == 0 ==> LooseValues(vs) == DecodeValues(vs)
  {
    if |vs| >= 4 {
      Wraps(|vs| - 4, 0);
      StrictIsLoose(vs[4..]);
    }
  }

  lemma Wraps(n: nat, m: nat)
    ensures (n + 4) % 4 == n % 4 && (m + 3) % 3 == m % 3
  {
  }

  /** The bits left over show in the number of bytes. */
  lemma {:induction false} LooseSize(vs: seq<Sextet>)
    requires LooseValues(vs).Some?
    ensures |LooseValues(vs).value| % 3 == 0 <==> |vs| % 4 == 0
  {
    if |vs| >= 4 {
      LooseSize(vs[4..]);
      Wraps(|vs| - 4, |LooseValues(vs[4..]).value|);
    }
  }

  /** A full group in front of others. */
  lemma FullGroup(g: seq<Sextet>, rest: seq<Sextet>)
    requires |g| == 4 && LooseValues(rest).Some?
    ensures LooseValues(g + rest) == Some(DecodeBlock(g[0], g[1], g[2], g[3]) + LooseValues(rest).value)
    ensures DecodeValues(rest).None? ==> DecodeValues(g + rest).None?
  {
    assert (g + rest)[4..] == rest;
  }

  // ----- another spelling -----

  function Spell(vs: seq<Sextet>): Bytes {
    if vs == [] then [] else [CharOf(vs[0])] + Spell(vs[1..])
  }

  lemma {:induction false} SpellValues(vs: seq<Sextet>)
    ensures Values(Spell(vs)) == Some(vs)
  {
    if vs != [] {
      SpellValues(vs[1..]);
      assert Spell(vs)[1..] == Spell(vs[1..]);
      assert vs == [vs[0]] + vs[1..];
    }
  }

  /** The encoding with one of its unused bits set. */
  function Smudged(data: Bytes): (vs: seq<Sextet>)
    requires |data| % 3 != 0
    decreases |data|
  {
    var x := data[0] as int;
    if |data| == 1 then [x / 4, x % 4 * 16 + 1]
    else
      var y := data[1] as int;
      if |data| == 2 then [x / 4, x % 4 * 16 + y / 16, y % 16 * 4 + 1]
      else Group(data[0], data[1], data[2]) + Smudged(data[3..])
  }

  /** The four values of three bytes. */
  function Group(a: byte, b: byte, c: byte): (g: seq<Sextet>)
    ensures |g| == 4
  {
    var x, y, z := a as int, b as int, c as int;
    [x / 4, x % 4 * 16 + y / 16, y % 16 * 4 + z / 64, z % 64]
  }

  lemma GroupDecodes(a: byte, b: byte, c: byte)
    ensures var g := Group(a, b, c);
            DecodeBlock(g[0], g[1], g[2], g[3]) == [a, b, c]
  {
    BlockThere(a, b, c);
  }

  lemma OneSmudged(x: int)
    requires 0 <= x < 256
    ensures x / 4 * 4 + (x % 4 * 16 + 1) / 16 == x && (x % 4 * 16 + 1) % 16 == 1
  {
    assert (x % 4 * 16 + 1) / 16 == x % 4;
  }

  lemma TwoSmudged(x: int, y: int)
    requires 0 <= x < 256 && 0 <= y < 256
    ensures x / 4 * 4 + (x % 4 * 16 + y / 16) / 16 == x
    ensures (x % 4 * 16 + y / 16) % 16 * 16 + (y % 16 * 4 + 1) / 4 == y && (y % 16 * 4 + 1) % 4 == 1
  {
    assert (x % 4 * 16 + y / 16) / 16 == x % 4 && (x % 4 * 16 + y / 16) % 16 == y / 16;
    assert (y % 16 * 4 + 1) / 4 == y % 16;
  }

  lemma {:induction false} SmudgedDecodes(data: Bytes)
    requires |data| % 3 != 0
    ensures LooseValues(Smudged(data)) == Some(data) && DecodeValues(Smudged(data)).None?
    decreases |data|
  {
    var x := data[0] as int;
    if |data| == 1 {
      OneSmudged(x);
      assert Smudged(data) == [x / 4, x % 4 * 16 + 1];
      assert DecodeBlock(x / 4, x % 4 * 16 + 1, 0, 0)[..1] == [data[0]] == data;
    } else if |data| == 2 {
      var y := data[1] as int;
      TwoSmudged(x, y);
      assert Smudged(data) == [x / 4, x % 4 * 16 + y / 16, y % 16 * 4 + 1];
      assert DecodeBlock(x / 4, x % 4 * 16 + y / 16, y % 16 * 4 + 1, 0)[..2] == [data[0], data[1]] == data;
    } else {
      SmudgedBlock(data);
    }
  }

  lemma {:induction false} SmudgedBlock(data: Bytes)
    requires |data| % 3 != 0 && |data| > 3
    ensures LooseValues(Smudged(data)) == Some(data) && DecodeValues(Smudged(data)).None?
    decreases |data|, 0
  {
    SmudgedDecodes(data[3..]);
    GroupDecodes(data[0], data[1], data[2]);
    FullGroup(Group(data[0], data[1], data[2]), Smudged(data[3..]));
    assert data == [data[0], data[1], data[2]] + data[3..];
  }

  /** Decoded loosely, exactly the data that do not fill their last group have a
      second spelling, and the strict decoder refuses the one that shows it. */
  lemma StrictBitsNeeded(data: Bytes)
    ensures LooseDecode(Encode(data)) == Some(data)
    ensures (exists s :: s != Encode(data) && LooseDecode(s) == Some(data)) <==> |data| % 3 != 0
    ensures |data| % 3 != 0 ==> exists s :: LooseDecode(s) == Some(data) && Decode(s).None?
  {
    DecodeIff(Encode(data), data);
    StrictIsLoose(Values(Encode(data)).value);
    if |data| % 3 != 0 {
      var s := Spell(Smudged(data));
      SpellValues(Smudged(data));
      SmudgedDecodes(data);
      assert LooseDecode(s) == Some(data) && Decode(s).None? && s != Encode(data);
    } else {
      forall s | LooseDecode(s) == Some(data) ensures s == Encode(data) {
        LooseSize(Values(s).value);
        StrictIsLoose(Values(s).value);
        DecodeIff(s, data);
      }
    }
  }
}
