/** Decoding and encoding of UTF-8 and UTF-16 (phlib/basesup.c), on whole sequences of code units.
    Surrogates are code points like any other, and a byte that is no part of a well-formed sequence
    decodes to 0xdc00 plus its value. */
module Unicode {

  const MAX_CODE_POINT: nat := 0x10ffff

  predicate Bytes(s: seq<nat>) { forall i :: 0 <= i < |s| ==> s[i] < 0x100 }
  predicate Words(s: seq<nat>) { forall i :: 0 <= i < |s| ==> s[i] < 0x1_0000 }
  predicate CodePoints(s: seq<nat>) { forall i :: 0 <= i < |s| ==> s[i] <= MAX_CODE_POINT }

  /** What begins a sequence of code units. */
  datatype Parse = Incomplete | Parsed(codePoint: nat, used: nat)

  // ---------------------------------------------------------------------------------------------
  // UTF-8
  // ---------------------------------------------------------------------------------------------

  /** (c & 0xc0) == 0x80 */
  predicate Continues(c: nat) { 0x80 <= c < 0xc0 }

  /** The second unit of a three byte sequence may not make it overlong. */
  predicate Second3(c1: nat, c2: nat) {
    Continues(c2) && (c1 != 0xe0 || c2 >= 0xa0)
  }

  /** That of a four byte sequence may not either, nor lead beyond the last code point. */
  predicate Second4(c1: nat, c2: nat) {
    Continues(c2) && (c1 != 0xf0 || c2 >= 0x90) && (c1 != 0xf4 || c2 < 0x90)
  }

  function Malformed(c1: nat): Parse { Parsed(c1 + 0xdc00, 1) }

  function Join2(c1: nat, c2: nat): int { c1 * 0x40 + c2 - 0x3080 }
  function Join3(c1: nat, c2: nat, c3: nat): int { c1 * 0x1000 + c2 * 0x40 + c3 - 0xe2080 }
  function Join4(c1: nat, c2: nat, c3: nat, c4: nat): int { c1 * 0x4_0000 + c2 * 0x1000 + c3 * 0x40 + c4 - 0x3c8_2080 }

  function Parse8(s: seq<nat>): (p: Parse)
    requires s != [] && Bytes(s)
    ensures p.Parsed? ==> 1 <= p.used <= |s| && p.codePoint <= MAX_CODE_POINT
  {
    var c1 := s[0];
    if c1 < 0x80 then Parsed(c1, 1)
    else if c1 < 0xc2 || c1 >= 0xf5 then Malformed(c1)
    else if |s| < 2 then Incomplete
    else if c1 < 0xe0 then
      if Continues(s[1]) then Parsed(Join2(c1, s[1]), 2) else Malformed(c1)
    else if c1 < 0xf0 then
      if !Second3(c1, s[1]) then Malformed(c1)
      else if |s| < 3 then Incomplete
      else if Continues(s[2]) then Parsed(Join3(c1, s[1], s[2]), 3) else Malformed(c1)
    else
      if !Second4(c1, s[1]) then Malformed(c1)
      else if |s| < 3 then Incomplete
      else if !Continues(s[2]) then Malformed(c1)
      else if |s| < 4 then Incomplete
      else if Continues(s[3]) then Parsed(Join4(c1, s[1], s[2], s[3]), 4) else Malformed(c1)
  }

  /** The code points of a sequence of bytes, up to an unfinished end. */
  function Decode8(s: seq<nat>): (r: seq<nat>)
    requires Bytes(s)
    ensures CodePoints(r)
    decreases |s|
  {
    if s == [] then []
    else
      match Parse8(s)
      case Incomplete => []
      case Parsed(codePoint, used) => [codePoint] + Decode8(s[used..])
  }

  /** PhEncodeUnicode for UTF-8. */
  function Encode8(c: nat): (s: seq<nat>)
    requires c <= MAX_CODE_POINT
    ensures Bytes(s) && s != []
  {
    if c < 0x80 then [c]
    else if c <= 0x7ff then [c / 0x40 + 0xc0, c % 0x40 + 0x80]
    else if c <= 0xffff then [c / 0x1000 + 0xe0, c / 0x40 % 0x40 + 0x80, c % 0x40 + 0x80]
    else [c / 0x4_0000 + 0xf0, c / 0x1000 % 0x40 + 0x80, c / 0x40 % 0x40 + 0x80, c % 0x40 + 0x80]
  }

  function EncodeAll8(s: seq<nat>): (r: seq<nat>)
    requires CodePoints(s)
    ensures Bytes(r)
  {
    if s == [] then [] else Encode8(s[0]) + EncodeAll8(s[1..])
  }

  /** The bytes of a code point lead back to it, whatever follows. */
  lemma ParseEncoded8(c: nat, rest: seq<nat>)
    requires c <= MAX_CODE_POINT && Bytes(rest)
    ensures Parse8(Encode8(c) + rest) == Parsed(c, |Encode8(c)|)
  {
    var s := Encode8(c) + rest;
    assert forall i :: 0 <= i < |Encode8(c)| ==> s[i] == Encode8(c)[i];
    if c < 0x80 {
    } else if c <= 0x7ff {
      Digits2(c);
    } else if c <= 0xffff {
      Digits3(c);
    } else {
      Digits4(c);
    }
  }

  lemma Digits2(c: nat)
    requires 0x80 <= c <= 0x7ff
    ensures 0xc2 <= c / 0x40 + 0xc0 < 0xe0 && Join2(c / 0x40 + 0xc0, c % 0x40 + 0x80) == c
  {
  }

  lemma Digits3(c: nat)
    requires 0x800 <= c <= 0xffff
    ensures var c1, c2, c3 := c / 0x1000 + 0xe0, c / 0x40 % 0x40 + 0x80, c % 0x40 + 0x80;
      0xe0 <= c1 < 0xf0 && Second3(c1, c2) && Continues(c3) && Join3(c1, c2, c3) == c
  {
    var d := c / 0x40;
    assert c == d * 0x40 + c % 0x40;
    assert d == d / 0x40 * 0x40 + d % 0x40;
    assert c / 0x1000 == d / 0x40;
  }

  lemma Digits4(c: nat)
    requires 0x1_0000 <= c <= MAX_CODE_POINT
    ensures var c1, c2, c3, c4 := c / 0x4_0000 + 0xf0, c / 0x1000 % 0x40 + 0x80, c / 0x40 % 0x40 + 0x80, c % 0x40 + 0x80;
      0xf0 <= c1 < 0xf5 && Second4(c1, c2) && Continues(c3) && Continues(c4) && Join4(c1, c2, c3, c4) == c
  {
    var d := c / 0x40;
    var e := d / 0x40;
    assert c == d * 0x40 + c % 0x40;
    assert d == e * 0x40 + d % 0x40;
    assert e == e / 0x40 * 0x40 + e % 0x40;
    assert c / 0x1000 == e && c / 0x4_0000 == e / 0x40;
  }

  /** Decoding undoes encoding, for surrogates too. */
  lemma {:induction false} DecodeEncoded8(s: seq<nat>)
    requires CodePoints(s)
    ensures Decode8(EncodeAll8(s)) == s
  {
    if s != [] {
      var first, rest := Encode8(s[0]), EncodeAll8(s[1..]);
      ParseEncoded8(s[0], rest);
      assert (first + rest)[|first|..] == rest;
      DecodeEncoded8(s[1..]);
    }
  }

  /** What follows does not change how the beginning is decoded. */
  lemma DecodePrefix8(s: seq<nat>, rest: seq<nat>)
    requires s != [] && Bytes(s) && Bytes(rest) && Parse8(s).Parsed?
    ensures Bytes(s + rest) && Parse8(s + rest) == Parse8(s)
    ensures Decode8(s + rest) == [Parse8(s).codePoint] + Decode8(s[Parse8(s).used..] + rest)
  {
    var used := Parse8(s).used;
    assert forall i :: 0 <= i < |s| ==> (s + rest)[i] == s[i];
    assert (s + rest)[used..] == s[used..] + rest;
  }

  // ---------------------------------------------------------------------------------------------
  // UTF-16
  // ---------------------------------------------------------------------------------------------

  predicate High(u: nat) { 0xd800 <= u <= 0xdbff }
  predicate Low(u: nat) { 0xdc00 <= u <= 0xdfff }

  function Parse16(s: seq<nat>): (p: Parse)
    requires s != [] && Words(s)
    ensures p.Parsed? ==> 1 <= p.used <= |s| && p.codePoint <= MAX_CODE_POINT
  {
    if !High(s[0]) then Parsed(s[0], 1)
    else if |s| < 2 then Incomplete
    else if Low(s[1]) then Parsed(s[0] * 0x400 + s[1] - 0x35f_dc00, 2)
    else Parsed(s[0], 1)
  }

  function Decode16(s: seq<nat>): (r: seq<nat>)
    requires Words(s)
    ensures CodePoints(r)
    decreases |s|
  {
    if s == [] then []
    else
      match Parse16(s)
      case Incomplete => []
      case Parsed(codePoint, used) => [codePoint] + Decode16(s[used..])
  }

  /** PhEncodeUnicode for UTF-16. */
  function Encode16(c: nat): (s: seq<nat>)
    requires c <= MAX_CODE_POINT
    ensures Words(s) && s != []
  {
    if c < 0x1_0000 then [c] else [c / 0x400 + 0xd7c0, c % 0x400 + 0xdc00]
  }

  function EncodeAll16(s: seq<nat>): (r: seq<nat>)
    requires CodePoints(s)
    ensures Words(r)
  {
    if s == [] then [] else Encode16(s[0]) + EncodeAll16(s[1..])
  }

  lemma EncodeParsed16(s: seq<nat>)
    requires s != [] && Words(s) && Parse16(s).Parsed?
    ensures Encode16(Parse16(s).codePoint) == s[..Parse16(s).used]
  {
    if Parse16(s).used == 2 {
      var c := s[0] * 0x400 + s[1] - 0x35f_dc00;
      assert c == (s[0] - 0xd7c0) * 0x400 + (s[1] - 0xdc00);
    }
  }

  predicate EndsHigh(s: seq<nat>) { s != [] && High(s[|s| - 1]) }

  /** Encoding undoes decoding, but for a high surrogate at the end, which waits for more. */
  lemma {:induction false} EncodeDecoded16(s: seq<nat>)
    requires Words(s)
    ensures EncodeAll16(Decode16(s)) == if EndsHigh(s) then s[..|s| - 1] else s
    decreases |s|
  {
    if s != [] && Parse16(s).Parsed? {
      var used := Parse16(s).used;
      EncodeParsed16(s);
      EncodeDecoded16(s[used..]);
      assert Decode16(s) == [Parse16(s).codePoint] + Decode16(s[used..]);
      LastUnit(s, used);
      hide Decode16, EncodeAll16, Parse16;
      FirstEncoded(Decode16(s), Decode16(s[used..]));
    }
  }

  lemma FirstEncoded(s: seq<nat>, rest: seq<nat>)
    requires CodePoints(s) && CodePoints(rest) && s != [] && s == [s[0]] + rest
    ensures EncodeAll16(s) == Encode16(s[0]) + EncodeAll16(rest)
  {
    assert s[1..] == rest;
  }

  /** The end of a sequence is that of what follows its first code point. */
  lemma LastUnit(s: seq<nat>, used: nat)
    requires s != [] && Words(s) && Parse16(s).Parsed? && used == Parse16(s).used
    ensures EndsHigh(s) <==> EndsHigh(s[used..])
    ensures s == s[..used] + s[used..]
    ensures EndsHigh(s) ==> s[..|s| - 1] == s[..used] + s[used..][..|s| - used - 1]
  {
    assert used < |s| ==> s[used..][|s| - used - 1] == s[|s| - 1];
  }

  /** The form of UTF-8 (section 3 of RFC 3629): the class of the first byte tells how many follow, and six bits of
      the code point are in each byte that follows. */
  lemma Form8(c: nat)
    requires c <= MAX_CODE_POINT
    ensures var s := Encode8(c);
      && (forall i :: 1 <= i < |s| ==> 0x80 <= s[i] < 0xc0)
      && (c < 0x80 ==> |s| == 1 && s[0] == c)
      && (0x80 <= c < 0x800 ==> |s| == 2 && 0xc2 <= s[0] < 0xe0 && c == (s[0] - 0xc0) * 0x40 + (s[1] - 0x80))
      && (0x800 <= c < 0x10000 ==>
            |s| == 3 && 0xe0 <= s[0] < 0xf0 && c == (s[0] - 0xe0) * 0x1000 + (s[1] - 0x80) * 0x40 + (s[2] - 0x80))
      && (0x10000 <= c ==>
            && |s| == 4 && 0xf0 <= s[0] < 0xf5
            && c == (s[0] - 0xf0) * 0x4_0000 + (s[1] - 0x80) * 0x1000 + (s[2] - 0x80) * 0x40 + (s[3] - 0x80))
  {
    if c < 0x80 {
    } else if c <= 0x7ff {
      Digits2(c);
    } else if c <= 0xffff {
      Digits3(c);
    } else {
      Digits4(c);
    }
  }

  /** What the decoder reads: a byte below 0x80, or the shortest form of a code point; a byte of anything else
      becomes a lone low surrogate. */
  lemma ParsedMeans(s: seq<nat>)
    requires s != [] && Bytes(s) && Parse8(s).Parsed?
    ensures Parse8(s).used == 1 ==> Parse8(s).codePoint == if s[0] < 0x80 then s[0] else s[0] + 0xdc00
    ensures Parse8(s).used > 1 ==> Parse8(s).used <= |s| && s[..Parse8(s).used] == Encode8(Parse8(s).codePoint)
  {
    match Parse8(s).used {
      case 2 => Shortest2(s[0], s[1]);
      case 3 => Shortest3(s[0], s[1], s[2]);
      case 4 => Shortest4(s[0], s[1], s[2], s[3]);
      case _ =>
    }
    hide Encode8, Join2, Join3, Join4;
  }

  lemma Shortest2(c1: nat, c2: nat)
    requires 0xc2 <= c1 < 0xe0 && Continues(c2)
    ensures 0x80 <= Join2(c1, c2) <= 0x7ff && Encode8(Join2(c1, c2)) == [c1, c2]
  {
    assert Join2(c1, c2) == (c1 - 0xc0) * 0x40 + (c2 - 0x80);
  }

  lemma Shortest3(c1: nat, c2: nat, c3: nat)
    requires 0xe0 <= c1 < 0xf0 && Second3(c1, c2) && Continues(c3)
    ensures 0x800 <= Join3(c1, c2, c3) <= 0xffff && Encode8(Join3(c1, c2, c3)) == [c1, c2, c3]
  {
    var c, d := Join3(c1, c2, c3), (c1 - 0xe0) * 0x40 + (c2 - 0x80);
    assert c == d * 0x40 + (c3 - 0x80);
    assert c / 0x40 == d && c / 0x1000 == d / 0x40;
  }

  lemma Shortest4(c1: nat, c2: nat, c3: nat, c4: nat)
    requires 0xf0 <= c1 < 0xf5 && Second4(c1, c2) && Continues(c3) && Continues(c4)
    ensures 0x1_0000 <= Join4(c1, c2, c3, c4) <= MAX_CODE_POINT && Encode8(Join4(c1, c2, c3, c4)) == [c1, c2, c3, c4]
  {
    var e := (c1 - 0xf0) * 0x40 + (c2 - 0x80);
    var c, d := Join4(c1, c2, c3, c4), e * 0x40 + (c3 - 0x80);
    assert c == d * 0x40 + (c4 - 0x80);
    assert c / 0x40 == d && d / 0x40 == e;
    assert c / 0x1000 == e && c / 0x4_0000 == e / 0x40;
  }

  /** The form of UTF-16: a unit, or a high and a low surrogate with ten bits each. */
  lemma Form16(c: nat)
    requires c <= MAX_CODE_POINT
    ensures var s := Encode16(c);
      if c < 0x10000 then s == [c]
      else && |s| == 2 && 0xd800 <= s[0] < 0xdc00 <= s[1] < 0xe000
           && c == 0x10000 + (s[0] - 0xd800) * 0x400 + (s[1] - 0xdc00)
  {
  }

  /** UTF-16 survives the way to UTF-8 and back, lone surrogates included, if and only if it does not
      end in a high surrogate. */
  lemma RoundTrip(s: seq<nat>)
    requires Words(s)
    ensures EncodeAll16(Decode8(EncodeAll8(Decode16(s)))) == s <==> !EndsHigh(s)
  {
    DecodeEncoded8(Decode16(s));
    EncodeDecoded16(s);
  }

  /** A high surrogate at the end is waited for in vain. */
  lemma RoundTripExample()
    ensures EncodeAll16(Decode8(EncodeAll8(Decode16([0x41, 0xd800])))) != [0x41, 0xd800]
  {
    RoundTrip([0x41, 0xd800]);
  }
}
