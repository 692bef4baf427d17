/** What the characters of a written or read integer stand for, from their codes alone. */
module IntegerTextMeaning {
  import opened IntegerText

  /** The digits up to radix 69, as phlib/data.c lists them. */
  const DECIMAL: string := "0123456789"
  const LETTERS: string := "abcdefghijklmnopqrstuvwxyz"
  const FROM_SPACE: string := " !\"#$%&'()*+,-./"
  const FROM_COLON: string := ":;<=>?@"
  const FROM_BRACKET: string := "[\\]^_`"
  const FROM_BRACE: string := "{|}~"

  const NONE: nat := 99

  /** The digit a letter or a decimal digit stands for. */
  function Meaning(c: nat): nat {
    if '0' as nat <= c <= '9' as nat then c - 48
    else if 'a' as nat <= c <= 'z' as nat then c - 97 + 10
    else if 'A' as nat <= c <= 'Z' as nat then c - 65 + 10
    else NONE
  }

  /** The number that digits with these meanings denote. */
  function Horner(s: seq<nat>, radix: nat): nat {
    if s == [] then 0 else Horner(s[..|s| - 1], radix) * radix + Meaning(s[|s| - 1])
  }

  predicate Digits(s: seq<nat>, radix: nat) {
    forall i :: 0 <= i < |s| ==> Meaning(s[i]) < radix
  }

  predicate LowerCase(s: seq<nat>) {
    forall i :: 0 <= i < |s| ==> 48 <= s[i] <= 57 || 97 <= s[i] <= 122
  }

  /** The digit at place d of the table. */
  function Listed(d: nat): nat
    requires d < 69
  {
    (if d < 10 then DECIMAL[d]
     else if d < 36 then LETTERS[d - 10]
     else if d < 52 then FROM_SPACE[d - 36]
     else if d < 59 then FROM_COLON[d - 52]
     else if d < 65 then FROM_BRACKET[d - 59]
     else FROM_BRACE[d - 65]) as nat
  }

  /** The table of digits, both ways; letters are read in either case. */
  lemma Tables(d: nat)
    requires d < 69
    ensures CharOf(d) == Listed(d) && Digit(Listed(d)) == d
    ensures 10 <= d < 36 ==> Digit(Listed(d) - 32) == d
  {
    ListedIs(d);
    hide Listed;
    ListedCode(d, Listed(d));
  }

  lemma ListedIs(d: nat)
    requires d < 69
    ensures d < 10 ==> Listed(d) == 48 + d
    ensures 10 <= d < 36 ==> Listed(d) == 97 + d - 10
    ensures 36 <= d < 52 ==> Listed(d) == 32 + d - 36
    ensures 52 <= d < 59 ==> Listed(d) == 58 + d - 52
    ensures 59 <= d < 65 ==> Listed(d) == 91 + d - 59
    ensures 65 <= d ==> Listed(d) == 123 + d - 65
  {
    if d < 10 { InARow(DECIMAL, 48, d); }
    else if d < 36 { LettersInARow(d - 10); }
    else if d < 52 { InARow(FROM_SPACE, 32, d - 36); }
    else if d < 59 { InARow(FROM_COLON, 58, d - 52); }
    else if d < 65 { InARow(FROM_BRACKET, 91, d - 59); }
    else { InARow(FROM_BRACE, 123, d - 65); }
    hide DECIMAL, LETTERS, FROM_SPACE, FROM_COLON, FROM_BRACKET, FROM_BRACE;
  }

  lemma ListedCode(d: nat, c: nat)
    requires d < 69
    requires c == if d < 10 then 48 + d else if d < 36 then 87 + d else if d < 52 then d - 4
                  else if d < 59 then d + 6 else if d < 65 then d + 32 else d + 58
    ensures CharOf(d) == c && Digit(c) == d && (10 <= d < 36 ==> Digit(c - 32) == d)
  {
  }

  lemma InARow(s: string, first: nat, i: nat)
    requires i < |s| && s in {DECIMAL, FROM_SPACE, FROM_COLON, FROM_BRACKET, FROM_BRACE} && s[0] as nat == first
    ensures s[i] as nat == first + i
  {
  }

  lemma LettersInARow(i: nat)
    requires i < 26
    ensures LETTERS[i] as nat == 97 + i
  {
  }

  lemma OneDigit(d: nat)
    requires d < 36
    ensures Meaning(CharOf(d)) == d && (48 <= CharOf(d) <= 57 || 97 <= CharOf(d) <= 122)
    ensures d < 10 ==> 48 <= CharOf(d) <= 57
    ensures CharOf(d) == 48 <==> d == 0
  {
  }

  lemma HornerSnoc(s: seq<nat>, c: nat, radix: nat)
    ensures Horner(s + [c], radix) == Horner(s, radix) * radix + Meaning(c)
  {
    assert (s + [c])[..|s|] == s;
  }

  /** What is written denotes the number, in lower case and without leading zeros. */
  lemma {:induction false} WrittenMeans(n: nat, radix: nat)
    requires 2 <= radix <= 36
    ensures var t := Text(n, radix);
      && t != [] && Digits(t, radix) && LowerCase(t) && Horner(t, radix) == n
      && (t[0] == '0' as nat <==> n == 0)
      && (radix <= 10 ==> forall i :: 0 <= i < |t| ==> 48 <= t[i] < 48 + radix)
    decreases n
  {
    if n < radix {
      OneDigitMeans(n, radix);
    } else {
      var q, r := Quot(n, radix), Rem(n, radix);
      MoreDigits(n, radix);
      PositiveQuotient(q, radix, r);
      WrittenMeans(q, radix);
      OneDigit(r);
      HornerSnoc(Text(q, radix), CharOf(r), radix);
      hide *;
      MoreMeans(Text(q, radix), CharOf(r), radix, r);
    }
  }

  lemma OneDigitMeans(n: nat, radix: nat)
    requires n < radix && 2 <= radix <= 36
    ensures var t := Text(n, radix);
      && t == [CharOf(n)] && Digits(t, radix) && LowerCase(t) && Horner(t, radix) == n
      && (t[0] == '0' as nat <==> n == 0)
      && (radix <= 10 ==> forall i :: 0 <= i < |t| ==> 48 <= t[i] < 48 + radix)
  {
    OneDigit(n);
    HornerSnoc([], CharOf(n), radix);
    assert [] + [CharOf(n)] == [CharOf(n)];
    hide CharOf;
  }

  lemma MoreMeans(t: seq<nat>, c: nat, radix: nat, r: nat)
    requires t != [] && Digits(t, radix) && LowerCase(t) && Meaning(c) == r < radix && (48 <= c <= 57 || 97 <= c <= 122)
    requires 2 <= radix <= 36 && (r < 10 ==> 48 <= c <= 57)
    requires radix <= 10 ==> forall i :: 0 <= i < |t| ==> 48 <= t[i] < 48 + radix
    ensures Digits(t + [c], radix) && LowerCase(t + [c]) && (t + [c])[0] == t[0]
    ensures radix <= 10 ==> forall i :: 0 <= i < |t + [c]| ==> 48 <= (t + [c])[i] < 48 + radix
  {
  }

  lemma PositiveQuotient(q: nat, radix: nat, r: nat)
    requires q * radix + r >= radix > r
    ensures q > 0
  {
  }

  /** What is read is what the digits denote, modulo 2^64; and the text is accepted if and only if all are
      digits. */
  lemma {:induction false} ReadMeans(s: seq<nat>, radix: nat)
    requires 2 <= radix <= 36 && forall i :: 0 <= i < |s| ==> s[i] < 0x100
    ensures AllDigits(s, radix) <==> Digits(s, radix)
    ensures Digits(s, radix) ==> Value(s, radix) == Horner(s, radix) % 0x1_0000_0000_0000_0000
    decreases |s|
  {
    if s != [] {
      var n := |s| - 1;
      ReadMeans(s[..n], radix);
      CodeRead(s[n], radix);
      assert s == s[..n] + [s[n]];
      HornerSnoc(s[..n], s[n], radix);
      if Digits(s, radix) {
        Carried(Horner(s[..n], radix), radix, Meaning(s[n]));
      }
      hide Meaning, Digit;
    }
  }

  lemma CodeRead(c: nat, radix: nat)
    requires 2 <= radix <= 36 && c < 0x100
    ensures Digit(c) < radix <==> Meaning(c) < radix
    ensures Digit(c) < radix ==> Digit(c) == Meaning(c)
  {
  }

  lemma Carried(v: nat, radix: nat, d: nat)
    ensures Extend(v % WORD64, radix, d) == (v * radix + d) % WORD64
  {
    var q, r := v / WORD64, v % WORD64;
    Distribute(q * WORD64, r, radix);
    Associate(q, WORD64, radix);
    assert q * WORD64 + r == v;
    assert q * (radix * WORD64) == (q * radix) * WORD64 by { Associate(q, radix, WORD64); Commute(WORD64, radix); }
    assert v * radix + d == (q * radix) * WORD64 + (r * radix + d);
    Reduced(q * radix, r * radix + d);
  }

  lemma Commute(a: nat, b: nat)
    ensures a * b == b * a
  {
  }

  lemma Reduced(q: nat, a: nat)
    ensures (q * WORD64 + a) % WORD64 == a % WORD64
  {
  }

  /** PhIntegerToString64: a minus sign and the digits of the magnitude, or the digits. */
  lemma WrittenIntegerMeans(bits: nat, radix: nat, signed: bool)
    requires bits < 0x1_0000_0000_0000_0000 && 2 <= radix <= 36
    ensures var t := WrittenText(bits, radix, signed);
      if signed && bits >= 0x8000_0000_0000_0000
      then t != [] && t[0] == '-' as nat && LowerCase(t[1..]) && Horner(t[1..], radix) == 0x1_0000_0000_0000_0000 - bits
      else t != [] && t[0] != '-' as nat && LowerCase(t) && Horner(t, radix) == bits
  {
    var n := if signed && bits >= HALF64 then WORD64 - bits else bits;
    WrittenMeans(n, radix);
    assert ([MINUS] + Text(n, radix))[1..] == Text(n, radix);
  }

  /** PhStringToInteger64 with a base: an optional sign, and digits. */
  lemma ReadIntegerMeans(s: seq<nat>, radix: nat)
    requires 2 <= radix <= 36 && forall i :: 0 <= i < |s| ==> s[i] < 0x100
    ensures var signed := s != [] && (s[0] == '-' as nat || s[0] == '+' as nat);
      var digits := if signed then s[1..] else s;
      && (ReadsAll(s, radix) <==> Digits(digits, radix))
      && (Digits(digits, radix) ==>
            var v := Horner(digits, radix) % 0x1_0000_0000_0000_0000;
            ReadBits(s, radix) == if signed && s[0] == '-' as nat && v > 0 then 0x1_0000_0000_0000_0000 - v else v)
  {
    ReadMeans(Unsigned(s), radix);
    Negated(Value(Unsigned(s), radix));
    assert Body(s, radix) == (Unsigned(s), radix);
    hide Value, Horner, Digits, AllDigits, Body, Meaning;
  }

  lemma Negated(v: nat)
    requires v < WORD64
    ensures (WORD64 - v) % WORD64 == if v > 0 then WORD64 - v else 0
  {
  }

  /** Without a base, a prefix names it. */
  lemma PrefixMeans(c: char, digits: seq<nat>)
    ensures var named := [48, c as nat] + digits;
      && (c == 'x' || c == 'X' ==> Body(named, 0) == (digits, 16))
      && (c == 'o' || c == 'O' ==> Body(named, 0) == (digits, 8))
      && (c == 'b' || c == 'B' ==> Body(named, 0) == (digits, 2))
      && (c == 't' || c == 'T' ==> Body(named, 0) == (digits, 3))
      && (c == 'q' || c == 'Q' ==> Body(named, 0) == (digits, 4))
      && (c == 'w' || c == 'W' ==> Body(named, 0) == (digits, 12))
      && (c == 'r' || c == 'R' ==> Body(named, 0) == (digits, 32))
      && (c !in "xXoObBtTqQwWrR" ==> Body(named, 0) == (named, 10))
  {
    assert ([48, c as nat] + digits)[2..] == digits;
  }

  function Codes(s: string): (r: seq<nat>)
    ensures |r| == |s|
  {
    seq(|s|, i requires 0 <= i < |s| => s[i] as nat)
  }

  /** -12, 255 in radix 16, and back. */
  lemma WrittenExamples()
    ensures WrittenText(0x1_0000_0000_0000_0000 - 12, 10, true) == Codes("-12") && WrittenText(255, 16, false) == Codes("ff")
  {
    TwoDigits();
    assert Text(1, 10) == [49] && Text(15, 16) == [102];
    hide Text;
    assert [MINUS] + ([49] + [50]) == Codes("-12") && [102] + [102] == Codes("ff");
  }

  lemma TwoDigits()
    ensures Text(12, 10) == Text(1, 10) + [50] && Text(255, 16) == Text(15, 16) + [102]
  {
    MoreDigits(12, 10);
    MoreDigits(255, 16);
    assert Quot(12, 10) == 1 && Rem(12, 10) == 2 && Quot(255, 16) == 15 && Rem(255, 16) == 15;
  }

  lemma ReadExamples()
    ensures ReadBits(Codes("-12"), 10) == 0x1_0000_0000_0000_0000 - 12 && ReadBits(Codes("FF"), 16) == 255
  {
    assert Codes("-12") == [45, 49, 50] && Codes("FF") == [70, 70];
    ReadIntegerMeans([45, 49, 50], 10);
    ReadIntegerMeans([70, 70], 16);
    TwoMean(49, 50, 10);
    TwoMean(70, 70, 16);
    assert [45, 49, 50][1..] == [49, 50];
    hide ReadBits, Horner;
  }

  lemma TwoMean(a: nat, b: nat, radix: nat)
    ensures Horner([a, b], radix) == Meaning(a) * radix + Meaning(b)
  {
    HornerSnoc([], a, radix);
    HornerSnoc([a], b, radix);
    assert [] + [a] == [a] && [a] + [b] == [a, b];
  }
}
