/** Integers as text in radix 2 to 69 (phlib/format_i.h, phlib/basesup.c, phlib/data.c). A character is
    its code. */
module IntegerText {
  import opened PowersOfTwo

  const WORD64: nat := 0x1_0000_0000_0000_0000
  const HALF64: nat := 0x8000_0000_0000_0000
  const MAX_RADIX: nat := 69
  const BUFFER_SIZE: nat := 512
  const NO_DIGIT: nat := 0xFFFF_FFFF

  const PLUS: nat := 43
  const MINUS: nat := 45

  /** PhIntegerToChar */
  function CharOf(d: nat): (c: nat)
    requires d < MAX_RADIX
    ensures c < 0x80
  {
    if d < 10 then 48 + d            // '0'
    else if d < 36 then 97 + d - 10  // 'a'
    else if d < 52 then 32 + d - 36  // ' '
    else if d < 59 then 58 + d - 52  // ':'
    else if d < 65 then 91 + d - 59  // '['
    else 123 + d - 65                // '{'
  }

  /** PhCharToInteger */
  function DigitOf(c: nat): nat {
    if 48 <= c < 58 then c - 48
    else if 65 <= c < 91 then c - 65 + 10
    else if 97 <= c < 123 then c - 97 + 10
    else if 32 <= c < 48 then c - 32 + 36
    else if 58 <= c < 65 then c - 58 + 52
    else if 91 <= c < 97 then c - 91 + 59
    else if 123 <= c < 127 then c - 123 + 65
    else NO_DIGIT
  }

  lemma DigitOfChar(d: nat)
    requires d < MAX_RADIX
    ensures DigitOf(CharOf(d)) == d
    ensures CharOf(d) == PLUS <==> d == 47
    ensures CharOf(d) == MINUS <==> d == 49
  {
  }

  function Quot(n: nat, radix: nat): (q: nat)
    requires radix >= 2
    ensures n > 0 ==> q < n
  {
    QuotientBounds(n, radix);
    n / radix
  }

  lemma QuotientBounds(n: nat, radix: nat)
    requires radix >= 2
    ensures n / radix * radix <= n < n / radix * radix + radix
    ensures n > 0 ==> n / radix < n
  {
    var q := n / radix;
    Monotone(2, radix, q);
  }

  lemma Monotone(a: nat, b: nat, c: nat)
    requires a <= b
    ensures a * c <= b * c && c * a <= c * b
  {
    assert (b - a) * c >= 0;
    assert (b - a) * c == b * c - a * c;
  }

  lemma Distribute(a: nat, b: nat, c: nat)
    ensures (a + b) * c == a * c + b * c
  {
  }

  lemma Associate(a: nat, b: nat, c: nat)
    ensures (a * b) * c == a * (c * b)
  {
  }

  function Rem(n: nat, radix: nat): (r: nat)
    requires radix >= 2
    ensures r < radix
  {
    n % radix
  }

  lemma QuotRem(n: nat, radix: nat)
    requires radix >= 2
    ensures n == Quot(n, radix) * radix + Rem(n, radix)
  {
  }

  // ---------------------------------------------------------------------------------------------
  // Writing
  // ---------------------------------------------------------------------------------------------

  /** The digits of n, the most significant first. */
  function Text(n: nat, radix: nat): seq<nat>
    requires 2 <= radix <= MAX_RADIX
  {
    if n < radix then [CharOf(n)] else Text(Quot(n, radix), radix) + [CharOf(Rem(n, radix))]
  }

  lemma Halved(n: nat, radix: nat)
    requires radix >= 2
    ensures 2 * Quot(n, radix) <= n
  {
    QuotientBounds(n, radix);
    Monotone(2, radix, n / radix);
  }

  /** A number below 2^k has at most k digits, so 64-bit ones fit in the buffer. */
  lemma {:induction false} TextLength(n: nat, radix: nat, k: nat)
    requires 2 <= radix <= MAX_RADIX && n < Power2(k)
    ensures 1 <= |Text(n, radix)| && (k > 0 ==> |Text(n, radix)| <= k) && (k == 0 ==> |Text(n, radix)| == 1)
  {
    if n >= radix && k > 0 {
      Halved(n, radix);
      TextLength(Quot(n, radix), radix, k - 1);
    }
  }

  /** The loop of COMMON_INTEGER_FORMAT without grouping, which fills the buffer from its end. */
  method FormatDigits(input: nat, radix: nat) returns (text: seq<nat>)
    requires input < WORD64 && 2 <= radix <= MAX_RADIX
    ensures text == Text(input, radix)
  {
    assert Unwritten(0, radix) == [] && (input > 0 ==> Unwritten(input, radix) == Text(input, radix));
    hide Quot, Rem, Text, Power2, CharOf, Unwritten;
    var tempBuffer := new nat[BUFFER_SIZE];
    var temp := BUFFER_SIZE - 1;
    var tempCount := 0;
    assert Power2(64) == WORD64 by { Power2Sum(32, 32); Power2Values(); }
    TextLength(input, radix, 64);
    if input != 0 {
      var n: nat := input;
      while n != 0
        invariant n <= input && 0 <= temp < BUFFER_SIZE && tempCount == BUFFER_SIZE - 1 - temp
        invariant Text(input, radix) == Unwritten(n, radix) + tempBuffer[temp + 1..]
      {
        Shorter(n, radix);
        var r := Rem(n, radix);
        ghost var written := tempBuffer[temp + 1..];
        assert |Text(input, radix)| == |Unwritten(n, radix)| + |written|;
        MoveDigit(Unwritten(Quot(n, radix), radix), CharOf(r), written);
        tempBuffer[temp] := CharOf(r);
        assert tempBuffer[temp..] == [CharOf(r)] + written;
        n := Quot(n, radix);
        temp := temp - 1;
        tempCount := tempCount + 1;
      }
    } else {
      TextOfZero(radix);
      tempBuffer[temp] := 48;
      temp := temp - 1;
      tempCount := tempCount + 1;
    }
    temp := temp + 1;
    text := tempBuffer[temp..];
  }

  lemma MoveDigit(a: seq<nat>, c: nat, b: seq<nat>)
    ensures (a + [c]) + b == a + ([c] + b)
  {
  }

  /** The digits still to be written. */
  function Unwritten(n: nat, radix: nat): seq<nat>
    requires 2 <= radix <= MAX_RADIX
  {
    if n == 0 then [] else Text(n, radix)
  }

  lemma Shorter(n: nat, radix: nat)
    requires 2 <= radix <= MAX_RADIX && n > 0
    ensures Unwritten(n, radix) == Unwritten(Quot(n, radix), radix) + [CharOf(Rem(n, radix))]
  {
    if n < radix {
      SmallNumber(n, radix);
    } else {
      assert Quot(n, radix) * radix + Rem(n, radix) == n;
    }
  }

  lemma TextOfZero(radix: nat)
    requires 2 <= radix <= MAX_RADIX
    ensures Text(0, radix) == [48]
  {
  }

  lemma SmallNumber(n: nat, radix: nat)
    requires 2 <= radix && n < radix
    ensures Quot(n, radix) == 0 && Rem(n, radix) == n
  {
    var q := Quot(n, radix);
    assert q >= 1 ==> q * radix >= radix;
  }

  /** PhIntegerToString64 for the 64 bits of an integer. */
  function Negative(bits: nat, signed: bool): bool { signed && bits >= HALF64 }

  function WrittenText(bits: nat, radix: nat, signed: bool): seq<nat>
    requires bits < WORD64 && 2 <= radix <= MAX_RADIX
  {
    if Negative(bits, signed) then [MINUS] + Text(WORD64 - bits, radix) else Text(bits, radix)
  }

  method IntegerToString(bits: nat, base: nat, signed: bool) returns (text: seq<nat>, ok: bool)
    requires bits < WORD64
    ensures ok <==> base != 1 && base <= MAX_RADIX
    ensures ok ==> text == WrittenText(bits, if base == 0 then 10 else base, signed)
  {
    if base == 1 || base > MAX_RADIX {
      return [], false;
    }
    var radix := if base == 0 then 10 else base;
    var input := bits;
    if Negative(bits, signed) {
      input := WORD64 - bits;
    }
    text := FormatDigits(input, radix);
    if Negative(bits, signed) {
      text := [MINUS] + text;
    }
    ok := true;
  }

  // ---------------------------------------------------------------------------------------------
  // Reading
  // ---------------------------------------------------------------------------------------------

  /** A character is looked up by its low byte. */
  function Digit(c: nat): nat { DigitOf(c % 0x100) }

  predicate AllDigits(s: seq<nat>, base: nat) {
    forall i :: 0 <= i < |s| ==> Digit(s[i]) < base
  }

  /** result * Base + value in 64 bits. */
  function Extend(v: nat, base: nat, d: nat): (r: nat)
    ensures r < WORD64
  {
    (v * base + d) % WORD64
  }

  /** The value of the digits in s, modulo 2^64; other characters are passed over. */
  function Value(s: seq<nat>, base: nat): (v: nat)
    ensures v < WORD64
  {
    if s == [] then 0
    else
      var d, before := Digit(s[|s| - 1]), Value(s[..|s| - 1], base);
      if d < base then Extend(before, base, d) else before
  }

  /** PhpStringToInteger64 */
  method ReadDigits(s: seq<nat>, base: nat) returns (valid: bool, result: nat)
    ensures valid <==> AllDigits(s, base)
    ensures result == Value(s, base)
  {
    valid, result := true, 0;
    var i := 0;
    while i < |s|
      invariant 0 <= i <= |s| && result == Value(s[..i], base)
      invariant valid <==> AllDigits(s[..i], base)
    {
      var value := Digit(s[i]);
      assert s[..i + 1][..i] == s[..i];
      assert AllDigits(s[..i + 1], base) <==> AllDigits(s[..i], base) && value < base;
      if value < base {
        result := Extend(result, base, value);
      } else {
        valid := false;
      }
      i := i + 1;
    }
    assert s[..i] == s;
  }

  predicate Signed(s: seq<nat>) { s != [] && (s[0] == MINUS || s[0] == PLUS) }

  function Unsigned(s: seq<nat>): seq<nat> { if Signed(s) then s[1..] else s }

  /** The base that a prefix names; the default is 10. */
  function Prefix(s: seq<nat>): nat {
    if |s| < 2 || s[0] != 48 then 10
    else if s[1] == 120 || s[1] == 88 then 16   // 'x'
    else if s[1] == 111 || s[1] == 79 then 8    // 'o'
    else if s[1] == 98 || s[1] == 66 then 2     // 'b'
    else if s[1] == 116 || s[1] == 84 then 3    // 't'
    else if s[1] == 113 || s[1] == 81 then 4    // 'q'
    else if s[1] == 119 || s[1] == 87 then 12   // 'w'
    else if s[1] == 114 || s[1] == 82 then 32   // 'r'
    else 10
  }

  /** What is read as digits, and in which base. */
  function Body(s: seq<nat>, base: nat): (seq<nat>, nat) {
    var u := Unsigned(s);
    if base != 0 then (u, base)
    else if Prefix(u) != 10 then (u[2..], Prefix(u))
    else (u, 10)
  }

  function ReadBits(s: seq<nat>, base: nat): nat {
    var (digits, radix) := Body(s, base);
    var v := Value(digits, radix);
    if s != [] && s[0] == MINUS then (WORD64 - v) % WORD64 else v
  }

  predicate ReadsAll(s: seq<nat>, base: nat) {
    var (digits, radix) := Body(s, base);
    base <= MAX_RADIX && AllDigits(digits, radix)
  }

  /** PhStringToInteger64 */
  method StringToInteger(s: seq<nat>, base: nat) returns (valid: bool, bits: nat)
    ensures valid <==> ReadsAll(s, base)
    ensures base <= MAX_RADIX ==> bits == ReadBits(s, base)
  {
    if base > MAX_RADIX {
      return false, 0;
    }
    var digits, negative := s, false;
    if |digits| != 0 && (digits[0] == MINUS || digits[0] == PLUS) {
      if digits[0] == MINUS {
        negative := true;
      }
      digits := digits[1..];
    }
    var radix := base;
    if base == 0 {
      radix := Prefix(digits);
      if radix != 10 {
        digits := digits[2..];
      }
    }
    var result;
    valid, result := ReadDigits(digits, radix);
    bits := if negative then (WORD64 - result) % WORD64 else result;
  }

  // ---------------------------------------------------------------------------------------------
  // Reading what has been written
  // ---------------------------------------------------------------------------------------------

  function Lead(n: nat, radix: nat): nat
    requires radix >= 2
  {
    if n < radix then n else Lead(Quot(n, radix), radix)
  }

  /** The value of all digits but the first. */
  function Tail(n: nat, radix: nat): nat
    requires radix >= 2
  {
    if n < radix then 0 else Tail(Quot(n, radix), radix) * radix + Rem(n, radix)
  }

  function Pow(b: nat, k: nat): nat {
    if k == 0 then 1 else b * Pow(b, k - 1)
  }

  lemma {:induction false} LeadAndTail(n: nat, radix: nat)
    requires 2 <= radix <= MAX_RADIX
    ensures |Text(n, radix)| >= 1 && Lead(n, radix) < radix && Text(n, radix)[0] == CharOf(Lead(n, radix))
    ensures var p := Pow(radix, |Text(n, radix)| - 1); n == Lead(n, radix) * p + Tail(n, radix) && Tail(n, radix) < p
  {
    if n >= radix {
      var q, r := Quot(n, radix), Rem(n, radix);
      MoreDigits(n, radix);
      hide Quot, Rem;
      LeadAndTail(q, radix);
      var k := |Text(q, radix)| - 1;
      Scaled(q, Lead(q, radix), Pow(radix, k), Tail(q, radix), radix, r);
    }
  }

  lemma FirstDigit(n: nat, radix: nat)
    requires 2 <= radix <= MAX_RADIX
    ensures |Text(n, radix)| >= 1 && Lead(n, radix) < radix && Text(n, radix)[0] == CharOf(Lead(n, radix))
  {
    LeadAndTail(n, radix);
  }

  lemma Scaled(q: nat, d: nat, p: nat, t: nat, radix: nat, r: nat)
    requires q == d * p + t && t < p && r < radix
    ensures q * radix + r == d * (radix * p) + (t * radix + r) && t * radix + r < radix * p
  {
    Distribute(d * p, t, radix);
    Associate(d, p, radix);
    Monotone(t + 1, p, radix);
    Distribute(t, 1, radix);
    Distribute(0, p, radix);
  }

  lemma DigitRead(d: nat)
    requires d < MAX_RADIX
    ensures Digit(CharOf(d)) == d
  {
    DigitOfChar(d);
  }

  /** One more digit. */
  lemma ValueSnoc(s: seq<nat>, d: nat, base: nat)
    requires d < base <= MAX_RADIX
    ensures Value(s + [CharOf(d)], base) == Extend(Value(s, base), base, d)
    ensures AllDigits(s + [CharOf(d)], base) <==> AllDigits(s, base)
  {
    DigitRead(d);
    hide CharOf, Digit, Extend;
    var t := s + [CharOf(d)];
    assert t[..|t| - 1] == s;
    assert forall i :: 0 <= i < |s| ==> t[i] == s[i];
  }

  /** The digits written are read back, with or without the first. */
  lemma {:induction false} ReadText(n: nat, radix: nat)
    requires 2 <= radix <= MAX_RADIX && n < WORD64
    ensures |Text(n, radix)| >= 1
    ensures Value(Text(n, radix), radix) == n && AllDigits(Text(n, radix), radix)
    ensures Value(Text(n, radix)[1..], radix) == Tail(n, radix) && AllDigits(Text(n, radix)[1..], radix)
  {
    if n < radix {
      ReadOneDigit(n, radix);
    } else {
      ReadText(Quot(n, radix), radix);
      ReadMoreDigits(n, radix);
    }
  }

  lemma ReadMoreDigits(n: nat, radix: nat)
    requires 2 <= radix <= MAX_RADIX && radix <= n < WORD64
    requires var q := Quot(n, radix); var s := Text(q, radix);
      && |s| >= 1 && Value(s, radix) == q && AllDigits(s, radix)
      && Value(s[1..], radix) == Tail(q, radix) && AllDigits(s[1..], radix)
    ensures |Text(n, radix)| >= 1
    ensures Value(Text(n, radix), radix) == n && AllDigits(Text(n, radix), radix)
    ensures Value(Text(n, radix)[1..], radix) == Tail(n, radix) && AllDigits(Text(n, radix)[1..], radix)
  {
    var q, r := Quot(n, radix), Rem(n, radix);
    var s := Text(q, radix);
    MoreDigits(n, radix);
    TailSmaller(n, radix);
    Extended(q, radix, r);
    Extended(Tail(q, radix), radix, r);
    hide Text, Tail, Value, AllDigits, Quot, CharOf, Extend;
    ValueSnoc(s, r, radix);
    ValueSnoc(s[1..], r, radix);
    assert (s + [CharOf(r)])[1..] == s[1..] + [CharOf(r)];
  }

  lemma MoreDigits(n: nat, radix: nat)
    requires 2 <= radix <= MAX_RADIX && n >= radix
    ensures Text(n, radix) == Text(Quot(n, radix), radix) + [CharOf(Rem(n, radix))]
    ensures Tail(n, radix) == Tail(Quot(n, radix), radix) * radix + Rem(n, radix)
    ensures n == Quot(n, radix) * radix + Rem(n, radix)
  {
    QuotRem(n, radix);
    hide Quot, Rem;
  }

  lemma Extended(v: nat, base: nat, d: nat)
    ensures v * base + d < WORD64 ==> Extend(v, base, d) == v * base + d
  {
  }

  lemma ReadOneDigit(d: nat, radix: nat)
    requires 2 <= radix <= MAX_RADIX && d < radix
    ensures |Text(d, radix)| >= 1
    ensures Value(Text(d, radix), radix) == d && AllDigits(Text(d, radix), radix)
    ensures Value(Text(d, radix)[1..], radix) == Tail(d, radix) && AllDigits(Text(d, radix)[1..], radix)
  {
    assert Text(d, radix) == [CharOf(d)] && Tail(d, radix) == 0;
    assert Value([], radix) == 0 && AllDigits([], radix);
    Extended(0, radix, d);
    hide Text, Tail, Value, AllDigits, CharOf, Extend;
    ValueSnoc([], d, radix);
    assert [] + [CharOf(d)] == [CharOf(d)];
  }

  lemma TailSmaller(n: nat, radix: nat)
    requires 2 <= radix <= MAX_RADIX
    ensures Tail(n, radix) <= n && (Lead(n, radix) > 0 ==> Tail(n, radix) < n)
  {
    LeadAndTail(n, radix);
    hide Tail, Lead, Pow, Text;
    Smaller(n, Lead(n, radix), Pow(radix, |Text(n, radix)| - 1), Tail(n, radix));
  }

  lemma Smaller(n: nat, d: nat, p: nat, t: nat)
    requires n == d * p + t && t < p
    ensures t <= n && (d > 0 ==> t < n)
  {
  }

  // ---------------------------------------------------------------------------------------------
  // Numbers that begin with the digit '-'
  // ---------------------------------------------------------------------------------------------

  lemma {:induction false} PowMonotone(b: nat, j: nat, k: nat)
    requires b >= 1 && j <= k
    ensures 1 <= Pow(b, j) <= Pow(b, k)
    decreases k
  {
    if j < k {
      PowMonotone(b, j, k - 1);
      assert (b - 1) * Pow(b, k - 1) >= 0;
    } else if k > 0 {
      PowMonotone(b, k - 1, k - 1);
      assert b * Pow(b, k - 1) >= 1;
    }
  }

  lemma {:induction false} PowOdd(b: nat, k: nat)
    requires b % 2 == 1
    ensures Pow(b, k) % 2 == 1
  {
    if k > 0 {
      PowOdd(b, k - 1);
      OddTimesOdd(b, Pow(b, k - 1));
    }
  }

  lemma OddTimesOdd(a: nat, b: nat)
    requires a % 2 == 1 && b % 2 == 1
    ensures a * b % 2 == 1
  {
    var x, y := a / 2, b / 2;
    assert a * b == 2 * (2 * x * y + x + y) + 1;
  }

  /** The powers of the even radices around 2^64 / 50. */
  lemma EvenRadix(b: nat) returns (m: nat)
    requires 50 <= b < MAX_RADIX && b % 2 == 0
    ensures 51 * Pow(b, m) <= WORD64 < 49 * Pow(b, m + 1)
  {
    if b < 58 {
      SmallEvenRadix(b);
      m := 10;
    } else {
      LargeEvenRadix(b);
      m := 9;
    }
  }

  lemma Cubed(b: nat, k: nat)
    ensures Pow(b, k + 1) == b * Pow(b, k) && Pow(b, k + 3) == b * (b * (b * Pow(b, k)))
  {
    assert Pow(b, k + 2) == b * Pow(b, k + 1);
    assert Pow(b, k + 3) == b * Pow(b, k + 2);
  }

  /** The ninth to the eleventh power. */
  lemma HighPowers(b: nat)
    ensures var c := b * (b * b); var n := b * (b * (b * (b * (b * (b * c)))));
      Pow(b, 9) == n && Pow(b, 10) == b * n && Pow(b, 11) == b * (b * n)
  {
    assert Pow(b, 0) == 1;
    Cubed(b, 0);
    Cubed(b, 3);
    Cubed(b, 6);
    Cubed(b, 9);
    Cubed(b, 10);
  }

  lemma SmallEvenRadix(b: nat)
    requires 50 <= b < 58 && b % 2 == 0
    ensures 51 * Pow(b, 10) <= WORD64 < 49 * Pow(b, 11)
  {
    HighPowers(b);
    hide Pow;
    match b
    case 50 =>
    case 52 =>
    case 54 =>
    case 56 =>
  }

  lemma LargeEvenRadix(b: nat)
    requires 58 <= b < MAX_RADIX && b % 2 == 0
    ensures 51 * Pow(b, 9) <= WORD64 < 49 * Pow(b, 10)
  {
    HighPowers(b);
    hide Pow;
    match b
    case 58 =>
    case 60 =>
    case 62 =>
    case 64 =>
    case 66 =>
    case 68 =>
  }

  /** No number with leading digit 49 is congruent, modulo 2^64, to minus what follows that digit. */
  lemma NoCoincidence(b: nat, k: nat, t: nat)
    requires 50 <= b <= MAX_RADIX && t < Pow(b, k)
    ensures 49 * Pow(b, k) + 2 * t != WORD64
  {
    if b % 2 == 1 {
      PowOdd(b, k);
    } else {
      var m := EvenRadix(b);
      if k <= m {
        PowMonotone(b, k, m);
      } else {
        PowMonotone(b, m + 1, k);
      }
    }
  }

  /** Reading undoes writing, in every radix, for signed and for unsigned integers, if and only if the
      number is negative or its leading digit is neither 47, written '+', nor 49, written '-'. */
  lemma RoundTrip(bits: nat, radix: nat, signed: bool)
    requires bits < WORD64 && 2 <= radix <= MAX_RADIX
    ensures ReadsAll(WrittenText(bits, radix, signed), radix)
    ensures ReadBits(WrittenText(bits, radix, signed), radix) == bits
      <==> Negative(bits, signed) || (Lead(bits, radix) != 47 && Lead(bits, radix) != 49)
  {
    if Negative(bits, signed) {
      NegativeRoundTrip(bits, radix, signed);
    } else {
      FirstDigit(bits, radix);
      PositiveRoundTrip(bits, radix);
    }
  }

  lemma PositiveRoundTrip(bits: nat, radix: nat)
    requires bits < WORD64 && 2 <= radix <= MAX_RADIX && Lead(bits, radix) < radix
    ensures ReadsAll(Text(bits, radix), radix)
    ensures ReadBits(Text(bits, radix), radix) == bits <==> Lead(bits, radix) != 47 && Lead(bits, radix) != 49
  {
    DigitOfChar(Lead(bits, radix));
    ReadText(bits, radix);
    FirstDigit(bits, radix);
    TailSmaller(bits, radix);
    hide CharOf, Value, AllDigits, Pow, Text, Tail, Lead, ReadBits, ReadsAll;
    if Lead(bits, radix) == 49 {
      NotMinus(bits, radix);
    }
    SignRead(Text(bits, radix), radix);
  }

  lemma NotMinus(n: nat, radix: nat)
    requires n < WORD64 && 2 <= radix <= MAX_RADIX && Lead(n, radix) == 49 < radix
    ensures (WORD64 - Tail(n, radix)) % WORD64 != n
  {
    LeadAndTail(n, radix);
    TailSmaller(n, radix);
    hide Text, Tail, Lead, Pow;
    NoCoincidence(radix, |Text(n, radix)| - 1, Tail(n, radix));
  }

  lemma SignRead(s: seq<nat>, radix: nat)
    requires s != [] && 2 <= radix <= MAX_RADIX
    ensures s[0] == MINUS ==>
      ReadBits(s, radix) == (WORD64 - Value(s[1..], radix)) % WORD64 && (ReadsAll(s, radix) <==> AllDigits(s[1..], radix))
    ensures s[0] == PLUS ==> ReadBits(s, radix) == Value(s[1..], radix) && (ReadsAll(s, radix) <==> AllDigits(s[1..], radix))
    ensures s[0] != MINUS && s[0] != PLUS ==> ReadBits(s, radix) == Value(s, radix) && (ReadsAll(s, radix) <==> AllDigits(s, radix))
  {
    hide Value, AllDigits;
  }

  lemma NegativeRoundTrip(bits: nat, radix: nat, signed: bool)
    requires bits < WORD64 && 2 <= radix <= MAX_RADIX && Negative(bits, signed)
    ensures ReadsAll(WrittenText(bits, radix, signed), radix) && ReadBits(WrittenText(bits, radix, signed), radix) == bits
  {
    var m := WORD64 - bits;
    hide Text, Value, AllDigits, ReadBits, ReadsAll;
    ReadText(m, radix);
    var s := [MINUS] + Text(m, radix);
    assert s[1..] == Text(m, radix);
    SignRead(s, radix);
    Negated(m);
  }

  lemma Negated(m: nat)
    requires 0 < m < WORD64
    ensures (WORD64 - m) % WORD64 == WORD64 - m
  {
  }

  /** 47 in radix 48 is written "+" and read as 0; 49 in radix 50 is written "-" and read as 0. */
  lemma RoundTripExample()
    ensures Text(47, 48) == [PLUS] && ReadBits(Text(47, 48), 48) == 0
    ensures Text(49, 50) == [MINUS] && ReadBits(Text(49, 50), 50) == 0
  {
    SignRead([PLUS], 48);
    SignRead([MINUS], 50);
    assert Value([], 48) == 0 && Value([], 50) == 0;
    assert [PLUS][1..] == [] && [MINUS][1..] == [];
  }
}
