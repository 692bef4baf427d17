/** SHA-1 by pieces: A_SHAInit, A_SHAUpdate and A_SHAFinal (phlib/sha.c). */
module Sha1Stream {
  import opened Sha1

  const WORD32: nat := 0x1_0000_0000
  const EIGHTH: nat := 0x2000_0000  // 2^29

  const H0: Registers := Registers(0x67452301, 0xEFCDAB89, 0x98BADCFE, 0x10325476, 0xC3D2E1F0)

  /** The hash value after all whole blocks of s. */
  function Blocks(h: Registers, s: seq<Byte>): Registers
    decreases |s|
  {
    if |s| < 64 then h else Blocks(Compress(h, Words(s[..64])), s[64..])
  }

  /** What the last, unfinished block holds. */
  function Remainder(s: seq<Byte>): (r: seq<Byte>)
    ensures |r| == |s| % 64
  {
    s[|s| - |s| % 64..]
  }

  lemma {:induction false} BlocksConcat(h: Registers, a: seq<Byte>, b: seq<Byte>)
    requires |a| % 64 == 0
    ensures Blocks(h, a + b) == Blocks(Blocks(h, a), b)
    decreases |a|
  {
    if |a| == 0 {
      assert a + b == b;
    } else {
      assert (a + b)[..64] == a[..64] && (a + b)[64..] == a[64..] + b;
      BlocksConcat(Compress(h, Words(a[..64])), a[64..], b);
    }
  }

  // ---------------------------------------------------------------------------------------------
  // Padding (section 5.1.1 of FIPS 180-4)
  // ---------------------------------------------------------------------------------------------

  function BytesOf(n: nat): seq<Byte>
    requires n < WORD32
  {
    [(n / 0x100_0000) as Byte, (n / 0x1_0000 % 0x100) as Byte, (n / 0x100 % 0x100) as Byte, (n % 0x100) as Byte]
  }

  /** The number of bytes from the end of the message to its length field. */
  function PadLength(n: nat): (pad: nat)
    ensures 1 <= pad <= 64 && (n + pad + 8) % 64 == 0
  {
    if n % 64 >= 56 then 56 + 64 - n % 64 else 56 - n % 64
  }

  function Padding(n: nat, hi: nat, lo: nat): (s: seq<Byte>)
    requires hi < WORD32 && lo < WORD32
    ensures |s| == PadLength(n) + 8
  {
    [0x80] + seq(PadLength(n) - 1, _ => 0) + BytesOf(hi) + BytesOf(lo)
  }

  /** The length of a message of n bytes in bits, as two words. */
  function BitsHi(n: nat): (r: nat)
    ensures r < WORD32
  {
    8 * n / WORD32 % WORD32
  }

  function BitsLo(n: nat): (r: nat)
    ensures r < WORD32
  {
    8 * n % WORD32
  }

  function ByteAt(w: Word, shift: nat): Byte
    requires shift <= 24
  {
    ((w >> shift) & 0xFF) as Byte
  }

  function WordBytes(w: Word): seq<Byte> {
    [ByteAt(w, 24), ByteAt(w, 16), ByteAt(w, 8), ByteAt(w, 0)]
  }

  function Digest(h: Registers): seq<Byte> {
    WordBytes(h.a) + WordBytes(h.b) + WordBytes(h.c) + WordBytes(h.d) + WordBytes(h.e)
  }

  /** SHA-1 of a message (section 6.1.2). */
  function Sha1Of(message: seq<Byte>): seq<Byte> {
    Digest(Blocks(H0, message + Padding(|message|, BitsHi(|message|), BitsLo(|message|))))
  }

  // ---------------------------------------------------------------------------------------------
  // The length field of the code
  // ---------------------------------------------------------------------------------------------

  /** LengthHi and LengthLo, from the counters. */
  function LengthHi(count0: nat, count1: nat): (r: nat)
    ensures r < WORD32
  {
    (count0 * 8 % WORD32 + count1 / EIGHTH) % WORD32
  }

  function LengthLo(count1: nat): (r: nat)
    ensures r < WORD32
  {
    count1 * 8 % WORD32
  }

  /** The counters after n bytes, with excess the sum of Length >> 29 over all updates. */
  ghost predicate Counts(count0: nat, count1: nat, n: nat, excess: nat) {
    count1 == n % WORD32 && count0 == (n / WORD32 + excess) % WORD32
  }

  lemma CountsMore(count0: nat, count1: nat, n: nat, excess: nat, length: nat)
    requires Counts(count0, count1, n, excess) && length < WORD32
    ensures var c1 := (count1 + length) % WORD32;
      Counts((count0 + (if c1 < length then 1 else 0) + length / EIGHTH) % WORD32, c1, n + length, excess + length / EIGHTH)
  {
    var c1 := (count1 + length) % WORD32;
    var carry := if c1 < length then 1 else 0;
    var q, more := n / WORD32, length / EIGHTH;
    assert count1 + length == carry * WORD32 + c1;
    Split(q + carry, c1);
    assert n + length == (q + carry) * WORD32 + c1;
    SameModulo((q + excess) / WORD32, count0 + carry + more);
    assert q + carry + excess + more == (q + excess) / WORD32 * WORD32 + (count0 + carry + more);
  }

  lemma EightTimes(x: nat)
    ensures 8 * x % WORD32 == 8 * (x % EIGHTH)
  {
    var q, r := x / EIGHTH, x % EIGHTH;
    assert x == q * EIGHTH + r;
    assert 8 * x == q * WORD32 + 8 * r;
  }

  lemma SameRemainder(q: nat, e: nat)
    ensures (q + e) % EIGHTH == q % EIGHTH <==> e % EIGHTH == 0
  {
    var a, b := q / EIGHTH, e / EIGHTH;
    assert q == a * EIGHTH + q % EIGHTH && e == b * EIGHTH + e % EIGHTH;
  }

  lemma HiOfCounts(a: nat, s: nat)
    requires s < 8
    ensures (a % WORD32 * 8 % WORD32 + s) % WORD32 == 8 * (a % EIGHTH) + s
  {
    var c := a % WORD32;
    assert a == a / WORD32 * WORD32 + c;
    EightTimes(c);
    assert c % EIGHTH == a % EIGHTH;
  }

  lemma HiOfBits(n: nat)
    ensures BitsHi(n) == 8 * (n / WORD32 % EIGHTH) + n % WORD32 / EIGHTH
  {
    var q, r := n / WORD32, n % WORD32;
    assert n == q * WORD32 + r;
    assert 8 * n / WORD32 == 8 * q + r / EIGHTH;
    EightTimes(q);
    assert 8 * q == 8 * q / WORD32 * WORD32 + 8 * (q % EIGHTH);
  }

  /** The length field is that of the standard if and only if the excess vanishes modulo 2^29: the code
      adds Length >> 29 to the upper counter of bytes, which would be right for a counter of bits. */
  lemma LengthField(count0: nat, count1: nat, n: nat, excess: nat)
    requires Counts(count0, count1, n, excess)
    ensures LengthLo(count1) == BitsLo(n)
    ensures LengthHi(count0, count1) == BitsHi(n) <==> excess % EIGHTH == 0
  {
    var q, s := n / WORD32, n % WORD32 / EIGHTH;
    LoOfBits(n);
    HiOfCounts(q + excess, s);
    HiOfBits(n);
    SameRemainder(q, excess);
    hide BitsHi, BitsLo;
  }

  lemma LoOfBits(n: nat)
    ensures n % WORD32 * 8 % WORD32 == 8 * n % WORD32
  {
    var q, r := n / WORD32, n % WORD32;
    assert 8 * n == 8 * q * WORD32 + r * 8;
    SameModulo(8 * q, r * 8);
  }

  lemma SameModulo(q: int, a: int)
    ensures (q * WORD32 + a) % WORD32 == a % WORD32
  {
  }

  lemma Split(q: int, r: int)
    requires 0 <= r < WORD32
    ensures (q * WORD32 + r) / WORD32 == q && (q * WORD32 + r) % WORD32 == r
  {
  }

  /** One update of 2^29 bytes is enough for a wrong length field. */
  lemma LengthFieldExample()
    ensures exists count0, count1 ::
      Counts(count0, count1, EIGHTH, EIGHTH / EIGHTH) && LengthHi(count0, count1) != BitsHi(EIGHTH)
  {
    assert Counts(1, EIGHTH, EIGHTH, 1);
    LengthField(1, EIGHTH, EIGHTH, 1);
  }

  // ---------------------------------------------------------------------------------------------
  // The context
  // ---------------------------------------------------------------------------------------------

  /** The state and the buffer after the message s. */
  ghost predicate Holds(state: Registers, content: seq<Byte>, s: seq<Byte>) {
    |content| == |s| % 64 && state == Blocks(H0, s) && content == Remainder(s)
  }

  /** A message is its whole blocks and a remainder that adds nothing to the hash value yet. */
  lemma Whole(s: seq<Byte>) returns (a: seq<Byte>)
    ensures |a| % 64 == 0 && s == a + Remainder(s) && Blocks(H0, s) == Blocks(H0, a)
  {
    a := s[..|s| - |s| % 64];
    assert s == a + Remainder(s);
    BlocksConcat(H0, a, Remainder(s));
    ShortBlocks(Blocks(H0, a), Remainder(s));
  }

  lemma RemainderIs(a: seq<Byte>, r: seq<Byte>)
    requires |a| % 64 == 0 && |r| < 64
    ensures Remainder(a + r) == r && |a + r| % 64 == |r| && Blocks(H0, a + r) == Blocks(H0, a)
  {
    assert |a + r| % 64 == |r|;
    BlocksConcat(H0, a, r);
    ShortBlocks(Blocks(H0, a), r);
  }

  /** More bytes: the content of the buffer and the input go through as many blocks as they fill. */
  lemma Extended(s: seq<Byte>, content: seq<Byte>, input: seq<Byte>, q: nat)
    requires content == Remainder(s) && q % 64 == 0
    requires q <= |content + input| < q + 64
    ensures Holds(Blocks(Blocks(H0, s), (content + input)[..q]), (content + input)[q..], s + input)
  {
    hide Blocks, Remainder;
    var a := Whole(s);
    var all := content + input;
    assert s + input == (a + all[..q]) + all[q..];
    BlocksConcat(H0, a, all[..q]);
    RemainderIs(a + all[..q], all[q..]);
  }

  lemma SplitAt(s: seq<Byte>, k: nat)
    requires k <= |s|
    ensures s == s[..k] + s[k..]
  {
  }

  lemma NothingBefore(a: seq<Byte>, b: seq<Byte>)
    requires |a| == 0
    ensures a + b == b
  {
  }

  lemma ContentOf(s: seq<Byte>, input: seq<Byte>, content: nat, q: nat)
    requires content == |s| % 64 && q % 64 == 0 && q <= content + |input| < q + 64
    ensures |s + input| % 64 == content + |input| - q
  {
    var a, b, k := |s| / 64, q / 64, content + |input| - q;
    assert |s + input| == (a + b) * 64 + k;
  }

  lemma ShortBlocks(h: Registers, s: seq<Byte>)
    requires |s| < 64
    ensures Blocks(h, s) == h
  {
  }

  lemma OneBlock(h: Registers, s: seq<Byte>, block: seq<Byte>)
    requires |s| % 64 == 0 && |block| == 64
    ensures Blocks(h, s + block) == Compress(Blocks(h, s), Words(block))
  {
    BlocksConcat(h, s, block);
    assert block[..64] == block && block[64..] == [];
  }

  lemma ReducedTwice(a: nat, carry: nat, x: nat)
    ensures ((a + carry) % WORD32 + x) % WORD32 == (a + carry + x) % WORD32
  {
  }

  lemma BelowWord(count0: nat, count1: nat, n: nat, excess: nat)
    requires Counts(count0, count1, n, excess)
    ensures count0 < WORD32 && count1 < WORD32
  {
  }

  lemma NextBlock(all: seq<Byte>, q: nat, content: seq<Byte>, rest: seq<Byte>)
    requires q <= |all| && all[q..] == content + rest && |content| < 64 <= |content| + |rest|
    ensures q + 64 <= |all| && all[..q + 64] == all[..q] + (content + rest[..64 - |content|])
    ensures all[q + 64..] == rest[64 - |content|..]
  {
    assert all[q..][..64] == content + rest[..64 - |content|];
    assert all[q + 64..] == all[q..][64..];
  }

  lemma ContentSize(count0: nat, count1: nat, n: nat, excess: nat)
    requires Counts(count0, count1, n, excess)
    ensures count1 % 64 == n % 64
  {
    var q, r := n / WORD32, n % WORD32;
    assert n == 64 * (q * 0x400_0000) + r;
  }

  /** phlib/sha.c:119: whether the branch taken copies no more than the buffer holds. */
  predicate Fits(content: nat, length: nat) {
    (content + length) % WORD32 >= 64 || content + length < 64
  }

  lemma CopyFits(content: nat, length: nat)
    requires content < 64 && length < WORD32
    ensures Fits(content, length) <==> content + length < WORD32
  {
  }

  class Context {
    var state: Registers
    var count0: nat
    var count1: nat
    const buffer: array<Byte>
    ghost var message: seq<Byte>   // what has been hashed since A_SHAInit
    ghost var excess: nat          // the sum of Length >> 29

    ghost predicate Valid()
      reads this, buffer
    {
      && buffer.Length == 64
      && Counts(count0, count1, |message|, excess)
      && Holds(state, buffer[..|message| % 64], message)
    }

    constructor ()
      ensures Valid() && message == [] && excess == 0 && fresh(buffer)
    {
      buffer := new Byte[64];
      state, count0, count1 := H0, 0, 0;
      message, excess := [], 0;
    }

    /** A_SHAInit */
    method Init()
      requires buffer.Length == 64
      modifies this
      ensures Valid() && message == [] && excess == 0
    {
      state, count0, count1 := H0, 0, 0;
      message, excess := [], 0;
    }

    /** RtlCopyMemory(&buffer[at], Input, Length) */
    method Copy(at: nat, input: seq<Byte>)
      requires buffer.Length == 64 && at + |input| <= 64
      modifies buffer
      ensures buffer[..at] == old(buffer[..at]) && buffer[at..at + |input|] == input
      ensures buffer[..at + |input|] == old(buffer[..at]) + input
    {
      forall i | at <= i < at + |input| {
        buffer[i] := input[i - at];
      }
    }

    /** The counters of A_SHAUpdate. */
    method AddCount(length: nat)
      requires Counts(count0, count1, |message|, excess) && length < WORD32
      modifies this`count0, this`count1
      ensures Counts(count0, count1, |message| + length, excess + length / EIGHTH)
    {
      CountsMore(count0, count1, |message|, excess, length);
      BelowWord(count0, count1, |message|, excess);
      hide Counts;
      count1 := (count1 + length) % WORD32;
      if count1 < length {
        count0 := (count0 + 1) % WORD32;
      }
      count0 := (count0 + length / EIGHTH) % WORD32;
      ReducedTwice(old(count0), if count1 < length then 1 else 0, length / EIGHTH);
    }

    /** A_SHAUpdate. The sum of the buffer's content and Length is a 32-bit one; if it wraps, everything
        is copied behind the content, for which the buffer is too short. */
    method Update(input: seq<Byte>) returns (fits: bool)
      requires Valid() && |input| < WORD32
      modifies this, buffer
      ensures fits <==> old(|message| % 64) + |input| < WORD32
      ensures fits ==> Valid() && message == old(message) + input && excess == old(excess) + |input| / EIGHTH
    {
      ContentSize(count0, count1, |message|, excess);
      CopyFits(|message| % 64, |input|);
      hide Counts, Holds, Fits;
      var content := count1 % 64;
      AddCount(|input|);
      fits := Fits(content, |input|);
      if !fits {
        return;
      }
      Absorb(input, content);
      message := message + input;
      excess := excess + |input| / EIGHTH;
    }

    /** One round of the loop of A_SHAUpdate: the buffer is filled up and transformed. */
    method AbsorbBlock(content: nat, input: seq<Byte>, ghost rest: seq<Byte>, ghost all: seq<Byte>, ghost q: nat)
      requires buffer.Length == 64 && content + |input| == 64 && content < 64 && q % 64 == 0 && q <= |all|
      requires all[q..] == buffer[..content] + (input + rest)
      requires state == Blocks(Blocks(H0, message), all[..q])
      modifies this`state, buffer
      ensures q + 64 <= |all| && all[q + 64..] == rest
      ensures state == Blocks(Blocks(H0, message), all[..q + 64])
    {
      hide Blocks, Compress, Words;
      NextBlock(all, q, buffer[..content], input + rest);
      assert (input + rest)[..64 - content] == input && (input + rest)[64 - content..] == rest;
      Copy(content, input);
      assert buffer[..64] == buffer[..];
      OneBlock(Blocks(H0, message), all[..q], buffer[..]);
      state := Transform(state, buffer[..]);
    }

    /** The loop of A_SHAUpdate: whole blocks are hashed and the rest is kept. */
    method AbsorbBlocks(input: seq<Byte>, content0: nat) returns (ghost q: nat)
      requires buffer.Length == 64 && content0 < 64 && content0 + |input| >= 64
      requires state == Blocks(H0, message)
      modifies this`state, buffer
      ensures var all := old(buffer[..content0]) + input;
        && q % 64 == 0 && q <= |all| < q + 64
        && state == Blocks(Blocks(H0, message), all[..q]) && buffer[..|all| - q] == all[q..]
    {
      hide Blocks;
      var content, rest := content0, input;
      ghost var all := buffer[..content] + input;
      q := 0;
      ShortBlocks(Blocks(H0, message), all[..q]);
      while content + |rest| >= 64
        invariant q % 64 == 0 && q <= |all| && content < 64 && (q > 0 ==> content == 0)
        invariant q == 0 ==> content + |rest| >= 64
        invariant all[q..] == buffer[..content] + rest
        invariant state == Blocks(Blocks(H0, message), all[..q])
        decreases |rest|
      {
        var k := 64 - content;
        SplitAt(rest, k);
        AbsorbBlock(content, rest[..k], rest[k..], all, q);
        rest := rest[k..];
        q := q + 64;
        content := 0;
        NothingBefore(buffer[..content], rest);
      }
      Copy(content, rest);
      assert |all[q..]| == |rest|;
    }

    /** The part of A_SHAUpdate that hashes. */
    method Absorb(input: seq<Byte>, content0: nat)
      requires buffer.Length == 64 && content0 == |message| % 64 && Holds(state, buffer[..content0], message)
      modifies this`state, buffer
      ensures Holds(state, buffer[..|message + input| % 64], message + input)
    {
      ghost var content, q := buffer[..content0], 0;
      assert content == Remainder(message) && state == Blocks(H0, message);
      hide Holds, Remainder, Blocks;
      if content0 + |input| < 64 {
        ShortBlocks(state, (content + input)[..0]);
        Copy(content0, input);
        assert (content + input)[0..] == content + input;
      } else {
        q := AbsorbBlocks(input, content0);
      }
      Extended(message, content, input, q);
      ContentOf(message, input, content0, q);
    }

    /** A_SHAFinal: the hash of the message with the padding of the standard, in which the length field
        comes from the counters; so it is SHA-1 if the excess vanishes modulo 2^29. */
    method Final() returns (hash: seq<Byte>)
      requires Valid()
      modifies this, buffer
      ensures Valid() && message == [] && excess == 0
      ensures hash == Digest(Blocks(H0,
        old(message) + Padding(|old(message)|, LengthHi(old(count0), old(count1)), LengthLo(old(count1)))))
      ensures old(excess) % EIGHTH == 0 ==> hash == Sha1Of(old(message))
    {
      ContentSize(count0, count1, |message|, excess);
      LengthField(count0, count1, |message|, excess);
      hide Blocks, LengthHi, LengthLo, BitsHi, BitsLo, Counts, Padding, Remainder;
      var content := count1 % 64;
      var hi, lo := LengthHi(count0, count1), LengthLo(count1);
      ghost var before := message;
      var fits := Update(Padding(content, hi, lo));
      SamePadding(content, |before|, hi, lo);
      hash := Digest(state);
      Init();
    }
  }

  lemma SamePadding(m: nat, n: nat, hi: nat, lo: nat)
    requires m == n % 64 && hi < WORD32 && lo < WORD32
    ensures Padding(m, hi, lo) == Padding(n, hi, lo)
  {
    assert m % 64 == n % 64;
  }

  function Concat(pieces: seq<seq<Byte>>): seq<Byte> {
    if pieces == [] then [] else Concat(pieces[..|pieces| - 1]) + pieces[|pieces| - 1]
  }

  /** Any split of a message into updates shorter than 2^29 bytes gives the SHA-1 of the whole. */
  method HashPieces(pieces: seq<seq<Byte>>) returns (hash: seq<Byte>)
    requires forall i :: 0 <= i < |pieces| ==> |pieces[i]| < EIGHTH
    ensures hash == Sha1Of(Concat(pieces))
  {
    hide Blocks, Sha1Of;
    var context := new Context();
    var i := 0;
    while i < |pieces|
      invariant 0 <= i <= |pieces| && fresh(context) && fresh(context.buffer)
      invariant context.Valid() && context.excess == 0 && context.message == Concat(pieces[..i])
    {
      assert pieces[..i + 1][..i] == pieces[..i];
      var fits := context.Update(pieces[i]);
      i := i + 1;
    }
    assert pieces[..i] == pieces;
    hash := context.Final();
  }
}
