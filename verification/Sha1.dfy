/** SHA-1 as sections 4 to 6.1.2 of FIPS 180-4 define it, and the transformation of one block in
    phlib/sha.c: a schedule of 16 words overwritten in place, and rounds that rename the registers
    instead of moving them. */
module Sha1 {

  type Word = bv32
  type Byte = bv8

  function Rol(x: Word, n: nat): Word
    requires n <= 32
  {
    x.RotateLeft(n)
  }

  function F1(x: Word, y: Word, z: Word): Word { z ^ (x & (y ^ z)) }
  function F2(x: Word, y: Word, z: Word): Word { x ^ y ^ z }
  function F3(x: Word, y: Word, z: Word): Word { (x & y) | (z & (x | y)) }

  // ---------------------------------------------------------------------------------------------
  // The standard
  // ---------------------------------------------------------------------------------------------

  function Ch(x: Word, y: Word, z: Word): Word { (x & y) ^ (!x & z) }
  function Parity(x: Word, y: Word, z: Word): Word { x ^ y ^ z }
  function Maj(x: Word, y: Word, z: Word): Word { (x & y) ^ (x & z) ^ (y & z) }

  function F(t: nat, x: Word, y: Word, z: Word): Word {
    if t < 20 then Ch(x, y, z) else if t < 40 then Parity(x, y, z) else if t < 60 then Maj(x, y, z) else Parity(x, y, z)
  }

  function K(t: nat): Word {
    if t < 20 then 0x5A827999 else if t < 40 then 0x6ED9EBA1 else if t < 60 then 0x8F1BBCDC else 0xCA62C1D6
  }

  /** The message schedule (6.1.2, step 1). */
  function W(block: seq<Word>, t: nat): Word
    requires |block| == 16
  {
    if t < 16 then block[t]
    else Rol(W(block, t - 3) ^ W(block, t - 8) ^ W(block, t - 14) ^ W(block, t - 16), 1)
  }

  datatype Registers = Registers(a: Word, b: Word, c: Word, d: Word, e: Word)

  /** One round (6.1.2, step 3). */
  function Round(r: Registers, t: nat, w: Word): Registers {
    Registers(Temp(Rol(r.a, 5), F(t, r.b, r.c, r.d), r.e, K(t), w), r.a, Rol(r.b, 30), r.c, r.d)
  }

  function Temp(rotated: Word, f: Word, e: Word, k: Word, w: Word): Word { rotated + f + e + k + w }

  function Rounds(r: Registers, block: seq<Word>, t: nat): Registers
    requires |block| == 16
  {
    if t == 0 then r else Round(Rounds(r, block, t - 1), t - 1, W(block, t - 1))
  }

  function Sum(r: Registers, s: Registers): Registers {
    Registers(r.a + s.a, r.b + s.b, r.c + s.c, r.d + s.d, r.e + s.e)
  }

  /** The intermediate hash value after one more block (6.1.2, step 4). */
  function Compress(h: Registers, block: seq<Word>): Registers
    requires |block| == 16
  {
    Sum(h, Rounds(h, block, 80))
  }

  // ---------------------------------------------------------------------------------------------
  // The code's functions are those of the standard
  // ---------------------------------------------------------------------------------------------

  lemma ChIdentity(x: Word, y: Word, z: Word)
    ensures z ^ (x & (y ^ z)) == (x & y) ^ (!x & z)
  {
  }

  lemma MajIdentity(x: Word, y: Word, z: Word)
    ensures (x & y) | (z & (x | y)) == (x & y) ^ (x & z) ^ (y & z)
  {
  }

  lemma ChAgrees(x: Word, y: Word, z: Word)
    ensures F1(x, y, z) == Ch(x, y, z)
  {
    ChIdentity(x, y, z);
  }

  lemma ParityAgrees(x: Word, y: Word, z: Word)
    ensures F2(x, y, z) == Parity(x, y, z)
  {
  }

  lemma MajAgrees(x: Word, y: Word, z: Word)
    ensures F3(x, y, z) == Maj(x, y, z)
  {
    MajIdentity(x, y, z);
  }

  /** The choice and majority functions of the code are those of the standard. */
  lemma FunctionsAgree(x: Word, y: Word, z: Word)
    ensures F1(x, y, z) == Ch(x, y, z) && F2(x, y, z) == Parity(x, y, z) && F3(x, y, z) == Maj(x, y, z)
  {
    hide *;
    ChAgrees(x, y, z);
    ParityAgrees(x, y, z);
    MajAgrees(x, y, z);
  }

  function G(t: nat, x: Word, y: Word, z: Word): Word {
    if t < 20 then F1(x, y, z) else if t < 40 then F2(x, y, z) else if t < 60 then F3(x, y, z) else F2(x, y, z)
  }

  lemma SameFunction(t: nat, x: Word, y: Word, z: Word)
    ensures G(t, x, y, z) == F(t, x, y, z)
  {
    FunctionsAgree(x, y, z);
    hide F1, F2, F3, Ch, Parity, Maj;
  }

  /** What the macros R0 to R4 make of their last register. */
  function Mix(t: nat, v: Word, w: Word, x: Word, y: Word, z: Word, schedule: Word): Word {
    Added(z, G(t, w, x, y), schedule, K(t), Rol(v, 5))
  }

  function Added(z: Word, g: Word, schedule: Word, k: Word, rotated: Word): Word { z + (g + schedule + k + rotated) }

  lemma Reorder(a: Word, b: Word, c: Word, d: Word, e: Word)
    ensures e + (b + c + d + a) == a + b + e + d + c
  {
  }

  lemma AddedIsTemp(z: Word, g: Word, schedule: Word, k: Word, rotated: Word)
    ensures Added(z, g, schedule, k, rotated) == Temp(rotated, g, z, k, schedule)
  {
    Reorder(rotated, g, schedule, k, z);
  }

  /** A macro computes a round of the standard, but for the place of the registers. */
  lemma MixIsRound(t: nat, r: Registers, w: Word)
    ensures Round(r, t, w) == Registers(Mix(t, r.a, r.b, r.c, r.d, r.e, w), r.a, Rol(r.b, 30), r.c, r.d)
  {
    hide F, G, K, Rol, Added, Temp;
    SameFunction(t, r.b, r.c, r.d);
    AddedIsTemp(r.e, F(t, r.b, r.c, r.d), w, K(t), Rol(r.a, 5));
  }

  /** A word of a little-endian machine. */
  function LittleEndian(b0: Byte, b1: Byte, b2: Byte, b3: Byte): Word {
    (b0 as Word) | ((b1 as Word) << 8) | ((b2 as Word) << 16) | ((b3 as Word) << 24)
  }

  function BigEndian(b0: Byte, b1: Byte, b2: Byte, b3: Byte): Word {
    ((b0 as Word) << 24) | ((b1 as Word) << 16) | ((b2 as Word) << 8) | (b3 as Word)
  }

  /** The byte swap of blk0. */
  function Swap(x: Word): Word {
    (x.RotateLeft(24) & 0xFF00FF00) | (x.RotateLeft(8) & 0x00FF00FF)
  }

  lemma SwapIdentity(b0: Byte, b1: Byte, b2: Byte, b3: Byte, x: Word)
    requires x == (b0 as Word) | ((b1 as Word) << 8) | ((b2 as Word) << 16) | ((b3 as Word) << 24)
    ensures (x.RotateLeft(24) & 0xFF00FF00) | (x.RotateLeft(8) & 0x00FF00FF)
      == ((b0 as Word) << 24) | ((b1 as Word) << 16) | ((b2 as Word) << 8) | (b3 as Word)
  {
  }

  /** Swapped, the words of the block are big-endian, as the standard has them. */
  lemma SwapIsBigEndian(b0: Byte, b1: Byte, b2: Byte, b3: Byte)
    ensures Swap(LittleEndian(b0, b1, b2, b3)) == BigEndian(b0, b1, b2, b3)
  {
    SwapIdentity(b0, b1, b2, b3, LittleEndian(b0, b1, b2, b3));
  }

  // ---------------------------------------------------------------------------------------------
  // The transformation
  // ---------------------------------------------------------------------------------------------

  /** The block as the standard's sixteen words, and as the machine loads it. */
  function Words(bytes: seq<Byte>): (s: seq<Word>)
    requires |bytes| == 64
    ensures |s| == 16
  {
    seq(16, i requires 0 <= i < 16 => BigEndian(bytes[4 * i], bytes[4 * i + 1], bytes[4 * i + 2], bytes[4 * i + 3]))
  }

  function Loaded(bytes: seq<Byte>): (s: seq<Word>)
    requires |bytes| == 64
    ensures |s| == 16
  {
    seq(16, i requires 0 <= i < 16 => LittleEndian(bytes[4 * i], bytes[4 * i + 1], bytes[4 * i + 2], bytes[4 * i + 3]))
  }

  lemma LoadedSwapped(bytes: seq<Byte>, i: nat)
    requires |bytes| == 64 && i < 16
    ensures Swap(Loaded(bytes)[i]) == Words(bytes)[i]
  {
    SwapIsBigEndian(bytes[4 * i], bytes[4 * i + 1], bytes[4 * i + 2], bytes[4 * i + 3]);
  }

  /** The circular schedule holds the last sixteen words before t; behind, what has been loaded. */
  ghost predicate Scheduled(cur: seq<Word>, loaded: seq<Word>, block: seq<Word>, t: nat)
    requires |block| == 16
  {
    && |cur| == 16 == |loaded|
    && (forall k: nat :: t <= k + 16 && k < t ==> cur[k % 16] == W(block, k))
    && (forall j :: t <= j < 16 ==> cur[j] == loaded[j])
  }

  /** One word of the schedule: blk0 and blk1. */
  method Schedule(Block: array<Word>, ghost bytes: seq<Byte>, t: nat) returns (w: Word)
    requires Block.Length == 16 && |bytes| == 64 && Scheduled(Block[..], Loaded(bytes), Words(bytes), t)
    modifies Block
    ensures w == W(Words(bytes), t) && Scheduled(Block[..], Loaded(bytes), Words(bytes), t + 1)
  {
    hide W, Swap, Rol, Words, Loaded;
    ghost var before := Block[..];
    if t < 16 {
      w := Swap(Block[t]);
      LoadedSwapped(bytes, t);
      FirstWords(Words(bytes), t);
      Block[t] := w;
    } else {
      w := Rol(Block[(t + 13) % 16] ^ Block[(t + 8) % 16] ^ Block[(t + 2) % 16] ^ Block[t % 16], 1);
      NextWord(before, Loaded(bytes), Words(bytes), t);
      Block[t % 16] := w;
    }
    Turned(before, Loaded(bytes), Words(bytes), t, w);
    hide Scheduled;
    assert Block[..] == before[t % 16 := w];
  }

  lemma FirstWords(block: seq<Word>, t: nat)
    requires |block| == 16 && t < 16
    ensures W(block, t) == block[t]
  {
  }

  lemma LaterWords(block: seq<Word>, t: nat)
    requires |block| == 16 && t >= 16
    ensures W(block, t) == Rol(W(block, t - 3) ^ W(block, t - 8) ^ W(block, t - 14) ^ W(block, t - 16), 1)
  {
  }

  /** The four words the next one is made of are still there. */
  lemma NextWord(cur: seq<Word>, loaded: seq<Word>, block: seq<Word>, t: nat)
    requires |block| == 16 && t >= 16 && Scheduled(cur, loaded, block, t)
    ensures W(block, t) == Rol(cur[(t + 13) % 16] ^ cur[(t + 8) % 16] ^ cur[(t + 2) % 16] ^ cur[t % 16], 1)
  {
    LaterWords(block, t);
    Circular(t);
    hide W, Rol;
    assert cur[(t - 3) % 16] == W(block, t - 3);
    assert cur[(t - 8) % 16] == W(block, t - 8);
    assert cur[(t - 14) % 16] == W(block, t - 14);
    assert cur[(t - 16) % 16] == W(block, t - 16);
  }

  lemma Circular(t: nat)
    requires t >= 16
    ensures (t + 13) % 16 == (t - 3) % 16 && (t + 8) % 16 == (t - 8) % 16 && (t + 2) % 16 == (t - 14) % 16
    ensures t % 16 == (t - 16) % 16
  {
  }

  lemma Turned(cur: seq<Word>, loaded: seq<Word>, block: seq<Word>, t: nat, w: Word)
    requires |block| == 16 && Scheduled(cur, loaded, block, t) && w == W(block, t)
    ensures Scheduled(cur[t % 16 := w], loaded, block, t + 1)
  {
    hide W;
  }

  /** Five macros in a row leave every register where it was. */
  lemma FiveRounds(r: Registers, t: nat, w0: Word, w1: Word, w2: Word, w3: Word, w4: Word)
    ensures var e := Mix(t, r.a, r.b, r.c, r.d, r.e, w0);
      var b := Rol(r.b, 30);
      var d := Mix(t + 1, e, r.a, b, r.c, r.d, w1);
      var a := Rol(r.a, 30);
      var c := Mix(t + 2, d, e, a, b, r.c, w2);
      var e' := Rol(e, 30);
      var b' := Mix(t + 3, c, d, e', a, b, w3);
      var d' := Rol(d, 30);
      var a' := Mix(t + 4, b', c, d', e', a, w4);
      Registers(a', b', Rol(c, 30), d', e')
      == Round(Round(Round(Round(Round(r, t, w0), t + 1, w1), t + 2, w2), t + 3, w3), t + 4, w4)
  {
    hide Mix, Rol, Round;
    var r1 := Round(r, t, w0);
    MixIsRound(t, r, w0);
    var r2 := Round(r1, t + 1, w1);
    MixIsRound(t + 1, r1, w1);
    var r3 := Round(r2, t + 2, w2);
    MixIsRound(t + 2, r2, w2);
    var r4 := Round(r3, t + 3, w3);
    MixIsRound(t + 3, r3, w3);
    MixIsRound(t + 4, r4, w4);
  }

  lemma NextFive(r: Registers, block: seq<Word>, t: nat)
    requires |block| == 16
    ensures Rounds(r, block, t + 5)
      == Round(Round(Round(Round(Round(Rounds(r, block, t), t, W(block, t)), t + 1, W(block, t + 1)), t + 2, W(block, t + 2)),
               t + 3, W(block, t + 3)), t + 4, W(block, t + 4))
  {
    hide Round, W;
    assert Rounds(r, block, t + 2) == Round(Rounds(r, block, t + 1), t + 1, W(block, t + 1));
    assert Rounds(r, block, t + 3) == Round(Rounds(r, block, t + 2), t + 2, W(block, t + 2));
    assert Rounds(r, block, t + 4) == Round(Rounds(r, block, t + 3), t + 3, W(block, t + 3));
  }

  /** SHATransform; the eighty macros are written as sixteen groups of five. */
  method Transform(state: Registers, buffer: seq<Byte>) returns (r: Registers)
    requires |buffer| == 64
    ensures r == Compress(state, Words(buffer))
  {
    hide Mix, Rol, Round, Rounds, W, Words, Loaded, Sum;
    var words := Loaded(buffer);
    var Block := new Word[16](i requires 0 <= i < 16 => words[i]);
    assert Block[..] == words;
    ghost var block := Words(buffer);
    var a, b, c, d, e := state.a, state.b, state.c, state.d, state.e;
    assert Registers(a, b, c, d, e) == Rounds(state, block, 0) by { NoRounds(state, block); }
    assert Scheduled(Block[..], words, block, 0);
    hide Scheduled;
    var i := 0;
    while i < 80
      invariant 0 <= i <= 80 && i % 5 == 0
      invariant Registers(a, b, c, d, e) == Rounds(state, block, i)
      invariant Scheduled(Block[..], Loaded(buffer), block, i)
    {
      ghost var before := Registers(a, b, c, d, e);
      var w0 := Schedule(Block, buffer, i);
      e, b := Mix(i, a, b, c, d, e, w0), Rol(b, 30);
      var w1 := Schedule(Block, buffer, i + 1);
      d, a := Mix(i + 1, e, a, b, c, d, w1), Rol(a, 30);
      var w2 := Schedule(Block, buffer, i + 2);
      c, e := Mix(i + 2, d, e, a, b, c, w2), Rol(e, 30);
      var w3 := Schedule(Block, buffer, i + 3);
      b, d := Mix(i + 3, c, d, e, a, b, w3), Rol(d, 30);
      var w4 := Schedule(Block, buffer, i + 4);
      a, c := Mix(i + 4, b, c, d, e, a, w4), Rol(c, 30);
      FiveRounds(before, i, w0, w1, w2, w3, w4);
      NextFive(state, block, i);
      i := i + 5;
    }
    r := Sum(state, Registers(a, b, c, d, e));
  }

  lemma NoRounds(r: Registers, block: seq<Word>)
    requires |block| == 16
    ensures Rounds(r, block, 0) == r
  {
  }
}
