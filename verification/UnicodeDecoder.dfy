/** The incremental UTF-8 decoder (PH_UNICODE_DECODER, phlib/basesup.c). */
module UnicodeDecoder {
  import opened Unicode

  datatype Outcome = NeedMore | CodePoint(c: nat) | Raised

  const CAPACITY: nat := 4

  class Decoder {
    const input: array<nat>
    var inputCount: nat
    var state: nat
    var codeUnit1: nat
    var codeUnit2: nat
    var codeUnit3: nat
    var codeUnit4: nat

    /** The units of an unfinished sequence are such that more may complete it. */
    ghost predicate PendingFits()
      reads this
    {
      && state <= 6
      && (state == 1 ==> 0xc2 <= codeUnit1 < 0xe0)
      && (state == 2 || state == 4 ==> 0xe0 <= codeUnit1 < 0xf0)
      && (state == 3 || state == 5 || state == 6 ==> 0xf0 <= codeUnit1 < 0xf5)
      && (state == 4 ==> Second3(codeUnit1, codeUnit2))
      && (state == 5 || state == 6 ==> Second4(codeUnit1, codeUnit2))
      && (state == 6 ==> Continues(codeUnit3))
    }

    ghost predicate Buffered()
      reads this, input
    {
      input.Length == CAPACITY && inputCount <= CAPACITY && Bytes(input[..])
    }

    ghost predicate Valid()
      reads this, input
    {
      Buffered() && PendingFits()
    }

    ghost function Pending(): seq<nat>
      reads this
    {
      if state == 0 then []
      else if state <= 3 then [codeUnit1]
      else if state <= 5 then [codeUnit1, codeUnit2]
      else [codeUnit1, codeUnit2, codeUnit3]
    }

    ghost function Buffer(): seq<nat>
      requires Buffered()
      reads this, input
    {
      input[..inputCount]
    }

    /** All units that have been written and not yet turned into code points. */
    ghost function View(): seq<nat>
      requires Buffered()
      reads this, input
    {
      Pending() + Buffer()
    }

    /** PhInitializeUnicodeDecoder */
    constructor ()
      ensures Valid() && View() == [] && fresh(input)
    {
      input := new nat[CAPACITY](_ => 0);
      inputCount, state := 0, 0;
      codeUnit1, codeUnit2, codeUnit3, codeUnit4 := 0, 0, 0, 0;
    }

    /** PhWriteUnicodeDecoder */
    method Write(unit: nat) returns (ok: bool)
      requires Valid() && unit < 0x100
      modifies this`inputCount, input
      ensures Valid() && (ok <==> old(inputCount) < CAPACITY) && inputCount == old(inputCount) + (if ok then 1 else 0)
      ensures View() == if ok then old(View()) + [unit] else old(View())
    {
      if inputCount >= CAPACITY {
        return false;
      }
      input[inputCount] := unit;
      inputCount := inputCount + 1;
      ok := true;
    }

    /** PhpReadUnicodeDecoder */
    method Read() returns (ok: bool, unit: nat)
      requires Buffered()
      modifies this`inputCount, input
      ensures Buffered() && (ok <==> old(inputCount) > 0)
      ensures ok ==> unit < 0x100 && old(Buffer()) == [unit] + Buffer()
      ensures !ok ==> Buffer() == old(Buffer()) == []
    {
      if inputCount == 0 {
        return false, 0;
      }
      unit := input[0];
      input[0] := input[1];
      input[1] := input[2];
      input[2] := input[3];
      inputCount := inputCount - 1;
      ok := true;
    }

    /** PhpUnreadUnicodeDecoder, which raises an exception if the buffer is full. */
    method Unread(unit: nat) returns (raised: bool)
      requires Buffered() && unit < 0x100
      modifies this`inputCount, input
      ensures raised <==> old(inputCount) == CAPACITY
      ensures !raised ==> Buffered() && Buffer() == [unit] + old(Buffer())
    {
      if inputCount >= CAPACITY {
        return true;
      }
      input[3] := input[2];
      input[2] := input[1];
      input[1] := input[0];
      input[0] := unit;
      inputCount := inputCount + 1;
      raised := false;
    }

    /** PhpDecodeUtf8Error: all units but the first go back into the buffer. */
    method DecodeError(which: nat) returns (r: Outcome)
      requires Buffered() && 1 <= which <= 4 && codeUnit1 < 0x100
      requires (which >= 2 ==> codeUnit2 < 0x100) && (which >= 3 ==> codeUnit3 < 0x100) && (which >= 4 ==> codeUnit4 < 0x100)
      modifies this`inputCount, this`state, input
      ensures r.Raised? <==> old(inputCount) + which - 1 > CAPACITY
      ensures !r.Raised? ==>
        && r == CodePoint(codeUnit1 + 0xdc00) && state == 0 && Buffered()
        && Buffer() == [codeUnit2, codeUnit3, codeUnit4][..which - 1] + old(Buffer())
    {
      var raised;
      if which >= 4 {
        raised := Unread(codeUnit4);
        if raised { return Raised; }
      }
      if which >= 3 {
        raised := Unread(codeUnit3);
        if raised { return Raised; }
      }
      if which >= 2 {
        raised := Unread(codeUnit2);
        if raised { return Raised; }
      }
      state := 0;
      r := CodePoint(codeUnit1 + 0xdc00);
    }

    /** All units, with the one just read between those of the unfinished sequence and the buffer. */
    ghost function Units(unit: nat): seq<nat>
      requires Buffered()
      reads this, input
    {
      Pending() + [unit] + Buffer()
    }

    /** What one round of PhDecodeUnicodeDecoder does to all units: it takes the unit into the
        unfinished sequence, or splits a code point off the front, or fails for want of room. */
    twostate predicate Accepted(unit: nat, r: Outcome)
      requires old(Buffered()) && old(Bytes(Units(unit)))
      reads this, input
    {
      var units := old(Units(unit));
      match r
      case NeedMore => Valid() && View() == units && |Pending()| == |old(Pending())| + 1
      case CodePoint(c) =>
        && Valid() && Parse8(units).Parsed? && Parse8(units).codePoint == c && View() == units[Parse8(units).used..]
        && (Parse8(units).used == 1 && |old(Pending())| > 0 ==> |units| <= CAPACITY + 1)
      case Raised => |units| > CAPACITY + 1 && Parse8(units).Parsed? && Parse8(units).used == 1
    }

    /** The switch on the state in PhDecodeUnicodeDecoder: the first unit. */
    method AcceptFirst(unit: nat) returns (r: Outcome)
      requires Valid() && unit < 0x100 && state == 0
      modifies this, input
      ensures Bytes(old(Units(unit))) && Accepted(unit, r)
    {
      r := NeedMore;
      codeUnit1 := unit;
      if unit < 0x80 {
        r := CodePoint(unit);
      } else if unit < 0xc2 {
        r := DecodeError(1);
      } else if unit < 0xe0 {
        state := 1;
      } else if unit < 0xf0 {
        state := 2;
      } else if unit < 0xf5 {
        state := 3;
      } else {
        r := DecodeError(1);
      }
    }

    /** The units read so far turn out to be malformed. */
    method Reject(which: nat, ghost units: seq<nat>) returns (r: Outcome)
      requires Buffered() && 2 <= which <= 4 && Bytes(units) && |units| >= which
      requires units == [codeUnit1, codeUnit2, codeUnit3, codeUnit4][..which] + Buffer()
      modifies this`inputCount, this`state, input
      ensures r.Raised? <==> |units| > CAPACITY + 1
      ensures !r.Raised? ==> Valid() && state == 0 && View() == units[1..] && r == CodePoint(codeUnit1 + 0xdc00)
    {
      ghost var all := [codeUnit1, codeUnit2, codeUnit3, codeUnit4];
      assert units[0] == all[0] && units[1] == all[1] && (which >= 3 ==> units[2] == all[2]) && (which >= 4 ==> units[3] == all[3]);
      assert units[1..] == [codeUnit2, codeUnit3, codeUnit4][..which - 1] + Buffer();
      r := DecodeError(which);
    }

    /** The sequence read so far is complete. */
    method Finish(c: nat, k: nat, ghost units: seq<nat>) returns (r: Outcome)
      requires Buffered() && k <= |units| && units[k..] == Buffer()
      modifies this`state
      ensures Valid() && state == 0 && View() == units[k..] && r == CodePoint(c)
    {
      state := 0;
      r := CodePoint(c);
    }

    /** The second unit. */
    method AcceptSecond(unit: nat) returns (r: Outcome)
      requires Valid() && unit < 0x100 && 1 <= state <= 3
      modifies this, input
      ensures Bytes(old(Units(unit))) && Accepted(unit, r)
    {
      ghost var units := Units(unit);
      assert units == [codeUnit1, unit] + Buffer() && units[2..] == Buffer();
      codeUnit2 := unit;
      if state == 1 {
        if Continues(unit) {
          r := Finish(Join2(codeUnit1, unit), 2, units);
        } else {
          r := Reject(2, units);
        }
      } else if state == 2 {
        if Second3(codeUnit1, unit) {
          r := NeedMore;
          state := 4;
        } else {
          r := Reject(2, units);
        }
      } else {
        if Second4(codeUnit1, unit) {
          r := NeedMore;
          state := 5;
        } else {
          r := Reject(2, units);
        }
      }
    }

    /** The third unit. */
    method AcceptThird(unit: nat) returns (r: Outcome)
      requires Valid() && unit < 0x100 && 4 <= state <= 5
      modifies this, input
      ensures Bytes(old(Units(unit))) && Accepted(unit, r)
    {
      ghost var units := Units(unit);
      assert units == [codeUnit1, codeUnit2, unit] + Buffer() && units[3..] == Buffer();
      codeUnit3 := unit;
      if !Continues(unit) {
        r := Reject(3, units);
      } else if state == 4 {
        r := Finish(Join3(codeUnit1, codeUnit2, unit), 3, units);
      } else {
        r := NeedMore;
        state := 6;
      }
    }

    /** The fourth unit. */
    method AcceptFourth(unit: nat) returns (r: Outcome)
      requires Valid() && unit < 0x100 && state == 6
      modifies this, input
      ensures Bytes(old(Units(unit))) && Accepted(unit, r)
    {
      ghost var units := Units(unit);
      assert units == [codeUnit1, codeUnit2, codeUnit3, unit] + Buffer() && units[4..] == Buffer();
      codeUnit4 := unit;
      if Continues(unit) {
        r := Finish(Join4(codeUnit1, codeUnit2, codeUnit3, unit), 4, units);
      } else {
        r := Reject(4, units);
      }
    }

    /** An unfinished sequence needs more. */
    lemma PendingIncomplete()
      requires Valid() && Pending() != []
      ensures Bytes(Pending()) && Parse8(Pending()) == Incomplete
    {
    }

    /** PhDecodeUnicodeDecoder. It splits the next code point off the front of what has been written, and
        raises an exception if and only if a malformed sequence is to be put back and more than five
        units are waiting. */
    method Decode() returns (r: Outcome)
      requires Valid()
      modifies this, input
      ensures Bytes(old(View()))
      ensures r.NeedMore? ==>
        Valid() && View() == old(View()) && inputCount == 0 && (View() != [] ==> Parse8(View()) == Incomplete)
      ensures r.CodePoint? ==>
        && Valid() && old(View()) != [] && Parse8(old(View())).Parsed? && Parse8(old(View())).codePoint == r.c
        && View() == old(View())[Parse8(old(View())).used..]
      ensures r.Raised? <==>
        |old(View())| > CAPACITY + 1 && Parse8(old(View())).Parsed? && Parse8(old(View())).used == 1
    {
      BytesOf();
      while true
        invariant Valid() && View() == old(View()) && |Pending()| >= |old(Pending())|
        decreases inputCount
      {
        var more;
        more, r := Round();
        if !more {
          return;
        }
      }
    }

    lemma BytesOf()
      requires Valid()
      ensures Bytes(View())
    {
    }

    /** One round of the loop of PhDecodeUnicodeDecoder. */
    method Round() returns (more: bool, r: Outcome)
      requires Valid()
      modifies this, input
      ensures Bytes(old(View()))
      ensures more ==> Valid() && View() == old(View()) && inputCount < old(inputCount) && |Pending()| >= |old(Pending())|
      ensures !more && r.NeedMore? ==>
        Valid() && View() == old(View()) && inputCount == 0 && (View() != [] ==> Parse8(View()) == Incomplete)
      ensures !more && r.CodePoint? ==>
        && Valid() && old(View()) != [] && Parse8(old(View())).Parsed? && Parse8(old(View())).codePoint == r.c
        && View() == old(View())[Parse8(old(View())).used..]
        && (Parse8(old(View())).used == 1 && |old(Pending())| > 0 ==> |old(View())| <= CAPACITY + 1)
      ensures !more && r.Raised? ==>
        |old(View())| > CAPACITY + 1 && Parse8(old(View())).Parsed? && Parse8(old(View())).used == 1
    {
      BytesOf();
      var ok, unit := Read();
      if !ok {
        if Pending() != [] {
          PendingIncomplete();
        }
        return false, NeedMore;
      }
      hide Parse8, PendingFits;
      assert Units(unit) == old(View());
      if state == 0 {
        r := AcceptFirst(unit);
      } else if state <= 3 {
        r := AcceptSecond(unit);
      } else if state <= 5 {
        r := AcceptThird(unit);
      } else {
        r := AcceptFourth(unit);
      }
      more := r.NeedMore?;
    }
  }

  /** Decoding unit by unit, each written and then decoded as far as possible, as the conversion
      functions do: it never raises an exception, and gives the code points of the whole. */
  method DecodeBytes(bytes: seq<nat>) returns (codePoints: seq<nat>)
    requires Bytes(bytes)
    ensures codePoints == Decode8(bytes)
  {
    hide Parse8, Decode8, Bytes;
    var decoder := new Decoder();
    codePoints := [];
    var i := 0;
    ghost var rest := bytes;
    AtStart(decoder, bytes);
    while i < |bytes|
      invariant 0 <= i <= |bytes| && fresh(decoder) && fresh(decoder.input) && Drained(decoder, rest) && rest == bytes[i..]
      invariant codePoints + Decode8(decoder.View() + rest) == Decode8(bytes)
    {
      FirstByte(bytes, i);
      rest := bytes[i + 1..];
      codePoints := Feed(decoder, bytes[i], codePoints, rest, Decode8(bytes));
      i := i + 1;
    }
    assert decoder.View() + rest == decoder.View();
    Unfinished(decoder.View());
  }

  lemma AtStart(decoder: Decoder, bytes: seq<nat>)
    requires decoder.Valid() && decoder.View() == [] && Bytes(bytes)
    ensures Drained(decoder, bytes) && decoder.View() + bytes == bytes && bytes[0..] == bytes
  {
  }

  lemma FirstByte(bytes: seq<nat>, i: nat)
    requires i < |bytes| && Bytes(bytes)
    ensures bytes[i..] == [bytes[i]] + bytes[i + 1..] && bytes[i] < 0x100
  {
  }

  lemma Unfinished(s: seq<nat>)
    requires Bytes(s) && (s != [] ==> Parse8(s) == Incomplete)
    ensures Decode8(s) == []
  {
  }

  /** Nothing more can be decoded yet. */
  ghost predicate Drained(decoder: Decoder, rest: seq<nat>)
    reads decoder, decoder.input
  {
    && decoder.Valid() && decoder.inputCount == 0 && Bytes(decoder.View()) && Bytes(rest) && Bytes(decoder.View() + rest)
    && (decoder.View() != [] ==> Parse8(decoder.View()) == Incomplete)
  }

  method Feed(decoder: Decoder, unit: nat, before: seq<nat>, ghost rest: seq<nat>, ghost target: seq<nat>) returns (codePoints: seq<nat>)
    requires Drained(decoder, [unit] + rest) && unit < 0x100
    requires before + Decode8(decoder.View() + ([unit] + rest)) == target
    modifies decoder, decoder.input
    ensures Drained(decoder, rest) && codePoints + Decode8(decoder.View() + rest) == target
  {
    hide Parse8, Decode8;
    assert decoder.View() + ([unit] + rest) == decoder.View() + [unit] + rest;
    assert Bytes(rest) by {
      assert forall i :: 0 <= i < |rest| ==> rest[i] == ([unit] + rest)[i + 1];
    }
    var ok := decoder.Write(unit);
    codePoints := Drain(decoder, before, rest, target);
  }

  method Drain(decoder: Decoder, before: seq<nat>, ghost rest: seq<nat>, ghost target: seq<nat>) returns (codePoints: seq<nat>)
    requires decoder.Valid() && |decoder.View()| <= CAPACITY && Bytes(rest) && Bytes(decoder.View())
    requires before + Decode8(decoder.View() + rest) == target
    modifies decoder, decoder.input
    ensures Drained(decoder, rest) && codePoints + Decode8(decoder.View() + rest) == target
  {
    hide Parse8, Decode8;
    codePoints := before;
    while true
      invariant decoder.Valid() && |decoder.View()| <= CAPACITY && Bytes(decoder.View())
      invariant codePoints + Decode8(decoder.View() + rest) == target
      decreases |decoder.View()|
    {
      ghost var view := decoder.View();
      var r := decoder.Decode();
      match r
      case NeedMore =>
        return;
      case CodePoint(c) =>
        DecodePrefix8(view, rest);
        codePoints := codePoints + [c];
      case Raised =>
        assert false;
    }
  }

  method WriteFour(decoder: Decoder, unit: nat)
    requires decoder.Valid() && decoder.inputCount == 0 && unit < 0x100
    modifies decoder`inputCount, decoder.input
    ensures decoder.Valid() && decoder.View() == old(decoder.View()) + [unit, unit, unit, unit]
  {
    var i, ok := 0, true;
    ghost var view := decoder.View();
    ghost var units: seq<nat> := [];
    while i < 4
      invariant i <= 4 && decoder.Valid() && decoder.inputCount == i && decoder.View() == view + units
      invariant units == [unit, unit, unit, unit][..i]
    {
      ok := decoder.Write(unit);
      assert view + units + [unit] == view + (units + [unit]);
      units := units + [unit];
      i := i + 1;
    }
  }

  /** Six bytes wait when the third turns out to be malformed. */
  method RaisedExample() returns (r: Outcome)
    ensures r == Raised
  {
    var decoder := new Decoder();
    var ok := decoder.Write(0xe1);
    ok := decoder.Write(0x80);
    ghost var view := decoder.View();
    assert view == [0xe1, 0x80];
    TwoIncomplete(view);
    hide Parse8;
    r := decoder.Decode();
    WriteFour(decoder, 0x41);
    ThirdMalformed(decoder.View());
    r := decoder.Decode();
  }

  lemma TwoIncomplete(s: seq<nat>)
    requires s == [0xe1, 0x80]
    ensures Bytes(s) && Parse8(s) == Incomplete
  {
  }

  lemma ThirdMalformed(s: seq<nat>)
    requires s == [0xe1, 0x80] + [0x41, 0x41, 0x41, 0x41]
    ensures Bytes(s) && Parse8(s).Parsed? && Parse8(s).used == 1
  {
  }
}
