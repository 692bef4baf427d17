/** Entries of a hashtable and the chains through them (phlib/basesup.c). */
module HashtableChains {
  import opened Sequences

  const NONE: nat := 0xFFFF_FFFF      // ULONG_MAX: no entry, or the hash code of an unused entry
  const MAXLONG: nat := 0x7FFF_FFFF

  datatype Entry<T> = Entry(hashCode: nat, next: nat, body: T)

  /** PhpValidateHash: a hash code has 31 bits, so it never equals the mark of an unused entry. */
  function ValidateHash(hash: nat): (r: nat)
    ensures r <= MAXLONG && r != NONE
  {
    hash % (MAXLONG + 1)
  }

  /** It keeps the low 31 bits. */
  lemma LowBits(hash: nat, q: nat)
    ensures hash < 0x8000_0000 ==> ValidateHash(hash) == hash
    ensures ValidateHash(hash + q * 0x8000_0000) == ValidateHash(hash)
  {
  }

  /** The links lead from first through s to end. */
  ghost predicate Chain<T>(entries: seq<Entry<T>>, first: nat, s: seq<nat>, end: nat)
    decreases s
  {
    if s == [] then first == end
    else first == s[0] && s[0] < |entries| && Chain(entries, entries[s[0]].next, s[1..], end)
  }

  lemma {:induction false} ChainFrame<T>(entries: seq<Entry<T>>, entries': seq<Entry<T>>, first: nat, s: seq<nat>, end: nat)
    requires Chain(entries, first, s, end) && |entries| <= |entries'|
    requires forall i :: i in s && i < |entries| ==> entries'[i].next == entries[i].next
    ensures Chain(entries', first, s, end)
    decreases s
  {
    if s != [] {
      assert s[0] in s && forall i :: i in s[1..] ==> i in s;
      ChainFrame(entries, entries', entries[s[0]].next, s[1..], end);
    }
  }

  lemma {:induction false} ChainConcat<T>(entries: seq<Entry<T>>, first: nat, a: seq<nat>, middle: nat, b: seq<nat>, end: nat)
    requires Chain(entries, first, a, middle) && Chain(entries, middle, b, end)
    ensures Chain(entries, first, a + b, end)
    decreases a
  {
    if a == [] {
      assert a + b == b;
    } else {
      ChainConcat(entries, entries[a[0]].next, a[1..], middle, b, end);
      assert (a + b)[1..] == a[1..] + b;
    }
  }

  /** A chain is cut at one of its entries. */
  lemma {:induction false} ChainSplit<T>(entries: seq<Entry<T>>, first: nat, a: seq<nat>, i: nat, b: seq<nat>, end: nat)
    requires Chain(entries, first, a + [i] + b, end)
    ensures Chain(entries, first, a, i) && i < |entries| && Chain(entries, entries[i].next, b, end)
    decreases a
  {
    var s := a + [i] + b;
    if a == [] {
      assert s[1..] == b;
    } else {
      assert s[1..] == a[1..] + [i] + b;
      ChainSplit(entries, entries[a[0]].next, a[1..], i, b, end);
    }
  }

  /** The last link of a chain is written. */
  lemma {:induction false} ChainEnd<T>(entries: seq<Entry<T>>, entries': seq<Entry<T>>, first: nat, a: seq<nat>, last: nat, end: nat, end': nat)
    requires Chain(entries, first, a + [last], end) && Distinct(a + [last]) && |entries| == |entries'|
    requires forall i :: i in a && i < |entries| ==> entries'[i].next == entries[i].next
    requires last < |entries| && entries'[last].next == end'
    ensures Chain(entries', first, a + [last], end')
    decreases a
  {
    var s := a + [last];
    if a == [] {
      assert s[1..] == [];
    } else {
      assert s[1..] == a[1..] + [last];
      assert forall i :: i in a[1..] ==> i in a;
      ChainEnd(entries, entries', entries[a[0]].next, a[1..], last, end, end');
    }
  }

  /** An entry is put in front of a chain it is not on. */
  lemma ChainPush<T>(entries: seq<Entry<T>>, entries': seq<Entry<T>>, first: nat, s: seq<nat>, i: nat)
    requires Chain(entries, first, s, NONE) && i !in s && i < |entries'| && |entries| <= |entries'|
    requires entries'[i].next == first
    requires forall j :: j in s && j < |entries| ==> entries'[j].next == entries[j].next
    ensures Chain(entries', i, [i] + s, NONE)
  {
    ChainFrame(entries, entries', first, s, NONE);
    assert ([i] + s)[1..] == s;
  }

  lemma CutAfter<T>(entries: seq<Entry<T>>, entries': seq<Entry<T>>, first: nat, a: seq<nat>, last: nat, i: nat, b: seq<nat>)
    requires Chain(entries, first, a + [last] + [i] + b, NONE) && Distinct(a + [last]) && |entries| == |entries'|
    requires i < |entries| && last < |entries| && Chain(entries', entries[i].next, b, NONE)
    requires forall j :: j in a && j < |entries| ==> entries'[j].next == entries[j].next
    requires entries'[last].next == entries[i].next
    ensures Chain(entries', first, a + [last] + b, NONE)
  {
    ChainSplit(entries, first, a + [last], i, b, NONE);
    hide Distinct;
    ChainEnd(entries, entries', first, a, last, i, entries[i].next);
    ChainConcat(entries', first, a + [last], entries[i].next, b, NONE);
  }

  /** An entry is taken off a chain: the link to it, in the bucket or in the entry before it, is set to
      the entry behind it. */
  lemma ChainCut<T>(entries: seq<Entry<T>>, entries': seq<Entry<T>>, first: nat, a: seq<nat>, i: nat, b: seq<nat>)
    requires Chain(entries, first, a + [i] + b, NONE) && Distinct(a + [i] + b) && |entries| == |entries'|
    requires i < |entries|
    requires forall j :: j in a + b && j < |entries| ==>
      entries'[j].next == if a != [] && j == a[|a| - 1] then entries[i].next else entries[j].next
    ensures Chain(entries', if a == [] then entries[i].next else first, a + b, NONE)
    ensures Distinct(a + b) && i !in a + b && forall j :: j in a + [i] + b <==> j == i || j in a + b
  {
    Apart(a, i, b);
    ChainSplit(entries, first, a, i, b, NONE);
    assert forall j :: j in b ==> j in a + b;
    assert a != [] ==> a[|a| - 1] in a;
    ChainFrame(entries, entries', entries[i].next, b, NONE);
    if a == [] {
      assert a + b == b;
    } else {
      var a', last := a[..|a| - 1], a[|a| - 1];
      assert a == a' + [last];
      DistinctConcat(a', [last]);
      assert forall j :: j in a' ==> j in a + b;
      assert last in a + b;
      ChainInside(entries, first, a, i);
      hide Chain, Distinct;
      CutAfter(entries, entries', first, a', last, i, b);
    }
  }

  lemma {:induction false} ChainInside<T>(entries: seq<Entry<T>>, first: nat, s: seq<nat>, end: nat)
    requires Chain(entries, first, s, end)
    ensures forall i :: i in s ==> i < |entries|
    decreases s
  {
    if s != [] {
      assert forall i :: i in s <==> i == s[0] || i in s[1..];
      ChainInside(entries, entries[s[0]].next, s[1..], end);
    }
  }

  lemma Apart(a: seq<nat>, i: nat, b: seq<nat>)
    requires Distinct(a + [i] + b)
    ensures Distinct(a) && Distinct(b) && Distinct(a + b) && i !in a + b
    ensures forall j :: j in a ==> j !in b
    ensures forall j :: j in a + [i] + b <==> j == i || j in a + b
  {
    assert a + [i] + b == a + ([i] + b);
    DistinctConcat(a, [i] + b);
    DistinctConcat([i], b);
    DistinctConcat(a, b);
    assert i in [i] + b;
  }
}
