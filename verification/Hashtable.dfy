/** The chained hashtable in one array of entries (phlib/basesup.c). It refines a finite set of entries
    no two of which are equal, that is, a finite map from keys to entries. */
module Hashtable {
  import opened Sequences
  import opened PowersOfTwo
  import opened HashtableChains

  const MAX_SHIFT: nat := 31          // the number of buckets is a 32-bit power of two

  function First(s: seq<nat>): nat { if s == [] then NONE else s[0] }

  /** Entry i holds data. */
  predicate Used<T>(entries: seq<Entry<T>>, n: nat, i: int) {
    0 <= i < n && i < |entries| && entries[i].hashCode != NONE
  }

  /** PhpIndexFromHash: the number of buckets is a power of two, for which the mask is the remainder. */
  function IndexFromHash(buckets: nat, hashCode: nat): (b: nat)
    requires buckets > 0
    ensures b < buckets
  {
    hashCode % buckets
  }

  /** The chain of a bucket runs through exactly the used entries that belong there. */
  ghost predicate Bucketed<T>(entries: seq<Entry<T>>, first: nat, chain: seq<nat>, buckets: nat, n: nat, b: nat)
    requires buckets > 0
  {
    && Chain(entries, first, chain, NONE) && Distinct(chain)
    && forall i :: i in chain <==> Used(entries, n, i) && IndexFromHash(buckets, entries[i].hashCode) == b
  }

  ghost predicate AllBucketed<T>(entries: seq<Entry<T>>, buckets: seq<nat>, chains: seq<seq<nat>>, n: nat) {
    && |chains| == |buckets| > 0
    && forall b :: 0 <= b < |buckets| ==> Bucketed(entries, buckets[b], chains[b], |buckets|, n, b)
  }

  /** The chain of free entries runs through exactly the unused ones below n. */
  ghost predicate FreeChained<T>(entries: seq<Entry<T>>, first: nat, free: seq<nat>, n: nat) {
    && Chain(entries, first, free, NONE) && Distinct(free)
    && forall i :: i in free <==> 0 <= i < n && i < |entries| && entries[i].hashCode == NONE
  }

  ghost predicate Equivalence<T(!new)>(equal: (T, T) -> bool, hash: T -> nat) {
    && (forall x :: equal(x, x))
    && (forall x, y :: equal(x, y) ==> equal(y, x) && hash(x) == hash(y))
    && (forall x, y, z :: equal(x, y) && equal(y, z) ==> equal(x, z))
  }

  /** Used entries carry the hash of their data, and no two are equal. */
  ghost predicate Separate<T>(entries: seq<Entry<T>>, n: nat, equal: (T, T) -> bool, hash: T -> nat) {
    && (forall i :: Used(entries, n, i) ==> entries[i].hashCode == ValidateHash(hash(entries[i].body)))
    && (forall i, j :: Used(entries, n, i) && Used(entries, n, j) && i != j ==> !equal(entries[i].body, entries[j].body))
  }

  ghost function Bodies<T>(entries: seq<Entry<T>>, n: nat): set<T> {
    set i | 0 <= i < |entries| && Used(entries, n, i) :: entries[i].body
  }

  // ---------------------------------------------------------------------------------------------
  // One entry comes or goes
  // ---------------------------------------------------------------------------------------------

  /** An unused entry is filled and put in front of its bucket's chain. */
  lemma EntryAdded<T>(entries: seq<Entry<T>>, buckets: seq<nat>, chains: seq<seq<nat>>, n: nat, n': nat, i: nat, hashCode: nat, body: T)
    requires AllBucketed(entries, buckets, chains, n) && i < |entries| && hashCode != NONE
    requires !Used(entries, n, i) && i < n' && (n' == n || (n' == n + 1 && i == n))
    ensures var b := IndexFromHash(|buckets|, hashCode);
      AllBucketed(entries[i := Entry(hashCode, buckets[b], body)], buckets[b := i], chains[b := [i] + chains[b]], n')
  {
    var b := IndexFromHash(|buckets|, hashCode);
    var entries' := entries[i := Entry(hashCode, buckets[b], body)];
    var buckets', chains' := buckets[b := i], chains[b := [i] + chains[b]];
    forall c | 0 <= c < |buckets| ensures Bucketed(entries', buckets'[c], chains'[c], |buckets|, n', c) {
      assert Bucketed(entries, buckets[c], chains[c], |buckets|, n, c);
      assert i !in chains[c];
      if c == b {
        ChainPush(entries, entries', buckets[b], chains[b], i);
        assert ([i] + chains[b])[1..] == chains[b];
      } else {
        ChainFrame(entries, entries', buckets[c], chains[c], NONE);
      }
    }
  }

  /** Entry i has been unlinked from between x and y and marked unused. */
  ghost predicate Unlinked<T>(entries: seq<Entry<T>>, entries': seq<Entry<T>>, x: seq<nat>, i: nat) {
    && i < |entries| == |entries'| && entries'[i].hashCode == NONE
    && forall j :: 0 <= j < |entries| && j != i ==>
         entries'[j] == if x != [] && j == x[|x| - 1] then entries[j].(next := entries[i].next) else entries[j]
  }

  lemma OwnBucket<T>(entries: seq<Entry<T>>, first: nat, buckets: nat, n: nat, b: nat, x: seq<nat>, i: nat, y: seq<nat>,
                     entries': seq<Entry<T>>)
    requires buckets > 0 && Bucketed(entries, first, x + [i] + y, buckets, n, b) && Unlinked(entries, entries', x, i)
    ensures Bucketed(entries', if x == [] then entries[i].next else first, x + y, buckets, n, b)
  {
    Apart(x, i, y);
    ChainCut(entries, entries', first, x, i, y);
    hide Chain, Distinct;
    forall j ensures j in x + y <==> Used(entries', n, j) && IndexFromHash(buckets, entries'[j].hashCode) == b {
      assert j in x + [i] + y <==> Used(entries, n, j) && IndexFromHash(buckets, entries[j].hashCode) == b;
    }
  }

  lemma OtherBucket<T>(entries: seq<Entry<T>>, first: nat, chain: seq<nat>, buckets: nat, n: nat, c: nat, x: seq<nat>, i: nat,
                       entries': seq<Entry<T>>)
    requires buckets > 0 && Bucketed(entries, first, chain, buckets, n, c) && Unlinked(entries, entries', x, i)
    requires i !in chain && (x != [] ==> x[|x| - 1] !in chain)
    ensures Bucketed(entries', first, chain, buckets, n, c)
  {
    ChainFrame(entries, entries', first, chain, NONE);
    forall j ensures j in chain <==> Used(entries', n, j) && IndexFromHash(buckets, entries'[j].hashCode) == c {
      assert j in chain <==> Used(entries, n, j) && IndexFromHash(buckets, entries[j].hashCode) == c;
    }
  }

  /** A used entry is taken off its bucket's chain. */
  lemma EntryRemoved<T>(entries: seq<Entry<T>>, buckets: seq<nat>, chains: seq<seq<nat>>, n: nat, b: nat, x: seq<nat>, i: nat, y: seq<nat>,
                        entries': seq<Entry<T>>)
    requires AllBucketed(entries, buckets, chains, n) && b < |buckets| && chains[b] == x + [i] + y
    requires Unlinked(entries, entries', x, i)
    ensures AllBucketed(entries', if x == [] then buckets[b := entries[i].next] else buckets, chains[b := x + y], n)
  {
    assert Bucketed(entries, buckets[b], chains[b], |buckets|, n, b);
    OwnBucket(entries, buckets[b], |buckets|, n, b, x, i, y, entries');
    assert i in chains[b] && (x != [] ==> x[|x| - 1] in chains[b]);
    forall c | 0 <= c < |buckets| && c != b ensures Bucketed(entries', buckets[c], chains[c], |buckets|, n, c) {
      assert Bucketed(entries, buckets[c], chains[c], |buckets|, n, c);
      OtherBucket(entries, buckets[c], chains[c], |buckets|, n, c, x, i, entries');
    }
  }

  /** None of the entries s is the one sought. */
  ghost predicate Missed<T>(entries: seq<Entry<T>>, s: seq<nat>, hashCode: nat, equal: (T, T) -> bool, x: T) {
    forall i :: i in s && i < |entries| ==> !(entries[i].hashCode == hashCode && equal(entries[i].body, x))
  }

  lemma MissedNone<T>(entries: seq<Entry<T>>, hashCode: nat, equal: (T, T) -> bool, x: T)
    ensures Missed(entries, [], hashCode, equal, x)
  {
  }

  lemma MissedMore<T>(entries: seq<Entry<T>>, s: seq<nat>, i: nat, hashCode: nat, equal: (T, T) -> bool, x: T)
    requires Missed(entries, s, hashCode, equal, x) && i < |entries|
    requires !(entries[i].hashCode == hashCode && equal(entries[i].body, x))
    ensures Missed(entries, s + [i], hashCode, equal, x)
  {
  }

  /** If no entry on the chain of its bucket is equal to x, none is. */
  lemma NotFound<T(!new)>(entries: seq<Entry<T>>, buckets: seq<nat>, chains: seq<seq<nat>>, n: nat, equal: (T, T) -> bool, hash: T -> nat, x: T)
    requires AllBucketed(entries, buckets, chains, n) && Equivalence(equal, hash) && Separate(entries, n, equal, hash)
    requires var b := IndexFromHash(|buckets|, ValidateHash(hash(x)));
      Missed(entries, chains[b], ValidateHash(hash(x)), equal, x)
    ensures forall i :: Used(entries, n, i) ==> !equal(entries[i].body, x)
  {
    var b := IndexFromHash(|buckets|, ValidateHash(hash(x)));
    assert Bucketed(entries, buckets[b], chains[b], |buckets|, n, b);
    forall i | Used(entries, n, i) ensures !equal(entries[i].body, x) {
      assert i in chains[b] <==> IndexFromHash(|buckets|, entries[i].hashCode) == b;
    }
  }

  lemma SmallIndices(shift: nat)
    requires shift <= MAX_SHIFT
    ensures 0 < Power2(shift) <= 0x8000_0000 < NONE
  {
    Power2Monotone(shift, MAX_SHIFT);
    Power2Values();
  }

  lemma Doubled(shift: nat)
    ensures Power2(shift + 1) == 2 * Power2(shift)
  {
  }

  lemma Advance(chain: seq<nat>, done: seq<nat>, rest: seq<nat>)
    requires chain == done + rest && rest != []
    ensures rest[0] in chain && chain == done + [rest[0]] + rest[1..] && (done + [rest[0]])[|done|] == rest[0]
  {
  }

  lemma OnChain<T>(entries: seq<Entry<T>>, buckets: seq<nat>, chains: seq<seq<nat>>, n: nat, b: nat)
    requires AllBucketed(entries, buckets, chains, n) && b < |buckets|
    ensures Chain(entries, buckets[b], chains[b], NONE) && Distinct(chains[b])
    ensures forall i :: i in chains[b] ==> Used(entries, n, i) && IndexFromHash(|buckets|, entries[i].hashCode) == b
  {
    assert Bucketed(entries, buckets[b], chains[b], |buckets|, n, b);
  }

  lemma ChainHead<T>(entries: seq<Entry<T>>, i: nat, s: seq<nat>)
    requires Chain(entries, i, s, NONE) && |entries| < NONE
    ensures if s == [] then i == NONE else i == s[0] && i < |entries| && i != NONE && Chain(entries, entries[i].next, s[1..], NONE)
  {
  }

  /** The smallest power of two, from 2^k on, that is not below n. */
  function RoundUp(k: nat, n: nat): (r: nat)
    requires k <= MAX_SHIFT && n <= Power2(MAX_SHIFT)
    ensures k <= r <= MAX_SHIFT && n <= Power2(r)
    ensures r == k || Power2(r - 1) < n
    decreases MAX_SHIFT - k
  {
    if Power2(k) >= n then k else RoundUp(k + 1, n)
  }

  lemma SameShift(k: nat, r: nat)
    requires Power2(k) <= Power2(r) && (r == 0 || Power2(r - 1) < Power2(k))
    ensures r == k
  {
    if r < k {
      Power2Monotone(r + 1, k);
    } else if k < r {
      Power2Monotone(k, r - 1);
    }
  }

  lemma NoBuckets<T>(entries: seq<Entry<T>>, buckets: seq<nat>, chains: seq<seq<nat>>)
    requires |chains| == |buckets| > 0
    requires forall b :: 0 <= b < |buckets| ==> buckets[b] == NONE && chains[b] == []
    ensures AllBucketed(entries, buckets, chains, 0)
  {
  }

  lemma UnusedSkipped<T>(entries: seq<Entry<T>>, buckets: seq<nat>, chains: seq<seq<nat>>, n: nat)
    requires AllBucketed(entries, buckets, chains, n) && n < |entries| && entries[n].hashCode == NONE
    ensures AllBucketed(entries, buckets, chains, n + 1)
  {
    forall b | 0 <= b < |buckets| ensures Bucketed(entries, buckets[b], chains[b], |buckets|, n + 1, b) {
      assert Bucketed(entries, buckets[b], chains[b], |buckets|, n, b);
    }
  }

  /** Only links have changed, and unwritten entries have been added. */
  ghost predicate SameData<T>(entries: seq<Entry<T>>, entries': seq<Entry<T>>, n: nat) {
    n <= |entries| <= |entries'|
    && forall i :: 0 <= i < n ==> entries'[i].hashCode == entries[i].hashCode && entries'[i].body == entries[i].body
  }

  lemma SameBodies<T>(entries: seq<Entry<T>>, entries': seq<Entry<T>>, n: nat, equal: (T, T) -> bool, hash: T -> nat)
    requires SameData(entries, entries', n) && Separate(entries, n, equal, hash)
    ensures Separate(entries', n, equal, hash) && Bodies(entries', n) == Bodies(entries, n)
    ensures forall i :: Used(entries', n, i) <==> Used(entries, n, i)
  {
    assert forall i :: Used(entries', n, i) <==> Used(entries, n, i);
  }

  /** A new entry that is equal to none. */
  lemma BodyAdded<T(!new)>(entries: seq<Entry<T>>, entries': seq<Entry<T>>, n: nat, n': nat, i: nat, equal: (T, T) -> bool, hash: T -> nat, x: T)
    requires Equivalence(equal, hash) && Separate(entries, n, equal, hash)
    requires forall j :: Used(entries, n, j) ==> !equal(entries[j].body, x)
    requires !Used(entries, n, i) && i < n' && i < |entries| == |entries'| && (n' == n || (n' == n + 1 && i == n))
    requires entries'[i].hashCode == ValidateHash(hash(x)) && entries'[i].body == x
    requires forall j :: 0 <= j < |entries| && j != i ==> entries'[j] == entries[j]
    ensures Separate(entries', n', equal, hash) && Bodies(entries', n') == Bodies(entries, n) + {x}
  {
    assert forall j :: Used(entries', n', j) <==> Used(entries, n, j) || j == i;
    assert forall j :: Used(entries, n, j) ==> entries'[j] == entries[j];
    assert forall y, z :: equal(y, z) ==> equal(z, y);
  }

  /** An entry less. */
  lemma BodyRemoved<T(!new)>(entries: seq<Entry<T>>, entries': seq<Entry<T>>, n: nat, i: nat, equal: (T, T) -> bool, hash: T -> nat)
    requires Equivalence(equal, hash) && Separate(entries, n, equal, hash) && Used(entries, n, i)
    requires |entries| == |entries'| && entries'[i].hashCode == NONE
    requires forall j :: 0 <= j < |entries| && j != i ==> entries'[j].hashCode == entries[j].hashCode && entries'[j].body == entries[j].body
    ensures Separate(entries', n, equal, hash) && Bodies(entries', n) == Bodies(entries, n) - {entries[i].body}
  {
    assert forall j :: Used(entries', n, j) <==> Used(entries, n, j) && j != i;
    assert forall x :: equal(x, x);
    assert forall j :: Used(entries, n, j) && j != i ==> entries[j].body != entries[i].body;
  }

  /** The first free entry is taken. */
  lemma FreeTaken<T>(entries: seq<Entry<T>>, first: nat, free: seq<nat>, n: nat, entry: Entry<T>)
    requires FreeChained(entries, first, free, n) && first != NONE && |entries| < NONE
    requires entry.hashCode != NONE
    ensures free != [] && first == free[0] && first < n && first < |entries| && entries[first].hashCode == NONE
    ensures FreeChained(entries[first := entry], entries[first].next, free[1..], n)
  {
    assert first in free;
    assert forall j :: j in free <==> j == first || j in free[1..];
    ChainFrame(entries, entries[first := entry], entries[first].next, free[1..], NONE);
  }

  lemma NoneFree<T>(entries: seq<Entry<T>>, free: seq<nat>, n: nat)
    requires FreeChained(entries, NONE, free, n) && |entries| < NONE
    ensures free == []
  {
  }

  lemma FreeMore<T>(entries: seq<Entry<T>>, n: nat, entry: Entry<T>)
    requires FreeChained(entries, NONE, [], n) && n < |entries| && entry.hashCode != NONE
    ensures FreeChained(entries[n := entry], NONE, [], n + 1)
  {
    assert forall i :: i in [] <==> 0 <= i < n && i < |entries| && entries[i].hashCode == NONE;
  }

  /** If the free entries are all there are, none is used. */
  lemma NoneUsed<T>(entries: seq<Entry<T>>, free: seq<nat>, n: nat, first: nat)
    requires FreeChained(entries, first, free, n) && |free| == n <= |entries|
    ensures Bodies(entries, n) == {}
  {
    if i :| Used(entries, n, i) {
      assert i !in free;
      assert ([i] + free)[1..] == free;
      DistinctBound([i] + free, n);
    }
  }

  /** The entry taken off its bucket goes in front of the free entries. */
  lemma FreeGiven<T>(entries: seq<Entry<T>>, entries': seq<Entry<T>>, first: nat, free: seq<nat>, n: nat, x: seq<nat>, i: nat)
    requires FreeChained(entries, first, free, n) && Used(entries, n, i) && Unlinked(entries, entries', x, i)
    requires entries'[i].next == first && (x != [] ==> Used(entries, n, x[|x| - 1]))
    ensures FreeChained(entries', i, [i] + free, n)
  {
    assert i !in free && (x != [] ==> x[|x| - 1] !in free);
    ChainPush(entries, entries', first, free, i);
    assert ([i] + free)[1..] == free;
    assert forall j :: j in free <==> 0 <= j < n && j < |entries| && entries[j].hashCode == NONE;
  }

  lemma UsedIsCounted<T>(entries: seq<Entry<T>>, free: seq<nat>, n: nat, first: nat, i: nat)
    requires FreeChained(entries, first, free, n) && Used(entries, n, i)
    ensures |free| < n
  {
    assert i !in free;
    assert ([i] + free)[1..] == free;
    DistinctBound([i] + free, n);
  }

  /** The entries after i has been unlinked and given to the free entries. */
  ghost function EntryUnlinked<T>(entries: seq<Entry<T>>, x: seq<nat>, i: nat, freeEntry: nat): seq<Entry<T>>
    requires i < |entries| && (x != [] ==> x[|x| - 1] < |entries|)
  {
    var unlinked := if x == [] then entries else entries[x[|x| - 1] := entries[x[|x| - 1]].(next := entries[i].next)];
    unlinked[i := unlinked[i].(hashCode := NONE, next := freeEntry)]
  }

  lemma OnItsChain<T>(entries: seq<Entry<T>>, buckets: seq<nat>, chains: seq<seq<nat>>, n: nat, b: nat, x: seq<nat>, i: nat, y: seq<nat>)
    requires AllBucketed(entries, buckets, chains, n) && b < |buckets| && chains[b] == x + [i] + y
    ensures Used(entries, n, i)
    ensures x != [] ==> x[|x| - 1] != i && Used(entries, n, x[|x| - 1])
  {
    OnChain(entries, buckets, chains, n, b);
    assert i in chains[b] && (x != [] ==> x[|x| - 1] in chains[b]);
    Apart(x, i, y);
    assert x != [] ==> x[|x| - 1] in x + y;
  }

  lemma EntryUnlinkedIs<T>(entries: seq<Entry<T>>, n: nat, x: seq<nat>, i: nat, freeEntry: nat)
    requires Used(entries, n, i) && (x != [] ==> x[|x| - 1] != i && Used(entries, n, x[|x| - 1]))
    ensures var entries' := EntryUnlinked(entries, x, i, freeEntry);
      && Unlinked(entries, entries', x, i) && entries'[i].next == freeEntry
      && forall j :: 0 <= j < |entries| && j != i ==> entries'[j].hashCode == entries[j].hashCode && entries'[j].body == entries[j].body
  {
  }

  lemma LengthOf<T>(entries: seq<Entry<T>>, buckets: seq<nat>, chains: seq<seq<nat>>, n: nat)
    requires AllBucketed(entries, buckets, chains, n)
    ensures |chains| == |buckets|
  {
  }

  lemma Unlinking<T(!new)>(entries: seq<Entry<T>>, buckets: seq<nat>, chains: seq<seq<nat>>, n: nat, b: nat, x: seq<nat>, i: nat, y: seq<nat>,
                           equal: (T, T) -> bool, hash: T -> nat, freeEntry: nat, free: seq<nat>)
    requires AllBucketed(entries, buckets, chains, n) && b < |buckets| == |chains| && chains[b] == x + [i] + y
    requires Equivalence(equal, hash) && Separate(entries, n, equal, hash) && FreeChained(entries, freeEntry, free, n)
    ensures Used(entries, n, i) && |free| < n
    ensures x != [] ==> x[|x| - 1] != i && Used(entries, n, x[|x| - 1])
    ensures var entries' := EntryUnlinked(entries, x, i, freeEntry);
      && AllBucketed(entries', if x == [] then buckets[b := entries[i].next] else buckets, chains[b := x + y], n)
      && FreeChained(entries', i, [i] + free, n)
      && Separate(entries', n, equal, hash) && Bodies(entries', n) == Bodies(entries, n) - {entries[i].body}
  {
    OnItsChain(entries, buckets, chains, n, b, x, i, y);
    var entries' := EntryUnlinked(entries, x, i, freeEntry);
    EntryUnlinkedIs(entries, n, x, i, freeEntry);
    hide AllBucketed, Equivalence, Separate, FreeChained, Bodies, Distinct, EntryUnlinked;
    UsedIsCounted(entries, free, n, freeEntry, i);
    EntryRemoved(entries, buckets, chains, n, b, x, i, y, entries');
    FreeGiven(entries, entries', freeEntry, free, n, x, i);
    BodyRemoved(entries, entries', n, i, equal, hash);
  }

  lemma {:induction false} ImageSize<T(!new)>(entries: seq<Entry<T>>, n: nat, equal: (T, T) -> bool, hash: T -> nat, s: set<nat>)
    requires Equivalence(equal, hash) && Separate(entries, n, equal, hash) && forall i :: i in s ==> Used(entries, n, i)
    ensures |set i | i in s :: entries[i].body| == |s|
    decreases s
  {
    if i :| i in s {
      var rest := s - {i};
      ImageSize(entries, n, equal, hash, rest);
      var image, restImage := set j | j in s :: entries[j].body, set j | j in rest :: entries[j].body;
      assert equal(entries[i].body, entries[i].body);
      assert forall j :: j in rest ==> entries[j].body != entries[i].body;
      assert image == restImage + {entries[i].body};
    } else {
      assert s == {};
    }
  }

  /** Count is the number of entries held. */
  lemma CountIsSize<T(!new)>(entries: seq<Entry<T>>, n: nat, first: nat, free: seq<nat>, equal: (T, T) -> bool, hash: T -> nat)
    requires Equivalence(equal, hash) && Separate(entries, n, equal, hash) && FreeChained(entries, first, free, n) && n <= |entries|
    ensures |Bodies(entries, n)| + |free| == n
  {
    var used := Below(n) - Members(free);
    DistinctMembers(free);
    assert Members(free) <= Below(n);
    assert |Below(n)| == |used| + |Members(free)|;
    assert forall i: nat :: i in used <==> Used(entries, n, i);
    ImageSize(entries, n, equal, hash, used);
    assert Bodies(entries, n) == set i | i in used :: entries[i].body;
  }

  function Repeat<A>(x: A, n: nat): (s: seq<A>)
    ensures |s| == n && forall i :: 0 <= i < n ==> s[i] == x
  {
    seq(n, _ => x)
  }

  class Hashtable<T(!new, ==)> {
    const equal: (T, T) -> bool
    const hash: T -> nat
    const blank: T                    // what memory holds before it is written
    var buckets: seq<nat>
    var entries: seq<Entry<T>>
    var count: nat
    var freeEntry: nat
    var nextEntry: nat
    var shift: nat                    // AllocatedBuckets and AllocatedEntries are 2^shift
    ghost var chains: seq<seq<nat>>   // the entries of each bucket, in order
    ghost var free: seq<nat>          // the unused entries below NextEntry, in order

    ghost predicate Valid()
      reads this
    {
      && Equivalence(equal, hash)
      && shift <= MAX_SHIFT && |buckets| == |entries| == Power2(shift) && nextEntry <= |entries|
      && AllBucketed(entries, buckets, chains, nextEntry)
      && FreeChained(entries, freeEntry, free, nextEntry)
      && Separate(entries, nextEntry, equal, hash)
      && count + |free| == nextEntry
    }

    /** The data held, no two equal. */
    ghost function Contents(): set<T>
      reads this
    {
      Bodies(entries, nextEntry)
    }

    /** PhCreateHashtable. The number of buckets is a 32-bit one: above 2^31 it wraps to 0, and the table
        is of no use. */
    constructor (equal: (T, T) -> bool, hash: T -> nat, blank: T, initialCapacity: nat)
      requires Equivalence(equal, hash) && initialCapacity < 2 * Power2(MAX_SHIFT)
      ensures Valid() <==> initialCapacity <= Power2(MAX_SHIFT)
      ensures initialCapacity <= |buckets| == |entries| || |buckets| == 0
      ensures initialCapacity > 0 ==> |buckets| < 2 * initialCapacity
      ensures initialCapacity == 0 ==> |buckets| == 1
      ensures Contents() == {} && count == 0
      ensures this.equal == equal && this.hash == hash
    {
      var capacity := if initialCapacity == 0 then 1 else initialCapacity;
      var k := if capacity <= Power2(MAX_SHIFT) then RoundUp(0, capacity) else 0;
      var n := if capacity <= Power2(MAX_SHIFT) then Power2(k) else 0;
      assert if initialCapacity <= Power2(MAX_SHIFT) then 0 < n == Power2(k) && k <= MAX_SHIFT else n == 0;
      hide *;
      this.equal, this.hash, this.blank := equal, hash, blank;
      buckets := Repeat(NONE, n);
      entries := Repeat(Entry(0, 0, blank), n);
      count, freeEntry, nextEntry := 0, NONE, 0;
      shift, chains, free := k, Repeat([], n), [];
      new;
      FirstTable(n);
    }

    lemma FirstTable(n: nat)
      requires Equivalence(equal, hash) && (n > 0 ==> n == Power2(shift) && shift <= MAX_SHIFT)
      requires buckets == Repeat(NONE, n) && entries == Repeat(Entry(0, 0, blank), n) && chains == Repeat([], n)
      requires count == 0 && freeEntry == NONE && nextEntry == 0 && free == []
      ensures (Valid() <==> n > 0) && Contents() == {}
    {
      if n > 0 {
        NoBuckets(entries, buckets, chains);
      }
      hide Equivalence, AllBucketed;
      assert FreeChained(entries, NONE, [], 0);
    }

    /** The search loop of PhFindEntryHashtable and PhpAddEntryHashtable. */
    method Search(x: T) returns (i: nat)
      requires Valid()
      ensures i != NONE ==> Used(entries, nextEntry, i) && equal(entries[i].body, x)
      ensures i == NONE ==> forall j :: Used(entries, nextEntry, j) ==> !equal(entries[j].body, x)
    {
      hide Chain, Bucketed, Separate, Equivalence, FreeChained, Distinct, Power2, Used, Missed;
      SmallIndices(shift);
      var hashCode := ValidateHash(hash(x));
      var b := IndexFromHash(|buckets|, hashCode);
      OnChain(entries, buckets, chains, nextEntry, b);
      assert Missed(entries, [], hashCode, equal, x) by { MissedNone(entries, hashCode, equal, x); }
      i := buckets[b];
      ghost var done: seq<nat>, rest := [], chains[b];
      while i != NONE
        invariant chains[b] == done + rest && Chain(entries, i, rest, NONE)
        invariant Missed(entries, done, hashCode, equal, x)
        decreases |rest|
      {
        ChainHead(entries, i, rest);
        assert i in chains[b];
        if entries[i].hashCode == hashCode && equal(entries[i].body, x) {
          return;
        }
        MissedMore(entries, done, i, hashCode, equal, x);
        done, rest := done + [rest[0]], rest[1..];
        i := entries[i].next;
      }
      ChainHead(entries, i, rest);
      assert done == chains[b];
      NotFound(entries, buckets, chains, nextEntry, equal, hash, x);
    }

    /** PhFindEntryHashtable */
    method Find(x: T) returns (found: bool, y: T)
      requires Valid()
      ensures found ==> y in Contents() && equal(y, x)
      ensures !found ==> forall z :: z in Contents() ==> !equal(z, x)
    {
      var i := Search(x);
      found := i != NONE;
      y := if found then entries[i].body else x;
    }

    /** PhpResizeHashtable, which is called only when there is no free entry. */
    method Resize(newCapacity: nat)
      requires Valid() && free == [] && newCapacity <= Power2(MAX_SHIFT) && newCapacity >= |entries|
      modifies this`buckets, this`entries, this`chains, this`shift
      ensures Valid() && Contents() == old(Contents())
      ensures newCapacity <= |entries| == |buckets|
      ensures shift == 0 || Power2(shift - 1) < newCapacity
      ensures SameData(old(entries), entries, nextEntry)
    {
      hide Equivalence, Separate, Bodies, Power2, AllBucketed;
      shift := RoundUp(0, newCapacity);
      buckets := Repeat(NONE, Power2(shift));
      chains := Repeat([], Power2(shift));
      entries := entries + Repeat(Entry(0, 0, blank), Power2(shift) - |entries|);
      NoBuckets(entries, buckets, chains);
      Redistribute();
      SameBodies(old(entries), entries, nextEntry, equal, hash);
      assert FreeChained(entries, freeEntry, free, nextEntry);
    }

    /** The loop of PhpResizeHashtable. */
    method Redistribute()
      requires AllBucketed(entries, buckets, chains, 0) && |entries| == |buckets| && nextEntry <= |entries|
      modifies this`buckets, this`entries, this`chains
      ensures AllBucketed(entries, buckets, chains, nextEntry) && |buckets| == |old(buckets)| && |entries| == |old(entries)|
      ensures SameData(old(entries), entries, nextEntry)
    {
      var i := 0;
      while i < nextEntry
        invariant i <= nextEntry && |buckets| == |entries| == |old(entries)|
        invariant AllBucketed(entries, buckets, chains, i)
        invariant SameData(old(entries), entries, nextEntry)
      {
        var entry := entries[i];
        if entry.hashCode != NONE {
          var b := IndexFromHash(|buckets|, entry.hashCode);
          EntryAdded(entries, buckets, chains, i, i + 1, i, entry.hashCode, entry.body);
          entries := entries[i := entry.(next := buckets[b])];
          buckets, chains := buckets[b := i], chains[b := [i] + chains[b]];
        } else {
          UnusedSkipped(entries, buckets, chains, i);
        }
        i := i + 1;
      }
    }

    /** The part of PhpAddEntryHashtable that picks an entry: a free one, or the next one, for which the
        table may have to grow. */
    method PickEntry() returns (i: nat)
      requires Valid() && !Full()
      modifies this`buckets, this`entries, this`chains, this`shift
      ensures Valid() && Contents() == old(Contents()) && SameData(old(entries), entries, nextEntry)
      ensures i < |entries| && !Used(entries, nextEntry, i)
      ensures if freeEntry != NONE then i == freeEntry < nextEntry else i == nextEntry && free == []
      ensures |entries| == if freeEntry == NONE && nextEntry == |old(entries)| then 2 * |old(entries)| else |old(entries)|
    {
      hide AllBucketed, FreeChained, Equivalence, Separate, Bodies, Power2;
      SmallIndices(shift);
      if freeEntry != NONE {
        FreeTaken(entries, freeEntry, free, nextEntry, Entry(0, 0, blank));
        i := freeEntry;
      } else {
        NoneFree(entries, free, nextEntry);
        if nextEntry == |entries| {
          Power2Monotone(shift + 1, MAX_SHIFT);
          Doubled(shift);
          ghost var k := shift;
          Resize(|buckets| * 2);
          SameShift(k + 1, shift);
        }
        i := nextEntry;
      }
    }

    /** The end of PhpAddEntryHashtable: the entry picked is taken and filled. */
    method Fill(i: nat, x: T)
      requires Valid() && i < |entries| && !Used(entries, nextEntry, i)
      requires if freeEntry != NONE then i == freeEntry < nextEntry else i == nextEntry && free == []
      requires forall j :: Used(entries, nextEntry, j) ==> !equal(entries[j].body, x)
      modifies this
      ensures Valid() && Contents() == old(Contents()) + {x} && count == old(count) + 1
      ensures |entries| == |old(entries)| && nextEntry == old(nextEntry) + (if old(freeEntry) == NONE then 1 else 0)
    {
      SmallIndices(shift);
      var hashCode := ValidateHash(hash(x));
      var b := IndexFromHash(|buckets|, hashCode);
      var entry := Entry(hashCode, buckets[b], x);
      ghost var n := nextEntry;
      hide AllBucketed, FreeChained, Equivalence, Separate, Bodies, Power2;
      if freeEntry != NONE {
        FreeTaken(entries, freeEntry, free, n, entry);
        freeEntry := entries[i].next;
        free := free[1..];
      } else {
        FreeMore(entries, n, entry);
        nextEntry := nextEntry + 1;
      }
      LengthOf(entries, buckets, chains, n);
      EntryAdded(entries, buckets, chains, n, nextEntry, i, hashCode, x);
      BodyAdded(entries, entries[i := entry], n, nextEntry, i, equal, hash, x);
      entries := entries[i := entry];
      chains := chains[b := [i] + chains[b]];
      buckets := buckets[b := i];
      count := count + 1;
    }

    /** All 2^31 entries are in use: the capacity asked for next wraps to 0. */
    predicate Full()
      reads this
    {
      freeEntry == NONE && nextEntry == |entries| && shift == MAX_SHIFT
    }

    /** PhpAddEntryHashtable, which looks for duplicates. If a full table is to grow, it is left without
        buckets, and nothing is promised. */
    method Add(x: T) returns (y: T, added: bool, wrapped: bool)
      requires Valid()
      modifies this
      ensures wrapped <==> old(Full()) && forall z :: z in old(Contents()) ==> !equal(z, x)
      ensures !wrapped ==> Valid()
      ensures !wrapped && added ==>
        && y == x && (forall z :: z in old(Contents()) ==> !equal(z, x))
        && Contents() == old(Contents()) + {x} && count == old(count) + 1
      // an unused entry is used again; a full table doubles
      ensures !wrapped && added ==>
        && nextEntry == old(nextEntry) + (if old(freeEntry) == NONE then 1 else 0)
        && |buckets| == |entries| == if old(freeEntry == NONE && nextEntry == |entries|) then 2 * |old(entries)| else |old(entries)|
      ensures !wrapped && !added ==> y in Contents() && equal(y, x) && Contents() == old(Contents()) && count == old(count)
    {
      hide AllBucketed, FreeChained, Equivalence, Separate, Power2;
      var i := Search(x);
      if i != NONE {
        return entries[i].body, false, false;
      }
      if Full() {
        return x, false, true;
      }
      i := PickEntry();
      Fill(i, x);
      y, added, wrapped := x, true, false;
    }

    /** PhClearHashtable */
    method Clear()
      requires Valid()
      modifies this
      ensures Valid() && Contents() == {} && count == 0
    {
      if count > 0 {
        buckets := Repeat(NONE, |buckets|);
        count, freeEntry, nextEntry := 0, NONE, 0;
        chains, free := Repeat([], |buckets|), [];
      } else {
        NoneUsed(entries, free, nextEntry, freeEntry);
      }
    }

    /** The part of PhRemoveEntryHashtable that takes entry i off bucket b, where it follows x. */
    method Unlink(b: nat, previous: nat, i: nat, ghost x: seq<nat>, ghost y: seq<nat>)
      requires Valid() && b < |buckets| == |chains| && chains[b] == x + [i] + y
      requires previous == if x == [] then NONE else x[|x| - 1]
      modifies this
      ensures Valid() && i < |old(entries)|
      ensures Contents() == old(Contents()) - {old(entries)[i].body} && count == old(count) - 1
    {
      hide AllBucketed, Equivalence, Separate, FreeChained, Power2, Bodies;
      SmallIndices(shift);
      LengthOf(entries, buckets, chains, nextEntry);
      Unlinking(entries, buckets, chains, nextEntry, b, x, i, y, equal, hash, freeEntry, free);
      ghost var before := entries;
      if previous == NONE {
        buckets := buckets[b := entries[i].next];
      } else {
        entries := entries[previous := entries[previous].(next := entries[i].next)];
      }
      entries := entries[i := entries[i].(hashCode := NONE, next := freeEntry)];
      assert entries == EntryUnlinked(before, x, i, freeEntry);
      chains := chains[b := x + y];
      free := [i] + free;
      freeEntry := i;
      count := count - 1;
    }

    /** The search loop of PhRemoveEntryHashtable. */
    method SearchPrevious(x: T, b: nat) returns (previous: nat, i: nat, ghost before: seq<nat>, ghost after: seq<nat>)
      requires Valid() && b == IndexFromHash(|buckets|, ValidateHash(hash(x)))
      ensures i != NONE ==>
        && chains[b] == before + [i] + after && Used(entries, nextEntry, i) && equal(entries[i].body, x)
        && previous == if before == [] then NONE else before[|before| - 1]
      ensures i == NONE ==> forall j :: Used(entries, nextEntry, j) ==> !equal(entries[j].body, x)
    {
      hide Chain, Bucketed, Separate, Equivalence, FreeChained, Distinct, Power2, Used, Missed;
      SmallIndices(shift);
      var hashCode := ValidateHash(hash(x));
      OnChain(entries, buckets, chains, nextEntry, b);
      assert Missed(entries, [], hashCode, equal, x) by { MissedNone(entries, hashCode, equal, x); }
      i := buckets[b];
      previous := NONE;
      ghost var done: seq<nat>, rest := [], chains[b];
      while i != NONE
        invariant chains[b] == done + rest && Chain(entries, i, rest, NONE)
        invariant previous == if done == [] then NONE else done[|done| - 1]
        invariant Missed(entries, done, hashCode, equal, x)
        decreases |rest|
      {
        ChainHead(entries, i, rest);
        Advance(chains[b], done, rest);
        if entries[i].hashCode == hashCode && equal(entries[i].body, x) {
          before, after := done, rest[1..];
          return;
        }
        MissedMore(entries, done, i, hashCode, equal, x);
        done, rest := done + [rest[0]], rest[1..];
        previous := i;
        i := entries[i].next;
      }
      ChainHead(entries, i, rest);
      assert done == chains[b];
      NotFound(entries, buckets, chains, nextEntry, equal, hash, x);
      before, after := [], [];
    }

    /** PhRemoveEntryHashtable */
    method Remove(x: T) returns (removed: bool)
      requires Valid()
      modifies this
      ensures Valid()
      ensures removed ==>
        exists y :: y in old(Contents()) && equal(y, x) && Contents() == old(Contents()) - {y} && count == old(count) - 1
      ensures !removed ==>
        (forall y :: y in old(Contents()) ==> !equal(y, x)) && Contents() == old(Contents()) && count == old(count)
    {
      var b := IndexFromHash(|buckets|, ValidateHash(hash(x)));
      var previous, i;
      ghost var before, after;
      previous, i, before, after := SearchPrevious(x, b);
      removed := i != NONE;
      if removed {
        assert entries[i].body in Contents();
        Unlink(b, previous, i, before, after);
      }
    }
  }
}
