/** The handle table (phlib/handle.c) as one thread sees it: a table of one to three levels that grows
    by 256 entries at a time, and the order in which freed handles are used again. */
module HandleTable {
  import opened Sequences

  type Ptr = nat

  const NULL: Ptr := 0
  const INVALID: nat := 0xFFFF_FFFF       // PH_HANDLE_VALUE_INVALID
  const ENTRIES: nat := 256               // PH_HANDLE_TABLE_LEVEL_ENTRIES
  const FREE_COUNT: nat := 64             // PH_HANDLE_TABLE_FREE_COUNT
  const MAX_BLOCKS: nat := 65536

  /** TableValue: a pointer with the level in its low bits. */
  datatype TableValue = TableValue(level: nat, p: Ptr)

  /** The entries of level 0 tables, of which only NextFreeValue matters here, and the pointers in the
      tables of levels 1 and 2. */
  datatype Memory = Memory(level0: map<Ptr, seq<nat>>, upper: map<Ptr, seq<Ptr>>)

  /** The address of an entry. */
  datatype Entry = NoEntry | Entry(table0: Ptr, index: nat)

  // ---------------------------------------------------------------------------------------------
  // Levels
  // ---------------------------------------------------------------------------------------------

  /** The table of pointers p leads to the level 0 tables of blocks, and to nothing behind them. */
  ghost predicate LeadsTo(upper: map<Ptr, seq<Ptr>>, p: Ptr, blocks: seq<Ptr>) {
    && p in upper && |upper[p]| == ENTRIES && |blocks| <= ENTRIES
    && (forall i :: 0 <= i < |blocks| ==> upper[p][i] == blocks[i])
    && (forall i :: |blocks| <= i < ENTRIES ==> upper[p][i] == NULL)
  }

  /** The blocks below the entry i of a level 2 table. */
  function Part(blocks: seq<Ptr>, i: nat): seq<Ptr> {
    if |blocks| <= i * ENTRIES then []
    else if |blocks| <= (i + 1) * ENTRIES then blocks[i * ENTRIES..]
    else blocks[i * ENTRIES..(i + 1) * ENTRIES]
  }

  /** The table value leads to the level 0 tables of blocks, in this order. */
  ghost predicate Shaped(m: Memory, v: TableValue, blocks: seq<Ptr>) {
    && blocks != []
    && (v.level == 0 ==> blocks == [v.p])
    && (v.level == 1 ==> LeadsTo(m.upper, v.p, blocks) && |blocks| > 1)
    && (v.level == 2 ==> |blocks| > ENTRIES && ShapedAbove(m.upper, v.p, blocks))
    && v.level <= 2
  }

  ghost predicate ShapedAbove(upper: map<Ptr, seq<Ptr>>, p: Ptr, blocks: seq<Ptr>) {
    && p in upper && |upper[p]| == ENTRIES && |blocks| <= MAX_BLOCKS
    && (forall i :: 0 <= i < ENTRIES ==>
          if i * ENTRIES < |blocks| then upper[p][i] != NULL && upper[p][i] != p && LeadsTo(upper, upper[p][i], Part(blocks, i))
          else upper[p][i] == NULL)
    && (forall i, j :: 0 <= i < j < ENTRIES && upper[p][i] != NULL ==> upper[p][i] != upper[p][j])
  }

  ghost predicate Tables(m: Memory, blocks: seq<Ptr>) {
    && (forall b :: 0 <= b < |blocks| ==> blocks[b] != NULL && blocks[b] in m.level0 && |m.level0[blocks[b]]| == ENTRIES)
    && (forall b, c :: 0 <= b < c < |blocks| ==> blocks[b] != blocks[c])
  }

  /** PhpLookupHandleTableEntry */
  function Lookup(m: Memory, v: TableValue, nextValue: nat, h: nat): Entry
  {
    if h >= nextValue then NoEntry
    else if v.level == 0 then Entry(v.p, h)
    else if v.level == 1 then Entry(At(m.upper, v.p, h / ENTRIES), h % ENTRIES)
    else Entry(At(m.upper, At(m.upper, v.p, h / (ENTRIES * ENTRIES)), h / ENTRIES % ENTRIES), h % ENTRIES)
  }

  function At(upper: map<Ptr, seq<Ptr>>, p: Ptr, i: nat): Ptr {
    if p in upper && i < |upper[p]| then upper[p][i] else NULL
  }

  /** Every value below NextValue has its own entry, whatever the level of the table. */
  lemma LookupFinds(m: Memory, v: TableValue, blocks: seq<Ptr>, nextValue: nat, h: nat)
    requires Shaped(m, v, blocks) && nextValue == ENTRIES * |blocks|
    ensures Lookup(m, v, nextValue, h)
      == if h < nextValue then Entry(blocks[h / ENTRIES], h % ENTRIES) else NoEntry
  {
    if h < nextValue && v.level == 2 {
      var b := h / ENTRIES;
      var i := h / (ENTRIES * ENTRIES);
      assert i == b / ENTRIES && i * ENTRIES <= b < (i + 1) * ENTRIES;
      assert Part(blocks, i)[b % ENTRIES] == blocks[b];
    }
  }

  lemma LookupDistinct(m: Memory, v: TableValue, blocks: seq<Ptr>, nextValue: nat, h: nat, k: nat)
    requires Shaped(m, v, blocks) && Tables(m, blocks) && nextValue == ENTRIES * |blocks|
    requires h < nextValue && k < nextValue && h != k
    ensures Lookup(m, v, nextValue, h) != Lookup(m, v, nextValue, k)
  {
    LookupFinds(m, v, blocks, nextValue, h);
    LookupFinds(m, v, blocks, nextValue, k);
  }

  // ---------------------------------------------------------------------------------------------
  // Growth
  // ---------------------------------------------------------------------------------------------

  /** A new table of pointers. */
  function Pointers(first: seq<Ptr>): (s: seq<Ptr>)
    requires |first| <= ENTRIES
    ensures |s| == ENTRIES
    ensures forall i :: 0 <= i < ENTRIES ==> s[i] == if i < |first| then first[i] else NULL
  {
    first + seq(ENTRIES - |first|, _ => NULL)
  }

  function Put(row: seq<Ptr>, i: nat, p: Ptr): seq<Ptr>
    requires i < |row|
  {
    row[i := p]
  }

  lemma LeadsToFrame(upper: map<Ptr, seq<Ptr>>, upper': map<Ptr, seq<Ptr>>, p: Ptr, blocks: seq<Ptr>)
    requires LeadsTo(upper, p, blocks) && p in upper' && upper'[p] == upper[p]
    ensures LeadsTo(upper', p, blocks)
  {
  }

  lemma PartsOfMore(blocks: seq<Ptr>, t: Ptr, i: nat)
    ensures i * ENTRIES < |blocks| && i != |blocks| / ENTRIES ==> Part(blocks + [t], i) == Part(blocks, i)
    ensures i == |blocks| / ENTRIES ==> Part(blocks + [t], i) == Part(blocks, i) + [t]
  {
    var bt := blocks + [t];
    if i * ENTRIES < |blocks| && i != |blocks| / ENTRIES {
      assert (i + 1) * ENTRIES <= |blocks|;
      assert bt[i * ENTRIES..(i + 1) * ENTRIES] == blocks[i * ENTRIES..(i + 1) * ENTRIES];
      if |blocks| == (i + 1) * ENTRIES {
        assert blocks[i * ENTRIES..] == blocks[i * ENTRIES..(i + 1) * ENTRIES];
      }
    } else if i == |blocks| / ENTRIES {
      assert i * ENTRIES <= |blocks| < (i + 1) * ENTRIES;
      assert Part(blocks, i) == blocks[i * ENTRIES..];
      assert bt[i * ENTRIES..] == blocks[i * ENTRIES..] + [t];
      if |bt| == (i + 1) * ENTRIES {
        assert bt[i * ENTRIES..(i + 1) * ENTRIES] == bt[i * ENTRIES..];
      }
    }
  }

  /** A level 2 table takes the place of a full level 1 table. */
  lemma GrowthFrom1(upper: map<Ptr, seq<Ptr>>, upper': map<Ptr, seq<Ptr>>, p: Ptr, blocks: seq<Ptr>, t: Ptr, p1: Ptr, p2: Ptr)
    requires LeadsTo(upper, p, blocks) && |blocks| == ENTRIES
    requires p != NULL && p1 != NULL && p1 != p && p2 != p && p1 != p2
    requires upper' == upper[p1 := Pointers([t])][p2 := Pointers([p, p1])]
    ensures ShapedAbove(upper', p2, blocks + [t])
  {
    var bt := blocks + [t];
    assert Part(bt, 0) == blocks && Part(bt, 1) == [t];
    LeadsToFrame(upper, upper', p, blocks);
    forall i | 0 <= i < ENTRIES
      ensures if i * ENTRIES < |bt| then upper'[p2][i] != NULL && upper'[p2][i] != p2 && LeadsTo(upper', upper'[p2][i], Part(bt, i))
              else upper'[p2][i] == NULL
    {
      assert i * ENTRIES < |bt| ==> i == 0 || i == 1;
    }
  }

  /** A level 0 table is put in the last level 1 table. */
  lemma GrowthInPart(upper: map<Ptr, seq<Ptr>>, upper': map<Ptr, seq<Ptr>>, p: Ptr, blocks: seq<Ptr>, t: Ptr, i: nat, j: nat)
    requires ShapedAbove(upper, p, blocks) && |blocks| < MAX_BLOCKS
    requires i == |blocks| / ENTRIES && j == |blocks| % ENTRIES && j > 0
    requires var q := upper[p][i]; q in upper && j < |upper[q]| && upper' == upper[q := Put(upper[q], j, t)]
    ensures ShapedAbove(upper', p, blocks + [t])
  {
    var bt, q := blocks + [t], upper[p][i];
    assert i * ENTRIES < |blocks| < (i + 1) * ENTRIES;
    assert LeadsTo(upper, q, Part(blocks, i)) && |Part(blocks, i)| == j;
    forall k | 0 <= k < ENTRIES
      ensures if k * ENTRIES < |bt| then upper'[p][k] != NULL && upper'[p][k] != p && LeadsTo(upper', upper'[p][k], Part(bt, k))
              else upper'[p][k] == NULL
    {
      PartsOfMore(blocks, t, k);
      assert k * ENTRIES < |bt| <==> k * ENTRIES < |blocks|;
      if k * ENTRIES < |blocks| && k != i {
        assert upper[p][k] != q;
        LeadsToFrame(upper, upper', upper[p][k], Part(blocks, k));
      }
    }
  }

  /** A new level 1 table is put in the level 2 table. */
  lemma GrowthByPart(upper: map<Ptr, seq<Ptr>>, upper': map<Ptr, seq<Ptr>>, p: Ptr, blocks: seq<Ptr>, t: Ptr, i: nat, p1: Ptr)
    requires ShapedAbove(upper, p, blocks) && |blocks| < MAX_BLOCKS
    requires |blocks| == i * ENTRIES && p1 != NULL && p1 !in upper
    requires i < |upper[p]|
    requires upper' == upper[p1 := Pointers([t])][p := Put(upper[p], i, p1)]
    ensures ShapedAbove(upper', p, blocks + [t])
  {
    var bt := blocks + [t];
    forall k | 0 <= k < ENTRIES
      ensures if k * ENTRIES < |bt| then upper'[p][k] != NULL && upper'[p][k] != p && LeadsTo(upper', upper'[p][k], Part(bt, k))
              else upper'[p][k] == NULL
      ensures k != i && upper'[p][k] != NULL ==> upper'[p][k] in upper
    {
      PartsOfMore(blocks, t, k);
      if k == i {
        assert Part(bt, k) == [t];
      } else if k * ENTRIES < |blocks| {
        assert LeadsTo(upper, upper[p][k], Part(blocks, k));
        LeadsToFrame(upper, upper', upper[p][k], Part(blocks, k));
      }
    }
  }

  // ---------------------------------------------------------------------------------------------
  // Chains of free handles
  // ---------------------------------------------------------------------------------------------

  /** NextFreeValue of the entry of h. */
  function Next(level0: map<Ptr, seq<nat>>, e: Entry): nat {
    if e.Entry? && e.table0 in level0 && e.index < |level0[e.table0]| then level0[e.table0][e.index] else INVALID
  }

  function EntryOf(blocks: seq<Ptr>, h: nat): Entry {
    if h < ENTRIES * |blocks| then Entry(blocks[h / ENTRIES], h % ENTRIES) else NoEntry
  }

  /** The links lead from first through s to end. */
  ghost predicate Chain(level0: map<Ptr, seq<nat>>, blocks: seq<Ptr>, first: nat, s: seq<nat>, end: nat)
    decreases s
  {
    if s == [] then first == end
    else
      && first == s[0] && s[0] < ENTRIES * |blocks|
      && Chain(level0, blocks, Next(level0, EntryOf(blocks, s[0])), s[1..], end)
  }

  lemma {:induction false} ChainFrame(level0: map<Ptr, seq<nat>>, blocks: seq<Ptr>, level0': map<Ptr, seq<nat>>, blocks': seq<Ptr>,
                                      first: nat, s: seq<nat>, end: nat)
    requires Chain(level0, blocks, first, s, end) && |blocks| <= |blocks'|
    requires forall h :: h in s ==> Next(level0', EntryOf(blocks', h)) == Next(level0, EntryOf(blocks, h))
    ensures Chain(level0', blocks', first, s, end)
    decreases s
  {
    if s != [] {
      assert s[0] in s && forall h :: h in s[1..] ==> h in s;
      ChainFrame(level0, blocks, level0', blocks', Next(level0, EntryOf(blocks, s[0])), s[1..], end);
    }
  }

  lemma {:induction false} ChainConcat(level0: map<Ptr, seq<nat>>, blocks: seq<Ptr>, first: nat, a: seq<nat>, middle: nat, b: seq<nat>, end: nat)
    requires Chain(level0, blocks, first, a, middle) && Chain(level0, blocks, middle, b, end)
    ensures Chain(level0, blocks, first, a + b, end)
    decreases a
  {
    if a == [] {
      assert a + b == b;
    } else {
      ChainConcat(level0, blocks, Next(level0, EntryOf(blocks, a[0])), a[1..], middle, b, end);
      assert (a + b)[1..] == a[1..] + b;
    }
  }

  lemma {:induction false} ChainMembers(level0: map<Ptr, seq<nat>>, blocks: seq<Ptr>, first: nat, s: seq<nat>, end: nat)
    requires Chain(level0, blocks, first, s, end)
    ensures forall h :: h in s ==> h < ENTRIES * |blocks|
    decreases s
  {
    if s != [] {
      assert forall h :: h in s <==> h == s[0] || h in s[1..];
      ChainMembers(level0, blocks, Next(level0, EntryOf(blocks, s[0])), s[1..], end);
    }
  }

  /** The last link of a chain is written. */
  lemma {:induction false} ChainEnd(level0: map<Ptr, seq<nat>>, level0': map<Ptr, seq<nat>>, blocks: seq<Ptr>,
                                    first: nat, s: seq<nat>, last: nat, end: nat, end': nat)
    requires Chain(level0, blocks, first, s + [last], end) && Distinct(s + [last])
    requires forall h :: h != last ==> Next(level0', EntryOf(blocks, h)) == Next(level0, EntryOf(blocks, h))
    requires Next(level0', EntryOf(blocks, last)) == end'
    ensures Chain(level0', blocks, first, s + [last], end')
    decreases s
  {
    var whole := s + [last];
    if s == [] {
      assert whole[1..] == [];
    } else {
      assert whole[1..] == s[1..] + [last];
      ChainEnd(level0, level0', blocks, Next(level0, EntryOf(blocks, s[0])), s[1..], last, end, end');
    }
  }

  /** The new handles of one expansion, in order. */
  function Range(base: nat, n: nat): (s: seq<nat>)
    ensures |s| == n && forall i :: 0 <= i < n ==> s[i] == base + i
  {
    seq(n, (i: nat) => base + i)
  }

  lemma RangeMembers(base: nat, n: nat)
    ensures forall k :: k in Range(base, n) <==> base <= k < base + n
  {
    forall k: nat | base <= k < base + n ensures k in Range(base, n) {
      assert Range(base, n)[k - base] == k;
    }
  }

  lemma {:induction false} RangeDistinct(base: nat, n: nat)
    ensures Distinct(Range(base, n))
    decreases n
  {
    if n > 0 {
      RangeDistinct(base + 1, n - 1);
      assert Range(base, n)[1..] == Range(base + 1, n - 1);
    }
  }

  /** The chain set up by PhpCreateHandleTableLevel0, with the link of its last entry set to end. */
  lemma {:induction false} ChainOfRange(level0: map<Ptr, seq<nat>>, blocks: seq<Ptr>, base: nat, k: nat, end: nat)
    requires blocks != [] && k < ENTRIES && base == ENTRIES * (|blocks| - 1)
    requires forall i :: base + k <= i < base + ENTRIES - 1 ==> Next(level0, EntryOf(blocks, i)) == i + 1
    requires Next(level0, EntryOf(blocks, base + ENTRIES - 1)) == end
    ensures Chain(level0, blocks, base + k, Range(base + k, ENTRIES - k), end)
    decreases ENTRIES - k
  {
    var s := Range(base + k, ENTRIES - k);
    if k == ENTRIES - 1 {
      assert s == [base + k];
    } else {
      ChainOfRange(level0, blocks, base, k + 1, end);
      assert s[1..] == Range(base + k + 1, ENTRIES - (k + 1));
    }
  }

  // ---------------------------------------------------------------------------------------------
  // The table
  // ---------------------------------------------------------------------------------------------

  /** The level 0 table t has been created: its entries lead to each other in order. */
  ghost predicate NewTable(level0: map<Ptr, seq<nat>>, level0': map<Ptr, seq<nat>>, t: Ptr, base: nat) {
    && t !in level0 && t in level0' && level0' == level0[t := level0'[t]]
    && |level0'[t]| == ENTRIES
    && forall k :: 0 <= k < ENTRIES ==> level0'[t][k] == if k < ENTRIES - 1 then base + k + 1 else INVALID
  }

  lemma TablesMore(level0: map<Ptr, seq<nat>>, level0': map<Ptr, seq<nat>>, upper: map<Ptr, seq<Ptr>>, blocks: seq<Ptr>, t: Ptr, base: nat)
    requires Tables(Memory(level0, upper), blocks) && NewTable(level0, level0', t, base) && t != NULL
    ensures Tables(Memory(level0', upper), blocks + [t])
    ensures forall v :: |v| == ENTRIES ==> Tables(Memory(level0'[t := v], upper), blocks + [t])
  {
  }

  lemma OldEntry(level0: map<Ptr, seq<nat>>, level0': map<Ptr, seq<nat>>, blocks: seq<Ptr>, t: Ptr, h: nat)
    requires t !in blocks && h < ENTRIES * |blocks|
    requires t in level0' && level0' == level0[t := level0'[t]]
    ensures EntryOf(blocks + [t], h) == EntryOf(blocks, h)
    ensures Next(level0', EntryOf(blocks + [t], h)) == Next(level0, EntryOf(blocks, h))
  {
  }

  /** A new table leaves the chains of older handles alone. */
  lemma OldChain(level0: map<Ptr, seq<nat>>, level0': map<Ptr, seq<nat>>, blocks: seq<Ptr>, t: Ptr, first: nat, s: seq<nat>)
    requires t !in blocks
    requires t in level0' && level0' == level0[t := level0'[t]]
    requires Chain(level0, blocks, first, s, INVALID)
    ensures Chain(level0', blocks + [t], first, s, INVALID)
    ensures forall h :: h in s ==> h < ENTRIES * |blocks|
  {
    ChainMembers(level0, blocks, first, s, INVALID);
    forall h: nat | h in s ensures Next(level0', EntryOf(blocks + [t], h)) == Next(level0, EntryOf(blocks, h)) {
      OldEntry(level0, level0', blocks, t, h);
    }
    ChainFrame(level0, blocks, level0', blocks + [t], first, s, INVALID);
  }

  /** The entries of the new table, the last of which leads to the old free list. */
  ghost predicate Prepended(level0': map<Ptr, seq<nat>>, blocks: seq<Ptr>, t: Ptr, first: nat) {
    && t in level0' && |level0'[t]| == ENTRIES
    && forall k :: 0 <= k < ENTRIES ==> level0'[t][k] == if k < ENTRIES - 1 then ENTRIES * |blocks| + k + 1 else first
  }

  lemma NewChain(level0': map<Ptr, seq<nat>>, blocks: seq<Ptr>, t: Ptr, first: nat)
    requires Prepended(level0', blocks, t, first)
    ensures Chain(level0', blocks + [t], ENTRIES * |blocks|, Range(ENTRIES * |blocks|, ENTRIES), first)
  {
    var base, bt := ENTRIES * |blocks|, blocks + [t];
    assert forall i :: base <= i < base + ENTRIES ==> EntryOf(bt, i) == Entry(t, i - base);
    ChainOfRange(level0', bt, base, 0, first);
  }

  /** The handles of a new table are put in front of the free list. */
  lemma NewHandles(level0: map<Ptr, seq<nat>>, level0': map<Ptr, seq<nat>>, blocks: seq<Ptr>, t: Ptr, first: nat, main: seq<nat>,
                   firstAlt: nat, alt: seq<nat>)
    requires t !in blocks
    requires Prepended(level0', blocks, t, first) && level0' == level0[t := level0'[t]]
    requires Chain(level0, blocks, first, main, INVALID) && Chain(level0, blocks, firstAlt, alt, INVALID) && Distinct(main + alt)
    ensures Chain(level0', blocks + [t], ENTRIES * |blocks|, Range(ENTRIES * |blocks|, ENTRIES) + main, INVALID)
    ensures Chain(level0', blocks + [t], firstAlt, alt, INVALID)
    ensures Distinct(Range(ENTRIES * |blocks|, ENTRIES) + main + alt)
  {
    hide *;
    var base, bt := ENTRIES * |blocks|, blocks + [t];
    NewChain(level0', blocks, t, first);
    OldChain(level0, level0', blocks, t, first, main);
    OldChain(level0, level0', blocks, t, firstAlt, alt);
    ChainConcat(level0', bt, base, Range(base, ENTRIES), first, main, INVALID);
    RangeDistinct(base, ENTRIES);
    DistinctConcat(Range(base, ENTRIES), main + alt);
    Associate(Range(base, ENTRIES), main, alt);
  }

  lemma Pushed(level0: map<Ptr, seq<nat>>, upper: map<Ptr, seq<Ptr>>, v: TableValue, blocks: seq<Ptr>, t: Ptr,
               first: nat, main: seq<nat>, firstAlt: nat, alt: seq<nat>)
    requires Shaped(Memory(level0, upper), v, blocks + [t]) && Tables(Memory(level0, upper), blocks + [t]) && t !in blocks
    requires t in level0 && |level0[t]| == ENTRIES
    requires forall k :: 0 <= k < ENTRIES - 1 ==> level0[t][k] == ENTRIES * |blocks| + k + 1
    requires Chain(level0, blocks, first, main, INVALID) && Chain(level0, blocks, firstAlt, alt, INVALID) && Distinct(main + alt)
    ensures var level0' := level0[t := Put(level0[t], ENTRIES - 1, first)];
      && Shaped(Memory(level0', upper), v, blocks + [t]) && Tables(Memory(level0', upper), blocks + [t])
      && Chain(level0', blocks + [t], ENTRIES * |blocks|, Range(ENTRIES * |blocks|, ENTRIES) + main, INVALID)
      && Chain(level0', blocks + [t], firstAlt, alt, INVALID)
      && Distinct(Range(ENTRIES * |blocks|, ENTRIES) + main + alt)
  {
    hide Chain, Distinct, Range;
    var level0' := level0[t := Put(level0[t], ENTRIES - 1, first)];
    NewHandles(level0, level0', blocks, t, first, main, firstAlt, alt);
  }

  lemma SameChain(level0: map<Ptr, seq<nat>>, level0': map<Ptr, seq<nat>>, blocks: seq<Ptr>, t: Ptr, first: nat, s: seq<nat>)
    requires t !in blocks && t in level0' && level0' == level0[t := level0'[t]]
    requires Chain(level0, blocks, first, s, INVALID)
    ensures Chain(level0', blocks, first, s, INVALID)
  {
    forall h: nat | h in s ensures Next(level0', EntryOf(blocks, h)) == Next(level0, EntryOf(blocks, h)) {
    }
    ChainFrame(level0, blocks, level0', blocks, first, s, INVALID);
  }

  /** Entries keep their identity when the table grows, even when it gets another level. */
  lemma EntryKept(m: Memory, v: TableValue, blocks: seq<Ptr>, m': Memory, v': TableValue, blocks': seq<Ptr>, h: nat)
    requires Shaped(m, v, blocks) && Shaped(m', v', blocks') && blocks <= blocks' && h < ENTRIES * |blocks|
    ensures Lookup(m', v', ENTRIES * |blocks'|, h) == Lookup(m, v, ENTRIES * |blocks|, h)
  {
    LookupFinds(m, v, blocks, ENTRIES * |blocks|, h);
    LookupFinds(m', v', blocks', ENTRIES * |blocks'|, h);
  }

  /** entry->NextFreeValue = v */
  function WithNext(level0: map<Ptr, seq<nat>>, e: Entry, v: nat): map<Ptr, seq<nat>>
    requires e.Entry? && e.table0 in level0 && e.index < |level0[e.table0]|
  {
    level0[e.table0 := Put(level0[e.table0], e.index, v)]
  }

  lemma Written(level0: map<Ptr, seq<nat>>, upper: map<Ptr, seq<Ptr>>, v: TableValue, blocks: seq<Ptr>, h: nat, next: nat)
    requires Tables(Memory(level0, upper), blocks) && Shaped(Memory(level0, upper), v, blocks) && h < ENTRIES * |blocks|
    ensures Lookup(Memory(level0, upper), v, ENTRIES * |blocks|, h) == EntryOf(blocks, h)
    ensures var e := EntryOf(blocks, h); e.Entry? && e.table0 in level0 && e.index < |level0[e.table0]|
    ensures var level0' := WithNext(level0, EntryOf(blocks, h), next);
      && level0'.Keys == level0.Keys
      && Tables(Memory(level0', upper), blocks) && Shaped(Memory(level0', upper), v, blocks)
      && Next(level0', EntryOf(blocks, h)) == next
      && forall k :: k != h ==> Next(level0', EntryOf(blocks, k)) == Next(level0, EntryOf(blocks, k))
  {
    LookupFinds(Memory(level0, upper), v, blocks, ENTRIES * |blocks|, h);
  }

  /** A handle that is on no list is pushed. */
  lemma ChainPush(level0: map<Ptr, seq<nat>>, level0': map<Ptr, seq<nat>>, blocks: seq<Ptr>, first: nat, s: seq<nat>, h: nat)
    requires Chain(level0, blocks, first, s, INVALID) && h !in s && h < ENTRIES * |blocks|
    requires Next(level0', EntryOf(blocks, h)) == first
    requires forall k :: k != h ==> Next(level0', EntryOf(blocks, k)) == Next(level0, EntryOf(blocks, k))
    ensures Chain(level0', blocks, h, [h] + s, INVALID)
  {
    ChainFrame(level0, blocks, level0', blocks, first, s, INVALID);
    assert ([h] + s)[1..] == s;
  }

  lemma FirstTable(level0: map<Ptr, seq<nat>>, p: Ptr, top: Ptr)
    requires NewTable(map[], level0, p, 0) && 0 < p < top
    ensures ShapeOf(level0, map[], TableValue(0, p), top, [p], ENTRIES)
    ensures ListsOf(level0, [p], 0, Range(0, ENTRIES), INVALID, [])
  {
    hide Range;
    assert [] + [p] == [p];
    assert Range(0, ENTRIES) + [] == Range(0, ENTRIES);
    NewChain(level0, [], p, INVALID);
    RangeDistinct(0, ENTRIES);
  }

  ghost predicate BoundedBy(level0: map<Ptr, seq<nat>>, upper: map<Ptr, seq<Ptr>>, v: TableValue, top: Ptr) {
    0 < v.p < top && (forall p :: p in level0 ==> p < top) && (forall p :: p in upper ==> p < top)
  }

  ghost predicate ShapeOf(level0: map<Ptr, seq<nat>>, upper: map<Ptr, seq<Ptr>>, v: TableValue, top: Ptr, blocks: seq<Ptr>, nextValue: nat) {
    && Shaped(Memory(level0, upper), v, blocks) && Tables(Memory(level0, upper), blocks)
    && |blocks| <= MAX_BLOCKS && nextValue == ENTRIES * |blocks|
    && BoundedBy(level0, upper, v, top)
  }

  /** The two free lists. */
  ghost predicate ListsOf(level0: map<Ptr, seq<nat>>, blocks: seq<Ptr>, first: nat, main: seq<nat>, firstAlt: nat, alt: seq<nat>) {
    && Chain(level0, blocks, first, main, INVALID)
    && Chain(level0, blocks, firstAlt, alt, INVALID)
    && Distinct(main + alt)
  }

  lemma OwnedIsCounted(level0: map<Ptr, seq<nat>>, blocks: seq<Ptr>, first: nat, main: seq<nat>, firstAlt: nat, alt: seq<nat>, h: nat)
    requires ListsOf(level0, blocks, first, main, firstAlt, alt)
    requires h < ENTRIES * |blocks| && h !in main && h !in alt
    ensures |main| + |alt| < ENTRIES * |blocks|
  {
    ChainMembers(level0, blocks, first, main, INVALID);
    ChainMembers(level0, blocks, firstAlt, alt, INVALID);
    assert ([h] + (main + alt))[1..] == main + alt;
    DistinctBound([h] + (main + alt), ENTRIES * |blocks|);
  }

  /** A handle that is on no list is pushed onto one of the two. */
  lemma Freed(level0: map<Ptr, seq<nat>>, upper: map<Ptr, seq<Ptr>>, v: TableValue, top: Ptr, blocks: seq<Ptr>,
              first: nat, main: seq<nat>, firstAlt: nat, alt: seq<nat>, h: nat, onAlt: bool)
    requires ShapeOf(level0, upper, v, top, blocks, ENTRIES * |blocks|) && ListsOf(level0, blocks, first, main, firstAlt, alt)
    requires h < ENTRIES * |blocks| && h !in main && h !in alt
    ensures var e := Lookup(Memory(level0, upper), v, ENTRIES * |blocks|, h);
      && e.Entry? && e.table0 in level0 && e.index < |level0[e.table0]|
      && var level0' := WithNext(level0, e, if onAlt then firstAlt else first);
      && ShapeOf(level0', upper, v, top, blocks, ENTRIES * |blocks|)
      && if onAlt then ListsOf(level0', blocks, first, main, h, [h] + alt) else ListsOf(level0', blocks, h, [h] + main, firstAlt, alt)
  {
    var next := if onAlt then firstAlt else first;
    Written(level0, upper, v, blocks, h, next);
    hide Tables, Shaped, WithNext, EntryOf, Lookup;
    var level0' := WithNext(level0, EntryOf(blocks, h), next);
    ChainFrame(level0, blocks, level0', blocks, first, main, INVALID);
    ChainFrame(level0, blocks, level0', blocks, firstAlt, alt, INVALID);
    if onAlt {
      ChainPush(level0, level0', blocks, firstAlt, alt, h);
      DistinctConcat(main, alt);
      assert ([h] + alt)[1..] == alt;
      DistinctConcat(main, [h] + alt);
    } else {
      ChainPush(level0, level0', blocks, first, main, h);
      assert ([h] + main + alt)[1..] == main + alt;
    }
  }

  /** From level0 to level0', the link of h has become next and no other has changed. */
  ghost predicate Wrote(level0: map<Ptr, seq<nat>>, level0': map<Ptr, seq<nat>>, blocks: seq<Ptr>, h: nat, next: nat) {
    && Next(level0', EntryOf(blocks, h)) == next
    && forall k :: k != h ==> Next(level0', EntryOf(blocks, k)) == Next(level0, EntryOf(blocks, k))
  }

  /** Only links of the handles s have changed. */
  ghost predicate WroteOnly(level0: map<Ptr, seq<nat>>, level0': map<Ptr, seq<nat>>, blocks: seq<Ptr>, s: seq<nat>) {
    forall k: nat :: k !in s ==> Next(level0', EntryOf(blocks, k)) == Next(level0, EntryOf(blocks, k))
  }

  /** One step of the reversal of a chain: the first handle of the rest moves to the front of what has
      been reversed. */
  lemma Turned(level0: map<Ptr, seq<nat>>, level0': map<Ptr, seq<nat>>, blocks: seq<Ptr>, last: nat, turned: seq<nat>, rest: seq<nat>)
    requires rest != [] && Chain(level0, blocks, rest[0], rest, INVALID) && Chain(level0, blocks, last, Reversed(turned), INVALID)
    requires Distinct(turned + rest) && Wrote(level0, level0', blocks, rest[0], last)
    ensures Chain(level0', blocks, rest[0], Reversed(turned + [rest[0]]), INVALID)
    ensures Chain(level0', blocks, Next(level0, EntryOf(blocks, rest[0])), rest[1..], INVALID)
    ensures |blocks| <= MAX_BLOCKS ==> (rest[1..] == [] <==> Next(level0, EntryOf(blocks, rest[0])) == INVALID)
  {
    DistinctConcat(turned, rest);
    ReversedMembers(turned);
    assert rest[0] in rest;
    ChainPush(level0, level0', blocks, last, Reversed(turned), rest[0]);
    ReversedConcat(turned, [rest[0]]);
    assert Reversed([rest[0]]) == [rest[0]];
    ChainFrame(level0, blocks, level0', blocks, Next(level0, EntryOf(blocks, rest[0])), rest[1..], INVALID);
  }

  /** The reversed chain is put in front of the free list. */
  lemma Joined(level0: map<Ptr, seq<nat>>, level0': map<Ptr, seq<nat>>, blocks: seq<Ptr>, index: nat, s: seq<nat>, first: nat, main: seq<nat>)
    requires s != [] && Chain(level0, blocks, index, Reversed(s), INVALID) && Chain(level0, blocks, first, main, INVALID)
    requires Distinct(main + s) && Wrote(level0, level0', blocks, s[0], first)
    ensures Chain(level0', blocks, index, Reversed(s) + main, INVALID)
    ensures Distinct(Reversed(s) + main)
  {
    DistinctConcat(main, s);
    ReversedMembers(s);
    ReversedDistinct(s);
    DistinctConcat(Reversed(s), main);
    ReversedPush(s[0], s[1..]);
    assert s == [s[0]] + s[1..];
    assert s[0] in s;
    hide Reversed, Distinct, EntryOf, Next;
    var r := Reversed(s[1..]);
    assert Reversed(s) == r + [s[0]];
    ChainEnd(level0, level0', blocks, index, r, s[0], INVALID, first);
    ChainFrame(level0, blocks, level0', blocks, first, main, INVALID);
    hide Chain, Wrote;
    ChainConcat(level0', blocks, index, Reversed(s), first, main, INVALID);
  }

  lemma WroteMore(level0: map<Ptr, seq<nat>>, level1: map<Ptr, seq<nat>>, level2: map<Ptr, seq<nat>>, blocks: seq<Ptr>, s: seq<nat>, h: nat, next: nat)
    requires WroteOnly(level0, level1, blocks, s) && Wrote(level1, level2, blocks, h, next) && h in s
    ensures WroteOnly(level0, level2, blocks, s)
  {
  }

  lemma FirstOf(level0: map<Ptr, seq<nat>>, blocks: seq<Ptr>, first: nat, s: seq<nat>)
    requires Chain(level0, blocks, first, s, INVALID)
    ensures first == if s == [] then INVALID else s[0]
  {
  }

  lemma Unturned(level0: map<Ptr, seq<nat>>, upper: map<Ptr, seq<Ptr>>, v: TableValue, top: Ptr, blocks: seq<Ptr>, nextValue: nat,
                 first: nat, s: seq<nat>)
    requires ShapeOf(level0, upper, v, top, blocks, nextValue) && s != [] && Chain(level0, blocks, first, s, INVALID)
    ensures first == s[0] && Chain(level0, blocks, INVALID, Reversed([]), INVALID) && WroteOnly(level0, level0, blocks, s)
    ensures forall h :: h in s ==> h < nextValue
  {
    ChainMembers(level0, blocks, first, s, INVALID);
  }

  /** The alternate list, reversed, goes in front of the free list. */
  lemma MovedLists(level0: map<Ptr, seq<nat>>, level1: map<Ptr, seq<nat>>, level2: map<Ptr, seq<nat>>, blocks: seq<Ptr>,
                   first: nat, main: seq<nat>, firstAlt: nat, alt: seq<nat>, index: nat)
    requires ListsOf(level0, blocks, first, main, firstAlt, alt) && alt != []
    requires WroteOnly(level0, level1, blocks, alt) && Chain(level1, blocks, index, Reversed(alt), INVALID)
    requires Wrote(level1, level2, blocks, alt[0], first)
    requires |blocks| <= MAX_BLOCKS
    ensures ListsOf(level2, blocks, index, Reversed(alt) + main, INVALID, [])
    ensures Reversed(alt) + main != [] && index == (Reversed(alt) + main)[0]
  {
    assert |Reversed(alt)| == |alt|;
    DistinctConcat(main, alt);
    hide Reversed, Distinct, EntryOf, Next;
    ChainFrame(level0, blocks, level1, blocks, first, main, INVALID);
    Joined(level1, level2, blocks, index, alt, first, main);
    assert Reversed(alt) + main + [] == Reversed(alt) + main;
    EmptyMain(level2, blocks, index, Reversed(alt) + main, INVALID, []);
  }

  lemma EmptyMain(level0: map<Ptr, seq<nat>>, blocks: seq<Ptr>, first: nat, main: seq<nat>, firstAlt: nat, alt: seq<nat>)
    requires ListsOf(level0, blocks, first, main, firstAlt, alt) && |blocks| <= MAX_BLOCKS
    ensures first == (if main == [] then INVALID else main[0]) && (main != [] ==> main[0] < ENTRIES * |blocks|)
    ensures firstAlt == (if alt == [] then INVALID else alt[0]) && (alt != [] ==> alt[0] < ENTRIES * |blocks|)
    ensures main == [] ==> ListsOf(level0, blocks, firstAlt, alt, INVALID, [])
  {
    assert main == [] ==> main + alt == alt && alt + [] == alt;
  }

  lemma Popped(level0: map<Ptr, seq<nat>>, blocks: seq<Ptr>, first: nat, main: seq<nat>, firstAlt: nat, alt: seq<nat>)
    requires ListsOf(level0, blocks, first, main, firstAlt, alt) && main != []
    ensures ListsOf(level0, blocks, Next(level0, EntryOf(blocks, first)), main[1..], firstAlt, alt)
    ensures main[0] !in main[1..] && main[0] !in alt
  {
    assert (main + alt)[1..] == main[1..] + alt;
    assert forall i :: i in main[1..] + alt <==> i in main[1..] || i in alt;
  }

  lemma PartsOfLists(level0: map<Ptr, seq<nat>>, blocks: seq<Ptr>, first: nat, main: seq<nat>, firstAlt: nat, alt: seq<nat>)
    requires ListsOf(level0, blocks, first, main, firstAlt, alt)
    ensures Chain(level0, blocks, firstAlt, alt, INVALID) && Distinct(alt)
  {
    DistinctConcat(main, alt);
  }

  lemma ListsBounded(level0: map<Ptr, seq<nat>>, blocks: seq<Ptr>, first: nat, main: seq<nat>, firstAlt: nat, alt: seq<nat>)
    requires ListsOf(level0, blocks, first, main, firstAlt, alt)
    ensures forall h :: h in main || h in alt ==> h < ENTRIES * |blocks|
  {
    ChainMembers(level0, blocks, first, main, INVALID);
    ChainMembers(level0, blocks, firstAlt, alt, INVALID);
  }

  class HandleTable {
    const strictFifo: bool           // PH_HANDLE_TABLE_STRICT_FIFO
    var table: TableValue
    var level0: map<Ptr, seq<nat>>
    var upper: map<Ptr, seq<Ptr>>
    var top: Ptr                     // addresses from here on are unused
    var freeValue: nat
    var freeValueAlt: nat
    var nextValue: nat
    var count: nat

    ghost var blocks: seq<Ptr>       // the level 0 tables, in order
    ghost var main: seq<nat>         // the free list
    ghost var alt: seq<nat>          // the alternate free list
    ghost var untouched: nat         // how many handles at the front of the free list were never used

    ghost predicate Shape()
      reads this`level0, this`upper, this`table, this`top, this`blocks, this`nextValue
    {
      ShapeOf(level0, upper, table, top, blocks, nextValue)
    }

    ghost predicate Lists()
      reads this`level0, this`blocks, this`freeValue, this`main, this`freeValueAlt, this`alt
    {
      ListsOf(level0, blocks, freeValue, main, freeValueAlt, alt)
    }

    ghost predicate Valid()
      reads this
    {
      Shape() && Lists() && untouched <= |main| && count + |main| + |alt| == nextValue
    }

    ghost predicate Owned(h: nat)
      reads this
    {
      h < nextValue && h !in main && h !in alt
    }

    /** The freed handles that have not been used again, in the order in which they will be. */
    ghost function Queue(): seq<nat>
      requires untouched <= |main|
      reads this
    {
      main[untouched..] + Reversed(alt)
    }

    /** PhpCreateHandleTableLevel0: each entry leads to the next handle, the last to none. */
    method CreateLevel0() returns (p: Ptr)
      modifies this`level0, this`top
      ensures p == old(top) && top == old(top) + 1 && NewTable(old(level0), level0, p, nextValue)
      requires forall q :: q in level0 ==> q < top
    {
      p, top := top, top + 1;
      var entries := [];
      var i := nextValue + 1;
      while i < nextValue + ENTRIES
        invariant nextValue + 1 <= i <= nextValue + ENTRIES && |entries| == i - nextValue - 1
        invariant forall k :: 0 <= k < |entries| ==> entries[k] == nextValue + k + 1
      {
        entries := entries + [i];
        i := i + 1;
      }
      level0 := level0[p := entries + [INVALID]];
    }

    /** Every table has an address below top. */
    ghost predicate Bounded()
      reads this
    {
      BoundedBy(level0, upper, table, top)
    }

    /** Case 1 of PhpAllocateMoreHandleTableEntries. */
    method GrowLevel1() returns (table0: Ptr)
      requires Bounded() && table.level == 1 && nextValue == ENTRIES * |blocks|
      requires LeadsTo(upper, table.p, blocks) && |blocks| > 1
      modifies this`table, this`level0, this`upper, this`top
      ensures Bounded() && Shaped(Memory(level0, upper), table, blocks + [table0])
      ensures NewTable(old(level0), level0, table0, nextValue) && table0 != NULL
    {
      var p, i := table.p, nextValue / ENTRIES;
      if i < ENTRIES {
        table0 := CreateLevel0();
        upper := upper[p := Put(upper[p], i, table0)];
      } else {
        var table2 := top;
        var table1 := top + 1;
        top := top + 2;
        table0 := CreateLevel0();
        var upper' := upper[table1 := Pointers([table0])][table2 := Pointers([p, table1])];
        GrowthFrom1(upper, upper', p, blocks, table0, table1, table2);
        upper := upper';
        table := TableValue(2, table2);
      }
    }

    /** Case 2 of PhpAllocateMoreHandleTableEntries. */
    method GrowLevel2() returns (grown: bool, table0: Ptr)
      requires Bounded() && table.level == 2 && nextValue == ENTRIES * |blocks|
      requires ShapedAbove(upper, table.p, blocks) && |blocks| > ENTRIES
      modifies this`level0, this`upper, this`top
      ensures Bounded() && (grown <==> |blocks| < MAX_BLOCKS)
      ensures grown ==> ShapedAbove(upper, table.p, blocks + [table0])
      ensures grown ==> NewTable(old(level0), level0, table0, nextValue) && table0 != NULL
      ensures !grown ==> level0 == old(level0) && upper == old(upper)
    {
      var p, i := table.p, nextValue / (ENTRIES * ENTRIES);
      if i >= ENTRIES {
        return false, NULL;
      }
      var q := upper[p][i];
      if q != NULL {
        table0 := CreateLevel0();
        var j := (nextValue - i * (ENTRIES * ENTRIES)) / ENTRIES;
        assert LeadsTo(upper, q, Part(blocks, i));
        var upper' := upper[q := Put(upper[q], j, table0)];
        GrowthInPart(upper, upper', p, blocks, table0, i, j);
        upper := upper';
      } else {
        var table1 := top;
        top := top + 1;
        table0 := CreateLevel0();
        var upper' := upper[table1 := Pointers([table0])][p := Put(upper[p], i, table1)];
        GrowthByPart(upper, upper', p, blocks, table0, i, table1);
        upper := upper';
      }
      grown := true;
    }

    /** The first part of PhpAllocateMoreHandleTableEntries: one more level 0 table is put in place. */
    method Grow() returns (grown: bool, table0: Ptr)
      requires Shape()
      modifies this`table, this`level0, this`upper, this`top
      ensures !grown ==> Shape() && |blocks| == MAX_BLOCKS && level0 == old(level0)
      ensures grown ==> Bounded() && |blocks| < MAX_BLOCKS
      ensures grown ==> Shaped(Memory(level0, upper), table, blocks + [table0])
      ensures grown ==> NewTable(old(level0), level0, table0, nextValue) && table0 != NULL
    {
      grown := true;
      if table.level == 0 {
        var table1 := top;
        top := top + 1;
        table0 := CreateLevel0();
        upper := upper[table1 := Pointers([table.p, table0])];
        table := TableValue(1, table1);
      } else if table.level == 1 {
        table0 := GrowLevel1();
      } else {
        grown, table0 := GrowLevel2();
      }
    }

    /** The last part of PhpAllocateMoreHandleTableEntries: the new handles are pushed. */
    method PushNew(table0: Ptr)
      requires Bounded() && Shaped(Memory(level0, upper), table, blocks + [table0]) && |blocks| < MAX_BLOCKS
      requires Tables(Memory(level0, upper), blocks + [table0]) && table0 !in blocks
      requires table0 in level0 && |level0[table0]| == ENTRIES
      requires forall k :: 0 <= k < ENTRIES - 1 ==> level0[table0][k] == nextValue + k + 1
      requires Lists() && untouched <= |main| && count + |main| + |alt| == nextValue == ENTRIES * |blocks|
      modifies this`level0, this`freeValue, this`nextValue, this`blocks, this`main, this`untouched
      ensures Valid()
      ensures nextValue == old(nextValue) + ENTRIES && blocks == old(blocks) + [table0]
      ensures main == Range(old(nextValue), ENTRIES) + old(main) && untouched == old(untouched) + ENTRIES
    {
      hide Shaped, Chain, Tables, Distinct, Range;
      Pushed(level0, upper, table, blocks, table0, freeValue, main, freeValueAlt, alt);
      var oldNextValue := nextValue;
      nextValue := nextValue + ENTRIES;
      level0 := level0[table0 := Put(level0[table0], ENTRIES - 1, freeValue)];
      freeValue := oldNextValue;
      blocks := blocks + [table0];
      main := Range(oldNextValue, ENTRIES) + main;
      untouched := untouched + ENTRIES;
    }

    /** PhpAllocateMoreHandleTableEntries: one more level 0 table, whose handles are put in front of the
        free list. It fails only when all 256^3 handles exist. */
    method Expand() returns (grown: bool)
      requires Valid()
      modifies this
      ensures Valid() && count == old(count) && alt == old(alt)
      ensures !grown ==> nextValue == ENTRIES * MAX_BLOCKS && nextValue == old(nextValue)
      ensures !grown ==> blocks == old(blocks) && main == old(main) && untouched == old(untouched)
      ensures grown ==> nextValue == old(nextValue) + ENTRIES && old(blocks) < blocks
      ensures grown ==> main == Range(old(nextValue), ENTRIES) + old(main) && untouched == old(untouched) + ENTRIES
    {
      var table0;
      grown, table0 := Grow();
      hide Shaped, Chain;
      if grown {
        TablesMore(old(level0), level0, upper, blocks, table0, nextValue);
        SameChain(old(level0), level0, blocks, table0, freeValue, main);
        SameChain(old(level0), level0, blocks, table0, freeValueAlt, alt);
        PushNew(table0);
      }
    }

    /** The new handles are free, and the freed ones keep their turns. */
    twostate lemma Expanded()
      requires old(Valid()) && untouched == old(untouched) + ENTRIES && alt == old(alt)
      requires nextValue == old(nextValue) + ENTRIES && main == Range(old(nextValue), ENTRIES) + old(main)
      ensures forall k :: Owned(k) <==> old(Owned(k))
      ensures Queue() == old(Queue())
    {
      ListsBounded(old(level0), old(blocks), old(freeValue), old(main), old(freeValueAlt), old(alt));
      RangeMembers(old(nextValue), ENTRIES);
      assert main[untouched..] == old(main)[old(untouched)..];
    }

    /** PhCreateHandleTable, with the strict FIFO flag set from the start or not. */
    constructor (strictFifo: bool)
      ensures Valid() && this.strictFifo == strictFifo && nextValue == ENTRIES && count == 0
      ensures main == Range(0, ENTRIES) && alt == [] && untouched == ENTRIES
    {
      this.strictFifo := strictFifo;
      top, nextValue, level0, upper := 1, 0, map[], map[];
      freeValue, freeValueAlt, count := 0, INVALID, 0;
      main, alt, untouched := Range(0, ENTRIES), [], ENTRIES;
      new;
      hide ListsOf, ShapeOf, Range, NewTable;
      var p := CreateLevel0();
      FirstTable(level0, p, top);
      table, nextValue, blocks := TableValue(0, p), ENTRIES, [p];
    }

    /** PhpFreeHandleTableEntry, when nobody else is popping: the handle goes to the front of the free
        list, or with strict FIFO to the front of the alternate one. */
    method Free(h: nat)
      requires Valid() && Owned(h)
      modifies this
      ensures Valid() && nextValue == old(nextValue) && blocks == old(blocks)
      ensures forall k :: Owned(k) <==> old(Owned(k)) && k != h
      ensures strictFifo ==> Queue() == old(Queue()) + [h] && untouched == old(untouched)
      ensures if strictFifo then main == old(main) && alt == [h] + old(alt) else main == [h] + old(main) && alt == old(alt)
    {
      assert nextValue == ENTRIES * |blocks|;
      hide ListsOf, ShapeOf, Reversed;
      OwnedIsCounted(level0, blocks, freeValue, main, freeValueAlt, alt, h);
      ReversedPush(h, alt);
      Associate(main[untouched..], Reversed(alt), [h]);
      hide Lists, Shape;
      count := count - 1;
      Push(h, strictFifo);
      assert strictFifo ==> main == old(main) && alt == [h] + old(alt);
    }

    /** The loop of PhpFreeHandleTableEntry. */
    method Push(h: nat, onAlt: bool)
      requires Shape() && Lists() && h < nextValue && h !in main && h !in alt && untouched <= |main|
      modifies this`level0, this`freeValue, this`freeValueAlt, this`main, this`alt, this`untouched
      ensures Shape() && Lists() && untouched <= |main|
      ensures main == if onAlt then old(main) else [h] + old(main)
      ensures alt == if onAlt then [h] + old(alt) else old(alt)
      ensures onAlt ==> untouched == old(untouched)
    {
      assert nextValue == ENTRIES * |blocks|;
      Freed(level0, upper, table, top, blocks, freeValue, main, freeValueAlt, alt, h, onAlt);
      hide ListsOf, ShapeOf, WithNext;
      var oldValue := if onAlt then freeValueAlt else freeValue;
      level0 := WithNext(level0, Lookup(Memory(level0, upper), table, nextValue, h), oldValue);
      if onAlt {
        freeValueAlt := h;
        alt := [h] + alt;
      } else {
        freeValue := h;
        main := [h] + main;
        untouched := 0;
      }
    }

    /** entry->NextFreeValue = next */
    method WriteNext(h: nat, next: nat)
      requires Shape() && h < nextValue
      modifies this`level0
      ensures Shape() && Wrote(old(level0), level0, blocks, h, next)
    {
      Written(level0, upper, table, blocks, h, next);
      hide Shaped, Tables;
      level0 := WithNext(level0, Lookup(Memory(level0, upper), table, nextValue, h), next);
    }

    /** entry->NextFreeValue */
    method ReadNext(h: nat) returns (next: nat)
      requires Shape() && h < nextValue
      ensures next == Next(level0, EntryOf(blocks, h))
    {
      LookupFinds(Memory(level0, upper), table, blocks, nextValue, h);
      next := Next(level0, Lookup(Memory(level0, upper), table, nextValue, h));
    }

    /** One round of the first loop of PhpMoveFreeHandleTableEntries. */
    method TurnOne(index: nat, last: nat, ghost turned: seq<nat>, ghost rest: seq<nat>) returns (next: nat)
      requires Shape() && rest != [] && index == rest[0] && index < nextValue && Distinct(turned + rest)
      requires Chain(level0, blocks, index, rest, INVALID) && Chain(level0, blocks, last, Reversed(turned), INVALID)
      modifies this`level0
      ensures Shape() && Wrote(old(level0), level0, blocks, index, last)
      ensures Chain(level0, blocks, index, Reversed(turned + [rest[0]]), INVALID)
      ensures Chain(level0, blocks, next, rest[1..], INVALID)
      ensures next == if rest[1..] == [] then INVALID else rest[1..][0]
      ensures rest[1..] != [] ==> next < INVALID
    {
      assert |blocks| <= MAX_BLOCKS;
      hide ShapeOf, Chain, Wrote, Reversed, Distinct, EntryOf, Next;
      next := ReadNext(index);
      WriteNext(index, last);
      Turned(old(level0), level0, blocks, last, turned, rest);
      FirstOf(level0, blocks, next, rest[1..]);
    }

    /** The first loop of PhpMoveFreeHandleTableEntries. */
    method ReverseChain(first: nat, ghost s: seq<nat>) returns (index: nat, length: nat)
      requires Shape() && s != [] && Chain(level0, blocks, first, s, INVALID) && Distinct(s)
      modifies this`level0
      ensures Shape() && Chain(level0, blocks, index, Reversed(s), INVALID) && length == |s|
      ensures WroteOnly(old(level0), level0, blocks, s) && index < nextValue
    {
      hide ShapeOf, Chain, Wrote, WroteOnly, Reversed, Distinct, EntryOf, Next;
      Unturned(level0, upper, table, top, blocks, nextValue, first, s);
      var last := INVALID;
      index, length := first, 0;
      ghost var turned: seq<nat>, rest := [], s;
      while true
        invariant Shape() && s == turned + rest && rest != [] && index == rest[0] && length == |turned|
        invariant Chain(level0, blocks, index, rest, INVALID) && Chain(level0, blocks, last, Reversed(turned), INVALID)
        invariant WroteOnly(old(level0), level0, blocks, s)
        decreases |rest|
      {
        length := length + 1;
        assert index in s && turned + rest == s;
        ghost var before := level0;
        var next := TurnOne(index, last, turned, rest);
        WroteMore(old(level0), before, level0, blocks, s, index, last);
        last := index;
        assert s == turned + [rest[0]] + rest[1..];
        turned, rest := turned + [rest[0]], rest[1..];
        if next == INVALID {
          assert turned == s;
          return;
        }
        index := next;
      }
    }

    /** The second half of PhpMoveFreeHandleTableEntries: the alternate list, whose links start at first,
        is reversed and pushed onto the free list. */
    method PushReversed(first: nat) returns (index: nat, length: nat)
      requires Shape() && ListsOf(level0, blocks, freeValue, main, first, alt) && alt != []
      modifies this`level0, this`freeValue, this`main, this`alt, this`untouched
      ensures Shape() && ListsOf(level0, blocks, freeValue, main, INVALID, alt) && alt == [] && untouched == 0
      ensures main == Reversed(old(alt)) + old(main) && index == main[0] && length == |old(alt)|
    {
      assert |blocks| <= MAX_BLOCKS && nextValue == ENTRIES * |blocks|;
      hide ListsOf, ShapeOf, Shape, Reversed, WroteOnly, Wrote, Chain, Distinct, EntryOf, Next;
      ghost var front, back, before := main, alt, level0;
      EmptyMain(level0, blocks, freeValue, front, first, back);
      PartsOfLists(level0, blocks, freeValue, front, first, back);
      index, length := ReverseChain(first, back);
      ghost var between := level0;
      WriteNext(first, freeValue);
      MovedLists(before, between, level0, blocks, freeValue, front, first, back, index);
      freeValue := index;
      main, alt, untouched := Reversed(back) + front, [], 0;
    }

    /** PhpMoveFreeHandleTableEntries. With strict FIFO and few handles on the list it asks for an
        expansion although it has moved them. */
    method MoveFree() returns (index: nat)
      requires Valid()
      modifies this`level0, this`freeValue, this`freeValueAlt, this`main, this`alt, this`untouched
      ensures Valid() && alt == []
      ensures old(alt) == [] ==> index == INVALID && main == old(main) && untouched == old(untouched)
      ensures old(alt) != [] ==>
        && untouched == 0
        && main == (if !strictFifo && old(main) == [] then old(alt) else Reversed(old(alt)) + old(main))
        && index == (if strictFifo && |old(alt)| < FREE_COUNT then INVALID else main[0])
    {
      assert |blocks| <= MAX_BLOCKS && nextValue == ENTRIES * |blocks|;
      hide ListsOf, ShapeOf, Reversed;
      EmptyMain(level0, blocks, freeValue, main, freeValueAlt, alt);
      var first := freeValueAlt;
      if first == INVALID {
        return INVALID;
      }
      freeValueAlt := INVALID;
      if !strictFifo {
        if freeValue == INVALID {
          freeValue := first;
          main, alt, untouched := alt, [], 0;
          return first;
        }
      }
      var length;
      index, length := PushReversed(first);
      if strictFifo && length < FREE_COUNT {
        index := INVALID;
      }
    }

    /** The handles moved stay free, and keep their turns. */
    twostate lemma Moved()
      requires old(Valid()) && untouched <= |main| && nextValue == old(nextValue) && alt == []
      requires main == (if !strictFifo && old(main) == [] then old(alt) else Reversed(old(alt)) + old(main))
      requires old(main) == [] && untouched == 0
      ensures forall k :: Owned(k) <==> old(Owned(k))
      ensures strictFifo ==> Queue() == old(Queue())
    {
      ReversedMembers(old(alt));
      assert old(main)[old(untouched)..] == [] && Reversed([]) == [] && Reversed(old(alt)) + [] == Reversed(old(alt));
    }

    /** The table grows only for an empty free list, and only if there is nothing to move or, with strict FIFO,
        too little. */
    ghost predicate MustGrow()
      reads this
    {
      main == [] && (alt == [] || (strictFifo && |alt| < FREE_COUNT)) && nextValue < ENTRIES * MAX_BLOCKS
    }

    /** The free list when a handle is taken: the one there is, or new handles and those moved from the
        alternate list. */
    ghost function Available(): seq<nat>
      reads this
    {
      if main != [] then main
      else (if MustGrow() then Range(nextValue, ENTRIES) else []) + (if strictFifo then Reversed(alt) else alt)
    }

    /** The inner loop of PhpAllocateHandleTableEntry: the free list is filled. */
    method Refill() returns (first: nat)
      requires Valid() && freeValue == INVALID
      modifies this
      ensures Valid() && old(blocks) <= blocks && count == old(count)
      ensures first == freeValue && (if first == INVALID then main == [] else main != [] && first == main[0])
      ensures first == INVALID ==> old(main) == [] && old(alt) == [] && alt == [] && nextValue == ENTRIES * MAX_BLOCKS
      ensures main == old(Available()) && alt == []
      ensures nextValue == old(nextValue) + (if old(MustGrow()) then ENTRIES else 0)
      ensures forall k :: Owned(k) <==> old(Owned(k))
      ensures strictFifo ==> Queue() == old(Queue())
    {
      assert |blocks| <= MAX_BLOCKS && nextValue == ENTRIES * |blocks|;
      hide ListsOf, ShapeOf, Reversed, Range;
      EmptyMain(level0, blocks, freeValue, main, freeValueAlt, alt);
      first := MoveFree();
      label moved:
      if old(alt) != [] {
        Moved();
      }
      if first == INVALID {
        var grown := Expand();
        if grown {
          Expanded@moved();
        }
        first := freeValue;
      }
      EmptyMain(level0, blocks, freeValue, main, freeValueAlt, alt);
    }

    /** The head of the free list is popped. */
    method Pop(h: nat)
      requires Valid() && main != [] && h == main[0]
      modifies this
      ensures Valid() && blocks == old(blocks) && count == old(count) + 1 && !old(Owned(h))
      ensures forall k :: Owned(k) <==> old(Owned(k)) || k == h
      ensures if old(untouched) > 0 then Queue() == old(Queue()) else old(Queue()) == [h] + Queue()
      ensures main == old(main)[1..] && alt == old(alt) && nextValue == old(nextValue)
    {
      assert nextValue == ENTRIES * |blocks|;
      ListsBounded(level0, blocks, freeValue, main, freeValueAlt, alt);
      Popped(level0, blocks, freeValue, main, freeValueAlt, alt);
      hide Shape, Lists, Reversed, Distinct;
      TakeHead(h);
    }

    /** The first handle of the free list is taken off. */
    method TakeHead(h: nat)
      requires Valid() && main != [] && h == main[0]
      modifies this`freeValue, this`main, this`untouched, this`count
      ensures Valid() && count == old(count) + 1 && main == old(main)[1..]
      ensures untouched == if old(untouched) > 0 then old(untouched) - 1 else 0
    {
      ListsBounded(level0, blocks, freeValue, main, freeValueAlt, alt);
      Popped(level0, blocks, freeValue, main, freeValueAlt, alt);
      assert freeValue == h && nextValue == ENTRIES * |blocks|;
      hide ListsOf, ShapeOf, Shape, Reversed;
      freeValue := ReadNext(h);
      main := main[1..];
      untouched := if untouched > 0 then untouched - 1 else 0;
      count := count + 1;
    }

    /** PhpAllocateHandleTableEntry, when nobody else uses the table. Any handle returned was free; it
        fails only when all 256^3 handles are in use. With strict FIFO it is a handle never used
        before, or the one that was freed first; and that one whenever no unused handle is on the free
        list and at least 64 have been freed. */
    method Allocate() returns (h: nat)
      requires Valid()
      modifies this
      ensures Valid() && old(blocks) <= blocks
      ensures h == INVALID ==>
        old(main) == [] && old(alt) == [] && nextValue == 0x100_0000 && count == old(count) == nextValue
      ensures h != INVALID ==> count == old(count) + 1 && !old(Owned(h))
      ensures forall k :: Owned(k) <==> old(Owned(k)) || (k == h && h != INVALID)
      ensures strictFifo && h != INVALID ==> Queue() == old(Queue()) || old(Queue()) == [h] + Queue()
      ensures strictFifo && old(main) == [] && |old(alt)| >= 64 ==>
        old(Queue()) == [h] + Queue() && nextValue == old(nextValue)
      ensures nextValue == old(nextValue) + (if old(MustGrow()) then ENTRIES else 0)
      ensures h == if old(Available()) == [] then INVALID else old(Available())[0]
      ensures h != INVALID ==> main == old(Available())[1..] && alt == if old(main) == [] then [] else old(alt)
    {
      hide Shape, Lists, Reversed, Range;
      h := Fill();
      if h != INVALID {
        Pop(h);
      }
    }

    /** The loop of PhpAllocateHandleTableEntry that ends when the free list is not empty. */
    method Fill() returns (h: nat)
      requires Valid()
      modifies this
      ensures Valid() && old(blocks) <= blocks && count == old(count)
      ensures if h == INVALID then main == [] else main != [] && h == main[0]
      ensures h == INVALID ==>
        old(main) == [] && old(alt) == [] && alt == [] && nextValue == ENTRIES * MAX_BLOCKS
      ensures forall k :: Owned(k) <==> old(Owned(k))
      ensures strictFifo ==> Queue() == old(Queue())
      ensures main == old(Available()) && alt == if old(main) == [] then [] else old(alt)
      ensures nextValue == old(nextValue) + (if old(MustGrow()) then ENTRIES else 0)
    {
      EmptyMain(level0, blocks, freeValue, main, freeValueAlt, alt);
      ghost var target, grows := Available(), MustGrow();
      assert |blocks| <= MAX_BLOCKS && (main != [] ==> target == main && !grows);
      hide Shape, Lists, Reversed, Available, MustGrow;
      h := freeValue;
      while h == INVALID
        invariant Valid() && h == freeValue && old(blocks) <= blocks && count == old(count)
        invariant target == old(Available()) && grows == old(MustGrow())
        invariant if h == INVALID then main == [] else main != [] && h == main[0]
        invariant forall k :: Owned(k) <==> old(Owned(k))
        invariant strictFifo ==> Queue() == old(Queue())
        invariant h == INVALID ==> main == old(main) && alt == old(alt) && target == Available() && grows == MustGrow()
        invariant h == INVALID ==> nextValue == old(nextValue)
        invariant h != INVALID ==>
          && main == target && alt == (if old(main) == [] then [] else old(alt))
          && nextValue == old(nextValue) + (if grows then ENTRIES else 0)
        decreases if h == INVALID then 1 else 0
      {
        h := Refill();
        if h == INVALID {
          return;
        }
      }
    }
  }
}
