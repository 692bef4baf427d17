/** What holds in every reachable state of the handle free lists, whatever the interleaving. */
module HandleFreeListSafety {
  import opened Sequences
  import opened HandleFreeList
  import opened HandleFreeListProof

  /** The level 0 table created first is one chain through all of its entries. */
  lemma FirstLevelChain(main: seq<int>)
    requires |main| == LEVEL_ENTRIES && forall i :: 0 <= i < |main| ==> main[i] == i
    ensures Chain(LevelLinks(0), 0, main, INVALID)
  {
    var next := LevelLinks(0);
    var last := LEVEL_ENTRIES - 1;
    var front := main[..last];
    assert next[0..] == next;
    LevelChain(next, 0, front, 0);
    ChainConcat(next, 0, front, last, [last], INVALID);
    assert front + [last] == main;
  }

  ghost predicate Invariant(s: State) {
    exists g :: Inv(s, g)
  }

  lemma InitInv(s: State)
    requires Init(s)
    ensures Invariant(s)
  {
    var main := seq(LEVEL_ENTRIES, i => i);
    var g := Lists(main, [], [], [], seq(LEVEL_ENTRIES, i => Main));
    FirstLevelChain(main);
    assert ListsDistinct(g.main, g.where, Main) by {
      forall h | 0 <= h < |g.where|
        ensures h in g.main
      {
        assert g.main[h] == h;
      }
    }
    hide Chain, LevelLinks;
    assert Chained(s.next, s.free, g.main, s.alt, g.alt) by { EmptyChain(s.next); }
    assert Inv(s, g);
  }

  lemma EmptyChain(next: seq<int>)
    ensures Chain(next, INVALID, [], INVALID)
  {
  }

  lemma {:induction false} RunInv(states: seq<State>)
    requires Run(states)
    ensures Invariant(states[|states| - 1])
    decreases |states|
  {
    if |states| == 1 {
      InitInv(states[0]);
    } else {
      var n := |states| - 1;
      var before := states[..n];
      assert Run(before) by {
        forall i | 0 <= i < |before| - 1
          ensures Transition(before[i], before[i + 1])
        {
          assert Transition(states[i], states[i + 1]);
        }
      }
      RunInv(before);
      hide Inv;
      var g :| Inv(before[n - 1], g);
      assert Transition(states[n - 1], states[n - 1 + 1]);
      var t :| Step(states[n - 1], t, states[n]);
      var g' := StepKeeps(states[n - 1], g, t, states[n]);
    }
  }

  lemma ReachableInv(s: State) returns (g: Lists)
    requires Reachable(s)
    ensures Inv(s, g)
  {
    hide Inv;
    var states :| Run(states) && states[|states| - 1] == s;
    RunInv(states);
    g :| Inv(s, g);
  }

  /** No ABA: when FreeValue still is the handle a popping thread re-checked under its striped lock,
      the next link the thread read is that handle's current link. */
  lemma AbaFreedom(s: State, t: Tid)
    requires Reachable(s) && t in s.pcs && s.pcs[t].CasHead? && s.free == s.pcs[t].fv
    ensures 0 <= s.free < |s.next| && s.pcs[t].nx == s.next[s.free]
  {
    var g := ReachableInv(s);
    assert PinnedBy(s, g, s.pcs[t]);
    MainEmpty(s, g);
    HeadOfMain(|s.next|, s.owned, g, s.next, s.free, s.alt);
  }

  /** A successful pop unlinks exactly the first handle of a well-formed list, and that handle was
      neither handed out to anyone nor in the middle of being freed. */
  lemma PopIsExclusive(s: State, t: Tid, s': State)
    requires Reachable(s) && t in s.pcs && s.pcs[t].CasHead? && s.free == s.pcs[t].fv
    requires PopStep(s, t, s')
    ensures s'.owned == s.owned + {s.free} && s.free !in s.owned
    ensures forall u :: u in s.pcs && IsFreeing(s.pcs[u]) ==> s.pcs[u].h != s.free
    ensures exists q :: Chain(s.next, s.free, [s.free] + q, INVALID) && Chain(s'.next, s'.free, q, INVALID)
    ensures exists q :: Chain(s.next, s.alt, q, INVALID) && Chain(s'.next, s'.alt, q, INVALID)
  {
    var g := ReachableInv(s);
    hide *;
    HeadIsFree(s, g, t);
    PopChains(s, g, t, s');
    assert Chain(s.next, s.free, [s.free] + g.main[1..], INVALID) && Chain(s'.next, s'.free, g.main[1..], INVALID);
    assert Chain(s.next, s.alt, g.alt, INVALID) && Chain(s'.next, s'.alt, g.alt, INVALID);
  }

  lemma HeadIsFree(s: State, g: Lists, t: Tid)
    requires Inv(s, g) && t in s.pcs && s.pcs[t].CasHead? && s.free == s.pcs[t].fv
    ensures s.free !in s.owned
    ensures forall u :: u in s.pcs && IsFreeing(s.pcs[u]) ==> s.pcs[u].h != s.free
  {
    var s' := At(s, t, UnlockStripe(s.free, true)).(free := s.pcs[t].nx, owned := s.owned + {s.free});
    var g' := PopHead(s, g, t, s.free, s.pcs[t].nx, s');
  }

  lemma PopChains(s: State, g: Lists, t: Tid, s': State)
    requires Inv(s, g) && t in s.pcs && s.pcs[t].CasHead? && s.free == s.pcs[t].fv && PopStep(s, t, s')
    ensures g.main != [] && s'.owned == s.owned + {s.free}
    ensures Chain(s.next, s.free, [s.free] + g.main[1..], INVALID) && Chain(s'.next, s'.free, g.main[1..], INVALID)
    ensures Chain(s.next, s.alt, g.alt, INVALID) && Chain(s'.next, s'.alt, g.alt, INVALID)
  {
    hide Placed, Private, Freed, Pinned;
    var g' := PopHead(s, g, t, s.free, s.pcs[t].nx, s');
    assert g.main == [s.free] + g.main[1..];
  }

  /** Number of the five conditions that hold. */
  function CountTrue(a: bool, b: bool, c: bool, d: bool, e: bool): nat {
    (if a then 1 else 0) + (if b then 1 else 0) + (if c then 1 else 0) + (if d then 1 else 0)
    + (if e then 1 else 0)
  }

  ghost predicate BeingFreed(s: State, h: int) {
    exists t :: t in s.pcs && IsFreeing(s.pcs[t]) && s.pcs[t].h == h
  }

  ghost predicate Accounted(s: State, main: seq<int>, alt: seq<int>, private: seq<int>) {
    && Distinct(main) && Distinct(alt) && Distinct(private)
    && Chain(s.next, s.free, main, INVALID)
    && Chain(s.next, s.alt, alt, INVALID)
    && (s.lock == -1 ==> private == [])
    && (forall h :: h in s.owned ==> 0 <= h < |s.next|)
    && (forall h :: 0 <= h < |s.next| ==>
          CountTrue(h in main, h in alt, h in private, h in s.owned, BeingFreed(s, h)) == 1)
    && (forall t, u :: t in s.pcs && u in s.pcs && t != u && IsFreeing(s.pcs[t]) && IsFreeing(s.pcs[u]) ==>
          s.pcs[t].h != s.pcs[u].h)
  }

  /** Conservation: every created handle is in exactly one place. It is on the main list, on the
      alternative list, in the hands of the one thread inside the table lock, handed out once, or
      being freed by exactly one thread. None is lost and none has two owners. */
  lemma Conservation(s: State)
    requires Reachable(s)
    ensures exists main, alt, private :: Accounted(s, main, alt, private)
  {
    hide Chained, Pinned, Freed, Placed, Private, Distinct, Chain;
    var g := ReachableInv(s);
    var private := g.moving + g.pushing;
    WherePlaced(s, g);
    WhereFreed(s, g);
    PrivateAtRest(s, g);
    ChainedMeans(s.next, s.free, g.main, s.alt, g.alt);
    assert Accounted(s, g.main, g.alt, private);
  }

  lemma ChainedMeans(next: seq<int>, free: int, main: seq<int>, alt: int, altList: seq<int>)
    requires Chained(next, free, main, alt, altList)
    ensures Chain(next, free, main, INVALID) && Chain(next, alt, altList, INVALID)
  {
  }

  lemma PrivateAtRest(s: State, g: Lists)
    requires Private(s, g)
    ensures s.lock == -1 ==> g.moving + g.pushing == []
  {
  }

  lemma WherePlaced(s: State, g: Lists)
    requires Placed(|s.next|, s.owned, g)
    ensures Distinct(g.main) && Distinct(g.alt) && Distinct(g.moving + g.pushing)
    ensures forall h :: h in s.owned ==> 0 <= h < |s.next|
    ensures forall h :: 0 <= h < |s.next| ==>
              && (h in g.main <==> g.where[h] == Main)
              && (h in g.alt <==> g.where[h] == Alt)
              && (h in g.moving + g.pushing <==> g.where[h] == Moving || g.where[h] == Pushing)
              && (h in s.owned <==> g.where[h] == Owned)
  {
    AllDifferent(g.main);
    AllDifferent(g.alt);
    AllDifferent(g.moving + g.pushing);
  }

  lemma WhereFreed(s: State, g: Lists)
    requires Freed(s, g) && |g.where| == |s.next|
    ensures forall h :: 0 <= h < |s.next| ==> (BeingFreed(s, h) <==> g.where[h].Freeing?)
    ensures forall t, u :: t in s.pcs && u in s.pcs && t != u && IsFreeing(s.pcs[t]) && IsFreeing(s.pcs[u]) ==>
              s.pcs[t].h != s.pcs[u].h
  {
    forall h | 0 <= h < |s.next| && g.where[h].Freeing?
      ensures BeingFreed(s, h)
    {
      assert s.pcs[g.where[h].t].h == h;
    }
  }

  /** When no call is in progress, every created handle is handed out or reachable from one of the
      two list heads. */
  lemma NothingLostAtRest(s: State, h: int)
    requires Reachable(s) && (forall t :: t in s.pcs ==> s.pcs[t] == Idle) && 0 <= h < |s.next|
    ensures exists main, alt ::
              && Chain(s.next, s.free, main, INVALID) && Chain(s.next, s.alt, alt, INVALID)
              && CountTrue(h in main, h in alt, h in s.owned, false, false) == 1
  {
    var g := ReachableInv(s);
    Conservation(s);
    var main, alt, private :| Accounted(s, main, alt, private);
    assert s.lock == -1;
    assert !BeingFreed(s, h);
  }
}
