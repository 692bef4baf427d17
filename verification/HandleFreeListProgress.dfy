/** What an allocation and a free achieve, and that nobody is stuck. */
module HandleFreeListProgress {
  import opened HandleFreeList
  import opened HandleFreeListProof
  import opened HandleFreeListSafety

  // ---------------------------------------------------------------------------------------------
  // Steps of one thread
  // ---------------------------------------------------------------------------------------------

  /** A step of t in its own call; the use of an entry is not one. */
  ghost predicate Acts(s: State, t: Tid, s': State) {
    && t in s.pcs && !s.pcs[t].Idle?
    && (PopStep(s, t, s') || MoveStep(s, t, s') || PushStep(s, t, s') || GrowStep(s, t, s') || FreeStep(s, t, s'))
  }

  predicate InPop(pc: Pc) {
    pc.ReadHead? || pc.LockStripe? || pc.Recheck? || pc.ReadNext? || pc.CasHead? || pc.UnlockStripe?
  }

  lemma OneKind(s: State, t: Tid, s': State)
    requires Acts(s, t, s')
    ensures t in s'.pcs
    ensures InPop(s.pcs[t]) ==> PopStep(s, t, s')
    ensures IsFreeing(s.pcs[t]) ==> FreeStep(s, t, s')
    ensures s.pcs[t].Grow? || s.pcs[t].LeaveSlow? || s.pcs[t].RereadHead? ==> GrowStep(s, t, s')
  {
    hide Stripe, StripeFree, LevelLinks;
  }

  /** Three steps of one thread in a row. */
  ghost predicate InARow(s: State, t: Tid, s1: State, s2: State, s3: State) {
    && t in s.pcs && t in s1.pcs && t in s2.pcs && t in s3.pcs
    && Acts(s, t, s1) && Acts(s1, t, s2) && Acts(s2, t, s3)
  }

  /** PhpAllocateHandleTableEntry, undisturbed: if there is a free list, six steps take its first handle. */
  lemma AllocateAlone(s: State, t: Tid, s1: State, s2: State, s3: State, s4: State, s5: State, s6: State)
    requires Reachable(s) && t in s.pcs && s.pcs[t].ReadHead? && s.free != INVALID
    requires InARow(s, t, s1, s2, s3) && InARow(s3, t, s4, s5, s6)
    ensures s6.pcs[t].Idle? && s6.owned == s.owned + {s.free} && s.free !in s.owned
    ensures 0 <= s.free < |s.next| && s6.free == s.next[s.free] && s6.next == s.next && s6.alt == s.alt
  {
    HeadThere(s);
    hide Reachable, LevelLinks, Stripe;
    OneKind(s, t, s1);
    OneKind(s1, t, s2);
    OneKind(s2, t, s3);
    hide Acts;
    PopTail(s3, t, s4, s5, s6);
  }

  lemma PopTail(s3: State, t: Tid, s4: State, s5: State, s6: State)
    requires InARow(s3, t, s4, s5, s6) && s3.pcs[t].ReadNext? && s3.free == s3.pcs[t].fv
    ensures 0 <= s3.free < |s3.next| && s6.pcs[t].Idle? && s6.owned == s3.owned + {s3.free}
    ensures s6.free == s3.next[s3.free] && s6.next == s3.next && s6.alt == s3.alt
  {
    OneKind(s3, t, s4);
    OneKind(s4, t, s5);
    OneKind(s5, t, s6);
    hide Acts, Stripe;
  }

  lemma HeadThere(s: State)
    requires Reachable(s) && s.free != INVALID
    ensures 0 <= s.free < |s.next| && s.free !in s.owned
  {
    var g := ReachableInv(s);
    HeadOfMain(|s.next|, s.owned, g, s.next, s.free, s.alt);
  }

  /** PhpFreeHandleTableEntry, undisturbed: four steps make the handle the first of one of the lists. */
  lemma FreeAlone(s: State, t: Tid, s1: State, s2: State, s3: State, s4: State)
    requires t in s.pcs && s.pcs[t].FreeChoose? && InARow(s, t, s1, s2, s3) && Acts(s3, t, s4)
    ensures t in s4.pcs && s4.pcs[t].Idle? && s4.owned == s.owned
    ensures 0 <= s.pcs[t].h < |s4.next|
    ensures var h := s.pcs[t].h;
      || (s4.free == h && s4.next[h] == s.free && s4.alt == s.alt)
      || (s4.alt == h && s4.next[h] == s.alt && s4.free == s.free)
  {
    OneKind(s, t, s1);
    OneKind(s1, t, s2);
    OneKind(s2, t, s3);
    OneKind(s3, t, s4);
    hide Acts, Stripe, StripeFree;
  }

  // ---------------------------------------------------------------------------------------------
  // Whole calls
  // ---------------------------------------------------------------------------------------------

  ghost predicate Fragment(states: seq<State>) {
    && |states| > 0
    && forall i :: 0 <= i < |states| - 1 ==> Transition(states[i], states[i + 1])
  }

  function Last<T>(s: seq<T>): T
    requires s != []
  {
    s[|s| - 1]
  }

  /** From the beginning of a call of PhpAllocateHandleTableEntry by t, which has not returned yet. */
  ghost predicate Begun(states: seq<State>, t: Tid) {
    && Fragment(states) && t in states[0].pcs && states[0].pcs[t].ReadHead?
    && forall i :: 0 <= i < |states| ==> t in states[i].pcs && !states[i].pcs[t].Idle?
  }

  ghost predicate Returned(states: seq<State>, t: Tid) {
    && |states| > 1 && Begun(states[..|states| - 1], t) && Fragment(states)
    && t in Last(states).pcs && Last(states).pcs[t].Idle?
  }

  /** In step i of a run t has taken handle h. */
  ghost predicate Took(states: seq<State>, t: Tid, i: nat, h: int) {
    && i + 1 < |states| && t in states[i].pcs && t in states[i + 1].pcs
    && states[i].pcs[t].CasHead? && states[i].free == h && states[i + 1].pcs[t] == UnlockStripe(h, true)
    && states[i + 1].owned == states[i].owned + {h}
  }

  /** In step i the table could not be grown by t. */
  ghost predicate GrowthFailed(states: seq<State>, t: Tid, i: nat) {
    && i + 1 < |states| && t in states[i].pcs && t in states[i + 1].pcs
    && states[i].pcs[t].Grow? && states[i + 1].pcs[t] == LeaveSlow(Reread(false))
  }

  /** In step i t has found the alternate list empty, or moved fewer than 64 handles with strict FIFO. */
  ghost predicate TooFew(states: seq<State>, t: Tid, i: nat) {
    && i + 1 < |states| && t in states[i].pcs && t in states[i + 1].pcs
    && (|| (states[i].pcs[t].TakeAlt? && states[i].alt == INVALID)
        || (states[i].pcs[t].Reverse? && states[i].pcs[t].strict && states[i].pcs[t].count + 1 < 64))
  }

  ghost predicate HasTaken(states: seq<State>, t: Tid, h: int) { exists i :: Took(states, t, i, h) }

  ghost predicate HasFailed(states: seq<State>, t: Tid) { exists i :: GrowthFailed(states, t, i) }

  ghost predicate HadTooFew(states: seq<State>, t: Tid) { exists i :: TooFew(states, t, i) }

  /** What a call has done when it is at pc. */
  ghost predicate Done(states: seq<State>, t: Tid, pc: Pc) {
    && (pc.UnlockStripe? && pc.won ==> HasTaken(states, t, pc.fv))
    && (pc == LeaveSlow(Reread(false)) || pc == RereadHead(false) ==> HasFailed(states, t))
    && (pc.Grow? || Cont(pc) == Expand ==> HadTooFew(states, t))
    && Cont(pc) != Reread(false) && pc != LeaveSlow(Expand) && !IsFreeing(pc)
  }

  /** What is to be done after a push. */
  function Cont(pc: Pc): Continuation {
    match pc
    case PushRead(_, _, cont) => cont
    case PushLink(_, _, _, cont) => cont
    case PushCas(_, _, _, cont) => cont
    case _ => Reread(true)
  }

  lemma SomeStep(s: State, s': State) returns (u: Tid)
    requires Transition(s, s')
    ensures Step(s, u, s')
  {
    hide Step;
    u :| Step(s, u, s');
  }

  /** The last step of a run. */
  lemma Unrolled(states: seq<State>) returns (before: seq<State>, s: State, u: Tid)
    requires Fragment(states) && |states| > 1
    ensures before == states[..|states| - 1] && Fragment(before) && s == Last(before) && Step(s, u, Last(states))
  {
    hide Step, Transition;
    before := states[..|states| - 1];
    s := Last(before);
    u := SomeStep(s, Last(states));
  }

  /** What has happened stays so. */
  lemma StillDone(states: seq<State>, t: Tid, pc: Pc)
    requires |states| > 1 && Done(states[..|states| - 1], t, pc)
    ensures Done(states, t, pc)
  {
    var before := states[..|states| - 1];
    forall i, h | Took(before, t, i, h) ensures Took(states, t, i, h) { }
    forall i | GrowthFailed(before, t, i) ensures GrowthFailed(states, t, i) { }
    forall i | TooFew(before, t, i) ensures TooFew(states, t, i) { }
  }

  /** Another thread's step, or the use of an entry, leaves t where it is. */
  lemma OtherStep(s: State, u: Tid, s': State, t: Tid)
    requires Step(s, u, s') && t in s.pcs && !s.pcs[t].Idle?
    ensures t in s'.pcs && (s'.pcs[t] == s.pcs[t] || (u == t && Acts(s, t, s')))
  {
    hide Stripe, StripeFree, LevelLinks;
  }

  /** One more step of the call. */
  lemma DoneNext(states: seq<State>, t: Tid)
    requires |states| > 1
    requires var s, s' := states[|states| - 2], Last(states);
      && t in s.pcs && t in s'.pcs && Acts(s, t, s') && Done(states[..|states| - 1], t, s.pcs[t]) && !s'.pcs[t].Idle?
    ensures Done(states, t, Last(states).pcs[t])
  {
    var i, s, s' := |states| - 2, states[|states| - 2], Last(states);
    StillDone(states, t, s.pcs[t]);
    hide HasTaken, HasFailed, HadTooFew;
    NextPc(s, t, s');
    var pc, pc' := s.pcs[t], s'.pcs[t];
    if pc'.UnlockStripe? && pc'.won {
      assert Took(states, t, i, pc'.fv);
      TakenMeans(states, t, i, pc'.fv);
    }
    if pc' == LeaveSlow(Reread(false)) {
      assert GrowthFailed(states, t, i);
      FailedMeans(states, t, i);
    }
    if (pc'.Grow? && pc.TakeAlt?) || (Cont(pc') == Expand && pc.Reverse?) {
      assert TooFew(states, t, i);
      TooFewMeans(states, t, i);
    }
    hide Acts;
  }

  lemma TakenMeans(states: seq<State>, t: Tid, i: nat, h: int)
    requires Took(states, t, i, h)
    ensures HasTaken(states, t, h)
  {
  }

  lemma FailedMeans(states: seq<State>, t: Tid, i: nat)
    requires GrowthFailed(states, t, i)
    ensures HasFailed(states, t)
  {
  }

  lemma TooFewMeans(states: seq<State>, t: Tid, i: nat)
    requires TooFew(states, t, i)
    ensures HadTooFew(states, t)
  {
  }

  /** Where the points that matter are reached from. */
  lemma NextPc(s: State, t: Tid, s': State)
    requires Acts(s, t, s') && t in s'.pcs && !IsFreeing(s.pcs[t]) && Cont(s.pcs[t]) != Reread(false)
    ensures var pc, pc' := s.pcs[t], s'.pcs[t];
      && (pc'.UnlockStripe? && pc'.won ==> pc.CasHead? && s.free == pc'.fv && s'.owned == s.owned + {pc'.fv})
      && (pc' == LeaveSlow(Reread(false)) ==> pc.Grow?)
      && (pc' == RereadHead(false) ==> pc == LeaveSlow(Reread(false)))
      && (pc'.Grow? ==> Cont(pc) == Expand || (pc.TakeAlt? && s.alt == INVALID))
      && (Cont(pc') == Expand ==> Cont(pc) == Expand || (pc.Reverse? && pc.strict && pc.count + 1 < 64))
      && Cont(pc') != Reread(false) && pc' != LeaveSlow(Expand) && !IsFreeing(pc')
  {
    hide Stripe, StripeFree, LevelLinks;
  }

  lemma {:induction false} CallDone(states: seq<State>, t: Tid)
    requires Begun(states, t)
    ensures Done(states, t, Last(states).pcs[t])
    decreases |states|
  {
    hide Step, Transition, Done;
    if |states| > 1 {
      var before, s, u := Unrolled(states);
      CallDone(before, t);
      OtherStep(s, u, Last(states), t);
      if Last(states).pcs[t] == s.pcs[t] {
        StillDone(states, t, s.pcs[t]);
      } else {
        DoneNext(states, t);
      }
    } else {
      NothingDone(states, t);
    }
  }

  lemma NothingDone(states: seq<State>, t: Tid)
    ensures Done(states, t, ReadHead)
  {
  }

  /** An allocation that returns has taken a handle; or it returns none, and then growing the table has failed
      in the same call and FreeValue was still invalid at the end. */
  lemma AllocateReturns(states: seq<State>, t: Tid)
    requires Returned(states, t)
    ensures (exists h :: HasTaken(states, t, h)) || (HasFailed(states, t) && Last(states).free == INVALID)
  {
    hide Step, Transition, HasTaken, HasFailed, HadTooFew;
    var before, s, u := Unrolled(states);
    CallDone(before, t);
    OtherStep(s, u, Last(states), t);
    StillDone(states, t, s.pcs[t]);
    LastPc(s, t, Last(states));
    if s.pcs[t].UnlockStripe? {
      assert HasTaken(states, t, s.pcs[t].fv);
    }
  }

  lemma LastPc(s: State, t: Tid, s': State)
    requires Acts(s, t, s') && t in s'.pcs && s'.pcs[t].Idle? && !IsFreeing(s.pcs[t])
    ensures (s.pcs[t].UnlockStripe? && s.pcs[t].won) || (s.pcs[t] == RereadHead(false) && s.free == s'.free == INVALID)
  {
    hide Stripe, StripeFree, LevelLinks;
  }

  /** The table is grown only if the alternate list was empty, or with strict FIFO had fewer than 64 handles. */
  lemma GrowsIfTooFew(states: seq<State>, t: Tid)
    requires Begun(states, t) && Last(states).pcs[t].Grow?
    ensures HadTooFew(states, t)
  {
    CallDone(states, t);
  }

  // ---------------------------------------------------------------------------------------------
  // Nobody is stuck
  // ---------------------------------------------------------------------------------------------

  /** Nobody leaves the table lock while the table is still to be expanded. */
  ghost predicate NoExpandLeft(s: State) {
    forall t :: t in s.pcs ==> s.pcs[t] != LeaveSlow(Expand)
  }

  lemma NoExpandKept(s: State, u: Tid, s': State)
    requires NoExpandLeft(s) && Step(s, u, s')
    ensures NoExpandLeft(s')
  {
    hide Stripe, StripeFree, LevelLinks;
  }

  lemma {:induction false} NoExpandRun(states: seq<State>)
    requires Run(states)
    ensures NoExpandLeft(Last(states))
    decreases |states|
  {
    hide Step, Transition, NoExpandLeft;
    if |states| > 1 {
      var before, s, u := Unrolled(states);
      NoExpandRun(before);
      NoExpandKept(s, u, Last(states));
    } else {
      NoExpandFirst(states[0]);
    }
  }

  lemma NoExpandFirst(s: State)
    requires Init(s)
    ensures NoExpandLeft(s)
  {
  }

  lemma NoExpand(s: State, t: Tid)
    requires Reachable(s) && t in s.pcs
    ensures s.pcs[t] != LeaveSlow(Expand)
  {
    hide Transition, Init;
    var states :| Run(states) && states[|states| - 1] == s;
    NoExpandRun(states);
  }

  /** What t waits for: the table lock, or the owners of a stripe. */
  ghost predicate Blocked(s: State, t: Tid)
    requires t in s.pcs
  {
    match s.pcs[t]
    case EnterSlow => s.lock != -1
    case TestLocks(_, i) => i < LOCKS && !StripeFree(s, i)
    case _ => false
  }

  ghost predicate CanAct(s: State, t: Tid) { exists s' :: Acts(s, t, s') }

  /** The links that a thread is about to follow or to write are there. */
  ghost predicate InBounds(s: State, pc: Pc) {
    match pc
    case ReadNext(fv) => 0 <= fv < |s.next|
    case Reverse(_, index, _, _, _) => 0 <= index < |s.next|
    case PushLink(_, tail, _, _) => 0 <= tail < |s.next|
    case FreeLink(h, _, _) => 0 <= h < |s.next|
    case _ => true
  }

  lemma EntriesThere(s: State, t: Tid)
    requires Reachable(s) && t in s.pcs
    ensures InBounds(s, s.pcs[t])
  {
    var g := ReachableInv(s);
    var pc := s.pcs[t];
    if pc.ReadNext? {
      PinnedAt(s, g, t);
    } else if InSlow(pc) {
      SlowAt(s, g, t);
      hide Chain, Chained, Pinned, Freed, Private;
      if pc.PushLink? {
        assert Ready(pc.head, pc.tail, s.next, g.moving, g.pushing);
      } else if pc.Reverse? {
        ReverseThere(s.next, pc.index, g.moving);
      }
    }
  }

  lemma ReverseThere(next: seq<int>, index: int, q: seq<int>)
    requires Chain(next, index, q, INVALID) && q != []
    ensures 0 <= index < |next|
  {
  }

  /** Every call can go on unless it waits for a lock. */
  lemma NotBlockedCanAct(s: State, t: Tid)
    requires Reachable(s) && t in s.pcs && !s.pcs[t].Idle? && !Blocked(s, t)
    ensures CanAct(s, t)
  {
    EntriesThere(s, t);
    NoExpand(s, t);
    hide Reachable, Stripe, StripeFree, LevelLinks;
    if InPop(s.pcs[t]) || s.pcs[t].RereadHead? || s.pcs[t].LeaveSlow? {
      PopActs(s, t);
    } else if IsFreeing(s.pcs[t]) {
      FreeActs(s, t);
    } else {
      SlowActs(s, t);
    }
  }

  lemma PopActs(s: State, t: Tid)
    requires t in s.pcs && (InPop(s.pcs[t]) || s.pcs[t].RereadHead? || s.pcs[t].LeaveSlow?)
    requires InBounds(s, s.pcs[t]) && s.pcs[t] != LeaveSlow(Expand)
    ensures CanAct(s, t)
  {
    hide Stripe, StripeFree, LevelLinks;
    var s' := match s.pcs[t]
      case ReadHead => At(s, t, if s.free == INVALID then EnterSlow else LockStripe(s.free))
      case LockStripe(fv) => At(s, t, Recheck(fv))
      case Recheck(fv) => At(s, t, if s.free != fv then UnlockStripe(fv, false) else ReadNext(fv))
      case ReadNext(fv) => At(s, t, CasHead(fv, s.next[fv]))
      case CasHead(fv, nx) =>
        if s.free == fv then At(s, t, UnlockStripe(fv, true)).(free := nx, owned := s.owned + {fv})
        else At(s, t, UnlockStripe(fv, false))
      case UnlockStripe(fv, won) => At(s, t, if won then Idle else ReadHead)
      case RereadHead(result) =>
        At(s, t, if s.free != INVALID then LockStripe(s.free) else if result then EnterSlow else Idle)
      case LeaveSlow(cont) =>
        At(s, t, if cont.TryHandle? then LockStripe(cont.guess) else RereadHead(cont.result)).(lock := -1);
    assert PopStep(s, t, s') || GrowStep(s, t, s');
    assert Acts(s, t, s');
  }

  lemma FreeActs(s: State, t: Tid)
    requires t in s.pcs && IsFreeing(s.pcs[t]) && InBounds(s, s.pcs[t])
    ensures CanAct(s, t)
  {
    hide Stripe, StripeFree, LevelLinks;
    var s' := match s.pcs[t]
      case FreeChoose(h) => At(s, t, FreeRead(h, false))
      case FreeRead(h, toMain) => At(s, t, FreeLink(h, toMain, if toMain then s.free else s.alt))
      case FreeLink(h, toMain, seen) => At(s, t, FreeCas(h, toMain, seen)).(next := s.next[h := seen])
      case FreeCas(h, toMain, seen) =>
        if (if toMain then s.free else s.alt) == seen then
          if toMain then At(s, t, Idle).(free := h) else At(s, t, Idle).(alt := h)
        else At(s, t, FreeRead(h, toMain));
    assert FreeStep(s, t, s');
    assert Acts(s, t, s');
  }

  lemma SlowActs(s: State, t: Tid)
    requires t in s.pcs && (s.pcs[t].EnterSlow? || (InSlow(s.pcs[t]) && !s.pcs[t].LeaveSlow?))
    requires InBounds(s, s.pcs[t]) && !Blocked(s, t)
    ensures CanAct(s, t)
  {
    hide Stripe, StripeFree, LevelLinks;
    var s' := match s.pcs[t]
      case EnterSlow => At(s, t, SlowHead).(lock := t)
      case SlowHead => At(s, t, if s.free != INVALID then LeaveSlow(TryHandle(s.free)) else TakeAlt)
      case TakeAlt => if s.alt == INVALID then At(s, t, Grow) else At(s, t, TestLocks(s.alt, 0)).(alt := INVALID)
      case TestLocks(first, i) => if i < LOCKS then At(s, t, TestLocks(first, i + 1)) else At(s, t, ReadFlags(first))
      case ReadFlags(first) => At(s, t, Shortcut(first))
      case Shortcut(first) =>
        if s.free == INVALID then At(s, t, LeaveSlow(TryHandle(first))).(free := first)
        else At(s, t, Reverse(first, first, INVALID, false, 0))
      case Reverse(first, index, last, strict, count) =>
        At(s, t,
          if s.next[index] == INVALID
          then PushRead(index, first, if strict && count + 1 < FREE_COUNT then Expand else TryHandle(index))
          else Reverse(first, s.next[index], index, strict, count + 1)).(next := s.next[index := last])
      case PushRead(head, tail, cont) => At(s, t, PushLink(head, tail, s.free, cont))
      case PushLink(head, tail, seen, cont) => At(s, t, PushCas(head, tail, seen, cont)).(next := s.next[tail := seen])
      case PushCas(head, tail, seen, cont) =>
        if s.free == seen then At(s, t, if cont.Expand? then Grow else LeaveSlow(cont)).(free := head)
        else At(s, t, PushRead(head, tail, cont))
      case Grow => At(s, t, LeaveSlow(Reread(false)));
    assert MoveStep(s, t, s') || PushStep(s, t, s') || GrowStep(s, t, s');
    assert Acts(s, t, s');
  }

  /** While a call is under way, some call can go on: the locks are never waited for in a circle. */
  lemma SomebodyCanAct(s: State, t: Tid) returns (u: Tid)
    requires Reachable(s) && t in s.pcs && !s.pcs[t].Idle?
    ensures u in s.pcs && !s.pcs[u].Idle? && CanAct(s, u)
  {
    u := t;
    if Blocked(s, u) && s.pcs[u].EnterSlow? {
      u := LockHolder(s);
    }
    if Blocked(s, u) {
      var i := s.pcs[u].i;
      u :| u in s.pcs && HoldsStripe(s.pcs[u], i);
    }
    hide Reachable;
    NotBlockedCanAct(s, u);
  }

  lemma LockHolder(s: State) returns (u: Tid)
    requires Reachable(s) && s.lock != -1
    ensures u in s.pcs && InSlow(s.pcs[u])
  {
    var g := ReachableInv(s);
    hide Placed, Chained, Freed, Pinned, Shape;
    u := s.lock;
  }

  /** Growing is possible while there are fewer than 256^3 handles. */
  lemma GrowthPossible(s: State, t: Tid) returns (s': State)
    requires t in s.pcs && s.pcs[t].Grow? && |s.next| + 256 <= 0x100_0000
    ensures Acts(s, t, s') && |s'.next| == |s.next| + 256
  {
    s' := At(s, t, PushRead(|s.next|, |s.next| + LEVEL_ENTRIES - 1, Reread(true))).(next := s.next + LevelLinks(|s.next|));
  }

  /** A freed handle may go straight to the free list if its stripe is not held. */
  lemma MainPossible(s: State, t: Tid) returns (s': State)
    requires t in s.pcs && s.pcs[t].FreeChoose? && StripeFree(s, Stripe(s.pcs[t].h))
    ensures Acts(s, t, s') && s'.pcs[t] == FreeRead(s.pcs[t].h, true)
  {
    hide Stripe, StripeFree;
    s' := At(s, t, FreeRead(s.pcs[t].h, true));
  }

  /** A call may begin at any time: an allocation, or the freeing of a handle that somebody owns. */
  lemma CallsPossible(s: State, t: Tid, h: int)
    requires t in s.pcs && s.pcs[t].Idle?
    ensures Step(s, t, At(s, t, ReadHead))
    ensures h in s.owned ==> Step(s, t, At(s, t, FreeChoose(h)).(owned := s.owned - {h}))
  {
    if h in s.owned {
      assert GivesBack(s, t, h, At(s, t, FreeChoose(h)).(owned := s.owned - {h}));
    }
  }
}
