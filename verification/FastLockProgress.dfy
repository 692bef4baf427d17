/** What a thread gets when it asks for the fast lock, or gives it back. */
module FastLockProgress {
  import opened FastLock
  import opened FastLockProof

  // ---------------------------------------------------------------------------------------------
  // When the lock is to be had
  // ---------------------------------------------------------------------------------------------

  /** An exclusive waiter has been taken off the count of the word and has not got the lock yet: somebody
      is about to release the semaphore, or has done so, or a waiter has been woken. */
  ghost predicate Wakeup(s: State) {
    s.exTokens > 0 || exists u :: 0 <= u < |s.pcs| && (s.pcs[u].SignalEx? || s.pcs[u].ExWokenRead? || s.pcs[u].ExWokenCas?)
  }

  ghost predicate HeldExclusive(s: State) { exists u :: 0 <= u < |s.pcs| && Exclusive(s.pcs[u]) }

  ghost predicate HeldShared(s: State) { exists u :: 0 <= u < |s.pcs| && Shared(s.pcs[u]) }

  ghost predicate Awaited(s: State) { exists u :: 0 <= u < |s.pcs| && s.pcs[u].ExWait? }

  /** An exclusive owner has to wait for every owner and every wakeup; a shared one for exclusive owners,
      exclusive waiters and wakeups. */
  ghost predicate BusyExclusive(s: State) { HeldExclusive(s) || HeldShared(s) || Wakeup(s) }

  ghost predicate BusyShared(s: State) { HeldExclusive(s) || Awaited(s) || Wakeup(s) }

  lemma SomeTotal(s: State, k: Kind)
    requires Inv(s)
    ensures Total(s.pcs, k) > 0 <==> exists u :: 0 <= u < |s.pcs| && Weight(s.pcs[u], k) > 0
    ensures Total(s.pcs, k) >= 0
  {
    TotalBounds(s.pcs, k);
    if Total(s.pcs, k) > 0 {
      var u := SomeThread(s.pcs, k);
    }
  }

  /** What the fields of the word say about the threads. */
  lemma WordMeans(s: State)
    requires Inv(s)
    ensures Owned(s.word) == 0 <==> !HeldExclusive(s) && !HeldShared(s)
    ensures SharedOwners(s.word) == 0 <==> !HeldShared(s)
    ensures Waking(s.word) == 0 <==> !Wakeup(s)
    ensures Waking(s.word) == 0 ==> (ExclusiveWaiters(s.word) == 0 <==> !Awaited(s))
    ensures HeldShared(s) ==> !HeldExclusive(s)
  {
    SomeTotal(s, HoldsEx);
    SomeTotal(s, HoldsSh);
    SomeTotal(s, SignalsEx);
    SomeTotal(s, Wakes);
    SomeTotal(s, WaitsEx);
    KindsMean(s);
    PackUnpack(s.word);
    hide Total, Weight, Owned, Waking, SharedOwners, SharedWaiters, ExclusiveWaiters, Pack, AllTested, Events,
      HeldExclusive, HeldShared, Awaited, Wakeup;
  }

  lemma KindsMean(s: State)
    ensures HeldExclusive(s) <==> exists u :: 0 <= u < |s.pcs| && Weight(s.pcs[u], HoldsEx) > 0
    ensures HeldShared(s) <==> exists u :: 0 <= u < |s.pcs| && Weight(s.pcs[u], HoldsSh) > 0
    ensures Awaited(s) <==> exists u :: 0 <= u < |s.pcs| && Weight(s.pcs[u], WaitsEx) > 0
    ensures Wakeup(s) <==>
      (|| s.exTokens > 0
       || (exists u :: 0 <= u < |s.pcs| && Weight(s.pcs[u], SignalsEx) > 0)
       || exists u :: 0 <= u < |s.pcs| && Weight(s.pcs[u], Wakes) > 0)
  {
  }

  // ---------------------------------------------------------------------------------------------
  // Trying
  // ---------------------------------------------------------------------------------------------

  predicate InExclusive(pc: Pc) {
    pc.ExRead? || pc.ExTake? || pc.ExEnsure? || pc.ExQueue? || pc.ExWait? || pc.ExWokenRead? || pc.ExWokenCas?
    || pc.TryExRead? || pc.TryExCas?
  }

  predicate InShared(pc: Pc) {
    pc.ShRead? || pc.ShTake? || pc.ShJoin? || pc.ShEnsure? || pc.ShQueue? || pc.ShWait? || pc.TryShRead? || pc.TryShCas?
  }

  predicate InRelease(pc: Pc) {
    pc.RelExRead? || pc.RelExCas? || pc.RelShRead? || pc.RelShCas? || pc.SignalEx? || pc.SignalSh?
  }

  lemma OneKind(s: State, t: Tid, s': State)
    requires Step(s, t, s')
    ensures |s'.pcs| == |s.pcs|
    ensures InExclusive(s.pcs[t]) ==> ExclusiveStep(s, t, s')
    ensures InShared(s.pcs[t]) ==> SharedStep(s, t, s')
    ensures InRelease(s.pcs[t]) ==> ReleaseStep(s, t, s')
  {
    hide Owned, Waking, SharedOwners, SharedWaiters, ExclusiveWaiters, Wrap, ClearOwnedAndSharedWaiters;
  }

  /** PhfTryAcquireFastLockExclusive returns FALSE if the lock is held or a wakeup is under way when it is
      read (from s to s1), or if the word has changed until the compare-exchange (from r to r1); and in
      no other case: otherwise the thread owns the lock. */
  lemma TryExclusive(s: State, t: Tid, s1: State, r: State, r1: State)
    requires Reachable(s) && t < |s.pcs| && s.pcs[t].TryExRead? && Step(s, t, s1)
    requires t < |r.pcs| && r.pcs[t] == s1.pcs[t] && Step(r, t, r1)
    ensures s1.pcs[t].Idle? <==> BusyExclusive(s)
    ensures !s1.pcs[t].Idle? ==> r1.pcs[t] == if r.word == s.word then HoldEx else Idle
  {
    ReachableInv(s);
    WordMeans(s);
    OneKind(s, t, s1);
    OneKind(r, t, r1);
    hide Inv, Reachable, Step, Owned, Waking, Wrap, HeldExclusive, HeldShared, Wakeup;
  }

  /** The same for PhfTryAcquireFastLockShared. */
  lemma TryShared(s: State, t: Tid, s1: State, r: State, r1: State)
    requires Reachable(s) && t < |s.pcs| && s.pcs[t].TryShRead? && Step(s, t, s1)
    requires t < |r.pcs| && r.pcs[t] == s1.pcs[t] && Step(r, t, r1)
    ensures s1.pcs[t].Idle? <==> BusyShared(s)
    ensures !s1.pcs[t].Idle? ==> r1.pcs[t] == if r.word == s.word then HoldSh else Idle
  {
    ReachableInv(s);
    WordMeans(s);
    OneKind(s, t, s1);
    OneKind(r, t, r1);
    hide Inv, Reachable, Step, Owned, Waking, SharedOwners, ExclusiveWaiters, Wrap, HeldExclusive, HeldShared, Wakeup, Awaited;
  }

  // ---------------------------------------------------------------------------------------------
  // Acquiring and releasing, for a thread that is not disturbed
  // ---------------------------------------------------------------------------------------------

  /** Three steps of one thread in a row. */
  ghost predicate InARow(s: State, t: Tid, s1: State, s2: State, s3: State) {
    && t < |s.pcs| && |s1.pcs| == |s2.pcs| == |s3.pcs| == |s.pcs|
    && Step(s, t, s1) && Step(s1, t, s2) && Step(s2, t, s3)
  }

  /** PhfAcquireFastLockExclusive: two steps in a row get a lock that is to be had; otherwise three steps
      after the last round of spinning make the thread a waiter. */
  lemma AcquireExclusive(s: State, t: Tid, s1: State, s2: State, s3: State)
    requires Reachable(s) && InARow(s, t, s1, s2, s3) && s.pcs[t].ExRead? && s1 != s
    ensures if BusyExclusive(s) then s3.pcs[t].ExWait? else s2.pcs[t].HoldEx?
  {
    ReachableInv(s);
    WordMeans(s);
    OneKind(s, t, s1);
    OneKind(s1, t, s2);
    OneKind(s2, t, s3);
    hide Inv, Reachable, Step, Owned, Waking, Wrap, HeldExclusive, HeldShared, Wakeup;
  }

  /** PhfAcquireFastLockShared */
  lemma AcquireShared(s: State, t: Tid, s1: State, s2: State, s3: State)
    requires Reachable(s) && InARow(s, t, s1, s2, s3) && s.pcs[t].ShRead? && s1 != s
    ensures if BusyShared(s) then s3.pcs[t].ShWait? else s2.pcs[t].HoldSh?
  {
    ReadShared(s, t, s1);
    OneKind(s1, t, s2);
    OneKind(s2, t, s3);
    hide Reachable, Step, Owned, Waking, SharedOwners, ExclusiveWaiters, Wrap, BusyShared;
  }

  lemma ReadShared(s: State, t: Tid, s1: State)
    requires Reachable(s) && t < |s.pcs| && s.pcs[t].ShRead? && Step(s, t, s1) && s1 != s
    ensures |s1.pcs| == |s.pcs| && s1.word == s.word
    ensures if BusyShared(s) then s1.pcs[t] == ShEnsure(s.word) else s1.pcs[t] == ShTake(s.word) || s1.pcs[t] == ShJoin(s.word)
  {
    ReachableInv(s);
    WordMeans(s);
    OneKind(s, t, s1);
    hide Inv, Reachable, Step, Owned, Waking, SharedOwners, ExclusiveWaiters, Wrap, HeldExclusive, HeldShared, Wakeup, Awaited;
  }

  /** An exclusive waiter that is given a token gets the lock; a shared one starts again. */
  lemma TakeToken(s: State, t: Tid, s1: State, s2: State, s3: State)
    requires InARow(s, t, s1, s2, s3)
    ensures s.pcs[t].ExWait? ==> s.exTokens > 0 && s1.exTokens == s.exTokens - 1 && s3.pcs[t].HoldEx?
    ensures s.pcs[t].ShWait? ==> s.shTokens > 0 && s1.shTokens == s.shTokens - 1 && s1.pcs[t].ShRead?
  {
    OneKind(s, t, s1);
    OneKind(s1, t, s2);
    OneKind(s2, t, s3);
    hide Step, Owned, Waking, SharedOwners, ExclusiveWaiters, Wrap;
  }

  /** PhfReleaseFastLockExclusive: nobody holds the lock afterwards; one exclusive waiter gets a token, or if
      there is none every shared one does. */
  lemma ReleaseExclusive(s: State, t: Tid, s1: State, s2: State, s3: State)
    requires Reachable(s) && InARow(s, t, s1, s2, s3) && s.pcs[t].RelExRead?
    ensures Owned(s2.word) == 0 && (s2.pcs[t].Idle? || s3.pcs[t].Idle?)
    ensures if ExclusiveWaiters(s.word) > 0
            then && s3.exTokens == s.exTokens + 1 && s3.shTokens == s.shTokens
                 && ExclusiveWaiters(s2.word) == ExclusiveWaiters(s.word) - 1 && SharedWaiters(s2.word) == SharedWaiters(s.word)
            else && SharedWaiters(s2.word) == 0
                 && (SharedWaiters(s.word) > 0 ==> s3.shTokens == s.shTokens + SharedWaiters(s.word) && s3.exTokens == s.exTokens)
                 && (SharedWaiters(s.word) == 0 ==> s2.shTokens == s.shTokens && s2.exTokens == s.exTokens)
  {
    OneKind(s, t, s1);
    OneKind(s1, t, s2);
    OwnedWord(s, t);
    ReleasedWord(s.word, Unpack(s.word));
    OneKind(s2, t, s3);
    hide Inv, Reachable, Step, Owned, Waking, SharedOwners, SharedWaiters, ExclusiveWaiters, Wrap, ClearOwnedAndSharedWaiters;
  }

  /** PhfReleaseFastLockShared: one owner less; after the last one, one exclusive waiter gets a token if there
      is any. */
  lemma ReleaseShared(s: State, t: Tid, s1: State, s2: State, s3: State)
    requires Reachable(s) && InARow(s, t, s1, s2, s3) && s.pcs[t].RelShRead?
    ensures SharedOwners(s2.word) == SharedOwners(s.word) - 1 && (s2.pcs[t].Idle? || s3.pcs[t].Idle?)
    ensures Owned(s2.word) == if SharedOwners(s.word) > 1 then 1 else 0
    ensures s2.shTokens == s.shTokens
    ensures if SharedOwners(s.word) == 1 && ExclusiveWaiters(s.word) > 0
            then s3.exTokens == s.exTokens + 1 && ExclusiveWaiters(s2.word) == ExclusiveWaiters(s.word) - 1
            else s2.exTokens == s.exTokens && ExclusiveWaiters(s2.word) == ExclusiveWaiters(s.word)
  {
    OneKind(s, t, s1);
    OneKind(s1, t, s2);
    OwnedWord(s, t);
    SharedReleasedWord(s.word, Unpack(s.word));
    OneKind(s2, t, s3);
    hide Inv, Reachable, Step, Owned, Waking, SharedOwners, SharedWaiters, ExclusiveWaiters, Wrap, ClearOwnedAndSharedWaiters;
  }

  /** What the word is while a thread releases the lock. */
  lemma OwnedWord(s: State, t: Tid)
    requires Reachable(s) && t < |s.pcs| && (s.pcs[t].RelExRead? || s.pcs[t].RelShRead?)
    ensures 0 <= s.word < WORD && InRange(Unpack(s.word)) && Owned(s.word) == 1 && Waking(s.word) == 0
    ensures if s.pcs[t].RelExRead? then SharedOwners(s.word) == 0 else SharedOwners(s.word) >= 1
  {
    ReachableInv(s);
    var c := Known(s, t);
    hide Inv, Reachable, TallyOf, Owned, Waking, SharedOwners, SharedWaiters, ExclusiveWaiters;
  }

  /** The word after the compare-exchange of an exclusive release. */
  lemma ReleasedWord(v: int, c: Counters)
    requires 0 <= v < WORD && c == Unpack(v) && InRange(c) && c.owned == 1 && c.waking == 0 && c.sharedOwners == 0
    ensures c.exclusiveWaiters > 0 ==>
      Unpack(Wrap(v - OWNED + EXCLUSIVE_WAKING - EXCLUSIVE_WAITERS_INC))
      == c.(owned := 0, waking := 1, exclusiveWaiters := c.exclusiveWaiters - 1)
    ensures Unpack(ClearOwnedAndSharedWaiters(v)) == c.(owned := 0, sharedWaiters := 0)
  {
    if c.exclusiveWaiters > 0 {
      Repack(v, c.(owned := 0, waking := 1, exclusiveWaiters := c.exclusiveWaiters - 1));
    }
    ClearedWord(v, c.(owned := 0, sharedWaiters := 0));
    Repack(v, c.(owned := 0, sharedWaiters := 0));
    hide Owned, Waking, SharedOwners, SharedWaiters, ExclusiveWaiters, Wrap, ClearOwnedAndSharedWaiters;
  }

  /** The word after the compare-exchange of a shared release. */
  lemma SharedReleasedWord(v: int, c: Counters)
    requires 0 <= v < WORD && c == Unpack(v) && InRange(c) && c.owned == 1 && c.waking == 0 && c.sharedOwners >= 1
    ensures c.sharedOwners > 1 ==> Unpack(Wrap(v - SHARED_OWNERS_INC)) == c.(sharedOwners := c.sharedOwners - 1)
    ensures c.sharedOwners == 1 && c.exclusiveWaiters > 0 ==>
      Unpack(Wrap(v - OWNED + EXCLUSIVE_WAKING - SHARED_OWNERS_INC - EXCLUSIVE_WAITERS_INC))
      == c.(owned := 0, waking := 1, sharedOwners := 0, exclusiveWaiters := c.exclusiveWaiters - 1)
    ensures c.sharedOwners == 1 ==> Unpack(Wrap(v - OWNED - SHARED_OWNERS_INC)) == c.(owned := 0, sharedOwners := 0)
  {
    if c.sharedOwners > 1 {
      Repack(v, c.(sharedOwners := c.sharedOwners - 1));
    } else {
      Repack(v, c.(owned := 0, sharedOwners := 0));
      if c.exclusiveWaiters > 0 {
        Repack(v, c.(owned := 0, waking := 1, sharedOwners := 0, exclusiveWaiters := c.exclusiveWaiters - 1));
      }
    }
    hide Owned, Waking, SharedOwners, SharedWaiters, ExclusiveWaiters, Wrap;
  }

  // ---------------------------------------------------------------------------------------------
  // Nobody is stuck
  // ---------------------------------------------------------------------------------------------

  /** Every thread can take a step that is not spinning, unless it waits for a token that is not there. */
  lemma NobodyIsStuck(s: State, t: Tid)
    requires t < |s.pcs| && !(s.pcs[t].ExWait? && s.exTokens <= 0) && !(s.pcs[t].ShWait? && s.shTokens <= 0)
    ensures CanMove(s, t)
  {
    hide Owned, Waking, SharedOwners, SharedWaiters, ExclusiveWaiters, Wrap, ClearOwnedAndSharedWaiters;
    if InExclusive(s.pcs[t]) {
      ExclusiveMoves(s, t);
    } else if InShared(s.pcs[t]) {
      SharedMoves(s, t);
    } else if s.pcs[t].RelExCas? {
      ReleaseExclusiveMoves(s, t);
    } else if s.pcs[t].RelShCas? {
      ReleaseSharedMoves(s, t);
    } else {
      var s' := match s.pcs[t]
        case Idle => At(s, t, ExRead)
        case HoldEx => At(s, t, RelExRead)
        case HoldSh => At(s, t, RelShRead)
        case RelExRead => At(s, t, RelExCas(s.word))
        case RelShRead => At(s, t, RelShCas(s.word))
        case SignalEx => At(s, t, Idle).(exTokens := s.exTokens + 1)
        case SignalSh(n) => At(s, t, Idle).(shTokens := s.shTokens + n);
      assert s'.pcs[t] != s.pcs[t] && (CallStep(s, t, s') || ReleaseStep(s, t, s'));
      assert Step(s, t, s');
    }
  }

  lemma ExclusiveMoves(s: State, t: Tid)
    requires t < |s.pcs| && InExclusive(s.pcs[t]) && !(s.pcs[t].ExWait? && s.exTokens <= 0)
    ensures CanMove(s, t)
  {
    hide Owned, Waking, SharedOwners, SharedWaiters, ExclusiveWaiters, Wrap;
    if s.pcs[t].ExRead? || s.pcs[t].TryExRead? {
      ExclusiveReadMoves(s, t);
    } else {
      var s' := match s.pcs[t]
        case ExTake(v) => Cas(s, t, v, Wrap(v + OWNED), HoldEx, ExRead)
        case ExEnsure(v) => At(s, t, ExQueue(v)).(exEvent := true)
        case ExQueue(v) => Cas(s, t, v, Wrap(v + EXCLUSIVE_WAITERS_INC), ExWait, ExRead)
        case ExWait => At(s, t, ExWokenRead).(exTokens := s.exTokens - 1)
        case ExWokenRead => At(s, t, ExWokenCas(s.word))
        case ExWokenCas(v) => Cas(s, t, v, Wrap(v + OWNED - EXCLUSIVE_WAKING), HoldEx, ExWokenRead)
        case TryExCas(v) => Cas(s, t, v, Wrap(v + OWNED), HoldEx, Idle);
      assert s'.pcs[t] != s.pcs[t] && ExclusiveStep(s, t, s');
      assert Step(s, t, s');
    }
  }

  lemma ExclusiveReadMoves(s: State, t: Tid)
    requires t < |s.pcs| && (s.pcs[t].ExRead? || s.pcs[t].TryExRead?)
    ensures CanMove(s, t)
  {
    hide Owned, Waking, SharedOwners, SharedWaiters, ExclusiveWaiters, Wrap;
    var free := Owned(s.word) == 0 && Waking(s.word) == 0;
    var s' := At(s, t,
      if s.pcs[t].ExRead? then if free then ExTake(s.word) else ExEnsure(s.word)
      else if free then TryExCas(s.word) else Idle);
    assert s'.pcs[t] != s.pcs[t] && ExclusiveStep(s, t, s');
    assert Step(s, t, s');
  }

  lemma SharedMoves(s: State, t: Tid)
    requires t < |s.pcs| && InShared(s.pcs[t]) && !(s.pcs[t].ShWait? && s.shTokens <= 0)
    ensures CanMove(s, t)
  {
    hide Owned, Waking, SharedOwners, SharedWaiters, ExclusiveWaiters, Wrap;
    if s.pcs[t].ShRead? || s.pcs[t].TryShRead? {
      SharedReadMoves(s, t);
    } else {
      var s' := match s.pcs[t]
        case ShTake(v) => Cas(s, t, v, Wrap(v + OWNED + SHARED_OWNERS_INC), HoldSh, ShRead)
        case ShJoin(v) => Cas(s, t, v, Wrap(v + SHARED_OWNERS_INC), HoldSh, ShRead)
        case ShEnsure(v) => At(s, t, ShQueue(v)).(shEvent := true)
        case ShQueue(v) => Cas(s, t, v, Wrap(v + SHARED_WAITERS_INC), ShWait, ShRead)
        case ShWait => At(s, t, ShRead).(shTokens := s.shTokens - 1)
        case TryShCas(v) =>
          Cas(s, t, v, if Owned(v) == 0 then Wrap(v + OWNED + SHARED_OWNERS_INC) else Wrap(v + SHARED_OWNERS_INC), HoldSh, Idle);
      assert s'.pcs[t] != s.pcs[t] && SharedStep(s, t, s');
      assert Step(s, t, s');
    }
  }

  lemma SharedReadMoves(s: State, t: Tid)
    requires t < |s.pcs| && (s.pcs[t].ShRead? || s.pcs[t].TryShRead?)
    ensures CanMove(s, t)
  {
    hide Owned, Waking, SharedOwners, SharedWaiters, ExclusiveWaiters, Wrap;
    var w := s.word;
    var s' := At(s, t,
      if s.pcs[t].ShRead? then
        if Owned(w) == 0 && SharedOwners(w) == 0 && Waking(w) == 0 && ExclusiveWaiters(w) == 0 then ShTake(w)
        else if Owned(w) != 0 && SharedOwners(w) > 0 && Waking(w) == 0 && ExclusiveWaiters(w) == 0 then ShJoin(w)
        else ShEnsure(w)
      else if Waking(w) != 0 || ExclusiveWaiters(w) != 0 || (Owned(w) != 0 && SharedOwners(w) == 0) then Idle else TryShCas(w));
    assert s'.pcs[t] != s.pcs[t] && SharedStep(s, t, s');
    assert Step(s, t, s');
  }

  /** A call may begin at any time, and an owner may release. */
  lemma CallsPossible(s: State, t: Tid)
    requires t < |s.pcs|
    ensures s.pcs[t].Idle? ==>
      Step(s, t, At(s, t, ExRead)) && Step(s, t, At(s, t, ShRead)) && Step(s, t, At(s, t, TryExRead)) && Step(s, t, At(s, t, TryShRead))
    ensures s.pcs[t].HoldEx? ==> Step(s, t, At(s, t, RelExRead))
    ensures s.pcs[t].HoldSh? ==> Step(s, t, At(s, t, RelShRead))
  {
    hide Owned, Waking, SharedOwners, SharedWaiters, ExclusiveWaiters, Wrap, ClearOwnedAndSharedWaiters, Cas;
  }
}
