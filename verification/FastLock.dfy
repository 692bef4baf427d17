/**
 * The fast resource lock (phlib/fastlock.c), as a transition system over any number of threads.
 * One step is one read of the lock word, one compare-exchange, one semaphore wait or release, or
 * one creation of a semaphore. A failed compare-exchange goes back to the read.
 *
 * The lock word is a 32-bit unsigned integer; a mask and shift of a field is written as division
 * and remainder, and every update wraps at 2^32 as the C arithmetic does.
 */
module FastLock {

  const WORD: int := 0x1_0000_0000

  const OWNED: int := 0x1
  const EXCLUSIVE_WAKING: int := 0x2
  const SHARED_OWNERS_INC: int := 0x4
  const SHARED_WAITERS_INC: int := 0x1000
  const EXCLUSIVE_WAITERS_INC: int := 0x40_0000
  const FIELD: int := 0x400  // each counter has ten bits

  /** The fields of the lock word. */
  function Owned(v: int): int { v % 2 }
  function Waking(v: int): int { v / EXCLUSIVE_WAKING % 2 }
  function SharedOwners(v: int): int { v / SHARED_OWNERS_INC % FIELD }
  function SharedWaiters(v: int): int { v / SHARED_WAITERS_INC % FIELD }
  function ExclusiveWaiters(v: int): int { v / EXCLUSIVE_WAITERS_INC % FIELD }

  function Wrap(v: int): int { v % WORD }

  /** value & ~(OWNED | (SHARED_WAITERS_MASK << SHARED_WAITERS_SHIFT)) */
  function ClearOwnedAndSharedWaiters(v: int): int {
    v - Owned(v) * OWNED - SharedWaiters(v) * SHARED_WAITERS_INC
  }

  type Tid = nat

  datatype Pc =
    | Idle
    // PhfAcquireFastLockExclusive
    | ExRead
    | ExTake(v: int)
    | ExEnsure(v: int)          // PhpEnsureEventCreated
    | ExQueue(v: int)           // compare-exchange that adds a waiter
    | ExWait                    // NtWaitForSingleObject
    | ExWokenRead
    | ExWokenCas(v: int)
    | HoldEx
    // PhfAcquireFastLockShared
    | ShRead
    | ShTake(v: int)            // first shared owner
    | ShJoin(v: int)            // further shared owner
    | ShEnsure(v: int)
    | ShQueue(v: int)
    | ShWait
    | HoldSh
    // PhfReleaseFastLockExclusive and PhfReleaseFastLockShared
    | RelExRead
    | RelExCas(v: int)
    | RelShRead
    | RelShCas(v: int)
    | SignalEx                  // NtReleaseSemaphore(ExclusiveWakeEvent, 1)
    | SignalSh(n: int)          // NtReleaseSemaphore(SharedWakeEvent, sharedWaiters)
    // PhfTryAcquireFastLockExclusive and PhfTryAcquireFastLockShared
    | TryExRead
    | TryExCas(v: int)
    | TryShRead
    | TryShCas(v: int)

  datatype State = State(
    word: int,
    exTokens: int,              // semaphore counts
    shTokens: int,
    exEvent: bool,              // the semaphore handle has been created
    shEvent: bool,
    pcs: seq<Pc>)

  const MAX_THREADS: nat := 1023

  ghost predicate Init(s: State) {
    && s.word == 0 && s.exTokens == 0 && s.shTokens == 0 && !s.exEvent && !s.shEvent
    && |s.pcs| <= MAX_THREADS
    && forall t :: 0 <= t < |s.pcs| ==> s.pcs[t] == Idle
  }

  function At(s: State, t: Tid, pc: Pc): State
    requires t < |s.pcs|
  {
    s.(pcs := s.pcs[t := pc])
  }

  /** A compare-exchange of the lock word from v to v'. */
  function Cas(s: State, t: Tid, v: int, v': int, success: Pc, failure: Pc): State
    requires t < |s.pcs|
  {
    if s.word == v then At(s, t, success).(word := v') else At(s, t, failure)
  }

  ghost predicate CallStep(s: State, t: Tid, s': State)
    requires t < |s.pcs|
  {
    match s.pcs[t]
    case Idle =>
      s' == At(s, t, ExRead) || s' == At(s, t, ShRead) || s' == At(s, t, TryExRead) || s' == At(s, t, TryShRead)
    case HoldEx => s' == At(s, t, RelExRead)
    case HoldSh => s' == At(s, t, RelShRead)
    case _ => false
  }

  ghost predicate ExclusiveStep(s: State, t: Tid, s': State)
    requires t < |s.pcs|
  {
    match s.pcs[t]
    case ExRead =>
      if Owned(s.word) == 0 && Waking(s.word) == 0 then s' == At(s, t, ExTake(s.word))
      else s' == s /* still spinning */ || s' == At(s, t, ExEnsure(s.word))
    case ExTake(v) =>
      s' == Cas(s, t, v, Wrap(v + OWNED), HoldEx, ExRead)
    case ExEnsure(v) =>
      s' == At(s, t, ExQueue(v)).(exEvent := true)
    case ExQueue(v) =>
      s' == Cas(s, t, v, Wrap(v + EXCLUSIVE_WAITERS_INC), ExWait, ExRead)
    case ExWait =>
      s.exTokens > 0 && s' == At(s, t, ExWokenRead).(exTokens := s.exTokens - 1)
    case ExWokenRead =>
      s' == At(s, t, ExWokenCas(s.word))
    case ExWokenCas(v) =>
      s' == Cas(s, t, v, Wrap(v + OWNED - EXCLUSIVE_WAKING), HoldEx, ExWokenRead)
    case TryExRead =>
      s' == At(s, t, if Owned(s.word) != 0 || Waking(s.word) != 0 then Idle else TryExCas(s.word))
    case TryExCas(v) =>
      s' == Cas(s, t, v, Wrap(v + OWNED), HoldEx, Idle)
    case _ => false
  }

  ghost predicate SharedStep(s: State, t: Tid, s': State)
    requires t < |s.pcs|
  {
    match s.pcs[t]
    case ShRead =>
      if Owned(s.word) == 0 && SharedOwners(s.word) == 0 && Waking(s.word) == 0 && ExclusiveWaiters(s.word) == 0
      then s' == At(s, t, ShTake(s.word))
      else if Owned(s.word) != 0 && SharedOwners(s.word) > 0 && Waking(s.word) == 0 && ExclusiveWaiters(s.word) == 0
      then s' == At(s, t, ShJoin(s.word))
      else s' == s || s' == At(s, t, ShEnsure(s.word))
    case ShTake(v) =>
      s' == Cas(s, t, v, Wrap(v + OWNED + SHARED_OWNERS_INC), HoldSh, ShRead)
    case ShJoin(v) =>
      s' == Cas(s, t, v, Wrap(v + SHARED_OWNERS_INC), HoldSh, ShRead)
    case ShEnsure(v) =>
      s' == At(s, t, ShQueue(v)).(shEvent := true)
    case ShQueue(v) =>
      s' == Cas(s, t, v, Wrap(v + SHARED_WAITERS_INC), ShWait, ShRead)
    case ShWait =>
      s.shTokens > 0 && s' == At(s, t, ShRead).(shTokens := s.shTokens - 1)
    case TryShRead =>
      s' == At(s, t,
        if Waking(s.word) != 0 || ExclusiveWaiters(s.word) != 0 then Idle
        else if Owned(s.word) == 0 || SharedOwners(s.word) != 0 then TryShCas(s.word)
        else Idle)
    case TryShCas(v) =>
      s' == Cas(s, t, v,
        if Owned(v) == 0 then Wrap(v + OWNED + SHARED_OWNERS_INC) else Wrap(v + SHARED_OWNERS_INC),
        HoldSh, Idle)
    case _ => false
  }

  ghost predicate ReleaseStep(s: State, t: Tid, s': State)
    requires t < |s.pcs|
  {
    match s.pcs[t]
    case RelExRead =>
      s' == At(s, t, RelExCas(s.word))
    case RelExCas(v) =>
      if ExclusiveWaiters(v) != 0 then
        s' == Cas(s, t, v, Wrap(v - OWNED + EXCLUSIVE_WAKING - EXCLUSIVE_WAITERS_INC), SignalEx, RelExRead)
      else
        s' == Cas(s, t, v, ClearOwnedAndSharedWaiters(v),
                  if SharedWaiters(v) != 0 then SignalSh(SharedWaiters(v)) else Idle, RelExRead)
    case RelShRead =>
      s' == At(s, t, RelShCas(s.word))
    case RelShCas(v) =>
      if SharedOwners(v) > 1 then
        s' == Cas(s, t, v, Wrap(v - SHARED_OWNERS_INC), Idle, RelShRead)
      else if ExclusiveWaiters(v) != 0 then
        s' == Cas(s, t, v,
                  Wrap(v - OWNED + EXCLUSIVE_WAKING - SHARED_OWNERS_INC - EXCLUSIVE_WAITERS_INC),
                  SignalEx, RelShRead)
      else
        s' == Cas(s, t, v, Wrap(v - OWNED - SHARED_OWNERS_INC), Idle, RelShRead)
    case SignalEx =>
      s' == At(s, t, Idle).(exTokens := s.exTokens + 1)
    case SignalSh(n) =>
      s' == At(s, t, Idle).(shTokens := s.shTokens + n)
    case _ => false
  }

  ghost predicate Step(s: State, t: Tid, s': State) {
    && t < |s.pcs|
    && (CallStep(s, t, s') || ExclusiveStep(s, t, s') || SharedStep(s, t, s') || ReleaseStep(s, t, s'))
  }

  ghost predicate Transition(s: State, s': State) {
    exists t :: Step(s, t, s')
  }

  ghost predicate Run(states: seq<State>) {
    && |states| > 0
    && Init(states[0])
    && forall i :: 0 <= i < |states| - 1 ==> Transition(states[i], states[i + 1])
  }

  ghost predicate Reachable(s: State) {
    exists states :: Run(states) && states[|states| - 1] == s
  }
}
