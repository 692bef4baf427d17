/**
 * The lock-free free lists of the handle table (phlib/handle.c), as a transition system over any
 * number of threads. One step is one access to shared memory: a read, a link write, a
 * compare-exchange, or one lock operation.
 *
 * `free` and `alt` are FreeValue and FreeValueAlt; `next` holds the NextFreeValue field of every
 * created entry, so its length is NextValue. The striped locks are not stored: stripe k is held (shared)
 * exactly by the threads whose program point lies between PhpLockHandleTableShared and
 * PhpUnlockHandleTableShared for a handle of that stripe.
 */
module HandleFreeList {

  const INVALID: int := 0xFFFF_FFFF  // PH_HANDLE_VALUE_INVALID
  const LOCKS: nat := 8              // PH_HANDLE_TABLE_LOCKS
  const LEVEL_ENTRIES: nat := 256    // PH_HANDLE_TABLE_LEVEL_ENTRIES
  const MAX_HANDLES: nat := 256 * 256 * 256
  const FREE_COUNT: nat := 64        // PH_HANDLE_TABLE_FREE_COUNT

  /** PH_HANDLE_TABLE_LOCK_INDEX */
  function Stripe(h: int): (k: nat)
    ensures k < LOCKS
  {
    h % LOCKS
  }

  type Tid = nat

  /** What to do once a chain of entries has been pushed, or the table lock released. */
  datatype Continuation =
    | TryHandle(guess: int)    // go on to pop with this guess
    | Expand                   // strict FIFO and too few handles: expand as well
    | Reread(result: bool)     // read FreeValue again; on INVALID and !result give up

  /** Program points. Each is named after the access it is about to make. */
  datatype Pc =
    | Idle
    // PhpAllocateHandleTableEntry, fast path
    | ReadHead                                // freeValue = FreeValue
    | LockStripe(fv: int)                     // PhpLockHandleTableShared
    | Recheck(fv: int)                        // FreeValue != freeValue?
    | ReadNext(fv: int)                       // nextFreeValue = entry->NextFreeValue
    | CasHead(fv: int, nx: int)               // compare-exchange of FreeValue
    | UnlockStripe(fv: int, won: bool)        // PhpUnlockHandleTableShared
    // slow path, under HandleTable->Lock
    | EnterSlow
    | SlowHead
    | TakeAlt                                 // exchange of FreeValueAlt
    | TestLocks(first: int, i: nat)           // PhAcquireReleaseQueuedLockExclusive
    | ReadFlags(first: int)
    | Shortcut(first: int)                    // compare-exchange INVALID -> freeValueAlt
    | Reverse(first: int, index: int, last: int, strict: bool, count: nat)
    | PushRead(head: int, tail: int, cont: Continuation)
    | PushLink(head: int, tail: int, seen: int, cont: Continuation)
    | PushCas(head: int, tail: int, seen: int, cont: Continuation)
    | Grow                                    // PhpAllocateMoreHandleTableEntries
    | LeaveSlow(cont: Continuation)
    | RereadHead(result: bool)
    // PhpFreeHandleTableEntry
    | FreeChoose(h: int)
    | FreeRead(h: int, toMain: bool)
    | FreeLink(h: int, toMain: bool, seen: int)
    | FreeCas(h: int, toMain: bool, seen: int)

  datatype State = State(
    free: int,
    alt: int,
    next: seq<int>,         // one link per created entry, so NextValue == |next|
    owned: set<int>,        // handles handed out and not yet given back
    lock: int,              // holder of HandleTable->Lock, or -1
    pcs: map<Tid, Pc>)

  predicate HoldsStripe(pc: Pc, k: nat) {
    match pc
    case Recheck(fv) => Stripe(fv) == k
    case ReadNext(fv) => Stripe(fv) == k
    case CasHead(fv, _) => Stripe(fv) == k
    case UnlockStripe(fv, _) => Stripe(fv) == k
    case _ => false
  }

  /** No thread holds stripe k, so its owned bit reads as clear. */
  ghost predicate StripeFree(s: State, k: nat) {
    forall t :: t in s.pcs ==> !HoldsStripe(s.pcs[t], k)
  }

  predicate InSlow(pc: Pc) {
    pc.SlowHead? || pc.TakeAlt? || pc.TestLocks? || pc.ReadFlags? || pc.Shortcut? || pc.Reverse?
    || pc.PushRead? || pc.PushLink? || pc.PushCas? || pc.Grow? || pc.LeaveSlow?
  }

  predicate IsFreeing(pc: Pc) {
    pc.FreeChoose? || pc.FreeRead? || pc.FreeLink? || pc.FreeCas?
  }

  function At(s: State, t: Tid, pc: Pc): State {
    s.(pcs := s.pcs[t := pc])
  }

  // ---------------------------------------------------------------------------------------------
  // Steps
  // ---------------------------------------------------------------------------------------------

  ghost predicate Init(s: State) {
    && s.free == 0
    && s.alt == INVALID
    && s.next == LevelLinks(0)
    && s.owned == {}
    && s.lock == -1
    && forall t :: t in s.pcs ==> s.pcs[t] == Idle
  }

  /** Links written by PhpCreateHandleTableLevel0 for the level starting at `base`. */
  function LevelLinks(base: nat): (r: seq<int>)
    ensures |r| == LEVEL_ENTRIES
  {
    seq(LEVEL_ENTRIES, i => if i == LEVEL_ENTRIES - 1 then INVALID else base + i + 1)
  }

  /** The caller starts an allocation, starts freeing a handle it owns, or uses the entry of a
      handle it owns: Value2 overlays NextFreeValue, so the link may become anything. */
  ghost predicate ClientStep(s: State, t: Tid, s': State)
    requires t in s.pcs
  {
    || (s.pcs[t].Idle? && s' == At(s, t, ReadHead))
    || (s.pcs[t].Idle? && exists h :: h in s.owned && GivesBack(s, t, h, s'))
    || exists h, v :: h in s.owned && UsesEntry(s, h, v, s')
  }

  ghost predicate GivesBack(s: State, t: Tid, h: int, s': State) {
    s' == At(s, t, FreeChoose(h)).(owned := s.owned - {h})
  }

  ghost predicate UsesEntry(s: State, h: int, v: int, s': State) {
    0 <= h < |s.next| && s' == s.(next := s.next[h := v])
  }

  ghost predicate PopStep(s: State, t: Tid, s': State)
    requires t in s.pcs
  {
    match s.pcs[t]
    case ReadHead =>
      s' == At(s, t, if s.free == INVALID then EnterSlow else LockStripe(s.free))
    case LockStripe(fv) =>
      s' == At(s, t, Recheck(fv))
    case Recheck(fv) =>
      s' == At(s, t, if s.free != fv then UnlockStripe(fv, false) else ReadNext(fv))
    case ReadNext(fv) =>
      0 <= fv < |s.next| && s' == At(s, t, CasHead(fv, s.next[fv]))
    case CasHead(fv, nx) =>
      s' == if s.free == fv
            then At(s, t, UnlockStripe(fv, true)).(free := nx, owned := s.owned + {fv})
            else At(s, t, UnlockStripe(fv, false))
    case UnlockStripe(fv, won) =>
      s' == At(s, t, if won then Idle else ReadHead)
    case _ => false
  }

  ghost predicate MoveStep(s: State, t: Tid, s': State)
    requires t in s.pcs
  {
    match s.pcs[t]
    case EnterSlow =>
      s.lock == -1 && s' == At(s, t, SlowHead).(lock := t)
    case SlowHead =>
      s' == At(s, t, if s.free != INVALID then LeaveSlow(TryHandle(s.free)) else TakeAlt)
    case TakeAlt =>
      s' == if s.alt == INVALID then At(s, t, Grow)
            else At(s, t, TestLocks(s.alt, 0)).(alt := INVALID)
    case TestLocks(first, i) =>
      if i < LOCKS then StripeFree(s, i) && s' == At(s, t, TestLocks(first, i + 1))
      else s' == At(s, t, ReadFlags(first))
    case ReadFlags(first) =>
      s' == At(s, t, Shortcut(first)) || s' == At(s, t, Reverse(first, first, INVALID, true, 0))
    case Shortcut(first) =>
      s' == if s.free == INVALID
            then At(s, t, LeaveSlow(TryHandle(first))).(free := first)
            else At(s, t, Reverse(first, first, INVALID, false, 0))
    case Reverse(first, index, last, strict, count) =>
      && 0 <= index < |s.next|
      && s' == At(s, t,
           if s.next[index] == INVALID
           then PushRead(index, first,
                  if strict && count + 1 < FREE_COUNT then Expand else TryHandle(index))
           else Reverse(first, s.next[index], index, strict, count + 1)
         ).(next := s.next[index := last])
    case _ => false
  }

  ghost predicate PushStep(s: State, t: Tid, s': State)
    requires t in s.pcs
  {
    match s.pcs[t]
    case PushRead(head, tail, cont) =>
      s' == At(s, t, PushLink(head, tail, s.free, cont))
    case PushLink(head, tail, seen, cont) =>
      0 <= tail < |s.next| &&
      s' == At(s, t, PushCas(head, tail, seen, cont)).(next := s.next[tail := seen])
    case PushCas(head, tail, seen, cont) =>
      s' == if s.free == seen
            then At(s, t, if cont.Expand? then Grow else LeaveSlow(cont)).(free := head)
            else At(s, t, PushRead(head, tail, cont))
    case _ => false
  }

  ghost predicate GrowStep(s: State, t: Tid, s': State)
    requires t in s.pcs
  {
    match s.pcs[t]
    case Grow =>
      // no memory or no capacity
      || s' == At(s, t, LeaveSlow(Reread(false)))
      || (|s.next| + LEVEL_ENTRIES <= MAX_HANDLES &&
          s' == At(s, t, PushRead(|s.next|, |s.next| + LEVEL_ENTRIES - 1, Reread(true)))
                  .(next := s.next + LevelLinks(|s.next|)))
    case LeaveSlow(cont) =>
      && !cont.Expand?
      && s' == At(s, t, if cont.TryHandle? then LockStripe(cont.guess)
                        else RereadHead(cont.result)).(lock := -1)
    case RereadHead(result) =>
      s' == At(s, t, if s.free != INVALID then LockStripe(s.free)
                     else if result then EnterSlow else Idle)
    case _ => false
  }

  ghost predicate FreeStep(s: State, t: Tid, s': State)
    requires t in s.pcs
  {
    match s.pcs[t]
    case FreeChoose(h) =>
      // The main list is chosen only if strict FIFO is off and the stripe is seen unheld.
      || s' == At(s, t, FreeRead(h, false))
      || (StripeFree(s, Stripe(h)) && s' == At(s, t, FreeRead(h, true)))
    case FreeRead(h, toMain) =>
      s' == At(s, t, FreeLink(h, toMain, if toMain then s.free else s.alt))
    case FreeLink(h, toMain, seen) =>
      0 <= h < |s.next| &&
      s' == At(s, t, FreeCas(h, toMain, seen)).(next := s.next[h := seen])
    case FreeCas(h, toMain, seen) =>
      if (if toMain then s.free else s.alt) == seen then
        s' == if toMain then At(s, t, Idle).(free := h) else At(s, t, Idle).(alt := h)
      else
        s' == At(s, t, FreeRead(h, toMain))
    case _ => false
  }

  ghost predicate Step(s: State, t: Tid, s': State) {
    && t in s.pcs
    && (ClientStep(s, t, s') || PopStep(s, t, s') || MoveStep(s, t, s') || PushStep(s, t, s')
        || GrowStep(s, t, s') || FreeStep(s, t, s'))
  }

  ghost predicate Transition(s: State, s': State) {
    exists t :: Step(s, t, s')
  }

  /** A run: states[i+1] follows from states[i] by one step of some thread. */
  ghost predicate Run(states: seq<State>) {
    && |states| > 0
    && Init(states[0])
    && forall i :: 0 <= i < |states| - 1 ==> Transition(states[i], states[i + 1])
  }

  ghost predicate Reachable(s: State) {
    exists states :: Run(states) && states[|states| - 1] == s
  }
}
