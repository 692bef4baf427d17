/** Mutual exclusion, no lost wakeup and no carry between the fields of the fast lock's word. */
module FastLockProof {
  import opened FastLock

  // ---------------------------------------------------------------------------------------------
  // The packed word refines a record of counters
  // ---------------------------------------------------------------------------------------------

  datatype Counters = Counters(
    owned: int, waking: int, sharedOwners: int, sharedWaiters: int, exclusiveWaiters: int)

  ghost predicate InRange(c: Counters) {
    && 0 <= c.owned <= 1 && 0 <= c.waking <= 1
    && 0 <= c.sharedOwners < FIELD && 0 <= c.sharedWaiters < FIELD && 0 <= c.exclusiveWaiters < FIELD
  }

  function Pack(c: Counters): int {
    c.owned * OWNED + c.waking * EXCLUSIVE_WAKING + c.sharedOwners * SHARED_OWNERS_INC
    + c.sharedWaiters * SHARED_WAITERS_INC + c.exclusiveWaiters * EXCLUSIVE_WAITERS_INC
  }

  function Unpack(v: int): Counters {
    Counters(Owned(v), Waking(v), SharedOwners(v), SharedWaiters(v), ExclusiveWaiters(v))
  }

  /** A field of width b below the rest y of a word. */
  lemma LowField(x: int, y: int, b: int)
    requires (b == 2 || b == FIELD) && 0 <= x < b
    ensures (x + b * y) % b == x && (x + b * y) / b == y
  {
    if b == 2 {
      assert (x + 2 * y) / 2 == y;
    } else {
      assert (x + 0x400 * y) / 0x400 == y;
    }
  }

  /** Dividing by the position of a field is dividing by the widths below it in turn. */
  lemma Positions(v: int)
    ensures v / SHARED_OWNERS_INC == v / 2 / 2
    ensures v / SHARED_WAITERS_INC == v / 2 / 2 / FIELD
    ensures v / EXCLUSIVE_WAITERS_INC == v / 2 / 2 / FIELD / FIELD
  {
    var w := v / SHARED_OWNERS_INC;
    assert w == v / 2 / 2;
    assert v / SHARED_WAITERS_INC == w / FIELD;
    var x := w / FIELD;
    assert v / EXCLUSIVE_WAITERS_INC == x / FIELD by {
      assert v / SHARED_WAITERS_INC == x;
    }
  }

  /** No field of a packed word spills into its neighbour. */
  lemma UnpackPack(c: Counters)
    requires InRange(c)
    ensures 0 <= Pack(c) < WORD && Unpack(Pack(c)) == c
  {
    var v := Pack(c);
    var v3 := c.sharedWaiters + FIELD * c.exclusiveWaiters;
    var v2 := c.sharedOwners + FIELD * v3;
    var v1 := c.waking + 2 * v2;
    assert v == c.owned + 2 * v1;
    LowField(c.owned, v1, 2);
    LowField(c.waking, v2, 2);
    LowField(c.sharedOwners, v3, FIELD);
    LowField(c.sharedWaiters, c.exclusiveWaiters, FIELD);
    Positions(v);
  }

  lemma PackUnpack(v: int)
    requires 0 <= v < WORD
    ensures InRange(Unpack(v)) && Pack(Unpack(v)) == v
  {
    assert v / 4 == v / 2 / 2;
    assert v / SHARED_WAITERS_INC == v / 4 / FIELD;
    assert v / EXCLUSIVE_WAITERS_INC == v / SHARED_WAITERS_INC / FIELD;
    assert v / EXCLUSIVE_WAITERS_INC < FIELD;
  }

  /** Adding the difference of two records to a word gives the word of the second record. */
  lemma Repack(v: int, c: Counters)
    requires 0 <= v < WORD && InRange(c)
    ensures Wrap(v + Pack(c) - Pack(Unpack(v))) == Pack(c)
    ensures 0 <= Pack(c) < WORD && Unpack(Pack(c)) == c
  {
    PackUnpack(v);
    UnpackPack(c);
  }

  // ---------------------------------------------------------------------------------------------
  // Counting threads
  // ---------------------------------------------------------------------------------------------

  datatype Kind = HoldsEx | HoldsSh | WaitsEx | WaitsSh | SignalsEx | SignalsSh | Wakes

  function Weight(pc: Pc, k: Kind): int {
    match k
    case HoldsEx => if pc.HoldEx? || pc.RelExRead? || pc.RelExCas? then 1 else 0
    case HoldsSh => if pc.HoldSh? || pc.RelShRead? || pc.RelShCas? then 1 else 0
    case WaitsEx => if pc.ExWait? then 1 else 0
    case WaitsSh => if pc.ShWait? then 1 else 0
    case SignalsEx => if pc.SignalEx? then 1 else 0
    case SignalsSh => if pc.SignalSh? then pc.n else 0
    case Wakes => if pc.ExWokenRead? || pc.ExWokenCas? then 1 else 0
  }

  function Total(pcs: seq<Pc>, k: Kind): int {
    if pcs == [] then 0 else Weight(pcs[0], k) + Total(pcs[1..], k)
  }

  lemma {:induction false} TotalUpdate(pcs: seq<Pc>, t: nat, pc: Pc, k: Kind)
    requires t < |pcs|
    ensures Total(pcs[t := pc], k) == Total(pcs, k) - Weight(pcs[t], k) + Weight(pc, k)
    decreases pcs
  {
    if t == 0 {
      assert pcs[t := pc][1..] == pcs[1..];
    } else {
      TotalUpdate(pcs[1..], t - 1, pc, k);
      assert pcs[t := pc][1..] == pcs[1..][t - 1 := pc];
    }
  }

  /** What a compare-exchange may rely on: the test made on the value it expects. */
  ghost predicate Tested(pc: Pc) {
    match pc
    case ExTake(v) => Owned(v) == 0 && Waking(v) == 0
    case ExEnsure(v) => Owned(v) != 0 || Waking(v) != 0
    case ExQueue(v) => Owned(v) != 0 || Waking(v) != 0
    case TryExCas(v) => Owned(v) == 0 && Waking(v) == 0
    case ShTake(v) => Owned(v) == 0 && SharedOwners(v) == 0 && Waking(v) == 0 && ExclusiveWaiters(v) == 0
    case ShJoin(v) => Owned(v) != 0 && SharedOwners(v) > 0 && Waking(v) == 0 && ExclusiveWaiters(v) == 0
    case ShEnsure(v) => MustQueueShared(v)
    case ShQueue(v) => MustQueueShared(v)
    case TryShCas(v) => Waking(v) == 0 && ExclusiveWaiters(v) == 0 && (Owned(v) == 0 || SharedOwners(v) != 0)
    case SignalSh(n) => n > 0
    case _ => true
  }

  ghost predicate MustQueueShared(v: int) {
    && !(Owned(v) == 0 && SharedOwners(v) == 0 && Waking(v) == 0 && ExclusiveWaiters(v) == 0)
    && !(Owned(v) != 0 && SharedOwners(v) > 0 && Waking(v) == 0 && ExclusiveWaiters(v) == 0)
  }

  ghost predicate AllTested(pcs: seq<Pc>) {
    forall t :: 0 <= t < |pcs| ==> Tested(pcs[t])
  }

  lemma {:induction false} TotalBounds(pcs: seq<Pc>, k: Kind)
    requires AllTested(pcs)
    ensures 0 <= Total(pcs, k)
    ensures k != SignalsSh ==> Total(pcs, k) <= |pcs|
    ensures forall t :: 0 <= t < |pcs| ==> Weight(pcs[t], k) <= Total(pcs, k)
    decreases pcs
  {
    if pcs != [] {
      TotalBounds(pcs[1..], k);
      assert Tested(pcs[0]);
      assert forall t :: 0 < t < |pcs| ==> pcs[t] == pcs[1..][t - 1];
    }
  }

  lemma {:induction false} SomeThread(pcs: seq<Pc>, k: Kind) returns (t: nat)
    requires Total(pcs, k) > 0 && AllTested(pcs)
    ensures t < |pcs| && Weight(pcs[t], k) > 0
    decreases pcs
  {
    if Weight(pcs[0], k) > 0 {
      t := 0;
    } else {
      t := SomeThread(pcs[1..], k);
      t := t + 1;
    }
  }

  datatype Tally = Tally(
    holdsEx: int, holdsSh: int, waitsEx: int, waitsSh: int, signalsEx: int, signalsSh: int, wakes: int)

  function TallyOf(pcs: seq<Pc>): Tally {
    Tally(Total(pcs, HoldsEx), Total(pcs, HoldsSh), Total(pcs, WaitsEx), Total(pcs, WaitsSh),
          Total(pcs, SignalsEx), Total(pcs, SignalsSh), Total(pcs, Wakes))
  }

  function Shift(a: Tally, pc: Pc, pc': Pc): Tally {
    Tally(a.holdsEx - Weight(pc, HoldsEx) + Weight(pc', HoldsEx),
          a.holdsSh - Weight(pc, HoldsSh) + Weight(pc', HoldsSh),
          a.waitsEx - Weight(pc, WaitsEx) + Weight(pc', WaitsEx),
          a.waitsSh - Weight(pc, WaitsSh) + Weight(pc', WaitsSh),
          a.signalsEx - Weight(pc, SignalsEx) + Weight(pc', SignalsEx),
          a.signalsSh - Weight(pc, SignalsSh) + Weight(pc', SignalsSh),
          a.wakes - Weight(pc, Wakes) + Weight(pc', Wakes))
  }

  ghost predicate TallyInRange(a: Tally) {
    && 0 <= a.holdsEx <= MAX_THREADS && 0 <= a.holdsSh <= MAX_THREADS
    && 0 <= a.waitsEx <= MAX_THREADS && 0 <= a.waitsSh <= MAX_THREADS
    && 0 <= a.signalsEx <= MAX_THREADS && 0 <= a.signalsSh && 0 <= a.wakes <= MAX_THREADS
  }

  lemma KindUpdate(pcs: seq<Pc>, pcs': seq<Pc>, t: nat, pc: Pc, k: Kind)
    requires t < |pcs| <= MAX_THREADS && pcs' == pcs[t := pc] && AllTested(pcs) && AllTested(pcs')
    ensures Total(pcs', k) == Total(pcs, k) - Weight(pcs[t], k) + Weight(pc, k)
    ensures 0 <= Total(pcs, k) && 0 <= Total(pcs', k) && Weight(pcs[t], k) <= Total(pcs, k)
    ensures k != SignalsSh ==> Total(pcs, k) <= MAX_THREADS && Total(pcs', k) <= MAX_THREADS
  {
    TotalUpdate(pcs, t, pc, k);
    TotalBounds(pcs, k);
    TotalBounds(pcs', k);
  }

  lemma TestedUpdate(pcs: seq<Pc>, t: nat, pc: Pc)
    requires t < |pcs| && AllTested(pcs) && Tested(pc)
    ensures AllTested(pcs[t := pc])
  {
  }

  lemma TallyUpdate(pcs: seq<Pc>, t: nat, pc: Pc)
    requires t < |pcs| <= MAX_THREADS && AllTested(pcs) && Tested(pc)
    ensures AllTested(pcs[t := pc])
    ensures TallyOf(pcs[t := pc]) == Shift(TallyOf(pcs), pcs[t], pc)
    ensures TallyInRange(TallyOf(pcs)) && TallyInRange(TallyOf(pcs[t := pc]))
    ensures Weight(pcs[t], SignalsSh) <= TallyOf(pcs).signalsSh
    ensures Weight(pcs[t], SignalsEx) <= TallyOf(pcs).signalsEx
  {
    TestedUpdate(pcs, t, pc);
    hide Weight, Total, AllTested, Tested;
    var pcs' := pcs[t := pc];
    KindUpdate(pcs, pcs', t, pc, HoldsEx);
    KindUpdate(pcs, pcs', t, pc, HoldsSh);
    KindUpdate(pcs, pcs', t, pc, WaitsEx);
    KindUpdate(pcs, pcs', t, pc, WaitsSh);
    KindUpdate(pcs, pcs', t, pc, SignalsEx);
    KindUpdate(pcs, pcs', t, pc, SignalsSh);
    KindUpdate(pcs, pcs', t, pc, Wakes);
  }

  // ---------------------------------------------------------------------------------------------
  // The invariant
  // ---------------------------------------------------------------------------------------------

  /** The counters of the word, the semaphore counts and the threads balance. */
  ghost predicate Balanced(c: Counters, exTokens: int, shTokens: int, a: Tally) {
    && exTokens >= 0 && shTokens >= 0
    // owners
    && c.sharedOwners == a.holdsSh
    && a.holdsEx <= 1
    && (a.holdsEx == 1 ==> a.holdsSh == 0)
    && c.owned == (if a.holdsEx + a.holdsSh > 0 then 1 else 0)
    // one wakeup of an exclusive waiter at a time, and only while nobody owns the lock
    && c.waking == exTokens + a.signalsEx + a.wakes
    && (c.owned == 1 ==> c.waking == 0)
    // waiting threads are counted, have a token, or will be given one
    && a.waitsEx == c.exclusiveWaiters + exTokens + a.signalsEx
    && a.waitsSh == c.sharedWaiters + shTokens + a.signalsSh
    // somebody is responsible for every counted waiter
    && (c.exclusiveWaiters > 0 ==> c.owned == 1 || c.waking == 1)
    && (c.sharedWaiters > 0 ==> a.holdsEx == 1 || c.exclusiveWaiters > 0 || c.waking == 1)
  }

  ghost predicate Events(s: State) {
    && (Total(s.pcs, WaitsEx) > 0 ==> s.exEvent)
    && (Total(s.pcs, WaitsSh) > 0 ==> s.shEvent)
    && (forall t :: 0 <= t < |s.pcs| ==>
          (s.pcs[t].ExQueue? ==> s.exEvent) && (s.pcs[t].ShQueue? ==> s.shEvent))
  }

  ghost predicate Inv(s: State) {
    && 0 <= s.word < WORD && |s.pcs| <= MAX_THREADS && AllTested(s.pcs)
    && Balanced(Unpack(s.word), s.exTokens, s.shTokens, TallyOf(s.pcs))
    && Events(s)
  }

  /** A step that leaves the word alone. */
  lemma PcKeeps(s: State, t: Tid, pc: Pc, s': State)
    requires Inv(s) && t < |s.pcs| && Tested(pc)
    requires s'.pcs == s.pcs[t := pc] && s'.word == s.word
    requires s'.exEvent == (s.exEvent || s.pcs[t].ExEnsure?) && s'.shEvent == (s.shEvent || s.pcs[t].ShEnsure?)
    requires (pc.ExQueue? ==> s.pcs[t].ExEnsure?) && (pc.ShQueue? ==> s.pcs[t].ShEnsure?)
    requires !pc.ExWait? && !pc.ShWait?
    requires Balanced(Unpack(s.word), s'.exTokens, s'.shTokens, Shift(TallyOf(s.pcs), s.pcs[t], pc))
    ensures Inv(s')
  {
    TallyUpdate(s.pcs, t, pc);
  }

  ghost predicate NonNegative(c: Counters) {
    && 0 <= c.owned <= 1 && 0 <= c.waking <= 1
    && 0 <= c.sharedOwners && 0 <= c.sharedWaiters && 0 <= c.exclusiveWaiters
  }

  /** A compare-exchange that succeeds and turns the counters into c: because there are at most
      MAX_THREADS threads, no counter outgrows its field. */
  lemma WordKeeps(s: State, t: Tid, pc: Pc, c: Counters, s': State)
    requires Inv(s) && t < |s.pcs| && Tested(pc)
    requires s' == At(s, t, pc).(word := Wrap(s.word + Pack(c) - Pack(Unpack(s.word))))
    requires !pc.ExQueue? && !pc.ShQueue?
    requires (pc.ExWait? ==> s.pcs[t].ExQueue?) && (pc.ShWait? ==> s.pcs[t].ShQueue?)
    requires NonNegative(c) && Balanced(c, s.exTokens, s.shTokens, Shift(TallyOf(s.pcs), s.pcs[t], pc))
    ensures Inv(s')
    ensures InRange(c) && s'.word == Pack(c) && Unpack(s'.word) == c
  {
    hide Events, Weight, Shift, Total, Tested, AllTested, Pack, Unpack, Wrap, Balanced, NonNegative, TallyOf, TallyInRange, InRange;
    EventsKept(s, t, pc, s');
    TallyUpdate(s.pcs, t, pc);
    FieldsHold(c, s.exTokens, s.shTokens, TallyOf(s'.pcs));
    Repack(s.word, c);
  }

  lemma EventsKept(s: State, t: Tid, pc: Pc, s': State)
    requires Events(s) && t < |s.pcs| && s'.pcs == s.pcs[t := pc]
    requires s'.exEvent == s.exEvent && s'.shEvent == s.shEvent
    requires !pc.ExQueue? && !pc.ShQueue?
    requires (pc.ExWait? ==> s.pcs[t].ExQueue?) && (pc.ShWait? ==> s.pcs[t].ShQueue?)
    ensures Events(s')
  {
    TotalUpdate(s.pcs, t, pc, WaitsEx);
    TotalUpdate(s.pcs, t, pc, WaitsSh);
    hide Total;
  }

  lemma FieldsHold(c: Counters, ex: int, sh: int, a: Tally)
    requires NonNegative(c) && Balanced(c, ex, sh, a) && TallyInRange(a)
    ensures InRange(c)
  {
  }

  /** What a thread counts as. */
  datatype Part =
    | Bystander | ExOwner | ShOwner | ExWaiter | ShWaiter | ExSignaller | ShSignaller(n: int) | Woken

  function Role(pc: Pc): Part {
    match pc
    case HoldEx => ExOwner
    case RelExRead => ExOwner
    case RelExCas(_) => ExOwner
    case HoldSh => ShOwner
    case RelShRead => ShOwner
    case RelShCas(_) => ShOwner
    case ExWait => ExWaiter
    case ShWait => ShWaiter
    case SignalEx => ExSignaller
    case SignalSh(n) => ShSignaller(n)
    case ExWokenRead => Woken
    case ExWokenCas(_) => Woken
    case _ => Bystander
  }

  function Enter(a: Tally, r: Part, sign: int): Tally {
    match r
    case Bystander => a
    case ExOwner => a.(holdsEx := a.holdsEx + sign)
    case ShOwner => a.(holdsSh := a.holdsSh + sign)
    case ExWaiter => a.(waitsEx := a.waitsEx + sign)
    case ShWaiter => a.(waitsSh := a.waitsSh + sign)
    case ExSignaller => a.(signalsEx := a.signalsEx + sign)
    case ShSignaller(n) => a.(signalsSh := a.signalsSh + sign * n)
    case Woken => a.(wakes := a.wakes + sign)
  }

  function Weighed(a: Tally, pc: Pc, sign: int): Tally {
    Tally(a.holdsEx + sign * Weight(pc, HoldsEx), a.holdsSh + sign * Weight(pc, HoldsSh),
          a.waitsEx + sign * Weight(pc, WaitsEx), a.waitsSh + sign * Weight(pc, WaitsSh),
          a.signalsEx + sign * Weight(pc, SignalsEx), a.signalsSh + sign * Weight(pc, SignalsSh),
          a.wakes + sign * Weight(pc, Wakes))
  }

  lemma EnterIs(a: Tally, pc: Pc, sign: int)
    ensures Enter(a, Role(pc), sign) == Weighed(a, pc, sign)
  {
  }

  lemma ShiftByRole(a: Tally, pc: Pc, pc': Pc)
    ensures Shift(a, pc, pc') == Enter(Enter(a, Role(pc), -1), Role(pc'), 1)
  {
    EnterIs(a, pc, -1);
    EnterIs(Enter(a, Role(pc), -1), pc', 1);
    hide Weight, Enter, Role;
  }

  lemma Known(s: State, t: Tid) returns (c: Counters)
    requires Inv(s) && t < |s.pcs|
    ensures 0 <= s.word < WORD && c == Unpack(s.word) && InRange(c) && Tested(s.pcs[t])
    ensures Balanced(c, s.exTokens, s.shTokens, TallyOf(s.pcs)) && TallyInRange(TallyOf(s.pcs))
    ensures Role(s.pcs[t]) == ExOwner ==> TallyOf(s.pcs).holdsEx >= 1
    ensures Role(s.pcs[t]) == ShOwner ==> TallyOf(s.pcs).holdsSh >= 1
    ensures Role(s.pcs[t]) == Woken ==> TallyOf(s.pcs).wakes >= 1
    ensures Role(s.pcs[t]) == ExSignaller ==> TallyOf(s.pcs).signalsEx >= 1
    ensures Role(s.pcs[t]).ShSignaller? ==> TallyOf(s.pcs).signalsSh >= Role(s.pcs[t]).n >= 0
  {
    c := Unpack(s.word);
    PackUnpack(s.word);
    TallyUpdate(s.pcs, t, s.pcs[t]);
    TotalBounds(s.pcs, HoldsEx);
    TotalBounds(s.pcs, HoldsSh);
    TotalBounds(s.pcs, Wakes);
  }

  // ---------------------------------------------------------------------------------------------
  // Every step keeps the invariant
  // ---------------------------------------------------------------------------------------------

  /** A step that changes neither the word, the tokens, nor what the thread counts as. */
  lemma QuietKeeps(s: State, t: Tid, pc: Pc, s': State)
    requires Inv(s) && t < |s.pcs| && Tested(pc) && s' == At(s, t, pc).(exEvent := s'.exEvent, shEvent := s'.shEvent)
    requires s'.exEvent == (s.exEvent || s.pcs[t].ExEnsure?) && s'.shEvent == (s.shEvent || s.pcs[t].ShEnsure?)
    requires (pc.ExQueue? ==> s.pcs[t].ExEnsure?) && (pc.ShQueue? ==> s.pcs[t].ShEnsure?)
    requires !pc.ExWait? && !pc.ShWait?
    requires Role(s.pcs[t]) == Role(pc)
    ensures Inv(s')
  {
    ShiftByRole(TallyOf(s.pcs), s.pcs[t], pc);
    hide Balanced, Shift, TallyOf, Total, Weight, Unpack;
    PcKeeps(s, t, pc, s');
  }

  // The balance after each successful compare-exchange, on the counters alone.

  ghost predicate MustQueue(c: Counters) {
    && !(c.owned == 0 && c.sharedOwners == 0 && c.waking == 0 && c.exclusiveWaiters == 0)
    && !(c.owned != 0 && c.sharedOwners > 0 && c.waking == 0 && c.exclusiveWaiters == 0)
  }

  lemma BalanceTakeExclusive(c: Counters, ex: int, sh: int, a: Tally)
    requires InRange(c) && TallyInRange(a) && Balanced(c, ex, sh, a) && (c.owned == 0 && c.waking == 0)
    ensures Balanced(c.(owned := 1), ex, sh, a.(holdsEx := a.holdsEx + 1)) && NonNegative(c.(owned := 1))
  {
  }

  lemma TakeExclusive(s: State, t: Tid, v: int, s': State)
    requires Inv(s) && t < |s.pcs| && (s.pcs[t] == ExTake(v) || s.pcs[t] == TryExCas(v)) && s.word == v
    requires s' == At(s, t, HoldEx).(word := Wrap(v + OWNED))
    ensures Inv(s')
  {
    hide Inv, Total, TallyOf, Shift, Balanced, TallyInRange, Wrap, Weight, NonNegative, InRange;
    var c := Known(s, t);
    var a := TallyOf(s.pcs);
    ShiftByRole(a, s.pcs[t], HoldEx);
    BalanceTakeExclusive(c, s.exTokens, s.shTokens, a);
    hide Owned, Waking, SharedOwners, SharedWaiters, ExclusiveWaiters;
    WordKeeps(s, t, HoldEx, c.(owned := 1), s');
  }

  lemma BalanceQueueExclusive(c: Counters, ex: int, sh: int, a: Tally)
    requires InRange(c) && TallyInRange(a) && Balanced(c, ex, sh, a) && (c.owned != 0 || c.waking != 0)
    ensures Balanced(c.(exclusiveWaiters := c.exclusiveWaiters + 1), ex, sh, a.(waitsEx := a.waitsEx + 1)) && NonNegative(c.(exclusiveWaiters := c.exclusiveWaiters + 1))
  {
  }

  lemma QueueExclusive(s: State, t: Tid, v: int, s': State)
    requires Inv(s) && t < |s.pcs| && s.pcs[t] == ExQueue(v) && s.word == v
    requires s' == At(s, t, ExWait).(word := Wrap(v + EXCLUSIVE_WAITERS_INC))
    ensures Inv(s')
  {
    hide Inv, Total, TallyOf, Shift, Balanced, TallyInRange, Wrap, Weight, NonNegative, InRange;
    var c := Known(s, t);
    var a := TallyOf(s.pcs);
    ShiftByRole(a, s.pcs[t], ExWait);
    BalanceQueueExclusive(c, s.exTokens, s.shTokens, a);
    hide Owned, Waking, SharedOwners, SharedWaiters, ExclusiveWaiters;
    WordKeeps(s, t, ExWait, c.(exclusiveWaiters := c.exclusiveWaiters + 1), s');
  }

  lemma BalanceTakeWoken(c: Counters, ex: int, sh: int, a: Tally)
    requires InRange(c) && TallyInRange(a) && Balanced(c, ex, sh, a) && (a.wakes >= 1)
    ensures Balanced(c.(owned := 1, waking := 0), ex, sh, a.(holdsEx := a.holdsEx + 1, wakes := a.wakes - 1)) && NonNegative(c.(owned := 1, waking := 0))
  {
  }

  lemma TakeWoken(s: State, t: Tid, v: int, s': State)
    requires Inv(s) && t < |s.pcs| && s.pcs[t] == ExWokenCas(v) && s.word == v
    requires s' == At(s, t, HoldEx).(word := Wrap(v + OWNED - EXCLUSIVE_WAKING))
    ensures Inv(s')
  {
    hide Inv, Total, TallyOf, Shift, Balanced, TallyInRange, Wrap, Weight, NonNegative, InRange;
    var c := Known(s, t);
    var a := TallyOf(s.pcs);
    ShiftByRole(a, s.pcs[t], HoldEx);
    BalanceTakeWoken(c, s.exTokens, s.shTokens, a);
    hide Owned, Waking, SharedOwners, SharedWaiters, ExclusiveWaiters;
    WordKeeps(s, t, HoldEx, c.(owned := 1, waking := 0), s');
  }

  lemma BalanceTakeShared(c: Counters, ex: int, sh: int, a: Tally)
    requires InRange(c) && TallyInRange(a) && Balanced(c, ex, sh, a) && (c.owned == 0 && c.waking == 0)
    ensures Balanced(c.(owned := 1, sharedOwners := 1), ex, sh, a.(holdsSh := a.holdsSh + 1)) && NonNegative(c.(owned := 1, sharedOwners := 1))
  {
  }

  lemma TakeShared(s: State, t: Tid, v: int, s': State)
    requires Inv(s) && t < |s.pcs| && (s.pcs[t] == ShTake(v) || (s.pcs[t] == TryShCas(v) && Owned(v) == 0)) && s.word == v
    requires s' == At(s, t, HoldSh).(word := Wrap(v + OWNED + SHARED_OWNERS_INC))
    ensures Inv(s')
  {
    hide Inv, Total, TallyOf, Shift, Balanced, TallyInRange, Wrap, Weight, NonNegative, InRange;
    var c := Known(s, t);
    var a := TallyOf(s.pcs);
    ShiftByRole(a, s.pcs[t], HoldSh);
    BalanceTakeShared(c, s.exTokens, s.shTokens, a);
    hide Owned, Waking, SharedOwners, SharedWaiters, ExclusiveWaiters;
    WordKeeps(s, t, HoldSh, c.(owned := 1, sharedOwners := 1), s');
  }

  lemma BalanceJoinShared(c: Counters, ex: int, sh: int, a: Tally)
    requires InRange(c) && TallyInRange(a) && Balanced(c, ex, sh, a) && (c.owned != 0 && c.sharedOwners != 0 && c.waking == 0 && c.exclusiveWaiters == 0)
    ensures Balanced(c.(sharedOwners := c.sharedOwners + 1), ex, sh, a.(holdsSh := a.holdsSh + 1)) && NonNegative(c.(sharedOwners := c.sharedOwners + 1))
  {
  }

  lemma JoinShared(s: State, t: Tid, v: int, s': State)
    requires Inv(s) && t < |s.pcs| && (s.pcs[t] == ShJoin(v) || (s.pcs[t] == TryShCas(v) && Owned(v) != 0)) && s.word == v
    requires s' == At(s, t, HoldSh).(word := Wrap(v + SHARED_OWNERS_INC))
    ensures Inv(s')
  {
    hide Inv, Total, TallyOf, Shift, Balanced, TallyInRange, Wrap, Weight, NonNegative, InRange;
    var c := Known(s, t);
    var a := TallyOf(s.pcs);
    ShiftByRole(a, s.pcs[t], HoldSh);
    BalanceJoinShared(c, s.exTokens, s.shTokens, a);
    hide Owned, Waking, SharedOwners, SharedWaiters, ExclusiveWaiters;
    WordKeeps(s, t, HoldSh, c.(sharedOwners := c.sharedOwners + 1), s');
  }

  lemma BalanceQueueShared(c: Counters, ex: int, sh: int, a: Tally)
    requires InRange(c) && TallyInRange(a) && Balanced(c, ex, sh, a) && (MustQueue(c))
    ensures Balanced(c.(sharedWaiters := c.sharedWaiters + 1), ex, sh, a.(waitsSh := a.waitsSh + 1)) && NonNegative(c.(sharedWaiters := c.sharedWaiters + 1))
  {
  }

  lemma QueueShared(s: State, t: Tid, v: int, s': State)
    requires Inv(s) && t < |s.pcs| && s.pcs[t] == ShQueue(v) && s.word == v
    requires s' == At(s, t, ShWait).(word := Wrap(v + SHARED_WAITERS_INC))
    ensures Inv(s')
  {
    hide Inv, Total, TallyOf, Shift, Balanced, TallyInRange, Wrap, Weight, NonNegative, InRange;
    var c := Known(s, t);
    var a := TallyOf(s.pcs);
    ShiftByRole(a, s.pcs[t], ShWait);
    BalanceQueueShared(c, s.exTokens, s.shTokens, a);
    hide Owned, Waking, SharedOwners, SharedWaiters, ExclusiveWaiters;
    WordKeeps(s, t, ShWait, c.(sharedWaiters := c.sharedWaiters + 1), s');
  }

  lemma BalanceHandOverExclusive(c: Counters, ex: int, sh: int, a: Tally)
    requires InRange(c) && TallyInRange(a) && Balanced(c, ex, sh, a) && (c.exclusiveWaiters != 0 && a.holdsEx >= 1)
    ensures Balanced(c.(owned := 0, waking := 1, exclusiveWaiters := c.exclusiveWaiters - 1), ex, sh, a.(holdsEx := a.holdsEx - 1, signalsEx := a.signalsEx + 1)) && NonNegative(c.(owned := 0, waking := 1, exclusiveWaiters := c.exclusiveWaiters - 1))
  {
  }

  lemma HandOverExclusive(s: State, t: Tid, v: int, s': State)
    requires Inv(s) && t < |s.pcs| && s.pcs[t] == RelExCas(v) && ExclusiveWaiters(v) != 0 && s.word == v
    requires s' == At(s, t, SignalEx).(word := Wrap(v - OWNED + EXCLUSIVE_WAKING - EXCLUSIVE_WAITERS_INC))
    ensures Inv(s')
  {
    hide Inv, Total, TallyOf, Shift, Balanced, TallyInRange, Wrap, Weight, NonNegative, InRange;
    var c := Known(s, t);
    var a := TallyOf(s.pcs);
    ShiftByRole(a, s.pcs[t], SignalEx);
    BalanceHandOverExclusive(c, s.exTokens, s.shTokens, a);
    hide Owned, Waking, SharedOwners, SharedWaiters, ExclusiveWaiters;
    WordKeeps(s, t, SignalEx, c.(owned := 0, waking := 1, exclusiveWaiters := c.exclusiveWaiters - 1), s');
  }

  lemma BalanceLeaveShared(c: Counters, ex: int, sh: int, a: Tally)
    requires InRange(c) && TallyInRange(a) && Balanced(c, ex, sh, a) && (c.sharedOwners > 1)
    ensures Balanced(c.(sharedOwners := c.sharedOwners - 1), ex, sh, a.(holdsSh := a.holdsSh - 1)) && NonNegative(c.(sharedOwners := c.sharedOwners - 1))
  {
  }

  lemma LeaveShared(s: State, t: Tid, v: int, s': State)
    requires Inv(s) && t < |s.pcs| && s.pcs[t] == RelShCas(v) && SharedOwners(v) > 1 && s.word == v
    requires s' == At(s, t, Idle).(word := Wrap(v - SHARED_OWNERS_INC))
    ensures Inv(s')
  {
    hide Inv, Total, TallyOf, Shift, Balanced, TallyInRange, Wrap, Weight, NonNegative, InRange;
    var c := Known(s, t);
    var a := TallyOf(s.pcs);
    ShiftByRole(a, s.pcs[t], Idle);
    BalanceLeaveShared(c, s.exTokens, s.shTokens, a);
    hide Owned, Waking, SharedOwners, SharedWaiters, ExclusiveWaiters;
    WordKeeps(s, t, Idle, c.(sharedOwners := c.sharedOwners - 1), s');
  }

  lemma BalanceHandOverShared(c: Counters, ex: int, sh: int, a: Tally)
    requires InRange(c) && TallyInRange(a) && Balanced(c, ex, sh, a) && (c.sharedOwners <= 1 && c.exclusiveWaiters != 0 && a.holdsSh >= 1)
    ensures Balanced(c.(owned := 0, waking := 1, sharedOwners := 0, exclusiveWaiters := c.exclusiveWaiters - 1), ex, sh, a.(holdsSh := a.holdsSh - 1, signalsEx := a.signalsEx + 1)) && NonNegative(c.(owned := 0, waking := 1, sharedOwners := 0, exclusiveWaiters := c.exclusiveWaiters - 1))
  {
  }

  lemma HandOverShared(s: State, t: Tid, v: int, s': State)
    requires Inv(s) && t < |s.pcs| && s.pcs[t] == RelShCas(v) && SharedOwners(v) <= 1 && ExclusiveWaiters(v) != 0 && s.word == v
    requires s' == At(s, t, SignalEx).(word := Wrap(v - OWNED + EXCLUSIVE_WAKING - SHARED_OWNERS_INC - EXCLUSIVE_WAITERS_INC))
    ensures Inv(s')
  {
    hide Inv, Total, TallyOf, Shift, Balanced, TallyInRange, Wrap, Weight, NonNegative, InRange;
    var c := Known(s, t);
    var a := TallyOf(s.pcs);
    ShiftByRole(a, s.pcs[t], SignalEx);
    BalanceHandOverShared(c, s.exTokens, s.shTokens, a);
    hide Owned, Waking, SharedOwners, SharedWaiters, ExclusiveWaiters;
    WordKeeps(s, t, SignalEx, c.(owned := 0, waking := 1, sharedOwners := 0, exclusiveWaiters := c.exclusiveWaiters - 1), s');
  }

  lemma BalanceLastShared(c: Counters, ex: int, sh: int, a: Tally)
    requires InRange(c) && TallyInRange(a) && Balanced(c, ex, sh, a) && (c.sharedOwners <= 1 && c.exclusiveWaiters == 0 && a.holdsSh >= 1)
    ensures Balanced(c.(owned := 0, sharedOwners := 0), ex, sh, a.(holdsSh := a.holdsSh - 1)) && NonNegative(c.(owned := 0, sharedOwners := 0))
  {
  }

  lemma LastShared(s: State, t: Tid, v: int, s': State)
    requires Inv(s) && t < |s.pcs| && s.pcs[t] == RelShCas(v) && SharedOwners(v) <= 1 && ExclusiveWaiters(v) == 0 && s.word == v
    requires s' == At(s, t, Idle).(word := Wrap(v - OWNED - SHARED_OWNERS_INC))
    ensures Inv(s')
  {
    hide Inv, Total, TallyOf, Shift, Balanced, TallyInRange, Wrap, Weight, NonNegative, InRange;
    var c := Known(s, t);
    var a := TallyOf(s.pcs);
    ShiftByRole(a, s.pcs[t], Idle);
    BalanceLastShared(c, s.exTokens, s.shTokens, a);
    hide Owned, Waking, SharedOwners, SharedWaiters, ExclusiveWaiters;
    WordKeeps(s, t, Idle, c.(owned := 0, sharedOwners := 0), s');
  }

  lemma BalanceFreeExclusive(c: Counters, ex: int, sh: int, a: Tally)
    requires InRange(c) && TallyInRange(a) && Balanced(c, ex, sh, a) && c.exclusiveWaiters == 0 && a.holdsEx >= 1
    ensures Balanced(c.(owned := 0, sharedWaiters := 0), ex, sh,
              a.(holdsEx := a.holdsEx - 1, signalsSh := a.signalsSh + c.sharedWaiters))
    ensures NonNegative(c.(owned := 0, sharedWaiters := 0))
  {
  }

  lemma FreeExclusive(s: State, t: Tid, v: int, s': State)
    requires Inv(s) && t < |s.pcs| && s.pcs[t] == RelExCas(v) && s.word == v && ExclusiveWaiters(v) == 0
    requires s' == At(s, t, if SharedWaiters(v) != 0 then SignalSh(SharedWaiters(v)) else Idle)
                   .(word := ClearOwnedAndSharedWaiters(v))
    ensures Inv(s')
  {
    hide Inv, Total, TallyOf, Shift, Balanced, TallyInRange, Weight, NonNegative;
    var c := Known(s, t);
    var a := TallyOf(s.pcs);
    var pc := s'.pcs[t];
    assert c.sharedWaiters >= 0;
    hide InRange, Wrap;
    ShiftByRole(a, s.pcs[t], pc);
    BalanceFreeExclusive(c, s.exTokens, s.shTokens, a);
    var c' := c.(owned := 0, sharedWaiters := 0);
    ClearedWord(s.word, c');
    hide Owned, Waking, SharedOwners, SharedWaiters, ExclusiveWaiters, ClearOwnedAndSharedWaiters, Pack;
    WordKeeps(s, t, pc, c', s');
  }

  lemma ClearedWord(v: int, c: Counters)
    requires 0 <= v < WORD && c == Unpack(v).(owned := 0, sharedWaiters := 0)
    ensures ClearOwnedAndSharedWaiters(v) == Wrap(v + Pack(c) - Pack(Unpack(v)))
  {
    PackUnpack(v);
    Repack(v, c);
  }

  /** A token is taken or given. */
  lemma BalanceTokens(c: Counters, ex: int, sh: int, a: Tally, n: int)
    requires Balanced(c, ex, sh, a)
    ensures ex > 0 ==> Balanced(c, ex - 1, sh, a.(waitsEx := a.waitsEx - 1, wakes := a.wakes + 1))
    ensures sh > 0 ==> Balanced(c, ex, sh - 1, a.(waitsSh := a.waitsSh - 1))
    ensures Balanced(c, ex + 1, sh, a.(signalsEx := a.signalsEx - 1))
    ensures n >= 0 ==> Balanced(c, ex, sh + n, a.(signalsSh := a.signalsSh - n))
  {
  }

  lemma TokenKeeps(s: State, t: Tid, s': State)
    requires Inv(s) && t < |s.pcs|
    requires s.pcs[t].ExWait? || s.pcs[t].ShWait? || s.pcs[t].SignalEx? || s.pcs[t].SignalSh?
    requires ExclusiveStep(s, t, s') || SharedStep(s, t, s') || ReleaseStep(s, t, s')
    ensures Inv(s')
  {
    hide Inv, TallyOf, Unpack, Shift, Balanced, TallyInRange, InRange, Weight;
    hide Owned, Waking, SharedOwners, SharedWaiters, ExclusiveWaiters, Wrap, ClearOwnedAndSharedWaiters, Cas;
    var c := Known(s, t);
    var a, pc := TallyOf(s.pcs), s'.pcs[t];
    BalanceTokens(c, s.exTokens, s.shTokens, a, if s.pcs[t].SignalSh? then s.pcs[t].n else 0);
    ShiftByRole(a, s.pcs[t], pc);
    PcKeeps(s, t, pc, s');
  }

  lemma CallKeeps(s: State, t: Tid, s': State)
    requires Inv(s) && t < |s.pcs| && CallStep(s, t, s')
    ensures Inv(s')
  {
    hide Inv;
    QuietKeeps(s, t, s'.pcs[t], s');
  }

  lemma ExclusiveKeeps(s: State, t: Tid, s': State)
    requires Inv(s) && t < |s.pcs| && ExclusiveStep(s, t, s')
    ensures Inv(s')
  {
    hide Inv, Owned, Waking, Wrap, Weight;
    match s.pcs[t] {
      case ExTake(v) => if s.word == v { TakeExclusive(s, t, v, s'); } else { QuietKeeps(s, t, ExRead, s'); }
      case TryExCas(v) => if s.word == v { TakeExclusive(s, t, v, s'); } else { QuietKeeps(s, t, Idle, s'); }
      case ExQueue(v) => if s.word == v { QueueExclusive(s, t, v, s'); } else { QuietKeeps(s, t, ExRead, s'); }
      case ExWokenCas(v) => if s.word == v { TakeWoken(s, t, v, s'); } else { QuietKeeps(s, t, ExWokenRead, s'); }
      case ExWait => TokenKeeps(s, t, s');
      case _ => ExclusiveReads(s, t, s');
    }
  }

  lemma ExclusiveReads(s: State, t: Tid, s': State)
    requires Inv(s) && t < |s.pcs| && ExclusiveStep(s, t, s')
    requires s.pcs[t].ExRead? || s.pcs[t].ExEnsure? || s.pcs[t].ExWokenRead? || s.pcs[t].TryExRead?
    ensures Inv(s')
  {
    hide Inv, Balanced, InRange, TallyInRange, TallyOf, Total, Weight, Wrap, Unpack, Owned, Waking;
    match s.pcs[t] {
      case ExRead =>
        if s' != s {
          QuietKeeps(s, t, if Owned(s.word) == 0 && Waking(s.word) == 0 then ExTake(s.word) else ExEnsure(s.word), s');
        }
      case ExEnsure(v) =>
        var c := Known(s, t);
        QuietKeeps(s, t, ExQueue(v), s');
      case ExWokenRead => QuietKeeps(s, t, ExWokenCas(s.word), s');
      case TryExRead =>
        QuietKeeps(s, t, if Owned(s.word) != 0 || Waking(s.word) != 0 then Idle else TryExCas(s.word), s');
    }
  }

  lemma SharedKeeps(s: State, t: Tid, s': State)
    requires Inv(s) && t < |s.pcs| && SharedStep(s, t, s')
    ensures Inv(s')
  {
    hide Inv, Owned, Waking, SharedOwners, SharedWaiters, ExclusiveWaiters, Wrap, Weight;
    match s.pcs[t] {
      case ShTake(v) => if s.word == v { TakeShared(s, t, v, s'); } else { QuietKeeps(s, t, ShRead, s'); }
      case ShJoin(v) => if s.word == v { JoinShared(s, t, v, s'); } else { QuietKeeps(s, t, ShRead, s'); }
      case TryShCas(v) =>
        if s.word != v { QuietKeeps(s, t, Idle, s'); }
        else if Owned(v) == 0 { TakeShared(s, t, v, s'); }
        else { JoinShared(s, t, v, s'); }
      case ShQueue(v) => if s.word == v { QueueShared(s, t, v, s'); } else { QuietKeeps(s, t, ShRead, s'); }
      case ShWait => TokenKeeps(s, t, s');
      case _ => SharedReads(s, t, s');
    }
  }

  lemma SharedReads(s: State, t: Tid, s': State)
    requires Inv(s) && t < |s.pcs| && SharedStep(s, t, s')
    requires s.pcs[t].ShRead? || s.pcs[t].ShEnsure? || s.pcs[t].TryShRead?
    ensures Inv(s')
  {
    hide Inv, Balanced, InRange, TallyInRange, TallyOf, Total, Weight, Wrap, Unpack;
    hide Owned, Waking, SharedOwners, SharedWaiters, ExclusiveWaiters;
    match s.pcs[t] {
      case ShRead =>
        if Owned(s.word) == 0 && SharedOwners(s.word) == 0 && Waking(s.word) == 0 && ExclusiveWaiters(s.word) == 0 {
          QuietKeeps(s, t, ShTake(s.word), s');
        } else if Owned(s.word) != 0 && SharedOwners(s.word) > 0 && Waking(s.word) == 0 && ExclusiveWaiters(s.word) == 0 {
          QuietKeeps(s, t, ShJoin(s.word), s');
        } else if s' != s { QuietKeeps(s, t, ShEnsure(s.word), s'); }
      case ShEnsure(v) =>
        var c := Known(s, t);
        hide MustQueueShared;
        QuietKeeps(s, t, ShQueue(v), s');
      case TryShRead =>
        QuietKeeps(s, t,
          if Waking(s.word) != 0 || ExclusiveWaiters(s.word) != 0 then Idle
          else if Owned(s.word) == 0 || SharedOwners(s.word) != 0 then TryShCas(s.word)
          else Idle, s');
    }
  }

  lemma ReleaseKeeps(s: State, t: Tid, s': State)
    requires Inv(s) && t < |s.pcs| && ReleaseStep(s, t, s')
    ensures Inv(s')
  {
    hide Inv, Owned, Waking, SharedOwners, SharedWaiters, ExclusiveWaiters, Wrap;
    match s.pcs[t] {
      case RelExCas(v) =>
        if s.word != v { QuietKeeps(s, t, RelExRead, s'); }
        else if ExclusiveWaiters(v) != 0 { HandOverExclusive(s, t, v, s'); }
        else { FreeExclusive(s, t, v, s'); }
      case RelShCas(v) =>
        if s.word != v { QuietKeeps(s, t, RelShRead, s'); }
        else if SharedOwners(v) > 1 { LeaveShared(s, t, v, s'); }
        else if ExclusiveWaiters(v) != 0 { HandOverShared(s, t, v, s'); }
        else { LastShared(s, t, v, s'); }
      case RelExRead => QuietKeeps(s, t, RelExCas(s.word), s');
      case RelShRead => QuietKeeps(s, t, RelShCas(s.word), s');
      case SignalEx => TokenKeeps(s, t, s');
      case SignalSh(_) => TokenKeeps(s, t, s');
    }
  }

  lemma {:induction false} RunInv(states: seq<State>)
    requires Run(states)
    ensures Inv(states[|states| - 1])
    decreases |states|
  {
    if |states| == 1 {
      InitInv(states[0]);
    } else {
      var n := |states| - 1;
      var before := states[..n];
      assert Run(before) by {
        forall i | 0 <= i < |before| - 1
          ensures Transition(before[i], before[i + 1])
        {
          assert Transition(states[i], states[i + 1]);
        }
      }
      RunInv(before);
      hide Inv, CallStep, ExclusiveStep, SharedStep, ReleaseStep;
      assert Transition(states[n - 1], states[n - 1 + 1]);
      var t :| Step(states[n - 1], t, states[n]);
      StepKeeps(states[n - 1], t, states[n]);
    }
  }

  lemma StepKeeps(s: State, t: Tid, s': State)
    requires Inv(s) && Step(s, t, s')
    ensures Inv(s')
  {
    hide Inv, CallStep, ExclusiveStep, SharedStep, ReleaseStep;
    if CallStep(s, t, s') { CallKeeps(s, t, s'); }
    else if ExclusiveStep(s, t, s') { ExclusiveKeeps(s, t, s'); }
    else if SharedStep(s, t, s') { SharedKeeps(s, t, s'); }
    else { ReleaseKeeps(s, t, s'); }
  }

  lemma {:induction false} AllIdle(pcs: seq<Pc>, k: Kind)
    requires forall t :: 0 <= t < |pcs| ==> pcs[t] == Idle
    ensures Total(pcs, k) == 0
    decreases pcs
  {
    if pcs != [] { AllIdle(pcs[1..], k); }
  }

  lemma ZeroWord()
    ensures Unpack(0) == Counters(0, 0, 0, 0, 0)
  {
  }

  lemma InitInv(s: State)
    requires Init(s)
    ensures Inv(s)
  {
    forall k ensures Total(s.pcs, k) == 0 { AllIdle(s.pcs, k); }
    ZeroWord();
    assert TallyOf(s.pcs) == Tally(0, 0, 0, 0, 0, 0, 0);
    assert AllTested(s.pcs);
    assert Events(s);
    hide Events, AllTested, Total, TallyOf, Unpack, Pack, Owned, Waking, SharedOwners, SharedWaiters, ExclusiveWaiters;
  }

  lemma ReachableInv(s: State)
    requires Reachable(s)
    ensures Inv(s)
  {
    var states :| Run(states) && states[|states| - 1] == s;
    RunInv(states);
  }

  // ---------------------------------------------------------------------------------------------
  // Main results
  // ---------------------------------------------------------------------------------------------

  ghost predicate Exclusive(pc: Pc) { Weight(pc, HoldsEx) == 1 }

  ghost predicate Shared(pc: Pc) { Weight(pc, HoldsSh) == 1 }

  /** Two threads that hold the lock both hold it shared; the word's owner count is exactly the
      number of shared holders, and the two ownership bits are never both set. */
  lemma MutualExclusion(s: State)
    requires Reachable(s)
    ensures forall t, u :: 0 <= t < u < |s.pcs| && (Exclusive(s.pcs[t]) || Exclusive(s.pcs[u])) ==>
              !(Exclusive(s.pcs[t]) || Shared(s.pcs[t])) || !(Exclusive(s.pcs[u]) || Shared(s.pcs[u]))
    ensures SharedOwners(s.word) == Total(s.pcs, HoldsSh)
    ensures Owned(s.word) == 1 <==> exists t :: 0 <= t < |s.pcs| && (Exclusive(s.pcs[t]) || Shared(s.pcs[t]))
    ensures !(Owned(s.word) == 1 && Waking(s.word) == 1)
  {
    ReachableInv(s);
    TotalBounds(s.pcs, HoldsEx);
    TotalBounds(s.pcs, HoldsSh);
    forall t, u | 0 <= t < u < |s.pcs| && (Exclusive(s.pcs[t]) || Exclusive(s.pcs[u]))
      ensures !(Exclusive(s.pcs[t]) || Shared(s.pcs[t])) || !(Exclusive(s.pcs[u]) || Shared(s.pcs[u]))
    {
      PairTotal(s.pcs, t, u, HoldsEx);
    }
    if Owned(s.word) == 1 {
      var t := SomeThread(s.pcs, if Total(s.pcs, HoldsEx) > 0 then HoldsEx else HoldsSh);
      assert Exclusive(s.pcs[t]) || Shared(s.pcs[t]);
    }
    PackUnpack(s.word);
  }

  lemma {:induction false} PairTotal(pcs: seq<Pc>, t: nat, u: nat, k: Kind)
    requires t < u < |pcs| && AllTested(pcs)
    ensures Weight(pcs[t], k) + Weight(pcs[u], k) <= Total(pcs, k)
    decreases pcs
  {
    TotalBounds(pcs[1..], k);
    if t == 0 {
      assert pcs[u] == pcs[1..][u - 1];
    } else {
      PairTotal(pcs[1..], t - 1, u - 1, k);
      assert Tested(pcs[0]);
    }
  }

  /** Thread t can take a step by itself that is not just another round of spinning. */
  ghost predicate CanMove(s: State, t: Tid) {
    t < |s.pcs| && exists s' :: Step(s, t, s') && s' != s
  }

  /** Somebody who can move keeps the waiting threads going: an owner, a thread that was woken, a
      thread about to release a semaphore, or a waiter whose semaphore has a token. */
  ghost predicate Helps(s: State, t: Tid) {
    && t < |s.pcs|
    && (Exclusive(s.pcs[t]) || Shared(s.pcs[t]) || Weight(s.pcs[t], Wakes) == 1
        || s.pcs[t].SignalEx? || s.pcs[t].SignalSh?
        || (s.pcs[t].ExWait? && s.exTokens > 0) || (s.pcs[t].ShWait? && s.shTokens > 0))
  }

  /** No lost wakeup: while a thread waits, some thread helps, and it can move. */
  lemma NoLostWakeup(s: State, w: Tid) returns (t: Tid)
    requires Reachable(s) && w < |s.pcs| && (s.pcs[w].ExWait? || s.pcs[w].ShWait?)
    ensures Helps(s, t) && CanMove(s, t)
  {
    ReachableInv(s);
    t := Helper(s, w);
    hide Inv, Reachable;
    HelperMoves(s, t);
  }

  lemma Helper(s: State, w: Tid) returns (t: Tid)
    requires Inv(s) && w < |s.pcs| && (s.pcs[w].ExWait? || s.pcs[w].ShWait?)
    ensures Helps(s, t)
  {
    TotalBounds(s.pcs, WaitsEx);
    TotalBounds(s.pcs, WaitsSh);
    TallyUpdate(s.pcs, w, s.pcs[w]);
    PackUnpack(s.word);
    var a := TallyOf(s.pcs);
    var k := if s.exTokens > 0 then WaitsEx else if s.shTokens > 0 then WaitsSh
             else if a.signalsEx > 0 then SignalsEx else if a.signalsSh > 0 then SignalsSh
             else if a.wakes > 0 then Wakes else if a.holdsEx > 0 then HoldsEx else HoldsSh;
    t := SomeThread(s.pcs, k);
  }

  lemma HelperMoves(s: State, t: Tid)
    requires Helps(s, t)
    ensures CanMove(s, t)
  {
    hide Owned, Waking, SharedOwners, SharedWaiters, ExclusiveWaiters, Wrap, ClearOwnedAndSharedWaiters, Cas;
    if s.pcs[t].ExWokenCas? {
      WokenMoves(s, t);
    } else if s.pcs[t].RelExCas? {
      ReleaseExclusiveMoves(s, t);
    } else if s.pcs[t].RelShCas? {
      ReleaseSharedMoves(s, t);
    } else {
      var s' := match s.pcs[t]
        case HoldEx => At(s, t, RelExRead)
        case HoldSh => At(s, t, RelShRead)
        case RelExRead => At(s, t, RelExCas(s.word))
        case RelShRead => At(s, t, RelShCas(s.word))
        case ExWokenRead => At(s, t, ExWokenCas(s.word))
        case ExWait => At(s, t, ExWokenRead).(exTokens := s.exTokens - 1)
        case ShWait => At(s, t, ShRead).(shTokens := s.shTokens - 1)
        case SignalEx => At(s, t, Idle).(exTokens := s.exTokens + 1)
        case SignalSh(n) => At(s, t, Idle).(shTokens := s.shTokens + n)
        case _ => s;
      assert s'.pcs[t] != s.pcs[t];
      assert Step(s, t, s');
    }
  }

  lemma WokenMoves(s: State, t: Tid)
    requires t < |s.pcs| && s.pcs[t].ExWokenCas?
    ensures CanMove(s, t)
  {
    hide Owned, Waking, SharedOwners, SharedWaiters, ExclusiveWaiters, Wrap;
    var v := s.pcs[t].v;
    var s' := Cas(s, t, v, Wrap(v + OWNED - EXCLUSIVE_WAKING), HoldEx, ExWokenRead);
    assert s'.pcs[t] != s.pcs[t] && ExclusiveStep(s, t, s');
    assert Step(s, t, s');
  }

  lemma ReleaseExclusiveMoves(s: State, t: Tid)
    requires t < |s.pcs| && s.pcs[t].RelExCas?
    ensures CanMove(s, t)
  {
    hide Owned, Waking, SharedOwners, SharedWaiters, ExclusiveWaiters, Wrap, ClearOwnedAndSharedWaiters;
    var v := s.pcs[t].v;
    var s' :=
      if ExclusiveWaiters(v) != 0
      then Cas(s, t, v, Wrap(v - OWNED + EXCLUSIVE_WAKING - EXCLUSIVE_WAITERS_INC), SignalEx, RelExRead)
      else Cas(s, t, v, ClearOwnedAndSharedWaiters(v),
               if SharedWaiters(v) != 0 then SignalSh(SharedWaiters(v)) else Idle, RelExRead);
    assert s'.pcs[t] != s.pcs[t] && ReleaseStep(s, t, s');
    assert Step(s, t, s');
  }

  lemma ReleaseSharedMoves(s: State, t: Tid)
    requires t < |s.pcs| && s.pcs[t].RelShCas?
    ensures CanMove(s, t)
  {
    hide Owned, Waking, SharedOwners, SharedWaiters, ExclusiveWaiters, Wrap;
    var v := s.pcs[t].v;
    var s' :=
      if SharedOwners(v) > 1 then Cas(s, t, v, Wrap(v - SHARED_OWNERS_INC), Idle, RelShRead)
      else if ExclusiveWaiters(v) != 0
      then Cas(s, t, v, Wrap(v - OWNED + EXCLUSIVE_WAKING - SHARED_OWNERS_INC - EXCLUSIVE_WAITERS_INC),
               SignalEx, RelShRead)
      else Cas(s, t, v, Wrap(v - OWNED - SHARED_OWNERS_INC), Idle, RelShRead);
    assert s'.pcs[t] != s.pcs[t] && ReleaseStep(s, t, s');
    assert Step(s, t, s');
  }

  /** Every waiting thread is accounted for by the waiter count of the word, a semaphore token, or a
      release still to be made; shared waiters are queued only behind an exclusive owner, waiter or
      wakeup; and a semaphore is created before anybody waits on it or releases it. */
  lemma WaitersBalance(s: State)
    requires Reachable(s)
    ensures Total(s.pcs, WaitsEx) == ExclusiveWaiters(s.word) + s.exTokens + Total(s.pcs, SignalsEx)
    ensures Total(s.pcs, WaitsSh) == SharedWaiters(s.word) + s.shTokens + Total(s.pcs, SignalsSh)
    ensures SharedWaiters(s.word) > 0 ==>
              ExclusiveWaiters(s.word) > 0 || Waking(s.word) == 1 || Total(s.pcs, HoldsEx) == 1
    ensures forall t :: 0 <= t < |s.pcs| ==>
              (s.pcs[t].ExWait? || s.pcs[t].SignalEx? ==> s.exEvent)
              && (s.pcs[t].ShWait? || s.pcs[t].SignalSh? ==> s.shEvent)
  {
    ReachableInv(s);
    PackUnpack(s.word);
    TotalBounds(s.pcs, WaitsEx);
    TotalBounds(s.pcs, WaitsSh);
    TotalBounds(s.pcs, SignalsEx);
    TotalBounds(s.pcs, SignalsSh);
  }
}
