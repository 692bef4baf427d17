/**
 * Callback lists (PH_CALLBACK, phlib/basesup.c), as a transition system over any number of
 * activations of PhRegisterCallbackEx, PhUnregisterCallback and PhInvokeCallback.
 *
 * A callback function that itself registers, unregisters or invokes starts further activations
 * while its own invoker stays at Call, so nested calls are interleavings of this system too.
 *
 * ListLock and BusyCondition follow their contracts: the lock has one exclusive holder or any
 * number of shared ones; PhWaitForCondition enters the waiters while it still holds the lock and
 * takes the lock again after it has been woken; PhPulseAllCondition wakes every waiter.
 */
module Callback {
  import opened Sequences

  type Tid = nat
  type Reg = nat  // the address of a PH_CALLBACK_REGISTRATION

  /** What the users of a registration have done with it so far. */
  datatype Use = Absent | Registering(t: Tid) | Registered | Unregistering(t: Tid)

  datatype Registration = Registration(busy: int, unregistering: bool, use: Use)

  /** Where the walk of the list stands; Head is &Callback->ListHead. */
  datatype Cursor = Head | On(r: Reg)

  datatype Pc =
    | Idle
    // PhRegisterCallbackEx
    | RegAcquire(r: Reg)
    | RegInsert(r: Reg)
    | RegRelease(r: Reg)
    // PhUnregisterCallback
    | UnAcquire(r: Reg)         // first acquisition, or the one at the end of PhWaitForCondition
    | UnTest(r: Reg)
    | UnQueue(r: Reg)           // PhWaitForCondition: push the wait block
    | UnUnlock(r: Reg)          // PhWaitForCondition: release the lock
    | UnBlock(r: Reg)           // PhWaitForCondition: block
    | UnRemove(r: Reg)
    | UnRelease(r: Reg)
    // PhInvokeCallback
    | InvAcquire
    | InvNext(c: Cursor)
    | InvTest(r: Reg)
    | InvIncrement(r: Reg)
    | InvUnlock(r: Reg)
    | InvCall(r: Reg)           // registration->Function is in execution
    | InvRelock(r: Reg)
    | InvDecrement(r: Reg)
    | InvCheck(r: Reg, busy: int)
    | InvPulse(r: Reg)
    | InvRelease

  datatype State = State(list: seq<Reg>, regs: seq<Registration>, waiting: set<Tid>, pcs: seq<Pc>)

  predicate HoldsExclusive(pc: Pc) {
    pc.RegInsert? || pc.RegRelease? || pc.UnTest? || pc.UnQueue? || pc.UnUnlock? || pc.UnRemove? || pc.UnRelease?
  }

  predicate HoldsShared(pc: Pc) {
    pc.InvNext? || pc.InvTest? || pc.InvIncrement? || pc.InvUnlock? || pc.InvDecrement? || pc.InvCheck?
    || pc.InvPulse? || pc.InvRelease?
  }

  ghost predicate CanAcquireExclusive(pcs: seq<Pc>) {
    forall t :: 0 <= t < |pcs| ==> !HoldsExclusive(pcs[t]) && !HoldsShared(pcs[t])
  }

  ghost predicate CanAcquireShared(pcs: seq<Pc>) {
    forall t :: 0 <= t < |pcs| ==> !HoldsExclusive(pcs[t])
  }

  /** The entry after r, or Head at the end of the ring. */
  function Flink(list: seq<Reg>, c: Cursor): Cursor {
    if c.Head? then
      if list == [] then Head else On(list[0])
    else if list == [] then Head
    else if list[0] == c.r then Flink(list[1..], Head)
    else Flink(list[1..], c)
  }

  function At(s: State, t: Tid, pc: Pc): State
    requires t < |s.pcs|
  {
    s.(pcs := s.pcs[t := pc])
  }

  function Set(s: State, r: Reg, g: Registration): State
    requires r < |s.regs|
  {
    s.(regs := s.regs[r := g])
  }

  ghost predicate Init(s: State) {
    && s.list == [] && s.waiting == {}
    && (forall r :: 0 <= r < |s.regs| ==> s.regs[r].use == Absent)
    && (forall r :: 0 <= r < |s.regs| ==> s.regs[r].busy == 0)
    && (forall t :: 0 <= t < |s.pcs| ==> s.pcs[t] == Idle)
  }

  /** A call begins. A registration may be registered when it is not in use, and unregistered once
      after it has been registered. */
  ghost predicate CallStep(s: State, t: Tid, r: Reg, s': State)
    requires t < |s.pcs| && r < |s.regs|
  {
    && s.pcs[t] == Idle
    && (|| s' == At(s, t, InvAcquire)
        || (s.regs[r].use == Absent
            && s' == At(Set(s, r, Registration(0, false, Registering(t))), t, RegAcquire(r)))
        || (s.regs[r].use == Registered
            && s' == At(Set(s, r, s.regs[r].(unregistering := true, use := Unregistering(t))), t, UnAcquire(r))))
  }

  ghost predicate RegisterStep(s: State, t: Tid, r: Reg, s': State)
    requires t < |s.pcs| && r < |s.regs|
  {
    match s.pcs[t]
    case RegAcquire(q) =>
      q == r && CanAcquireExclusive(s.pcs) && s' == At(s, t, RegInsert(r))
    case RegInsert(q) =>
      q == r && s' == At(s, t, RegRelease(r)).(list := s.list + [r])
    case RegRelease(q) =>
      q == r && s' == At(Set(s, r, s.regs[r].(use := Registered)), t, Idle)
    case _ => false
  }

  ghost predicate UnregisterStep(s: State, t: Tid, r: Reg, s': State)
    requires t < |s.pcs| && r < |s.regs|
  {
    match s.pcs[t]
    case UnAcquire(q) =>
      q == r && CanAcquireExclusive(s.pcs) && s' == At(s, t, UnTest(r))
    case UnTest(q) =>
      q == r && s' == At(s, t, if s.regs[r].busy != 0 then UnQueue(r) else UnRemove(r))
    case UnQueue(q) =>
      q == r && s' == At(s, t, UnUnlock(r)).(waiting := s.waiting + {t})
    case UnUnlock(q) =>
      q == r && s' == At(s, t, UnBlock(r))
    case UnBlock(q) =>
      q == r && t !in s.waiting && s' == At(s, t, UnAcquire(r))
    case UnRemove(q) =>
      q == r && s' == At(s, t, UnRelease(r)).(list := Without(s.list, r))
    case UnRelease(q) =>
      q == r && s' == At(Set(s, r, s.regs[r].(use := Absent)), t, Idle)
    case _ => false
  }

  ghost predicate InvokeStep(s: State, t: Tid, r: Reg, s': State)
    requires t < |s.pcs| && r < |s.regs|
  {
    match s.pcs[t]
    case InvTest(q) =>
      q == r && s' == At(s, t, if s.regs[r].unregistering then InvNext(On(r)) else InvIncrement(r))
    case InvIncrement(q) =>
      q == r && s' == At(Set(s, r, s.regs[r].(busy := s.regs[r].busy + 1)), t, InvUnlock(r))
    case InvUnlock(q) =>
      q == r && s' == At(s, t, InvCall(r))
    case InvCall(q) =>
      q == r && s' == At(s, t, InvRelock(r))
    case InvRelock(q) =>
      q == r && CanAcquireShared(s.pcs) && s' == At(s, t, InvDecrement(r))
    case InvDecrement(q) =>
      q == r && s' == At(Set(s, r, s.regs[r].(busy := s.regs[r].busy - 1)), t, InvCheck(r, s.regs[r].busy - 1))
    case InvCheck(q, busy) =>
      q == r && s' == At(s, t, if s.regs[r].unregistering && busy == 0 then InvPulse(r) else InvNext(On(r)))
    case InvPulse(q) =>
      q == r && s' == At(s, t, InvNext(On(r))).(waiting := {})
    case _ => false
  }

  /** The steps of PhInvokeCallback that concern the list as a whole. */
  ghost predicate WalkStep(s: State, t: Tid, s': State)
    requires t < |s.pcs|
  {
    match s.pcs[t]
    case InvAcquire =>
      CanAcquireShared(s.pcs) && s' == At(s, t, InvNext(Head))
    case InvNext(c) =>
      var next := Flink(s.list, c);
      s' == At(s, t, if next == Head then InvRelease else InvTest(next.r))
    case InvRelease =>
      s' == At(s, t, Idle)
    case _ => false
  }

  ghost predicate Step(s: State, t: Tid, r: Reg, s': State) {
    && t < |s.pcs|
    && (WalkStep(s, t, s')
        || (r < |s.regs|
            && (CallStep(s, t, r, s') || RegisterStep(s, t, r, s') || UnregisterStep(s, t, r, s')
                || InvokeStep(s, t, r, s'))))
  }

  ghost predicate Transition(s: State, s': State) {
    exists t, r :: Step(s, t, r, s')
  }

  ghost predicate Run(states: seq<State>) {
    && |states| > 0
    && Init(states[0])
    && forall i :: 0 <= i < |states| - 1 ==> Transition(states[i], states[i + 1])
  }

  ghost predicate Reachable(s: State) {
    exists states :: Run(states) && states[|states| - 1] == s
  }

  /** The walk of the list at pc points to r. */
  predicate RefersTo(pc: Pc, r: Reg) {
    match pc
    case InvNext(c) => c == On(r)
    case InvTest(q) => q == r
    case InvIncrement(q) => q == r
    case InvCheck(q, _) => q == r
    case InvPulse(q) => q == r
    case _ => Pins(pc, r)
  }

  /** The invocation at pc is counted in the Busy field of r. */
  predicate Pins(pc: Pc, r: Reg) {
    pc == InvUnlock(r) || pc == InvCall(r) || pc == InvRelock(r) || pc == InvDecrement(r)
  }
}
