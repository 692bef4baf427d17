/**
 * When PhUnregisterCallback returns, no invocation refers to the registration; a waiting
 * PhUnregisterCallback is always woken.
 */
module CallbackProof {
  import opened Sequences
  import opened Callback

  // ---------------------------------------------------------------------------------------------
  // The list
  // ---------------------------------------------------------------------------------------------

  lemma {:induction false} FlinkInList(list: seq<Reg>, c: Cursor)
    ensures Flink(list, c).On? ==> Flink(list, c).r in list
  {
    if list != [] && c.On? {
      FlinkInList(list[1..], if list[0] == c.r then Head else c);
    }
  }

  // ---------------------------------------------------------------------------------------------
  // The invariant
  // ---------------------------------------------------------------------------------------------

  /** ListLock is held exclusively by one activation, or shared. */
  ghost predicate Exclusion(pcs: seq<Pc>) {
    forall t, u :: 0 <= t < |pcs| && 0 <= u < |pcs| && t != u && HoldsExclusive(pcs[t]) ==>
      !HoldsExclusive(pcs[u]) && !HoldsShared(pcs[u])
  }

  ghost predicate Listed(list: seq<Reg>, n: nat) {
    && Distinct(list)
    && forall r :: r in list ==> r < n
  }

  ghost predicate Uses(regs: seq<Registration>, list: seq<Reg>) {
    forall r :: 0 <= r < |regs| ==>
      && (regs[r].use == Absent ==> r !in list)
      && (regs[r].use == Registered ==> r in list)
  }

  /** A call that registers or unregisters r owns it. */
  ghost predicate Owns(t: Tid, pc: Pc, regs: seq<Registration>, list: seq<Reg>) {
    match pc
    case RegAcquire(r) => r < |regs| && regs[r].use == Registering(t) && r !in list
    case RegInsert(r) => r < |regs| && regs[r].use == Registering(t) && r !in list
    case RegRelease(r) => r < |regs| && regs[r].use == Registering(t) && r in list
    case UnAcquire(r) => Unlinks(t, r, regs, list)
    case UnTest(r) => Unlinks(t, r, regs, list)
    case UnQueue(r) => Unlinks(t, r, regs, list) && regs[r].busy != 0
    case UnUnlock(r) => Unlinks(t, r, regs, list)
    case UnBlock(r) => Unlinks(t, r, regs, list)
    case UnRemove(r) => Unlinks(t, r, regs, list) && regs[r].busy == 0
    case UnRelease(r) => r < |regs| && regs[r].use == Unregistering(t) && r !in list
    case _ => true
  }

  ghost predicate Unlinks(t: Tid, r: Reg, regs: seq<Registration>, list: seq<Reg>) {
    r < |regs| && regs[r].use == Unregistering(t) && regs[r].unregistering && r in list
  }

  ghost predicate Owners(pcs: seq<Pc>, regs: seq<Registration>, list: seq<Reg>) {
    forall t :: 0 <= t < |pcs| ==> Owns(t, pcs[t], regs, list)
  }

  /** Every walk stands on an entry of the list. */
  ghost predicate Cursors(pcs: seq<Pc>, list: seq<Reg>) {
    forall t, r :: 0 <= t < |pcs| && RefersTo(pcs[t], r) ==> r in list
  }

  function Count(pcs: seq<Pc>, r: Reg): nat {
    if pcs == [] then 0 else (if Pins(pcs[0], r) then 1 else 0) + Count(pcs[1..], r)
  }

  /** Busy is the number of invocations between the increment and the decrement. */
  ghost predicate Counts(pcs: seq<Pc>, regs: seq<Registration>) {
    forall r :: 0 <= r < |regs| ==> regs[r].busy == Count(pcs, r)
  }

  /** Somebody will decrement Busy, see that it is zero, or pulse. */
  ghost predicate WillPulse(pc: Pc, r: Reg) {
    Pins(pc, r) || pc == InvCheck(r, 0) || pc.InvPulse?
  }

  ghost predicate Awaited(pcs: seq<Pc>, r: Reg) {
    exists u :: 0 <= u < |pcs| && WillPulse(pcs[u], r)
  }

  ghost predicate Waits(pc: Pc) {
    pc.UnUnlock? || pc.UnBlock?
  }

  ghost predicate Woken(pcs: seq<Pc>, waiting: set<Tid>) {
    forall t :: t in waiting ==> t < |pcs| && Waits(pcs[t]) && Awaited(pcs, pcs[t].r)
  }

  ghost predicate Inv(s: State) {
    && Exclusion(s.pcs)
    && Listed(s.list, |s.regs|)
    && Uses(s.regs, s.list)
    && Owners(s.pcs, s.regs, s.list)
    && Cursors(s.pcs, s.list)
    && Counts(s.pcs, s.regs)
    && Woken(s.pcs, s.waiting)
  }

  // ---------------------------------------------------------------------------------------------
  // Counting invocations
  // ---------------------------------------------------------------------------------------------

  lemma {:induction false} CountUpdate(pcs: seq<Pc>, t: Tid, pc: Pc, r: Reg)
    requires t < |pcs|
    ensures Count(pcs[t := pc], r)
      == Count(pcs, r) - (if Pins(pcs[t], r) then 1 else 0) + (if Pins(pc, r) then 1 else 0)
    decreases pcs
  {
    if t == 0 {
      assert pcs[t := pc][1..] == pcs[1..];
    } else {
      CountUpdate(pcs[1..], t - 1, pc, r);
      assert pcs[t := pc][1..] == pcs[1..][t - 1 := pc];
    }
  }

  lemma {:induction false} CountedPins(pcs: seq<Pc>, r: Reg)
    ensures Count(pcs, r) > 0 <==> exists t :: 0 <= t < |pcs| && Pins(pcs[t], r)
    decreases pcs
  {
    if pcs != [] {
      var rest := pcs[1..];
      CountedPins(rest, r);
      assert forall t :: 0 <= t < |rest| ==> rest[t] == pcs[t + 1];
      assert forall t :: 0 < t < |pcs| ==> pcs[t] == rest[t - 1];
    }
  }

  /** A step that neither starts nor ends an invocation of r leaves its count alone. */
  lemma CountsUpdate(s: State, t: Tid, pc: Pc, regs': seq<Registration>)
    requires Counts(s.pcs, s.regs) && t < |s.pcs| && |regs'| == |s.regs|
    requires forall r :: 0 <= r < |regs'| ==>
      regs'[r].busy == s.regs[r].busy - (if Pins(s.pcs[t], r) then 1 else 0) + (if Pins(pc, r) then 1 else 0)
    ensures Counts(s.pcs[t := pc], regs')
  {
    forall r | 0 <= r < |regs'| ensures regs'[r].busy == Count(s.pcs[t := pc], r) {
      CountUpdate(s.pcs, t, pc, r);
    }
  }

  /** A registration outside the list is not being invoked. */
  lemma UnlistedIsIdle(s: State, r: Reg)
    requires Cursors(s.pcs, s.list) && Counts(s.pcs, s.regs) && r < |s.regs| && r !in s.list
    ensures s.regs[r].busy == 0
    ensures forall t :: 0 <= t < |s.pcs| ==> !Pins(s.pcs[t], r)
  {
    CountedPins(s.pcs, r);
    assert forall t :: 0 <= t < |s.pcs| && Pins(s.pcs[t], r) ==> RefersTo(s.pcs[t], r);
  }

  // ---------------------------------------------------------------------------------------------
  // Every step keeps each part
  // ---------------------------------------------------------------------------------------------

  ghost predicate Moves(s: State, t: Tid, s': State) {
    t < |s.pcs| && |s'.pcs| == |s.pcs| && s'.pcs == s.pcs[t := s'.pcs[t]]
  }

  /** A step of an activation changes the Busy field of a listed registration under the lock only,
      and claims or gives up a registration only for itself. */
  ghost predicate Changes(s: State, t: Tid, r: Reg, s': State)
    requires Moves(s, t, s')
  {
    && |s'.regs| == |s.regs|
    && (forall q :: 0 <= q < |s.regs| && q != r ==> s'.regs[q] == s.regs[q])
    && (r < |s.regs| ==>
          && (s'.regs[r].busy == s.regs[r].busy || HoldsShared(s.pcs[t]) || s.regs[r].use == Absent)
          && (|| (s'.regs[r].use == s.regs[r].use && s'.regs[r].unregistering == s.regs[r].unregistering)
              || s.regs[r].use == Absent || s.regs[r].use == Registered
              || s.pcs[t] == RegRelease(r) || s.pcs[t] == UnRelease(r)))
    && (|| s'.list == s.list
        || (s.pcs[t] == RegInsert(r) && s'.list == s.list + [r])
        || (s.pcs[t] == UnRemove(r) && s'.list == Without(s.list, r)))
  }

  lemma StepChanges(s: State, t: Tid, r: Reg, s': State)
    requires Step(s, t, r, s')
    ensures Moves(s, t, s') && Changes(s, t, r, s')
  {
    hide CanAcquireExclusive, CanAcquireShared, Flink, Without;
  }

  lemma ExclusionKept(s: State, t: Tid, r: Reg, s': State)
    requires Exclusion(s.pcs) && Step(s, t, r, s')
    ensures Exclusion(s'.pcs)
  {
    StepChanges(s, t, r, s');
    LockHandedOver(s, t, r, s');
    hide Step, Changes;
  }

  /** Whoever holds ListLock after a step held it before, or could acquire it. */
  ghost predicate HandedOver(s: State, t: Tid, s': State)
    requires t < |s.pcs|
  {
    && t < |s'.pcs|
    && (HoldsExclusive(s'.pcs[t]) ==> HoldsExclusive(s.pcs[t]) || CanAcquireExclusive(s.pcs))
    && (HoldsShared(s'.pcs[t]) ==> HoldsShared(s.pcs[t]) || CanAcquireShared(s.pcs))
  }

  lemma RegisterHandsOver(s: State, t: Tid, r: Reg, s': State)
    requires t < |s.pcs| && r < |s.regs| && (CallStep(s, t, r, s') || RegisterStep(s, t, r, s'))
    ensures HandedOver(s, t, s')
  {
    hide CanAcquireExclusive, CanAcquireShared;
  }

  lemma UnregisterHandsOver(s: State, t: Tid, r: Reg, s': State)
    requires t < |s.pcs| && r < |s.regs| && UnregisterStep(s, t, r, s')
    ensures HandedOver(s, t, s')
  {
    hide Without, CanAcquireExclusive, CanAcquireShared;
  }

  lemma InvokeHandsOver(s: State, t: Tid, r: Reg, s': State)
    requires t < |s.pcs| && (WalkStep(s, t, s') || (r < |s.regs| && InvokeStep(s, t, r, s')))
    ensures HandedOver(s, t, s')
  {
    hide Flink, CanAcquireExclusive, CanAcquireShared;
  }

  lemma LockHandedOver(s: State, t: Tid, r: Reg, s': State)
    requires Step(s, t, r, s')
    ensures HandedOver(s, t, s')
  {
    hide CallStep, RegisterStep, UnregisterStep, InvokeStep, WalkStep, HandedOver;
    if r < |s.regs| && (CallStep(s, t, r, s') || RegisterStep(s, t, r, s')) {
      RegisterHandsOver(s, t, r, s');
    } else if r < |s.regs| && UnregisterStep(s, t, r, s') {
      UnregisterHandsOver(s, t, r, s');
    } else {
      InvokeHandsOver(s, t, r, s');
    }
  }

  lemma ListedKept(s: State, t: Tid, r: Reg, s': State)
    requires Listed(s.list, |s.regs|) && Owners(s.pcs, s.regs, s.list) && Step(s, t, r, s')
    ensures Listed(s'.list, |s'.regs|)
  {
    StepChanges(s, t, r, s');
    assert Owns(t, s.pcs[t], s.regs, s.list);
    WithoutIs(s.list, r);
    DistinctConcat(s.list, [r]);
    hide Step;
  }

  lemma CallUsesKept(s: State, t: Tid, r: Reg, s': State)
    requires t < |s.pcs| && r < |s.regs|
    requires CallStep(s, t, r, s') || RegisterStep(s, t, r, s') || InvokeStep(s, t, r, s')
    requires Uses(s.regs, s.list) && Owns(t, s.pcs[t], s.regs, s.list)
    ensures Uses(s'.regs, s'.list)
  {
    hide CanAcquireExclusive, CanAcquireShared;
  }

  lemma UnregisterUsesKept(s: State, t: Tid, r: Reg, s': State)
    requires t < |s.pcs| && (WalkStep(s, t, s') || (r < |s.regs| && UnregisterStep(s, t, r, s')))
    requires Listed(s.list, |s.regs|) && Uses(s.regs, s.list) && Owns(t, s.pcs[t], s.regs, s.list)
    ensures Uses(s'.regs, s'.list)
  {
    WithoutIs(s.list, r);
    hide CanAcquireExclusive, CanAcquireShared, Flink, Distinct, Without;
  }

  lemma UsesKept(s: State, t: Tid, r: Reg, s': State)
    requires Listed(s.list, |s.regs|) && Uses(s.regs, s.list) && Owners(s.pcs, s.regs, s.list)
    requires Step(s, t, r, s')
    ensures Uses(s'.regs, s'.list)
  {
    hide CallStep, RegisterStep, UnregisterStep, InvokeStep, WalkStep, Listed, Uses, Owns;
    assert Owns(t, s.pcs[t], s.regs, s.list);
    if WalkStep(s, t, s') || (r < |s.regs| && UnregisterStep(s, t, r, s')) {
      UnregisterUsesKept(s, t, r, s');
    } else {
      CallUsesKept(s, t, r, s');
    }
  }

  lemma UnregisterOwnerKept(s: State, t: Tid, r: Reg, s': State)
    requires t < |s.pcs| && r < |s.regs| && UnregisterStep(s, t, r, s')
    requires Listed(s.list, |s.regs|) && Owns(t, s.pcs[t], s.regs, s.list)
    ensures t < |s'.pcs| && Owns(t, s'.pcs[t], s'.regs, s'.list)
  {
    WithoutIs(s.list, r);
    hide CanAcquireExclusive, Distinct, Without;
  }

  lemma RegisterOwnerKept(s: State, t: Tid, r: Reg, s': State)
    requires t < |s.pcs| && r < |s.regs| && (CallStep(s, t, r, s') || RegisterStep(s, t, r, s'))
    requires Uses(s.regs, s.list) && Owns(t, s.pcs[t], s.regs, s.list)
    ensures t < |s'.pcs| && Owns(t, s'.pcs[t], s'.regs, s'.list)
  {
    hide CanAcquireExclusive;
  }

  lemma InvokeOwnsNothing(s: State, t: Tid, r: Reg, s': State)
    requires t < |s.pcs| && (WalkStep(s, t, s') || (r < |s.regs| && InvokeStep(s, t, r, s')))
    ensures t < |s'.pcs| && Owns(t, s'.pcs[t], s'.regs, s'.list)
  {
    hide CanAcquireExclusive, CanAcquireShared, Flink, Unlinks;
  }

  lemma OwnOwnerKept(s: State, t: Tid, r: Reg, s': State)
    requires Listed(s.list, |s.regs|) && Uses(s.regs, s.list) && Owners(s.pcs, s.regs, s.list)
    requires Step(s, t, r, s')
    ensures t < |s'.pcs| && Owns(t, s'.pcs[t], s'.regs, s'.list)
  {
    hide CallStep, RegisterStep, UnregisterStep, InvokeStep, WalkStep, Listed, Uses, Owns;
    assert Owns(t, s.pcs[t], s.regs, s.list);
    if WalkStep(s, t, s') || (r < |s.regs| && InvokeStep(s, t, r, s')) {
      InvokeOwnsNothing(s, t, r, s');
    } else if UnregisterStep(s, t, r, s') {
      UnregisterOwnerKept(s, t, r, s');
    } else {
      RegisterOwnerKept(s, t, r, s');
    }
  }

  lemma OtherOwnerKept(s: State, t: Tid, r: Reg, s': State, u: Tid)
    requires Moves(s, t, s') && Changes(s, t, r, s')
    requires u < |s.pcs| && u != t && Owns(u, s.pcs[u], s.regs, s.list) && Owns(t, s.pcs[t], s.regs, s.list)
    requires Exclusion(s.pcs) && Listed(s.list, |s.regs|)
    ensures Owns(u, s'.pcs[u], s'.regs, s'.list)
  {
    WithoutIs(s.list, r);
    hide Distinct, Without;
    assert HoldsExclusive(s.pcs[u]) ==> !HoldsShared(s.pcs[t]);
    hide Exclusion, Listed;
  }

  lemma OwnersKept(s: State, t: Tid, r: Reg, s': State)
    requires Inv(s) && Step(s, t, r, s')
    ensures Owners(s'.pcs, s'.regs, s'.list)
  {
    StepChanges(s, t, r, s');
    OwnOwnerKept(s, t, r, s');
    hide Step, Owns, Changes, Exclusion, Listed, Uses, Cursors, Counts, Woken;
    forall u | 0 <= u < |s'.pcs| ensures Owns(u, s'.pcs[u], s'.regs, s'.list) {
      assert Owns(u, s.pcs[u], s.regs, s.list) && Owns(t, s.pcs[t], s.regs, s.list);
      if u != t { OtherOwnerKept(s, t, r, s', u); }
    }
  }

  /** The walk moves to a listed entry, or stays. */
  lemma CursorMoves(s: State, t: Tid, r: Reg, s': State, q: Reg)
    requires Step(s, t, r, s') && t < |s'.pcs| && RefersTo(s'.pcs[t], q)
    ensures RefersTo(s.pcs[t], q) || (s.pcs[t].InvNext? && q in s.list)
    ensures s'.list == s.list
  {
    if s.pcs[t].InvNext? {
      FlinkInList(s.list, s.pcs[t].c);
    }
    hide CanAcquireExclusive, CanAcquireShared, Flink, Without;
  }

  lemma CursorsKept(s: State, t: Tid, r: Reg, s': State)
    requires Inv(s) && Step(s, t, r, s')
    ensures Cursors(s'.pcs, s'.list)
  {
    StepChanges(s, t, r, s');
    assert Owns(t, s.pcs[t], s.regs, s.list);
    hide Step, Owners, Uses, Woken;
    forall u, q | 0 <= u < |s'.pcs| && RefersTo(s'.pcs[u], q) ensures q in s'.list {
      if u == t {
        CursorMoves(s, t, r, s', q);
      } else {
        assert RefersTo(s.pcs[u], q);
        if s.pcs[t] == UnRemove(r) {
          NobodyStands(s, t, r, u);
        }
        WithoutIs(s.list, r);
      }
    }
  }

  /** While the lock is held exclusively, a walk can only stand where it is counted. */
  lemma NobodyStands(s: State, t: Tid, r: Reg, u: Tid)
    requires Exclusion(s.pcs) && Counts(s.pcs, s.regs) && t < |s.pcs| && u < |s.pcs|
    requires HoldsExclusive(s.pcs[t]) && t != u && r < |s.regs| && s.regs[r].busy == 0
    ensures !RefersTo(s.pcs[u], r)
  {
    CountedPins(s.pcs, r);
    assert !HoldsShared(s.pcs[u]);
  }

  lemma CountsKept(s: State, t: Tid, r: Reg, s': State)
    requires Inv(s) && Step(s, t, r, s')
    ensures Counts(s'.pcs, s'.regs)
  {
    StepChanges(s, t, r, s');
    BusyFollows(s, t, r, s');
    hide Step, Inv, Counts, Changes;
    CountsUpdate(s, t, s'.pcs[t], s'.regs);
  }

  ghost predicate Follows(s: State, t: Tid, s': State)
    requires Moves(s, t, s')
  {
    && |s'.regs| == |s.regs|
    && forall q :: 0 <= q < |s.regs| ==>
      s'.regs[q].busy == s.regs[q].busy - (if Pins(s.pcs[t], q) then 1 else 0) + (if Pins(s'.pcs[t], q) then 1 else 0)
  }

  lemma UninvolvedFollows(s: State, t: Tid, r: Reg, s': State)
    requires t < |s.pcs|
    requires WalkStep(s, t, s') || (r < |s.regs| && (RegisterStep(s, t, r, s') || UnregisterStep(s, t, r, s')))
    ensures Moves(s, t, s') && Follows(s, t, s')
  {
    hide CanAcquireExclusive, CanAcquireShared, Flink, Without;
  }

  lemma InvokeFollows(s: State, t: Tid, r: Reg, s': State)
    requires t < |s.pcs| && r < |s.regs|
    requires InvokeStep(s, t, r, s') || (CallStep(s, t, r, s') && (s.regs[r].use == Absent ==> s.regs[r].busy == 0))
    ensures Moves(s, t, s') && Follows(s, t, s')
  {
    hide CanAcquireShared;
  }

  lemma BusyFollows(s: State, t: Tid, r: Reg, s': State)
    requires Inv(s) && Step(s, t, r, s')
    ensures Counts(s.pcs, s.regs) && Moves(s, t, s') && Follows(s, t, s')
  {
    hide CallStep, RegisterStep, UnregisterStep, InvokeStep, WalkStep, Follows, Counts;
    if r < |s.regs| && (InvokeStep(s, t, r, s') || CallStep(s, t, r, s')) {
      if s.regs[r].use == Absent {
        UnlistedIsIdle(s, r);
      }
      InvokeFollows(s, t, r, s');
    } else {
      UninvolvedFollows(s, t, r, s');
    }
  }

  /** Whoever had to wake the waiters still has to, or its registration is still busy. */
  lemma DutyMoves(s: State, t: Tid, r: Reg, s': State, q: Reg)
    requires Step(s, t, r, s') && Moves(s, t, s') && |s'.regs| == |s.regs|
    requires s'.waiting != {} && q < |s.regs| && s.regs[q].unregistering && WillPulse(s.pcs[t], q)
    ensures WillPulse(s'.pcs[t], q) || s'.regs[q].busy != 0
  {
    assert InvokeStep(s, t, r, s') by {
      hide CanAcquireExclusive, CanAcquireShared, Flink, Without;
    }
    hide Step, CanAcquireShared;
  }

  /** The end of an invocation hands the duty to wake the waiters on. */
  lemma DutyKept(s: State, t: Tid, r: Reg, s': State, q: Reg)
    requires Step(s, t, r, s') && Moves(s, t, s') && |s'.regs| == |s.regs| && Counts(s'.pcs, s'.regs)
    requires s'.waiting != {} && q < |s.regs| && s.regs[q].unregistering
    requires Awaited(s.pcs, q)
    ensures Awaited(s'.pcs, q)
  {
    hide Step;
    var u :| 0 <= u < |s.pcs| && WillPulse(s.pcs[u], q);
    CountedPins(s'.pcs, q);
    if u != t {
      assert WillPulse(s'.pcs[u], q);
    } else {
      DutyMoves(s, t, r, s', q);
      if !WillPulse(s'.pcs[t], q) {
        var w :| 0 <= w < |s'.pcs| && Pins(s'.pcs[w], q);
        assert WillPulse(s'.pcs[w], q);
      }
    }
  }

  lemma WaitersMove(s: State, t: Tid, r: Reg, s': State, u: Tid)
    requires Step(s, t, r, s') && Moves(s, t, s') && u in s'.waiting && u < |s.pcs|
    requires u in s.waiting ==> Waits(s.pcs[u])
    ensures Waits(s'.pcs[u])
    ensures if u in s.waiting then s'.pcs[u].r == s.pcs[u].r else u == t && s.pcs[t] == UnQueue(s'.pcs[u].r)
  {
    hide CanAcquireExclusive, CanAcquireShared, Flink, Without;
  }

  lemma WaitersExist(s: State, t: Tid, r: Reg, s': State)
    requires Step(s, t, r, s')
    ensures s'.waiting <= s.waiting + {t}
  {
    hide CanAcquireExclusive, CanAcquireShared, Flink, Without;
  }

  lemma BusyIsAwaited(s: State, q: Reg)
    requires Counts(s.pcs, s.regs) && q < |s.regs| && s.regs[q].busy != 0
    ensures Awaited(s.pcs, q)
  {
    CountedPins(s.pcs, q);
    var w :| 0 <= w < |s.pcs| && Pins(s.pcs[w], q);
    assert WillPulse(s.pcs[w], q);
  }

  lemma WokenKept(s: State, t: Tid, r: Reg, s': State)
    requires Inv(s) && Step(s, t, r, s')
    ensures Woken(s'.pcs, s'.waiting)
  {
    hide Step, Cursors, Exclusion, Listed, Uses, Counts;
    StepChanges(s, t, r, s');
    CountsKept(s, t, r, s');
    WaitersExist(s, t, r, s');
    hide Changes;
    forall u | u in s'.waiting ensures u < |s'.pcs| && Waits(s'.pcs[u]) && Awaited(s'.pcs, s'.pcs[u].r) {
      WaitersMove(s, t, r, s', u);
      var q := s'.pcs[u].r;
      assert Owns(u, s.pcs[u], s.regs, s.list);
      if u !in s.waiting {
        BusyIsAwaited(s, q);
      }
      DutyKept(s, t, r, s', q);
    }
  }

  lemma StepKeeps(s: State, t: Tid, r: Reg, s': State)
    requires Inv(s) && Step(s, t, r, s')
    ensures Inv(s')
  {
    hide Exclusion, Listed, Uses, Owners, Cursors, Counts, Woken, Step;
    ExclusionKept(s, t, r, s');
    ListedKept(s, t, r, s');
    UsesKept(s, t, r, s');
    OwnersKept(s, t, r, s');
    CursorsKept(s, t, r, s');
    CountsKept(s, t, r, s');
    WokenKept(s, t, r, s');
  }

  lemma InitInv(s: State)
    requires Init(s)
    ensures Inv(s)
  {
    forall r | 0 <= r < |s.regs| ensures s.regs[r].busy == Count(s.pcs, r) {
      CountedPins(s.pcs, r);
    }
  }

  lemma {:induction false} RunInv(states: seq<State>, i: nat)
    requires Run(states) && i < |states|
    ensures Inv(states[i])
  {
    if i == 0 {
      InitInv(states[0]);
    } else {
      RunInv(states, i - 1);
      assert Transition(states[i - 1], states[i - 1 + 1]);
      var t, r :| Step(states[i - 1], t, r, states[i]);
      StepKeeps(states[i - 1], t, r, states[i]);
    }
  }

  lemma ReachableInv(s: State)
    requires Reachable(s)
    ensures Inv(s)
  {
    var states :| Run(states) && states[|states| - 1] == s;
    RunInv(states, |states| - 1);
  }

  // ---------------------------------------------------------------------------------------------
  // Main results
  // ---------------------------------------------------------------------------------------------

  ghost predicate Executing(s: State, t: Tid, r: Reg) {
    t < |s.pcs| && s.pcs[t] == InvCall(r)
  }

  /** The call that unregisters r has taken it off the list, or has returned. */
  ghost predicate Unregistered(s: State, r: Reg) {
    && r < |s.regs|
    && (s.regs[r].use == Absent || exists t :: 0 <= t < |s.pcs| && s.pcs[t] == UnRelease(r))
  }

  /** Once a registration has been unregistered, and until it is registered again, its function is
      not in execution and no invocation's position in the list refers to it. */
  lemma UnregisteredIsQuiet(s: State, r: Reg)
    requires Reachable(s) && Unregistered(s, r)
    ensures s.regs[r].busy == 0 && r !in s.list
    ensures forall t :: 0 <= t < |s.pcs| ==> !RefersTo(s.pcs[t], r) && !Executing(s, t, r)
  {
    ReachableInv(s);
    if t :| 0 <= t < |s.pcs| && s.pcs[t] == UnRelease(r) {
      assert Owns(t, s.pcs[t], s.regs, s.list);
    }
    assert r !in s.list;
    UnlistedIsIdle(s, r);
    forall t | 0 <= t < |s.pcs| ensures !RefersTo(s.pcs[t], r) {
      assert RefersTo(s.pcs[t], r) ==> r in s.list;
    }
    assert RefersTo(InvCall(r), r);
  }

  /** While one activation is inside the function of r, a call that unregisters r has not returned:
      calling PhUnregisterCallback from the function itself waits for ever. */
  lemma UnregisterWaitsForFunction(s: State, t: Tid, r: Reg)
    requires Reachable(s) && Executing(s, t, r)
    ensures r < |s.regs| && !Unregistered(s, r)
    ensures forall u, s' :: 0 <= u < |s.pcs| && s.pcs[u] == UnTest(r) && Step(s, u, r, s') ==> s'.pcs[u] == UnQueue(r)
  {
    ReachableInv(s);
    assert RefersTo(s.pcs[t], r) && r in s.list && r < |s.regs|;
    if Unregistered(s, r) {
      UnregisteredIsQuiet(s, r);
    }
    assert Pins(s.pcs[t], r);
    CountedPins(s.pcs, r);
    hide Inv, Unregistered, Count, WalkStep, CallStep, RegisterStep, InvokeStep;
    forall u, s' | 0 <= u < |s.pcs| && s.pcs[u] == UnTest(r) && Step(s, u, r, s')
      ensures s'.pcs[u] == UnQueue(r)
    {
      OnlyUnregisters(s, u, r, s');
    }
  }

  lemma OnlyUnregisters(s: State, u: Tid, r: Reg, s': State)
    requires u < |s.pcs| && s.pcs[u] == UnTest(r) && Step(s, u, r, s')
    ensures r < |s.regs| && UnregisterStep(s, u, r, s')
  {
  }

  /** A blocked PhUnregisterCallback that has not been woken will be: some invocation of the
      registration is still counted, or has counted itself out and is about to pulse. */
  lemma NoLostPulse(s: State, t: Tid, r: Reg)
    requires Reachable(s) && t < |s.pcs| && s.pcs[t] == UnBlock(r) && t in s.waiting
    ensures exists u :: 0 <= u < |s.pcs| && u != t && WillPulse(s.pcs[u], r)
    ensures r < |s.regs| && s.regs[r].unregistering
  {
    ReachableInv(s);
    assert Owns(t, s.pcs[t], s.regs, s.list);
    assert Awaited(s.pcs, s.pcs[t].r);
  }

  /** An activation that holds the lock is never blocked. */
  lemma HolderCanStep(s: State, t: Tid) returns (r: Reg, s': State)
    requires Inv(s) && t < |s.pcs| && (HoldsExclusive(s.pcs[t]) || HoldsShared(s.pcs[t]))
    ensures Step(s, t, r, s')
  {
    assert Owns(t, s.pcs[t], s.regs, s.list);
    r := 0;
    match s.pcs[t]
    case RegInsert(q) => r := q; s' := At(s, t, RegRelease(r)).(list := s.list + [r]);
    case RegRelease(q) => r := q; s' := At(Set(s, r, s.regs[r].(use := Registered)), t, Idle);
    case UnTest(q) => r := q; s' := At(s, t, if s.regs[r].busy != 0 then UnQueue(r) else UnRemove(r));
    case UnQueue(q) => r := q; s' := At(s, t, UnUnlock(r)).(waiting := s.waiting + {t});
    case UnUnlock(q) => r := q; s' := At(s, t, UnBlock(r));
    case UnRemove(q) => r := q; s' := At(s, t, UnRelease(r)).(list := Without(s.list, r));
    case UnRelease(q) => r := q; s' := At(Set(s, r, s.regs[r].(use := Absent)), t, Idle);
    case InvNext(c) =>
      var next := Flink(s.list, c);
      s' := At(s, t, if next == Head then InvRelease else InvTest(next.r));
    case InvRelease => s' := At(s, t, Idle);
    case _ => r, s' := WalkerCanStep(s, t);
  }

  lemma WalkerCanStep(s: State, t: Tid) returns (r: Reg, s': State)
    requires Inv(s) && t < |s.pcs| && HoldsShared(s.pcs[t]) && !s.pcs[t].InvNext? && !s.pcs[t].InvRelease?
    ensures Step(s, t, r, s')
  {
    r := s.pcs[t].r;
    assert RefersTo(s.pcs[t], r);
    assert r in s.list && r < |s.regs|;
    hide Exclusion, Uses, Owners, Counts, Woken;
    match s.pcs[t]
    case InvTest(_) => s' := At(s, t, if s.regs[r].unregistering then InvNext(On(r)) else InvIncrement(r));
    case InvIncrement(_) => s' := At(Set(s, r, s.regs[r].(busy := s.regs[r].busy + 1)), t, InvUnlock(r));
    case InvUnlock(_) => s' := At(s, t, InvCall(r));
    case InvDecrement(_) =>
      s' := At(Set(s, r, s.regs[r].(busy := s.regs[r].busy - 1)), t, InvCheck(r, s.regs[r].busy - 1));
    case InvCheck(_, busy) =>
      s' := At(s, t, if s.regs[r].unregistering && busy == 0 then InvPulse(r) else InvNext(On(r)));
    case InvPulse(_) => s' := At(s, t, InvNext(On(r))).(waiting := {});
  }

  ghost predicate CanMove(s: State, t: Tid) {
    t < |s.pcs| && s.pcs[t] != Idle && exists r, s' :: Step(s, t, r, s')
  }

  /** Nothing but the lock, or a function in execution, holds anybody up. */
  lemma OffLockCanStep(s: State, t: Tid) returns (r: Reg, s': State)
    requires Inv(s) && t < |s.pcs| && CanAcquireExclusive(s.pcs) && CanAcquireShared(s.pcs)
    requires s.pcs[t] != Idle && !(s.pcs[t].UnBlock? && t in s.waiting)
    ensures Step(s, t, r, s')
  {
    assert Owns(t, s.pcs[t], s.regs, s.list);
    r := 0;
    match s.pcs[t]
    case RegAcquire(q) => r := q; s' := At(s, t, RegInsert(r));
    case UnAcquire(q) => r := q; s' := At(s, t, UnTest(r));
    case UnBlock(q) => r := q; s' := At(s, t, UnAcquire(r));
    case InvAcquire => s' := At(s, t, InvNext(Head));
    case InvCall(q) =>
      assert RefersTo(s.pcs[t], q) && q in s.list && q < |s.regs|;
      r := q;
      s' := At(s, t, InvRelock(r));
    case InvRelock(q) =>
      assert RefersTo(s.pcs[t], q) && q in s.list && q < |s.regs|;
      r := q;
      s' := At(s, t, InvDecrement(r));
  }

  lemma WakerOf(s: State, t: Tid) returns (u: Tid)
    requires Reachable(s) && t < |s.pcs| && s.pcs[t].UnBlock? && t in s.waiting
    ensures u < |s.pcs| && WillPulse(s.pcs[u], s.pcs[t].r)
  {
    NoLostPulse(s, t, s.pcs[t].r);
    u :| 0 <= u < |s.pcs| && u != t && WillPulse(s.pcs[u], s.pcs[t].r);
  }

  /** The protocol itself never deadlocks: if any activation is under way, some activation can take
      a step, provided that functions in execution return. */
  lemma SomebodyCanMove(s: State, t: Tid)
    requires Reachable(s) && t < |s.pcs| && s.pcs[t] != Idle
    ensures exists u :: CanMove(s, u)
  {
    ReachableInv(s);
    hide Inv, Step;
    if u :| 0 <= u < |s.pcs| && (HoldsExclusive(s.pcs[u]) || HoldsShared(s.pcs[u])) {
      var r, s' := HolderCanStep(s, u);
      assert CanMove(s, u);
    } else {
      var u := t;
      if s.pcs[t].UnBlock? && t in s.waiting {
        u := WakerOf(s, t);
      }
      var r, s' := OffLockCanStep(s, u);
      assert CanMove(s, u);
    }
  }
}
