/** Which functions an invocation of a callback list calls, and in which order. */
module CallbackOrder {
  import opened Sequences
  import opened Callback
  import opened CallbackProof

  // ---------------------------------------------------------------------------------------------
  // Runs of one activation
  // ---------------------------------------------------------------------------------------------

  ghost predicate Fragment(states: seq<State>) {
    && |states| > 0 && Reachable(states[0])
    && forall i :: 0 <= i < |states| - 1 ==> Transition(states[i], states[i + 1])
  }

  ghost predicate Walking(pc: Pc) {
    pc.InvAcquire? || pc.InvNext? || pc.InvTest? || pc.InvIncrement? || pc.InvUnlock? || pc.InvCall? || pc.InvRelock?
    || pc.InvDecrement? || pc.InvCheck? || pc.InvPulse? || pc.InvRelease?
  }

  /** From the beginning of a call of PhInvokeCallback by t, which has not returned yet. */
  ghost predicate Begun(states: seq<State>, t: Tid) {
    && Fragment(states) && t < |states[0].pcs| && states[0].pcs[t].InvAcquire?
    && forall i :: 0 <= i < |states| ==> |states[i].pcs| == |states[0].pcs| && !states[i].pcs[t].Idle?
  }

  /** From the beginning to the return. */
  ghost predicate Returned(states: seq<State>, t: Tid) {
    && |states| > 1 && Begun(states[..|states| - 1], t) && Fragment(states)
    && |Last(states).pcs| > t && Last(states).pcs[t].Idle?
  }

  function Last<T>(s: seq<T>): T
    requires s != []
  {
    s[|s| - 1]
  }

  /** The registrations whose functions t has called, in order. */
  ghost function Calls(states: seq<State>, t: Tid): seq<Reg>
    requires forall i :: 0 <= i < |states| ==> t < |states[i].pcs|
  {
    if |states| < 2 then []
    else
      var before, after := states[|states| - 2].pcs[t], states[|states| - 1].pcs[t];
      Calls(states[..|states| - 1], t) + (if after.InvCall? && after != before then [after.r] else [])
  }

  /** The registrations that t has found not to be unregistering, in order. */
  ghost function Cleared(states: seq<State>, t: Tid): seq<Reg>
    requires forall i :: 0 <= i < |states| ==> t < |states[i].pcs|
  {
    if |states| < 2 then []
    else
      Cleared(states[..|states| - 1], t) + NewlyCleared(states[|states| - 2], states[|states| - 1].pcs[t], t)
  }

  function NewlyCleared(s: State, after: Pc, t: Tid): seq<Reg>
    requires t < |s.pcs|
  {
    var pc := s.pcs[t];
    if pc.InvTest? && after != pc && pc.r < |s.regs| && !s.regs[pc.r].unregistering then [pc.r] else []
  }

  /** The registrations in keep stay on the list and are not being unregistered. */
  ghost predicate Steady(states: seq<State>, keep: set<Reg>) {
    forall i, r :: 0 <= i < |states| && r in keep ==>
      r in states[i].list && r < |states[i].regs| && !states[i].regs[r].unregistering
  }

  // ---------------------------------------------------------------------------------------------
  // The part of the list behind the walk
  // ---------------------------------------------------------------------------------------------

  function Before(list: seq<Reg>, r: Reg): seq<Reg> {
    if list == [] || list[0] == r then [] else [list[0]] + Before(list[1..], r)
  }

  function Upto(list: seq<Reg>, r: Reg): seq<Reg> {
    Before(list, r) + [r]
  }

  /** What is behind the walk at pc: the registrations whose turn has come. */
  ghost function Passed(list: seq<Reg>, pc: Pc): seq<Reg>
    requires Walking(pc)
  {
    match pc
    case InvAcquire => []
    case InvNext(c) => Behind(list, c)
    case InvTest(r) => Before(list, r)
    case InvIncrement(r) => Before(list, r)
    case InvUnlock(r) => Before(list, r)
    case InvCall(r) => Upto(list, r)
    case InvRelock(r) => Upto(list, r)
    case InvDecrement(r) => Upto(list, r)
    case InvCheck(r, _) => Upto(list, r)
    case InvPulse(r) => Upto(list, r)
    case InvRelease => list
  }

  /** The members of keep in s. */
  function Only(s: seq<Reg>, keep: set<Reg>): seq<Reg> {
    if s == [] then [] else (if s[0] in keep then [s[0]] else []) + Only(s[1..], keep)
  }

  lemma {:induction false} OnlyConcat(a: seq<Reg>, b: seq<Reg>, keep: set<Reg>)
    ensures Only(a + b, keep) == Only(a, keep) + Only(b, keep)
    decreases a
  {
    if a == [] {
      assert a + b == b;
    } else {
      OnlyConcat(a[1..], b, keep);
      assert (a + b)[1..] == a[1..] + b && (a + b)[0] == a[0];
      Associate(if a[0] in keep then [a[0]] else [], Only(a[1..], keep), Only(b, keep));
    }
  }

  lemma {:induction false} OnlyCount(s: seq<Reg>, keep: set<Reg>, r: Reg)
    requires r in keep
    ensures multiset(Only(s, keep))[r] == multiset(s)[r]
    decreases s
  {
    if s != [] {
      OnlyCount(s[1..], keep, r);
      assert s == [s[0]] + s[1..];
    }
  }

  lemma {:induction false} DistinctCount(s: seq<Reg>, r: Reg)
    requires Distinct(s) && r in s
    ensures multiset(s)[r] == 1
    decreases s
  {
    assert s == [s[0]] + s[1..];
    if s[0] != r {
      DistinctCount(s[1..], r);
    } else {
      assert r !in s[1..];
    }
  }

  lemma {:induction false} BeforeAppended(list: seq<Reg>, q: Reg, r: Reg)
    requires r in list
    ensures Before(list + [q], r) == Before(list, r)
    decreases list
  {
    if list[0] != r {
      assert (list + [q])[1..] == list[1..] + [q];
      BeforeAppended(list[1..], q, r);
    }
  }

  lemma {:induction false} BeforeRemoved(list: seq<Reg>, q: Reg, r: Reg, keep: set<Reg>)
    requires r in list && q != r && q !in keep && Distinct(list)
    ensures Only(Before(Without(list, q), r), keep) == Only(Before(list, r), keep)
    decreases list
  {
    if list[0] == q {
      assert Before(list, r) == [q] + Before(list[1..], r);
      assert ([q] + Before(list[1..], r))[1..] == Before(list[1..], r);
    } else if list[0] != r {
      BeforeRemoved(list[1..], q, r, keep);
      var w := [list[0]] + Without(list[1..], q);
      assert w[1..] == Without(list[1..], q);
      OnlyConcat([list[0]], Before(list[1..], r), keep);
      OnlyConcat([list[0]], Before(w[1..], r), keep);
    }
  }

  function Behind(list: seq<Reg>, c: Cursor): seq<Reg> {
    if c.Head? then [] else Upto(list, c.r)
  }

  /** The next entry of the list is the first that is not behind. */
  lemma {:induction false} NextIsFirst(list: seq<Reg>, c: Cursor)
    requires Distinct(list) && (c.On? ==> c.r in list)
    ensures Flink(list, c).Head? ==> Behind(list, c) == list
    ensures Flink(list, c).On? ==> Behind(list, c) == Before(list, Flink(list, c).r)
    decreases list
  {
    if list != [] && c.On? {
      var rest := list[1..];
      assert list == [list[0]] + rest;
      if list[0] == c.r {
        if rest != [] {
          assert rest[0] in rest && Before(rest, rest[0]) == [];
          assert Before(list, rest[0]) == [list[0]] + Before(rest, rest[0]);
        }
        assert Upto(list, c.r) == [c.r];
      } else {
        NextIsFirst(rest, c);
        FlinkInList(rest, c);
        assert Upto(list, c.r) == [list[0]] + Upto(rest, c.r);
        assert Flink(list, c) == Flink(rest, c);
        if Flink(rest, c).On? {
          assert Before(list, Flink(rest, c).r) == [list[0]] + Before(rest, Flink(rest, c).r);
        }
      }
    }
  }

  // ---------------------------------------------------------------------------------------------
  // What a step does to the part behind the walk
  // ---------------------------------------------------------------------------------------------

  /** A step of another activation. */
  lemma OtherStep(s: State, u: Tid, r: Reg, s': State, t: Tid, keep: set<Reg>)
    requires Inv(s) && Step(s, u, r, s') && u != t && t < |s.pcs| && Walking(s.pcs[t])
    requires forall q :: q in keep ==> q in s'.list
    ensures |s'.pcs| == |s.pcs| && s'.pcs[t] == s.pcs[t]
    ensures Only(Passed(s'.list, s.pcs[t]), keep) == Only(Passed(s.list, s.pcs[t]), keep)
  {
    StepChanges(s, u, r, s');
    CursorListed(s, t);
    WithoutIs(s.list, r);
    ListAndLock(s, u, r, s', t);
    var pc := s.pcs[t];
    hide Step, Inv, Changes, Distinct, Without;
    if s'.list != s.list {
      var q := Cursor(pc);
      if q.On? && s'.list == s.list + [r] {
        BeforeAppended(s.list, r, q.r);
      } else if q.On? {
        BeforeRemoved(s.list, r, q.r, keep);
        OnlyConcat(Before(s.list, q.r), [q.r], keep);
        OnlyConcat(Before(s'.list, q.r), [q.r], keep);
      }
    }
  }

  /** The entry a walk stands on. */
  function Cursor(pc: Pc): Cursor {
    match pc
    case InvNext(c) => c
    case InvTest(r) => On(r)
    case InvIncrement(r) => On(r)
    case InvUnlock(r) => On(r)
    case InvCall(r) => On(r)
    case InvRelock(r) => On(r)
    case InvDecrement(r) => On(r)
    case InvCheck(r, _) => On(r)
    case InvPulse(r) => On(r)
    case _ => Head
  }

  lemma CursorListed(s: State, t: Tid)
    requires Inv(s) && t < |s.pcs|
    ensures Distinct(s.list) && (Cursor(s.pcs[t]).On? ==> Cursor(s.pcs[t]).r in s.list)
  {
    assert Cursor(s.pcs[t]).On? ==> RefersTo(s.pcs[t], Cursor(s.pcs[t]).r);
  }

  /** The list is only written by somebody who holds the lock alone, and what is removed is not the entry a
      walk stands on. */
  lemma ListAndLock(s: State, u: Tid, r: Reg, s': State, t: Tid)
    requires Inv(s) && Step(s, u, r, s') && u != t && t < |s.pcs| && Walking(s.pcs[t])
    ensures s'.list != s.list ==> !s.pcs[t].InvRelease? && (s'.list == s.list + [r] || s'.list == Without(s.list, r))
    ensures s'.list != s.list && s'.list != s.list + [r] ==> Cursor(s.pcs[t]) != On(r) && r !in s'.list
  {
    StepChanges(s, u, r, s');
    CursorListed(s, t);
    assert Owns(u, s.pcs[u], s.regs, s.list);
    if s'.list != s.list && s'.list != s.list + [r] {
      StepKeeps(s, u, r, s');
      CursorListed(s', t);
      WithoutIs(s.list, r);
    }
    hide Step, Cursors, Counts, Woken, Uses, Listed;
  }

  /** A step of the walk itself. */
  lemma OwnStep(s: State, r: Reg, s': State, t: Tid, keep: set<Reg>)
    requires Inv(s) && Step(s, t, r, s') && Walking(s.pcs[t]) && !s'.pcs[t].Idle?
    requires forall q :: q in keep ==> q < |s.regs| && !s.regs[q].unregistering
    ensures Walking(s'.pcs[t])
    ensures Only(Passed(s'.list, s'.pcs[t]), keep)
      == Only(Passed(s.list, s.pcs[t]), keep) + (if s'.pcs[t].InvCall? && s'.pcs[t] != s.pcs[t] then Only([s'.pcs[t].r], keep) else [])
  {
    assert t < |s.pcs|;
    hide Step, Inv, Only, Passed, Before, Flink, Walking;
    OnlyNothing(keep);
    if s.pcs[t].InvNext? {
      OwnNext(s, r, s', t);
    } else {
      OwnEntry(s, r, s', t, keep);
    }
  }

  /** From one entry to the next. */
  lemma OwnNext(s: State, r: Reg, s': State, t: Tid)
    requires Inv(s) && t < |s.pcs| && Step(s, t, r, s') && s.pcs[t].InvNext?
    ensures Walking(s.pcs[t]) && Walking(s'.pcs[t]) && !s'.pcs[t].InvCall?
    ensures Passed(s'.list, s'.pcs[t]) == Passed(s.list, s.pcs[t])
  {
    CursorListed(s, t);
    NextIsFirst(s.list, s.pcs[t].c);
    hide Inv, Before, Flink, Distinct, CanAcquireExclusive, CanAcquireShared;
  }

  /** At one entry. */
  lemma OwnEntry(s: State, r: Reg, s': State, t: Tid, keep: set<Reg>)
    requires t < |s.pcs| && Step(s, t, r, s') && Walking(s.pcs[t]) && !s.pcs[t].InvNext? && t < |s'.pcs| && !s'.pcs[t].Idle?
    requires forall q :: q in keep ==> q < |s.regs| && !s.regs[q].unregistering
    ensures Walking(s'.pcs[t])
    ensures Only(Passed(s'.list, s'.pcs[t]), keep)
      == Only(Passed(s.list, s.pcs[t]), keep) + (if s'.pcs[t].InvCall? && s'.pcs[t] != s.pcs[t] then Only([s'.pcs[t].r], keep) else [])
  {
    hide Step, Only, Passed, Walking;
    OnlyNothing(keep);
    var pc := s.pcs[t];
    if pc.InvTest? || pc.InvUnlock? {
      var q := pc.r;
      TurnOf(s, r, s', t);
      OnlyConcat(Before(s.list, q), [q], keep);
      OnlyOne(q, keep);
      hide Before;
    } else {
      SameEntry(s, r, s', t);
    }
  }

  /** The entry's turn has come: it is passed over, or kept for a call, or called. */
  lemma TurnOf(s: State, r: Reg, s': State, t: Tid)
    requires Step(s, t, r, s') && (s.pcs[t].InvTest? || s.pcs[t].InvUnlock?)
    ensures var pc, pc', q := s.pcs[t], s'.pcs[t], s.pcs[t].r;
      && Walking(pc) && Walking(pc') && Passed(s.list, pc) == Before(s.list, q) && pc' != pc
      && (pc.InvUnlock? ==> pc' == InvCall(q) && Passed(s'.list, pc') == Before(s.list, q) + [q])
      && (pc.InvTest? ==> !pc'.InvCall? && q < |s.regs|)
      && (pc.InvTest? && s.regs[q].unregistering ==> Passed(s'.list, pc') == Before(s.list, q) + [q])
      && (pc.InvTest? && !s.regs[q].unregistering ==> Passed(s'.list, pc') == Before(s.list, q))
  {
    hide Before, Flink, CanAcquireExclusive, CanAcquireShared;
  }

  lemma OnlyOne(q: Reg, keep: set<Reg>)
    ensures q !in keep ==> Only([q], keep) == []
  {
    assert [q][1..] == [];
  }

  lemma SameEntry(s: State, r: Reg, s': State, t: Tid)
    requires Step(s, t, r, s') && Walking(s.pcs[t]) && !s.pcs[t].InvNext? && !s'.pcs[t].Idle?
    requires !s.pcs[t].InvTest? && !s.pcs[t].InvUnlock?
    ensures Walking(s'.pcs[t]) && !(s'.pcs[t].InvCall? && s'.pcs[t] != s.pcs[t])
    ensures Passed(s'.list, s'.pcs[t]) == Passed(s.list, s.pcs[t])
  {
    hide Before, Flink, CanAcquireExclusive, CanAcquireShared;
  }

  // ---------------------------------------------------------------------------------------------
  // Whole activations
  // ---------------------------------------------------------------------------------------------

  lemma SomeStep(s: State, s': State) returns (u: Tid, r: Reg)
    requires Transition(s, s')
    ensures Step(s, u, r, s')
  {
    hide Step;
    u, r :| Step(s, u, r, s');
  }

  /** The last step of a run. */
  lemma Unrolled(states: seq<State>) returns (before: seq<State>, s: State, u: Tid, r: Reg)
    requires Fragment(states) && |states| > 1
    ensures before == states[..|states| - 1] && Fragment(before) && s == Last(before) && Step(s, u, r, Last(states))
  {
    hide Step, Reachable, Transition;
    before := states[..|states| - 1];
    s := Last(before);
    u, r := SomeStep(s, Last(states));
  }

  lemma {:induction false} FragmentInv(states: seq<State>)
    requires Fragment(states)
    ensures Inv(Last(states))
    decreases |states|
  {
    hide Inv, Step, Reachable, Transition;
    if |states| == 1 {
      ReachableInv(states[0]);
    } else {
      var before, s, u, r := Unrolled(states);
      FragmentInv(before);
      StepKeeps(s, u, r, Last(states));
    }
  }

  lemma BegunBefore(states: seq<State>, t: Tid, keep: set<Reg>)
    requires Begun(states, t) && |states| > 1
    ensures Begun(states[..|states| - 1], t) && (Steady(states, keep) ==> Steady(states[..|states| - 1], keep))
    ensures t < |Last(states).pcs| && !Last(states).pcs[t].Idle?
  {
    hide Reachable, Transition;
  }

  /** So far: the members of keep that have been called are those behind the walk, in the order of the list. */
  lemma {:induction false} CalledAreBehind(states: seq<State>, t: Tid, keep: set<Reg>)
    requires Begun(states, t) && Steady(states, keep)
    ensures t < |Last(states).pcs| && Walking(Last(states).pcs[t])
    ensures forall i :: 0 <= i < |states| ==> t < |states[i].pcs|
    ensures Only(Calls(states, t), keep) == Only(Passed(Last(states).list, Last(states).pcs[t]), keep)
    decreases |states|
  {
    hide Step, Inv, Reachable, Transition, Passed, Only, Walking;
    if |states| > 1 {
      BegunBefore(states, t, keep);
      var before, s, u, r := Unrolled(states);
      CalledAreBehind(before, t, keep);
      FragmentInv(before);
      CalledMore(states, before, s, u, r, t, keep);
    } else {
      FirstBehind(states[0], t, keep);
    }
  }

  lemma FirstBehind(s: State, t: Tid, keep: set<Reg>)
    requires t < |s.pcs| && s.pcs[t].InvAcquire?
    ensures Walking(s.pcs[t]) && Only(Passed(s.list, s.pcs[t]), keep) == Only([], keep)
  {
  }

  lemma CalledMore(states: seq<State>, before: seq<State>, s: State, u: Tid, r: Reg, t: Tid, keep: set<Reg>)
    requires |states| > 1 && before == states[..|states| - 1] && s == Last(before) && Step(s, u, r, Last(states)) && Inv(s)
    requires forall i :: 0 <= i < |states| ==> t < |states[i].pcs|
    requires Steady(states, keep) && Walking(s.pcs[t]) && !Last(states).pcs[t].Idle?
    requires Only(Calls(before, t), keep) == Only(Passed(s.list, s.pcs[t]), keep)
    ensures Walking(Last(states).pcs[t])
    ensures Only(Calls(states, t), keep) == Only(Passed(Last(states).list, Last(states).pcs[t]), keep)
  {
    hide Step, Inv, Passed, Only, Walking;
    var s' := Last(states);
    OnlyNothing(keep);
    if u == t {
      OwnStep(s, r, s', t, keep);
      OnlyConcat(Calls(before, t), if s'.pcs[t].InvCall? && s'.pcs[t] != s.pcs[t] then [s'.pcs[t].r] else [], keep);
    } else {
      OtherStep(s, u, r, s', t, keep);
      assert Calls(states, t) == Calls(before, t) + [] == Calls(before, t);
    }
  }

  lemma OnlyNothing(keep: set<Reg>)
    ensures Only([], keep) == []
  {
  }

  /** PhInvokeCallback: of the registrations that are on the list all the time and are not being
      unregistered, each is called exactly once, in the order of the list. */
  lemma CalledOnceInOrder(states: seq<State>, t: Tid, keep: set<Reg>)
    requires Returned(states, t) && Steady(states, keep)
    ensures forall i :: 0 <= i < |states| ==> t < |states[i].pcs|
    ensures Only(Calls(states, t), keep) == Only(Last(states).list, keep)
    ensures forall r :: r in keep ==> multiset(Calls(states, t))[r] == 1
  {
    hide Step, Inv, Reachable, Transition, Passed, Only, Walking;
    var s := ReturnStep(states, t, keep);
    FragmentInv(states);
    forall q | q in keep ensures multiset(Calls(states, t))[q] == 1 {
      OnlyCount(Calls(states, t), keep, q);
      OnlyCount(s.list, keep, q);
      CursorListed(Last(states), t);
      DistinctCount(s.list, q);
    }
  }

  /** The return itself: everything is behind, and nothing is called or written. */
  lemma ReturnStep(states: seq<State>, t: Tid, keep: set<Reg>) returns (s: State)
    requires Returned(states, t) && Steady(states, keep)
    ensures forall i :: 0 <= i < |states| ==> t < |states[i].pcs|
    ensures s == states[|states| - 2] && s.pcs[t].InvRelease? && s.list == Last(states).list
    ensures Calls(states, t) == Calls(states[..|states| - 1], t) && Cleared(states, t) == Cleared(states[..|states| - 1], t)
    ensures Only(Calls(states, t), keep) == Only(s.list, keep)
  {
    hide Step, Inv, Reachable, Transition, Only;
    var before, u, r;
    before, s, u, r := Unrolled(states);
    CalledAreBehind(before, t, keep);
    LastStep(s, u, r, Last(states), t);
  }

  lemma LastStep(s: State, u: Tid, r: Reg, s': State, t: Tid)
    requires Step(s, u, r, s') && t < |s.pcs| && Walking(s.pcs[t]) && t < |s'.pcs| && s'.pcs[t].Idle?
    ensures u == t && s.pcs[t].InvRelease? && s'.list == s.list
  {
    StepChanges(s, u, r, s');
    hide CanAcquireExclusive, CanAcquireShared, Flink, Without;
  }

  /** Exactly those are called whose flag is not set when it is tested. */
  lemma CalledAreCleared(states: seq<State>, t: Tid)
    requires Returned(states, t)
    ensures forall i :: 0 <= i < |states| ==> t < |states[i].pcs|
    ensures Calls(states, t) == Cleared(states, t)
  {
    hide Step, Inv, Reachable, Transition, Passed, Only, Walking;
    var s := ReturnStep(states, t, {});
    ClearedAreCalled(states[..|states| - 1], t);
  }

  /** A registration that has been found not to be unregistering is about to be called. */
  function Due(pc: Pc): seq<Reg> {
    match pc
    case InvIncrement(r) => [r]
    case InvUnlock(r) => [r]
    case _ => []
  }

  lemma {:induction false} ClearedAreCalled(states: seq<State>, t: Tid)
    requires Begun(states, t)
    ensures forall i :: 0 <= i < |states| ==> t < |states[i].pcs|
    ensures Cleared(states, t) == Calls(states, t) + Due(Last(states).pcs[t])
    decreases |states|
  {
    hide Step, Inv, Reachable, Transition, Passed, Only, Walking, Due, NewlyCleared;
    if |states| > 1 {
      BegunBefore(states, t, {});
      var before, s, u, r := Unrolled(states);
      ClearedAreCalled(before, t);
      CalledAreBehind(before, t, {});
      DueChanges(s, u, r, Last(states), t);
      var after := Last(states).pcs[t];
      var due, called := Due(s.pcs[t]), if after.InvCall? && after != s.pcs[t] then [after.r] else [];
      Associate(Calls(before, t), due, NewlyCleared(s, after, t));
      Associate(Calls(before, t), called, Due(after));
    } else {
      NothingDue(states[0].pcs[t]);
    }
  }

  lemma NothingDue(pc: Pc)
    ensures pc.InvAcquire? ==> Due(pc) == []
  {
  }

  lemma DueChanges(s: State, u: Tid, r: Reg, s': State, t: Tid)
    requires Step(s, u, r, s') && t < |s.pcs| && Walking(s.pcs[t]) && t < |s'.pcs| && !s'.pcs[t].Idle?
    ensures var before, after := s.pcs[t], s'.pcs[t];
      Due(before) + NewlyCleared(s, after, t)
      == (if after.InvCall? && after != before then [after.r] else []) + Due(after)
  {
    StepChanges(s, u, r, s');
    if u == t {
      hide CanAcquireExclusive, CanAcquireShared, Flink, Without;
    }
  }

  // ---------------------------------------------------------------------------------------------
  // The order of the list
  // ---------------------------------------------------------------------------------------------

  /** The list is in the order of registration: a registration is put behind all that are on the list, and
      the others keep their order. */
  lemma ListInOrder(s: State, u: Tid, r: Reg, s': State)
    requires Inv(s) && Step(s, u, r, s')
    ensures s'.list == s.list || s'.list == s.list + [r] || Only(s.list, Members(s.list) - {r}) == s'.list
    ensures s.pcs[u].RegInsert? ==> s'.list == s.list + [r]
  {
    StepChanges(s, u, r, s');
    CursorListed(s, u);
    WithoutIsOnly(s.list, r);
    hide CanAcquireExclusive, CanAcquireShared, Flink, Without, Only;
  }

  lemma {:induction false} WithoutIsOnly(s: seq<Reg>, r: Reg)
    requires Distinct(s)
    ensures Without(s, r) == Only(s, Members(s) - {r})
    decreases s
  {
    if s != [] {
      var rest := s[1..];
      WithoutIsOnly(rest, r);
      if s[0] == r {
        OnlyAll(rest);
        OnlySame(rest, Members(rest), Members(s) - {r});
      } else {
        OnlySame(rest, Members(rest) - {r}, Members(s) - {r});
      }
    }
  }

  lemma {:induction false} OnlyAll(s: seq<Reg>)
    ensures Only(s, Members(s)) == s
    decreases s
  {
    if s != [] {
      OnlyAll(s[1..]);
      OnlySame(s[1..], Members(s[1..]), Members(s));
    }
  }

  lemma {:induction false} OnlySame(s: seq<Reg>, a: set<Reg>, b: set<Reg>)
    requires forall x :: x in s ==> (x in a <==> x in b)
    ensures Only(s, a) == Only(s, b)
    decreases s
  {
    if s != [] {
      OnlySame(s[1..], a, b);
    }
  }

  // ---------------------------------------------------------------------------------------------
  // Registering and unregistering, for an activation that is not disturbed
  // ---------------------------------------------------------------------------------------------

  ghost predicate Twice(s: State, t: Tid, r: Reg, s1: State, s2: State) {
    t < |s.pcs| && |s1.pcs| == |s2.pcs| == |s.pcs| && Step(s, t, r, s1) && Step(s1, t, r, s2)
  }

  /** PhRegisterCallbackEx: after four steps the registration is the last of the list. */
  lemma RegisterAlone(s: State, t: Tid, r: Reg, s1: State, s2: State, s3: State, s4: State)
    requires Twice(s, t, r, s1, s2) && Twice(s2, t, r, s3, s4) && s.pcs[t].Idle? && s1.pcs[t].RegAcquire?
    ensures s4.pcs[t].Idle? && s4.list == s.list + [r] && r < |s4.regs|
    ensures s4.regs[r] == Registration(0, false, Registered)
  {
    hide CanAcquireExclusive, CanAcquireShared, Flink, Without;
  }

  /** PhUnregisterCallback: if nobody executes the function, five steps take the registration off the list. */
  lemma UnregisterAlone(s: State, t: Tid, r: Reg, s1: State, s2: State, s3: State, s4: State, s5: State)
    requires Inv(s) && Twice(s, t, r, s1, s2) && Twice(s2, t, r, s3, s4) && t < |s5.pcs| && Step(s4, t, r, s5)
    requires s.pcs[t].Idle? && s1.pcs[t].UnAcquire? && r < |s.regs| && s.regs[r].busy == 0
    ensures s5.pcs[t].Idle? && r !in s5.list && forall q :: q in s.list && q != r ==> q in s5.list
  {
    CursorListed(s, t);
    WithoutIs(s.list, r);
    hide Inv, CanAcquireExclusive, CanAcquireShared, Flink, Without, Distinct;
    UnregisterFirst(s, t, r, s1, s2);
    UnregisterRest(s2, t, r, s3, s4, s5);
  }

  lemma UnregisterFirst(s: State, t: Tid, r: Reg, s1: State, s2: State)
    requires Twice(s, t, r, s1, s2) && s.pcs[t].Idle? && s1.pcs[t].UnAcquire? && r < |s.regs|
    ensures s2.pcs[t] == UnTest(r) && s2.list == s.list && r < |s2.regs| && s2.regs[r].busy == s.regs[r].busy
  {
    hide CanAcquireExclusive, CanAcquireShared, Flink, Without;
  }

  lemma UnregisterRest(s: State, t: Tid, r: Reg, s1: State, s2: State, s3: State)
    requires Twice(s, t, r, s1, s2) && t < |s3.pcs| && Step(s2, t, r, s3)
    requires s.pcs[t] == UnTest(r) && r < |s.regs| && s.regs[r].busy == 0
    ensures s3.pcs[t].Idle? && s3.list == Without(s.list, r)
  {
    hide CanAcquireExclusive, CanAcquireShared, Flink, Without;
  }

  /** A call may begin at any time. */
  lemma CallsPossible(s: State, t: Tid, r: Reg)
    requires t < |s.pcs| && s.pcs[t].Idle? && r < |s.regs|
    ensures Step(s, t, r, At(s, t, InvAcquire))
    ensures s.regs[r].use == Absent ==> Step(s, t, r, At(Set(s, r, Registration(0, false, Registering(t))), t, RegAcquire(r)))
    ensures s.regs[r].use == Registered ==>
      Step(s, t, r, At(Set(s, r, s.regs[r].(unregistering := true, use := Unregistering(t))), t, UnAcquire(r)))
  {
  }
}
