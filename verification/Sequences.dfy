/** Sequences of indices without repetition, and in reverse. */
module Sequences {

  predicate Distinct<T(==)>(s: seq<T>) {
    s != [] ==> s[0] !in s[1..] && Distinct(s[1..])
  }

  lemma {:induction false} AllDifferent<T>(s: seq<T>)
    requires forall i, j :: 0 <= i < j < |s| ==> s[i] != s[j]
    ensures Distinct(s)
    decreases s
  {
    if s != [] {
      var rest := s[1..];
      assert forall i :: 0 <= i < |rest| ==> rest[i] == s[i + 1];
      AllDifferent(rest);
    }
  }

  lemma {:induction false} DistinctConcat(a: seq<nat>, b: seq<nat>)
    ensures Distinct(a + b) <==> Distinct(a) && Distinct(b) && forall i :: i in a ==> i !in b
    decreases a
  {
    if a == [] {
      assert a + b == b;
    } else {
      DistinctConcat(a[1..], b);
      assert (a + b)[1..] == a[1..] + b;
      assert forall i :: i in a <==> i == a[0] || i in a[1..];
    }
  }

  /** s without its first x. */
  function Without(s: seq<nat>, x: nat): seq<nat> {
    if s == [] then [] else if s[0] == x then s[1..] else [s[0]] + Without(s[1..], x)
  }

  lemma {:induction false} WithoutIs(s: seq<nat>, x: nat)
    requires Distinct(s)
    ensures Distinct(Without(s, x)) && forall y :: y in Without(s, x) <==> y in s && y != x
    ensures |Without(s, x)| == if x in s then |s| - 1 else |s|
    decreases s
  {
    if s != [] {
      var rest := s[1..];
      WithoutIs(rest, x);
      assert forall y :: y in s <==> y == s[0] || y in rest;
      if s[0] != x {
        assert ([s[0]] + Without(rest, x))[1..] == Without(rest, x);
      }
    }
  }

  lemma Associate(a: seq<nat>, b: seq<nat>, c: seq<nat>)
    ensures (a + b) + c == a + (b + c)
  {
  }

  lemma MoveFirst(a: seq<nat>, b: seq<nat>)
    requires b != []
    ensures a + b == (a + [b[0]]) + b[1..]
  {
    assert b == [b[0]] + b[1..];
  }

  function Reversed(s: seq<nat>): (r: seq<nat>)
    ensures |r| == |s|
    ensures forall i :: 0 <= i < |s| ==> r[i] == s[|s| - 1 - i]
  {
    if s == [] then [] else [s[|s| - 1]] + Reversed(s[..|s| - 1])
  }

  lemma {:induction false} ReversedConcat(a: seq<nat>, b: seq<nat>)
    ensures Reversed(a + b) == Reversed(b) + Reversed(a)
  {
    assert forall i :: 0 <= i < |a + b| ==> Reversed(a + b)[i] == (Reversed(b) + Reversed(a))[i];
  }

  lemma ReversedPush(i: nat, s: seq<nat>)
    ensures Reversed([i] + s) == Reversed(s) + [i]
  {
    ReversedConcat([i], s);
    assert Reversed([i]) == [i];
  }

  lemma ReversedMembers(s: seq<nat>)
    ensures forall i :: i in Reversed(s) <==> i in s
  {
    forall i | i in s ensures i in Reversed(s) {
      var k :| 0 <= k < |s| && s[k] == i;
      assert Reversed(s)[|s| - 1 - k] == i;
    }
  }

  lemma {:induction false} ReversedDistinct(s: seq<nat>)
    requires Distinct(s)
    ensures Distinct(Reversed(s))
    decreases s
  {
    if s != [] {
      var rest := s[1..];
      ReversedDistinct(rest);
      ReversedConcat([s[0]], rest);
      assert s == [s[0]] + rest;
      assert Reversed([s[0]]) == [s[0]];
      ReversedMembers(rest);
      DistinctConcat(Reversed(rest), [s[0]]);
    }
  }

  /** Distinct numbers below n are at most n. */
  lemma {:induction false} DistinctBound(s: seq<nat>, n: nat)
    requires Distinct(s) && forall i :: i in s ==> i < n
    ensures |s| <= n
  {
    DistinctMembers(s);
    var below := Below(n);
    assert Members(s) <= below;
    Subsets(Members(s), below);
  }

  function Members(s: seq<nat>): set<nat> {
    set i | i in s
  }

  lemma {:induction false} DistinctMembers(s: seq<nat>)
    requires Distinct(s)
    ensures |Members(s)| == |s|
    decreases s
  {
    if s != [] {
      DistinctMembers(s[1..]);
      assert Members(s) == {s[0]} + Members(s[1..]);
      assert s[0] !in Members(s[1..]);
    }
  }

  function Below(n: nat): (b: set<nat>)
    ensures |b| == n && forall i: nat :: i in b <==> i < n
    decreases n
  {
    if n == 0 then {} else Below(n - 1) + {n - 1}
  }

  lemma {:induction false} Subsets(a: set<nat>, b: set<nat>)
    requires a <= b
    ensures |a| <= |b|
    decreases a
  {
    if i :| i in a {
      Subsets(a - {i}, b - {i});
      assert |a| == |a - {i}| + 1 && |b| == |b - {i}| + 1;
    }
  }
}
