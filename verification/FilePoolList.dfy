/** The doubly linked lists of segments in a file pool. */
module FilePoolList {
  import opened Sequences

  type Index = nat

  const NONE: Index := 0xFFFF_FFFF  // ULONG_MAX

  /** FreeFlink and FreeBlink of a segment header. */
  datatype Links = Links(flink: Index, blink: Index)

  function First(s: seq<Index>, other: Index): Index { if s == [] then other else s[0] }
  function Last(s: seq<Index>, other: Index): Index { if s == [] then other else s[|s| - 1] }

  /** The links run through s and back; prev is before the first segment and next after the last. */
  ghost predicate Chained(links: seq<Links>, s: seq<Index>, prev: Index, next: Index)
    decreases s
  {
    s != [] ==>
      && s[0] < |links|
      && links[s[0]].blink == prev
      && links[s[0]].flink == First(s[1..], next)
      && Chained(links, s[1..], s[0], next)
  }

  lemma {:induction false} ChainedFrame(links: seq<Links>, links': seq<Links>, s: seq<Index>, prev: Index, next: Index)
    requires Chained(links, s, prev, next) && |links| <= |links'|
    requires forall i :: i in s && i < |links| ==> links'[i] == links[i]
    ensures Chained(links', s, prev, next)
    decreases s
  {
    if s != [] {
      assert s[0] in s && forall i :: i in s[1..] ==> i in s;
      ChainedFrame(links, links', s[1..], s[0], next);
    }
  }

  lemma {:induction false} ChainedConcat(links: seq<Links>, a: seq<Index>, b: seq<Index>, prev: Index, next: Index)
    ensures Chained(links, a + b, prev, next)
      <==> Chained(links, a, prev, First(b, next)) && Chained(links, b, Last(a, prev), next)
    decreases a
  {
    if a == [] {
      assert a + b == b;
    } else {
      ChainedConcat(links, a[1..], b, a[0], next);
      assert (a + b)[1..] == a[1..] + b;
      assert First(a[1..] + b, next) == First(a[1..], First(b, next));
      assert Last(a[1..], a[0]) == Last(a, prev);
    }
  }

  /** A segment is put at the head of a list it is not on. */
  lemma Inserted(links: seq<Links>, links': seq<Links>, s: seq<Index>, i: Index)
    requires Chained(links, s, NONE, NONE) && Distinct(s) && i !in s && i < |links| == |links'|
    requires links'[i] == Links(First(s, NONE), NONE)
    requires s != [] ==> s[0] < |links| && links'[s[0]] == links[s[0]].(blink := i)
    requires forall j :: 0 <= j < |links| && j != i && j != First(s, NONE) ==> links'[j] == links[j]
    ensures Chained(links', [i] + s, NONE, NONE) && Distinct([i] + s)
  {
    assert ([i] + s)[1..] == s;
    if s != [] {
      assert forall j :: j in s[1..] ==> j in s && j != s[0];
      ChainedInside(links, s, NONE, NONE);
      ChainedFrame(links, links', s[1..], s[0], NONE);
    }
  }

  lemma {:induction false} ChainedInside(links: seq<Links>, s: seq<Index>, prev: Index, next: Index)
    requires Chained(links, s, prev, next)
    ensures forall i :: i in s ==> i < |links|
    decreases s
  {
    if s != [] {
      ChainedInside(links, s[1..], s[0], next);
      assert forall i :: i in s <==> i == s[0] || i in s[1..];
    }
  }

  /** The neighbours of a segment on a list. */
  lemma Neighbours(links: seq<Links>, a: seq<Index>, i: Index, b: seq<Index>)
    requires Chained(links, a + [i] + b, NONE, NONE) && Distinct(a + [i] + b)
    ensures i < |links| && links[i] == Links(First(b, NONE), Last(a, NONE))
    ensures Chained(links, a, NONE, i) && Chained(links, b, i, NONE)
    ensures Distinct(a) && Distinct(b) && Distinct(a + b) && i !in a && i !in b && forall j :: j in a ==> j !in b
    ensures forall j :: j in a + b ==> j < |links|
  {
    assert a + [i] + b == a + ([i] + b);
    ChainedConcat(links, a, [i] + b, NONE, NONE);
    ChainedConcat(links, [i], b, Last(a, NONE), NONE);
    DistinctConcat(a, [i] + b);
    DistinctConcat([i], b);
    DistinctConcat(a, b);
    assert i in [i] + b;
    ChainedInside(links, a, NONE, i);
    ChainedInside(links, b, i, NONE);
  }

  /** The last segment of a list gets another successor, or the first another predecessor. */
  lemma Retargeted(links: seq<Links>, links': seq<Links>, s: seq<Index>, prev: Index, next: Index, prev': Index, next': Index)
    requires Chained(links, s, prev, next) && Distinct(s) && |links| == |links'|
    requires forall j :: j in s && j < |links| && j != s[0] && j != s[|s| - 1] ==> links'[j] == links[j]
    requires s != [] && s[0] < |links| && s[|s| - 1] < |links| ==>
      && links'[s[0]].blink == prev'
      && links'[s[|s| - 1]].flink == next'
      && (|s| > 1 ==> links'[s[0]].flink == links[s[0]].flink && links'[s[|s| - 1]].blink == links[s[|s| - 1]].blink)
    ensures Chained(links', s, prev', next')
  {
    if |s| == 1 {
    } else if |s| > 1 {
      var n := |s| - 1;
      var m := s[1..n];
      assert s == [s[0]] + (m + [s[n]]);
      ChainedConcat(links, [s[0]], m + [s[n]], prev, next);
      ChainedConcat(links, m, [s[n]], s[0], next);
      DistinctConcat([s[0]], m + [s[n]]);
      DistinctConcat(m, [s[n]]);
      ChainedFrame(links, links', m, s[0], s[n]);
      ChainedConcat(links', m, [s[n]], s[0], next');
      ChainedConcat(links', [s[0]], m + [s[n]], prev', next');
    }
  }

  /** The link that led from one part of a list over i now leads to the other part. */
  ghost predicate Bridged(links: seq<Links>, links': seq<Links>, a: seq<Index>, b: seq<Index>) {
    && |links| == |links'|
    && forall j :: 0 <= j < |links| ==>
         links'[j] ==
           if a != [] && j == Last(a, NONE) then links[j].(flink := First(b, NONE))
           else if b != [] && j == First(b, NONE) then links[j].(blink := Last(a, NONE))
           else links[j]
  }

  lemma {:induction false} LastFlink(links: seq<Links>, s: seq<Index>, prev: Index, next: Index)
    requires s != [] && Chained(links, s, prev, next)
    ensures s[|s| - 1] < |links| && links[s[|s| - 1]].flink == next
    decreases s
  {
    if |s| > 1 {
      LastFlink(links, s[1..], s[0], next);
    }
  }

  lemma BridgedBefore(links: seq<Links>, links': seq<Links>, a: seq<Index>, i: Index, b: seq<Index>)
    requires Bridged(links, links', a, b) && Chained(links, a, NONE, i) && Distinct(a)
    requires forall j :: j in a ==> j !in b
    ensures Chained(links', a, NONE, First(b, NONE))
  {
    if a != [] {
      ChainedInside(links, a, NONE, i);
      assert a[|a| - 1] in a && a[0] in a;
      assert b != [] ==> b[0] in b;
      if |a| > 1 {
        DistinctConcat(a[..|a| - 1], [a[|a| - 1]]);
        assert a == a[..|a| - 1] + [a[|a| - 1]];
        assert a[0] in a[..|a| - 1];
      }
      Retargeted(links, links', a, NONE, i, NONE, First(b, NONE));
    }
  }

  lemma BridgedAfter(links: seq<Links>, links': seq<Links>, a: seq<Index>, i: Index, b: seq<Index>)
    requires Bridged(links, links', a, b) && Chained(links, b, i, NONE) && Distinct(b)
    requires forall j :: j in a ==> j !in b
    ensures Chained(links', b, Last(a, NONE), NONE)
  {
    if b != [] {
      ChainedInside(links, b, i, NONE);
      assert b[|b| - 1] in b && b[0] in b;
      assert a != [] ==> a[|a| - 1] in a;
      if |b| > 1 {
        assert b[|b| - 1] in b[1..];
      }
      LastFlink(links, b, i, NONE);
      Retargeted(links, links', b, i, NONE, Last(a, NONE), NONE);
    }
  }

  /** A segment is taken off a list. */
  lemma Removed(links: seq<Links>, links': seq<Links>, a: seq<Index>, i: Index, b: seq<Index>)
    requires Chained(links, a + [i] + b, NONE, NONE) && Distinct(a + [i] + b) && Bridged(links, links', a, b)
    ensures Chained(links', a + b, NONE, NONE) && Distinct(a + b)
  {
    Neighbours(links, a, i, b);
    hide Bridged, Chained;
    BridgedBefore(links, links', a, i, b);
    BridgedAfter(links, links', a, i, b);
    ChainedConcat(links', a, b, NONE, NONE);
  }

  lemma BridgedOthers(links: seq<Links>, links': seq<Links>, a: seq<Index>, i: Index, b: seq<Index>, s: seq<Index>)
    requires Bridged(links, links', a, b) && Chained(links, s, NONE, NONE)
    requires forall j :: j in a + [i] + b ==> j !in s
    ensures Chained(links', s, NONE, NONE)
  {
    assert b != [] ==> b[0] in a + [i] + b;
    assert a != [] ==> a[|a| - 1] in a + [i] + b;
    ChainedFrame(links, links', s, NONE, NONE);
  }

  lemma Membership(a: seq<Index>, i: Index, b: seq<Index>)
    requires Distinct(a + [i] + b)
    ensures forall j :: j in a + b <==> j in a + [i] + b && j != i
  {
    assert a + [i] + b == a + ([i] + b);
    DistinctConcat(a, [i] + b);
    DistinctConcat([i], b);
    assert i in [i] + b;
  }

  lemma SplitAt(s: seq<Index>, i: Index) returns (a: seq<Index>, b: seq<Index>)
    requires i in s
    ensures s == a + [i] + b
  {
    var k :| 0 <= k < |s| && s[k] == i;
    a, b := s[..k], s[k + 1..];
  }
}
