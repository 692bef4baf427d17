/** The search order of an AVL tree. The comparison function is a total preorder; on the finitely
    many elements of a tree it is given by a rank. */
module AvlOrder {
  import opened AvlShape

  type Ranking = Ptr -> int

  ghost predicate Sorted(s: seq<Ptr>, rank: Ranking) {
    forall i, j :: 0 <= i < j < |s| ==> rank(s[i]) < rank(s[j])
  }

  ghost predicate Below(s: seq<Ptr>, k: int, rank: Ranking) {
    forall x :: x in s ==> rank(x) < k
  }

  ghost predicate Above(s: seq<Ptr>, k: int, rank: Ranking) {
    forall x :: x in s ==> k < rank(x)
  }

  lemma SortedSplit(a: seq<Ptr>, p: Ptr, b: seq<Ptr>, rank: Ranking)
    requires Sorted(a + [p] + b, rank)
    ensures Sorted(a, rank) && Sorted(b, rank) && Below(a, rank(p), rank) && Above(b, rank(p), rank)
  {
    var s := a + [p] + b;
    assert forall i :: 0 <= i < |a| ==> s[i] == a[i];
    assert s[|a|] == p;
    assert forall i :: 0 <= i < |b| ==> s[|a| + 1 + i] == b[i];
  }

  lemma SortedJoin(a: seq<Ptr>, b: seq<Ptr>, k: int, rank: Ranking)
    requires Sorted(a, rank) && Sorted(b, rank) && Below(a, k, rank) && Above(b, k - 1, rank)
    ensures Sorted(a + b, rank)
  {
    forall i, j | 0 <= i < j < |a + b| ensures rank((a + b)[i]) < rank((a + b)[j]) {
      if i < |a| <= j {
        assert a[i] in a && b[j - |a|] in b;
      }
    }
  }

  lemma SortedInsert(a: seq<Ptr>, p: Ptr, b: seq<Ptr>, rank: Ranking)
    requires Sorted(a + b, rank) && Below(a, rank(p), rank) && Above(b, rank(p), rank)
    ensures Sorted(a + [p] + b, rank)
  {
    assert forall i :: 0 <= i < |a| ==> (a + b)[i] == a[i];
    assert forall i :: 0 <= i < |b| ==> (a + b)[|a| + i] == b[i];
    assert Sorted(a, rank) && Sorted(b, rank);
    SortedJoin(a, [p], rank(p), rank);
    SortedJoin(a + [p], b, rank(p) + 1, rank);
  }

  lemma SortedDelete(a: seq<Ptr>, p: Ptr, b: seq<Ptr>, rank: Ranking)
    requires Sorted(a + [p] + b, rank)
    ensures Sorted(a + b, rank)
  {
    SortedSplit(a, p, b, rank);
    SortedJoin(a, b, rank(p), rank);
  }

  /** One comparison settles a whole side of the tree. */
  lemma SideSettled(ctx: Ctx, t: Tree, k: int, rank: Ranking)
    requires t.Node? && Sorted(Before(ctx) + InOrder(t) + After(ctx), rank)
    requires Below(Before(ctx), k, rank) && Above(After(ctx), k, rank)
    ensures k <= rank(t.p) ==> Above(InOrder(t.right) + After(ctx), k, rank)
    ensures k < rank(t.p) ==> Above(After(InLeft(ctx, t.p, t.right)), k, rank)
    ensures k >= rank(t.p) ==> Below(Before(ctx) + InOrder(t.left), k, rank)
    ensures k > rank(t.p) ==> Below(Before(InRight(ctx, t.left, t.p)), k, rank)
  {
    var l, r := InOrder(t.left), InOrder(t.right);
    assert Before(ctx) + InOrder(t) + After(ctx) == (Before(ctx) + l) + [t.p] + (r + After(ctx));
    SortedSplit(Before(ctx) + l, t.p, r + After(ctx), rank);
    assert After(InLeft(ctx, t.p, t.right)) == [t.p] + (r + After(ctx));
    assert Before(InRight(ctx, t.left, t.p)) == (Before(ctx) + l) + [t.p];
    hide Sorted, InOrder, Before, After;
  }

  /** An element occurs once. */
  lemma UniquePlace(a: seq<Ptr>, e: Ptr, b: seq<Ptr>, a': seq<Ptr>, b': seq<Ptr>, rank: Ranking)
    requires a + [e] + b == a' + [e] + b' && Sorted(a + [e] + b, rank)
    ensures a == a' && b == b'
  {
    var s := a + [e] + b;
    assert s[|a|] == e && s[|a'|] == e;
    assert |a| == |a'|;
    assert a == s[..|a|] && a' == s[..|a|];
    assert b == s[|a| + 1..] && b' == s[|a| + 1..];
  }

  /** m follows e directly: with m taken out and then put in the place of e, only e is gone. */
  lemma RightNeighbour(a: seq<Ptr>, e: Ptr, b: seq<Ptr>, m: Ptr, c: seq<Ptr>, d: seq<Ptr>, rank: Ranking)
    requires a + [e] + b == (a + [e]) + ([m] + c) + d && Sorted(a + [e] + b, rank)
    ensures (a + [e]) + c + d == a + [e] + (c + d) && a + [m] + (c + d) == a + b
    ensures Sorted(a + [e] + (c + d), rank) && m !in a + [e] + (c + d)
  {
    var y := c + d;
    assert (a + [e]) + ([m] + c) + d == a + [e] + ([m] + y);
    UniquePlace(a, e, b, a, [m] + y, rank);
    assert a + [e] + b == (a + [e]) + [m] + y;
    SortedSplit(a + [e], m, y, rank);
    SortedDelete(a + [e], m, y, rank);
  }

  /** m precedes e directly. */
  lemma LeftNeighbour(a: seq<Ptr>, e: Ptr, b: seq<Ptr>, m: Ptr, c: seq<Ptr>, d: seq<Ptr>, rank: Ranking)
    requires a + [e] + b == d + (c + [m]) + ([e] + b) && Sorted(a + [e] + b, rank)
    ensures d + c + ([e] + b) == (d + c) + [e] + b && (d + c) + [m] + b == a + b
    ensures Sorted((d + c) + [e] + b, rank) && m !in (d + c) + [e] + b
  {
    var x := d + c;
    assert d + (c + [m]) + ([e] + b) == (x + [m]) + [e] + b;
    UniquePlace(a, e, b, x + [m], b, rank);
    assert a + [e] + b == x + [m] + ([e] + b);
    SortedSplit(x, m, [e] + b, rank);
    SortedDelete(x, m, [e] + b, rank);
    assert x + ([e] + b) == x + [e] + b;
  }

  lemma Exchange(a: seq<Ptr>, b: seq<Ptr>, c: seq<Ptr>, d: seq<Ptr>, x: seq<Ptr>, y: seq<Ptr>, e: Ptr, m: Ptr, rank: Ranking)
    requires a + (b + [e] + c) + d == x + [e] + y && Sorted(x + [e] + y, rank)
    ensures a + (b + [m] + c) + d == x + [m] + y
  {
    assert a + (b + [e] + c) + d == (a + b) + [e] + (c + d);
    UniquePlace(x, e, y, a + b, c + d, rank);
    assert a + (b + [m] + c) + d == (a + b) + [m] + (c + d);
  }
}
