/** AVL trees (phlib/avltree.c). */
module AvlTree {
  import opened AvlShape
  import opened AvlMemory
  import opened AvlRotation
  import opened AvlFocus
  import opened AvlOrder

  /** The element found is in the tree. */
  lemma FoundInside(h: Memory, ctx: Ctx, t: Tree)
    requires Holds(h, Plug(ctx, t)) && t.Node?
    ensures t.p in InOrder(Plug(ctx, t)) && t.p != NULL
  {
    Opened(h, ctx, t);
    PlugElems(ctx, t);
    ElemsInOrder(Plug(ctx, t));
  }

  /** A new leaf in the place found for it. */
  lemma AddPlace(h: Memory, ctx: Ctx, x: Ptr, rank: Ranking)
    requires Holds(h, Plug(ctx, Leaf)) && Sorted(InOrder(Plug(ctx, Leaf)), rank)
    requires Below(Before(ctx), rank(x), rank) && Above(After(ctx), rank(x), rank)
    requires x != NULL && x != ROOT
    ensures HoleParent(ctx) in h
    ensures InOrder(Plug(ctx, Leaf)) == Before(ctx) + After(ctx)
    ensures Growing(SetSlot(h, HoleParent(ctx), ctx.InLeft?, x)[x := Links(HoleParent(ctx), NULL, NULL, 0)],
                    ctx, Node(Leaf, x, Leaf), Before(ctx) + [x] + After(ctx))
    ensures Sorted(Before(ctx) + [x] + After(ctx), rank)
  {
    var a, b := Before(ctx), After(ctx);
    PlugInOrder(ctx, Leaf);
    assert InOrder(Plug(ctx, Leaf)) == a + b;
    SortedInsert(a, x, b, rank);
    ElemsOfCtx(ctx);
    assert x !in a + b;
    hide Holds, Sorted, Below, Above, InOrder, Plug, Focus, Elems, CtxElems, Before, After, HoleParent;
    Opened(h, ctx, Leaf);
    Surroundings(h, ctx, Leaf, 0, a + b);
    Planted(h, SetSlot(h, HoleParent(ctx), ctx.InLeft?, x)[x := Links(HoleParent(ctx), NULL, NULL, 0)], ctx, x, a + b);
  }

  lemma OutsideTree(l: Tree, e: Ptr, r: Tree, m: Ptr)
    requires m !in Elems(Node(l, e, r))
    ensures m != e && (l.Node? ==> m != l.p) && (r.Node? ==> m != r.p)
  {
    assert l.Node? ==> l.p in Elems(l);
    assert r.Node? ==> r.p in Elems(r);
  }

  lemma OutsideCtx(ctx: Ctx, m: Ptr)
    requires m != ROOT && m !in CtxElems(ctx)
    ensures m != HoleParent(ctx)
  {
  }

  /** The element that goes, wherever the rotations have put it. */
  lemma FindAgain(h: Memory, ctx1: Ctx, t1: Tree, X: seq<Ptr>, e: Ptr, Y: seq<Ptr>, m: Ptr, rank: Ranking)
    returns (ctx: Ctx, l: Tree, r: Tree)
    requires Restful(h, ctx1, t1, X + [e] + Y) && Sorted(X + [e] + Y, rank) && m !in X + [e] + Y
    ensures Restful(h, ctx, Node(l, e, r), X + [e] + Y)
    ensures Before(ctx) + InOrder(Node(l, m, r)) + After(ctx) == X + [m] + Y
    ensures m !in Elems(Node(l, e, r)) && m !in CtxElems(ctx)
  {
    var whole := Plug(ctx1, t1);
    Closed(h, ctx1, t1, X + [e] + Y);
    ElemsInOrder(whole);
    assert e in X + [e] + Y;
    ctx, l, r := PlaceOf(Top, whole, e);
    Opened(h, ctx, Node(l, e, r));
    PlugElems(ctx, Node(l, e, r));
    PlugInOrder(ctx, Node(l, e, r));
    assert InOrder(Node(l, e, r)) == InOrder(l) + [e] + InOrder(r);
    assert InOrder(Node(l, m, r)) == InOrder(l) + [m] + InOrder(r);
    hide InOrder, Before, After, Elems, CtxElems, Sorted, Plug, Focus;
    Exchange(Before(ctx), InOrder(l), InOrder(r), After(ctx), X, Y, e, m, rank);
  }

  lemma Regrouped(ctx: Ctx, l: Tree, e: Ptr, r: Tree)
    ensures InOrder(Plug(ctx, Node(l, e, r))) == (Before(ctx) + InOrder(l)) + [e] + (InOrder(r) + After(ctx))
    ensures InOrder(Plug(ctx, Node(l, e, r))) == Before(ctx) + InOrder(Node(l, e, r)) + After(ctx)
  {
    PlugInOrder(ctx, Node(l, e, r));
  }

  /** m can be taken out of contents and be put in the place of e. */
  ghost predicate Substitutable(h: Memory, ctx: Ctx, l: Tree, m: Ptr, r: Tree, contents: seq<Ptr>,
                                X: seq<Ptr>, e: Ptr, Y: seq<Ptr>, rank: Ranking)
  {
    && Restful(h, ctx, Node(l, m, r), contents) && (l.Leaf? || r.Leaf?)
    && Before(ctx) + (InOrder(l) + InOrder(r)) + After(ctx) == X + [e] + Y
    && Sorted(X + [e] + Y, rank) && m !in X + [e] + Y
  }

  /** The contents without e. */
  function Rest(ctx: Ctx, l: Tree, r: Tree): seq<Ptr> {
    (Before(ctx) + InOrder(l)) + (InOrder(r) + After(ctx))
  }

  lemma InOrderHalf(t: Tree, m: Ptr)
    ensures InOrder(Node(t, m, Leaf)) == InOrder(t) + [m] && InOrder(t) + InOrder(Leaf) == InOrder(t)
    ensures InOrder(Node(Leaf, m, t)) == [m] + InOrder(t) && InOrder(Leaf) + InOrder(t) == InOrder(t)
  {
  }

  lemma AfterHole(ctx: Ctx, e: Ptr, r: Tree)
    ensures After(InLeft(ctx, e, r)) == [e] + (InOrder(r) + After(ctx))
  {
  }

  lemma LeftmostReplaces(h: Memory, ctx0: Ctx, l: Tree, e: Ptr, r: Tree, ctx: Ctx, m: Ptr, r': Tree, rank: Ranking)
    returns (X: seq<Ptr>, Y: seq<Ptr>)
    requires Holds(h, Plug(ctx0, Node(l, e, r))) && Sorted(InOrder(Plug(ctx0, Node(l, e, r))), rank)
    requires Plug(ctx, Node(Leaf, m, r')) == Plug(ctx0, Node(l, e, r)) && Before(ctx) == Before(InRight(ctx0, l, e))
    ensures Substitutable(h, ctx, Leaf, m, r', InOrder(Plug(ctx0, Node(l, e, r))), X, e, Y, rank)
    ensures X + [m] + Y == Rest(ctx0, l, r)
  {
    Opened(h, ctx, Node(Leaf, m, r'));
    Regrouped(ctx0, l, e, r);
    Regrouped(ctx, Leaf, m, r');
    InOrderHalf(r', m);
    X, Y := Before(ctx0) + InOrder(l), InOrder(r') + After(ctx);
    hide Sorted, InOrder, After, Plug;
    RightNeighbour(X, e, InOrder(r) + After(ctx0), m, InOrder(r'), After(ctx), rank);
  }

  lemma RightmostReplaces(h: Memory, ctx0: Ctx, l: Tree, e: Ptr, r: Tree, ctx: Ctx, l': Tree, m: Ptr, rank: Ranking)
    returns (X: seq<Ptr>, Y: seq<Ptr>)
    requires Holds(h, Plug(ctx0, Node(l, e, r))) && Sorted(InOrder(Plug(ctx0, Node(l, e, r))), rank)
    requires Plug(ctx, Node(l', m, Leaf)) == Plug(ctx0, Node(l, e, r)) && After(ctx) == After(InLeft(ctx0, e, r))
    ensures Substitutable(h, ctx, l', m, Leaf, InOrder(Plug(ctx0, Node(l, e, r))), X, e, Y, rank)
    ensures X + [m] + Y == Rest(ctx0, l, r)
  {
    Opened(h, ctx, Node(l', m, Leaf));
    Regrouped(ctx0, l, e, r);
    Regrouped(ctx, l', m, Leaf);
    InOrderHalf(l', m);
    X, Y := Before(ctx) + InOrder(l'), InOrder(r) + After(ctx0);
    AfterHole(ctx0, e, r);
    hide Sorted, InOrder, Before, After, Plug;
    LeftNeighbour(Before(ctx0) + InOrder(l), e, Y, m, InOrder(l'), Before(ctx), rank);
  }

  lemma Place(h: Memory, shape: Tree, e: Ptr, rank: Ranking) returns (ctx: Ctx, l: Tree, r: Tree)
    requires Holds(h, shape) && Sorted(InOrder(shape), rank) && e in InOrder(shape)
    ensures Plug(ctx, Node(l, e, r)) == shape && Restful(h, ctx, Node(l, e, r), InOrder(shape))
    ensures InOrder(shape) == (Before(ctx) + InOrder(l)) + [e] + (InOrder(r) + After(ctx))
    ensures Sorted(Rest(ctx, l, r), rank)
  {
    ElemsInOrder(shape);
    ctx, l, r := PlaceOf(Top, shape, e);
    Opened(h, ctx, Node(l, e, r));
    Regrouped(ctx, l, e, r);
    SortedDelete(Before(ctx) + InOrder(l), e, InOrder(r) + After(ctx), rank);
  }

  lemma Closes(h: Memory, ctx: Ctx, t: Tree, target: seq<Ptr>)
    requires Restful(h, ctx, t, target)
    ensures Holds(h, Plug(ctx, t)) && InOrder(Plug(ctx, t)) == target
  {
    Closed(h, ctx, t, target);
  }

  class AvlTree {
    var links: Memory    // the PH_AVL_LINKS of the sentinel and of the elements, by address
    var count: nat
    const rank: Ranking
    ghost var shape: Tree

    ghost predicate Valid()
      reads this
    {
      && Holds(links, shape)
      && Sorted(Contents(), rank)
      && count == |Contents()|
    }

    /** The elements in order. */
    ghost function Contents(): seq<Ptr>
      reads this
    {
      InOrder(shape)
    }

    function Compare(a: Ptr, b: Ptr): int {
      rank(a) - rank(b)
    }

    /** PhInitializeAvlTree */
    constructor (rank: Ranking)
      ensures Valid() && Contents() == [] && this.rank == rank
    {
      this.rank := rank;
      links := map[ROOT := Links(NULL, NULL, NULL, 0)];
      count := 0;
      shape := Leaf;
    }

    /** PhpFindElementAvlTree: the element, or the place where it belongs. */
    method Locate(x: Ptr) returns (P: Ptr, result: int, ghost ctx: Ctx, ghost t: Tree)
      requires Valid()
      ensures shape == Plug(ctx, t)
      ensures result == 0 ==> t.Node? && P == t.p && rank(P) == rank(x)
      ensures result != 0 ==> t.Leaf? && P == HoleParent(ctx) && (result < 0 <==> ctx.InLeft?)
      ensures result != 0 ==> Below(Before(ctx), rank(x), rank) && Above(After(ctx), rank(x), rank)
    {
      ctx, t := Top, shape;
      Opened(links, ctx, t);
      P := links[ROOT].right;
      if P == NULL {
        return ROOT, 1, ctx, t;
      }
      while true
        invariant shape == Plug(ctx, t) && t.Node? && P == t.p
        invariant Below(Before(ctx), rank(x), rank) && Above(After(ctx), rank(x), rank)
        decreases t
      {
        Opened(links, ctx, t);
        SideSettled(ctx, t, rank(x), rank);
        assert Linked(links, t.left, P) && Linked(links, t.right, P);
        result := Compare(x, P);
        if result == 0 {
          return;
        } else if result < 0 {
          ctx, t := InLeft(ctx, t.p, t.right), t.left;
          if links[P].left != NULL {
            P := links[P].left;
          } else {
            result := -1;
            return;
          }
        } else {
          ctx, t := InRight(ctx, t.left, t.p), t.right;
          if links[P].right != NULL {
            P := links[P].right;
          } else {
            result := 1;
            return;
          }
        }
      }
    }

    /** p->Left = c or p->Right = c, and then c->Parent = p if c exists. */
    method Adopt(p: Ptr, left: bool, c: Ptr)
      requires p in links && (c != NULL ==> c in links && c != p)
      modifies this`links
      ensures links.Keys == old(links).Keys
      ensures links[p] == WithSlot(old(links)[p], left, c)
      ensures c != NULL ==> links[c] == old(links)[c].(parent := p)
      ensures forall x :: x in links && x != p && (x != c || c == NULL) ==> links[x] == old(links)[x]
    {
      links := links[p := WithSlot(links[p], left, c)];
      if c != NULL {
        links := links[c := links[c].(parent := p)];
      }
    }

    /** *Root = q, and then q->Parent = p->Parent. */
    method Hoist(par: Ptr, left: bool, p: Ptr, q: Ptr)
      requires par in links && p in links && q in links && par != p && par != q && links[p].parent == par
      modifies this`links
      ensures links.Keys == old(links).Keys
      ensures links[par] == WithSlot(old(links)[par], left, q)
      ensures links[q] == old(links)[q].(parent := par)
      ensures forall x :: x in links && x != par && x != q ==> links[x] == old(links)[x]
    {
      links := links[par := WithSlot(links[par], left, q)];
      links := links[q := links[q].(parent := links[p].parent)];
    }

    /** r gives its child on one side to q and takes q in its place. */
    method HandOver(r: Ptr, q: Ptr, left: bool)
      requires r in links && q in links && q != r && q != NULL && r != NULL
      requires Slot(links, r, left) != NULL ==> Slot(links, r, left) in links && Slot(links, r, left) !in {r, q}
      modifies this`links
      ensures links.Keys == old(links).Keys
      ensures var c := old(Slot(links, r, left));
        && links[r] == WithSlot(old(links)[r], left, q)
        && links[q] == WithSlot(old(links)[q], !left, c).(parent := r)
        && (c != NULL ==> links[c] == old(links)[c].(parent := q))
        && forall x :: x in links && x !in {r, q} && (x != c || c == NULL) ==> links[x] == old(links)[x]
    {
      Adopt(q, !left, if left then links[r].left else links[r].right);
      Adopt(r, left, q);
    }

    method RotateRight(par: Ptr, left: bool, ghost t: Tree)
      requires Hangs(links, t, par, left) && LeftHeavy(t)
      modifies this`links
      ensures Replaced(old(links), links, t, RotatedRight(t), par, left)
      ensures forall x :: x in old(links) ==> SameBalance(old(links), links, x)
    {
      Child(links, t, par, left, true);
      Child(links, t.left, t.p, true, false);
      hide Elems, InOrder, Proper, Replaced, Hangs;
      var Q := Slot(links, par, left);
      var P := links[Q].left;
      Hoist(par, left, Q, P);
      Adopt(Q, true, links[P].right);
      Adopt(P, false, Q);
      WrittenRightLinked(old(links), links, t, par, left);
    }

    method RotateLeft(par: Ptr, left: bool, ghost t: Tree)
      requires Hangs(links, t, par, left) && RightHeavy(t)
      modifies this`links
      ensures Replaced(old(links), links, t, RotatedLeft(t), par, left)
      ensures forall x :: x in old(links) ==> SameBalance(old(links), links, x)
    {
      Child(links, t, par, left, false);
      Child(links, t.right, t.p, false, true);
      var P := Slot(links, par, left);
      var Q := links[P].right;
      Hoist(par, left, P, Q);
      Adopt(P, false, links[Q].left);
      Adopt(Q, true, P);
      WrittenLeftLinked(old(links), links, t, par, left);
    }

    method RotateRightTwice(par: Ptr, left: bool, ghost t: Tree)
      requires Hangs(links, t, par, left) && LeftHeavy(t) && RightHeavy(t.left)
      modifies this`links
      ensures Replaced(old(links), links, t, RotatedRightTwice(t), par, left)
      ensures forall x :: x in old(links) ==> SameBalance(old(links), links, x)
    {
      HasCorners(links, t, par, left, true);
      hide Elems, InOrder, Proper, Replaced, Hangs, Linked, SameBalance, RotatedRightTwice, RotatedLeftTwice;
      var P := Slot(links, par, left);
      var Q := links[P].left;
      var R := links[Q].right;
      Hoist(par, left, P, R);
      HandOver(R, Q, true);
      HandOver(R, P, false);
      WrittenRightTwiceLinked(old(links), links, t, par, left);
    }

    method RotateLeftTwice(par: Ptr, left: bool, ghost t: Tree)
      requires Hangs(links, t, par, left) && RightHeavy(t) && LeftHeavy(t.right)
      modifies this`links
      ensures Replaced(old(links), links, t, RotatedLeftTwice(t), par, left)
      ensures forall x :: x in old(links) ==> SameBalance(old(links), links, x)
    {
      HasCorners(links, t, par, left, false);
      hide Elems, InOrder, Proper, Replaced, Hangs, Linked, SameBalance, RotatedRightTwice, RotatedLeftTwice;
      var P := Slot(links, par, left);
      var Q := links[P].right;
      var R := links[Q].left;
      Hoist(par, left, P, R);
      HandOver(R, Q, false);
      HandOver(R, P, true);
      WrittenLeftTwiceLinked(old(links), links, t, par, left);
    }

    /** The balances after a double rotation that makes R the parent of l and r. */
    method BalanceTwice(l: Ptr, R: Ptr, r: Ptr)
      requires l in links && R in links && r in links && l != R && l != r && R != r
      modifies this`links
      ensures OnlyBalances(old(links), links, {l, R, r})
      ensures TwiceBalances(old(links), links, l, R, r)
    {
      if links[R].balance == -1 {
        links := SetBalance(links, r, 1);
        links := SetBalance(links, l, 0);
      } else if links[R].balance == 1 {
        links := SetBalance(links, r, 0);
        links := SetBalance(links, l, -1);
      } else {
        links := SetBalance(links, r, 0);
        links := SetBalance(links, l, 0);
      }
      links := SetBalance(links, R, 0);
    }

    /** The balances after a single rotation, but for the special case. */
    method BalanceBoth(p: Ptr, q: Ptr)
      requires p in links && q in links
      modifies this`links
      ensures OnlyBalances(old(links), links, {p, q})
      ensures p in links && q in links && links[p].balance == 0 && links[q].balance == 0
    {
      links := SetBalance(links, p, 0);
      links := SetBalance(links, q, 0);
    }

    /** And in the special case, where only the new top is written. */
    method BalanceTop(p: Ptr, q: Ptr, b: int)
      requires p in links && q in links && p != q
      modifies this`links
      ensures OnlyBalances(old(links), links, {p, q})
      ensures p in links && q in links && links[p].balance == old(links)[p].balance && links[q].balance == b
    {
      links := SetBalance(links, q, b);
    }

    /** PhpRebalanceAvlLinks, for an element whose left side is too high. */
    method RebalanceLeftHeavy(par: Ptr, left: bool, ghost t: Tree) returns (code: int)
      requires Hangs(links, t, par, left) && Unbalanced(links, t) && links[t.p].balance == -1
      modifies this`links
      ensures Restored(old(links), links, t, par, left, code)
    {
      Heavy(links, t, par, left, true);
      hide Elems, InOrder, Proper, Replaced, Hangs, Linked, Unbalanced, Restored, OnlyBalances, TwiceBalances;
      var P := Slot(links, par, left);
      var Q := links[P].left;
      if links[Q].balance == -1 {
        RotateRight(par, left, t);
        ghost var h1 := links;
        BalanceBoth(P, Q);
        RightRestored(old(links), h1, links, t, par, left);
        code := 1;
      } else if links[Q].balance == 1 {
        var R := links[Q].right;
        RotateRightTwice(par, left, t);
        ghost var h1 := links;
        assert P in links && Q in links && R in links;
        BalanceTwice(Q, R, P);
        RightTwiceRestored(old(links), h1, links, t, par, left);
        code := 2;
      } else {
        RotateRight(par, left, t);
        ghost var h1 := links;
        BalanceTop(P, Q, 1);
        RightRestored(old(links), h1, links, t, par, left);
        code := 3;
      }
    }

    /** PhpRebalanceAvlLinks, for an element whose right side is too high. */
    method RebalanceRightHeavy(par: Ptr, left: bool, ghost t: Tree) returns (code: int)
      requires Hangs(links, t, par, left) && Unbalanced(links, t) && links[t.p].balance == 1
      modifies this`links
      ensures Restored(old(links), links, t, par, left, code)
    {
      Heavy(links, t, par, left, false);
      hide Elems, InOrder, Proper, Replaced, Hangs, Linked, Unbalanced, Restored, OnlyBalances, TwiceBalances;
      var P := Slot(links, par, left);
      var Q := links[P].right;
      if links[Q].balance == 1 {
        RotateLeft(par, left, t);
        ghost var h1 := links;
        BalanceBoth(P, Q);
        LeftRestored(old(links), h1, links, t, par, left);
        code := 1;
      } else if links[Q].balance == -1 {
        var R := links[Q].left;
        RotateLeftTwice(par, left, t);
        ghost var h1 := links;
        assert P in links && Q in links && R in links;
        BalanceTwice(P, R, Q);
        LeftTwiceRestored(old(links), h1, links, t, par, left);
        code := 2;
      } else {
        RotateLeft(par, left, t);
        ghost var h1 := links;
        BalanceTop(P, Q, -1);
        LeftRestored(old(links), h1, links, t, par, left);
        code := 3;
      }
    }

    /** PhpRebalanceAvlLinks */
    method Rebalance(par: Ptr, left: bool, ghost t: Tree) returns (code: int)
      requires Hangs(links, t, par, left) && Unbalanced(links, t)
      modifies this`links
      ensures Restored(old(links), links, t, par, left, code)
    {
      if links[Slot(links, par, left)].balance == -1 {
        code := RebalanceLeftHeavy(par, left, t);
      } else {
        code := RebalanceRightHeavy(par, left, t);
      }
    }

    /** PhAddElementAvlTree */
    method Add(x: Ptr) returns (existing: Ptr)
      requires Valid() && x != NULL && x != ROOT
      modifies this
      ensures Valid()
      ensures existing != NULL ==>
        links == old(links) && shape == old(shape) && count == old(count)
        && existing in old(Contents()) && rank(existing) == rank(x)
      ensures existing == NULL ==>
        exists a, b :: old(Contents()) == a + b && Contents() == a + [x] + b
                    && Below(a, rank(x), rank) && Above(b, rank(x), rank)
    {
      var P, result;
      ghost var ctx, t;
      P, result, ctx, t := Locate(x);
      if result == 0 {
        FoundInside(links, ctx, t);
        return P;
      }
      AddPlace(links, ctx, x, rank);
      hide Holds, Sorted, Below, Above, Plug, InOrder;
      ghost var a, b := Before(ctx), After(ctx);
      links := SetSlot(links, P, result < 0, x);
      links := links[x := Links(P, NULL, NULL, 0)];
      t := Node(Leaf, x, Leaf);
      ctx, t := RetraceAdded(x, ctx, t, a + [x] + b);
      Closed(links, ctx, t, a + [x] + b);
      shape := Plug(ctx, t);
      count := count + 1;
      existing := NULL;
    }

    /** The loop of PhAddElementAvlTree: the subtree at x has become one higher. */
    method RetraceAdded(x: Ptr, ghost ctx0: Ctx, ghost t0: Tree, ghost target: seq<Ptr>)
      returns (ghost ctx: Ctx, ghost t: Tree)
      requires Growing(links, ctx0, t0, target) && t0.Node? && t0.p == x
      modifies this`links
      ensures Restful(links, ctx, t, target)
    {
      hide Growing, Restful, Unbalanced, Restored, KeepsHeight, Rebalanced, Hangs, Height;
      ctx, t := ctx0, t0;
      GrowingSurroundings(links, ctx, t, target);
      var P := x;
      var root := links[ROOT].right;
      while P != root
        invariant Growing(links, ctx, t, target) && t.Node? && P == t.p
        invariant ROOT in links && links[ROOT].right == root
        decreases ctx
      {
        GrowingSurroundings(links, ctx, t, target);
        var balance := if links[links[P].parent].left == P then -1 else 1;
        assert balance == Side(ctx);
        P := links[P].parent;
        if links[P].balance == 0 {
          GrowsOn(links, ctx, t, target);
          links := SetBalance(links, P, balance);
          ctx, t := ctx.up, Around(ctx, t);
        } else if links[P].balance != balance {
          GrowsEven(links, ctx, t, target);
          links := SetBalance(links, P, 0);
          ctx, t := ctx.up, Around(ctx, t);
          return;
        } else {
          GrowsTooFar(links, ctx, t, target);
          var par := links[P].parent;
          ghost var h := links;
          var code := Rebalance(par, links[par].left == P, Around(ctx, t));
          GrowsTurned(h, links, ctx, t, target, code);
          ctx, t := ctx.up, Rebalanced(Around(ctx, t));
          return;
        }
      }
      GrowingSurroundings(links, ctx, t, target);
    }

    /** The loop of PhRemoveElementAvlTree: the subtree in the hole has become one lower. */
    method RetraceRemoved(P0: Ptr, balance0: int, ghost ctx0: Ctx, ghost t0: Tree, ghost target: seq<Ptr>)
      returns (ghost ctx: Ctx, ghost t: Tree)
      requires Shrinking(links, ctx0, t0, target) && P0 == HoleParent(ctx0) && balance0 == Side(ctx0)
      modifies this`links
      ensures Restful(links, ctx, t, target)
    {
      hide Shrinking, Restful, Unbalanced, Restored, KeepsHeight, Rebalanced, Hangs, Height;
      ctx, t := ctx0, t0;
      ShrinkingSurroundings(links, ctx, t, target);
      var P, balance := P0, balance0;
      while P != ROOT
        invariant Shrinking(links, ctx, t, target) && P == HoleParent(ctx) && balance == Side(ctx)
        decreases ctx
      {
        ShrinkingSurroundings(links, ctx, t, target);
        if links[P].balance == balance {
          ShrinksOn(links, ctx, t, target);
          links := SetBalance(links, P, 0);
          ctx, t := ctx.up, Around(ctx, t);
        } else if links[P].balance == 0 {
          ShrinksAway(links, ctx, t, target);
          links := SetBalance(links, P, -balance);
          ctx, t := ctx.up, Around(ctx, t);
          return;
        } else {
          ShrinksTooFar(links, ctx, t, target);
          var par := links[P].parent;
          ghost var h := links;
          var code := Rebalance(par, links[par].left == P, Around(ctx, t));
          ShrinksTurned(h, links, ctx, t, target, code);
          RestoredMeans(h, links, Around(ctx, t), par, ctx.up.InLeft?, code);
          ctx, t := ctx.up, Rebalanced(Around(ctx, t));
          if code == 3 {
            return;
          }
          P := links[P].parent;
        }
        ShrinkingSurroundings(links, ctx, t, target);
        balance := if links[links[P].parent].left == P then -1 else 1;
        P := links[P].parent;
      }
      ShrinkingSurroundings(links, ctx, t, target);
    }

    /** m has at most one child, which takes its place. */
    method Bypass(m: Ptr, ghost ctx: Ctx, ghost l: Tree, ghost r: Tree, ghost contents: seq<Ptr>) returns (balance: int)
      requires Restful(links, ctx, Node(l, m, r), contents) && (l.Leaf? || r.Leaf?)
      modifies this`links
      ensures Bypassed(old(links), links, ctx, l, r)
      ensures m in links && links[m].parent == HoleParent(ctx) && balance == Side(ctx)
    {
      hide Restful, Height;
      RestfulSurroundings(links, ctx, l, m, r, contents);
      var parent := links[m].parent;
      var left := links[parent].left == m;
      balance := if left then -1 else 1;
      if links[m].right == NULL {
        links := SetSlot(links, parent, left, links[m].left);
        if links[m].left != NULL {
          links := SetParent(links, links[m].left, links[m].parent);
        }
      } else {
        links := SetSlot(links, parent, left, links[m].right);
        links := SetParent(links, links[m].right, links[m].parent);
      }
    }

    /** PhRemoveElementAvlTree up to the end of its loop: m is taken out. */
    method Detach(m: Ptr, ghost ctx0: Ctx, ghost l: Tree, ghost r: Tree, ghost contents: seq<Ptr>)
      returns (ghost ctx: Ctx, ghost t: Tree)
      requires Restful(links, ctx0, Node(l, m, r), contents) && (l.Leaf? || r.Leaf?)
      modifies this`links
      ensures Restful(links, ctx, t, Before(ctx0) + (InOrder(l) + InOrder(r)) + After(ctx0))
    {
      hide Restful, Shrinking, Bypassed;
      var balance := Bypass(m, ctx0, l, r, contents);
      Unlinked(old(links), links, ctx0, l, m, r, contents);
      ctx, t := RetraceRemoved(links[m].parent, balance, ctx0, if r.Leaf? then l else r,
                               Before(ctx0) + (InOrder(l) + InOrder(r)) + After(ctx0));
    }

    /** *newElement = *Element, and the neighbours of e are made to refer to m. */
    method TakeOver(e: Ptr, m: Ptr, ghost ctx: Ctx, ghost l: Tree, ghost r: Tree, ghost contents: seq<Ptr>)
      requires Restful(links, ctx, Node(l, e, r), contents)
      requires m != NULL && m != ROOT && m !in Elems(Node(l, e, r)) && m !in CtxElems(ctx)
      modifies this`links
      ensures TakenOver(old(links), links, ctx, l, e, r, m)
    {
      hide Restful, Elems, CtxElems;
      RestfulSurroundings(links, ctx, l, e, r, contents);
      OutsideTree(l, e, r, m);
      OutsideCtx(ctx, m);
      links := links[m := links[e]];
      links := SetSlot(links, links[m].parent, links[links[e].parent].left == e, m);
      if links[m].left != NULL {
        links := SetParent(links, links[m].left, m);
      }
      if links[m].right != NULL {
        links := SetParent(links, links[m].right, m);
      }
    }

    /** The first element on the right of one that has both children. */
    method LeftmostBelow(m0: Ptr, ghost ctx0: Ctx, ghost t0: Tree) returns (m: Ptr, ghost ctx: Ctx, ghost r: Tree)
      requires Holds(links, Plug(ctx0, t0)) && t0.Node? && t0.p == m0
      ensures Plug(ctx, Node(Leaf, m, r)) == Plug(ctx0, t0) && Before(ctx) == Before(ctx0)
    {
      ghost var t := t0;
      ctx, m := ctx0, m0;
      Opened(links, ctx, t);
      while links[m].left != NULL
        invariant Plug(ctx, t) == Plug(ctx0, t0) && t.Node? && t.p == m && Before(ctx) == Before(ctx0)
        invariant m in links && links[m].left == Root(t.left)
        decreases t
      {
        m := links[m].left;
        ctx, t := InLeft(ctx, t.p, t.right), t.left;
        Opened(links, ctx, t);
      }
      Opened(links, ctx, t);
      assert Linked(links, t.left, m);
      r := t.right;
    }

    method RightmostBelow(m0: Ptr, ghost ctx0: Ctx, ghost t0: Tree) returns (m: Ptr, ghost ctx: Ctx, ghost l: Tree)
      requires Holds(links, Plug(ctx0, t0)) && t0.Node? && t0.p == m0
      ensures Plug(ctx, Node(l, m, Leaf)) == Plug(ctx0, t0) && After(ctx) == After(ctx0)
    {
      ghost var t := t0;
      ctx, m := ctx0, m0;
      Opened(links, ctx, t);
      while links[m].right != NULL
        invariant Plug(ctx, t) == Plug(ctx0, t0) && t.Node? && t.p == m && After(ctx) == After(ctx0)
        invariant m in links && links[m].right == Root(t.right)
        decreases t
      {
        m := links[m].right;
        ctx, t := InRight(ctx, t.left, t.p), t.right;
        Opened(links, ctx, t);
      }
      Opened(links, ctx, t);
      assert Linked(links, t.right, m);
      l := t.left;
    }

    /** m leaves its own place and takes that of e. */
    method Substitute(e: Ptr, m: Ptr, ghost ctx0: Ctx, ghost l0: Tree, ghost r0: Tree, ghost contents: seq<Ptr>,
                      ghost X: seq<Ptr>, ghost Y: seq<Ptr>)
      returns (ghost ctx: Ctx, ghost t: Tree)
      requires Substitutable(links, ctx0, l0, m, r0, contents, X, e, Y, rank)
      modifies this`links
      ensures Restful(links, ctx, t, X + [m] + Y)
    {
      hide Restful, Sorted, InOrder, Before, After, Elems, CtxElems, TakenOver;
      RestfulSurroundings(links, ctx0, l0, m, r0, contents);
      ctx, t := Detach(m, ctx0, l0, r0, contents);
      ghost var l, r;
      ctx, l, r := FindAgain(links, ctx, t, X, e, Y, m, rank);
      ghost var h := links;
      TakeOver(e, m, ctx, l, r, X + [e] + Y);
      Renamed(h, links, ctx, l, e, r, m, X + [e] + Y);
      t := Node(l, m, r);
    }

    /** The neighbour of e on the higher side. */
    method ChooseReplacement(e: Ptr, ghost ctx0: Ctx, ghost l: Tree, ghost r: Tree)
      returns (m: Ptr, ghost ctx: Ctx, ghost l': Tree, ghost r': Tree, ghost X: seq<Ptr>, ghost Y: seq<Ptr>)
      requires Holds(links, Plug(ctx0, Node(l, e, r))) && Sorted(InOrder(Plug(ctx0, Node(l, e, r))), rank)
      requires l.Node? && r.Node?
      ensures Substitutable(links, ctx, l', m, r', InOrder(Plug(ctx0, Node(l, e, r))), X, e, Y, rank)
      ensures X + [m] + Y == Rest(ctx0, l, r)
    {
      Opened(links, ctx0, Node(l, e, r));
      RestfulSurroundings(links, ctx0, l, e, r, InOrder(Plug(ctx0, Node(l, e, r))));
      hide Sorted, InOrder, Before, After, Restful, Holds;
      if links[e].balance >= 0 {
        l' := Leaf;
        m, ctx, r' := LeftmostBelow(links[e].right, InRight(ctx0, l, e), r);
        X, Y := LeftmostReplaces(links, ctx0, l, e, r, ctx, m, r', rank);
      } else {
        r' := Leaf;
        m, ctx, l' := RightmostBelow(links[e].left, InLeft(ctx0, e, r), l);
        X, Y := RightmostReplaces(links, ctx0, l, e, r, ctx, l', m, rank);
      }
    }

    /** PhRemoveElementAvlTree, but for the count. */
    method Unlink(e: Ptr, ghost ctx0: Ctx, ghost l: Tree, ghost r: Tree, ghost contents: seq<Ptr>)
      returns (ghost ctx: Ctx, ghost t: Tree)
      requires Holds(links, Plug(ctx0, Node(l, e, r))) && Sorted(contents, rank)
      requires contents == InOrder(Plug(ctx0, Node(l, e, r)))
      requires Restful(links, ctx0, Node(l, e, r), contents)
      modifies this`links
      ensures Restful(links, ctx, t, Rest(ctx0, l, r))
    {
      hide Sorted, InOrder, Before, After, Restful, Substitutable, Holds, Plug;
      RestfulSurroundings(links, ctx0, l, e, r, contents);
      if links[e].left == NULL || links[e].right == NULL {
        ctx, t := Detach(e, ctx0, l, r, contents);
        assert Before(ctx0) + (InOrder(l) + InOrder(r)) + After(ctx0) == Rest(ctx0, l, r);
      } else {
        var m;
        ghost var l', r', X, Y;
        m, ctx, l', r', X, Y := ChooseReplacement(e, ctx0, l, r);
        ctx, t := Substitute(e, m, ctx, l', r', contents, X, Y);
      }
    }

    /** PhRemoveElementAvlTree */
    method Remove(e: Ptr)
      requires Valid() && e in Contents()
      modifies this
      ensures Valid()
      ensures exists a, b :: old(Contents()) == a + [e] + b && Contents() == a + b
    {
      ghost var ctx, l, r := Place(links, shape, e, rank);
      ghost var a, b := Before(ctx) + InOrder(l), InOrder(r) + After(ctx);
      hide Sorted, InOrder, Before, After, Restful, Holds, Plug;
      ghost var t;
      ctx, t := Unlink(e, ctx, l, r, Contents());
      Closes(links, ctx, t, a + b);
      shape := Plug(ctx, t);
      count := count - 1;
    }
  }
}
