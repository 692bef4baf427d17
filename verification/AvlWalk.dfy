/** Searching, stepping and enumeration (phlib/avltree.c). */
module AvlWalk {
  import opened AvlShape
  import opened AvlMemory
  import opened AvlFocus
  import opened AvlOrder
  import opened AvlTree

  // ---------------------------------------------------------------------------------------------
  // Bounds
  // ---------------------------------------------------------------------------------------------

  /** a, b divides the elements into those below x and the others; with strict false, those equal
      to x are below. */
  ghost predicate Divides(tree: AvlTree, x: Ptr, equalBelow: bool, a: seq<Ptr>, b: seq<Ptr>)
    reads tree
  {
    && tree.Contents() == a + b
    && Below(a, if equalBelow then tree.rank(x) + 1 else tree.rank(x), tree.rank)
    && Above(b, if equalBelow then tree.rank(x) else tree.rank(x) - 1, tree.rank)
  }

  function First(s: seq<Ptr>): Ptr { if s == [] then NULL else s[0] }
  function Last(s: seq<Ptr>): Ptr { if s == [] then NULL else s[|s| - 1] }

  /** A step down to the right, or to the left. */
  lemma Divide(ctx: Ctx, t: Tree, k: int, rank: Ranking)
    requires Sorted(InOrder(Plug(ctx, t)), rank) && t.Node?
    requires Below(Before(ctx), k, rank) && Above(After(ctx), k - 1, rank)
    ensures rank(t.p) < k ==> Below(Before(InRight(ctx, t.left, t.p)), k, rank)
    ensures rank(t.p) >= k ==> Above(After(InLeft(ctx, t.p, t.right)), k - 1, rank)
    ensures First(After(InLeft(ctx, t.p, t.right))) == t.p && Last(Before(InRight(ctx, t.left, t.p))) == t.p
  {
    Regrouped(ctx, t.left, t.p, t.right);
    SortedSplit(Before(ctx) + InOrder(t.left), t.p, InOrder(t.right) + After(ctx), rank);
  }

  /** What is to be read at the top of a subtree. */
  lemma Reads(h: Memory, ctx: Ctx, t: Tree)
    requires Holds(h, Plug(ctx, t))
    ensures ROOT in h && (ctx.Top? ==> h[ROOT].right == Root(t))
    ensures t.Node? ==> t.p in h && t.p != NULL && h[t.p].left == Root(t.left) && h[t.p].right == Root(t.right)
    ensures t.Node? ==> (t.left.Node? ==> t.left.p != NULL) && (t.right.Node? ==> t.right.p != NULL)
  {
    PlugLinked(h, ctx, t);
    CtxElemsAreElements(h, ctx, Root(t));
    assert t.Node? ==> Linked(h, t.left, t.p) && Linked(h, t.right, t.p);
  }

  /** PhLowerBoundElementAvlTree: the first element that is not less than x. */
  method LowerBound(tree: AvlTree, x: Ptr) returns (closest: Ptr, ghost a: seq<Ptr>, ghost b: seq<Ptr>)
    requires tree.Valid()
    ensures Divides(tree, x, false, a, b) && closest == First(b)
  {
    ghost var ctx, t, k := Top, tree.shape, tree.rank(x);
    Reads(tree.links, ctx, t);
    var p := tree.links[ROOT].right;
    closest := NULL;
    while p != NULL
      invariant tree.shape == Plug(ctx, t) && p == Root(t) && closest == First(After(ctx))
      invariant Below(Before(ctx), k, tree.rank) && Above(After(ctx), k - 1, tree.rank)
      decreases t
    {
      Reads(tree.links, ctx, t);
      Divide(ctx, t, k, tree.rank);
      if tree.Compare(x, p) > 0 {
        p := tree.links[p].right;
        ctx, t := InRight(ctx, t.left, t.p), t.right;
      } else {
        closest := p;
        p := tree.links[p].left;
        ctx, t := InLeft(ctx, t.p, t.right), t.left;
      }
    }
    Reads(tree.links, ctx, t);
    PlugInOrder(ctx, t);
    a, b := Before(ctx), After(ctx);
  }

  /** PhUpperBoundElementAvlTree: the first element that is greater than x. */
  method UpperBound(tree: AvlTree, x: Ptr) returns (closest: Ptr, ghost a: seq<Ptr>, ghost b: seq<Ptr>)
    requires tree.Valid()
    ensures Divides(tree, x, true, a, b) && closest == First(b)
  {
    ghost var ctx, t, k := Top, tree.shape, tree.rank(x) + 1;
    Reads(tree.links, ctx, t);
    var p := tree.links[ROOT].right;
    closest := NULL;
    while p != NULL
      invariant tree.shape == Plug(ctx, t) && p == Root(t) && closest == First(After(ctx))
      invariant Below(Before(ctx), k, tree.rank) && Above(After(ctx), k - 1, tree.rank)
      decreases t
    {
      Reads(tree.links, ctx, t);
      Divide(ctx, t, k, tree.rank);
      if tree.Compare(x, p) >= 0 {
        p := tree.links[p].right;
        ctx, t := InRight(ctx, t.left, t.p), t.right;
      } else {
        closest := p;
        p := tree.links[p].left;
        ctx, t := InLeft(ctx, t.p, t.right), t.left;
      }
    }
    Reads(tree.links, ctx, t);
    PlugInOrder(ctx, t);
    a, b := Before(ctx), After(ctx);
  }

  /** PhLowerDualBoundElementAvlTree: the last element that is less than x. */
  method LowerDualBound(tree: AvlTree, x: Ptr) returns (closest: Ptr, ghost a: seq<Ptr>, ghost b: seq<Ptr>)
    requires tree.Valid()
    ensures Divides(tree, x, false, a, b) && closest == Last(a)
  {
    ghost var ctx, t, k := Top, tree.shape, tree.rank(x);
    Reads(tree.links, ctx, t);
    var p := tree.links[ROOT].right;
    closest := NULL;
    while p != NULL
      invariant tree.shape == Plug(ctx, t) && p == Root(t) && closest == Last(Before(ctx))
      invariant Below(Before(ctx), k, tree.rank) && Above(After(ctx), k - 1, tree.rank)
      decreases t
    {
      Reads(tree.links, ctx, t);
      Divide(ctx, t, k, tree.rank);
      if tree.Compare(x, p) > 0 {
        closest := p;
        p := tree.links[p].right;
        ctx, t := InRight(ctx, t.left, t.p), t.right;
      } else {
        p := tree.links[p].left;
        ctx, t := InLeft(ctx, t.p, t.right), t.left;
      }
    }
    Reads(tree.links, ctx, t);
    PlugInOrder(ctx, t);
    a, b := Before(ctx), After(ctx);
  }

  /** PhUpperDualBoundElementAvlTree: the last element that is not greater than x. */
  method UpperDualBound(tree: AvlTree, x: Ptr) returns (closest: Ptr, ghost a: seq<Ptr>, ghost b: seq<Ptr>)
    requires tree.Valid()
    ensures Divides(tree, x, true, a, b) && closest == Last(a)
  {
    ghost var ctx, t, k := Top, tree.shape, tree.rank(x) + 1;
    Reads(tree.links, ctx, t);
    var p := tree.links[ROOT].right;
    closest := NULL;
    while p != NULL
      invariant tree.shape == Plug(ctx, t) && p == Root(t) && closest == Last(Before(ctx))
      invariant Below(Before(ctx), k, tree.rank) && Above(After(ctx), k - 1, tree.rank)
      decreases t
    {
      Reads(tree.links, ctx, t);
      Divide(ctx, t, k, tree.rank);
      if tree.Compare(x, p) >= 0 {
        closest := p;
        p := tree.links[p].right;
        ctx, t := InRight(ctx, t.left, t.p), t.right;
      } else {
        p := tree.links[p].left;
        ctx, t := InLeft(ctx, t.p, t.right), t.left;
      }
    }
    Reads(tree.links, ctx, t);
    PlugInOrder(ctx, t);
    a, b := Before(ctx), After(ctx);
  }

  // ---------------------------------------------------------------------------------------------
  // The next and the previous element
  // ---------------------------------------------------------------------------------------------

  /** What is to be read above a subtree. */
  lemma ReadsUp(h: Memory, ctx: Ctx, t: Tree)
    requires Holds(h, Plug(ctx, t)) && t.Node?
    ensures ROOT in h && h[ROOT].parent == NULL && h[ROOT].left == NULL
    ensures t.p in h && t.p != NULL && t.p != ROOT && h[t.p].parent == HoleParent(ctx)
    ensures HoleParent(ctx) in h && HoleParent(ctx) != NULL && (HoleParent(ctx) == ROOT <==> ctx.Top?)
    ensures h[HoleParent(ctx)].left == t.p <==> ctx.InLeft?
    ensures h[HoleParent(ctx)].right == t.p <==> !ctx.InLeft?
    ensures !ctx.Top? ==> h[ctx.p].parent == HoleParent(ctx.up) && h[ctx.p].parent != NULL && h[ctx.p].parent in h
  {
    Opened(h, ctx, t);
    Surroundings(h, ctx, t, Height(t), InOrder(Plug(ctx, t)));
    if ctx.InLeft? {
      assert ctx.right.Node? ==> ctx.right.p in Elems(ctx.right);
    }
    if !ctx.Top? {
      CtxElemsAreElements(h, ctx.up, ctx.p);
    }
  }

  /** PhSuccessorElementAvlTree */
  method Successor(tree: AvlTree, e: Ptr) returns (next: Ptr, ghost a: seq<Ptr>, ghost b: seq<Ptr>)
    requires tree.Valid() && e in tree.Contents()
    ensures tree.Contents() == a + [e] + b && next == First(b)
  {
    ghost var ctx, l, r := Place(tree.links, tree.shape, e, tree.rank);
    ghost var t := Node(l, e, r);
    a, b := Before(ctx) + InOrder(l), InOrder(r) + After(ctx);
    Reads(tree.links, ctx, t);
    ReadsUp(tree.links, ctx, t);
    hide Holds, Sorted;
    if tree.links[e].right != NULL {
      next := tree.links[e].right;
      ctx, t := InRight(ctx, l, e), r;
      Reads(tree.links, ctx, t);
      while tree.links[next].left != NULL
        invariant tree.shape == Plug(ctx, t) && t.Node? && next == t.p && InOrder(t) + After(ctx) == b
        invariant next in tree.links && tree.links[next].left == Root(t.left)
        decreases t
      {
        next := tree.links[next].left;
        Down(ctx, t);
        Reads(tree.links, ctx, t);
        ctx, t := InLeft(ctx, t.p, t.right), t.left;
        Reads(tree.links, ctx, t);
      }
      Reads(tree.links, ctx, t);
      assert InOrder(t)[0] == t.p;
    } else {
      next := NextAbove(tree, ctx, t, e);
    }
  }

  /** Trace back to the next vertical level; the sentinel ends the walk because its Right is the root. */
  method NextAbove(tree: AvlTree, ghost ctx0: Ctx, ghost t0: Tree, e: Ptr) returns (next: Ptr)
    requires tree.Valid() && tree.shape == Plug(ctx0, t0) && t0.Node? && e == t0.p
    ensures next == First(After(ctx0))
  {
    ghost var ctx, t := ctx0, t0;
    ReadsUp(tree.links, ctx, t);
    hide Holds, Sorted;
    var element := e;
    next := tree.links[e].parent;
    while next != NULL && tree.links[next].right == element
      invariant next != NULL ==>
        tree.shape == Plug(ctx, t) && t.Node? && element == t.p && next == HoleParent(ctx) && next in tree.links
        && After(ctx) == After(ctx0)
      invariant next == NULL ==> After(ctx0) == []
      decreases ctx, next != NULL
    {
      ReadsUp(tree.links, ctx, t);
      element := next;
      next := tree.links[next].parent;
      if !ctx.Top? {
        ctx, t := ctx.up, Node(ctx.left, ctx.p, t);
      }
    }
    if next != NULL {
      ReadsUp(tree.links, ctx, t);
    }
  }

  lemma Down(ctx: Ctx, t: Tree)
    requires t.Node?
    ensures InOrder(t.left) + After(InLeft(ctx, t.p, t.right)) == InOrder(t) + After(ctx)
    ensures Before(InRight(ctx, t.left, t.p)) + InOrder(t.right) == Before(ctx) + InOrder(t)
  {
  }

  /** PhPredecessorElementAvlTree */
  method Predecessor(tree: AvlTree, e: Ptr) returns (previous: Ptr, ghost a: seq<Ptr>, ghost b: seq<Ptr>)
    requires tree.Valid() && e in tree.Contents()
    ensures tree.Contents() == a + [e] + b && previous == Last(a)
  {
    ghost var ctx, l, r := Place(tree.links, tree.shape, e, tree.rank);
    ghost var t := Node(l, e, r);
    a, b := Before(ctx) + InOrder(l), InOrder(r) + After(ctx);
    Reads(tree.links, ctx, t);
    ReadsUp(tree.links, ctx, t);
    hide Holds, Sorted;
    if tree.links[e].left != NULL {
      previous := tree.links[e].left;
      ctx, t := InLeft(ctx, e, r), l;
      Reads(tree.links, ctx, t);
      while tree.links[previous].right != NULL
        invariant tree.shape == Plug(ctx, t) && t.Node? && previous == t.p && Before(ctx) + InOrder(t) == a
        invariant previous in tree.links && tree.links[previous].right == Root(t.right)
        decreases t
      {
        previous := tree.links[previous].right;
        Down(ctx, t);
        Reads(tree.links, ctx, t);
        ctx, t := InRight(ctx, t.left, t.p), t.right;
        Reads(tree.links, ctx, t);
      }
      Reads(tree.links, ctx, t);
      assert InOrder(t)[|InOrder(t)| - 1] == t.p;
    } else {
      var element := e;
      previous := tree.links[e].parent;
      assert Before(ctx) == a;
      while previous != NULL && tree.links[previous].left == element
        invariant tree.shape == Plug(ctx, t) && t.Node? && element == t.p
        invariant previous == HoleParent(ctx) && previous != NULL && previous in tree.links
        invariant Before(ctx) == a
        decreases ctx
      {
        ReadsUp(tree.links, ctx, t);
        element := previous;
        previous := tree.links[previous].parent;
        ctx, t := ctx.up, Node(t, ctx.p, ctx.right);
        ReadsUp(tree.links, ctx, t);
      }
      ReadsUp(tree.links, ctx, t);
      if previous != NULL {
        if tree.links[previous].parent == NULL {
          previous := NULL;
        }
      }
    }
  }
}
