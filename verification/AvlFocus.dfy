/** A walk from a changed subtree up to the sentinel. */
module AvlFocus {
  import opened AvlShape
  import opened AvlMemory
  import opened AvlRotation

  /** The subtree t is in order; the balances around it are those for a tree of height n in its
      place; the whole holds the elements of target, in that order. */
  ghost predicate Focus(h: Memory, ctx: Ctx, t: Tree, n: int, target: seq<Ptr>) {
    && Linked(h, t, HoleParent(ctx)) && LinkedCtx(h, ctx, Root(t))
    && Balances(h, t) && BalancesCtx(h, ctx, n)
    && Proper(t) && ProperCtx(ctx) && Elems(t) !! CtxElems(ctx)
    && Before(ctx) + InOrder(t) + After(ctx) == target
  }

  /** The tree t is what memory h holds. */
  ghost predicate Holds(h: Memory, t: Tree) {
    Whole(h, t) && Balances(h, t) && Proper(t)
  }

  lemma Opened(h: Memory, ctx: Ctx, t: Tree)
    requires Holds(h, Plug(ctx, t))
    ensures Focus(h, ctx, t, Height(t), InOrder(Plug(ctx, t)))
  {
    PlugLinked(h, ctx, t);
    PlugBalances(h, ctx, t);
    PlugProper(ctx, t);
    PlugInOrder(ctx, t);
  }

  lemma Closed(h: Memory, ctx: Ctx, t: Tree, target: seq<Ptr>)
    requires Focus(h, ctx, t, Height(t), target)
    ensures Holds(h, Plug(ctx, t)) && InOrder(Plug(ctx, t)) == target
  {
    PlugLinked(h, ctx, t);
    PlugBalances(h, ctx, t);
    PlugProper(ctx, t);
    PlugInOrder(ctx, t);
  }

  // ---------------------------------------------------------------------------------------------
  // One level up
  // ---------------------------------------------------------------------------------------------

  function Around(ctx: Ctx, t: Tree): Tree
    requires !ctx.Top?
  {
    if ctx.InLeft? then Node(t, ctx.p, ctx.right) else Node(ctx.left, ctx.p, t)
  }

  function Sibling(ctx: Ctx): Tree
    requires !ctx.Top?
  {
    if ctx.InLeft? then ctx.right else ctx.left
  }

  /** The balance of the parent when the hole is filled with a tree of height n. */
  function Lean(ctx: Ctx, n: int): int
    requires !ctx.Top?
  {
    if ctx.InLeft? then Height(ctx.right) - n else n - Height(ctx.left)
  }

  function Taller(ctx: Ctx, n: int): int
    requires !ctx.Top?
  {
    1 + Max(n, Height(Sibling(ctx)))
  }

  /** What is to be read around the focus. */
  lemma Surroundings(h: Memory, ctx: Ctx, t: Tree, n: int, target: seq<Ptr>)
    requires Focus(h, ctx, t, n, target)
    ensures ROOT in h && HoleParent(ctx) in h && (HoleParent(ctx) == ROOT <==> ctx.Top?)
    ensures Slot(h, HoleParent(ctx), ctx.InLeft?) == Root(t)
    ensures t.Node? ==> t.p in h && t.p != NULL && t.p != ROOT && h[t.p].parent == HoleParent(ctx)
    ensures t.Node? ==> (h[HoleParent(ctx)].left == t.p <==> ctx.InLeft?)
    ensures !ctx.Top? ==> ctx.p in h && h[ctx.p].balance == Lean(ctx, n) && -1 <= Lean(ctx, n) <= 1
    ensures !ctx.Top? ==> h[ctx.p].parent == HoleParent(ctx.up) && ctx.p != NULL
  {
    CtxElemsAreElements(h, ctx, Root(t));
    if ctx.InRight? {
      assert ctx.left.Node? ==> ctx.left.p in Elems(ctx.left);
    }
  }

  lemma LevelInOrder(ctx: Ctx, t: Tree, t': Tree, target: seq<Ptr>)
    requires !ctx.Top? && Before(ctx) + InOrder(t) + After(ctx) == target
    requires InOrder(t') == InOrder(Around(ctx, t))
    ensures Before(ctx.up) + InOrder(t') + After(ctx.up) == target
  {
    if ctx.InLeft? {
      Regroup(Before(ctx.up), InOrder(t), ctx.p, InOrder(ctx.right), After(ctx.up));
    } else {
      Regroup(Before(ctx.up), InOrder(ctx.left), ctx.p, InOrder(t), After(ctx.up));
    }
  }

  /** Seen from one level up. */
  lemma Level(h: Memory, ctx: Ctx, t: Tree, n: int, target: seq<Ptr>)
    requires Focus(h, ctx, t, n, target) && !ctx.Top?
    ensures Hangs(h, Around(ctx, t), HoleParent(ctx.up), ctx.up.InLeft?)
    ensures LinkedCtx(h, ctx.up, ctx.p) && ProperCtx(ctx.up) && Elems(Around(ctx, t)) !! CtxElems(ctx.up)
    ensures ROOT !in Elems(Around(ctx, t))
    ensures HoleParent(ctx.up) in h && (h[HoleParent(ctx.up)].left == ctx.p <==> ctx.up.InLeft?)
    ensures BalancesCtx(h, ctx.up, Taller(ctx, n)) && Balances(h, Sibling(ctx))
    ensures ctx.p !in Elems(t) && ctx.p !in Elems(Sibling(ctx)) && ctx.p !in CtxElems(ctx.up) && ctx.p != ROOT && ctx.p in h
  {
    hide InOrder, Before, After, Height;
    CtxElemsAreElements(h, ctx, Root(t));
    CtxElemsAreElements(h, ctx.up, ctx.p);
    ElemsAreElements(h, t, ctx.p);
    if ctx.up.InRight? {
      assert ctx.up.left.Node? ==> ctx.up.left.p in Elems(ctx.up.left);
    }
  }

  /** The parent's balance is adjusted to the new height of the subtree. */
  lemma Climb(h: Memory, h': Memory, ctx: Ctx, t: Tree, n: int, target: seq<Ptr>)
    requires Focus(h, ctx, t, n, target) && !ctx.Top?
    requires ctx.p in h && h' == SetBalance(h, ctx.p, Lean(ctx, Height(t))) && -1 <= Lean(ctx, Height(t)) <= 1
    ensures Focus(h', ctx.up, Around(ctx, t), Taller(ctx, n), target)
    ensures Height(Around(ctx, t)) == Taller(ctx, Height(t))
  {
    LevelInOrder(ctx, t, Around(ctx, t), target);
    Level(h, ctx, t, n, target);
    BalanceWritten(h, ctx.p, Lean(ctx, Height(t)));
    hide Before, After, InOrder, Elems, CtxElems, ProperCtx, LinkedCtx, BalancesCtx, Linked, Proper, SameLinks, SameBalance;
    LinkedFrame(h, h', Around(ctx, t), HoleParent(ctx.up));
    LinkedCtxFrame(h, h', ctx.up, ctx.p);
    BalancesFrame(h, h', t);
    BalancesFrame(h, h', Sibling(ctx));
    BalancesCtxFrame(h, h', ctx.up, Taller(ctx, n));
  }

  lemma BalanceWritten(h: Memory, p: Ptr, b: int)
    requires p in h
    ensures forall x :: SameLinks(h, SetBalance(h, p, b), x) && (x != p ==> SameBalance(h, SetBalance(h, p, b), x))
  {
  }

  /** The subtree one level up is rebalanced. */
  lemma Rotated(h: Memory, h': Memory, ctx: Ctx, t: Tree, n: int, target: seq<Ptr>, code: int)
    requires Focus(h, ctx, t, n, target) && !ctx.Top?
    requires Unbalanced(h, Around(ctx, t))
    requires Restored(h, h', Around(ctx, t), HoleParent(ctx.up), ctx.up.InLeft?, code)
    ensures Focus(h', ctx.up, Rebalanced(Around(ctx, t)), Taller(ctx, n), target)
  {
    var t' := Rebalanced(Around(ctx, t));
    LevelInOrder(ctx, t, t', target);
    Level(h, ctx, t, n, target);
    CtxElemsAreElements(h, ctx.up, ctx.p);
    hide Before, After, InOrder, Height, Rebalanced, Proper, Linked, LinkedCtx, BalancesCtx, Balances, KeepsHeight, Unbalanced, Elems, Around, ProperCtx, CtxElems;
    Refill(h, h', ctx.up, ctx.p, Root(t'), Taller(ctx, n));
  }

  /** A new leaf in an empty place. */
  lemma Planted(h: Memory, h': Memory, ctx: Ctx, x: Ptr, target: seq<Ptr>)
    requires Focus(h, ctx, Leaf, 0, target) && x != NULL && x != ROOT && x !in CtxElems(ctx)
    requires HoleParent(ctx) in h
    requires h' == SetSlot(h, HoleParent(ctx), ctx.InLeft?, x)[x := Links(HoleParent(ctx), NULL, NULL, 0)]
    ensures Focus(h', ctx, Node(Leaf, x, Leaf), 0, Before(ctx) + [x] + After(ctx))
  {
    CtxElemsAreElements(h, ctx, NULL);
    NewLeaf(h', x, HoleParent(ctx));
    hide Before, After, InOrder, Elems, Linked, Balances, Proper, ProperCtx;
    Refill(h, h', ctx, NULL, x, 0);
  }

  lemma NewLeaf(h: Memory, x: Ptr, par: Ptr)
    requires x in h && h[x] == Links(par, NULL, NULL, 0) && x != NULL && x != ROOT
    ensures var t := Node(Leaf, x, Leaf);
      Linked(h, t, par) && Balances(h, t) && Proper(t) && Elems(t) == {x} && InOrder(t) == [x]
  {
  }

  /** Where the topmost element is. */
  lemma {:induction false} TopElement(h: Memory, ctx: Ctx, child: Ptr)
    requires LinkedCtx(h, ctx, child)
    ensures ROOT in h
    ensures if ctx.Top? then h[ROOT].right == child else h[ROOT].right in CtxElems(ctx)
  {
    if !ctx.Top? {
      TopElement(h, ctx.up, ctx.p);
    }
  }

  function Side(ctx: Ctx): int {
    if ctx.InLeft? then -1 else 1
  }

  /** The subtree has become one higher, and is not even unless it is a new leaf. */
  ghost predicate Growing(h: Memory, ctx: Ctx, t: Tree, target: seq<Ptr>) {
    && Focus(h, ctx, t, Height(t) - 1, target)
    && t.Node? && t.p in h && (Height(t) == 1 || h[t.p].balance != 0)
  }

  /** The whole tree is in order, but for what Plug of the focus is called. */
  ghost predicate Restful(h: Memory, ctx: Ctx, t: Tree, target: seq<Ptr>) {
    Focus(h, ctx, t, Height(t), target)
  }

  lemma GrowingSurroundings(h: Memory, ctx: Ctx, t: Tree, target: seq<Ptr>)
    requires Growing(h, ctx, t, target)
    ensures t.Node? && t.p in h && ROOT in h && HoleParent(ctx) in h
    ensures h[t.p].parent == HoleParent(ctx) && (h[HoleParent(ctx)].left == t.p <==> ctx.InLeft?)
    ensures h[ROOT].right == t.p <==> ctx.Top?
    ensures ctx.Top? ==> Restful(h, ctx, t, target)
    ensures !ctx.Top? ==> ctx.p != ROOT && h[ctx.p].parent == HoleParent(ctx.up)
    ensures !ctx.Top? ==> h[ctx.p].balance in {-1, 0, 1}
    ensures !ctx.Top? ==> HoleParent(ctx.up) in h && (h[HoleParent(ctx.up)].left == ctx.p <==> ctx.up.InLeft?)
  {
    Surroundings(h, ctx, t, Height(t) - 1, target);
    TopElement(h, ctx, t.p);
    if !ctx.Top? {
      Level(h, ctx, t, Height(t) - 1, target);
    }
  }

  /** The parent is even over a subtree of height n if and only if it leans to one that is one higher. */
  lemma LeanMeans(ctx: Ctx, n: int, m: int)
    requires !ctx.Top? && m == n + 1
    ensures Lean(ctx, n) == 0 <==> Lean(ctx, m) == Side(ctx)
    ensures Lean(ctx, n) == 0 ==> Taller(ctx, m) == Taller(ctx, n) + 1
    ensures Side(ctx) != 0 && -1 <= Side(ctx) <= 1
  {
  }

  /** The parent was even: it leans to the subtree now, and has grown too. */
  lemma GrowsOn(h: Memory, ctx: Ctx, t: Tree, target: seq<Ptr>)
    requires Growing(h, ctx, t, target) && !ctx.Top? && ctx.p in h && h[ctx.p].balance == 0
    ensures Growing(SetBalance(h, ctx.p, Side(ctx)), ctx.up, Around(ctx, t), target)
  {
    Surroundings(h, ctx, t, Height(t) - 1, target);
    LeanMeans(ctx, Height(t) - 1, Height(t));
    hide Focus, Lean, Taller, Height;
    Climb(h, SetBalance(h, ctx.p, Side(ctx)), ctx, t, Height(t) - 1, target);
  }

  /** The parent leant the other way: it is even now, and as high as before. */
  lemma GrowsEven(h: Memory, ctx: Ctx, t: Tree, target: seq<Ptr>)
    requires Growing(h, ctx, t, target) && !ctx.Top? && ctx.p in h && h[ctx.p].balance == -Side(ctx)
    ensures Restful(SetBalance(h, ctx.p, 0), ctx.up, Around(ctx, t), target)
  {
    Surroundings(h, ctx, t, Height(t) - 1, target);
    Climb(h, SetBalance(h, ctx.p, 0), ctx, t, Height(t) - 1, target);
  }

  /** The parent leant to the subtree already. */
  lemma GrowsTooFar(h: Memory, ctx: Ctx, t: Tree, target: seq<Ptr>)
    requires Growing(h, ctx, t, target) && !ctx.Top? && ctx.p in h && h[ctx.p].balance == Side(ctx)
    ensures Hangs(h, Around(ctx, t), HoleParent(ctx.up), ctx.up.InLeft?) && Unbalanced(h, Around(ctx, t))
  {
    Surroundings(h, ctx, t, Height(t) - 1, target);
    Level(h, ctx, t, Height(t) - 1, target);
  }

  lemma Uneven(h: Memory, t: Tree)
    requires Unbalanced(h, t)
    ensures t.Node? && Height(t.left) != Height(t.right)
  {
  }

  lemma GrowsTurned(h: Memory, h': Memory, ctx: Ctx, t: Tree, target: seq<Ptr>, code: int)
    requires Growing(h, ctx, t, target) && !ctx.Top? && ctx.p in h && h[ctx.p].balance == Side(ctx)
    requires Unbalanced(h, Around(ctx, t))
    requires Restored(h, h', Around(ctx, t), HoleParent(ctx.up), ctx.up.InLeft?, code)
    ensures Restful(h', ctx.up, Rebalanced(Around(ctx, t)), target)
  {
    Uneven(h, Around(ctx, t));
    hide *;
    GrowHeights(h, ctx, t, target);
    FocusOf(h, ctx, t, target);
    RestoredMeans(h, h', Around(ctx, t), HoleParent(ctx.up), ctx.up.InLeft?, code);
    Rotated(h, h', ctx, t, Height(t) - 1, target, code);
    FocusMeans(h', ctx.up, Rebalanced(Around(ctx, t)), Taller(ctx, Height(t) - 1), target);
  }

  lemma GrowHeights(h: Memory, ctx: Ctx, t: Tree, target: seq<Ptr>)
    requires Growing(h, ctx, t, target) && !ctx.Top? && ctx.p in h && h[ctx.p].balance == Side(ctx)
    requires Unbalanced(h, Around(ctx, t))
    ensures Taller(ctx, Height(t) - 1) == Height(Around(ctx, t)) - 1 && !KeepsHeight(Around(ctx, t))
  {
    Surroundings(h, ctx, t, Height(t) - 1, target);
  }

  lemma ElemsOfCtx(ctx: Ctx)
    ensures forall x :: x in CtxElems(ctx) <==> x in Before(ctx) + After(ctx)
  {
    PlugElems(ctx, Leaf);
    PlugInOrder(ctx, Leaf);
    ElemsInOrder(Plug(ctx, Leaf));
  }

  // ---------------------------------------------------------------------------------------------
  // A subtree that has become one lower
  // ---------------------------------------------------------------------------------------------

  ghost predicate Shrinking(h: Memory, ctx: Ctx, t: Tree, target: seq<Ptr>) {
    Focus(h, ctx, t, Height(t) + 1, target)
  }

  lemma ShrinkingSurroundings(h: Memory, ctx: Ctx, t: Tree, target: seq<Ptr>)
    requires Shrinking(h, ctx, t, target)
    ensures HoleParent(ctx) in h && (HoleParent(ctx) == ROOT <==> ctx.Top?)
    ensures ctx.Top? ==> Restful(h, ctx, t, target)
    ensures t.Node? ==> t.p in h && h[t.p].parent == HoleParent(ctx) && (h[HoleParent(ctx)].left == t.p <==> ctx.InLeft?)
    ensures !ctx.Top? ==> ctx.p in h && h[ctx.p].parent == HoleParent(ctx.up) && h[ctx.p].balance in {-1, 0, 1}
    ensures !ctx.Top? ==> HoleParent(ctx.up) in h && (h[HoleParent(ctx.up)].left == ctx.p <==> ctx.up.InLeft?)
  {
    Surroundings(h, ctx, t, Height(t) + 1, target);
    if !ctx.Top? {
      Level(h, ctx, t, Height(t) + 1, target);
    }
  }

  /** The parent leant to the subtree: it is even now, and one lower too. */
  lemma ShrinksOn(h: Memory, ctx: Ctx, t: Tree, target: seq<Ptr>)
    requires Shrinking(h, ctx, t, target) && !ctx.Top? && ctx.p in h && h[ctx.p].balance == Side(ctx)
    ensures Shrinking(SetBalance(h, ctx.p, 0), ctx.up, Around(ctx, t), target)
  {
    Surroundings(h, ctx, t, Height(t) + 1, target);
    LeanMeans(ctx, Height(t), Height(t) + 1);
    hide Focus, Lean, Taller, Height, Side;
    Climb(h, SetBalance(h, ctx.p, 0), ctx, t, Height(t) + 1, target);
  }

  /** The parent was even: it leans away now, and is as high as before. */
  lemma ShrinksAway(h: Memory, ctx: Ctx, t: Tree, target: seq<Ptr>)
    requires Shrinking(h, ctx, t, target) && !ctx.Top? && ctx.p in h && h[ctx.p].balance == 0
    ensures Restful(SetBalance(h, ctx.p, -Side(ctx)), ctx.up, Around(ctx, t), target)
  {
    Surroundings(h, ctx, t, Height(t) + 1, target);
    Climb(h, SetBalance(h, ctx.p, -Side(ctx)), ctx, t, Height(t) + 1, target);
  }

  /** The parent leant away already. */
  lemma ShrinksTooFar(h: Memory, ctx: Ctx, t: Tree, target: seq<Ptr>)
    requires Shrinking(h, ctx, t, target) && !ctx.Top? && ctx.p in h && h[ctx.p].balance == -Side(ctx)
    ensures Hangs(h, Around(ctx, t), HoleParent(ctx.up), ctx.up.InLeft?) && Unbalanced(h, Around(ctx, t))
  {
    Surroundings(h, ctx, t, Height(t) + 1, target);
    Level(h, ctx, t, Height(t) + 1, target);
  }

  lemma ShrinksTurned(h: Memory, h': Memory, ctx: Ctx, t: Tree, target: seq<Ptr>, code: int)
    requires Shrinking(h, ctx, t, target) && !ctx.Top? && ctx.p in h && h[ctx.p].balance == -Side(ctx)
    requires Unbalanced(h, Around(ctx, t))
    requires Restored(h, h', Around(ctx, t), HoleParent(ctx.up), ctx.up.InLeft?, code)
    ensures var t' := Rebalanced(Around(ctx, t));
      if code == 3 then Restful(h', ctx.up, t', target) else Shrinking(h', ctx.up, t', target)
  {
    Uneven(h, Around(ctx, t));
    hide *;
    ShrinkHeights(h, ctx, t, target);
    FocusOf(h, ctx, t, target);
    RestoredMeans(h, h', Around(ctx, t), HoleParent(ctx.up), ctx.up.InLeft?, code);
    Rotated(h, h', ctx, t, Height(t) + 1, target, code);
    FocusMeans(h', ctx.up, Rebalanced(Around(ctx, t)), Taller(ctx, Height(t) + 1), target);
  }

  lemma FocusOf(h: Memory, ctx: Ctx, t: Tree, target: seq<Ptr>)
    ensures Shrinking(h, ctx, t, target) ==> Focus(h, ctx, t, Height(t) + 1, target)
    ensures Growing(h, ctx, t, target) ==> Focus(h, ctx, t, Height(t) - 1, target)
  {
  }

  lemma FocusMeans(h: Memory, ctx: Ctx, t: Tree, n: int, target: seq<Ptr>)
    requires Focus(h, ctx, t, n, target)
    ensures n == Height(t) ==> Restful(h, ctx, t, target)
    ensures n == Height(t) + 1 ==> Shrinking(h, ctx, t, target)
  {
  }

  lemma ShrinkHeights(h: Memory, ctx: Ctx, t: Tree, target: seq<Ptr>)
    requires Shrinking(h, ctx, t, target) && !ctx.Top? && ctx.p in h && h[ctx.p].balance == -Side(ctx)
    ensures Taller(ctx, Height(t) + 1) == Height(Around(ctx, t))
    ensures Around(ctx, t).Node? && Around(ctx, t).p == ctx.p
  {
    Surroundings(h, ctx, t, Height(t) + 1, target);
  }

  lemma RestoredMeans(h: Memory, h': Memory, t: Tree, par: Ptr, left: bool, code: int)
    requires Unbalanced(h, t) && Restored(h, h', t, par, left, code)
    ensures Height(Rebalanced(t)) == Height(t) - (if code == 3 then 0 else 1) && (code == 3 <==> KeepsHeight(t))
    ensures t.p in h' && h'[t.p].parent == Root(Rebalanced(t)) && Rebalanced(t).Node?
  {
  }

  /** What is to be read around an element. */
  lemma RestfulSurroundings(h: Memory, ctx: Ctx, l: Tree, e: Ptr, r: Tree, target: seq<Ptr>)
    requires Restful(h, ctx, Node(l, e, r), target)
    ensures var par := HoleParent(ctx);
      && e in h && par in h && par != e && e != NULL && e != ROOT && h[e].parent == par
      && (h[par].left == e <==> ctx.InLeft?)
      && h[e].left == Root(l) && h[e].right == Root(r)
      && -1 <= h[e].balance <= 1
      && (l.Node? ==> l.p in h && l.p != NULL && l.p != par && l.p != e)
      && (r.Node? ==> r.p in h && r.p != NULL && r.p != par && r.p != e)
      && (l.Node? && r.Node? ==> l.p != r.p)
  {
    Surroundings(h, ctx, Node(l, e, r), Height(Node(l, e, r)), target);
    FocusApart(h, ctx, Node(l, e, r), Height(Node(l, e, r)), target);
    assert Linked(h, l, e) && Linked(h, r, e);
  }

  /** h' is h after an element m with at most one child gave its place to that child. */
  ghost predicate Bypassed(h: Memory, h': Memory, ctx: Ctx, l: Tree, r: Tree) {
    var c := if r.Leaf? then l else r;
    var par := HoleParent(ctx);
    && par in h && par in h' && h'[par] == WithSlot(h[par], ctx.InLeft?, Root(c))
    && Moved(h, h', c, par)
    && forall x :: x in h && x != par && !(c.Node? && x == c.p) ==> x in h' && h'[x] == h[x]
  }

  lemma Unlinked(h: Memory, h': Memory, ctx: Ctx, l: Tree, m: Ptr, r: Tree, target: seq<Ptr>)
    requires Restful(h, ctx, Node(l, m, r), target) && (l.Leaf? || r.Leaf?)
    requires Bypassed(h, h', ctx, l, r)
    ensures Shrinking(h', ctx, if r.Leaf? then l else r, Before(ctx) + (InOrder(l) + InOrder(r)) + After(ctx))
  {
    hide InOrder, Before, After, Height, Elems, CtxElems, Proper, ProperCtx, Linked, LinkedCtx, Balances, BalancesCtx;
    var c, t, par := if r.Leaf? then l else r, Node(l, m, r), HoleParent(ctx);
    FocusApart(h, ctx, t, Height(t), target);
    OnlyChild(h, l, m, r, par);
    Reparent(h, h', c, m, par);
    BalancesFrame(h, h', c);
    Refill(h, h', ctx, m, Root(c), Height(t));
  }

  lemma FocusApart(h: Memory, ctx: Ctx, t: Tree, n: int, target: seq<Ptr>)
    requires Focus(h, ctx, t, n, target)
    ensures HoleParent(ctx) in h && HoleParent(ctx) in CtxElems(ctx) + {ROOT}
    ensures HoleParent(ctx) !in Elems(t) && ROOT !in Elems(t) && ROOT !in CtxElems(ctx) && NULL !in CtxElems(ctx)
  {
    CtxElemsAreElements(h, ctx, Root(t));
    ElemsAreElements(h, t, HoleParent(ctx));
  }

  lemma OnlyChild(h: Memory, l: Tree, m: Ptr, r: Tree, par: Ptr)
    requires Linked(h, Node(l, m, r), par) && Balances(h, Node(l, m, r)) && Proper(Node(l, m, r)) && (l.Leaf? || r.Leaf?)
    ensures var c := if r.Leaf? then l else r;
      && Linked(h, c, m) && Balances(h, c) && Proper(c) && Elems(c) <= Elems(Node(l, m, r))
      && Height(Node(l, m, r)) == Height(c) + 1
      && (c.Node? ==> c.p in Elems(c)) && InOrder(l) + InOrder(r) == InOrder(c)
  {
  }

  // ---------------------------------------------------------------------------------------------
  // One element takes the place of another
  // ---------------------------------------------------------------------------------------------

  /** h' is h after m took over the links and the balance of e. */
  ghost predicate TakenOver(h: Memory, h': Memory, ctx: Ctx, l: Tree, e: Ptr, r: Tree, m: Ptr) {
    var par := HoleParent(ctx);
    && e in h && m in h' && h'[m] == h[e]
    && par in h && par in h' && h'[par] == WithSlot(h[par], ctx.InLeft?, m)
    && Moved(h, h', l, m) && Moved(h, h', r, m)
    && forall x :: x in h && x != par && x != m && !(l.Node? && x == l.p) && !(r.Node? && x == r.p) ==>
         x in h' && h'[x] == h[x]
  }

  lemma Renamed(h: Memory, h': Memory, ctx: Ctx, l: Tree, e: Ptr, r: Tree, m: Ptr, target: seq<Ptr>)
    requires Restful(h, ctx, Node(l, e, r), target) && TakenOver(h, h', ctx, l, e, r, m)
    requires m != NULL && m != ROOT && m !in Elems(Node(l, e, r)) && m !in CtxElems(ctx)
    ensures Restful(h', ctx, Node(l, m, r), Before(ctx) + InOrder(Node(l, m, r)) + After(ctx))
  {
    hide InOrder, Before, After, Height, Elems, CtxElems, Proper, ProperCtx, Linked, LinkedCtx, Balances, BalancesCtx;
    var t := Node(l, e, r);
    FocusApart(h, ctx, t, Height(t), target);
    SameShape(l, e, r, m);
    TakesOver(h, h', ctx, l, e, r, m);
    Refill(h, h', ctx, e, m, Height(t));
  }

  lemma SameShape(l: Tree, e: Ptr, r: Tree, m: Ptr)
    requires Proper(Node(l, e, r)) && m !in Elems(Node(l, e, r))
    ensures Proper(Node(l, m, r)) && Height(Node(l, m, r)) == Height(Node(l, e, r))
    ensures Elems(Node(l, m, r)) == Elems(l) + {m} + Elems(r) && Elems(Node(l, e, r)) == Elems(l) + {e} + Elems(r)
    ensures Proper(l) && Proper(r) && Elems(l) !! Elems(r)
    ensures (l.Node? ==> l.p in Elems(l)) && (r.Node? ==> r.p in Elems(r))
  {
  }

  lemma TakesOver(h: Memory, h': Memory, ctx: Ctx, l: Tree, e: Ptr, r: Tree, m: Ptr)
    requires TakenOver(h, h', ctx, l, e, r, m) && m != NULL && m != ROOT
    requires m !in Elems(l) + Elems(r) && HoleParent(ctx) !in Elems(l) + Elems(r) && HoleParent(ctx) != m
    requires Elems(l) !! Elems(r) && Proper(l) && Proper(r)
    requires Linked(h, Node(l, e, r), HoleParent(ctx)) && Balances(h, Node(l, e, r))
    ensures Linked(h', Node(l, m, r), HoleParent(ctx)) && Balances(h', Node(l, m, r))
  {
    assert (l.Node? ==> l.p in Elems(l)) && (r.Node? ==> r.p in Elems(r));
    Reparent(h, h', l, e, m);
    Reparent(h, h', r, e, m);
    BalancesFrame(h, h', l);
    BalancesFrame(h, h', r);
  }
}
