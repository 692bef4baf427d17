/** The memory of the elements' links, and which trees it holds. */
module AvlMemory {
  import opened AvlShape

  datatype Links = Links(parent: Ptr, left: Ptr, right: Ptr, balance: int)

  type Memory = map<Ptr, Links>

  /** The links below address Root(t) form t, and par is the parent of the topmost element. */
  ghost predicate Linked(h: Memory, t: Tree, par: Ptr) {
    t.Node? ==>
      && t.p in h && t.p != NULL && t.p != ROOT
      && h[t.p].parent == par
      && h[t.p].left == Root(t.left)
      && h[t.p].right == Root(t.right)
      && Linked(h, t.left, t.p)
      && Linked(h, t.right, t.p)
  }

  /** Every balance field is right height minus left height, and within -1, 0, 1. */
  ghost predicate Balances(h: Memory, t: Tree) {
    t.Node? ==>
      && t.p in h
      && h[t.p].balance == Height(t.right) - Height(t.left)
      && -1 <= h[t.p].balance <= 1
      && Balances(h, t.left)
      && Balances(h, t.right)
  }

  ghost predicate Sentinel(h: Memory, child: Ptr) {
    ROOT in h && h[ROOT].parent == NULL && h[ROOT].left == NULL && h[ROOT].right == child
  }

  /** The links around a hole that holds the address child. */
  ghost predicate LinkedCtx(h: Memory, ctx: Ctx, child: Ptr) {
    match ctx
    case Top => Sentinel(h, child)
    case InLeft(up, p, right) =>
      && p in h && p != NULL && p != ROOT
      && h[p].parent == HoleParent(up) && h[p].left == child && h[p].right == Root(right)
      && Linked(h, right, p) && LinkedCtx(h, up, p)
    case InRight(up, left, p) =>
      && p in h && p != NULL && p != ROOT
      && h[p].parent == HoleParent(up) && h[p].left == Root(left) && h[p].right == child
      && Linked(h, left, p) && LinkedCtx(h, up, p)
  }

  /** The balance fields around a hole are those for a tree of height n in it. */
  ghost predicate BalancesCtx(h: Memory, ctx: Ctx, n: int) {
    match ctx
    case Top => true
    case InLeft(up, p, right) =>
      && p in h && h[p].balance == Height(right) - n && -1 <= h[p].balance <= 1
      && Balances(h, right) && BalancesCtx(h, up, 1 + Max(n, Height(right)))
    case InRight(up, left, p) =>
      && p in h && h[p].balance == n - Height(left) && -1 <= h[p].balance <= 1
      && Balances(h, left) && BalancesCtx(h, up, 1 + Max(Height(left), n))
  }

  lemma {:induction false} BalancesMeansBalanced(h: Memory, t: Tree)
    requires Balances(h, t)
    ensures Balanced(t)
  {
    if t.Node? {
      BalancesMeansBalanced(h, t.left);
      BalancesMeansBalanced(h, t.right);
    }
  }

  // ---------------------------------------------------------------------------------------------
  // Filling a hole
  // ---------------------------------------------------------------------------------------------

  ghost predicate Whole(h: Memory, t: Tree) {
    Linked(h, t, ROOT) && Sentinel(h, Root(t))
  }

  lemma {:induction false} PlugLinked(h: Memory, ctx: Ctx, t: Tree)
    ensures Whole(h, Plug(ctx, t)) <==> Linked(h, t, HoleParent(ctx)) && LinkedCtx(h, ctx, Root(t))
  {
    match ctx
    case Top =>
    case InLeft(up, p, right) => PlugLinked(h, up, Node(t, p, right));
    case InRight(up, left, p) => PlugLinked(h, up, Node(left, p, t));
  }

  lemma {:induction false} PlugBalances(h: Memory, ctx: Ctx, t: Tree)
    ensures Balances(h, Plug(ctx, t)) <==> Balances(h, t) && BalancesCtx(h, ctx, Height(t))
  {
    match ctx
    case Top =>
    case InLeft(up, p, right) => PlugBalances(h, up, Node(t, p, right));
    case InRight(up, left, p) => PlugBalances(h, up, Node(left, p, t));
  }

  // ---------------------------------------------------------------------------------------------
  // What a write elsewhere leaves alone
  // ---------------------------------------------------------------------------------------------

  ghost predicate SameLinks(h: Memory, h': Memory, x: Ptr) {
    x in h ==> x in h' && h'[x].parent == h[x].parent && h'[x].left == h[x].left && h'[x].right == h[x].right
  }

  ghost predicate SameBalance(h: Memory, h': Memory, x: Ptr) {
    x in h ==> x in h' && h'[x].balance == h[x].balance
  }

  lemma {:induction false} LinkedFrame(h: Memory, h': Memory, t: Tree, par: Ptr)
    requires Linked(h, t, par) && forall x :: x in Elems(t) ==> SameLinks(h, h', x)
    ensures Linked(h', t, par)
  {
    if t.Node? {
      LinkedFrame(h, h', t.left, t.p);
      LinkedFrame(h, h', t.right, t.p);
      assert t.p in Elems(t);
    }
  }

  lemma {:induction false} BalancesFrame(h: Memory, h': Memory, t: Tree)
    requires Balances(h, t) && forall x :: x in Elems(t) ==> SameBalance(h, h', x)
    ensures Balances(h', t)
  {
    if t.Node? {
      BalancesFrame(h, h', t.left);
      BalancesFrame(h, h', t.right);
      assert t.p in Elems(t);
    }
  }

  lemma {:induction false} LinkedCtxFrame(h: Memory, h': Memory, ctx: Ctx, child: Ptr)
    requires LinkedCtx(h, ctx, child)
    requires forall x :: x in CtxElems(ctx) + {ROOT} ==> SameLinks(h, h', x)
    ensures LinkedCtx(h', ctx, child)
  {
    match ctx
    case Top =>
      assert SameLinks(h, h', ROOT);
    case InLeft(up, p, right) =>
      LinkedFrame(h, h', right, p);
      LinkedCtxFrame(h, h', up, p);
      assert SameLinks(h, h', p);
    case InRight(up, left, p) =>
      LinkedFrame(h, h', left, p);
      LinkedCtxFrame(h, h', up, p);
      assert SameLinks(h, h', p);
  }

  lemma {:induction false} BalancesCtxFrame(h: Memory, h': Memory, ctx: Ctx, n: int)
    requires BalancesCtx(h, ctx, n)
    requires forall x :: x in CtxElems(ctx) ==> SameBalance(h, h', x)
    ensures BalancesCtx(h', ctx, n)
  {
    hide Height, Max;
    match ctx
    case Top =>
    case InLeft(up, p, right) =>
      BalancesFrame(h, h', right);
      BalancesCtxFrame(h, h', up, 1 + Max(n, Height(right)));
      assert SameBalance(h, h', p);
    case InRight(up, left, p) =>
      BalancesFrame(h, h', left);
      BalancesCtxFrame(h, h', up, 1 + Max(Height(left), n));
      assert SameBalance(h, h', p);
  }

  /** A tree is moved under another parent by writing the Parent field of its topmost element. */
  lemma Reparent(h: Memory, h': Memory, t: Tree, par: Ptr, par': Ptr)
    requires Linked(h, t, par) && Proper(t)
    requires t.Node? ==> t.p in h' && h'[t.p].parent == par' && h'[t.p].left == h[t.p].left && h'[t.p].right == h[t.p].right
    requires forall x :: x in Elems(t) && x != Root(t) ==> SameLinks(h, h', x)
    ensures Linked(h', t, par')
  {
    if t.Node? {
      LinkedFrame(h, h', t.left, t.p);
      LinkedFrame(h, h', t.right, t.p);
    }
  }

  /** Neither the sentinel nor NULL is an element. */
  lemma {:induction false} ElemsAreElements(h: Memory, t: Tree, par: Ptr)
    requires Linked(h, t, par)
    ensures NULL !in Elems(t) && ROOT !in Elems(t) && forall x :: x in Elems(t) ==> x in h
  {
    if t.Node? {
      ElemsAreElements(h, t.left, t.p);
      ElemsAreElements(h, t.right, t.p);
    }
  }

  lemma {:induction false} CtxElemsAreElements(h: Memory, ctx: Ctx, child: Ptr)
    requires LinkedCtx(h, ctx, child)
    ensures NULL !in CtxElems(ctx) && ROOT !in CtxElems(ctx) && forall x :: x in CtxElems(ctx) ==> x in h
    ensures ROOT in h && HoleParent(ctx) in h && HoleParent(ctx) != NULL
    ensures HoleParent(ctx) == ROOT <==> ctx.Top?
    ensures !ctx.Top? ==> HoleParent(ctx) in CtxElems(ctx)
  {
    match ctx
    case Top =>
    case InLeft(up, p, right) =>
      ElemsAreElements(h, right, p);
      CtxElemsAreElements(h, up, p);
    case InRight(up, left, p) =>
      ElemsAreElements(h, left, p);
      CtxElemsAreElements(h, up, p);
  }

  // ---------------------------------------------------------------------------------------------
  // The field of a parent that refers to a child: ref in the source
  // ---------------------------------------------------------------------------------------------

  function Slot(h: Memory, par: Ptr, left: bool): Ptr
    requires par in h
  {
    if left then h[par].left else h[par].right
  }

  function WithSlot(n: Links, left: bool, child: Ptr): Links {
    if left then n.(left := child) else n.(right := child)
  }

  /** h' is h with the slot of the hole rewritten, as far as the surroundings of the hole go. */
  ghost predicate Refilled(h: Memory, h': Memory, ctx: Ctx, child: Ptr) {
    var par := HoleParent(ctx);
    && par in h && par in h'
    && h'[par] == WithSlot(h[par], ctx.InLeft?, child)
    && forall x :: x in CtxElems(ctx) + {ROOT} && x in h && x != par ==> x in h' && h'[x] == h[x]
  }

  lemma Refill(h: Memory, h': Memory, ctx: Ctx, child: Ptr, child': Ptr, n: int)
    requires LinkedCtx(h, ctx, child) && BalancesCtx(h, ctx, n) && ProperCtx(ctx) && Refilled(h, h', ctx, child')
    ensures LinkedCtx(h', ctx, child') && BalancesCtx(h', ctx, n)
  {
    CtxElemsAreElements(h, ctx, child);
    BalancesCtxFrame(h, h', ctx, n);
    match ctx
    case Top =>
    case InLeft(up, p, right) =>
      LinkedFrame(h, h', right, p);
      LinkedCtxFrame(h, h', up, p);
    case InRight(up, left, p) =>
      LinkedFrame(h, h', left, p);
      LinkedCtxFrame(h, h', up, p);
  }
}
