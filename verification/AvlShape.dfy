/** The shapes behind an AVL tree's links: trees of element addresses, and trees with a hole. */
module AvlShape {

  type Ptr = nat  // the address of a PH_AVL_LINKS

  const NULL: Ptr := 0
  const ROOT: Ptr := 1  // &Tree->Root, the sentinel whose Right is the real root

  datatype Tree = Leaf | Node(left: Tree, p: Ptr, right: Tree)

  /** A tree with a hole: the way up from the hole to the sentinel. */
  datatype Ctx =
    | Top
    | InLeft(up: Ctx, p: Ptr, right: Tree)   // the hole is the left child of p
    | InRight(up: Ctx, left: Tree, p: Ptr)   // the hole is the right child of p

  function Max(a: int, b: int): int { if a < b then b else a }

  function Height(t: Tree): nat {
    if t.Leaf? then 0 else 1 + Max(Height(t.left), Height(t.right))
  }

  function InOrder(t: Tree): seq<Ptr> {
    if t.Leaf? then [] else InOrder(t.left) + [t.p] + InOrder(t.right)
  }

  function Elems(t: Tree): set<Ptr> {
    if t.Leaf? then {} else Elems(t.left) + {t.p} + Elems(t.right)
  }

  /** No address occurs twice. */
  predicate Proper(t: Tree) {
    t.Node? ==>
      && Proper(t.left) && Proper(t.right)
      && t.p !in Elems(t.left) && t.p !in Elems(t.right)
      && Elems(t.left) !! Elems(t.right)
  }

  function Root(t: Tree): Ptr {
    if t.Leaf? then NULL else t.p
  }

  function HoleParent(ctx: Ctx): Ptr {
    if ctx.Top? then ROOT else ctx.p
  }

  function Plug(ctx: Ctx, t: Tree): Tree {
    match ctx
    case Top => t
    case InLeft(up, p, right) => Plug(up, Node(t, p, right))
    case InRight(up, left, p) => Plug(up, Node(left, p, t))
  }

  function Before(ctx: Ctx): seq<Ptr> {
    match ctx
    case Top => []
    case InLeft(up, _, _) => Before(up)
    case InRight(up, left, p) => Before(up) + InOrder(left) + [p]
  }

  function After(ctx: Ctx): seq<Ptr> {
    match ctx
    case Top => []
    case InLeft(up, p, right) => [p] + InOrder(right) + After(up)
    case InRight(up, _, _) => After(up)
  }

  function CtxElems(ctx: Ctx): set<Ptr> {
    match ctx
    case Top => {}
    case InLeft(up, p, right) => CtxElems(up) + {p} + Elems(right)
    case InRight(up, left, p) => CtxElems(up) + {p} + Elems(left)
  }

  predicate ProperCtx(ctx: Ctx) {
    match ctx
    case Top => true
    case InLeft(up, p, right) =>
      ProperCtx(up) && Proper(right) && p !in Elems(right) && p !in CtxElems(up) && Elems(right) !! CtxElems(up)
    case InRight(up, left, p) =>
      ProperCtx(up) && Proper(left) && p !in Elems(left) && p !in CtxElems(up) && Elems(left) !! CtxElems(up)
  }

  lemma Regroup(a: seq<Ptr>, b: seq<Ptr>, p: Ptr, c: seq<Ptr>, d: seq<Ptr>)
    ensures a + (b + [p] + c) + d == a + b + ([p] + c + d)
    ensures a + (b + [p] + c) + d == (a + b + [p]) + c + d
  {
  }

  lemma {:induction false} PlugInOrder(ctx: Ctx, t: Tree)
    ensures InOrder(Plug(ctx, t)) == Before(ctx) + InOrder(t) + After(ctx)
  {
    match ctx
    case Top =>
    case InLeft(up, p, right) =>
      PlugInOrder(up, Node(t, p, right));
      Regroup(Before(up), InOrder(t), p, InOrder(right), After(up));
    case InRight(up, left, p) =>
      PlugInOrder(up, Node(left, p, t));
      Regroup(Before(up), InOrder(left), p, InOrder(t), After(up));
  }

  lemma {:induction false} PlugElems(ctx: Ctx, t: Tree)
    ensures Elems(Plug(ctx, t)) == CtxElems(ctx) + Elems(t)
  {
    match ctx
    case Top =>
    case InLeft(up, p, right) => PlugElems(up, Node(t, p, right));
    case InRight(up, left, p) => PlugElems(up, Node(left, p, t));
  }

  lemma {:induction false} PlugProper(ctx: Ctx, t: Tree)
    ensures Proper(Plug(ctx, t)) <==> ProperCtx(ctx) && Proper(t) && CtxElems(ctx) !! Elems(t)
  {
    match ctx
    case Top =>
    case InLeft(up, p, right) => PlugProper(up, Node(t, p, right));
    case InRight(up, left, p) => PlugProper(up, Node(left, p, t));
  }

  lemma {:induction false} ElemsInOrder(t: Tree)
    ensures forall x :: x in Elems(t) <==> x in InOrder(t)
    ensures Proper(t) ==> |Elems(t)| == |InOrder(t)|
  {
    if t.Node? {
      ElemsInOrder(t.left);
      ElemsInOrder(t.right);
      if Proper(t) {
        assert |Elems(t.left) + {t.p}| == |Elems(t.left)| + 1;
        assert |Elems(t)| == |Elems(t.left)| + 1 + |Elems(t.right)|;
      }
    }
  }

  /** The place of an element. */
  lemma {:induction false} PlaceOf(up: Ctx, t: Tree, e: Ptr) returns (ctx: Ctx, l: Tree, r: Tree)
    requires e in Elems(t)
    ensures Plug(ctx, Node(l, e, r)) == Plug(up, t)
    decreases t
  {
    if e == t.p {
      ctx, l, r := up, t.left, t.right;
    } else if e in Elems(t.left) {
      ctx, l, r := PlaceOf(InLeft(up, t.p, t.right), t.left, e);
    } else {
      ctx, l, r := PlaceOf(InRight(up, t.left, t.p), t.right, e);
    }
  }

  // ---------------------------------------------------------------------------------------------
  // Height
  // ---------------------------------------------------------------------------------------------

  predicate Balanced(t: Tree) {
    t.Node? ==> Balanced(t.left) && Balanced(t.right) && -1 <= Height(t.right) - Height(t.left) <= 1
  }

  function Fib(n: nat): nat {
    if n < 2 then n else Fib(n - 2) + Fib(n - 1)
  }

  lemma {:induction false} FibMonotone(m: nat, n: nat)
    requires m <= n
    ensures Fib(m) <= Fib(n)
  {
    if m < n {
      FibMonotone(m, n - 1);
    }
  }

  /** An AVL tree of height h has at least Fib(h + 2) - 1 elements. */
  lemma {:induction false} FibonacciBound(t: Tree)
    requires Balanced(t)
    ensures |InOrder(t)| >= Fib(Height(t) + 2) - 1
  {
    if t.Node? {
      var h := Height(t);
      FibonacciBound(t.left);
      FibonacciBound(t.right);
      FibMonotone(h, Height(t.left) + 2);
      FibMonotone(h, Height(t.right) + 2);
      assert Height(t.left) == h - 1 || Height(t.right) == h - 1;
    }
  }

  lemma FibSix(n: nat)
    ensures Fib(n + 6) == 8 * Fib(n + 1) + 5 * Fib(n)
    ensures Fib(n + 7) == 13 * Fib(n + 1) + 8 * Fib(n)
  {
    assert Fib(n + 2) == Fib(n) + Fib(n + 1);
    assert Fib(n + 3) == Fib(n + 1) + Fib(n + 2);
    assert Fib(n + 4) == Fib(n + 2) + Fib(n + 3);
    assert Fib(n + 5) == Fib(n + 3) + Fib(n + 4);
    assert Fib(n + 6) == Fib(n + 4) + Fib(n + 5);
  }

  lemma Fib48()
    ensures Fib(48) == 4807526976
  {
    assert Fib(0) == 0 && Fib(1) == 1;
    hide Fib;
    FibSix(0);
    FibSix(6);
    FibSix(12);
    FibSix(18);
    FibSix(24);
    FibSix(30);
    FibSix(36);
    FibSix(42);
  }

  /** A tree with fewer than 2^32 elements has height at most 45, which leaves room on a stack of 47. */
  lemma HeightBound(t: Tree)
    requires Balanced(t) && |InOrder(t)| < 0x1_0000_0000
    ensures Height(t) <= 45
  {
    hide Fib, Height, InOrder, Balanced;
    FibonacciBound(t);
    if Height(t) >= 46 {
      FibMonotone(48, Height(t) + 2);
      Fib48();
    }
  }
}
