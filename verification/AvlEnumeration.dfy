/** Enumeration with an explicit stack of 47 entries (phlib/avltree.c). */
module AvlEnumeration {
  import opened Sequences
  import opened AvlShape
  import opened AvlMemory
  import opened AvlFocus
  import opened AvlTree
  import AvlWalk

  const STACK_SIZE: nat := 47

  /** The side visited first, and the one visited last. */
  function Near(t: Tree, reverse: bool): Tree
    requires t.Node?
  {
    if reverse then t.right else t.left
  }

  function Far(t: Tree, reverse: bool): Tree
    requires t.Node?
  {
    if reverse then t.left else t.right
  }

  function Order(t: Tree, reverse: bool): seq<Ptr> {
    if t.Leaf? then [] else Order(Near(t, reverse), reverse) + [t.p] + Order(Far(t, reverse), reverse)
  }

  lemma ReversedAround(a: seq<Ptr>, p: Ptr, b: seq<Ptr>)
    ensures Reversed(a + [p] + b) == Reversed(b) + [p] + Reversed(a)
  {
    ReversedConcat(a + [p], b);
    ReversedConcat(a, [p]);
    assert Reversed([p]) == [p];
    hide Reversed;
    Associate(Reversed(b), [p], Reversed(a));
  }

  /** TreeEnumerateInOrder and TreeEnumerateInReverseOrder. */
  lemma {:induction false} OrderOfTree(t: Tree)
    ensures Order(t, false) == InOrder(t)
    ensures Order(t, true) == Reversed(InOrder(t))
  {
    if t.Node? {
      OrderOfTree(t.left);
      OrderOfTree(t.right);
      ReversedAround(InOrder(t.left), t.p, InOrder(t.right));
      hide Reversed;
    }
  }

  // ---------------------------------------------------------------------------------------------
  // What is on the stack, what has been visited and what has not
  // ---------------------------------------------------------------------------------------------

  predicate OnNearSide(ctx: Ctx, reverse: bool) {
    if reverse then ctx.InRight? else ctx.InLeft?
  }

  function Stacked(ctx: Ctx, reverse: bool): seq<Ptr> {
    if ctx.Top? then [] else Stacked(ctx.up, reverse) + (if OnNearSide(ctx, reverse) then [ctx.p] else [])
  }

  function Done(ctx: Ctx, reverse: bool): seq<Ptr> {
    if ctx.Top? then []
    else Done(ctx.up, reverse)
         + (if OnNearSide(ctx, reverse) then [] else Order(Sibling(ctx), reverse) + [ctx.p])
  }

  function Todo(ctx: Ctx, reverse: bool): seq<Ptr> {
    if ctx.Top? then []
    else (if OnNearSide(ctx, reverse) then [ctx.p] + Order(Sibling(ctx), reverse) else []) + Todo(ctx.up, reverse)
  }

  lemma {:induction false} PlugOrder(ctx: Ctx, t: Tree, reverse: bool)
    ensures Order(Plug(ctx, t), reverse) == Done(ctx, reverse) + Order(t, reverse) + Todo(ctx, reverse)
  {
    if !ctx.Top? {
      PlugOrder(ctx.up, Around(ctx, t), reverse);
      assert Plug(ctx, t) == Plug(ctx.up, Around(ctx, t));
      AroundOrder(ctx, t, reverse);
      OneUp(ctx, reverse);
      hide Done, Todo, Order, Plug, Around, Sibling;
      var d, s, o, u := Done(ctx.up, reverse), Order(Sibling(ctx), reverse), Order(t, reverse), Todo(ctx.up, reverse);
      if OnNearSide(ctx, reverse) {
        Regroup(d, o, ctx.p, s, u);
      } else {
        Regroup(d, s, ctx.p, o, u);
      }
    }
  }

  lemma OneUp(ctx: Ctx, reverse: bool)
    requires !ctx.Top?
    ensures var d, s, u := Done(ctx.up, reverse), Order(Sibling(ctx), reverse), Todo(ctx.up, reverse);
      if OnNearSide(ctx, reverse) then Done(ctx, reverse) == d && Todo(ctx, reverse) == [ctx.p] + s + u
      else Done(ctx, reverse) == d + s + [ctx.p] && Todo(ctx, reverse) == u
  {
    hide Order;
  }

  lemma AroundOrder(ctx: Ctx, t: Tree, reverse: bool)
    requires !ctx.Top?
    ensures Order(Around(ctx, t), reverse)
      == if OnNearSide(ctx, reverse) then Order(t, reverse) + [ctx.p] + Order(Sibling(ctx), reverse)
         else Order(Sibling(ctx), reverse) + [ctx.p] + Order(t, reverse)
  {
  }

  /** The stack is never deeper than the tree is high. */
  lemma {:induction false} StackBound(ctx: Ctx, t: Tree, reverse: bool)
    ensures |Stacked(ctx, reverse)| + Height(t) <= Height(Plug(ctx, t))
  {
    if !ctx.Top? {
      StackBound(ctx.up, Around(ctx, t), reverse);
    }
  }

  /** The subtrees that have been visited whole are closed up to the next stacked element. */
  lemma {:induction false} Unwind(ctx0: Ctx, t0: Tree, reverse: bool) returns (ctx: Ctx, t: Tree)
    requires Stacked(ctx0, reverse) != []
    ensures Plug(ctx, t) == Plug(ctx0, t0) && OnNearSide(ctx, reverse)
    ensures Stacked(ctx, reverse) == Stacked(ctx0, reverse) && Todo(ctx, reverse) == Todo(ctx0, reverse)
    ensures Done(ctx, reverse) + Order(t, reverse) == Done(ctx0, reverse) + Order(t0, reverse)
    decreases ctx0
  {
    if OnNearSide(ctx0, reverse) {
      ctx, t := ctx0, t0;
    } else {
      var u := Around(ctx0, t0);
      ctx, t := Unwind(ctx0.up, u, reverse);
      assert Order(u, reverse) == Order(Sibling(ctx0), reverse) + [ctx0.p] + Order(t0, reverse);
    }
  }

  lemma {:induction false} NothingStacked(ctx: Ctx, reverse: bool)
    requires Stacked(ctx, reverse) == []
    ensures Todo(ctx, reverse) == []
  {
    if !ctx.Top? {
      NothingStacked(ctx.up, reverse);
    }
  }

  // ---------------------------------------------------------------------------------------------
  // The enumeration
  // ---------------------------------------------------------------------------------------------

  /** while (links) { *stack++ = links; links = links->Left; } or its mirror image. */
  method PushPath(tree: AvlTree, reverse: bool, p0: Ptr, stack: array<Ptr>, n0: nat, ghost ctx0: Ctx, ghost t0: Tree)
    returns (n: nat, ghost ctx: Ctx)
    requires tree.Valid() && stack.Length == STACK_SIZE && Height(tree.shape) <= 45
    requires tree.shape == Plug(ctx0, t0) && p0 == Root(t0)
    requires n0 <= STACK_SIZE && stack[..n0] == Stacked(ctx0, reverse)
    modifies stack
    ensures tree.shape == Plug(ctx, Leaf) && Done(ctx, reverse) == Done(ctx0, reverse)
    ensures n <= STACK_SIZE && stack[..n] == Stacked(ctx, reverse)
    ensures Order(t0, reverse) + Todo(ctx0, reverse) == Todo(ctx, reverse)
  {
    ghost var t := t0;
    ctx, n := ctx0, n0;
    var p := p0;
    AvlWalk.Reads(tree.links, ctx, t);
    while p != NULL
      invariant tree.shape == Plug(ctx, t) && p == Root(t) && Done(ctx, reverse) == Done(ctx0, reverse)
      invariant t.Node? ==> p in tree.links && p != NULL
      invariant n <= STACK_SIZE && stack[..n] == Stacked(ctx, reverse)
      invariant Order(t, reverse) + Todo(ctx, reverse) == Order(t0, reverse) + Todo(ctx0, reverse)
      decreases t
    {
      AvlWalk.Reads(tree.links, ctx, t);
      StackBound(ctx, t, reverse);
      stack[n] := p;
      n := n + 1;
      p := if reverse then tree.links[p].right else tree.links[p].left;
      ghost var ctx' := if reverse then InRight(ctx, t.left, t.p) else InLeft(ctx, t.p, t.right);
      Unpacked(ctx, t, reverse);
      ctx, t := ctx', Near(t, reverse);
      AvlWalk.Reads(tree.links, ctx, t);
    }
  }

  /** Going down to the near side. */
  lemma Unpacked(ctx: Ctx, t: Tree, reverse: bool)
    requires t.Node?
    ensures var ctx' := if reverse then InRight(ctx, t.left, t.p) else InLeft(ctx, t.p, t.right);
      && Done(ctx', reverse) == Done(ctx, reverse) && Stacked(ctx', reverse) == Stacked(ctx, reverse) + [t.p]
      && Order(Near(t, reverse), reverse) + Todo(ctx', reverse) == Order(t, reverse) + Todo(ctx, reverse)
  {
  }

  /** The surroundings of the far side, once the near side and the element itself have been visited. */
  function Crossed(ctx: Ctx, t: Tree, reverse: bool): Ctx
    requires !ctx.Top?
  {
    if reverse then InLeft(ctx.up, ctx.p, t) else InRight(ctx.up, t, ctx.p)
  }

  lemma Crossing(ctx: Ctx, t: Tree, reverse: bool)
    requires OnNearSide(ctx, reverse)
    ensures var ctx' := Crossed(ctx, t, reverse);
      && Plug(ctx', Sibling(ctx)) == Plug(ctx, t)
      && Plug(ctx, t) == Plug(ctx.up, Around(ctx, t))
      && Stacked(ctx, reverse) == Stacked(ctx', reverse) + [ctx.p]
  {
    hide Height;
  }

  lemma CrossingOrder(ctx: Ctx, t: Tree, reverse: bool)
    requires OnNearSide(ctx, reverse)
    ensures var ctx' := Crossed(ctx, t, reverse);
      && Done(ctx', reverse) == Done(ctx, reverse) + Order(t, reverse) + [ctx.p]
      && Todo(ctx, reverse) == [ctx.p] + (Order(Sibling(ctx), reverse) + Todo(ctx', reverse))
  {
    hide Order, Height;
    var ctx' := Crossed(ctx, t, reverse);
    assert Done(ctx, reverse) == Done(ctx.up, reverse);
    assert Todo(ctx', reverse) == Todo(ctx.up, reverse);
    assert Sibling(ctx') == t;
    assert Done(ctx', reverse) == Done(ctx.up, reverse) + (Order(t, reverse) + [ctx.p]);
  }

  /** The element on top of the stack is the next one, and its far side comes after it. */
  lemma Popped(h: Memory, ctx0: Ctx, t0: Tree, visited: seq<Ptr>, reverse: bool) returns (ctx: Ctx, t: Tree)
    requires visited == Done(ctx0, reverse) + Order(t0, reverse)
    requires Stacked(ctx0, reverse) != [] && Holds(h, Plug(ctx0, t0))
    ensures !ctx.Top? && ctx.p in h && (if reverse then h[ctx.p].left else h[ctx.p].right) == Root(Sibling(ctx))
    ensures Stacked(ctx0, reverse) == Stacked(Crossed(ctx, t, reverse), reverse) + [ctx.p]
    ensures Plug(Crossed(ctx, t, reverse), Sibling(ctx)) == Plug(ctx0, t0)
    ensures Done(Crossed(ctx, t, reverse), reverse) == visited + [ctx.p]
    ensures Todo(ctx0, reverse) == [ctx.p] + (Order(Sibling(ctx), reverse) + Todo(Crossed(ctx, t, reverse), reverse))
    ensures visited + [ctx.p] <= Order(Plug(ctx0, t0), reverse)
  {
    ctx, t := Unwind(ctx0, t0, reverse);
    Crossing(ctx, t, reverse);
    CrossingOrder(ctx, t, reverse);
    PlugOrder(ctx, t, reverse);
    AvlWalk.Reads(h, ctx.up, Around(ctx, t));
    hide Done, Todo, Stacked, Order, Plug, Holds;
  }

  /** The second loop of each case of PhEnumAvlTree. */
  method VisitStacked(tree: AvlTree, reverse: bool, callback: Ptr -> bool, stack: array<Ptr>, n0: nat, ghost ctx0: Ctx)
    returns (visited: seq<Ptr>)
    requires tree.Valid() && stack.Length == STACK_SIZE && Height(tree.shape) <= 45
    requires tree.shape == Plug(ctx0, Leaf) && Done(ctx0, reverse) == []
    requires n0 <= STACK_SIZE && stack[..n0] == Stacked(ctx0, reverse)
    modifies stack
    ensures visited <= Order(tree.shape, reverse)
    ensures forall i :: 0 <= i < |visited| - 1 ==> callback(visited[i])
    ensures visited == Order(tree.shape, reverse) || (visited != [] && !callback(visited[|visited| - 1]))
  {
    hide Todo, Done, Stacked, Order, Plug, InOrder, Height, Crossed;
    Empty(reverse);
    ghost var ctx, t := ctx0, Leaf;
    var n: nat := n0;
    visited := [];
    while n != 0
      invariant tree.shape == Plug(ctx, t)
      invariant n <= stack.Length && stack[..n] == Stacked(ctx, reverse)
      invariant visited == Done(ctx, reverse) + Order(t, reverse)
      invariant forall i :: 0 <= i < |visited| ==> callback(visited[i])
      decreases |Todo(ctx, reverse)|
    {
      assert |stack[..n]| == n;
      ctx, t := Popped(tree.links, ctx, t, visited, reverse);
      n := n - 1;
      assert stack[..n] == Stacked(Crossed(ctx, t, reverse), reverse);
      var p := stack[n];
      visited := visited + [p];
      if !callback(p) {
        return;
      }
      p := if reverse then tree.links[p].left else tree.links[p].right;
      n, ctx := PushPath(tree, reverse, p, stack, n, Crossed(ctx, t, reverse), Sibling(ctx));
      t := Leaf;
    }
    NothingStacked(ctx, reverse);
    PlugOrder(ctx, t, reverse);
  }

  /** PhEnumAvlTree. The callback sees the elements in the order asked for, once each, up to the end
      or to the first for which it answers no; the stack never overflows. */
  method Enumerate(tree: AvlTree, reverse: bool, callback: Ptr -> bool) returns (visited: seq<Ptr>)
    requires tree.Valid() && tree.count < 0x1_0000_0000
    ensures visited <= (if reverse then Reversed(tree.Contents()) else tree.Contents())
    ensures forall i :: 0 <= i < |visited| - 1 ==> callback(visited[i])
    ensures visited == (if reverse then Reversed(tree.Contents()) else tree.Contents())
            || (visited != [] && !callback(visited[|visited| - 1]))
  {
    OrderOfTree(tree.shape);
    BalancesMeansBalanced(tree.links, tree.shape);
    HeightBound(tree.shape);
    AvlWalk.Reads(tree.links, Top, tree.shape);
    Empty(reverse);
    hide Todo, Stacked, Order, InOrder, Height, Holds;
    var stack := new Ptr[STACK_SIZE];
    var n: nat;
    ghost var ctx;
    n, ctx := PushPath(tree, reverse, tree.links[ROOT].right, stack, 0, Top, tree.shape);
    visited := VisitStacked(tree, reverse, callback, stack, n, ctx);
  }

  lemma Empty(reverse: bool)
    ensures Order(Leaf, reverse) == [] && Done(Top, reverse) == [] && Stacked(Top, reverse) == []
  {
  }
}
