/** Rotations and rebalancing of a subtree (phlib/avltree.c). */
module AvlRotation {
  import opened AvlShape
  import opened AvlMemory

  predicate LeftHeavy(t: Tree) { t.Node? && t.left.Node? }
  predicate RightHeavy(t: Tree) { t.Node? && t.right.Node? }

  function RotatedRight(t: Tree): Tree
    requires LeftHeavy(t)
  {
    Node(t.left.left, t.left.p, Node(t.left.right, t.p, t.right))
  }

  function RotatedLeft(t: Tree): Tree
    requires RightHeavy(t)
  {
    Node(Node(t.left, t.p, t.right.left), t.right.p, t.right.right)
  }

  function RotatedRightTwice(t: Tree): Tree
    requires LeftHeavy(t) && RightHeavy(t.left)
  {
    RotatedRight(Node(RotatedLeft(t.left), t.p, t.right))
  }

  function RotatedLeftTwice(t: Tree): Tree
    requires RightHeavy(t) && LeftHeavy(t.right)
  {
    RotatedLeft(Node(t.left, t.p, RotatedRight(t.right)))
  }

  lemma Reassociate(a: seq<Ptr>, p: Ptr, b: seq<Ptr>, q: Ptr, c: seq<Ptr>)
    ensures a + [p] + (b + [q] + c) == (a + [p] + b) + [q] + c
  {
  }

  /** A rotation keeps the elements and their order. */
  lemma RotatedRightInOrder(t: Tree)
    requires LeftHeavy(t)
    ensures InOrder(RotatedRight(t)) == InOrder(t) && Elems(RotatedRight(t)) == Elems(t)
    ensures Proper(t) ==> Proper(RotatedRight(t))
  {
    var a, b, c := t.left.left, t.left.right, t.right;
    assert InOrder(Node(b, t.p, c)) == InOrder(b) + [t.p] + InOrder(c);
    assert Elems(Node(b, t.p, c)) == Elems(b) + {t.p} + Elems(c);
    assert Proper(t) ==> Proper(t.left) && Proper(Node(b, t.p, c));
    Reassociate(InOrder(a), t.left.p, InOrder(b), t.p, InOrder(c));
  }

  lemma RotatedLeftInOrder(t: Tree)
    requires RightHeavy(t)
    ensures InOrder(RotatedLeft(t)) == InOrder(t) && Elems(RotatedLeft(t)) == Elems(t)
    ensures Proper(t) ==> Proper(RotatedLeft(t))
  {
    var a, b, c := t.left, t.right.left, t.right.right;
    assert InOrder(Node(a, t.p, b)) == InOrder(a) + [t.p] + InOrder(b);
    assert Elems(Node(a, t.p, b)) == Elems(a) + {t.p} + Elems(b);
    assert Proper(t) ==> Proper(t.right) && Proper(Node(a, t.p, b));
    Reassociate(InOrder(a), t.p, InOrder(b), t.right.p, InOrder(c));
  }

  lemma RotatedTwiceInOrder(t: Tree)
    ensures LeftHeavy(t) && RightHeavy(t.left) ==>
      && InOrder(RotatedRightTwice(t)) == InOrder(t) && Elems(RotatedRightTwice(t)) == Elems(t)
      && (Proper(t) ==> Proper(RotatedRightTwice(t)))
    ensures RightHeavy(t) && LeftHeavy(t.right) ==>
      && InOrder(RotatedLeftTwice(t)) == InOrder(t) && Elems(RotatedLeftTwice(t)) == Elems(t)
      && (Proper(t) ==> Proper(RotatedLeftTwice(t)))
  {
    if LeftHeavy(t) && RightHeavy(t.left) {
      RotatedLeftInOrder(t.left);
      RotatedRightInOrder(Node(RotatedLeft(t.left), t.p, t.right));
    }
    if RightHeavy(t) && LeftHeavy(t.right) {
      RotatedRightInOrder(t.right);
      RotatedLeftInOrder(Node(t.left, t.p, RotatedRight(t.right)));
    }
  }

  function SetParent(h: Memory, p: Ptr, v: Ptr): Memory
    requires p in h
  {
    h[p := h[p].(parent := v)]
  }

  function SetBalance(h: Memory, p: Ptr, v: int): Memory
    requires p in h
  {
    h[p := h[p].(balance := v)]
  }

  function SetSlot(h: Memory, par: Ptr, left: bool, v: Ptr): Memory
    requires par in h
  {
    h[par := WithSlot(h[par], left, v)]
  }

  /** The subtree t hangs in a slot of par. */
  ghost predicate Hangs(h: Memory, t: Tree, par: Ptr, left: bool) {
    && Linked(h, t, par) && Proper(t)
    && par in h && par !in Elems(t) && Slot(h, par, left) == Root(t)
    && NULL !in Elems(t)
  }

  /** From h to h', t' has replaced t in the slot and nothing else has changed. */
  ghost predicate Replaced(h: Memory, h': Memory, t: Tree, t': Tree, par: Ptr, left: bool) {
    && Elems(t') == Elems(t)
    && InOrder(t') == InOrder(t)
    && Hangs(h', t', par, left)
    && par in h && h'[par] == WithSlot(h[par], left, Root(t'))
    && forall x :: x in h && x !in Elems(t) && x != par ==> x in h' && h'[x] == h[x]
  }

  ghost predicate Moved(h: Memory, h': Memory, t: Tree, par: Ptr) {
    t.Node? ==> t.p in h && t.p in h' && h'[t.p] == h[t.p].(parent := par)
  }

  /** The memory after each rotation. */
  ghost predicate WrittenRight(h: Memory, h': Memory, t: Tree, par: Ptr, left: bool)
    requires LeftHeavy(t)
  {
    var Q, P, B := t.p, t.left.p, t.left.right;
    && par in h && Q in h && P in h && par in h' && Q in h' && P in h'
    && h'[par] == WithSlot(h[par], left, P)
    && h'[P] == h[P].(parent := par, right := Q)
    && h'[Q] == h[Q].(parent := P, left := Root(B))
    && Moved(h, h', B, Q)
    && (forall x :: x in h && x !in {par, P, Q} && !(B.Node? && x == B.p) ==> x in h' && h'[x] == h[x])
  }

  ghost predicate WrittenLeft(h: Memory, h': Memory, t: Tree, par: Ptr, left: bool)
    requires RightHeavy(t)
  {
    var P, Q, B := t.p, t.right.p, t.right.left;
    && par in h && Q in h && P in h && par in h' && Q in h' && P in h'
    && h'[par] == WithSlot(h[par], left, Q)
    && h'[Q] == h[Q].(parent := par, left := P)
    && h'[P] == h[P].(parent := Q, right := Root(B))
    && Moved(h, h', B, P)
    && (forall x :: x in h && x !in {par, P, Q} && !(B.Node? && x == B.p) ==> x in h' && h'[x] == h[x])
  }

  ghost predicate WrittenRightTwice(h: Memory, h': Memory, t: Tree, par: Ptr, left: bool)
    requires LeftHeavy(t) && RightHeavy(t.left)
  {
    var P, Q, R, B, C := t.p, t.left.p, t.left.right.p, t.left.right.left, t.left.right.right;
    && par in h && Q in h && P in h && R in h && par in h' && Q in h' && P in h' && R in h'
    && h'[par] == WithSlot(h[par], left, R)
    && h'[R] == h[R].(parent := par, left := Q, right := P)
    && h'[Q] == h[Q].(parent := R, right := Root(B))
    && h'[P] == h[P].(parent := R, left := Root(C))
    && Moved(h, h', B, Q) && Moved(h, h', C, P)
    && (forall x :: x in h && x !in {par, P, Q, R} && !(B.Node? && x == B.p) && !(C.Node? && x == C.p) ==>
          x in h' && h'[x] == h[x])
  }

  ghost predicate WrittenLeftTwice(h: Memory, h': Memory, t: Tree, par: Ptr, left: bool)
    requires RightHeavy(t) && LeftHeavy(t.right)
  {
    var P, Q, R, B, C := t.p, t.right.p, t.right.left.p, t.right.left.left, t.right.left.right;
    && par in h && Q in h && P in h && R in h && par in h' && Q in h' && P in h' && R in h'
    && h'[par] == WithSlot(h[par], left, R)
    && h'[R] == h[R].(parent := par, left := P, right := Q)
    && h'[P] == h[P].(parent := R, right := Root(B))
    && h'[Q] == h[Q].(parent := R, left := Root(C))
    && Moved(h, h', B, P) && Moved(h, h', C, Q)
    && (forall x :: x in h && x !in {par, P, Q, R} && !(B.Node? && x == B.p) && !(C.Node? && x == C.p) ==>
          x in h' && h'[x] == h[x])
  }

  lemma WrittenRightLinked(h: Memory, h': Memory, t: Tree, par: Ptr, left: bool)
    requires LeftHeavy(t) && Hangs(h, t, par, left) && WrittenRight(h, h', t, par, left)
    ensures Replaced(h, h', t, RotatedRight(t), par, left)
    ensures forall x :: x in h ==> SameBalance(h, h', x)
  {
    RotatedRightInOrder(t);
    var Q, P, A, B, C := t.p, t.left.p, t.left.left, t.left.right, t.right;
    assert Linked(h, t.left, Q) && Proper(t.left) && P in Elems(t.left);
    assert B.Node? ==> B.p in Elems(B);
    Reparent(h, h', B, P, Q);
    LinkedFrame(h, h', A, P);
    LinkedFrame(h, h', C, Q);
    assert Linked(h', Node(B, Q, C), P);
  }

  lemma WrittenLeftLinked(h: Memory, h': Memory, t: Tree, par: Ptr, left: bool)
    requires RightHeavy(t) && Hangs(h, t, par, left) && WrittenLeft(h, h', t, par, left)
    ensures Replaced(h, h', t, RotatedLeft(t), par, left)
    ensures forall x :: x in h ==> SameBalance(h, h', x)
  {
    RotatedLeftInOrder(t);
    var P, Q, A, B, C := t.p, t.right.p, t.left, t.right.left, t.right.right;
    assert Linked(h, t.right, P) && Proper(t.right) && Q in Elems(t.right);
    assert B.Node? ==> B.p in Elems(B);
    Reparent(h, h', B, Q, P);
    LinkedFrame(h, h', A, P);
    LinkedFrame(h, h', C, Q);
    assert Linked(h', Node(A, P, B), Q);
  }

  /** The four addresses a double rotation turns around, and the two subtrees it hands over. */
  ghost predicate Corners(h: Memory, par: Ptr, P: Ptr, Q: Ptr, R: Ptr, B: Tree, C: Tree) {
    && par in h && P in h && Q in h && R in h
    && par != P && par != Q && par != R && P != Q && P != R && Q != R
    && P != NULL && Q != NULL && R != NULL
    && (B.Node? ==> B.p in h && B.p != NULL && B.p != par && B.p != P && B.p != Q && B.p != R)
    && (C.Node? ==> C.p in h && C.p != NULL && C.p != par && C.p != P && C.p != Q && C.p != R)
    && (B.Node? && C.Node? ==> B.p != C.p)
  }

  /** A child hangs from its parent. */
  lemma Child(h: Memory, t: Tree, par: Ptr, left: bool, side: bool)
    requires t.Node? && Hangs(h, t, par, left)
    ensures var u := if side then t.left else t.right;
      && Linked(h, u, t.p) && Proper(u) && Hangs(h, u, t.p, side)
      && Elems(u) <= Elems(t) && t.p in Elems(t) && t.p !in Elems(u) && t.p in h && t.p != NULL
      && (u.Node? ==> u.p in Elems(u) && u.p in h && u.p != NULL)
    ensures Elems(t.left) !! Elems(t.right)
  {
  }

  lemma HasCorners(h: Memory, t: Tree, par: Ptr, left: bool, side: bool)
    requires Hangs(h, t, par, left)
    requires if side then LeftHeavy(t) && RightHeavy(t.left) else RightHeavy(t) && LeftHeavy(t.right)
    ensures var u := if side then t.left else t.right;
      var v := if side then u.right else u.left;
      && Corners(h, par, t.p, u.p, v.p, v.left, v.right)
      && Hangs(h, u, t.p, side) && Hangs(h, v, u.p, !side)
      && Slot(h, par, left) == t.p && h[t.p].parent == par
      && Slot(h, t.p, side) == u.p && Slot(h, u.p, !side) == v.p
      && h[v.p].left == Root(v.left) && h[v.p].right == Root(v.right)
  {
    assert Linked(h, t, par) && Slot(h, par, left) == t.p;
    hide Hangs, Linked, Proper, Elems;
    var u := if side then t.left else t.right;
    var v := if side then u.right else u.left;
    Child(h, t, par, left, side);
    Child(h, u, t.p, side, !side);
    Child(h, v, u.p, !side, true);
    Child(h, v, u.p, !side, false);
    assert par in h && par !in Elems(t) by { ParOf(h, t, par, left); }
  }

  lemma ParOf(h: Memory, t: Tree, par: Ptr, left: bool)
    requires Hangs(h, t, par, left)
    ensures par in h && par !in Elems(t)
  {
  }

  /** Only the topmost element of t was written, and only to move it under par. */
  ghost predicate Settled(h: Memory, h': Memory, t: Tree, par: Ptr) {
    && Moved(h, h', t, par)
    && forall x :: x in Elems(t) && x != Root(t) ==> SameLinks(h, h', x)
  }

  lemma Settles(h: Memory, h': Memory, t: Tree, par: Ptr, par': Ptr)
    requires Linked(h, t, par) && Proper(t) && Settled(h, h', t, par')
    ensures Linked(h', t, par')
  {
    Reparent(h, h', t, par, par');
  }

  lemma Joined(h': Memory, l: Tree, p: Ptr, r: Tree, par: Ptr)
    requires Linked(h', l, p) && Linked(h', r, p) && p in h' && p != NULL && p != ROOT
    requires h'[p].parent == par && h'[p].left == Root(l) && h'[p].right == Root(r)
    ensures Linked(h', Node(l, p, r), par)
  {
  }

  /** The subtrees a double rotation hands over are moved, and nothing outside is written. */
  lemma InnerSettle(h: Memory, h': Memory, t: Tree, par: Ptr, left: bool, side: bool)
    requires Hangs(h, t, par, left)
    requires if side then LeftHeavy(t) && RightHeavy(t.left) else RightHeavy(t) && LeftHeavy(t.right)
    requires if side then WrittenRightTwice(h, h', t, par, left) else WrittenLeftTwice(h, h', t, par, left)
    ensures var u := if side then t.left else t.right;
      var v := if side then u.right else u.left;
      Settled(h, h', v.left, if side then u.p else t.p) && Settled(h, h', v.right, if side then t.p else u.p)
    ensures forall x :: x in h && x !in Elems(t) && x != par ==> x in h' && h'[x] == h[x]
  {
    hide Linked, Proper, Elems;
    var u := if side then t.left else t.right;
    var v := if side then u.right else u.left;
    HasCorners(h, t, par, left, side);
    Child(h, t, par, left, side);
    Child(h, u, t.p, side, !side);
    Child(h, v, u.p, !side, true);
    Child(h, v, u.p, !side, false);
  }

  /** The subtrees on the outside stay where they are. */
  lemma OuterSettle(h: Memory, h': Memory, t: Tree, par: Ptr, left: bool, side: bool)
    requires Hangs(h, t, par, left)
    requires if side then LeftHeavy(t) && RightHeavy(t.left) else RightHeavy(t) && LeftHeavy(t.right)
    requires if side then WrittenRightTwice(h, h', t, par, left) else WrittenLeftTwice(h, h', t, par, left)
    ensures var u := if side then t.left else t.right;
      Settled(h, h', if side then u.left else u.right, u.p) && Settled(h, h', if side then t.right else t.left, t.p)
  {
    hide Linked, Proper, Elems;
    var u := if side then t.left else t.right;
    var v := if side then u.right else u.left;
    HasCorners(h, t, par, left, side);
    Child(h, t, par, left, side);
    Child(h, t, par, left, !side);
    Child(h, u, t.p, side, !side);
    Child(h, u, t.p, side, side);
    Child(h, v, u.p, !side, true);
    Child(h, v, u.p, !side, false);
    assert Moved(h, h', if side then u.left else u.right, u.p);
    assert Moved(h, h', if side then t.right else t.left, t.p);
  }

  lemma WrittenRightTwiceLinked(h: Memory, h': Memory, t: Tree, par: Ptr, left: bool)
    requires LeftHeavy(t) && RightHeavy(t.left) && Hangs(h, t, par, left) && WrittenRightTwice(h, h', t, par, left)
    ensures Replaced(h, h', t, RotatedRightTwice(t), par, left)
    ensures forall x :: x in h ==> SameBalance(h, h', x)
  {
    var u, v := t.left, t.left.right;
    RotatedTwiceInOrder(t);
    HasCorners(h, t, par, left, true);
    InnerSettle(h, h', t, par, left, true);
    OuterSettle(h, h', t, par, left, true);
    assert Linked(h, u, t.p) && Linked(h, v, u.p) && Proper(u) && Proper(v) && ROOT !in {t.p, u.p, v.p};
    Settles(h, h', u.left, u.p, u.p);
    Settles(h, h', v.left, v.p, u.p);
    Settles(h, h', v.right, v.p, t.p);
    Settles(h, h', t.right, t.p, t.p);
    hide Elems, InOrder, Proper, Settled, Linked;
    Joined(h', u.left, u.p, v.left, v.p);
    Joined(h', v.right, t.p, t.right, v.p);
    Joined(h', Node(u.left, u.p, v.left), v.p, Node(v.right, t.p, t.right), par);
  }

  lemma WrittenLeftTwiceLinked(h: Memory, h': Memory, t: Tree, par: Ptr, left: bool)
    requires RightHeavy(t) && LeftHeavy(t.right) && Hangs(h, t, par, left) && WrittenLeftTwice(h, h', t, par, left)
    ensures Replaced(h, h', t, RotatedLeftTwice(t), par, left)
    ensures forall x :: x in h ==> SameBalance(h, h', x)
  {
    var u, v := t.right, t.right.left;
    RotatedTwiceInOrder(t);
    HasCorners(h, t, par, left, false);
    InnerSettle(h, h', t, par, left, false);
    OuterSettle(h, h', t, par, left, false);
    assert Linked(h, u, t.p) && Linked(h, v, u.p) && Proper(u) && Proper(v) && ROOT !in {t.p, u.p, v.p};
    Settles(h, h', u.right, u.p, u.p);
    Settles(h, h', v.left, v.p, t.p);
    Settles(h, h', v.right, v.p, u.p);
    Settles(h, h', t.left, t.p, t.p);
    hide Elems, InOrder, Proper, Settled, Linked;
    Joined(h', t.left, t.p, v.left, v.p);
    Joined(h', v.right, u.p, u.right, v.p);
    Joined(h', Node(t.left, t.p, v.left), v.p, Node(v.right, u.p, u.right), par);
  }

  // ---------------------------------------------------------------------------------------------
  // Rebalancing
  // ---------------------------------------------------------------------------------------------

  /** One side of t has become two higher than the other, the one its balance field leans to. */
  ghost predicate Unbalanced(h: Memory, t: Tree) {
    && t.Node? && t.p in h
    && Balances(h, t.left) && Balances(h, t.right)
    && (|| (h[t.p].balance == -1 && Height(t.left) == Height(t.right) + 2)
        || (h[t.p].balance == 1 && Height(t.right) == Height(t.left) + 2))
  }

  /** The textbook rebalancing of t. */
  function Rebalanced(t: Tree): Tree
    requires t.Node? && Height(t.left) != Height(t.right)
  {
    if Height(t.left) > Height(t.right) then
      if Height(t.left.right) > Height(t.left.left) then RotatedRightTwice(t) else RotatedRight(t)
    else
      if Height(t.right.left) > Height(t.right.right) then RotatedLeftTwice(t) else RotatedLeft(t)
  }

  /** The single case where the height stays: the higher child is even. */
  predicate KeepsHeight(t: Tree)
    requires t.Node? && Height(t.left) != Height(t.right)
  {
    if Height(t.left) > Height(t.right) then Height(t.left.left) == Height(t.left.right)
    else Height(t.right.left) == Height(t.right.right)
  }

  lemma Single(h: Memory, h': Memory, l: Tree, p: Ptr, r: Tree)
    requires Balances(h, l) && Balances(h, r) && p in h'
    requires forall x :: x in Elems(l) + Elems(r) ==> SameBalance(h, h', x)
    requires h'[p].balance == Height(r) - Height(l) && -1 <= h'[p].balance <= 1
    ensures Balances(h', Node(l, p, r))
  {
    BalancesFrame(h, h', l);
    BalancesFrame(h, h', r);
  }

  /** From h to h', only the balance fields of the elements xs have been written. */
  ghost predicate OnlyBalances(h: Memory, h': Memory, xs: set<Ptr>) {
    forall x :: x in h ==> SameLinks(h, h', x) && (x !in xs ==> h'[x] == h[x])
  }

  lemma Rewrite(h: Memory, h1: Memory, h2: Memory, t: Tree, t': Tree, par: Ptr, left: bool, xs: set<Ptr>)
    requires Replaced(h, h1, t, t', par, left) && OnlyBalances(h1, h2, xs) && xs <= Elems(t)
    ensures Replaced(h, h2, t, t', par, left)
  {
    LinkedFrame(h1, h2, t', par);
  }

  /** t has been rebalanced into t'. */
  ghost predicate Restored(h: Memory, h': Memory, t: Tree, par: Ptr, left: bool, code: int)
    requires t.Node? && Height(t.left) != Height(t.right)
  {
    var t' := Rebalanced(t);
    && Replaced(h, h', t, t', par, left)
    && Balances(h', t')
    && (code == 3 <==> KeepsHeight(t))
    && Height(t') == Height(t) - (if code == 3 then 0 else 1)
    && t.p in h' && h'[t.p].parent == Root(t')
  }

  /** What the code reads before it rotates. */
  lemma Heavy(h: Memory, t: Tree, par: Ptr, left: bool, side: bool)
    requires Hangs(h, t, par, left) && Unbalanced(h, t) && h[t.p].balance == if side then -1 else 1
    ensures var u := if side then t.left else t.right;
      && par in h && t.p in h && Slot(h, par, left) == t.p && par != t.p
      && u.Node? && u.p in h && Slot(h, t.p, side) == u.p && u.p != par && u.p != t.p
      && Balances(h, u)
      && (h[u.p].balance == (if side then 1 else -1) ==>
            var v := if side then u.right else u.left;
            v.Node? && v.p in h && Slot(h, u.p, !side) == v.p && v.p !in {par, t.p, u.p} && Balances(h, v))
  {
    var u := if side then t.left else t.right;
    assert Balances(h, u) && Linked(h, u, t.p);
    if h[u.p].balance == (if side then 1 else -1) {
      HasCorners(h, t, par, left, side);
    }
    Child(h, t, par, left, side);
  }

  lemma Under(h: Memory, t: Tree, par: Ptr, left: bool, side: bool)
    requires t.Node? && Hangs(h, t, par, left) && if side then t.left.Node? else t.right.Node?
    ensures var p := (if side then t.left else t.right).p; p in h && h[p].parent == t.p
  {
    Child(h, t, par, left, side);
  }

  /** What the balance fields say before a single rotation. */
  lemma OnceHeights(h: Memory, t: Tree, side: bool)
    requires Unbalanced(h, t) && h[t.p].balance == if side then -1 else 1
    requires if side then LeftHeavy(t) && h[t.left.p].balance != 1 else RightHeavy(t) && h[t.right.p].balance != -1
    ensures var u := if side then t.left else t.right;
      var n := Height(if side then t.right else t.left);
      && Height(t) == n + 3 && Height(if side then u.left else u.right) == n + 1
      && Height(if side then u.right else u.left) == (if h[u.p].balance == 0 then n + 1 else n)
      && Balances(h, u.left) && Balances(h, u.right)
      && (KeepsHeight(t) <==> h[u.p].balance == 0)
    ensures Rebalanced(t) == if side then RotatedRight(t) else RotatedLeft(t)
  {
    var u := if side then t.left else t.right;
    assert Balances(h, u);
  }

  /** The three outer subtrees do not hold the two rewritten elements. */
  lemma OnceApart(h: Memory, t: Tree, par: Ptr, left: bool, side: bool)
    requires Hangs(h, t, par, left) && if side then LeftHeavy(t) else RightHeavy(t)
    ensures var u := if side then t.left else t.right;
      var rest := Elems(u.left) + Elems(u.right) + Elems(if side then t.right else t.left);
      && {t.p, u.p} <= Elems(t)
      && rest !! {t.p, u.p}
      && forall x :: x in rest ==> x in h
  {
    ElemsAreElements(h, t, par);
    hide Linked, Proper, Elems;
    var u := if side then t.left else t.right;
    Child(h, t, par, left, side);
    Child(h, t, par, left, !side);
    Child(h, u, t.p, side, side);
    Child(h, u, t.p, side, !side);
  }

  lemma RightRestored(h: Memory, h1: Memory, h2: Memory, t: Tree, par: Ptr, left: bool)
    requires Hangs(h, t, par, left) && Unbalanced(h, t) && h[t.p].balance == -1 && LeftHeavy(t)
    requires h[t.left.p].balance != 1
    requires Replaced(h, h1, t, RotatedRight(t), par, left) && forall x :: x in h ==> SameBalance(h, h1, x)
    requires OnlyBalances(h1, h2, {t.p, t.left.p}) && t.p in h2 && t.left.p in h2
    requires h2[t.p].balance == if h[t.left.p].balance == 0 then -1 else 0
    requires h2[t.left.p].balance == if h[t.left.p].balance == 0 then 1 else 0
    ensures Restored(h, h2, t, par, left, if h[t.left.p].balance == 0 then 3 else 1)
  {
    var u := t.left;
    OnceApart(h, t, par, left, true);
    Rewrite(h, h1, h2, t, RotatedRight(t), par, left, {t.p, u.p});
    Under(h2, RotatedRight(t), par, left, false);
    OnceHeights(h, t, true);
    hide Hangs, Linked, Proper, Elems, Replaced, KeepsHeight, Rebalanced;
    Single(h, h2, u.right, t.p, t.right);
    BalancesFrame(h, h2, u.left);
  }

  lemma LeftRestored(h: Memory, h1: Memory, h2: Memory, t: Tree, par: Ptr, left: bool)
    requires Hangs(h, t, par, left) && Unbalanced(h, t) && h[t.p].balance == 1 && RightHeavy(t)
    requires h[t.right.p].balance != -1
    requires Replaced(h, h1, t, RotatedLeft(t), par, left) && forall x :: x in h ==> SameBalance(h, h1, x)
    requires OnlyBalances(h1, h2, {t.p, t.right.p}) && t.p in h2 && t.right.p in h2
    requires h2[t.p].balance == if h[t.right.p].balance == 0 then 1 else 0
    requires h2[t.right.p].balance == if h[t.right.p].balance == 0 then -1 else 0
    ensures Restored(h, h2, t, par, left, if h[t.right.p].balance == 0 then 3 else 1)
  {
    var u := t.right;
    OnceApart(h, t, par, left, false);
    Rewrite(h, h1, h2, t, RotatedLeft(t), par, left, {t.p, u.p});
    Under(h2, RotatedLeft(t), par, left, true);
    OnceHeights(h, t, false);
    hide Hangs, Linked, Proper, Elems, Replaced, KeepsHeight, Rebalanced;
    Single(h, h2, t.left, t.p, u.left);
    BalancesFrame(h, h2, u.right);
  }

  /** The balances after a double rotation: what the inner child leant to decides. */
  ghost predicate TwiceBalances(h: Memory, h2: Memory, l: Ptr, top: Ptr, r: Ptr) {
    && top in h && l in h2 && r in h2 && top in h2
    && h2[l].balance == (if h[top].balance == 1 then -1 else 0)
    && h2[r].balance == (if h[top].balance == -1 then 1 else 0)
    && h2[top].balance == 0
  }

  /** The four outer subtrees do not hold the three rewritten elements. */
  lemma TwiceApart(h: Memory, t: Tree, par: Ptr, left: bool, side: bool)
    requires Hangs(h, t, par, left)
    requires if side then LeftHeavy(t) && RightHeavy(t.left) else RightHeavy(t) && LeftHeavy(t.right)
    ensures var u := if side then t.left else t.right;
      var v := if side then u.right else u.left;
      var rest := Elems(if side then u.left else u.right) + Elems(v.left)
                  + Elems(v.right) + Elems(if side then t.right else t.left);
      && {t.p, u.p, v.p} <= Elems(t)
      && rest !! {t.p, u.p, v.p}
      && forall x :: x in rest ==> x in h
  {
    ElemsAreElements(h, t, par);
    hide Linked, Proper, Elems, Hangs;
    var u := if side then t.left else t.right;
    var v := if side then u.right else u.left;
    HasCorners(h, t, par, left, side);
    Child(h, t, par, left, side);
    Child(h, t, par, left, !side);
    Child(h, u, t.p, side, !side);
    Child(h, u, t.p, side, side);
    Child(h, v, u.p, !side, true);
    Child(h, v, u.p, !side, false);
  }

  /** Three elements and the four subtrees between them, with the balances after a double rotation. */
  lemma TwiceBalanced(h: Memory, h2: Memory, A: Tree, l: Ptr, B: Tree, top: Ptr, C: Tree, r: Ptr, D: Tree, n: int)
    requires Balances(h, A) && Balances(h, Node(B, top, C)) && Balances(h, D)
    requires Height(A) == n && Height(Node(B, top, C)) == n + 1 && Height(D) == n
    requires forall x :: x in Elems(A) + Elems(B) + Elems(C) + Elems(D) ==> SameBalance(h, h2, x)
    requires TwiceBalances(h, h2, l, top, r)
    ensures Balances(h2, Node(Node(A, l, B), top, Node(C, r, D)))
    ensures Height(Node(Node(A, l, B), top, Node(C, r, D))) == n + 2
  {
    assert Balances(h, B) && Balances(h, C);
    hide Elems;
    Single(h, h2, A, l, B);
    Single(h, h2, C, r, D);
  }

  /** What the balance fields say before a double rotation. */
  lemma TwiceHeights(h: Memory, t: Tree, side: bool)
    requires Unbalanced(h, t) && h[t.p].balance == if side then -1 else 1
    requires if side then LeftHeavy(t) && RightHeavy(t.left) && h[t.left.p].balance == 1
             else RightHeavy(t) && LeftHeavy(t.right) && h[t.right.p].balance == -1
    ensures var u := if side then t.left else t.right;
      var v := if side then u.right else u.left;
      var n := Height(if side then t.right else t.left);
      && Height(t) == n + 3 && Height(if side then u.left else u.right) == n && Height(v) == n + 1
      && Balances(h, v) && Balances(h, if side then u.left else u.right)
    ensures !KeepsHeight(t) && Rebalanced(t) == if side then RotatedRightTwice(t) else RotatedLeftTwice(t)
  {
    var u := if side then t.left else t.right;
    assert Balances(h, u);
  }

  lemma RightTwiceRestored(h: Memory, h1: Memory, h2: Memory, t: Tree, par: Ptr, left: bool)
    requires Hangs(h, t, par, left) && Unbalanced(h, t) && h[t.p].balance == -1 && LeftHeavy(t) && RightHeavy(t.left)
    requires h[t.left.p].balance == 1
    requires Replaced(h, h1, t, RotatedRightTwice(t), par, left) && forall x :: x in h ==> SameBalance(h, h1, x)
    requires OnlyBalances(h1, h2, {t.p, t.left.p, t.left.right.p})
    requires TwiceBalances(h, h2, t.left.p, t.left.right.p, t.p)
    ensures Restored(h, h2, t, par, left, 2)
  {
    var u, v := t.left, t.left.right;
    TwiceApart(h, t, par, left, true);
    Rewrite(h, h1, h2, t, RotatedRightTwice(t), par, left, {t.p, u.p, v.p});
    Under(h2, RotatedRightTwice(t), par, left, false);
    TwiceHeights(h, t, true);
    hide Hangs, Elems, Replaced, Balances, Height, TwiceBalances, KeepsHeight, Rebalanced;
    TwiceBalanced(h, h2, u.left, u.p, v.left, v.p, v.right, t.p, t.right, Height(t.right));
  }

  lemma LeftTwiceRestored(h: Memory, h1: Memory, h2: Memory, t: Tree, par: Ptr, left: bool)
    requires Hangs(h, t, par, left) && Unbalanced(h, t) && h[t.p].balance == 1 && RightHeavy(t) && LeftHeavy(t.right)
    requires h[t.right.p].balance == -1
    requires Replaced(h, h1, t, RotatedLeftTwice(t), par, left) && forall x :: x in h ==> SameBalance(h, h1, x)
    requires OnlyBalances(h1, h2, {t.p, t.right.p, t.right.left.p})
    requires TwiceBalances(h, h2, t.p, t.right.left.p, t.right.p)
    ensures Restored(h, h2, t, par, left, 2)
  {
    var u, v := t.right, t.right.left;
    TwiceApart(h, t, par, left, false);
    Rewrite(h, h1, h2, t, RotatedLeftTwice(t), par, left, {t.p, u.p, v.p});
    Under(h2, RotatedLeftTwice(t), par, left, true);
    TwiceHeights(h, t, false);
    hide Hangs, Elems, Replaced, Balances, Height, TwiceBalances, KeepsHeight, Rebalanced;
    TwiceBalanced(h, h2, t.left, t.p, v.left, v.p, v.right, u.p, u.right, Height(t.left));
  }
}
