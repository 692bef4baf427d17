/** The AVL tree by base address of a file pool's views (phlib/filepool.c:977-1033): the ordered sequence
    of FilePoolView is what AvlTree and AvlWalk make of it. */
module FilePoolViewTree {
  import opened Sequences
  import opened FilePoolView
  import Order = AvlOrder
  import Tree = AvlTree
  import Walk = AvlWalk

  /** The tree holds the views of the sequence in its order, compared by their addresses. */
  ghost predicate Represents(tree: Tree.AvlTree, order: seq<View>, views: Records)
    reads tree
  {
    tree.Contents() == order && forall w :: w in order ==> w != 0 && w in views && tree.rank(w) == views[w].base
  }

  lemma {:induction false} BoundOfDivided(order: seq<View>, views: Records, address: nat, a: seq<View>, b: seq<View>)
    requires order == a + b && forall w :: w in order ==> w in views
    requires forall w :: w in a ==> views[w].base <= address
    requires forall w :: w in b ==> views[w].base > address
    ensures FilePoolView.UpperDualBound(order, views, address) == if a == [] then NoView else Found(a[|a| - 1])
    decreases |b|
  {
    if b != [] {
      var n := |order| - 1;
      assert order[n] == b[|b| - 1] && order[..n] == a + b[..|b| - 1];
      BoundOfDivided(order[..n], views, address, a, b[..|b| - 1]);
    } else if a != [] {
      assert order[|order| - 1] == a[|a| - 1];
    }
  }

  /** What the search of the tree finds for an element x with the address is what the sequence gives. */
  lemma SearchAgrees(tree: Tree.AvlTree, order: seq<View>, views: Records, x: View, a: seq<View>, b: seq<View>)
    requires Represents(tree, order, views) && tree.rank(x) >= 0 && Walk.Divides(tree, x, true, a, b)
    ensures FilePoolView.UpperDualBound(order, views, tree.rank(x)) == if a == [] then NoView else Found(Walk.Last(a))
  {
    assert forall w :: w in order <==> w in a || w in b;
    BoundOfDivided(order, views, tree.rank(x), a, b);
  }

  /** So does an insertion into the tree: the contents after it are those of AvlTree.Add. */
  lemma {:induction false} InsertionAgrees(order: seq<View>, views: Records, v: View, a: seq<View>, b: seq<View>)
    requires order == a + b && v in views && forall w :: w in order ==> w in views
    requires forall w :: w in a ==> views[w].base < views[v].base
    requires forall w :: w in b ==> views[w].base > views[v].base
    ensures OrderInsert(order, views, v) == a + [v] + b
    decreases |a|
  {
    if a != [] {
      assert order[0] == a[0] && order[1..] == a[1..] + b;
      InsertionAgrees(order[1..], views, v, a[1..], b);
      assert [a[0]] + (a[1..] + [v] + b) == a + [v] + b;
    } else {
      assert order == b && [] + [v] + b == [v] + b;
    }
  }

  /** And a removal: the contents after it are those of AvlTree.Remove. */
  lemma {:induction false} RemovalAgrees(order: seq<View>, e: View, a: seq<View>, b: seq<View>)
    requires order == a + [e] + b && Distinct(order)
    ensures Without(order, e) == a + b
    decreases |a|
  {
    if a != [] {
      assert order[0] == a[0] && order[1..] == a[1..] + [e] + b;
      assert order[1..][|a| - 1] == e;
      RemovalAgrees(order[1..], e, a[1..], b);
      assert [a[0]] + (a[1..] + b) == a + b;
    } else {
      assert order == [e] + b && [] + b == b;
    }
  }

  /** PhFppAddViewByBase */
  method AddViewByBase(tree: Tree.AvlTree, v: View, ghost order: seq<View>, ghost views: Records)
    requires tree.Valid() && Represents(tree, order, views)
    requires v > 1 && v in views && tree.rank(v) == views[v].base
    requires forall w :: w in order ==> views[w].base != views[v].base
    modifies tree
    ensures tree.Valid() && Represents(tree, OrderInsert(order, views, v), views)
  {
    var existing := tree.Add(v);
    assert existing != 0 ==> existing in order;
    ghost var a, b :| order == a + b && tree.Contents() == a + [v] + b
                      && Order.Below(a, tree.rank(v), tree.rank) && Order.Above(b, tree.rank(v), tree.rank);
    assert forall w :: w in order <==> w in a || w in b;
    InsertionAgrees(order, views, v, a, b);
  }

  /** PhFppRemoveViewByBase */
  method RemoveViewByBase(tree: Tree.AvlTree, v: View, ghost order: seq<View>, ghost views: Records)
    requires tree.Valid() && Represents(tree, order, views) && Distinct(order) && v in order
    modifies tree
    ensures tree.Valid() && Represents(tree, Without(order, v), views - {v})
  {
    tree.Remove(v);
    ghost var a, b :| order == a + [v] + b && tree.Contents() == a + b;
    RemovalAgrees(order, v, a, b);
    WithoutIs(order, v);
  }

  /** The search in PhFppFindViewByBase, for an element x that has the address sought. */
  method FindViewByBase(tree: Tree.AvlTree, x: View, ghost order: seq<View>, ghost views: Records) returns (found: Found)
    requires tree.Valid() && Represents(tree, order, views) && tree.rank(x) >= 0
    ensures found == FilePoolView.UpperDualBound(order, views, tree.rank(x))
  {
    var closest;
    ghost var a, b;
    closest, a, b := Walk.UpperDualBound(tree, x);
    SearchAgrees(tree, order, views, x, a, b);
    assert a != [] ==> a[|a| - 1] in order;
    found := if closest == 0 then NoView else Found(closest);
  }
}
