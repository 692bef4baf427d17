/** The view cache of a file pool (phlib/filepool.c): mapped segments, indexed by segment in hash
    buckets and by address in the AVL tree, and kept after their last use until there are too many.
    The tree is taken as the ordered sequence of its elements. */
module FilePoolView {
  import opened Sequences
  import opened PowersOfTwo
  import FilePool

  type View = nat  // the address of a PH_FILE_POOL_VIEW

  const BUCKETS: nat := 32  // ByIndexSize

  datatype Record = Record(segment: nat, base: nat, refCount: nat)

  type Records = map<View, Record>

  datatype Found = NoView | Found(view: View)

  // ---------------------------------------------------------------------------------------------
  // Parts of the file
  // ---------------------------------------------------------------------------------------------

  /** phlib/filepool.c:1044: where in the file the view of a segment begins, a 32-bit shift. */
  function FileOffset(size: nat, segment: nat): nat {
    segment * size % FilePool.WORD
  }

  /** Segments in reach of 32-bit addresses begin where they should, and no others do. */
  lemma FileOffsetRight(segmentShift: nat, segment: nat)
    requires 16 <= segmentShift <= 28
    ensures FileOffset(Power2(segmentShift), segment) == segment * Power2(segmentShift)
      <==> segment < FilePool.SegmentLimit(segmentShift)
  {
    Power2Values();
    Power2Sum(32 - segmentShift, segmentShift);
    hide Power2;
    var s, m := Power2(segmentShift), FilePool.SegmentLimit(segmentShift);
    if segment <= m {
      FilePool.Shifted(segment, s, m);
    } else {
      FilePool.Less(m, 0, segment, 0, s);
    }
    if segment == m {
      assert segment * s == FilePool.WORD;
    }
  }

  /** Views of two segments in reach never show the same byte of the file. */
  lemma FileRangesApart(segmentShift: nat, i: nat, j: nat)
    requires 16 <= segmentShift <= 28 && i < j < FilePool.SegmentLimit(segmentShift)
    ensures var size := Power2(segmentShift);
      FileOffset(size, i) + size <= FileOffset(size, j) && FileOffset(size, j) + size <= FilePool.WORD
  {
    FileOffsetRight(segmentShift, i);
    FileOffsetRight(segmentShift, j);
    Power2Values();
    Power2Sum(32 - segmentShift, segmentShift);
    hide Power2, FileOffset, Shown;
    var s, m := Power2(segmentShift), FilePool.SegmentLimit(segmentShift);
    FilePool.Less(i, s - 1, j, 0, s);
    FilePool.Less(j, s - 1, m, 0, s);
  }

  // ---------------------------------------------------------------------------------------------
  // The rings
  // ---------------------------------------------------------------------------------------------

  /** PhFppAddViewByIndex: behind the head of the ring. */
  function RingInsert(ring: seq<View>, v: View): seq<View> {
    if ring == [] then [v] else [ring[0], v] + ring[1..]
  }

  lemma RingInsertIs(ring: seq<View>, v: View)
    requires Distinct(ring) && v !in ring
    ensures Distinct(RingInsert(ring, v)) && forall x :: x in RingInsert(ring, v) <==> x in ring || x == v
  {
    if ring != [] {
      var r := RingInsert(ring, v);
      assert r[1..] == [v] + ring[1..] && r[1..][1..] == ring[1..];
      assert forall x :: x in ring <==> x == ring[0] || x in ring[1..];
    }
  }

  // ---------------------------------------------------------------------------------------------
  // The two indices
  // ---------------------------------------------------------------------------------------------

  ghost predicate ByIndex(buckets: seq<seq<View>>, views: Records) {
    && |buckets| == BUCKETS
    && (forall b :: 0 <= b < BUCKETS ==> Distinct(buckets[b]))
    && (forall b, v :: 0 <= b < BUCKETS ==> (v in buckets[b] <==> v in views && views[v].segment % BUCKETS == b))
  }

  ghost predicate OnePerSegment(views: Records) {
    forall v, w :: v in views && w in views && v != w ==> views[v].segment != views[w].segment
  }

  /** In order of their addresses, the views do not overlap. */
  ghost predicate Ordered(order: seq<View>, views: Records, size: nat) {
    && (forall v :: v in order ==> v in views)
    && (forall i, j :: 0 <= i < j < |order| ==> views[order[i]].base + size <= views[order[j]].base)
  }

  ghost predicate ByBase(order: seq<View>, views: Records, size: nat) {
    Ordered(order, views, size) && forall v :: v in views ==> v in order
  }

  predicate InRange(r: Record, size: nat, address: nat) { r.base <= address < r.base + size }

  ghost predicate Disjoint(views: Records, size: nat, base: nat) {
    forall v :: v in views ==> base + size <= views[v].base || views[v].base + size <= base
  }

  /** PhAddElementAvlTree, on the sequence of elements. */
  function OrderInsert(order: seq<View>, views: Records, v: View): seq<View>
    requires v in views && forall w :: w in order ==> w in views
  {
    if order == [] then [v]
    else if views[v].base < views[order[0]].base then [v] + order
    else [order[0]] + OrderInsert(order[1..], views, v)
  }

  lemma OrderedCons(v: View, order: seq<View>, views: Records, size: nat)
    requires Ordered(order, views, size) && v in views
    requires forall w :: w in order ==> views[v].base + size <= views[w].base
    ensures Ordered([v] + order, views, size)
  {
    var s := [v] + order;
    forall i, j | 0 <= i < j < |s| ensures views[s[i]].base + size <= views[s[j]].base {
      assert s[j] == order[j - 1] && order[j - 1] in order;
    }
  }

  lemma OrderedTail(order: seq<View>, views: Records, size: nat)
    requires Ordered(order, views, size) && order != []
    ensures Ordered(order[1..], views, size)
    ensures forall w :: w in order[1..] ==> views[order[0]].base + size <= views[w].base
    ensures forall x :: x in order <==> x == order[0] || x in order[1..]
  {
    var rest := order[1..];
    assert forall i :: 0 <= i < |rest| ==> rest[i] == order[i + 1];
  }

  lemma {:induction false} OrderInsertIs(order: seq<View>, views: Records, size: nat, v: View)
    requires v in views && v !in order && Ordered(order, views, size)
    requires forall w :: w in order ==> views[v].base + size <= views[w].base || views[w].base + size <= views[v].base
    ensures Ordered(OrderInsert(order, views, v), views, size)
    ensures forall x :: x in OrderInsert(order, views, v) <==> x in order || x == v
    decreases order
  {
    if order != [] {
      OrderedTail(order, views, size);
      if views[v].base < views[order[0]].base {
        hide Ordered;
        OrderedCons(v, order, views, size);
      } else {
        OrderInsertIs(order[1..], views, size, v);
        hide Ordered;
        OrderedCons(order[0], OrderInsert(order[1..], views, v), views, size);
      }
    }
  }

  lemma {:induction false} OrderDistinct(order: seq<View>, views: Records, size: nat)
    requires Ordered(order, views, size) && size > 0
    ensures Distinct(order)
    decreases order
  {
    if order != [] {
      var rest := order[1..];
      assert forall i :: 0 <= i < |rest| ==> rest[i] == order[i + 1];
      OrderDistinct(rest, views, size);
    }
  }

  /** PhRemoveElementAvlTree, on the sequence of elements. */
  lemma {:induction false} OrderRemoved(order: seq<View>, views: Records, size: nat, v: View)
    requires Ordered(order, views, size) && size > 0
    ensures Ordered(Without(order, v), views, size)
    decreases order
  {
    if order != [] {
      OrderedTail(order, views, size);
      OrderDistinct(order[1..], views, size);
      WithoutIs(order[1..], v);
      if order[0] != v {
        OrderRemoved(order[1..], views, size, v);
        hide Ordered;
        OrderedCons(order[0], Without(order[1..], v), views, size);
      }
    }
  }

  /** Only the reference count of v has changed. */
  lemma SameIndices(buckets: seq<seq<View>>, order: seq<View>, views: Records, size: nat, v: View, n: nat)
    requires ByIndex(buckets, views) && ByBase(order, views, size) && OnePerSegment(views) && v in views
    ensures var views' := views[v := views[v].(refCount := n)];
      && ByIndex(buckets, views') && ByBase(order, views', size) && OnePerSegment(views')
      && forall shown :: Shown(shown, views, size) ==> Shown(shown, views', size)
  {
  }

  /** PhUpperDualBoundElementAvlTree: the last view that does not begin behind the address. */
  function UpperDualBound(order: seq<View>, views: Records, address: nat): Found
    requires forall w :: w in order ==> w in views
  {
    if order == [] then NoView
    else
      var last := order[|order| - 1];
      if views[last].base <= address then Found(last) else UpperDualBound(order[..|order| - 1], views, address)
  }

  lemma {:induction false} UpperDualBoundIs(order: seq<View>, views: Records, size: nat, address: nat)
    requires Ordered(order, views, size) && size > 0
    ensures var f := UpperDualBound(order, views, address);
      && (f.Found? ==> f.view in order && views[f.view].base <= address)
      && forall v :: v in order && InRange(views[v], size, address) ==> f == Found(v)
    decreases order
  {
    if order != [] {
      var n := |order| - 1;
      var before := order[..n];
      assert forall v :: v in order <==> v in before || v == order[n];
      if views[order[n]].base <= address {
        assert forall i :: 0 <= i < n ==> views[order[i]].base + size <= views[order[n]].base;
      } else {
        UpperDualBoundIs(before, views, size, address);
      }
    }
  }

  /** A view is found by its segment if and only if it is found by each address in its range; nothing
      else is found. */
  ghost predicate FoundBy(found: Found, views: Records, p: Record -> bool) {
    match found
    case NoView => forall v :: v in views ==> !p(views[v])
    case Found(view) => view in views && p(views[view]) && forall v :: v in views && p(views[v]) ==> v == view
  }

  /** The two indices agree: what is found by a segment is found by each address in its range, and what
      is found by an address is found by its segment. */
  lemma IndicesAgree(order: seq<View>, views: Records, size: nat, segment: nat, address: nat, bySegment: Found, byAddress: Found)
    requires ByBase(order, views, size) && OnePerSegment(views)
    requires FoundBy(bySegment, views, (r: Record) => r.segment == segment)
    requires FoundBy(byAddress, views, (r: Record) => InRange(r, size, address))
    ensures bySegment.Found? && InRange(views[bySegment.view], size, address) ==> byAddress == bySegment
    ensures byAddress.Found? && views[byAddress.view].segment == segment ==> bySegment == byAddress
  {
    if byAddress.Found? {
      assert InRange(views[byAddress.view], size, address);
    }
  }

  // ---------------------------------------------------------------------------------------------
  // Views come and go
  // ---------------------------------------------------------------------------------------------

  /** Each view shows the part of the file that PhFppMapRange was asked for. */
  ghost predicate Shown(shown: map<View, nat>, views: Records, size: nat) {
    && (forall v :: v in shown <==> v in views)
    && (forall v :: v in views ==> shown[v] == FileOffset(size, views[v].segment))
  }

  lemma ShownAdded(shown: map<View, nat>, views: Records, size: nat, v: View, r: Record)
    requires Shown(shown, views, size)
    ensures Shown(shown[v := FileOffset(size, r.segment)], views[v := r], size)
  {
  }

  lemma ShownRemoved(shown: map<View, nat>, views: Records, size: nat, v: View)
    requires Shown(shown, views, size)
    ensures Shown(shown - {v}, views - {v}, size)
  {
  }

  lemma IndexAdded(buckets: seq<seq<View>>, views: Records, v: View, r: Record)
    requires ByIndex(buckets, views) && v !in views
    ensures var b := r.segment % BUCKETS; ByIndex(buckets[b := RingInsert(buckets[b], v)], views[v := r])
  {
    var b := r.segment % BUCKETS;
    RingInsertIs(buckets[b], v);
    hide RingInsert, Distinct;
  }

  lemma IndexRemoved(buckets: seq<seq<View>>, views: Records, v: View)
    requires ByIndex(buckets, views) && v in views
    ensures var b := views[v].segment % BUCKETS; ByIndex(buckets[b := Without(buckets[b], v)], views - {v})
  {
    var b := views[v].segment % BUCKETS;
    WithoutIs(buckets[b], v);
    hide Without, Distinct;
  }

  lemma BaseAdded(order: seq<View>, views: Records, size: nat, v: View, r: Record)
    requires ByBase(order, views, size) && v !in views && Disjoint(views, size, r.base)
    ensures forall w :: w in order ==> w in views[v := r]
    ensures ByBase(OrderInsert(order, views[v := r], v), views[v := r], size)
  {
    assert Ordered(order, views[v := r], size);
    OrderInsertIs(order, views[v := r], size, v);
    hide Ordered, OrderInsert;
  }

  lemma BaseRemoved(order: seq<View>, views: Records, size: nat, v: View)
    requires ByBase(order, views, size) && v in views && size > 0
    ensures ByBase(Without(order, v), views - {v}, size)
  {
    OrderDistinct(order, views, size);
    WithoutIs(order, v);
    OrderRemoved(order, views, size, v);
    FewerViews(Without(order, v), views, size, v);
  }

  lemma FewerViews(order: seq<View>, views: Records, size: nat, v: View)
    requires Ordered(order, views, size) && v !in order
    ensures Ordered(order, views - {v}, size)
  {
    assert forall i :: 0 <= i < |order| ==> order[i] in order;
  }

  /** The inactive list holds the views nobody refers to. */
  ghost predicate Unused(inactive: seq<View>, views: Records) {
    && Distinct(inactive)
    && forall v :: v in inactive <==> v in views && views[v].refCount == 0
  }

  lemma Activated(inactive: seq<View>, views: Records, v: View)
    requires Unused(inactive, views) && v in views
    ensures Unused(if views[v].refCount == 0 then Without(inactive, v) else inactive,
                   views[v := views[v].(refCount := views[v].refCount + 1)])
    ensures views[v].refCount == 0 ==> |Without(inactive, v)| == |inactive| - 1
  {
    WithoutIs(inactive, v);
    hide Without, Distinct;
  }

  /** The views that are kept when `inactive` are unused: all, or all but the least recent of these. */
  function Kept(views: Records, inactive: seq<View>, maximum: nat): Records {
    if |inactive| <= maximum then views else views - {inactive[|inactive| - 1]}
  }

  /** A view with one reference less. */
  lemma Released(inactive: seq<View>, views: Records, v: View)
    requires Unused(inactive, views) && v in views && views[v].refCount > 0
    ensures var views' := views[v := views[v].(refCount := views[v].refCount - 1)];
      Unused(if views[v].refCount == 1 then [v] + inactive else inactive, views')
  {
    assert ([v] + inactive)[1..] == inactive;
  }

  /** The least recent inactive view goes. */
  lemma Evicted(inactive: seq<View>, views: Records)
    requires Unused(inactive, views) && inactive != []
    ensures var n := |inactive| - 1; inactive[n] in views && Unused(inactive[..n], views - {inactive[n]})
  {
    var n := |inactive| - 1;
    assert inactive == inactive[..n] + [inactive[n]];
    DistinctConcat(inactive[..n], [inactive[n]]);
    assert forall w :: w in inactive <==> w in inactive[..n] || w == inactive[n];
  }

  lemma OneMore(views: Records, v: View, r: Record)
    requires OnePerSegment(views) && v !in views && forall w :: w in views ==> views[w].segment != r.segment
    ensures OnePerSegment(views[v := r])
  {
  }

  class ViewCache {
    const segmentSize: nat
    const maximumInactiveViews: nat
    var views: Records
    var buckets: seq<seq<View>>    // ByIndexBuckets, each ring from its head
    var byBase: seq<View>          // ByBaseSet
    var inactive: seq<View>        // InactiveViewsListHead, the most recent first
    var numberOfInactiveViews: nat
    ghost var shown: map<View, nat>  // where in the file the mapped ranges begin

    ghost predicate Indices()
      reads this`views, this`buckets, this`byBase, this`shown
    {
      && segmentSize > 0 && ByIndex(buckets, views) && ByBase(byBase, views, segmentSize) && OnePerSegment(views)
      && Shown(shown, views, segmentSize)
    }

    /** A view is on the inactive list if and only if nobody refers to it. */
    ghost predicate Inactive()
      reads this
    {
      numberOfInactiveViews == |inactive| && Unused(inactive, views)
    }

    ghost predicate Valid()
      reads this
    {
      Indices() && Inactive() && numberOfInactiveViews <= maximumInactiveViews
    }

    constructor (segmentSize: nat, maximumInactiveViews: nat)
      requires segmentSize > 0
      ensures Valid() && views == map[]
    {
      this.segmentSize, this.maximumInactiveViews := segmentSize, maximumInactiveViews;
      views, shown := map[], map[];
      buckets := seq(BUCKETS, _ => []);
      byBase, inactive, numberOfInactiveViews := [], [], 0;
    }

    /** PhFppFindViewByIndex */
    method FindByIndex(segment: nat) returns (found: Found)
      requires Indices()
      ensures FoundBy(found, views, (r: Record) => r.segment == segment)
    {
      var ring := buckets[segment % BUCKETS];
      if ring == [] {
        return NoView;
      }
      var i := 0;
      while i < |ring|
        invariant 0 <= i <= |ring|
        invariant forall j :: 0 <= j < i ==> ring[j] in views && views[ring[j]].segment != segment
      {
        assert ring[i] in buckets[segment % BUCKETS];
        if views[ring[i]].segment == segment {
          return Found(ring[i]);
        }
        i := i + 1;
      }
      found := NoView;
      assert forall v :: v in views && views[v].segment == segment ==> v in ring;
    }

    /** PhFppFindViewByBase */
    method FindByBase(address: nat) returns (found: Found)
      requires Indices()
      ensures FoundBy(found, views, (r: Record) => InRange(r, segmentSize, address))
    {
      UpperDualBoundIs(byBase, views, segmentSize, address);
      found := UpperDualBound(byBase, views, address);
      if found.Found? && address >= views[found.view].base + segmentSize {
        found := NoView;
      }
    }

    /** PhFppCreateView, with the range that has been mapped. */
    method Create(segment: nat, base: nat, v: View)
      requires Valid() && v !in views && Disjoint(views, segmentSize, base)
      requires forall w :: w in views ==> views[w].segment != segment
      modifies this`views, this`buckets, this`byBase, this`shown
      ensures Valid() && views == old(views)[v := Record(segment, base, 1)]
    {
      var r := Record(segment, base, 1);
      ShownAdded(shown, views, segmentSize, v, r);
      OneMore(views, v, r);
      assert Unused(inactive, views[v := r]) && |buckets| == BUCKETS;
      IndexAdded(buckets, views, v, r);
      BaseAdded(byBase, views, segmentSize, v, r);
      hide ByIndex, ByBase, RingInsert, OrderInsert, FileOffset, Shown, OnePerSegment, Unused;
      views := views[v := r];
      var b := segment % BUCKETS;
      buckets := buckets[b := RingInsert(buckets[b], v)];
      byBase := OrderInsert(byBase, views, v);
      shown := shown[v := FileOffset(segmentSize, segment)];
    }

    /** PhFppDestroyView */
    method Destroy(v: View)
      requires Indices() && v in views
      modifies this`views, this`buckets, this`byBase, this`shown
      ensures Indices() && views == old(views) - {v}
    {
      ShownRemoved(shown, views, segmentSize, v);
      IndexRemoved(buckets, views, v);
      BaseRemoved(byBase, views, segmentSize, v);
      assert OnePerSegment(views - {v}) && |buckets| == BUCKETS;
      hide ByIndex, ByBase, Without, OnePerSegment, FileOffset, Shown;
      var b := views[v].segment % BUCKETS;
      buckets := buckets[b := Without(buckets[b], v)];
      byBase := Without(byBase, v);
      views := views - {v};
      shown := shown - {v};
    }

    /** A new reference count. */
    method SetCount(v: View, n: nat)
      requires Indices() && v in views
      modifies this`views
      ensures Indices() && views == old(views)[v := old(views)[v].(refCount := n)]
    {
      SameIndices(buckets, byBase, views, segmentSize, v, n);
      hide ByIndex, ByBase, OnePerSegment, Shown;
      views := views[v := views[v].(refCount := n)];
    }

    /** PhFppReferenceView */
    method Reference(v: View)
      requires Valid() && v in views
      modifies this`views, this`inactive, this`numberOfInactiveViews
      ensures Valid() && views == old(views)[v := old(views)[v].(refCount := old(views)[v].refCount + 1)]
    {
      hide Indices, Without, Unused;
      Activated(inactive, views, v);
      if views[v].refCount == 0 {
        inactive := Without(inactive, v);
        numberOfInactiveViews := numberOfInactiveViews - 1;
      }
      SetCount(v, views[v].refCount + 1);
    }

    /** PhFppDereferenceView, which raises an exception when the last reference to the first segment
        goes. A view without references becomes the most recent inactive one, and if there are now too
        many the least recent one is destroyed. */
    method Dereference(v: View) returns (raised: bool)
      requires Valid() && v in views && views[v].refCount > 0
      modifies this
      ensures raised <==> old(views)[v].refCount == 1 && old(views)[v].segment == 0
      ensures !raised ==> Valid()
      ensures !raised ==>
        var views' := old(views)[v := old(views)[v].(refCount := old(views)[v].refCount - 1)];
        views == if old(views)[v].refCount > 1 then views' else Kept(views', [v] + old(inactive), maximumInactiveViews)
    {
      Released(inactive, views, v);
      hide Indices, Unused, Kept;
      SetCount(v, views[v].refCount - 1);
      if views[v].refCount == 0 {
        if views[v].segment == 0 {
          return true;
        }
        Deactivate(v);
      }
      raised := false;
    }

    /** PhFppDeactivateView */
    method Deactivate(v: View)
      requires Indices() && Unused([v] + inactive, views) && numberOfInactiveViews == |inactive| <= maximumInactiveViews
      modifies this
      ensures Valid() && views == Kept(old(views), [v] + old(inactive), maximumInactiveViews)
    {
      hide Indices, Unused;
      ghost var all := [v] + inactive;
      inactive := [v] + inactive;
      numberOfInactiveViews := numberOfInactiveViews + 1;
      while numberOfInactiveViews > maximumInactiveViews
        invariant Indices() && Inactive() && numberOfInactiveViews <= maximumInactiveViews + 1
        invariant if numberOfInactiveViews == |all| then views == old(views) && inactive == all
                  else |all| > maximumInactiveViews && views == old(views) - {all[|all| - 1]}
        decreases numberOfInactiveViews
      {
        Evicted(inactive, views);
        var n := |inactive| - 1;
        var lru := inactive[n];
        inactive := inactive[..n];
        numberOfInactiveViews := numberOfInactiveViews - 1;
        Destroy(lru);
      }
    }
  }
}
