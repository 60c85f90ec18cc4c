/** What a bounding volume hierarchy in its flat arrays stands for. */
module BvhShape {
  import opened Shuffling
  import opened Slabs
  import opened Vectors

  datatype Primitive = Primitive(id: nat, bounds: Aabb, centroid: Vec3)

  datatype Node = Node(bounds: Aabb, left: int, right: int, offset: nat, count: nat, isLeaf: bool)

  /** The tree the child indices spell; `node` is the row of the subtree's root. */
  datatype Shape = Leaf(node: nat) | Fork(node: nat, low: Shape, high: Shape)

  function Size(s: Shape): (n: nat)
    ensures n > 0
  {
    match s
    case Leaf(_) => 1
    case Fork(_, l, h) => 1 + Size(l) + Size(h)
  }

  /** Edges on the longest path down. */
  function Height(s: Shape): nat {
    match s
    case Leaf(_) => 0
    case Fork(_, l, h) => 1 + if Height(l) > Height(h) then Height(l) else Height(h)
  }

  /** Every listed primitive exists and lies inside the box. */
  predicate Covers(prims: seq<Primitive>, listed: seq<nat>, box: Aabb) {
    forall i :: 0 <= i < |listed| ==> listed[i] < |prims| && Inside(prims[listed[i]].bounds, box)
  }

  /** The primitives of one row, as its offset and count select them. */
  function Listed(row: Node, order: seq<nat>): seq<nat>
    requires row.offset + row.count <= |order|
  {
    order[row.offset..row.offset + row.count]
  }

  /** The least box around the listed primitives: every other around them is around it. A box counts if it lies around
      the box of nothing, as all boxes of floats do. */
  ghost predicate Least(prims: seq<Primitive>, listed: seq<nat>, box: Aabb) {
    && Covers(prims, listed, box)
    && forall other :: Covers(prims, listed, other) && Inside(EmptyBox(), other) ==> Inside(box, other)
  }

  // --- How rows are made ---

  const FLAT_EXTENT: real := 0.000001

  /** Primitives a leaf may hold without being flat. */
  const LEAF_SIZE: nat := 2

  /** The bounds of the listed primitives, merged one by one. */
  function BoundsOf(prims: seq<Primitive>, listed: seq<nat>): Aabb {
    if listed == [] then EmptyBox()
    else
      var k := listed[|listed| - 1];
      var rest := BoundsOf(prims, listed[..|listed| - 1]);
      if k < |prims| then Merge(prims[k].bounds, rest) else rest
  }

  lemma {:induction false} BoundsAreInside(prims: seq<Primitive>, listed: seq<nat>, other: Aabb)
    requires Covers(prims, listed, other) && Inside(EmptyBox(), other)
    ensures Inside(BoundsOf(prims, listed), other)
    decreases |listed|
  {
    if listed != [] { BoundsAreInside(prims, listed[..|listed| - 1], other); }
  }

  /** Merging one by one gives the least box. */
  lemma BoundsAreLeast(prims: seq<Primitive>, listed: seq<nat>)
    requires Covers(prims, listed, BoundsOf(prims, listed))
    ensures Least(prims, listed, BoundsOf(prims, listed))
  {
    hide Covers, BoundsOf;
    forall other | Covers(prims, listed, other) && Inside(EmptyBox(), other)
      ensures Inside(BoundsOf(prims, listed), other)
    {
      BoundsAreInside(prims, listed, other);
    }
  }

  /** One face of the centroid bounds: a centroid touches it, unless it never moved. */
  ghost predicate Touched(prims: seq<Primitive>, listed: seq<nat>, axis: nat, face: real, start: real) {
    face == start || exists k :: k in listed && k < |prims| && prims[k].centroid.At(axis) == face
  }

  /** The bounds of the listed centroids. */
  ghost predicate CentroidBox(prims: seq<Primitive>, listed: seq<nat>, box: Aabb) {
    && (forall k :: k in listed && k < |prims| ==> Inside(Aabb(prims[k].centroid, prims[k].centroid), box))
    && (forall axis: nat :: axis < 3 ==>
          Touched(prims, listed, axis, box.min.At(axis), FLT_MAX)
          && Touched(prims, listed, axis, box.max.At(axis), -FLT_MAX))
  }

  predicate Widest(box: Aabb, axis: nat) {
    axis < 3 && forall other: nat :: other < 3 ==> Extent(box, other) <= Extent(box, axis)
  }

  function Extent(box: Aabb, axis: nat): real {
    box.max.At(axis) - box.min.At(axis)
  }

  function Middle(box: Aabb, axis: nat): real {
    0.5 * (box.min.At(axis) + box.max.At(axis))
  }

  ghost predicate AllBefore(prims: seq<Primitive>, listed: seq<nat>, axis: nat, split: real) {
    forall k :: k in listed && k < |prims| ==> prims[k].centroid.At(axis) < split
  }

  ghost predicate NoneBefore(prims: seq<Primitive>, listed: seq<nat>, axis: nat, split: real) {
    forall k :: k in listed && k < |prims| ==> prims[k].centroid.At(axis) >= split
  }

  /** Cut at the split, or in half when all lie on one side of it. */
  ghost predicate CutAt(prims: seq<Primitive>, low: seq<nat>, high: seq<nat>, axis: nat, split: real) {
    || (AllBefore(prims, low, axis, split) && NoneBefore(prims, high, axis, split))
    || (|low| == (|low| + |high|) / 2
        && (AllBefore(prims, low + high, axis, split) || NoneBefore(prims, low + high, axis, split)))
  }

  ghost predicate CutAcross(prims: seq<Primitive>, low: seq<nat>, high: seq<nat>, box: Aabb, axis: nat) {
    && CentroidBox(prims, low + high, box) && Widest(box, axis) && Extent(box, axis) > FLAT_EXTENT
    && CutAt(prims, low, high, axis, Middle(box, axis))
  }

  /** The primitives of a fork are more than a leaf holds, and are cut in the middle of their widest axis. */
  ghost predicate Cut(prims: seq<Primitive>, low: seq<nat>, high: seq<nat>) {
    |low| + |high| > LEAF_SIZE && exists box, axis :: CutAcross(prims, low, high, box, axis)
  }

  /** A leaf holds few primitives or lies flat, and its box is the least around them. */
  ghost predicate LeafMade(prims: seq<Primitive>, listed: seq<nat>, bounds: Aabb) {
    && bounds == BoundsOf(prims, listed)
    && (|listed| <= LEAF_SIZE || exists box, axis :: Flat(prims, listed, box, axis))
  }

  ghost predicate Flat(prims: seq<Primitive>, listed: seq<nat>, box: Aabb, axis: nat) {
    CentroidBox(prims, listed, box) && Widest(box, axis) && Extent(box, axis) <= FLAT_EXTENT
  }

  lemma NoCentroids(prims: seq<Primitive>)
    ensures CentroidBox(prims, [], EmptyBox())
  {
  }

  lemma CentroidExpanded(prims: seq<Primitive>, listed: seq<nat>, k: nat, box: Aabb)
    requires CentroidBox(prims, listed, box) && k < |prims|
    ensures CentroidBox(prims, listed + [k], Expand(prims[k].centroid, box))
  {
    var c, box', listed' := prims[k].centroid, Expand(prims[k].centroid, box), listed + [k];
    assert listed'[|listed|] == k;
    forall axis: nat | axis < 3
      ensures Touched(prims, listed', axis, box'.min.At(axis), FLT_MAX)
              && Touched(prims, listed', axis, box'.max.At(axis), -FLT_MAX)
    {
      assert Touched(prims, listed, axis, box.min.At(axis), FLT_MAX)
             && Touched(prims, listed, axis, box.max.At(axis), -FLT_MAX);
      assert box'.min.At(axis) == Min(box.min.At(axis), c.At(axis))
             && box'.max.At(axis) == Max(box.max.At(axis), c.At(axis));
    }
  }

  lemma BoundsMerged(prims: seq<Primitive>, listed: seq<nat>, k: nat, box: Aabb)
    requires k < |prims| && Covers(prims, listed, box) && box == BoundsOf(prims, listed)
    ensures Covers(prims, listed + [k], Merge(prims[k].bounds, box))
    ensures BoundsOf(prims, listed + [k]) == Merge(prims[k].bounds, box)
  {
    assert (listed + [k])[..|listed|] == listed;
  }

  lemma LeafFrom(prims: seq<Primitive>, listed: seq<nat>, bounds: Aabb, box: Aabb, axis: nat)
    requires bounds == BoundsOf(prims, listed) && (|listed| <= LEAF_SIZE || Extent(box, axis) <= FLAT_EXTENT)
    requires CentroidBox(prims, listed, box) && Widest(box, axis)
    ensures LeafMade(prims, listed, bounds)
  {
    hide CentroidBox, Widest, Extent;
    if |listed| > LEAF_SIZE { assert Flat(prims, listed, box, axis); }
  }

  /** A partition about the split is a cut there, and so is halving it when one side is empty. */
  lemma Sides(prims: seq<Primitive>, order: seq<nat>, offset: nat, k: nat, count: nat, axis: nat, split: real)
    requires k <= count && offset + count <= |order| && Valid(order, offset, count, |prims|)
    requires forall i :: offset <= i < offset + k ==> prims[order[i]].centroid.At(axis) < split
    requires forall i :: offset + k <= i < offset + count ==> prims[order[i]].centroid.At(axis) >= split
    ensures var half := if k == 0 || k == count then count / 2 else k;
            CutAt(prims, order[offset..offset + half], order[offset + half..offset + count], axis, split)
  {
    var half := if k == 0 || k == count then count / 2 else k;
    var low, high := order[offset..offset + half], order[offset + half..offset + count];
    assert forall i :: 0 <= i < |low| ==> low[i] == order[offset + i];
    assert forall i :: 0 <= i < |high| ==> high[i] == order[offset + half + i];
  }

  lemma CutReordered(prims: seq<Primitive>, order: seq<nat>, order': seq<nat>, offset: nat, k: nat, count: nat,
                     box: Aabb, axis: nat)
    requires LEAF_SIZE < count && k <= count && Reordered(order, order', offset, count)
    requires CentroidBox(prims, order[offset..offset + count], box) && Widest(box, axis)
             && Extent(box, axis) > FLAT_EXTENT
    requires CutAt(prims, order'[offset..offset + k], order'[offset + k..offset + count], axis, Middle(box, axis))
    ensures Cut(prims, order'[offset..offset + k], order'[offset + k..offset + count])
  {
    hide CentroidBox, Widest, Extent, Middle, CutAt, Cut;
    var low, high := order'[offset..offset + k], order'[offset + k..offset + count];
    assert low + high == order'[offset..offset + count];
    SameMembers(order[offset..offset + count], order'[offset..offset + count]);
    CentroidBoxPermuted(prims, order[offset..offset + count], low + high, box);
    CutFrom(prims, low, high, box, axis);
  }

  lemma CentroidBoxPermuted(prims: seq<Primitive>, listed: seq<nat>, listed': seq<nat>, box: Aabb)
    requires CentroidBox(prims, listed, box) && forall k :: k in listed <==> k in listed'
    ensures CentroidBox(prims, listed', box)
  {
    hide Inside;
    forall axis: nat | axis < 3
      ensures Touched(prims, listed', axis, box.min.At(axis), FLT_MAX)
              && Touched(prims, listed', axis, box.max.At(axis), -FLT_MAX)
    {
      assert Touched(prims, listed, axis, box.min.At(axis), FLT_MAX)
             && Touched(prims, listed, axis, box.max.At(axis), -FLT_MAX);
    }
  }

  lemma SameMembers(a: seq<nat>, b: seq<nat>)
    requires multiset(a) == multiset(b)
    ensures |a| == |b| && forall k :: k in a <==> k in b
  {
    assert |multiset(a)| == |multiset(b)|;
    forall k ensures k in a <==> k in b {
      assert k in a <==> k in multiset(a);
      assert k in b <==> k in multiset(b);
    }
  }

  /** Reordering the two sides of a cut leaves it a cut. */
  lemma CutPermuted(prims: seq<Primitive>, low: seq<nat>, high: seq<nat>, low': seq<nat>, high': seq<nat>)
    requires Cut(prims, low, high) && multiset(low') == multiset(low) && multiset(high') == multiset(high)
    ensures Cut(prims, low', high')
  {
    var box, axis :| CutAcross(prims, low, high, box, axis);
    hide Cut, CentroidBox, Inside, Widest, Extent, Middle;
    SameMembers(low', low);
    SameMembers(high', high);
    forall k ensures k in low + high <==> k in low' + high' {
    }
    CentroidBoxPermuted(prims, low + high, low' + high', box);
    assert CutAcross(prims, low', high', box, axis);
    CutFrom(prims, low', high', box, axis);
  }

  lemma CutFrom(prims: seq<Primitive>, low: seq<nat>, high: seq<nat>, box: Aabb, axis: nat)
    requires CutAcross(prims, low, high, box, axis) && |low| + |high| > LEAF_SIZE
    ensures Cut(prims, low, high)
  {
    hide CutAcross;
  }

  // --- What the rows stand for ---

  predicate RowFits(rows: seq<Node>, order: seq<nat>, r: nat) {
    r < |rows| && rows[r].count > 0 && rows[r].offset + rows[r].count <= |order|
  }

  /** The rows and the primitive order represent `s`: rows in preorder, every box the least around its primitives, the
      ranges of siblings side by side and together their parent's, leaves and forks as the build makes them. */
  ghost predicate Represents(rows: seq<Node>, order: seq<nat>, prims: seq<Primitive>, s: Shape) {
    && RowFits(rows, order, s.node)
    && Least(prims, Listed(rows[s.node], order), rows[s.node].bounds)
    && rows[s.node].isLeaf == s.Leaf?
    && (s.Leaf? ==> rows[s.node].left == -1 && rows[s.node].right == -1
                    && LeafMade(prims, Listed(rows[s.node], order), rows[s.node].bounds))
    && (s.Fork? ==>
          && Siblings(rows, s.node, s.low.node, s.high.node)
          && s.low.node == s.node + 1 && s.high.node == s.low.node + Size(s.low)
          && Represents(rows, order, prims, s.low)
          && Represents(rows, order, prims, s.high)
          && RowFits(rows, order, s.low.node) && RowFits(rows, order, s.high.node)
          && Cut(prims, Listed(rows[s.low.node], order), Listed(rows[s.high.node], order)))
  }

  predicate Siblings(rows: seq<Node>, parent: nat, low: nat, high: nat) {
    && parent < |rows| && low < |rows| && high < |rows|
    && rows[parent].left == low && rows[parent].right == high
    && rows[low].offset == rows[parent].offset
    && rows[high].offset == rows[parent].offset + rows[low].count
    && rows[parent].count == rows[low].count + rows[high].count
  }

  lemma {:induction false} LastRow(rows: seq<Node>, order: seq<nat>, prims: seq<Primitive>, s: Shape)
    requires Represents(rows, order, prims, s)
    ensures s.node + Size(s) <= |rows|
  {
    hide Least, Cut, LeafMade;
    if s.Fork? { LastRow(rows, order, prims, s.high); }
  }

  /** Every fork splits three primitives or more, so a tree over n primitives with a fork is at most n - 2 high,
      and a tree over n primitives has at most 2n - 1 rows. */
  lemma {:induction false} HeightBelowCount(rows: seq<Node>, order: seq<nat>, prims: seq<Primitive>, s: Shape)
    requires Represents(rows, order, prims, s)
    ensures Height(s) == 0 || Height(s) + 2 <= rows[s.node].count
    ensures Size(s) <= 2 * rows[s.node].count - 1
  {
    hide Least, LeafMade, CutAcross;
    if s.Fork? {
      HeightBelowCount(rows, order, prims, s.low);
      HeightBelowCount(rows, order, prims, s.high);
    }
  }

  /** The primitives of a fork are those of its children, one after the other. */
  lemma ListedTogether(rows: seq<Node>, order: seq<nat>, prims: seq<Primitive>, s: Shape)
    requires Represents(rows, order, prims, s) && s.Fork?
    ensures RowFits(rows, order, s.low.node) && RowFits(rows, order, s.high.node)
    ensures Listed(rows[s.node], order) == Listed(rows[s.low.node], order) + Listed(rows[s.high.node], order)
    ensures Cut(prims, Listed(rows[s.low.node], order), Listed(rows[s.high.node], order))
  {
    hide Least, LeafMade, Cut;
  }

  /** Rows behind a subtree do not matter to it. */
  lemma {:induction false} RowsSuffice(rows: seq<Node>, order: seq<nat>, prims: seq<Primitive>, s: Shape, n: nat)
    requires Represents(rows, order, prims, s) && s.node + Size(s) <= n <= |rows|
    ensures Represents(rows[..n], order, prims, s)
    decreases s
  {
    hide Least, Cut, LeafMade;
    if s.Fork? {
      RowsSuffice(rows, order, prims, s.low, n);
      RowsSuffice(rows, order, prims, s.high, n);
    }
  }

  /** A subtree only depends on its own rows and its own stretch of the order. */
  lemma {:induction false} RepresentsFrame(rows: seq<Node>, order: seq<nat>, rows': seq<Node>, order': seq<nat>,
                                           prims: seq<Primitive>, s: Shape)
    requires Represents(rows, order, prims, s)
    requires |rows'| == |rows| && |order'| == |order|
    requires forall r :: s.node <= r < s.node + Size(s) && r < |rows| ==> rows'[r] == rows[r]
    requires Listed(rows[s.node], order') == Listed(rows[s.node], order)
    ensures Represents(rows', order', prims, s)
    decreases s
  {
    hide Least, Cut, LeafMade;
    if s.Fork? {
      LastRow(rows, order, prims, s);
      LastRow(rows, order, prims, s.low);
      var p, l, h := rows[s.node], rows[s.low.node], rows[s.high.node];
      SplitListed(p, l, h, order, order');
      RepresentsFrame(rows, order, rows', order', prims, s.low);
      RepresentsFrame(rows, order, rows', order', prims, s.high);
    }
  }

  lemma SplitListed(p: Node, l: Node, h: Node, order: seq<nat>, order': seq<nat>)
    requires |order| == |order'| && p.offset + p.count <= |order|
    requires l.offset == p.offset && h.offset == p.offset + l.count && p.count == l.count + h.count
    requires Listed(p, order') == Listed(p, order)
    ensures Listed(l, order') == Listed(l, order) && Listed(h, order') == Listed(h, order)
  {
    assert Listed(l, order) == Listed(p, order)[..l.count] && Listed(l, order') == Listed(p, order')[..l.count];
    assert Listed(h, order) == Listed(p, order)[l.count..] && Listed(h, order') == Listed(p, order')[l.count..];
  }

  /** Permuting the listed primitives does not uncover any. */
  lemma CoversPermuted(prims: seq<Primitive>, listed: seq<nat>, listed': seq<nat>, box: Aabb)
    requires Covers(prims, listed, box) && multiset(listed') == multiset(listed)
    ensures Covers(prims, listed', box)
  {
    hide Inside;
    forall i | 0 <= i < |listed'|
      ensures listed'[i] < |prims| && Inside(prims[listed'[i]].bounds, box)
    {
      assert listed'[i] in multiset(listed);
      var j :| 0 <= j < |listed| && listed[j] == listed'[i];
    }
  }

  lemma LeastPermuted(prims: seq<Primitive>, listed: seq<nat>, listed': seq<nat>, box: Aabb)
    requires Least(prims, listed, box) && multiset(listed') == multiset(listed)
    ensures Least(prims, listed', box)
  {
    hide Covers, Inside;
    CoversPermuted(prims, listed, listed', box);
    forall other | Covers(prims, listed', other) && Inside(EmptyBox(), other) ensures Inside(box, other) {
      CoversPermuted(prims, listed', listed, other);
    }
  }

  /** A primitive listed under a fork is listed under one of its children. */
  lemma ChildrenListAll(rows: seq<Node>, order: seq<nat>, prims: seq<Primitive>, s: Shape, p: nat)
    requires Represents(rows, order, prims, s) && s.Fork? && p in Listed(rows[s.node], order)
    ensures p in Listed(rows[s.low.node], order) || p in Listed(rows[s.high.node], order)
  {
    hide Least, Cut, LeafMade;
    ListedTogether(rows, order, prims, s);
  }

  /** What building over a stretch of the order does to the flat arrays: a subtree in the next free
      rows that lists exactly the primitives of the stretch, and nothing else touched. */
  ghost predicate Delivered(prims: seq<Primitive>, rows: seq<Node>, order: seq<nat>, next: nat,
                            rows': seq<Node>, order': seq<nat>, next': nat, offset: nat, count: nat, root: int,
                            s: Shape)
  {
    && |rows'| == |rows| && next <= |rows| && rows'[..next] == rows[..next]
    && Reordered(order, order', offset, count)
    && (if count == 0 then root == -1 && next' == next
        else
          && root == next == s.node && next' == next + Size(s) && Size(s) <= 2 * count - 1
          && Represents(rows', order', prims, s)
          && rows'[s.node].offset == offset && rows'[s.node].count == count)
  }

  /** Only the stretch changed, and it only changed its order. */
  ghost predicate Reordered(order: seq<nat>, order': seq<nat>, offset: nat, count: nat) {
    Shuffled(order, order', offset, offset + count)
  }

  /** Reordering two neighbouring stretches reorders the stretch they form. */
  lemma ReorderedHalves(order: seq<nat>, order1: seq<nat>, order2: seq<nat>, offset: nat, k: nat, count: nat)
    requires k <= count && Reordered(order, order1, offset, k) && Reordered(order1, order2, offset + k, count - k)
    ensures Reordered(order, order2, offset, count)
    ensures order2[offset..offset + k] == order1[offset..offset + k]
  {
    assert offset + count <= |order|;
    var all, all2 := order[offset..offset + count], order2[offset..offset + count];
    assert order2[offset..offset + k] == order2[..offset + k][offset..];
    assert order1[offset..offset + k] == order1[..offset + k][offset..];
    assert order1[offset + k..offset + count] == order1[offset + k..][..count - k];
    assert order[offset + k..offset + count] == order[offset + k..][..count - k];
    assert all == order[offset..offset + k] + order[offset + k..offset + count];
    assert all2 == order2[offset..offset + k] + order2[offset + k..offset + count];
    assert order2[..offset] == order2[..offset + k][..offset] && order1[..offset] == order1[..offset + k][..offset];
    assert order1[offset + count..] == order1[offset + k..][count - k..]
           && order[offset + count..] == order[offset + k..][count - k..];
  }

  lemma LeafDelivered(prims: seq<Primitive>, rows: seq<Node>, order: seq<nat>, next: nat, offset: nat, count: nat,
                      box: Aabb)
    requires next < |rows| && count > 0 && offset + count <= |order|
             && Least(prims, order[offset..offset + count], box)
    requires LeafMade(prims, order[offset..offset + count], box)
    ensures Delivered(prims, rows, order, next, rows[next := Node(box, -1, -1, offset, count, true)], order, next + 1,
                      offset, count, next, Leaf(next))
  {
    hide Least, LeafMade;
  }

  lemma ForkDelivered(prims: seq<Primitive>, rows: seq<Node>, order: seq<nat>, next: nat, offset: nat, count: nat,
                      box: Aabb,
                      order1: seq<nat>, k: nat, rows2: seq<Node>, order2: seq<nat>, next2: nat, left: int, low: Shape,
                      rows3: seq<Node>, order3: seq<nat>, next3: nat, right: int, high: Shape)
    requires 0 < k < count && next < |rows|
    requires Reordered(order, order1, offset, count) && Least(prims, order1[offset..offset + count], box)
    requires Cut(prims, order1[offset..offset + k], order1[offset + k..offset + count])
    requires Delivered(prims, rows[next := Node(box, -1, -1, offset, count, false)], order1, next + 1, rows2, order2,
                       next2, offset, k, left, low)
    requires Delivered(prims, rows2, order2, next2, rows3, order3, next3, offset + k, count - k, right, high)
    ensures Delivered(prims, rows, order, next, rows3[next := Node(box, left, right, offset, count, false)], order3,
                      next3, offset, count, next, Fork(next, low, high))
  {
    hide Least, Represents, Reordered, Cut;
    var rows4 := rows3[next := Node(box, left, right, offset, count, false)];
    ForkOrders(prims, order, order1, order2, order3, offset, k, count, box);
    LastRow(rows2, order2, prims, low);
    LastRow(rows3, order3, prims, high);
    forall r | 0 <= r < next2 ensures rows3[r] == rows2[r] {
      assert rows3[..next2][r] == rows2[..next2][r];
    }
    RepresentsFrame(rows2, order2, rows4, order3, prims, low);
    RepresentsFrame(rows3, order3, rows4, order3, prims, high);
    ForkRepresented(prims, rows4, order3, next, offset, count, k, box, low, high);
    assert rows4[..next] == rows[..next] by {
      assert rows3[..next] == rows3[..next2][..next] && rows2[..next] == rows2[..next + 1][..next];
      assert rows2[..next2][..next] == rows2[..next];
      assert rows[next := Node(box, -1, -1, offset, count, false)][..next + 1][..next] == rows[..next];
    }
  }

  lemma ForkOrders(prims: seq<Primitive>, order: seq<nat>, order1: seq<nat>, order2: seq<nat>, order3: seq<nat>,
                   offset: nat, k: nat, count: nat, box: Aabb)
    requires 0 < k < count && Reordered(order, order1, offset, count)
             && Least(prims, order1[offset..offset + count], box)
    requires Cut(prims, order1[offset..offset + k], order1[offset + k..offset + count])
    requires Reordered(order1, order2, offset, k) && Reordered(order2, order3, offset + k, count - k)
    ensures Reordered(order, order3, offset, count) && offset + count <= |order3| == |order2|
    ensures Cut(prims, order3[offset..offset + k], order3[offset + k..offset + count])
    ensures order3[offset..offset + k] == order2[offset..offset + k]
            && Least(prims, order3[offset..offset + count], box)
  {
    hide Least, Cut;
    assert order1[offset + k..offset + count] == order1[offset + k..][..count - k]
           == order2[offset + k..][..count - k] == order2[offset + k..offset + count];
    CutBoth(prims, order1, order2, order3, offset, k, count);
    ReorderedHalves(order1, order2, order3, offset, k, count);
    ShuffledTwice(order, order1, order3, offset, offset + count);
    LeastPermuted(prims, order1[offset..offset + count], order3[offset..offset + count], box);
  }

  lemma CutBoth(prims: seq<Primitive>, order1: seq<nat>, order2: seq<nat>, order3: seq<nat>, offset: nat, k: nat,
                count: nat)
    requires k <= count && Reordered(order1, order2, offset, k) && Reordered(order2, order3, offset + k, count - k)
    requires offset + count <= |order1| && order1[offset + k..offset + count] == order2[offset + k..offset + count]
    requires Cut(prims, order1[offset..offset + k], order1[offset + k..offset + count])
    ensures Cut(prims, order3[offset..offset + k], order3[offset + k..offset + count])
  {
    hide Cut;
    assert order3[offset..offset + k] == order3[..offset + k][offset..] == order2[..offset + k][offset..]
           == order2[offset..offset + k];
    CutPermuted(prims, order1[offset..offset + k], order1[offset + k..offset + count],
                order3[offset..offset + k], order3[offset + k..offset + count]);
  }

  /** A row over two neighbouring subtrees makes a fork. */
  lemma ForkRepresented(prims: seq<Primitive>, rows: seq<Node>, order: seq<nat>, next: nat, offset: nat, count: nat,
                        k: nat, box: Aabb, low: Shape, high: Shape)
    requires 0 < k < count && offset + count <= |order| && Least(prims, order[offset..offset + count], box)
    requires Cut(prims, order[offset..offset + k], order[offset + k..offset + count])
    requires low.node == next + 1 && high.node == low.node + Size(low) && high.node < |rows|
    requires rows[next] == Node(box, low.node, high.node, offset, count, false)
    requires rows[low.node].offset == offset && rows[low.node].count == k
    requires rows[high.node].offset == offset + k && rows[high.node].count == count - k
    requires Represents(rows, order, prims, low) && Represents(rows, order, prims, high)
    ensures Represents(rows, order, prims, Fork(next, low, high))
  {
    hide Least, Cut, LeafMade;
    assert Listed(rows[low.node], order) == order[offset..offset + k];
    assert Listed(rows[high.node], order) == order[offset + k..offset + count];
  }

  /** The entries of a stretch are primitive numbers. */
  predicate Valid(order: seq<nat>, offset: nat, count: nat, n: nat) {
    forall i :: offset <= i < offset + count && i < |order| ==> order[i] < n
  }

  lemma ReorderedValid(order: seq<nat>, order': seq<nat>, offset: nat, count: nat, n: nat)
    requires Reordered(order, order', offset, count) && Valid(order, offset, count, n)
    ensures Valid(order', offset, count, n)
  {
    var a, b := order[offset..offset + count], order'[offset..offset + count];
    forall i | offset <= i < offset + count ensures order'[i] < n {
      assert b[i - offset] in multiset(a);
      var j :| 0 <= j < |a| && a[j] == b[i - offset];
      assert a[j] == order[offset + j];
    }
  }

  lemma ReorderedElsewhere(order: seq<nat>, order': seq<nat>, offset: nat, k: nat, count: nat, n: nat)
    requires Reordered(order, order', offset, k) && k <= count && offset + count <= |order|
             && Valid(order, offset, count, n)
    ensures Valid(order', offset + k, count - k, n)
  {
    forall i | offset + k <= i < offset + count ensures order'[i] < n {
      assert order'[i] == order'[offset + k..][i - offset - k];
      assert order[i] == order[offset + k..][i - offset - k];
    }
  }

  lemma DeliveredReorders(prims: seq<Primitive>, rows: seq<Node>, order: seq<nat>, next: nat,
                          rows': seq<Node>, order': seq<nat>, next': nat, offset: nat, count: nat, root: int, s: Shape)
    requires Delivered(prims, rows, order, next, rows', order', next', offset, count, root, s)
    ensures Reordered(order, order', offset, count)
    ensures next' <= next + if count == 0 then 0 else 2 * count - 1
  {
  }

  lemma ValidHalves(order: seq<nat>, offset: nat, k: nat, count: nat, n: nat)
    requires k <= count && Valid(order, offset, count, n)
    ensures Valid(order, offset, k, n)
  {
  }

  lemma ReorderedKeepsLeast(prims: seq<Primitive>, order: seq<nat>, order': seq<nat>, offset: nat, count: nat,
                            box: Aabb)
    requires Reordered(order, order', offset, count) && Least(prims, order[offset..offset + count], box)
    ensures Least(prims, order'[offset..offset + count], box)
  {
    LeastPermuted(prims, order[offset..offset + count], order'[offset..offset + count], box);
  }

  lemma NothingDelivered(prims: seq<Primitive>, rows: seq<Node>, order: seq<nat>, next: nat, offset: nat)
    requires next <= |rows| && offset <= |order|
    ensures Delivered(prims, rows, order, next, rows, order, next, offset, 0, -1, Leaf(0))
  {
  }
}
