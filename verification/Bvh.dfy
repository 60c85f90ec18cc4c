/** The bounding volume hierarchy: built by partitioning the primitive order in place, queried
    with an explicit stack of 64 rows. */
module Bvh {
  import opened BvhQuery
  import opened BvhShape
  import opened RayPoints
  import opened Shuffling
  import opened Slabs
  import opened Vectors

  const MAX_PRIMITIVES: nat := 0x7FFF_FFFF

  class BvhTree {
    const rows: array<Node>
    const order: array<nat>
    var prims: seq<Primitive>
    var rowCount: nat
    ghost var shape: Shape

    /** What a successful build leaves: a tree over all primitives, each listed exactly once. */
    ghost predicate Built()
      reads this, rows, order
    {
      && rowCount <= rows.Length && Whole(rows[..rowCount], order[..], prims, shape) && shape.node == 0
      && order.Length == |prims| && rowCount == Size(shape) <= 2 * |prims| - 1
    }

    constructor (primitiveCount: nat)
      ensures fresh(rows) && fresh(order) && rowCount == 0 && prims == []
      ensures 0 < primitiveCount <= MAX_PRIMITIVES ==>
                order.Length == primitiveCount && rows.Length == 2 * primitiveCount + 1
      ensures primitiveCount == 0 || primitiveCount > MAX_PRIMITIVES ==> order.Length == 0 && rows.Length == 0
    {
      var n := if primitiveCount > MAX_PRIMITIVES then 0 else primitiveCount;
      rows := new Node[if n == 0 then 0 else 2 * n + 1](_ => Node(EmptyBox(), 0, 0, 0, 0, false));
      order := new nat[n](i => i);
      prims, rowCount, shape := [], 0, Leaf(0);
    }

    /** Bounds of a stretch of the order, and bounds of its centroids. */
    method Measure(offset: nat, count: nat) returns (bounds: Aabb, centroids: Aabb)
      requires offset + count <= order.Length && Valid(order[..], offset, count, |prims|)
      ensures Least(prims, order[offset..offset + count], bounds)
      ensures bounds == BoundsOf(prims, order[offset..offset + count])
      ensures CentroidBox(prims, order[offset..offset + count], centroids)
    {
      bounds, centroids := EmptyBox(), EmptyBox();
      NoCentroids(prims);
      hide CentroidBox;
      assert order[offset..offset] == [];
      for i := 0 to count
        invariant Covers(prims, order[offset..offset + i], bounds)
                  && bounds == BoundsOf(prims, order[offset..offset + i])
        invariant CentroidBox(prims, order[offset..offset + i], centroids)
      {
        var k := order[offset + i];
        var p := prims[k];
        assert order[offset..offset + i + 1] == order[offset..offset + i] + [k];
        CentroidExpanded(prims, order[offset..offset + i], k, centroids);
        BoundsMerged(prims, order[offset..offset + i], k, bounds);
        bounds := Merge(p.bounds, bounds);
        centroids := Expand(p.centroid, centroids);
      }
      BoundsAreLeast(prims, order[offset..offset + count]);
    }

    /** Moves primitives whose centroid lies before the split to the front of the stretch. */
    method Partition(offset: nat, count: nat, axis: nat, split: real) returns (boundary: nat)
      requires offset + count <= order.Length && Valid(order[..], offset, count, |prims|)
      modifies order
      ensures offset <= boundary <= offset + count
      ensures Reordered(old(order[..]), order[..], offset, count) && Valid(order[..], offset, count, |prims|)
      ensures Parted(prims, order[..], offset, boundary, boundary, offset + count, axis, split)
    {
      ghost var before, end := order[..], offset + count;
      var left: int, right: int := offset, offset + count - 1;
      ShuffledNot(before, offset, end);
      NothingParted(prims, before, offset, count, axis, split);
      hide Shuffled, Exchanged, Parted, Valid, Vec3.At;
      while left <= right
        invariant offset <= left <= right + 1 <= end && Shuffled(before, order[..], offset, end)
        invariant Parted(prims, order[..], offset, left, right + 1, end, axis, split)
      {
        ghost var now := order[..];
        PartStep(prims, now, offset, left, right, end, axis, split);
        if prims[order[left]].centroid.At(axis) < split {
          left := left + 1;
        } else {
          Exchange(order, left, right, offset, end);
          ShuffledTwice(before, now, order[..], offset, end);
          right := right - 1;
        }
      }
      boundary := left;
      ReorderedValid(before, order[..], offset, count, |prims|);
    }

    /** Partitions the stretch about the middle of its centroids, or halves it when that fails. */
    method Divide(offset: nat, count: nat, axis: nat, centroids: Aabb) returns (leftCount: nat)
      requires count >= 2 && offset + count <= order.Length && Valid(order[..], offset, count, |prims|)
      modifies order
      ensures 0 < leftCount < count
      ensures Reordered(old(order[..]), order[..], offset, count)
      ensures CutAt(prims, order[offset..offset + leftCount], order[offset + leftCount..offset + count], axis,
                    Middle(centroids, axis))
    {
      var split := 0.5 * (centroids.min.At(axis) + centroids.max.At(axis));
      hide Reordered, CutAt, Valid, Vec3.At;
      var boundary := Partition(offset, count, axis, split);
      leftCount := boundary - offset;
      Sides(prims, order[..], offset, leftCount, count, axis, split);
      if leftCount == 0 || leftCount == count { leftCount := count / 2; }
    }

    method BuildRecursive(offset: nat, count: nat) returns (root: int, ghost sub: Shape)
      requires offset + count <= order.Length && Valid(order[..], offset, count, |prims|)
      requires rowCount <= rows.Length && (count > 0 ==> rowCount + 2 * count - 1 <= rows.Length)
      modifies this`rowCount, rows, order
      ensures Delivered(prims, old(rows[..]), old(order[..]), old(rowCount), rows[..], order[..], rowCount, offset,
                        count, root, sub)
      decreases count
    {
      hide Represents, Least, Valid, Reordered, Cut, LeafMade, CentroidBox, CutAt, Widest, Middle;
      ghost var rows0, order0, next0 := rows[..], order[..], rowCount;
      if count == 0 {
        NothingDelivered(prims, rows0, order0, next0, offset);
        return -1, Leaf(0);
      }
      hide Delivered;
      var r := rowCount;
      rowCount := rowCount + 1;
      var bounds, centroids := Measure(offset, count);
      rows[r] := Node(bounds, -1, -1, offset, count, false);
      var axis := WidestAxis(centroids);
      if count <= LEAF_SIZE || centroids.max.At(axis) - centroids.min.At(axis) <= FLAT_EXTENT {
        rows[r] := rows[r].(isLeaf := true);
        LeafFrom(prims, order0[offset..offset + count], bounds, centroids, axis);
        LeafDelivered(prims, rows0, order0, next0, offset, count, bounds);
        assert rows[..] == rows0[next0 := Node(bounds, -1, -1, offset, count, true)];
        return r, Leaf(r);
      }
      var leftCount := Divide(offset, count, axis, centroids);
      ghost var order1 := order[..];
      ReorderedKeepsLeast(prims, order0, order1, offset, count, bounds);
      CutReordered(prims, order0, order1, offset, leftCount, count, centroids, axis);
      ReorderedValid(order0, order1, offset, count, |prims|);
      ValidHalves(order1, offset, leftCount, count, |prims|);
      assert rows[..] == rows0[next0 := Node(bounds, -1, -1, offset, count, false)];
      var left, low := BuildRecursive(offset, leftCount);
      ghost var rows2, order2, next2 := rows[..], order[..], rowCount;
      DeliveredReorders(prims, rows0[next0 := Node(bounds, -1, -1, offset, count, false)], order1, next0 + 1,
                        rows2, order2, next2, offset, leftCount, left, low);
      ReorderedElsewhere(order1, order2, offset, leftCount, count, |prims|);
      var right, high := BuildRecursive(offset + leftCount, count - leftCount);
      ghost var rows3 := rows[..];
      rows[r] := Node(bounds, left, right, offset, count, false);
      root, sub := r, Fork(r, low, high);
      ForkDelivered(prims, rows0, order0, next0, offset, count, bounds, order1, leftCount, rows2, order2, next2, left,
                    low, rows3, order[..], rowCount, right, high);
    }

    method WidestAxis(box: Aabb) returns (axis: nat)
      ensures Widest(box, axis)
    {
      axis := 0;
      if box.max.y - box.min.y > box.max.x - box.min.x { axis := 1; }
      if box.max.z - box.min.z > box.max.At(axis) - box.min.At(axis) { axis := 2; }
    }

    /** Builds over all primitives; refuses a count the tree was not made for. */
    method Build(primitives: seq<Primitive>) returns (ok: bool)
      requires order.Length > 0 ==> rows.Length == 2 * order.Length + 1
      modifies this, rows, order
      ensures ok == (|primitives| == order.Length)
      ensures ok ==> prims == primitives && if |primitives| == 0 then rowCount == 0 else Built()
      ensures !ok ==> unchanged(this) && unchanged(rows) && unchanged(order)
    {
      if order.Length != |primitives| { return false; }
      rowCount, prims, ok := 0, primitives, true;
      if order.Length == 0 { return; }
      for i := 0 to order.Length
        invariant forall j :: 0 <= j < i ==> order[j] == j
        invariant rowCount == 0 && prims == primitives
      {
        order[i] := i;
      }
      var n := order.Length;
      assert order[..] == seq(n, i => i);
      ghost var rows0 := rows[..];
      var root, sub := BuildRecursive(0, n);
      shape := sub;
      hide Represents;
      WholeOrder(prims, rows0, seq(n, i => i), rows[..], order[..], rowCount, root, sub);
      LastRow(rows[..], order[..], prims, sub);
      RowsSuffice(rows[..], order[..], prims, sub, rowCount);
    }

    /** Tests every primitive of a leaf against the ray cut where it entered the leaf. */
    method ScanLeaf(row: Node, ray: Ray, before: RayHit) returns (best: RayHit)
      requires row.offset + row.count <= order.Length
      requires forall k :: k in Listed(row, order[..]) ==> k < |prims|
      ensures best == Scan(prims, ray, Listed(row, order[..]), before.t, before)
    {
      best := before;
      hide Near, Far, Meets;
      ghost var listed := Listed(row, order[..]);
      for i := 0 to row.count
        invariant best == Scan(prims, ray, listed[..i], before.t, before)
      {
        assert listed[i] == order[row.offset + i] && listed[i] in listed;
        var p := prims[order[row.offset + i]];
        var met, t := Slabs.IntersectRay(ray.(tMax := before.t), p.bounds);
        SameMeeting(ray, p.bounds, before.t);
        if met && t < best.t {
          best := RayHit(true, t, p.id, best.normal);
        }
        assert listed[..i + 1][..i] == listed[..i] && listed[..i + 1][i] == listed[i];
      }
      assert listed[..row.count] == listed;
    }

    /** One round of the traversal: pops a row and prunes it, scans it or pushes its children, as far as they
        find a place on the stack. */
    method Round(stack: array<int>, depth0: nat, ray: Ray, best0: RayHit, ghost pending0: seq<Shape>)
      returns (depth: nat, best: RayHit, ghost turn: Turn)
      requires stack.Length == STACK && Mirrors(stack[..], depth0, pending0) && depth0 > 0 && rowCount <= rows.Length
      requires AllRepresented(rows[..rowCount], order[..], prims, pending0)
      modifies stack
      ensures RowFits(rows[..rowCount], order[..], pending0[depth0 - 1].node)
      ensures turn == Turned(rows[..rowCount], order[..], prims, ray, pending0[..depth0 - 1], pending0[depth0 - 1],
                             best0)
      ensures Mirrors(stack[..], depth, turn.pending) && best == turn.best
    {
      hide Represents, Covers, Near, Far, Meets, Scan;
      ghost var rs, os := rows[..rowCount], order[..];
      MirrorsTop(stack[..], depth0, pending0);
      depth, best := depth0 - 1, best0;
      ghost var top, below := pending0[depth], pending0[..depth];
      TopRow(rs, os, prims, pending0);
      var row := rows[stack[depth]];
      assert row == rs[top.node];
      var met, _ := Slabs.IntersectRay(ray.(tMax := best.t), row.bounds);
      SameMeeting(ray, row.bounds, best.t);
      turn := Turned(rs, os, prims, ray, below, top, best0);
      if met {
        if row.isLeaf {
          best := ScanLeaf(row, ray, best);
        } else {
          ghost var pending := below;
          TwoPushes(below, top);
          if row.left >= 0 && depth < STACK {
            depth, pending := Push(stack, depth, row.left, pending, top.low);
          }
          if row.right >= 0 && depth < STACK {
            depth, pending := Push(stack, depth, row.right, pending, top.high);
          }
        }
      }
    }

    /** A hit, by popping rows off a fixed stack, skipping boxes the ray shortened to the best hit so far does
        not meet. A row that does not fit on the stack is lost, and with it a nearer hit it may hold. */
    method IntersectRay(ray: Ray) returns (best: RayHit)
      requires rowCount > 0 ==> Built()
      ensures rowCount == 0 ==> best == NoHit(ray)
      ensures rowCount > 0 ==> best == FromRoot(rows[..rowCount], order[..], prims, ray, shape).best
      ensures rowCount > 0 ==>
                var lost := FromRoot(rows[..rowCount], order[..], prims, ray, shape).lost;
                && Genuine(prims, ray, best)
                && (Nearest(prims, ray, best) <==> LossesCleared(rows[..rowCount], order[..], prims, ray, lost, best.t))
                && (Nearest(prims, ray, best) <==> FirstPoint(prims, Drifting(ray), best))
                && (Need(shape) <= STACK ==> lost == [] && Nearest(prims, ray, best))
      ensures rowCount > 0 && (Height(shape) < STACK || |prims| <= STACK + 1) ==> Nearest(prims, ray, best)
    {
      best := NoHit(ray);
      if rowCount == 0 { return; }
      var stack := new int[STACK];
      var depth: nat := 1;
      stack[0] := 0;
      ghost var pending, rs, os := [shape], rows[..rowCount], order[..];
      OneRepresented(rs, os, prims, shape);
      WrongIffLost(rs, os, prims, ray, shape);
      StackSuffices(rs, os, prims, ray, shape);
      hide Represents, Whole, Nearest, FirstPoint, Genuine, TotalSize, Traverse, Turned, Need, LossesCleared,
           AllRepresented;
      while depth > 0
        invariant Mirrors(stack[..], depth, pending) && AllRepresented(rs, os, prims, pending)
        invariant Traverse(rs, os, prims, ray, pending, best).best == FromRoot(rs, os, prims, ray, shape).best
        decreases TotalSize(pending)
      {
        ghost var below, top, best0 := pending[..depth - 1], pending[depth - 1], best;
        ghost var turn;
        TopRepresented(rs, os, prims, below, top, pending);
        depth, best, turn := Round(stack, depth, ray, best, pending);
        TurnShrinks(rs, os, prims, ray, below, top, best0);
        TraverseStep(rs, os, prims, ray, below, top, best0);
        pending := turn.pending;
      }
      NearestIsFirstPoint(prims, ray, best);
      assert pending == [];
      TraverseEnds(rs, os, prims, ray, best);
    }
  }

  /** The stretch holds primitives; those up to `left` have their centroids before the split, those from `behind`
      on have not. */
  predicate Parted(prims: seq<Primitive>, order: seq<nat>, offset: nat, left: nat, behind: nat, end: nat, axis: nat,
                   split: real)
    requires end <= |order|
  {
    && offset <= left <= behind <= end
    && (forall i :: offset <= i < end ==> order[i] < |prims|)
    && (forall i :: offset <= i < left ==> prims[order[i]].centroid.At(axis) < split)
    && (forall i :: behind <= i < end ==> prims[order[i]].centroid.At(axis) >= split)
  }

  lemma NothingParted(prims: seq<Primitive>, order: seq<nat>, offset: nat, count: nat, axis: nat, split: real)
    requires offset + count <= |order| && Valid(order, offset, count, |prims|)
    ensures Parted(prims, order, offset, offset, offset + count, offset + count, axis, split)
  {
  }

  lemma PartStep(prims: seq<Primitive>, order: seq<nat>, offset: nat, left: nat, right: nat, end: nat, axis: nat,
                 split: real)
    requires end <= |order| && left <= right < end && Parted(prims, order, offset, left, right + 1, end, axis, split)
    ensures order[left] < |prims|
    ensures if prims[order[left]].centroid.At(axis) < split
            then Parted(prims, order, offset, left + 1, right + 1, end, axis, split)
            else Parted(prims, Exchanged(order, left, right), offset, left, right, end, axis, split)
  {
    hide Vec3.At;
  }

  /** The slab test of the cut ray decides what the whole ray meets before the cut. */
  lemma SameMeeting(ray: Ray, box: Aabb, limit: real)
    ensures Meets(ray.(tMax := limit), box, limit) == Meets(ray, box, limit)
    ensures Near(ray.(tMax := limit), box) == Near(ray, box)
  {
    ShortenedRay(ray, box, limit);
    hide Near, Far;
  }

  lemma TopRow(rows: seq<Node>, order: seq<nat>, prims: seq<Primitive>, pending: seq<Shape>)
    requires AllRepresented(rows, order, prims, pending) && pending != []
    ensures var top := pending[|pending| - 1];
            && RowFits(rows, order, top.node) && rows[top.node].isLeaf == top.Leaf?
            && (forall k :: k in Listed(rows[top.node], order) ==> k < |prims|)
            && (top.Fork? ==> rows[top.node].left == top.low.node && rows[top.node].right == top.high.node)
  {
    var top := pending[|pending| - 1];
    assert Represents(rows, order, prims, top);
    assert Covers(prims, Listed(rows[top.node], order), rows[top.node].bounds);
  }

  /** The first `depth` stack entries are the roots of the pending subtrees. */
  ghost predicate Mirrors(stack: seq<int>, depth: nat, pending: seq<Shape>) {
    depth == |pending| <= |stack| && forall j :: 0 <= j < depth ==> stack[j] == pending[j].node
  }

  lemma TwoPushes(below: seq<Shape>, top: Shape)
    requires top.Fork?
    ensures below + [top.low] + [top.high] == below + [top.low, top.high]
  {
  }

  method Push(stack: array<int>, depth: nat, row: int, ghost pending: seq<Shape>, ghost s: Shape)
    returns (depth': nat, ghost pending': seq<Shape>)
    requires depth < stack.Length && Mirrors(stack[..], depth, pending) && row == s.node
    modifies stack
    ensures depth' == depth + 1 && pending' == pending + [s] && Mirrors(stack[..], depth', pending')
  {
    stack[depth] := row;
    depth', pending' := depth + 1, pending + [s];
  }

  /** Reading the top entry leaves a mirror of the rest. */
  lemma MirrorsTop(stack: seq<int>, depth: nat, pending: seq<Shape>)
    requires Mirrors(stack, depth, pending) && depth > 0
    ensures stack[depth - 1] == pending[depth - 1].node
    ensures pending == pending[..depth - 1] + [pending[depth - 1]]
    ensures Mirrors(stack, depth - 1, pending[..depth - 1])
  {
  }

  lemma WholeOrder(prims: seq<Primitive>, rows: seq<Node>, order: seq<nat>, rows': seq<Node>, order': seq<nat>,
                   next': nat, root: int, s: Shape)
    requires Delivered(prims, rows, order, 0, rows', order', next', 0, |order|, root, s)
    ensures multiset(order') == multiset(order)
  {
    assert order'[0..|order|] == order' && order[0..|order|] == order;
  }
}
