/** What a k-d tree stands for: its points in order, its split planes and its height,
    what a query may prune, and what a linear scan finds
    among the same points. */
module KdShape {
  import opened Vectors

  datatype KdPoint = KdPoint(coord: Vec3, payload: nat)

  datatype KdTree = Empty | Node(point: KdPoint, axis: nat, left: KdTree, right: KdTree)

  /** The points of a tree from left to right. */
  function InOrder(t: KdTree): seq<KdPoint> {
    match t
    case Empty => []
    case Node(p, _, l, r) => InOrder(l) + [p] + InOrder(r)
  }

  predicate AllAtMost(points: seq<KdPoint>, axis: nat, bound: real) {
    forall i :: 0 <= i < |points| ==> points[i].coord.At(axis) <= bound
  }

  predicate AllAtLeast(points: seq<KdPoint>, axis: nat, bound: real) {
    forall i :: 0 <= i < |points| ==> points[i].coord.At(axis) >= bound
  }

  /** Every split plane separates the two subtrees. */
  predicate Ordered(t: KdTree) {
    match t
    case Empty => true
    case Node(p, axis, l, r) =>
      && AllAtMost(InOrder(l), axis, p.coord.At(axis)) && AllAtLeast(InOrder(r), axis, p.coord.At(axis))
      && Ordered(l) && Ordered(r)
  }

  /** Nodes on the longest path down. */
  function Height(t: KdTree): nat {
    match t
    case Empty => 0
    case Node(_, _, l, r) => 1 + if Height(l) > Height(r) then Height(l) else Height(r)
  }

  function Square(x: real): real { x * x }

  function DistSq(a: Vec3, b: Vec3): real {
    Square(a.x - b.x) + Square(a.y - b.y) + Square(a.z - b.z)
  }

  /** How far the query lies beyond the split plane. */
  function PlaneDelta(query: Vec3, p: KdPoint, axis: nat): real {
    query.At(axis) - p.coord.At(axis)
  }

  function NearChild(t: KdTree, query: Vec3): KdTree
    requires t.Node?
  {
    if PlaneDelta(query, t.point, t.axis) <= 0.0 then t.left else t.right
  }

  function FarChild(t: KdTree, query: Vec3): KdTree
    requires t.Node?
  {
    if PlaneDelta(query, t.point, t.axis) <= 0.0 then t.right else t.left
  }

  /** The law of cosines: by it `DistSq` is the square of the Euclidean distance, and of no other. */
  lemma LawOfCosines(a: Vec3, b: Vec3, c: Vec3)
    ensures DistSq(a, c)
            == DistSq(a, b) + DistSq(b, c)
               + 2.0 * ((a.x - b.x) * (b.x - c.x) + (a.y - b.y) * (b.y - c.y) + (a.z - b.z) * (b.z - c.z))
    ensures DistSq(a, Vec3(a.x + 1.0, a.y, a.z)) == DistSq(a, Vec3(a.x, a.y + 1.0, a.z))
            == DistSq(a, Vec3(a.x, a.y, a.z + 1.0)) == 1.0
  {
    SquareOfSum(a.x - b.x, b.x - c.x);
    SquareOfSum(a.y - b.y, b.y - c.y);
    SquareOfSum(a.z - b.z, b.z - c.z);
    assert Square(-1.0) == 1.0 && Square(0.0) == 0.0;
    hide Square;
  }

  lemma SquareOfSum(x: real, y: real)
    ensures Square(x + y) == Square(x) + Square(y) + 2.0 * (x * y)
  {
  }

  lemma SquareMonotone(small: real, big: real)
    requires 0.0 <= small <= big || big <= small <= 0.0
    ensures Square(small) <= Square(big)
  {
    if 0.0 <= small {
      assert small * small <= small * big <= big * big;
    } else {
      assert (-small) * (-small) <= (-small) * (-big) <= (-big) * (-big);
    }
  }

  lemma SquareNonNegative(x: real)
    ensures Square(x) >= 0.0
  {
  }

  /** One coordinate alone bounds the distance from below. */
  lemma AxisBoundsDistance(a: Vec3, b: Vec3, axis: nat)
    ensures Square(a.At(axis) - b.At(axis)) <= DistSq(a, b)
  {
    SquareNonNegative(a.x - b.x);
    SquareNonNegative(a.y - b.y);
    SquareNonNegative(a.z - b.z);
    hide Square;
  }

  lemma PointBeyondPlane(query: Vec3, bound: real, p: Vec3, axis: nat)
    requires if query.At(axis) - bound <= 0.0 then p.At(axis) >= bound else p.At(axis) <= bound
    ensures Square(query.At(axis) - bound) <= DistSq(query, p)
  {
    AxisBoundsDistance(query, p, axis);
    SquareMonotone(query.At(axis) - bound, query.At(axis) - p.At(axis));
    hide Square, DistSq;
  }

  /** Nothing beyond the split plane is nearer than the plane itself. */
  lemma FarChildIsFar(t: KdTree, query: Vec3)
    requires t.Node? && Ordered(t)
    ensures forall p :: p in InOrder(FarChild(t, query)) ==>
              Square(PlaneDelta(query, t.point, t.axis)) <= DistSq(query, p.coord)
  {
    hide Ordered, InOrder, Square, DistSq, AllAtMost, AllAtLeast;
    Planes(t);
    var bound := t.point.coord.At(t.axis);
    forall p | p in InOrder(FarChild(t, query))
      ensures Square(PlaneDelta(query, t.point, t.axis)) <= DistSq(query, p.coord)
    {
      if PlaneDelta(query, t.point, t.axis) <= 0.0 {
        AtLeastMember(InOrder(t.right), t.axis, bound, p);
      } else {
        AtMostMember(InOrder(t.left), t.axis, bound, p);
      }
      PointBeyondPlane(query, t.point.coord.At(t.axis), p.coord, t.axis);
    }
  }

  lemma AtMostMember(points: seq<KdPoint>, axis: nat, bound: real, p: KdPoint)
    requires AllAtMost(points, axis, bound) && p in points
    ensures p.coord.At(axis) <= bound
  {
  }

  lemma AtLeastMember(points: seq<KdPoint>, axis: nat, bound: real, p: KdPoint)
    requires AllAtLeast(points, axis, bound) && p in points
    ensures p.coord.At(axis) >= bound
  {
  }

  lemma Planes(t: KdTree)
    requires t.Node? && Ordered(t)
    ensures AllAtMost(InOrder(t.left), t.axis, t.point.coord.At(t.axis))
            && AllAtLeast(InOrder(t.right), t.axis, t.point.coord.At(t.axis))
    ensures Ordered(t.left) && Ordered(t.right)
  {
  }

  /** Payloads of the points within the squared radius, as a linear scan collects them. */
  function Within(points: seq<KdPoint>, query: Vec3, radiusSq: real): multiset<nat> {
    if points == [] then multiset{}
    else Within(points[1..], query, radiusSq) + if DistSq(query, points[0].coord) <= radiusSq
         then multiset{points[0].payload} else multiset{}
  }

  lemma {:induction false} WithinConcat(a: seq<KdPoint>, b: seq<KdPoint>, query: Vec3, radiusSq: real)
    ensures Within(a + b, query, radiusSq) == Within(a, query, radiusSq) + Within(b, query, radiusSq)
  {
    if a == [] {
      assert a + b == b;
    } else {
      assert (a + b)[1..] == a[1..] + b;
      WithinConcat(a[1..], b, query, radiusSq);
    }
  }

  /** The order of the points does not matter. */
  lemma {:induction false} WithinPermuted(a: seq<KdPoint>, b: seq<KdPoint>, query: Vec3, radiusSq: real)
    requires multiset(a) == multiset(b)
    ensures Within(a, query, radiusSq) == Within(b, query, radiusSq)
    decreases |a|
  {
    hide Within;
    assert |a| == |multiset(a)| == |multiset(b)| == |b|;
    if a == [] {
      assert b == [];
    } else {
      var i := IndexOf(b, a[0]);
      var a', b' := a[..0] + a[1..], b[..i] + b[i + 1..];
      RemoveOne(a, 0);
      RemoveOne(b, i);
      WithinPermuted(a', b', query, radiusSq);
      WithinWithout(a, 0, query, radiusSq);
      WithinWithout(b, i, query, radiusSq);
    }
  }

  lemma IndexOf(s: seq<KdPoint>, p: KdPoint) returns (i: nat)
    requires p in multiset(s)
    ensures i < |s| && s[i] == p
  {
    i :| 0 <= i < |s| && s[i] == p;
  }

  lemma RemoveOne(s: seq<KdPoint>, i: nat)
    requires i < |s|
    ensures multiset(s[..i] + s[i + 1..]) == multiset(s) - multiset{s[i]}
  {
    assert s == s[..i] + [s[i]] + s[i + 1..];
  }

  lemma WithinWithout(s: seq<KdPoint>, i: nat, query: Vec3, radiusSq: real)
    requires i < |s|
    ensures Within(s, query, radiusSq) == Within(s[..i] + s[i + 1..], query, radiusSq) + Within([s[i]], query, radiusSq)
  {
    assert s == s[..i] + ([s[i]] + s[i + 1..]);
    WithinConcat(s[..i], [s[i]] + s[i + 1..], query, radiusSq);
    WithinConcat([s[i]], s[i + 1..], query, radiusSq);
    WithinConcat(s[..i], s[i + 1..], query, radiusSq);
  }

  lemma {:induction false} NoneWithin(points: seq<KdPoint>, query: Vec3, radiusSq: real)
    requires forall p :: p in points ==> DistSq(query, p.coord) > radiusSq
    ensures Within(points, query, radiusSq) == multiset{}
  {
    if points != [] { NoneWithin(points[1..], query, radiusSq); }
  }

  /** The scan of a node, in the order the search visits it. */
  lemma WithinNode(t: KdTree, query: Vec3, radiusSq: real)
    requires t.Node?
    ensures Within(InOrder(t), query, radiusSq)
            == Within([t.point], query, radiusSq) + Within(InOrder(NearChild(t, query)), query, radiusSq)
               + Within(InOrder(FarChild(t, query)), query, radiusSq)
  {
    WithinConcat(InOrder(t.left) + [t.point], InOrder(t.right), query, radiusSq);
    WithinConcat(InOrder(t.left), [t.point], query, radiusSq);
  }
}
