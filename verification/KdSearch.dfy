/** The k-d tree: built by quickselect in place on the caller's points, searched with pruning. The points
    are permuted while the tree is built, so its nodes hold copies; what a search returns is compared
    with a linear scan over the points as the caller gave them. */
module KdSearch {
  import opened KdShape
  import opened Powers
  import opened Shuffling
  import opened Slices
  import opened Vectors

  const NO_DISTANCE: real := 1_000_000_000_000_000_000_000_000_000_000.0

  // --- Build ---

  /** Of the points [left, right), the coordinates below that of point `right` come first, up to `i`; those from
      `j` on are still to be looked at. */
  predicate Gathered(s: seq<KdPoint>, axis: nat, left: nat, i: nat, j: nat, right: nat)
    requires right < |s|
  {
    && left <= i <= j <= right
    && (forall k :: left <= k < i ==> s[k].coord.At(axis) < s[right].coord.At(axis))
    && (forall k :: i <= k < j ==> s[right].coord.At(axis) <= s[k].coord.At(axis))
  }

  lemma GatherStep(s: seq<KdPoint>, axis: nat, left: nat, i: nat, j: nat, right: nat)
    requires right < |s| && Gathered(s, axis, left, i, j, right) && j < right
    ensures if s[j].coord.At(axis) < s[right].coord.At(axis)
            then Gathered(Exchanged(s, i, j), axis, left, i + 1, j + 1, right)
            else Gathered(s, axis, left, i, j + 1, right)
  {
    hide Vec3.At;
  }

  lemma NothingGathered(s: seq<KdPoint>, axis: nat, left: nat, right: nat)
    requires left <= right < |s|
    ensures Gathered(s, axis, left, left, left, right)
  {
  }

  /** Gathers the coordinates below the last point's at the front of [left, right). */
  method GatherSmaller(points: array<KdPoint>, left: nat, right: nat, axis: nat) returns (i: nat)
    requires left <= right < points.Length
    modifies points
    ensures Shuffled(old(points[..]), points[..], left, right + 1) && Gathered(points[..], axis, left, i, right, right)
  {
    ghost var start, end := points[..], right + 1;
    ShuffledNot(start, left, end);
    NothingGathered(start, axis, left, right);
    hide Shuffled, Gathered, Exchanged, Vec3.At;
    i := left;
    for j := left to right
      invariant left <= i <= j && Shuffled(start, points[..], left, end)
                && Gathered(points[..], axis, left, i, j, right)
    {
      ghost var before := points[..];
      GatherStep(before, axis, left, i, j, right);
      if points[j].coord.At(axis) < points[right].coord.At(axis) {
        Exchange(points, i, j, left, end);
        ShuffledTwice(start, before, points[..], left, end);
        i := i + 1;
      }
    }
  }

  /** The last point of [left, right] becomes a pivot with the smaller coordinates before it. */
  method PartitionAxis(points: array<KdPoint>, left: nat, right: nat, axis: nat) returns (i: nat)
    requires left <= right < points.Length
    modifies points
    ensures left <= i <= right && Shuffled(old(points[..]), points[..], left, right + 1)
    ensures forall j :: left <= j < i ==> points[j].coord.At(axis) <= points[i].coord.At(axis)
    ensures forall j :: i <= j <= right ==> points[i].coord.At(axis) <= points[j].coord.At(axis)
  {
    hide Shuffled, Vec3.At;
    ghost var start, end := points[..], right + 1;
    i := GatherSmaller(points, left, right, axis);
    ghost var gathered := points[..];
    Exchange(points, i, right, left, end);
    ShuffledTwice(start, gathered, points[..], left, end);
  }

  /** No coordinate of [a, b) exceeds one of [c, d). */
  predicate Below(points: seq<KdPoint>, axis: nat, a: nat, b: nat, c: nat, d: nat) {
    forall i, j :: a <= i < b && c <= j < d && i < |points| && j < |points| ==>
             points[i].coord.At(axis) <= points[j].coord.At(axis)
  }

  /** Shuffling inside both ranges, or inside one and not the other, keeps the comparison. */
  lemma BelowShuffled(before: seq<KdPoint>, after: seq<KdPoint>, axis: nat, a: nat, b: nat, c: nat, d: nat, lo: nat,
                      hi: nat)
    requires Shuffled(before, after, lo, hi) && Below(before, axis, a, b, c, d)
    requires (a <= lo && hi <= b) || hi <= a || b <= lo
    requires (c <= lo && hi <= d) || hi <= c || d <= lo
    ensures Below(after, axis, a, b, c, d)
  {
    forall i, j | a <= i < b && c <= j < d && i < |after| && j < |after|
      ensures after[i].coord.At(axis) <= after[j].coord.At(axis)
    {
      var i' := ComesFrom(before, after, lo, hi, i);
      var j' := ComesFrom(before, after, lo, hi, j);
    }
  }

  /** Moves the point of rank `k` of [lo, hi] into place, smaller coordinates before it, larger behind. */
  method QuickSelectAxis(points: array<KdPoint>, lo: nat, hi: nat, k: nat, axis: nat)
    requires lo <= k <= hi < points.Length
    modifies points
    ensures Shuffled(old(points[..]), points[..], lo, hi + 1)
    ensures Below(points[..], axis, lo, k, k, k + 1) && Below(points[..], axis, k, k + 1, k, hi + 1)
  {
    ghost var start := points[..];
    var left, right := lo, hi;
    ShuffledNot(start, lo, hi + 1);
    NothingBelow(start, axis, lo, hi);
    hide Shuffled, Below, Vec3.At;
    while left < right
      invariant lo <= left <= k <= right <= hi
      invariant Shuffled(start, points[..], lo, hi + 1)
      invariant Below(points[..], axis, lo, left, left, hi + 1)
      invariant Below(points[..], axis, lo, right + 1, right + 1, hi + 1)
      decreases right - left
    {
      ghost var before := points[..];
      var pivot := PartitionAxis(points, left, right, axis);
      PartitionStep(start, before, points[..], axis, lo, left, pivot, right, hi);
      if pivot == k {
        return;
      } else if k < pivot {
        if pivot == 0 { break; }
        right := pivot - 1;
      } else {
        left := pivot + 1;
      }
    }
    MeetingPointSeparates(points[..], axis, lo, k, hi);
  }

  /** One partition narrows the search and leaves the pivot separating the whole range. */
  lemma PartitionStep(start: seq<KdPoint>, before: seq<KdPoint>, after: seq<KdPoint>, axis: nat, lo: nat, left: nat,
                      pivot: nat, right: nat, hi: nat)
    requires lo <= left <= pivot <= right <= hi < |before|
    requires Shuffled(start, before, lo, hi + 1) && Shuffled(before, after, left, right + 1)
    requires Below(before, axis, lo, left, left, hi + 1) && Below(before, axis, lo, right + 1, right + 1, hi + 1)
    requires forall j :: left <= j < pivot ==> after[j].coord.At(axis) <= after[pivot].coord.At(axis)
    requires forall j :: pivot <= j <= right ==> after[pivot].coord.At(axis) <= after[j].coord.At(axis)
    ensures Shuffled(start, after, lo, hi + 1)
    ensures Below(after, axis, lo, left, left, hi + 1) && Below(after, axis, lo, right + 1, right + 1, hi + 1)
    ensures Below(after, axis, lo, pivot, pivot, hi + 1) && Below(after, axis, lo, pivot + 1, pivot + 1, hi + 1)
    ensures Below(after, axis, lo, pivot, pivot, pivot + 1) && Below(after, axis, pivot, pivot + 1, pivot, hi + 1)
  {
    assert |after| == |before|;
    hide Shuffled, Below, Vec3.At;
    var past, end := right + 1, hi + 1;
    BelowShuffled(before, after, axis, lo, left, left, end, left, past);
    BelowShuffled(before, after, axis, lo, past, past, end, left, past);
    ShuffledWider(before, after, left, past, lo, end);
    ShuffledTwice(start, before, after, lo, end);
    PivotSeparates(after, axis, lo, left, pivot, right, hi);
  }

  lemma MeetingPointSeparates(s: seq<KdPoint>, axis: nat, lo: nat, k: nat, hi: nat)
    requires lo <= k <= hi < |s|
    requires Below(s, axis, lo, k, k, hi + 1) && Below(s, axis, lo, k + 1, k + 1, hi + 1)
    ensures Below(s, axis, lo, k, k, k + 1) && Below(s, axis, k, k + 1, k, hi + 1)
  {
  }

  lemma NothingBelow(s: seq<KdPoint>, axis: nat, lo: nat, hi: nat)
    ensures Below(s, axis, lo, lo, lo, hi + 1) && Below(s, axis, lo, hi + 1, hi + 1, hi + 1)
  {
  }

  lemma PivotSeparates(s: seq<KdPoint>, axis: nat, lo: nat, left: nat, pivot: nat, right: nat, hi: nat)
    requires lo <= left <= pivot <= right <= hi < |s|
    requires Below(s, axis, lo, left, left, hi + 1) && Below(s, axis, lo, right + 1, right + 1, hi + 1)
    requires forall j :: left <= j < pivot ==> s[j].coord.At(axis) <= s[pivot].coord.At(axis)
    requires forall j :: pivot <= j <= right ==> s[pivot].coord.At(axis) <= s[j].coord.At(axis)
    ensures Below(s, axis, lo, pivot, pivot, hi + 1) && Below(s, axis, lo, pivot + 1, pivot + 1, hi + 1)
    ensures Below(s, axis, lo, pivot, pivot, pivot + 1) && Below(s, axis, pivot, pivot + 1, pivot, hi + 1)
  {
  }

  /** What shuffling the two sides of the median leaves in the stretch. */
  lemma JoinStretch(s0: seq<KdPoint>, s1: seq<KdPoint>, s2: seq<KdPoint>, lo: nat, mid: nat, hi: nat)
    requires lo <= mid <= hi < |s0| && Shuffled(s0, s1, lo, mid) && Shuffled(s1, s2, mid + 1, hi + 1)
    ensures Shuffled(s0, s2, lo, hi + 1)
    ensures s2[lo..hi + 1] == s1[lo..mid] + [s0[mid]] + s2[mid + 1..hi + 1]
    ensures s2[lo..mid] == s1[lo..mid] && s2[mid] == s0[mid]
  {
    hide *;
    var next, end := mid + 1, hi + 1;
    ShuffledWider(s0, s1, lo, mid, lo, end);
    ShuffledLength(s0, s1, lo, end);
    ShuffledWider(s1, s2, next, end, lo, end);
    ShuffledTwice(s0, s1, s2, lo, end);
    ShuffledLength(s1, s2, lo, end);
    JoinSlices(s0, s1, s2, lo, mid, next, end);
  }

  lemma ShuffledLength(before: seq<KdPoint>, after: seq<KdPoint>, lo: nat, hi: nat)
    requires Shuffled(before, after, lo, hi)
    ensures |after| == |before|
  {
  }

  lemma JoinSlices(s0: seq<KdPoint>, s1: seq<KdPoint>, s2: seq<KdPoint>, lo: nat, mid: nat, next: nat, end: nat)
    requires lo <= mid && next == mid + 1 <= end <= |s0| == |s1| == |s2|
    requires Shuffled(s0, s1, lo, mid) && Shuffled(s1, s2, next, end)
    ensures s2[lo..end] == s1[lo..mid] + [s0[mid]] + s2[next..end]
    ensures s2[lo..mid] == s1[lo..mid] && s2[mid] == s0[mid]
  {
    EqualSuffix(s0, s1, mid, mid, next);
    EqualPrefix(s1, s2, next, lo, mid);
    EqualPrefix(s1, s2, next, mid, next);
    hide Shuffled;
    assert s0[mid..next] == s1[mid..next] == s2[mid..next] == [s2[mid]];
    assert s0[mid..next][0] == s0[mid];
    SplitSlice(s2, lo, mid, end);
    SplitSlice(s2, mid, next, end);
    Regroup(s1[lo..mid], [s0[mid]], s2[next..end]);
  }

  /** A median with subtrees over the two sides of the stretch is an ordered tree over the stretch. */
  lemma JoinTree(s0: seq<KdPoint>, s1: seq<KdPoint>, s2: seq<KdPoint>, lo: nat, mid: nat, hi: nat, axis: nat,
                 l: KdTree, r: KdTree)
    requires lo <= mid <= hi < |s0|
    requires Below(s0, axis, lo, mid, mid, mid + 1) && Below(s0, axis, mid, mid + 1, mid, hi + 1)
    requires Shuffled(s0, s1, lo, mid) && InOrder(l) == s1[lo..mid] && Ordered(l)
    requires Shuffled(s1, s2, mid + 1, hi + 1) && InOrder(r) == s2[mid + 1..hi + 1] && Ordered(r)
    ensures Shuffled(s0, s2, lo, hi + 1)
    ensures InOrder(Node(s0[mid], axis, l, r)) == s2[lo..hi + 1]
    ensures Ordered(Node(s0[mid], axis, l, r))
  {
    JoinStretch(s0, s1, s2, lo, mid, hi);
    BelowFromNext(s0, axis, mid, hi);
    hide Shuffled, Below;
    BelowShuffled(s0, s1, axis, lo, mid, mid, mid + 1, lo, mid);
    BelowShuffled(s1, s2, axis, lo, mid, mid, mid + 1, mid + 1, hi + 1);
    BelowShuffled(s0, s1, axis, mid, mid + 1, mid + 1, hi + 1, lo, mid);
    BelowShuffled(s1, s2, axis, mid, mid + 1, mid + 1, hi + 1, mid + 1, hi + 1);
    SideBounds(s2, axis, lo, mid, hi);
  }

  lemma BelowFromNext(s: seq<KdPoint>, axis: nat, mid: nat, hi: nat)
    requires Below(s, axis, mid, mid + 1, mid, hi + 1)
    ensures Below(s, axis, mid, mid + 1, mid + 1, hi + 1)
  {
  }

  lemma SideBounds(s: seq<KdPoint>, axis: nat, lo: nat, mid: nat, hi: nat)
    requires lo <= mid <= hi < |s|
    requires Below(s, axis, lo, mid, mid, mid + 1) && Below(s, axis, mid, mid + 1, mid + 1, hi + 1)
    ensures AllAtMost(s[lo..mid], axis, s[mid].coord.At(axis))
    ensures AllAtLeast(s[mid + 1..hi + 1], axis, s[mid].coord.At(axis))
  {
    hide Vec3.At;
  }

  /** The tree reads off the stretch [lo, hi) from left to right, ordered on every split plane and
      no higher than halving allows. */
  ghost predicate TreeOver(s: seq<KdPoint>, lo: nat, hi: nat, t: KdTree) {
    && lo <= hi <= |s| && InOrder(t) == s[lo..hi] && Ordered(t)
    && Pow2(Height(t)) <= if lo == hi then 1 else 2 * (hi - lo)
  }

  /** The planes take turns by depth, an 8-bit number, and a median has as many points on its left as on its right, or
      one fewer. */
  ghost predicate Planned(t: KdTree, depth: nat) {
    match t
    case Empty => true
    case Node(_, axis, l, r) =>
      && axis == depth % 3 && |InOrder(l)| <= |InOrder(r)| <= |InOrder(l)| + 1
      && Planned(l, (depth + 1) % 256) && Planned(r, (depth + 1) % 256)
  }

  lemma NothingPlanned(depth: nat)
    ensures Planned(Empty, depth)
  {
  }

  lemma PlannedOver(s: seq<KdPoint>, lo: nat, mid: nat, hi: nat, p: KdPoint, l: KdTree, r: KdTree, s': seq<KdPoint>,
                    depth: nat)
    requires mid == lo + (hi - lo) / 2 && lo <= mid <= hi && TreeOver(s, lo, mid, l) && TreeOver(s', mid + 1, hi + 1, r)
    requires Planned(l, (depth + 1) % 256) && Planned(r, (depth + 1) % 256)
    ensures Planned(Node(p, depth % 3, l, r), depth)
  {
    hide Ordered, InOrder, Height;
  }

  /** Builds over [lo, hi], both ends included; nothing when they cross. */
  method BuildRecursive(points: array<KdPoint>, lo: nat, hi: nat, depth: nat) returns (t: KdTree)
    requires hi < points.Length && depth < 256
    modifies points
    ensures Planned(t, depth)
    ensures lo > hi ==> t == Empty && points[..] == old(points[..])
    ensures lo <= hi ==> Shuffled(old(points[..]), points[..], lo, hi + 1) && TreeOver(points[..], lo, hi + 1, t)
    decreases hi + 1 - lo, 1
  {
    hide *;
    NothingPlanned(depth);
    if lo > hi { return Empty; }
    ghost var start := points[..];
    var axis, mid := depth % 3, lo + (hi - lo) / 2;
    QuickSelectAxis(points, lo, hi, mid, axis);
    ghost var selected := points[..];
    t := BuildHalves(points, lo, mid, hi, axis, (depth + 1) % 256, depth);
    ShuffledTwice(start, selected, points[..], lo, hi + 1);
  }

  /** The node of a median already in place, with its two children. */
  method BuildHalves(points: array<KdPoint>, lo: nat, mid: nat, hi: nat, axis: nat, depth: nat, ghost above: nat)
    returns (t: KdTree)
    requires lo <= mid <= hi < points.Length && depth < 256 && mid == lo + (hi - lo) / 2
    requires axis == above % 3 && depth == (above + 1) % 256
    requires Below(points[..], axis, lo, mid, mid, mid + 1) && Below(points[..], axis, mid, mid + 1, mid, hi + 1)
    modifies points
    ensures Shuffled(old(points[..]), points[..], lo, hi + 1) && TreeOver(points[..], lo, hi + 1, t)
    ensures Planned(t, above)
    decreases hi + 1 - lo, 0
  {
    hide *;
    ghost var s0 := points[..];
    var p := points[mid];
    var l := BuildSide(points, lo, mid, depth);
    ghost var s1 := points[..];
    var r := BuildSide(points, mid + 1, hi + 1, depth);
    ghost var s2 := points[..];
    t := Node(p, axis, l, r);
    PlannedOver(s1, lo, mid, hi, p, l, r, s2, above);
    TreeOverJoined(s0, s1, s2, lo, mid, hi, axis, l, r);
  }

  /** A child: built over [lo, hi) unless that is empty. */
  method BuildSide(points: array<KdPoint>, lo: nat, hi: nat, depth: nat) returns (t: KdTree)
    requires lo <= hi <= points.Length && depth < 256
    modifies points
    ensures Shuffled(old(points[..]), points[..], lo, hi) && TreeOver(points[..], lo, hi, t)
    ensures Planned(t, depth)
    decreases hi - lo, 2
  {
    if lo == hi { return Empty; }
    t := BuildRecursive(points, lo, hi - 1, depth);
  }

  lemma TreeOverJoined(s0: seq<KdPoint>, s1: seq<KdPoint>, s2: seq<KdPoint>, lo: nat, mid: nat, hi: nat, axis: nat,
                       l: KdTree, r: KdTree)
    requires lo <= mid <= hi < |s0| && mid == lo + (hi - lo) / 2
    requires Below(s0, axis, lo, mid, mid, mid + 1) && Below(s0, axis, mid, mid + 1, mid, hi + 1)
    requires Shuffled(s0, s1, lo, mid) && TreeOver(s1, lo, mid, l)
    requires Shuffled(s1, s2, mid + 1, hi + 1) && TreeOver(s2, mid + 1, hi + 1, r)
    ensures Shuffled(s0, s2, lo, hi + 1) && TreeOver(s2, lo, hi + 1, Node(s0[mid], axis, l, r))
  {
    hide Shuffled, Below, Ordered, InOrder;
    JoinTree(s0, s1, s2, lo, mid, hi, axis, l, r);
    JoinedHeight(l, r, s0[mid], axis, mid - lo, hi - mid);
  }

  lemma JoinedHeight(l: KdTree, r: KdTree, p: KdPoint, axis: nat, nl: nat, nr: nat)
    requires Pow2(Height(l)) <= (if nl == 0 then 1 else 2 * nl) && Pow2(Height(r)) <= (if nr == 0 then 1 else 2 * nr)
    requires nl <= nr <= nl + 1
    ensures Pow2(Height(Node(p, axis, l, r))) <= 2 * (nl + nr + 1)
  {
  }

  /** Indexes the caller's points, which it reorders; nothing without points. */
  method Build(points: array?<KdPoint>) returns (tree: KdTree)
    modifies points
    ensures points == null || points.Length == 0 ==> tree == Empty
    ensures points != null ==> multiset(points[..]) == multiset(old(points[..]))
    ensures points != null ==> InOrder(tree) == points[..] && Ordered(tree) && Planned(tree, 0)
    ensures points != null && points.Length > 0 ==> Pow2(Height(tree) - 1) <= points.Length
  {
    hide *;
    NothingPlanned(0);
    if points == null || points.Length == 0 {
      EmptyTree();
      return Empty;
    }
    ghost var before := points[..];
    tree := BuildRecursive(points, 0, points.Length - 1, 0);
    WholeTree(before, points[..], tree);
  }

  lemma EmptyTree()
    ensures InOrder(Empty) == [] && Ordered(Empty)
  {
  }

  lemma WholeTree(before: seq<KdPoint>, after: seq<KdPoint>, t: KdTree)
    requires before != [] && Shuffled(before, after, 0, |before|) && TreeOver(after, 0, |before|, t)
    ensures multiset(after) == multiset(before) && InOrder(t) == after && Ordered(t)
    ensures Height(t) > 0 && Pow2(Height(t) - 1) <= |after|
  {
    hide Ordered;
    assert after[0..|before|] == after && before[0..|before|] == before;
  }

  // --- Nearest neighbour ---

  /** (p, d) is the better of (p0, d0) and the nearest of `points`; a tie keeps (p0, d0). */
  ghost predicate Improved(points: seq<KdPoint>, query: Vec3, p0: KdPoint, d0: real, p: KdPoint, d: real) {
    && (forall x :: x in points ==> d <= DistSq(query, x.coord))
    && ((p == p0 && d == d0) || (d < d0 && p in points && d == DistSq(query, p.coord)))
  }

  lemma ImprovedTwice(a: seq<KdPoint>, b: seq<KdPoint>, query: Vec3, p0: KdPoint, d0: real, p1: KdPoint, d1: real,
                      p2: KdPoint, d2: real)
    requires Improved(a, query, p0, d0, p1, d1) && Improved(b, query, p1, d1, p2, d2)
    ensures Improved(a + b, query, p0, d0, p2, d2)
  {
    hide DistSq;
  }

  lemma ImprovedNode(t: KdTree, query: Vec3, p0: KdPoint, d0: real, p: KdPoint, d: real)
    requires t.Node? && Improved([t.point] + InOrder(NearChild(t, query)) + InOrder(FarChild(t, query)), query, p0, d0,
                                 p, d)
    ensures Improved(InOrder(t), query, p0, d0, p, d)
  {
    hide DistSq, PlaneDelta;
    var visited := [t.point] + InOrder(NearChild(t, query)) + InOrder(FarChild(t, query));
    forall x | x in InOrder(t) ensures x in visited {
    }
    forall x | x in visited ensures x in InOrder(t) {
    }
  }

  method NearestRecursive(t: KdTree, query: Vec3, p0: KdPoint, d0: real) returns (p: KdPoint, d: real)
    requires Ordered(t)
    ensures Improved(InOrder(t), query, p0, d0, p, d)
    decreases t
  {
    p, d := p0, d0;
    if t == Empty { return; }
    FarChildIsFar(t, query);
    Planes(t);
    hide Ordered, DistSq, InOrder;
    var here := DistSq(query, t.point.coord);
    if here < d { p, d := t.point, here; }
    var delta := PlaneDelta(query, t.point, t.axis);
    ghost var p1, d1 := p, d;
    assert Improved([t.point], query, p0, d0, p1, d1);
    p, d := NearestRecursive(NearChild(t, query), query, p, d);
    ghost var p2, d2 := p, d;
    if Square(delta) < d {
      p, d := NearestRecursive(FarChild(t, query), query, p, d);
    }
    hide Improved, Square;
    ImprovedTwice([t.point], InOrder(NearChild(t, query)), query, p0, d0, p1, d1, p2, d2);
    ImprovedTwice([t.point] + InOrder(NearChild(t, query)), InOrder(FarChild(t, query)), query, p0, d0, p2, d2, p, d);
    ImprovedNode(t, query, p0, d0, p, d);
  }

  /** The nearest point and its squared distance, as long as some point is nearer than 1e30;
      otherwise the root's point with that sentinel. */
  method Nearest(tree: KdTree, query: Vec3) returns (found: bool, p: KdPoint, d: real)
    requires Ordered(tree)
    ensures found == tree.Node?
    ensures found && (exists x :: x in InOrder(tree) && DistSq(query, x.coord) < NO_DISTANCE) ==>
              p in InOrder(tree) && d == DistSq(query, p.coord) && forall x :: x in InOrder(tree) ==>
                d <= DistSq(query, x.coord)
    ensures found && (forall x :: x in InOrder(tree) ==> DistSq(query, x.coord) >= NO_DISTANCE) ==>
              p == tree.point && d == NO_DISTANCE
  {
    if tree == Empty { return false, KdPoint(query, 0), 0.0; }
    found := true;
    p, d := NearestRecursive(tree, query, tree.point, NO_DISTANCE);
    hide DistSq, Ordered, InOrder;
  }

  // --- Radius query ---

  /** `got` is part of `hits`: all of it, or as much as there was room for. */
  ghost predicate Collected(hits: multiset<nat>, room: nat, got: seq<nat>) {
    multiset(got) <= hits && |got| == if |hits| <= room then |hits| else room
  }

  lemma CollectedTwice(h1: multiset<nat>, h2: multiset<nat>, room: nat, g1: seq<nat>, g2: seq<nat>)
    requires Collected(h1, room, g1) && Collected(h2, room - |g1|, g2)
    ensures Collected(h1 + h2, room, g1 + g2)
  {
  }

  /** The buffer now holds, behind its first `c0` entries and up to `c`, hits collected within
      `max`; nothing else changed. */
  ghost predicate Appended(before: seq<nat>, after: seq<nat>, c0: nat, c: nat, max: nat, hits: multiset<nat>) {
    && |after| == |before| && c0 <= c <= max <= |before|
    && after[..c0] == before[..c0] && after[c..] == before[c..]
    && Collected(hits, max - c0, after[c0..c])
  }

  lemma AppendedTwice(s0: seq<nat>, s1: seq<nat>, s2: seq<nat>, c0: nat, c1: nat, c2: nat, max: nat, h1: multiset<nat>,
                      h2: multiset<nat>)
    requires Appended(s0, s1, c0, c1, max, h1) && Appended(s1, s2, c1, c2, max, h2)
    ensures Appended(s0, s2, c0, c2, max, h1 + h2)
  {
    hide Collected;
    assert s2[c0..c1] == s1[c0..c1] by { assert s2[c0..c1] == s2[..c1][c0..] && s1[c0..c1] == s1[..c1][c0..]; }
    assert s2[c0..c2] == s1[c0..c1] + s2[c1..c2];
    CollectedTwice(h1, h2, max - c0, s1[c0..c1], s2[c1..c2]);
    assert s2[..c0] == s0[..c0] by { assert s2[..c0] == s2[..c1][..c0] && s1[..c0] == s1[..c1][..c0]; }
    assert s2[c2..] == s0[c2..] by { assert s1[c2..] == s1[c1..][c2 - c1..] && s0[c2..] == s0[c1..][c2 - c1..]; }
  }

  /** Nothing to collect, or no room for it. */
  lemma AppendedNothing(s: seq<nat>, c: nat, max: nat, hits: multiset<nat>)
    requires c <= max <= |s| && (hits == multiset{} || c == max)
    ensures Appended(s, s, c, c, max, hits)
  {
  }

  /** Tests the point of one node. */
  method Offer(p: KdPoint, query: Vec3, radiusSq: real, out: array<nat>, maxCount: nat, count0: nat)
    returns (count: nat)
    requires count0 < maxCount <= out.Length
    modifies out
    ensures Appended(old(out[..]), out[..], count0, count, maxCount, Within([p], query, radiusSq))
  {
    count := count0;
    assert Within([p], query, radiusSq) == if DistSq(query, p.coord) <= radiusSq
                                           then multiset{p.payload}
                                           else multiset{};
    hide Within, DistSq;
    if DistSq(query, p.coord) <= radiusSq {
      out[count] := p.payload;
      count := count + 1;
      assert out[count0..count] == [p.payload];
    }
  }

  function HitsIn(t: KdTree, query: Vec3, radiusSq: real): multiset<nat> {
    Within(InOrder(t), query, radiusSq)
  }

  /** Appends the payloads within the radius, as many as fit behind the first `count0` entries. */
  method RadiusRecursive(t: KdTree, query: Vec3, radiusSq: real, out: array<nat>, maxCount: nat, count0: nat)
    returns (count: nat)
    requires Ordered(t) && count0 <= maxCount <= out.Length
    modifies out
    ensures count0 <= count <= maxCount
    ensures Appended(old(out[..]), out[..], count0, count, maxCount, HitsIn(t, query, radiusSq))
    decreases t, 1
  {
    count := count0;
    if t == Empty || count >= maxCount {
      AppendedNothing(out[..], count, maxCount, HitsIn(t, query, radiusSq));
      return;
    }
    WithinNode(t, query, radiusSq);
    ghost var s0, here, rest := out[..], Within([t.point], query, radiusSq), HitsInChildren(t, query, radiusSq);
    assert HitsIn(t, query, radiusSq) == here + rest;
    hide HitsIn, HitsInChildren, Within, Ordered;
    count := Offer(t.point, query, radiusSq, out, maxCount, count);
    ghost var c1, s1 := count, out[..];
    assert count <= maxCount;
    if count >= maxCount {
      AppendedNothing(s1, count, maxCount, rest);
    } else {
      count := RadiusChildren(t, query, radiusSq, out, maxCount, count);
    }
    hide Appended;
    AppendedTwice(s0, s1, out[..], count0, c1, count, maxCount, here, rest);
  }

  function HitsInChildren(t: KdTree, query: Vec3, radiusSq: real): multiset<nat>
    requires t.Node?
  {
    HitsIn(NearChild(t, query), query, radiusSq) + HitsIn(FarChild(t, query), query, radiusSq)
  }

  /** The near child first, the far one only while there is room and the plane is within the radius. */
  method RadiusChildren(t: KdTree, query: Vec3, radiusSq: real, out: array<nat>, maxCount: nat, count0: nat)
    returns (count: nat)
    requires t.Node? && Ordered(t) && count0 < maxCount <= out.Length
    modifies out
    ensures count0 <= count <= maxCount
    ensures Appended(old(out[..]), out[..], count0, count, maxCount, HitsInChildren(t, query, radiusSq))
    decreases t, 0
  {
    Planes(t);
    var near, far := NearChild(t, query), FarChild(t, query);
    ghost var s0, hn, hf := out[..], HitsIn(near, query, radiusSq), HitsIn(far, query, radiusSq);
    FarIsEmpty(t, query, radiusSq);
    assert HitsInChildren(t, query, radiusSq) == hn + hf;
    hide HitsIn, HitsInChildren, Ordered, Appended;
    count := RadiusRecursive(near, query, radiusSq, out, maxCount, count0);
    ghost var c1, s1 := count, out[..];
    if count < maxCount && Square(PlaneDelta(query, t.point, t.axis)) <= radiusSq {
      count := RadiusRecursive(far, query, radiusSq, out, maxCount, count);
    } else {
      AppendedNothing(s1, count, maxCount, hf);
    }
    AppendedTwice(s0, s1, out[..], count0, c1, count, maxCount, hn, hf);
  }

  lemma FarIsEmpty(t: KdTree, query: Vec3, radiusSq: real)
    requires t.Node? && Ordered(t)
    ensures Square(PlaneDelta(query, t.point, t.axis)) > radiusSq ==>
              HitsIn(FarChild(t, query), query, radiusSq) == multiset{}
  {
    FarChildIsFar(t, query);
    if Square(PlaneDelta(query, t.point, t.axis)) > radiusSq {
      NoneWithin(InOrder(FarChild(t, query)), query, radiusSq);
    }
  }

  /** The payloads within the radius, or as many of them as the caller has room for. */
  method QueryRadius(tree: KdTree, query: Vec3, radius: real, out: array?<nat>, maxCount: nat) returns (count: nat)
    requires Ordered(tree) && (out != null ==> maxCount <= out.Length)
    modifies out
    ensures out == null || radius < 0.0 ==> count == 0
    ensures out != null && radius >= 0.0 ==>
              count <= maxCount && Collected(Within(InOrder(tree), query, Square(radius)), maxCount, out[..count])
    ensures out != null ==> count <= out.Length && out[count..] == old(out[count..])
  {
    if tree == Empty || out == null || maxCount == 0 || radius < 0.0 { return 0; }
    count := RadiusRecursive(tree, query, Square(radius), out, maxCount, 0);
    hide Within, Collected, Square;
    assert out[0..count] == out[..count];
  }

  /** With room for every hit the buffer holds exactly the scan of the caller's original points. */
  lemma RadiusIsLinearScan(original: seq<KdPoint>, built: seq<KdPoint>, query: Vec3, radiusSq: real, room: nat,
                           got: seq<nat>)
    requires multiset(built) == multiset(original)
    requires Collected(Within(built, query, radiusSq), room, got)
    requires room >= |Within(original, query, radiusSq)|
    ensures multiset(got) == Within(original, query, radiusSq)
  {
    WithinPermuted(built, original, query, radiusSq);
    var hits := Within(original, query, radiusSq);
    hide Within;
    assert |hits - multiset(got)| == 0;
    assert hits == (hits - multiset(got)) + multiset(got);
  }
}
