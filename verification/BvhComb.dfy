/** A tree the stack of the ray traversal is too small for: 66 primitives in a row, each twice as far out as the
    next. Cutting in the middle always cuts off the outermost one alone, so the tree is a comb of 64 forks, and
    a ray through the innermost primitive meets every fork, meets the last leaf only, and loses it. */
module BvhComb {
  import opened Bvh
  import opened BvhQuery
  import opened BvhShape
  import opened Slabs
  import opened Vectors

  const LAST: nat := 65

  function Scale(e: nat): (r: real)
    ensures r >= 1.0
  {
    if e == 0 then 1.0 else 2.0 * Scale(e - 1)
  }

  function Tooth(k: nat): Primitive
    requires k <= LAST
  {
    var out := Scale(LAST - k);
    Primitive(k, Aabb(Vec3(-out, 0.0, 0.0), Vec3(-0.5 * out, 1.0, 1.0)), Vec3(-0.75 * out, 0.5, 0.5))
  }

  function Teeth(): (s: seq<Primitive>)
    ensures |s| == LAST + 1 && forall k :: 0 <= k <= LAST ==> s[k] == Tooth(k)
  {
    seq(LAST + 1, k requires 0 <= k <= LAST => Tooth(k))
  }

  /** Across the comb, through the last tooth. */
  function Across(): Ray {
    Ray(Vec3(-0.75, -1.0, 0.5), Vec3(0.0, 1.0, 0.0), 0.0, 10.0)
  }

  /** The teeth from `j` on. */
  function From(j: nat): (s: seq<nat>)
    requires j <= LAST
    ensures |s| == LAST + 1 - j && forall i :: 0 <= i < |s| ==> s[i] == j + i
  {
    seq(LAST + 1 - j, i requires 0 <= i => j + i)
  }

  lemma {:induction false} ScaleDoubles(d: nat, e: nat)
    requires d < e
    ensures 2.0 * Scale(d) <= Scale(e)
  {
    if d + 1 < e { ScaleDoubles(d, e - 1); }
  }

  // --- How the comb is cut ---

  lemma FromHolds(listed: seq<nat>, j: nat)
    requires j <= LAST && multiset(listed) == multiset(From(j))
    ensures |listed| == LAST + 1 - j && forall k :: k in listed <==> j <= k <= LAST
  {
    SameMembers(listed, From(j));
    forall k ensures k in From(j) <==> j <= k <= LAST {
      if j <= k <= LAST { assert From(j)[k - j] == k; }
    }
  }

  lemma FromSplits(j: nat)
    requires j < LAST
    ensures multiset(From(j)) == multiset{j} + multiset(From(j + 1)) && j !in From(j + 1)
  {
    assert From(j) == [j] + From(j + 1);
  }

  lemma ToothOrder(j: nat, k: nat)
    requires j <= k <= LAST
    ensures Tooth(j).centroid.x <= Tooth(k).centroid.x <= Tooth(LAST).centroid.x == -0.75
    ensures j < k ==> 0.5 * Tooth(j).centroid.x <= Tooth(k).centroid.x
  {
    if j < k { ScaleDoubles(LAST - k, LAST - j); }
  }

  /** The centroids from tooth `j` on lie on a line, from tooth `j` to the last. */
  lemma BoxFrom(listed: seq<nat>, j: nat, box: Aabb)
    requires j <= LAST && multiset(listed) == multiset(From(j)) && CentroidBox(Teeth(), listed, box)
    ensures box.min.x == Tooth(j).centroid.x && box.max.x == -0.75
    ensures box.min.y == box.max.y == box.min.z == box.max.z == 0.5
  {
    FromHolds(listed, j);
    var teeth := Teeth();
    assert Inside(Aabb(teeth[j].centroid, teeth[j].centroid), box);
    assert Inside(Aabb(teeth[LAST].centroid, teeth[LAST].centroid), box);
    assert Touched(teeth, listed, 0, box.min.At(0), FLT_MAX) && Touched(teeth, listed, 0, box.max.At(0), -FLT_MAX);
    assert Touched(teeth, listed, 1, box.min.At(1), FLT_MAX) && Touched(teeth, listed, 1, box.max.At(1), -FLT_MAX);
    assert Touched(teeth, listed, 2, box.min.At(2), FLT_MAX) && Touched(teeth, listed, 2, box.max.At(2), -FLT_MAX);
    hide CentroidBox;
    forall k | j <= k <= LAST ensures Tooth(j).centroid.x <= teeth[k].centroid.x <= -0.75 {
      ToothOrder(j, k);
    }
    hide Scale;
  }

  /** The line runs along the first axis. */
  lemma AxisFrom(listed: seq<nat>, j: nat, box: Aabb, axis: nat)
    requires j < LAST && multiset(listed) == multiset(From(j)) && CentroidBox(Teeth(), listed, box) && Widest(box, axis)
    ensures axis == 0 && Middle(box, axis) == 0.5 * Tooth(j).centroid.x - 0.375 && Extent(box, axis) >= 0.75
  {
    BoxFrom(listed, j, box);
    ScaleDoubles(0, LAST - j);
    hide CentroidBox, Scale;
    assert Extent(box, 0) <= Extent(box, axis);
  }

  /** A cut of the teeth from `j` on cuts tooth `j` off. */
  lemma CutsOne(low: seq<nat>, high: seq<nat>, j: nat)
    requires j < LAST && multiset(low + high) == multiset(From(j)) && Cut(Teeth(), low, high)
    ensures low == [j] && multiset(high) == multiset(From(j + 1))
  {
    var all, teeth := low + high, Teeth();
    var box, axis :| CutAcross(teeth, low, high, box, axis);
    AxisFrom(all, j, box, axis);
    FromHolds(all, j);
    var split := Middle(box, axis);
    hide CentroidBox, Middle, Extent, Widest, Cut, From;
    forall k | j <= k <= LAST ensures teeth[k].centroid.At(0) < split <==> k == j {
      ToothOrder(j, k);
      ScaleDoubles(0, LAST - j);
    }
    assert !AllBefore(teeth, all, 0, split) by { assert LAST in all; }
    assert !NoneBefore(teeth, all, 0, split) by { assert j in all; }
    hide Tooth, Scale;
    OneBefore(low, high, j, split);
  }

  lemma {:induction false} AllSame(s: seq<nat>, j: nat)
    requires forall i :: 0 <= i < |s| ==> s[i] == j
    ensures multiset(s)[j] == |s|
  {
    if s != [] {
      AllSame(s[..|s| - 1], j);
      assert s == s[..|s| - 1] + [j];
    }
  }

  lemma OneBefore(low: seq<nat>, high: seq<nat>, j: nat, split: real)
    requires j < LAST && multiset(low + high) == multiset(From(j))
    requires AllBefore(Teeth(), low, 0, split) && NoneBefore(Teeth(), high, 0, split)
    requires forall k :: j <= k <= LAST ==> (Teeth()[k].centroid.At(0) < split <==> k == j)
    ensures low == [j] && multiset(high) == multiset(From(j + 1))
  {
    FromHolds(low + high, j);
    FromSplits(j);
    hide Tooth, Scale, From;
    assert multiset(low + high) == multiset(low) + multiset(high);
    assert multiset(From(j + 1))[j] == 0;
    assert Teeth()[j].centroid.At(0) < split;
    assert j !in high;
    assert multiset(high)[j] == 0;
    assert multiset(low)[j] == multiset(low + high)[j] == (multiset{j} + multiset(From(j + 1)))[j] == 1;
    forall i | 0 <= i < |low| ensures low[i] == j {
      assert low[i] in low + high;
    }
    AllSame(low, j);
    assert low == [j];
    assert multiset(high) == multiset(low + high) - multiset{j} == multiset(From(j + 1)) by {
      assert multiset([j]) == multiset{j};
      assert multiset(low + high) == multiset{j} + multiset(high) == multiset{j} + multiset(From(j + 1));
    }
  }

  // --- The tree over the comb ---

  ghost predicate Spine(rows: seq<Node>, order: seq<nat>, s: Shape, j: nat) {
    && j < LAST && Represents(rows, order, Teeth(), s) && RowFits(rows, order, s.node)
    && multiset(Listed(rows[s.node], order)) == multiset(From(j))
  }

  ghost predicate IsTooth(rows: seq<Node>, order: seq<nat>, s: Shape, j: nat) {
    Represents(rows, order, Teeth(), s) && RowFits(rows, order, s.node) && s.Leaf? && Listed(rows[s.node], order) == [j]
  }

  /** Down to the last two teeth, every fork has one tooth and the rest of the comb. */
  lemma SpineForks(rows: seq<Node>, order: seq<nat>, s: Shape, j: nat)
    requires Spine(rows, order, s, j) && j + 1 < LAST
    ensures s.Fork? && IsTooth(rows, order, s.low, j) && Spine(rows, order, s.high, j + 1)
  {
    var row := rows[s.node];
    FromHolds(Listed(row, order), j);
    if s.Leaf? {
      LeafIsFlat(rows, order, s);
      var box, axis :| Flat(Teeth(), Listed(row, order), box, axis);
      AxisFrom(Listed(row, order), j, box, axis);
      assert false;
    }
    ListedTogether(rows, order, Teeth(), s);
    ChildrenRepresented(rows, order, Teeth(), s);
    hide Represents, Cut, From;
    CutsOne(Listed(rows[s.low.node], order), Listed(rows[s.high.node], order), j);
    SmallIsLeaf(rows, order, s.low);
  }

  lemma LeafIsFlat(rows: seq<Node>, order: seq<nat>, s: Shape)
    requires Represents(rows, order, Teeth(), s) && s.Leaf? && rows[s.node].count > LEAF_SIZE
    ensures exists box, axis :: Flat(Teeth(), Listed(rows[s.node], order), box, axis)
  {
    hide Flat;
  }

  lemma SmallIsLeaf(rows: seq<Node>, order: seq<nat>, s: Shape)
    requires Represents(rows, order, Teeth(), s) && rows[s.node].count <= LEAF_SIZE
    ensures s.Leaf?
  {
    hide LeafMade, Least, CutAcross;
  }

  /** The last tooth is met at 1, half way along, and no other is. */
  lemma OnlyTheLastIsMet(k: nat)
    requires k <= LAST
    ensures k == LAST ==> Near(Across(), Tooth(k).bounds) == 1.0 && Far(Across(), Tooth(k).bounds) == 2.0
    ensures k < LAST ==> !Meets(Across(), Merge(Tooth(k).bounds, EmptyBox()), 10.0)
  {
    if k < LAST { ScaleDoubles(0, LAST - k); }
  }

  lemma SpineIsMet(rows: seq<Node>, order: seq<nat>, s: Shape, j: nat)
    requires Spine(rows, order, s, j)
    ensures Meets(Across(), rows[s.node].bounds, 10.0)
  {
    var listed, box := Listed(rows[s.node], order), rows[s.node].bounds;
    RootFits(rows, order, Teeth(), s);
    FromHolds(listed, j);
    hide Near, Far, Represents, From;
    assert LAST in listed;
    var i :| 0 <= i < |listed| && listed[i] == LAST;
    OnlyTheLastIsMet(LAST);
    BiggerBoxIsMetEarlier(Across(), Tooth(LAST).bounds, box);
  }

  lemma ToothIsMissed(rows: seq<Node>, order: seq<nat>, s: Shape, j: nat)
    requires IsTooth(rows, order, s, j) && j < LAST
    ensures !Meets(Across(), rows[s.node].bounds, 10.0)
  {
    LeafBounds(rows, order, s);
    OnlyTheLastIsMet(j);
    hide Represents, Meets;
    assert [j][..0] == [];
    assert BoundsOf(Teeth(), [j]) == Merge(Tooth(j).bounds, EmptyBox());
  }

  lemma LeafBounds(rows: seq<Node>, order: seq<nat>, s: Shape)
    requires Represents(rows, order, Teeth(), s) && s.Leaf?
    ensures rows[s.node].bounds == BoundsOf(Teeth(), Listed(rows[s.node], order))
  {
    hide BoundsOf;
  }

  /** The comb needs one place more than the stack has. */
  lemma {:induction false} SpineNeeds(rows: seq<Node>, order: seq<nat>, s: Shape, j: nat)
    requires Spine(rows, order, s, j)
    ensures Need(s) == LAST - j
    decreases LAST - j
  {
    hide Represents, From;
    if j + 1 < LAST {
      SpineForks(rows, order, s, j);
      SpineNeeds(rows, order, s.high, j + 1);
    } else {
      LastIsLeaf(rows, order, s);
    }
  }

  lemma LastIsLeaf(rows: seq<Node>, order: seq<nat>, s: Shape)
    requires Spine(rows, order, s, LAST - 1)
    ensures s.Leaf?
  {
    FromHolds(Listed(rows[s.node], order), LAST - 1);
    SmallIsLeaf(rows, order, s);
  }

  // --- The ray across it ---

  ghost predicate AllTeeth(rows: seq<Node>, order: seq<nat>, pending: seq<Shape>) {
    |pending| < LAST && forall j :: 0 <= j < |pending| ==> IsTooth(rows, order, pending[j], j)
  }

  /** Teeth on the stack are popped and missed. */
  lemma {:induction false} TeethAreMissed(rows: seq<Node>, order: seq<nat>, pending: seq<Shape>)
    requires AllTeeth(rows, order, pending)
    ensures AllRepresented(rows, order, Teeth(), pending)
    ensures Traverse(rows, order, Teeth(), Across(), pending, NoHit(Across())) == Trip(NoHit(Across()), [])
    decreases |pending|
  {
    hide Represents, Meets, Traverse;
    var ray := Across();
    if pending == [] {
      TraverseEnds(rows, order, Teeth(), ray, NoHit(ray));
    } else {
      var n := |pending| - 1;
      var below, top := pending[..n], pending[n];
      TeethAreMissed(rows, order, below);
      ToothIsMissed(rows, order, top, n);
      assert pending == below + [top];
      TraverseStep(rows, order, Teeth(), ray, below, top, NoHit(ray));
    }
  }

  /** At fork `j` the stack holds `j` teeth. The last fork finds room for its tooth only. */
  lemma {:induction false} SpineIsLost(rows: seq<Node>, order: seq<nat>, below: seq<Shape>, top: Shape)
    requires AllTeeth(rows, order, below) && |below| + 1 < LAST && Spine(rows, order, top, |below|)
    ensures AllRepresented(rows, order, Teeth(), below + [top])
    ensures var trip := Traverse(rows, order, Teeth(), Across(), below + [top], NoHit(Across()));
            trip.best == NoHit(Across()) && |trip.lost| == 1 && Spine(rows, order, trip.lost[0], LAST - 1)
    decreases LAST - |below|
  {
    hide Represents, Meets, Traverse, From;
    var ray, j := Across(), |below|;
    TeethAreMissed(rows, order, below);
    SpineIsMet(rows, order, top, j);
    SpineForks(rows, order, top, j);
    TraverseStep(rows, order, Teeth(), ray, below, top, NoHit(ray));
    var below' := below + [top.low];
    hide Spine;
    if j + 2 < LAST {
      SpineIsLost(rows, order, below', top.high);
      assert below' + [top.high] == below + [top.low, top.high];
    } else {
      TeethAreMissed(rows, order, below');
    }
  }

  /** In every tree over the comb the ray across it loses the leaf of the last two teeth, and with it the only
      primitive it meets. */
  lemma CombLosesItsHit(rows: seq<Node>, order: seq<nat>, root: Shape)
    requires Whole(rows, order, Teeth(), root)
    ensures Need(root) == STACK + 1
    ensures var trip := FromRoot(rows, order, Teeth(), Across(), root);
            && trip.best == NoHit(Across()) && |trip.lost| == 1
            && RowFits(rows, order, trip.lost[0].node) && LAST in Listed(rows[trip.lost[0].node], order)
            && Candidate(Across(), Teeth()[LAST]) && !Nearest(Teeth(), Across(), trip.best)
  {
    RootFits(rows, order, Teeth(), root);
    assert Listed(rows[root.node], order) == order;
    assert seq(|Teeth()|, i => i) == From(0);
    hide Represents, Near, Far, Traverse, From;
    SpineNeeds(rows, order, root, 0);
    assert [] + [root] == [root];
    SpineIsLost(rows, order, [], root);
    var lost := FromRoot(rows, order, Teeth(), Across(), root).lost[0];
    FromHolds(Listed(rows[lost.node], order), LAST - 1);
    OnlyTheLastIsMet(LAST);
  }

  /** Building over the comb and casting the ray: no hit, although the last tooth is in its way. */
  method Cast() returns (primitives: seq<Primitive>, ray: Ray, best: RayHit)
    ensures |primitives| == STACK + 2 && !best.hit
    ensures exists k :: 0 <= k < |primitives| && Candidate(ray, primitives[k])
  {
    primitives, ray := Teeth(), Across();
    var tree := new BvhTree(LAST + 1);
    var ok := tree.Build(primitives);
    best := tree.IntersectRay(ray);
    CombLosesItsHit(tree.rows[..tree.rowCount], tree.order[..], tree.shape);
    assert Candidate(ray, primitives[LAST]);
  }
}
