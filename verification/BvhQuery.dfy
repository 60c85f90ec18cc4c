/** Ray queries over a bounding volume hierarchy: what the nearest hit is by brute force, and why
    pruning by boxes with a shrinking limit loses none: every candidate that is still nearer
    waits under a row of the stack. */
module BvhQuery {
  import opened BvhShape
  import opened RayPoints
  import opened Slabs
  import opened Vectors

  datatype RayHit = RayHit(hit: bool, t: real, primitiveId: nat, normal: Vec3)

  const STACK: nat := 64

  /** The primitive's box is met, strictly before the ray ends. */
  predicate Candidate(ray: Ray, p: Primitive) {
    Near(ray, p.bounds) <= Far(ray, p.bounds) && Near(ray, p.bounds) < ray.tMax
  }

  /** The reported hit is a real one; without a hit the record is the initial one. The normal is never set. */
  ghost predicate Genuine(prims: seq<Primitive>, ray: Ray, h: RayHit) {
    && h.normal == Vec3(0.0, 0.0, 1.0)
    && if h.hit then
         exists k :: 0 <= k < |prims| && Candidate(ray, prims[k]) && h.t == Near(ray, prims[k].bounds)
           && h.primitiveId == prims[k].id
       else h.t == ray.tMax && h.primitiveId == 0
  }

  /** Nothing is nearer than the reported parameter. */
  ghost predicate NoneNearer(prims: seq<Primitive>, ray: Ray, t: real) {
    forall k :: 0 <= k < |prims| && Candidate(ray, prims[k]) ==> t <= Near(ray, prims[k].bounds)
  }

  /** What a test of every primitive in turn would find. */
  ghost predicate Nearest(prims: seq<Primitive>, ray: Ray, h: RayHit) {
    && (h.hit <==> exists k :: 0 <= k < |prims| && Candidate(ray, prims[k]))
    && Genuine(prims, ray, h) && NoneNearer(prims, ray, h.t)
  }

  /** What that is, told by the points of the ray: the first parameter, before the ray ends, at which it is inside
      the box of some primitive, and such a primitive; or that there is none. */
  ghost predicate FirstPoint(prims: seq<Primitive>, ray: Ray, h: RayHit) {
    && h.normal == Vec3(0.0, 0.0, 1.0) && (h.hit <==> exists k: nat, t :: InsideOf(prims, ray, k, t))
    && (if h.hit then exists k: nat :: k < |prims| && InsideOf(prims, ray, k, h.t) && h.primitiveId == prims[k].id
        else h.t == ray.tMax && h.primitiveId == 0)
    && (forall k: nat, t :: InsideOf(prims, ray, k, t) ==> h.t <= t)
  }

  ghost predicate InsideOf(prims: seq<Primitive>, ray: Ray, k: nat, t: real) {
    k < |prims| && t < ray.tMax && InsideAt(ray, prims[k].bounds, t)
  }

  lemma CandidateIsInside(prims: seq<Primitive>, ray: Ray, k: nat)
    requires NoneZero(ray.direction) && k < |prims|
    ensures Candidate(ray, prims[k]) ==> InsideOf(prims, ray, k, Near(ray, prims[k].bounds))
    ensures forall t :: InsideOf(prims, ray, k, t) ==> Candidate(ray, prims[k]) && Near(ray, prims[k].bounds) <= t
  {
    hide InsideAt, Near, Far;
    MeetsIffInside(ray, prims[k].bounds, Near(ray, prims[k].bounds));
    forall t | InsideOf(prims, ray, k, t) ensures Candidate(ray, prims[k]) {
      MeetsIffInside(ray, prims[k].bounds, t);
    }
  }

  lemma NearestGivesFirst(prims: seq<Primitive>, ray: Ray, h: RayHit)
    requires NoneZero(ray.direction) && Nearest(prims, ray, h)
    ensures FirstPoint(prims, ray, h)
  {
    hide InsideOf, Candidate, Near, Far;
    forall k: nat, t | InsideOf(prims, ray, k, t) ensures h.hit && h.t <= t {
      assert k < |prims| by { OnlyPrimitives(prims, ray, k, t); }
      CandidateIsInside(prims, ray, k);
    }
    if h.hit {
      var k :| 0 <= k < |prims| && Candidate(ray, prims[k]) && h.t == Near(ray, prims[k].bounds)
               && h.primitiveId == prims[k].id;
      CandidateIsInside(prims, ray, k);
    }
  }

  lemma FirstGivesNearest(prims: seq<Primitive>, ray: Ray, h: RayHit)
    requires NoneZero(ray.direction) && FirstPoint(prims, ray, h)
    ensures Nearest(prims, ray, h)
  {
    hide InsideOf, Candidate, Near, Far;
    forall k | 0 <= k < |prims| && Candidate(ray, prims[k]) ensures h.hit && h.t <= Near(ray, prims[k].bounds) {
      CandidateIsInside(prims, ray, k);
    }
    if h.hit {
      var k: nat :| k < |prims| && InsideOf(prims, ray, k, h.t) && h.primitiveId == prims[k].id;
      CandidateIsInside(prims, ray, k);
    }
  }

  lemma OnlyPrimitives(prims: seq<Primitive>, ray: Ray, k: nat, t: real)
    requires InsideOf(prims, ray, k, t)
    ensures k < |prims|
  {
  }

  /** The brute-force hit of any ray is the first point of the ray in a box, a zero component of its direction
      counting as 10^-30. */
  lemma NearestIsFirstPoint(prims: seq<Primitive>, ray: Ray, h: RayHit)
    ensures Nearest(prims, ray, h) <==> FirstPoint(prims, Drifting(ray), h)
    ensures NoneZero(ray.direction) ==> Drifting(ray) == ray
  {
    forall k: nat | k < |prims|
      ensures Candidate(Drifting(ray), prims[k]) == Candidate(ray, prims[k])
      ensures Near(Drifting(ray), prims[k].bounds) == Near(ray, prims[k].bounds)
    {
      ZeroDrifts(ray, prims[k].bounds, 0.0);
      hide Near, Far;
    }
    hide Candidate, Near, FirstPoint;
    assert Nearest(prims, ray, h) <==> Nearest(prims, Drifting(ray), h);
    DriftsSomewhere(ray);
    if Nearest(prims, Drifting(ray), h) { NearestGivesFirst(prims, Drifting(ray), h); }
    if FirstPoint(prims, Drifting(ray), h) { FirstGivesNearest(prims, Drifting(ray), h); }
  }

  lemma DriftsSomewhere(ray: Ray)
    ensures NoneZero(Drifting(ray).direction)
  {
    assert DRIFT > 0.0;
  }

  lemma GenuineAndLeastIsNearest(prims: seq<Primitive>, ray: Ray, h: RayHit)
    requires Genuine(prims, ray, h) && NoneNearer(prims, ray, h.t)
    ensures Nearest(prims, ray, h)
  {
    hide Near, Far;
  }

  /** Nothing listed in `listed` is nearer than `t`. */
  ghost predicate Cleared(prims: seq<Primitive>, ray: Ray, listed: seq<nat>, t: real) {
    forall k :: k in listed && k < |prims| && Candidate(ray, prims[k]) ==> t <= Near(ray, prims[k].bounds)
  }

  /** A box missed by the shortened ray holds no nearer primitive. */
  lemma PruneLosesNothing(prims: seq<Primitive>, ray: Ray, listed: seq<nat>, box: Aabb, t: real)
    requires Covers(prims, listed, box) && !Meets(ray, box, t)
    ensures Cleared(prims, ray, listed, t)
  {
    forall k | k in listed && k < |prims| && Candidate(ray, prims[k])
      ensures t <= Near(ray, prims[k].bounds)
    {
      var i :| 0 <= i < |listed| && listed[i] == k;
      BiggerBoxIsMetEarlier(ray, prims[k].bounds, box);
    }
  }

  function TotalSize(pending: seq<Shape>): nat {
    if pending == [] then 0 else TotalSize(pending[..|pending| - 1]) + Size(pending[|pending| - 1])
  }

  lemma TotalSizeAppend(pending: seq<Shape>, s: Shape)
    ensures TotalSize(pending + [s]) == TotalSize(pending) + Size(s) > TotalSize(pending)
  {
    assert (pending + [s])[..|pending|] == pending;
  }

  lemma TotalSizeSplit(below: seq<Shape>, top: Shape)
    requires top.Fork?
    ensures TotalSize(below + [top.low]) == TotalSize(below) + Size(top.low)
    ensures TotalSize(below + [top.high]) == TotalSize(below) + Size(top.high)
    ensures TotalSize(below + [top.low, top.high]) == TotalSize(below) + Size(top.low) + Size(top.high)
    ensures TotalSize(below + [top]) == TotalSize(below) + 1 + Size(top.low) + Size(top.high)
  {
    TotalSizeAppend(below, top);
    TotalSizeAppend(below, top.low);
    TotalSizeAppend(below, top.high);
    TotalSizeAppend(below + [top.low], top.high);
    assert below + [top.low, top.high] == below + [top.low] + [top.high];
  }

  // --- The traversal ---

  /** The pending subtrees, the best hit so far, and the subtrees no place was found for. */
  datatype Turn = Turn(pending: seq<Shape>, best: RayHit, lost: seq<Shape>)

  datatype Trip = Trip(best: RayHit, lost: seq<Shape>)

  ghost predicate AllRepresented(rows: seq<Node>, order: seq<nat>, prims: seq<Primitive>, pending: seq<Shape>) {
    forall j :: 0 <= j < |pending| ==> Represents(rows, order, prims, pending[j])
  }

  /** Every listed primitive tested against the ray cut at `limit`. */
  function Scan(prims: seq<Primitive>, ray: Ray, listed: seq<nat>, limit: real, best: RayHit): RayHit {
    if listed == [] then best
    else
      var before, k := Scan(prims, ray, listed[..|listed| - 1], limit, best), listed[|listed| - 1];
      if k < |prims| && Meets(ray, prims[k].bounds, limit) && Near(ray, prims[k].bounds) < before.t
      then RayHit(true, Near(ray, prims[k].bounds), prims[k].id, before.normal)
      else before
  }

  /** The children that find a place on the stack, and those that do not: the high one when the low one has
      taken the last. */
  function Pushed(below: seq<Shape>, low: Shape, high: Shape, best: RayHit): Turn {
    if |below| + 1 < STACK then Turn(below + [low, high], best, [])
    else if |below| < STACK then Turn(below + [low], best, [high])
    else Turn(below, best, [low, high])
  }

  /** One round: a pruned subtree goes, a leaf is scanned, a fork gives way to its children. */
  ghost function Turned(rows: seq<Node>, order: seq<nat>, prims: seq<Primitive>, ray: Ray,
                        below: seq<Shape>, top: Shape, best: RayHit): Turn
    requires RowFits(rows, order, top.node)
  {
    var row := rows[top.node];
    if !Meets(ray, row.bounds, best.t) then Turn(below, best, [])
    else
      match top
      case Leaf(_) => Turn(below, Scan(prims, ray, Listed(row, order), best.t, best), [])
      case Fork(_, low, high) => Pushed(below, low, high, best)
  }

  ghost function Traverse(rows: seq<Node>, order: seq<nat>, prims: seq<Primitive>, ray: Ray,
                          pending: seq<Shape>, best: RayHit): Trip
    requires AllRepresented(rows, order, prims, pending)
    decreases TotalSize(pending)
  {
    if pending == [] then Trip(best, [])
    else
      var below, top := pending[..|pending| - 1], pending[|pending| - 1];
      TopRepresented(rows, order, prims, below, top, pending);
      var turn := Turned(rows, order, prims, ray, below, top, best);
      TurnShrinks(rows, order, prims, ray, below, top, best);
      var rest := Traverse(rows, order, prims, ray, turn.pending, turn.best);
      Trip(rest.best, turn.lost + rest.lost)
  }

  lemma TopRepresented(rows: seq<Node>, order: seq<nat>, prims: seq<Primitive>, below: seq<Shape>, top: Shape,
                       pending: seq<Shape>)
    requires AllRepresented(rows, order, prims, pending) && pending != []
    requires below == pending[..|pending| - 1] && top == pending[|pending| - 1]
    ensures AllRepresented(rows, order, prims, below) && Represents(rows, order, prims, top)
            && RowFits(rows, order, top.node)
    ensures pending == below + [top]
  {
  }

  lemma TurnShrinks(rows: seq<Node>, order: seq<nat>, prims: seq<Primitive>, ray: Ray, below: seq<Shape>, top: Shape,
                    best: RayHit)
    requires AllRepresented(rows, order, prims, below) && Represents(rows, order, prims, top)
             && RowFits(rows, order, top.node)
    ensures var turn := Turned(rows, order, prims, ray, below, top, best);
            && AllRepresented(rows, order, prims, turn.pending) && AllRepresented(rows, order, prims, turn.lost)
            && TotalSize(turn.pending) < TotalSize(below + [top])
            && (|below| < STACK ==> |turn.pending| <= STACK)
  {
    hide Represents, TotalSize, Size, Meets, Scan, Listed;
    TotalSizeAppend(below, top);
    if top.Fork? {
      TotalSizeSplit(below, top);
      ChildrenRepresented(rows, order, prims, top);
    }
  }

  lemma ChildrenRepresented(rows: seq<Node>, order: seq<nat>, prims: seq<Primitive>, s: Shape)
    requires Represents(rows, order, prims, s) && s.Fork?
    ensures Represents(rows, order, prims, s.low) && Represents(rows, order, prims, s.high)
  {
  }

  /** Unfolding one round. */
  lemma TraverseStep(rows: seq<Node>, order: seq<nat>, prims: seq<Primitive>, ray: Ray, below: seq<Shape>, top: Shape,
                     best: RayHit)
    requires AllRepresented(rows, order, prims, below) && Represents(rows, order, prims, top)
             && RowFits(rows, order, top.node)
    ensures AllRepresented(rows, order, prims, below + [top])
    ensures var turn := Turned(rows, order, prims, ray, below, top, best);
            && AllRepresented(rows, order, prims, turn.pending)
            && Traverse(rows, order, prims, ray, below + [top], best)
               == Trip(Traverse(rows, order, prims, ray, turn.pending, turn.best).best,
                       turn.lost + Traverse(rows, order, prims, ray, turn.pending, turn.best).lost)
  {
    TurnShrinks(rows, order, prims, ray, below, top, best);
    var pending := below + [top];
    assert pending[..|pending| - 1] == below && pending[|pending| - 1] == top;
    hide Represents, Turned;
  }

  // --- What it finds ---

  /** Whether primitive `k` is listed under one of the subtrees. */
  ghost predicate Waiting(rows: seq<Node>, order: seq<nat>, pending: seq<Shape>, k: nat) {
    exists j :: 0 <= j < |pending| && RowFits(rows, order, pending[j].node) && k in Listed(rows[pending[j].node], order)
  }

  /** Every candidate is no nearer than `t`, or waits, or was lost. */
  ghost predicate Accounted(rows: seq<Node>, order: seq<nat>, prims: seq<Primitive>, ray: Ray,
                            pending: seq<Shape>, lost: seq<Shape>, t: real) {
    forall k :: 0 <= k < |prims| && Candidate(ray, prims[k]) ==>
      t <= Near(ray, prims[k].bounds) || Waiting(rows, order, pending, k) || Waiting(rows, order, lost, k)
  }

  lemma WaitingJoined(rows: seq<Node>, order: seq<nat>, a: seq<Shape>, b: seq<Shape>, k: nat)
    ensures Waiting(rows, order, a + b, k) <==> Waiting(rows, order, a, k) || Waiting(rows, order, b, k)
  {
    if Waiting(rows, order, a, k) {
      var j :| 0 <= j < |a| && RowFits(rows, order, a[j].node) && k in Listed(rows[a[j].node], order);
      assert (a + b)[j] == a[j];
    }
    if Waiting(rows, order, b, k) {
      var j :| 0 <= j < |b| && RowFits(rows, order, b[j].node) && k in Listed(rows[b[j].node], order);
      assert (a + b)[|a| + j] == b[j];
    }
  }

  lemma WaitingOne(rows: seq<Node>, order: seq<nat>, s: Shape, k: nat)
    ensures Waiting(rows, order, [s], k) <==> RowFits(rows, order, s.node) && k in Listed(rows[s.node], order)
  {
    assert [s][0] == s;
  }

  /** What waits under a fork waits under its children, pushed or lost. */
  lemma ForkWaits(rows: seq<Node>, order: seq<nat>, prims: seq<Primitive>, below: seq<Shape>, top: Shape, best: RayHit,
                  k: nat)
    requires Represents(rows, order, prims, top) && top.Fork? && Waiting(rows, order, below + [top], k)
    ensures var turn := Pushed(below, top.low, top.high, best);
            Waiting(rows, order, turn.pending, k) || Waiting(rows, order, turn.lost, k)
  {
    hide Represents, Waiting, Listed;
    WaitingJoined(rows, order, below, [top], k);
    WaitingOne(rows, order, top, k);
    WaitingOne(rows, order, top.low, k);
    WaitingOne(rows, order, top.high, k);
    WaitingJoined(rows, order, below, [top.low], k);
    WaitingJoined(rows, order, [top.low], [top.high], k);
    assert [top.low] + [top.high] == [top.low, top.high];
    WaitingJoined(rows, order, below, [top.low, top.high], k);
    if !Waiting(rows, order, below, k) { ChildrenListAll(rows, order, prims, top, k); }
    ForkFits(rows, order, prims, top);
  }

  lemma ForkFits(rows: seq<Node>, order: seq<nat>, prims: seq<Primitive>, s: Shape)
    requires Represents(rows, order, prims, s) && s.Fork?
    ensures RowFits(rows, order, s.node) && RowFits(rows, order, s.low.node) && RowFits(rows, order, s.high.node)
  {
  }

  /** What a round does to the top row's primitives: pruned or scanned ones are cleared, the others stay. */
  lemma TurnClears(rows: seq<Node>, order: seq<nat>, prims: seq<Primitive>, ray: Ray, below: seq<Shape>, top: Shape,
                   best: RayHit)
    requires Represents(rows, order, prims, top) && RowFits(rows, order, top.node)
    requires Genuine(prims, ray, best) && best.t <= ray.tMax
    ensures var turn := Turned(rows, order, prims, ray, below, top, best);
            && Genuine(prims, ray, turn.best) && turn.best.t <= best.t && (best.hit ==> turn.best.hit)
            && (if top.Fork? && Meets(ray, rows[top.node].bounds, best.t)
                then turn == Pushed(below, top.low, top.high, best)
                else turn.pending == below && turn.lost == []
                     && Cleared(prims, ray, Listed(rows[top.node], order), turn.best.t))
  {
    hide Represents, Covers, Least, Meets, Genuine, Cleared, Listed, Scan;
    var row := rows[top.node];
    RootFits(rows, order, prims, top);
    if !Meets(ray, row.bounds, best.t) {
      PruneLosesNothing(prims, ray, Listed(row, order), row.bounds, best.t);
    } else if top.Leaf? {
      ScanClears(prims, ray, Listed(row, order), row.bounds, best);
    }
  }

  /** One round keeps the account: what is pruned or scanned is cleared, and a fork's primitives are its
      children's. */
  lemma TurnKeepsAccount(rows: seq<Node>, order: seq<nat>, prims: seq<Primitive>, ray: Ray,
                         below: seq<Shape>, top: Shape, lost: seq<Shape>, best: RayHit)
    requires Represents(rows, order, prims, top) && RowFits(rows, order, top.node)
    requires Genuine(prims, ray, best) && best.t <= ray.tMax
    requires Accounted(rows, order, prims, ray, below + [top], lost, best.t)
    ensures var turn := Turned(rows, order, prims, ray, below, top, best);
            && Genuine(prims, ray, turn.best) && turn.best.t <= best.t && (best.hit ==> turn.best.hit)
            && Accounted(rows, order, prims, ray, turn.pending, lost + turn.lost, turn.best.t)
  {
    var turn := Turned(rows, order, prims, ray, below, top, best);
    TurnClears(rows, order, prims, ray, below, top, best);
    hide Represents, Turned, Near, Far, Candidate, Meets, Genuine, Waiting, Listed, Pushed;
    forall k | 0 <= k < |prims| && Candidate(ray, prims[k]) && turn.best.t > Near(ray, prims[k].bounds)
      ensures Waiting(rows, order, turn.pending, k) || Waiting(rows, order, lost + turn.lost, k)
    {
      WaitingJoined(rows, order, lost, turn.lost, k);
      if Waiting(rows, order, below + [top], k) {
        if top.Fork? && Meets(ray, rows[top.node].bounds, best.t) {
          ForkWaits(rows, order, prims, below, top, best, k);
        } else {
          WaitingJoined(rows, order, below, [top], k);
          WaitingOne(rows, order, top, k);
        }
      }
    }
  }

  /** Scanning a leaf the cut ray meets finds the nearest of its primitives, if one is nearer. */
  lemma ScanClears(prims: seq<Primitive>, ray: Ray, listed: seq<nat>, box: Aabb, best: RayHit)
    requires Covers(prims, listed, box) && Genuine(prims, ray, best) && best.t <= ray.tMax
    ensures var after := Scan(prims, ray, listed, best.t, best);
            && Genuine(prims, ray, after) && after.t <= best.t && (best.hit ==> after.hit)
            && Cleared(prims, ray, listed, after.t)
  {
    ScanFinds(prims, ray, listed, best);
  }

  lemma {:induction false} ScanFinds(prims: seq<Primitive>, ray: Ray, listed: seq<nat>, best: RayHit)
    requires (forall i :: 0 <= i < |listed| ==> listed[i] < |prims|) && Genuine(prims, ray, best) && best.t <= ray.tMax
    ensures var after := Scan(prims, ray, listed, best.t, best);
            && Genuine(prims, ray, after) && after.t <= best.t && (best.hit ==> after.hit)
            && Cleared(prims, ray, listed, after.t)
    decreases |listed|
  {
    hide Near, Far;
    if listed != [] {
      var init := listed[..|listed| - 1];
      ScanFinds(prims, ray, init, best);
      assert listed == init + [listed[|listed| - 1]];
    }
  }

  lemma {:induction false} TraverseAccounts(rows: seq<Node>, order: seq<nat>, prims: seq<Primitive>, ray: Ray,
                                            pending: seq<Shape>, lost: seq<Shape>, best: RayHit)
    requires AllRepresented(rows, order, prims, pending)
    requires Genuine(prims, ray, best) && best.t <= ray.tMax
             && Accounted(rows, order, prims, ray, pending, lost, best.t)
    ensures var trip := Traverse(rows, order, prims, ray, pending, best);
            && AllRepresented(rows, order, prims, trip.lost) && Genuine(prims, ray, trip.best) && trip.best.t <= best.t
            && Accounted(rows, order, prims, ray, [], lost + trip.lost, trip.best.t)
    decreases TotalSize(pending)
  {
    hide *;
    if pending == [] {
      TraverseEnds(rows, order, prims, ray, best);
      assert lost + [] == lost;
    } else {
      var below, top := pending[..|pending| - 1], pending[|pending| - 1];
      TopRepresented(rows, order, prims, below, top, pending);
      var turn := Turned(rows, order, prims, ray, below, top, best);
      TurnShrinks(rows, order, prims, ray, below, top, best);
      TurnKeepsAccount(rows, order, prims, ray, below, top, lost, best);
      TraverseStep(rows, order, prims, ray, below, top, best);
      TraverseAccounts(rows, order, prims, ray, turn.pending, lost + turn.lost, turn.best);
      var rest := Traverse(rows, order, prims, ray, turn.pending, turn.best);
      assert (lost + turn.lost) + rest.lost == lost + (turn.lost + rest.lost);
      JoinRepresented(rows, order, prims, turn.lost, rest.lost);
    }
  }

  lemma TraverseEnds(rows: seq<Node>, order: seq<nat>, prims: seq<Primitive>, ray: Ray, best: RayHit)
    ensures AllRepresented(rows, order, prims, []) && Traverse(rows, order, prims, ray, [], best) == Trip(best, [])
  {
  }

  lemma JoinRepresented(rows: seq<Node>, order: seq<nat>, prims: seq<Primitive>, a: seq<Shape>, b: seq<Shape>)
    requires AllRepresented(rows, order, prims, a) && AllRepresented(rows, order, prims, b)
    ensures AllRepresented(rows, order, prims, a + b)
  {
    hide Represents;
  }

  function NoHit(ray: Ray): RayHit {
    RayHit(false, ray.tMax, 0, Vec3(0.0, 0.0, 1.0))
  }

  /** A tree over all primitives. */
  ghost predicate Whole(rows: seq<Node>, order: seq<nat>, prims: seq<Primitive>, root: Shape) {
    && Represents(rows, order, prims, root) && rows[root.node].offset == 0 && rows[root.node].count == |order|
    && multiset(order) == multiset(seq(|prims|, i => i))
  }

  ghost function FromRoot(rows: seq<Node>, order: seq<nat>, prims: seq<Primitive>, ray: Ray, root: Shape): Trip
    requires Whole(rows, order, prims, root)
  {
    OneRepresented(rows, order, prims, root);
    Traverse(rows, order, prims, ray, [root], NoHit(ray))
  }

  lemma OneRepresented(rows: seq<Node>, order: seq<nat>, prims: seq<Primitive>, root: Shape)
    requires Whole(rows, order, prims, root)
    ensures AllRepresented(rows, order, prims, [root])
  {
    hide Represents;
  }

  /** At the start everything waits under the root. */
  lemma AllWait(rows: seq<Node>, order: seq<nat>, prims: seq<Primitive>, ray: Ray, root: Shape)
    requires Whole(rows, order, prims, root)
    ensures Accounted(rows, order, prims, ray, [root], [], ray.tMax)
  {
    hide Near, Far, Covers, Least, Represents;
    assert RowFits(rows, order, root.node) by { RootFits(rows, order, prims, root); }
    forall k | 0 <= k < |prims| ensures Waiting(rows, order, [root], k) {
      var all := seq(|prims|, i => i);
      assert all[k] == k && k in multiset(all);
      assert k in order;
      assert Listed(rows[root.node], order) == order;
      assert [root][0] == root;
    }
  }

  lemma RootFits(rows: seq<Node>, order: seq<nat>, prims: seq<Primitive>, s: Shape)
    requires Represents(rows, order, prims, s)
    ensures RowFits(rows, order, s.node) && Covers(prims, Listed(rows[s.node], order), rows[s.node].bounds)
  {
  }

  /** No lost subtree lists a primitive nearer than `t`. */
  ghost predicate LossesCleared(rows: seq<Node>, order: seq<nat>, prims: seq<Primitive>, ray: Ray, lost: seq<Shape>,
                                t: real) {
    forall k :: 0 <= k < |prims| && Candidate(ray, prims[k]) && Waiting(rows, order, lost, k) ==>
             t <= Near(ray, prims[k].bounds)
  }

  /** The traversal reports a genuine hit, and it reports the nearest one if and only if no subtree that found
      no place on the stack holds a nearer primitive. */
  lemma WrongIffLost(rows: seq<Node>, order: seq<nat>, prims: seq<Primitive>, ray: Ray, root: Shape)
    requires Whole(rows, order, prims, root)
    ensures var trip := FromRoot(rows, order, prims, ray, root);
            && Genuine(prims, ray, trip.best)
            && (Nearest(prims, ray, trip.best) <==> LossesCleared(rows, order, prims, ray, trip.lost, trip.best.t))
            && (trip.lost == [] ==> Nearest(prims, ray, trip.best))
  {
    hide Represents, Traverse, Near, Far, Candidate, Waiting, Genuine;
    AllWait(rows, order, prims, ray, root);
    OneRepresented(rows, order, prims, root);
    assert Genuine(prims, ray, NoHit(ray)) by { NothingIsGenuine(prims, ray); }
    var trip := FromRoot(rows, order, prims, ray, root);
    TraverseAccounts(rows, order, prims, ray, [root], [], NoHit(ray));
    assert [] + trip.lost == trip.lost;
    forall k ensures !Waiting(rows, order, [], k) { NothingWaits(rows, order, k); }
    if NoneNearer(prims, ray, trip.best.t) { GenuineAndLeastIsNearest(prims, ray, trip.best); }
  }

  lemma NothingIsGenuine(prims: seq<Primitive>, ray: Ray)
    ensures Genuine(prims, ray, NoHit(ray))
  {
  }

  lemma NothingWaits(rows: seq<Node>, order: seq<nat>, k: nat)
    ensures !Waiting(rows, order, [], k)
  {
  }

  // --- Which trees the stack is enough for ---

  /** Stack places a subtree takes when no box is pruned: the high child is walked above the low one. */
  function Need(s: Shape): (n: nat)
    ensures 1 <= n <= Height(s) + 1
  {
    match s
    case Leaf(_) => 1
    case Fork(_, l, h) => if Need(l) > 1 + Need(h) then Need(l) else 1 + Need(h)
  }

  /** What each pending subtree needs is left above its place on the stack. */
  ghost predicate Fits(pending: seq<Shape>) {
    forall j :: 0 <= j < |pending| ==> Need(pending[j]) + j <= STACK
  }

  lemma ChildrenFit(pending: seq<Shape>, top: Shape)
    requires top.Fork? && |pending| < STACK
    ensures Fits(pending + [top]) ==> |pending| + 2 <= STACK
    ensures |pending| + 2 <= STACK ==> (Fits(pending + [top]) <==> Fits(pending + [top.low, top.high]))
  {
    var stack, stack' := pending + [top], pending + [top.low, top.high];
    assert stack[|pending|] == top && stack'[|pending|] == top.low && stack'[|pending| + 1] == top.high;
    forall j | 0 <= j < |pending| ensures stack[j] == stack'[j] == pending[j] {
    }
    if Fits(stack) { assert Need(stack[|pending|]) + |pending| <= STACK; }
    if |pending| + 2 <= STACK && Fits(stack') {
      assert Need(stack'[|pending|]) + |pending| <= STACK && Need(stack'[|pending| + 1]) + |pending| + 1 <= STACK;
    }
  }

  lemma PoppedFit(pending: seq<Shape>, top: Shape)
    requires |pending| < STACK
    ensures Fits(pending + [top]) ==> Fits(pending)
    ensures top.Leaf? && Fits(pending) ==> Fits(pending + [top])
  {
    var stack := pending + [top];
    forall j | 0 <= j < |pending| ensures stack[j] == pending[j] {
    }
  }

  /** If every pending subtree has the places it needs, none is lost. */
  lemma {:induction false} NothingLost(rows: seq<Node>, order: seq<nat>, prims: seq<Primitive>, ray: Ray,
                                       pending: seq<Shape>, best: RayHit)
    requires AllRepresented(rows, order, prims, pending) && Fits(pending) && |pending| <= STACK
    ensures Traverse(rows, order, prims, ray, pending, best).lost == []
    decreases TotalSize(pending)
  {
    hide Represents, Need, Meets, Scan, TotalSize, Fits;
    if pending != [] {
      var below, top := pending[..|pending| - 1], pending[|pending| - 1];
      TopRepresented(rows, order, prims, below, top, pending);
      TurnShrinks(rows, order, prims, ray, below, top, best);
      PoppedFit(below, top);
      if top.Fork? { ChildrenFit(below, top); }
      var turn := Turned(rows, order, prims, ray, below, top, best);
      NothingLost(rows, order, prims, ray, turn.pending, turn.best);
      TraverseStep(rows, order, prims, ray, below, top, best);
    }
  }

  /** The box of every row is met by the whole ray. */
  ghost predicate MeetsAll(rows: seq<Node>, ray: Ray) {
    forall r :: 0 <= r < |rows| ==> Meets(ray, rows[r].bounds, ray.tMax)
  }

  /** If some pending subtree has not the places it needs, a ray that meets every box and hits nothing loses one. */
  lemma {:induction false} SomethingLost(rows: seq<Node>, order: seq<nat>, prims: seq<Primitive>, ray: Ray,
                                         pending: seq<Shape>)
    requires AllRepresented(rows, order, prims, pending) && !Fits(pending) && |pending| <= STACK && MeetsAll(rows, ray)
    requires !Traverse(rows, order, prims, ray, pending, NoHit(ray)).best.hit
    ensures Traverse(rows, order, prims, ray, pending, NoHit(ray)).lost != []
    decreases TotalSize(pending)
  {
    NothingNeeded();
    hide Represents, Need, Meets, Near, Far, TotalSize, Fits, Listed;
    var best := NoHit(ray);
    var below, top := pending[..|pending| - 1], pending[|pending| - 1];
    TopRepresented(rows, order, prims, below, top, pending);
    TurnShrinks(rows, order, prims, ray, below, top, best);
    TraverseStep(rows, order, prims, ray, below, top, best);
    PoppedFit(below, top);
    var turn := Turned(rows, order, prims, ray, below, top, best);
    if top.Fork? {
      ChildrenFit(below, top);
      if turn.lost == [] { SomethingLost(rows, order, prims, ray, turn.pending); }
    } else {
      ScanHits(prims, ray, Listed(rows[top.node], order), best.t, best);
      HitStays(rows, order, prims, ray, turn.pending, turn.best);
      SomethingLost(rows, order, prims, ray, turn.pending);
    }
  }

  lemma NothingNeeded()
    ensures Fits([])
  {
  }

  lemma {:induction false} ScanHits(prims: seq<Primitive>, ray: Ray, listed: seq<nat>, limit: real, best: RayHit)
    ensures best.hit ==> Scan(prims, ray, listed, limit, best).hit
    ensures !Scan(prims, ray, listed, limit, best).hit ==> Scan(prims, ray, listed, limit, best) == best
    decreases |listed|
  {
    hide Near, Far, Meets;
    if listed != [] { ScanHits(prims, ray, listed[..|listed| - 1], limit, best); }
  }

  lemma {:induction false} HitStays(rows: seq<Node>, order: seq<nat>, prims: seq<Primitive>, ray: Ray,
                                    pending: seq<Shape>, best: RayHit)
    requires AllRepresented(rows, order, prims, pending)
    ensures best.hit ==> Traverse(rows, order, prims, ray, pending, best).best.hit
    decreases TotalSize(pending)
  {
    hide Represents, Meets, Near, Far, TotalSize, Scan;
    if pending != [] {
      var below, top := pending[..|pending| - 1], pending[|pending| - 1];
      TopRepresented(rows, order, prims, below, top, pending);
      TurnShrinks(rows, order, prims, ray, below, top, best);
      TraverseStep(rows, order, prims, ray, below, top, best);
      ScanHits(prims, ray, Listed(rows[top.node], order), best.t, best);
      var turn := Turned(rows, order, prims, ray, below, top, best);
      HitStays(rows, order, prims, ray, turn.pending, turn.best);
    }
  }

  /** No ray loses anything in a tree that needs at most the whole stack; in any other, every ray that meets
      all boxes and hits nothing loses something. */
  lemma StackSuffices(rows: seq<Node>, order: seq<nat>, prims: seq<Primitive>, ray: Ray, root: Shape)
    requires Whole(rows, order, prims, root)
    ensures Need(root) <= STACK ==> FromRoot(rows, order, prims, ray, root).lost == []
    ensures Need(root) > STACK && MeetsAll(rows, ray) && !FromRoot(rows, order, prims, ray, root).best.hit ==>
              FromRoot(rows, order, prims, ray, root).lost != []
    ensures Height(root) < STACK || |prims| <= STACK + 1 ==> Need(root) <= STACK
  {
    OneRepresented(rows, order, prims, root);
    HeightBelowCount(rows, order, prims, root);
    assert |order| == |prims| by { SameCount(order, |prims|); }
    assert Fits([root]) <==> Need(root) <= STACK by { assert [root][0] == root; }
    hide Represents, Traverse, Fits, Need, MeetsAll, Height;
    if Need(root) <= STACK {
      NothingLost(rows, order, prims, ray, [root], NoHit(ray));
    } else if MeetsAll(rows, ray) && !FromRoot(rows, order, prims, ray, root).best.hit {
      SomethingLost(rows, order, prims, ray, [root]);
    }
  }

  lemma SameCount(order: seq<nat>, n: nat)
    requires multiset(order) == multiset(seq(n, i => i))
    ensures |order| == n
  {
    assert |multiset(order)| == |order| && |multiset(seq(n, i => i))| == n;
  }
}
