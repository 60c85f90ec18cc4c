/** What the slab test decides, told by the points of the ray: it meets a box iff it has a point inside, and the
    entry it reports is the first one. */
module RayPoints {
  import opened Slabs
  import opened Vectors

  /** One coordinate of the ray at parameter `t`. */
  function Coordinate(o: real, d: real, t: real): real {
    o + Times(t, d)
  }

  function Times(a: real, b: real): real {
    a * b
  }

  /** The point of the ray at parameter `t`. */
  function Along(ray: Ray, t: real): Vec3 {
    var o, d := ray.origin, ray.direction;
    Vec3(Coordinate(o.x, d.x, t), Coordinate(o.y, d.y, t), Coordinate(o.z, d.z, t))
  }

  predicate Holds(box: Aabb, p: Vec3) {
    && box.min.x <= p.x <= box.max.x && box.min.y <= p.y <= box.max.y && box.min.z <= p.z <= box.max.z
  }

  /** At parameter `t`, from `tMin` on, the ray is inside the box. */
  predicate InsideAt(ray: Ray, box: Aabb, t: real) {
    ray.tMin <= t && Holds(box, Along(ray, t))
  }

  predicate NoneZero(v: Vec3) {
    v.x != 0.0 && v.y != 0.0 && v.z != 0.0
  }

  // --- One axis ---

  lemma ScaleBoth(a: real, b: real, f: real)
    ensures f > 0.0 ==> (a <= b <==> Times(a, f) <= Times(b, f))
    ensures f < 0.0 ==> (a <= b <==> Times(b, f) <= Times(a, f))
  {
    var p, q, g := b - a, a - b, -f;
    if f > 0.0 {
      SignOf(p, f);
      SignOf(q, f);
      assert b * f - a * f == p * f && a * f - b * f == q * f;
    } else if f < 0.0 {
      SignOf(p, g);
      SignOf(q, g);
      assert a * f - b * f == p * g && b * f - a * f == q * g;
    }
  }

  lemma SignOf(p: real, f: real)
    requires f > 0.0
    ensures (p >= 0.0 ==> p * f >= 0.0) && (p > 0.0 ==> p * f > 0.0)
  {
  }

  /** A plane is crossed where the ray's coordinate is the plane's. */
  lemma CrossingIsThere(o: real, d: real, plane: real)
    requires d != 0.0
    ensures Coordinate(o, d, Crossing(o, d, plane)) == plane
    ensures Inverse(d) < 0.0 <==> d < 0.0
  {
    var inv := 1.0 / d;
    assert inv * d == 1.0 && Inverse(d) == inv;
    calc {
      Crossing(o, d, plane) * d;
      ((plane - o) * inv) * d;
      (plane - o) * (inv * d);
      plane - o;
    }
    ScaleBoth(0.0, inv, d);
  }

  /** Between entry and exit of a slab the coordinate is between its planes, and nowhere else. */
  lemma AxisIff(ray: Ray, box: Aabb, axis: nat, t: real)
    requires ray.direction.At(axis) != 0.0
    ensures Entry(ray, box, axis) <= t <= Exit(ray, box, axis) <==>
              box.min.At(axis) <= Coordinate(ray.origin.At(axis), ray.direction.At(axis), t) <= box.max.At(axis)
  {
    var o, d, lo, hi := ray.origin.At(axis), ray.direction.At(axis), box.min.At(axis), box.max.At(axis);
    var c, e := Crossing(o, d, lo), Crossing(o, d, hi);
    CrossingIsThere(o, d, lo);
    CrossingIsThere(o, d, hi);
    hide Crossing, Inverse, Times;
    ScaleBoth(c, t, d);
    ScaleBoth(t, c, d);
    ScaleBoth(e, t, d);
    ScaleBoth(t, e, d);
  }

  lemma AxesIff(ray: Ray, box: Aabb, t: real)
    requires NoneZero(ray.direction)
    ensures InsideAt(ray, box, t) <==> Near(ray, box) <= t <= Far(ray, box)
  {
    hide Entry, Exit, Coordinate;
    AxisIff(ray, box, 0, t);
    AxisIff(ray, box, 1, t);
    AxisIff(ray, box, 2, t);
  }

  // --- The box ---

  /** The ray cut at `limit` meets the box iff it is inside somewhere up to there; it is first inside where the
      test says it enters. */
  lemma MeetsIffInside(ray: Ray, box: Aabb, limit: real)
    requires NoneZero(ray.direction)
    ensures Meets(ray, box, limit) <==> exists t :: t <= limit && InsideAt(ray, box, t)
    ensures Meets(ray, box, limit) ==> InsideAt(ray, box, Near(ray, box))
    ensures forall t :: InsideAt(ray, box, t) ==> Near(ray, box) <= t
  {
    hide InsideAt, Near, Far;
    forall t: real ensures InsideAt(ray, box, t) <==> Near(ray, box) <= t <= Far(ray, box) {
      AxesIff(ray, box, t);
    }
    var near := Near(ray, box);
    assert Meets(ray, box, limit) ==> near <= limit && InsideAt(ray, box, near);
  }

  // --- Directions with a zero component ---

  /** What a zero component counts as: 10^-30, the inverse of the reciprocal that stands in for its own. */
  const DRIFT: real := 1.0 / 1_000_000_000_000_000_000_000_000_000_000.0

  function Drift(d: real): real {
    if d == 0.0 then DRIFT else d
  }

  function Drifting(ray: Ray): Ray {
    var d := ray.direction;
    ray.(direction := Vec3(Drift(d.x), Drift(d.y), Drift(d.z)))
  }

  lemma DriftInverts(d: real)
    ensures Drift(d) != 0.0 && Inverse(Drift(d)) == Inverse(d)
  {
    assert DRIFT * FLAT_INVERSE == 1.0;
    assert DRIFT > 0.0;
    if d == 0.0 {
      var inv := 1.0 / DRIFT;
      assert inv * DRIFT == 1.0;
      assert (inv - FLAT_INVERSE) * DRIFT == 0.0;
    }
  }

  lemma AxisDrifts(ray: Ray, box: Aabb, axis: nat)
    ensures Entry(Drifting(ray), box, axis) == Entry(ray, box, axis)
    ensures Exit(Drifting(ray), box, axis) == Exit(ray, box, axis)
  {
    DriftInverts(ray.direction.At(axis));
    hide Inverse, Drift;
  }

  /** A zero component is taken for 10^-30: the test of any ray is that of the ray drifting so. */
  lemma ZeroDrifts(ray: Ray, box: Aabb, limit: real)
    ensures NoneZero(Drifting(ray).direction)
    ensures Near(Drifting(ray), box) == Near(ray, box) && Far(Drifting(ray), box) == Far(ray, box)
    ensures Meets(Drifting(ray), box, limit) == Meets(ray, box, limit)
  {
    hide Entry, Exit;
    assert DRIFT > 0.0;
    AxisDrifts(ray, box, 0);
    AxisDrifts(ray, box, 1);
    AxisDrifts(ray, box, 2);
  }

  /** On one axis the drift up to `limit` crosses no plane of the slab. */
  predicate ClearOf(o: real, d: real, lo: real, hi: real, limit: real) {
    d == 0.0 ==> (o < lo - limit * DRIFT || lo <= o) && (o <= hi - limit * DRIFT || hi < o)
  }

  predicate Clear(ray: Ray, box: Aabb, limit: real) {
    var o, d := ray.origin, ray.direction;
    && ClearOf(o.x, d.x, box.min.x, box.max.x, limit)
    && ClearOf(o.y, d.y, box.min.y, box.max.y, limit)
    && ClearOf(o.z, d.z, box.min.z, box.max.z, limit)
  }

  lemma DriftIsSmall(o: real, d: real, lo: real, hi: real, limit: real, t: real)
    requires 0.0 <= t <= limit && ClearOf(o, d, lo, hi, limit)
    ensures lo <= Coordinate(o, Drift(d), t) <= hi <==> lo <= Coordinate(o, d, t) <= hi
  {
    if d == 0.0 {
      assert DRIFT > 0.0;
      assert (limit - t) * DRIFT >= 0.0 && t * DRIFT >= 0.0;
      assert t * d == 0.0;
    }
  }

  lemma ClearIsInside(ray: Ray, box: Aabb, limit: real, t: real)
    requires ray.tMin >= 0.0 && Clear(ray, box, limit) && t <= limit
    ensures InsideAt(Drifting(ray), box, t) <==> InsideAt(ray, box, t)
  {
    if t >= ray.tMin {
      var o, d := ray.origin, ray.direction;
      hide Drift, Coordinate, ClearOf;
      DriftIsSmall(o.x, d.x, box.min.x, box.max.x, limit, t);
      DriftIsSmall(o.y, d.y, box.min.y, box.max.y, limit, t);
      DriftIsSmall(o.z, d.z, box.min.z, box.max.z, limit, t);
    }
  }

  /** Unless the drift takes it over a plane, a ray with zero components is tested for what it is. */
  lemma ClearMeetsIffInside(ray: Ray, box: Aabb, limit: real)
    requires ray.tMin >= 0.0 && Clear(ray, box, limit)
    ensures Meets(ray, box, limit) <==> exists t :: t <= limit && InsideAt(ray, box, t)
  {
    hide *;
    ZeroDrifts(ray, box, limit);
    MeetsIffInside(Drifting(ray), box, limit);
    forall t: real | t <= limit ensures InsideAt(Drifting(ray), box, t) <==> InsideAt(ray, box, t) {
      ClearIsInside(ray, box, limit, t);
    }
  }

  /** A ray that runs in the upper face of a box is inside and is not
      found to meet it. */
  lemma DriftsOutOfFace(ray: Ray, box: Aabb, limit: real)
    requires box.min == Vec3(0.0, 0.0, 0.0) && box.max == Vec3(4.0, 1.0, 4.0)
    requires ray.origin == Vec3(-1.0, 1.0, 0.5) && ray.direction == Vec3(1.0, 0.0, 1.0) && ray.tMin == 0.0
    ensures InsideAt(ray, box, 2.0) && !Meets(ray, box, limit)
  {
    assert Times(2.0, 1.0) == 2.0 && Times(2.0, 0.0) == 0.0;
    FaceBounds(ray, box);
    hide Entry, Exit, Times;
  }

  lemma FaceBounds(ray: Ray, box: Aabb)
    requires ray.origin.x == -1.0 && ray.direction.x == 1.0 && box.min.x == 0.0
    requires ray.origin.y == box.max.y && ray.direction.y == 0.0
    ensures Entry(ray, box, 0) == 1.0 && Exit(ray, box, 1) == 0.0
  {
    assert Inverse(1.0) == 1.0 && Inverse(0.0) > 0.0;
    assert (box.max.y - ray.origin.y) * Inverse(0.0) == 0.0;
  }
}
