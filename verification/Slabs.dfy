/** Axis-aligned boxes, rays and the slab test, in exact arithmetic. */
module Slabs {
  import opened Vectors

  const FLT_MAX: real := 340282346638528859811704183484516925440.0
  const FLAT_INVERSE: real := 1_000_000_000_000_000_000_000_000_000_000.0

  datatype Aabb = Aabb(min: Vec3, max: Vec3)

  datatype Ray = Ray(origin: Vec3, direction: Vec3, tMin: real, tMax: real)

  function Min(a: real, b: real): real { if a < b then a else b }

  function Max(a: real, b: real): real { if a > b then a else b }

  function EmptyBox(): Aabb {
    Aabb(Vec3(FLT_MAX, FLT_MAX, FLT_MAX), Vec3(-FLT_MAX, -FLT_MAX, -FLT_MAX))
  }

  function MinVec(a: Vec3, b: Vec3): Vec3 {
    Vec3(Min(a.x, b.x), Min(a.y, b.y), Min(a.z, b.z))
  }

  function MaxVec(a: Vec3, b: Vec3): Vec3 {
    Vec3(Max(a.x, b.x), Max(a.y, b.y), Max(a.z, b.z))
  }

  function Merge(other: Aabb, dest: Aabb): Aabb {
    Aabb(MinVec(dest.min, other.min), MaxVec(dest.max, other.max))
  }

  function Expand(point: Vec3, box: Aabb): Aabb {
    Aabb(MinVec(box.min, point), MaxVec(box.max, point))
  }

  /** `inner` lies inside `outer`. */
  predicate Inside(inner: Aabb, outer: Aabb) {
    && outer.min.x <= inner.min.x && outer.min.y <= inner.min.y && outer.min.z <= inner.min.z
    && inner.max.x <= outer.max.x && inner.max.y <= outer.max.y && inner.max.z <= outer.max.z
  }

  function Inverse(d: real): real {
    if d != 0.0 then 1.0 / d else FLAT_INVERSE
  }

  /** Ray parameter at which the plane at `plane` of one axis is crossed. */
  function Crossing(origin: real, direction: real, plane: real): real {
    (plane - origin) * Inverse(direction)
  }

  function Entry(ray: Ray, box: Aabb, axis: nat): real {
    var o, d := ray.origin.At(axis), ray.direction.At(axis);
    if Inverse(d) < 0.0 then Crossing(o, d, box.max.At(axis)) else Crossing(o, d, box.min.At(axis))
  }

  function Exit(ray: Ray, box: Aabb, axis: nat): real {
    var o, d := ray.origin.At(axis), ray.direction.At(axis);
    if Inverse(d) < 0.0 then Crossing(o, d, box.min.At(axis)) else Crossing(o, d, box.max.At(axis))
  }

  /** Where the ray, started at `tMin`, has entered all three slabs. */
  function Near(ray: Ray, box: Aabb): real {
    Max(Max(Max(ray.tMin, Entry(ray, box, 0)), Entry(ray, box, 1)), Entry(ray, box, 2))
  }

  /** Where the ray first leaves a slab. */
  function Far(ray: Ray, box: Aabb): real {
    Min(Min(Exit(ray, box, 0), Exit(ray, box, 1)), Exit(ray, box, 2))
  }

  /** The ray, cut at `limit`, meets the box. */
  predicate Meets(ray: Ray, box: Aabb, limit: real) {
    Near(ray, box) <= Far(ray, box) && Near(ray, box) <= limit
  }

  /** Shortening the ray moves neither bound. */
  lemma ShortenedRay(ray: Ray, box: Aabb, limit: real)
    ensures Near(ray.(tMax := limit), box) == Near(ray, box) && Far(ray.(tMax := limit), box) == Far(ray, box)
  {
    hide Crossing, Inverse;
  }

  lemma CrossingMonotone(o: real, d: real, p: real, q: real)
    requires p <= q
    ensures Inverse(d) < 0.0 ==> Crossing(o, d, q) <= Crossing(o, d, p)
    ensures Inverse(d) >= 0.0 ==> Crossing(o, d, p) <= Crossing(o, d, q)
  {
    var inv := Inverse(d);
    hide Inverse;
    assert (q - o) * inv - (p - o) * inv == (q - p) * inv;
    if inv < 0.0 {
      assert (q - p) * inv <= 0.0;
    } else {
      assert (q - p) * inv >= 0.0;
    }
  }

  /** A bigger box is entered no later and left no earlier. */
  lemma BiggerBoxIsMetEarlier(ray: Ray, inner: Aabb, outer: Aabb)
    requires Inside(inner, outer)
    ensures Near(ray, outer) <= Near(ray, inner) && Far(ray, inner) <= Far(ray, outer)
  {
    CrossingMonotone(ray.origin.x, ray.direction.x, outer.min.x, inner.min.x);
    CrossingMonotone(ray.origin.y, ray.direction.y, outer.min.y, inner.min.y);
    CrossingMonotone(ray.origin.z, ray.direction.z, outer.min.z, inner.min.z);
    CrossingMonotone(ray.origin.x, ray.direction.x, inner.max.x, outer.max.x);
    CrossingMonotone(ray.origin.y, ray.direction.y, inner.max.y, outer.max.y);
    CrossingMonotone(ray.origin.z, ray.direction.z, inner.max.z, outer.max.z);
    hide Crossing, Inverse;
  }

  /** The running bounds of the slab test after the first `axes` axes. */
  function NearAfter(ray: Ray, box: Aabb, axes: nat): real {
    if axes == 0 then ray.tMin else Max(NearAfter(ray, box, axes - 1), Entry(ray, box, axes - 1))
  }

  function FarAfter(ray: Ray, box: Aabb, axes: nat): real {
    if axes == 0 then ray.tMax else Min(FarAfter(ray, box, axes - 1), Exit(ray, box, axes - 1))
  }

  lemma {:induction false} BoundsTighten(ray: Ray, box: Aabb, some: nat, more: nat)
    requires some <= more
    ensures NearAfter(ray, box, some) <= NearAfter(ray, box, more)
    ensures FarAfter(ray, box, more) <= FarAfter(ray, box, some)
    decreases more
  {
    hide Entry, Exit;
    if some < more { BoundsTighten(ray, box, some, more - 1); }
  }

  lemma BoundsOfAllAxes(ray: Ray, box: Aabb)
    ensures NearAfter(ray, box, 3) == Near(ray, box)
    ensures FarAfter(ray, box, 3) == Min(ray.tMax, Far(ray, box))
  {
    hide Entry, Exit;
    assert NearAfter(ray, box, 1) == Max(ray.tMin, Entry(ray, box, 0));
    assert FarAfter(ray, box, 1) == Min(ray.tMax, Exit(ray, box, 0));
    assert NearAfter(ray, box, 2) == Max(NearAfter(ray, box, 1), Entry(ray, box, 1));
    assert FarAfter(ray, box, 2) == Min(FarAfter(ray, box, 1), Exit(ray, box, 1));
  }

  /** Where the ray enters and leaves the slab of one axis, swapped when it runs downwards. */
  method CrossSlab(ray: Ray, box: Aabb, axis: nat) returns (t0: real, t1: real)
    ensures t0 == Entry(ray, box, axis) && t1 == Exit(ray, box, axis)
  {
    var inv := Inverse(ray.direction.At(axis));
    hide Inverse;
    t0 := (box.min.At(axis) - ray.origin.At(axis)) * inv;
    t1 := (box.max.At(axis) - ray.origin.At(axis)) * inv;
    if inv < 0.0 { t0, t1 := t1, t0; }
  }

  /** The slab test, one axis at a time with an early exit, decides `Meets` and reports `Near`. */
  method IntersectRay(ray: Ray, box: Aabb) returns (hit: bool, tNear: real)
    ensures hit == Meets(ray, box, ray.tMax)
    ensures hit ==> tNear == Near(ray, box)
  {
    hide Near, Far, Entry, Exit, NearAfter, FarAfter;
    BoundsOfAllAxes(ray, box);
    var tMin, tMax := ray.tMin, ray.tMax;
    NoAxes(ray, box);
    for i := 0 to 3
      invariant tMin == NearAfter(ray, box, i) && tMax == FarAfter(ray, box, i)
      invariant i > 0 ==> tMin <= tMax
    {
      var t0, t1 := CrossSlab(ray, box, i);
      OneMoreAxis(ray, box, i);
      tMin := if t0 > tMin then t0 else tMin;
      tMax := if t1 < tMax then t1 else tMax;
      if tMax < tMin {
        BoundsTighten(ray, box, i + 1, 3);
        return false, 0.0;
      }
    }
    return true, tMin;
  }

  lemma NoAxes(ray: Ray, box: Aabb)
    ensures NearAfter(ray, box, 0) == ray.tMin && FarAfter(ray, box, 0) == ray.tMax
  {
  }

  lemma OneMoreAxis(ray: Ray, box: Aabb, i: nat)
    ensures NearAfter(ray, box, i + 1) == Max(NearAfter(ray, box, i), Entry(ray, box, i))
    ensures FarAfter(ray, box, i + 1) == Min(FarAfter(ray, box, i), Exit(ray, box, i))
  {
  }
}
