/** Axis-aligned bounding boxes (ray_tracing/aabb.h, ray_tracing/aabb.cpp):
    the box value, `surrounding_box`, and the slab test `aabb::hit`. */
module Aabbs {
  import opened Tool
  import opened Extended

  /** `aabb`: the constructor stores its two corners as given, without
      ordering or validating them; `get_min` and `get_max` are the fields. */
  datatype Aabb = Aabb(min: Vec3, max: Vec3)

  /** The default-constructed box: both corners are default vectors, the
      origin. */
  const Default: Aabb := Aabb(Zero, Zero)

  /** A box whose minimum corner is below its maximum corner on every axis. */
  ghost predicate WellFormed(b: Aabb) {
    forall i :: 0 <= i < 3 ==> b.min.Get(i) <= b.max.Get(i)
  }

  /** `outer` contains `inner` on every axis. */
  ghost predicate Encloses(outer: Aabb, inner: Aabb) {
    forall i :: 0 <= i < 3 ==>
      outer.min.Get(i) <= inner.min.Get(i) && inner.max.Get(i) <= outer.max.Get(i)
  }

  /** `p` lies between the two corners of `b` on every axis, whichever way
      round the corners are. */
  ghost predicate BetweenCorners(b: Aabb, p: Vec3) {
    forall i :: 0 <= i < 3 ==>
      (b.min.Get(i) <= p.Get(i) <= b.max.Get(i)) || (b.max.Get(i) <= p.Get(i) <= b.min.Get(i))
  }

  /** The constructor does not validate: a box with its corners the wrong
      way round can be built. */
  lemma ConstructorDoesNotValidate()
    ensures !WellFormed(Aabb(Vec3(1.0, 0.0, 0.0), Zero))
  {
    assert Aabb(Vec3(1.0, 0.0, 0.0), Zero).min.Get(0) == 1.0;
  }

  /** `surrounding_box`: the component-wise `ffmin` of the minimum corners
      and `ffmax` of the maximum corners. */
  function SurroundingBox(b0: Aabb, b1: Aabb): (r: Aabb)
    ensures Encloses(r, b0) && Encloses(r, b1)
    ensures forall i :: 0 <= i < 3 ==>
      (r.min.Get(i) == b0.min.Get(i) || r.min.Get(i) == b1.min.Get(i)) &&
      (r.max.Get(i) == b0.max.Get(i) || r.max.Get(i) == b1.max.Get(i))
    ensures WellFormed(b0) && WellFormed(b1) ==> WellFormed(r)
  {
    var small := Vec3(FMin(b0.min.x, b1.min.x), FMin(b0.min.y, b1.min.y), FMin(b0.min.z, b1.min.z));
    var big := Vec3(FMax(b0.max.x, b1.max.x), FMax(b0.max.y, b1.max.y), FMax(b0.max.z, b1.max.z));
    Aabb(small, big)
  }

  /** The union is commutative and idempotent. */
  lemma SurroundingBoxAlgebra(b0: Aabb, b1: Aabb)
    ensures SurroundingBox(b0, b1) == SurroundingBox(b1, b0)
    ensures SurroundingBox(b0, b0) == b0
  {
  }

  /** The union is the least box enclosing both arguments. */
  lemma SurroundingBoxLeast(b0: Aabb, b1: Aabb, outer: Aabb)
    requires Encloses(outer, b0) && Encloses(outer, b1)
    ensures Encloses(outer, SurroundingBox(b0, b1))
  {
    var r := SurroundingBox(b0, b1);
    forall i | 0 <= i < 3
      ensures outer.min.Get(i) <= r.min.Get(i) && r.max.Get(i) <= outer.max.Get(i)
    {
      assert r.min.Get(i) == b0.min.Get(i) || r.min.Get(i) == b1.min.Get(i);
      assert r.max.Get(i) == b0.max.Get(i) || r.max.Get(i) == b1.max.Get(i);
    }
  }

  /** Enclosure is transitive, which is how enclosure facts compose along a
      chain of unions. */
  lemma EnclosesTransitive(a: Aabb, b: Aabb, c: Aabb)
    requires Encloses(a, b) && Encloses(b, c)
    ensures Encloses(a, c)
  {
    forall i | 0 <= i < 3
      ensures a.min.Get(i) <= c.min.Get(i) && c.max.Get(i) <= a.max.Get(i)
    {
      assert a.min.Get(i) <= b.min.Get(i) && b.max.Get(i) <= a.max.Get(i);
      assert b.min.Get(i) <= c.min.Get(i) && c.max.Get(i) <= b.max.Get(i);
    }
  }

  /** The running interval `[tmin, tmax]` of the slab test. */
  datatype Span = Span(lo: Ext, hi: Ext)

  /** One iteration of the slab loop on axis `i`: the entry and exit
      parameters of the two planes, ordered with `ffmin`/`ffmax`, then
      `tmin = ffmax(t0, tmin)` and `tmax = ffmin(t1, tmax)`. */
  function Narrow(b: Aabb, r: Ray, i: int, s: Span): (n: Span)
    requires 0 <= i < 3
    ensures s.lo != NaN ==> n.lo != NaN && Le(s.lo, n.lo)
    ensures s.hi != NaN ==> n.hi != NaN && Le(n.hi, s.hi)
  {
    var q0 := EDiv(b.min.Get(i) - r.orig.Get(i), r.dir.Get(i));
    var q1 := EDiv(b.max.Get(i) - r.orig.Get(i), r.dir.Get(i));
    var t0 := EMin(q0, q1);
    var t1 := EMax(q0, q1);
    Span(EMax(t0, s.lo), EMin(t1, s.hi))
  }

  /** The functional reading of the slab loop from axis `i` on: false as
      soon as the running interval is empty (`tmax <= tmin`), true after the
      third axis. */
  function HitFrom(b: Aabb, r: Ray, i: int, s: Span): bool
    requires 0 <= i <= 3
    decreases 3 - i
  {
    if i == 3 then true
    else
      var n := Narrow(b, r, i, s);
      if Le(n.hi, n.lo) then false else HitFrom(b, r, i + 1, n)
  }

  /** The interval the loop ends with when it runs to completion. */
  function FinalSpan(b: Aabb, r: Ray, s: Span): Span {
    Narrow(b, r, 2, Narrow(b, r, 1, Narrow(b, r, 0, s)))
  }

  /** `aabb::hit`, as the loop the code runs. The box is a value, so the
      query cannot change it. */
  method HitBox(b: Aabb, r: Ray, tmin: Ext, tmax: Ext) returns (hit: bool)
    ensures hit == HitFrom(b, r, 0, Span(tmin, tmax))
    ensures hit ==> !Le(FinalSpan(b, r, Span(tmin, tmax)).hi, FinalSpan(b, r, Span(tmin, tmax)).lo)
  {
    var lo, hi := tmin, tmax;
    var i := 0;
    while i < 3
      invariant 0 <= i <= 3
      invariant HitFrom(b, r, i, Span(lo, hi)) == HitFrom(b, r, 0, Span(tmin, tmax))
      invariant i == 0 ==> Span(lo, hi) == Span(tmin, tmax)
      invariant i == 1 ==> Span(lo, hi) == Narrow(b, r, 0, Span(tmin, tmax))
      invariant i == 2 ==> Span(lo, hi) == Narrow(b, r, 1, Narrow(b, r, 0, Span(tmin, tmax)))
      invariant i == 3 ==> Span(lo, hi) == FinalSpan(b, r, Span(tmin, tmax))
      invariant 0 < i ==> !Le(hi, lo)
    {
      var q0 := EDiv(b.min.Get(i) - r.orig.Get(i), r.dir.Get(i));
      var q1 := EDiv(b.max.Get(i) - r.orig.Get(i), r.dir.Get(i));
      var t0 := EMin(q0, q1);
      var t1 := EMax(q0, q1);
      lo := EMax(t0, lo);
      hi := EMin(t1, hi);
      if Le(hi, lo) {
        return false;
      }
      i := i + 1;
    }
    return true;
  }

  /** The running `tmin` never decreases and `tmax` never increases, over
      the whole loop. */
  lemma FinalSpanNarrows(b: Aabb, r: Ray, s: Span)
    requires s.lo != NaN && s.hi != NaN
    ensures var f := FinalSpan(b, r, s);
      f.lo != NaN && f.hi != NaN && Le(s.lo, f.lo) && Le(f.hi, s.hi)
  {
    var s1 := Narrow(b, r, 0, s);
    var s2 := Narrow(b, r, 1, s1);
    var f := Narrow(b, r, 2, s2);
    OrderProperties(s.lo, s1.lo, s2.lo);
    OrderProperties(s2.lo, f.lo, f.lo);
    OrderProperties(s.lo, s2.lo, f.lo);
    OrderProperties(f.hi, s2.hi, s1.hi);
    OrderProperties(s1.hi, s.hi, s.hi);
    OrderProperties(f.hi, s1.hi, s.hi);
  }

  /** The loop succeeds exactly when no prefix of it empties the interval. */
  lemma {:induction false} HitFromSpans(b: Aabb, r: Ray, s: Span)
    ensures HitFrom(b, r, 0, s) <==>
      var s1 := Narrow(b, r, 0, s);
      var s2 := Narrow(b, r, 1, s1);
      var s3 := Narrow(b, r, 2, s2);
      !Le(s1.hi, s1.lo) && !Le(s2.hi, s2.lo) && !Le(s3.hi, s3.lo)
  {
    var s1 := Narrow(b, r, 0, s);
    var s2 := Narrow(b, r, 1, s1);
    var s3 := Narrow(b, r, 2, s2);
    assert HitFrom(b, r, 0, s) == (!Le(s1.hi, s1.lo) && HitFrom(b, r, 1, s1));
    assert HitFrom(b, r, 1, s1) == (!Le(s2.hi, s2.lo) && HitFrom(b, r, 2, s2));
    assert HitFrom(b, r, 2, s2) == (!Le(s3.hi, s3.lo) && HitFrom(b, r, 3, s3));
  }

  /** The direction components are all non-zero, so every plane parameter
      is a finite double. */
  predicate NonZeroDirection(r: Ray) {
    r.dir.x != 0.0 && r.dir.y != 0.0 && r.dir.z != 0.0
  }

  /** A parameter between the two plane parameters of an axis puts the ray
      point between the two planes. */
  lemma BetweenPlanes(m0: real, m1: real, o: real, d: real, t: real)
    requires d != 0.0
    requires var q0 := (m0 - o) / d; var q1 := (m1 - o) / d;
      (q0 <= t <= q1) || (q1 <= t <= q0)
    ensures (m0 <= o + t * d <= m1) || (m1 <= o + t * d <= m0)
  {
    var q0 := (m0 - o) / d;
    var q1 := (m1 - o) / d;
    if 0.0 < d {
      if q0 <= t <= q1 {
        PlaneBoundPositive(t, m0, m1, o, d);
      } else {
        PlaneBoundPositive(t, m1, m0, o, d);
      }
    } else {
      if q0 <= t <= q1 {
        PlaneBoundNegative(t, m0, m1, o, d);
      } else {
        PlaneBoundNegative(t, m1, m0, o, d);
      }
    }
  }

  lemma PlaneBoundPositive(t: real, ma: real, mb: real, o: real, d: real)
    requires 0.0 < d
    requires (ma - o) / d <= t <= (mb - o) / d
    ensures ma <= o + t * d <= mb
  {
  }

  lemma PlaneBoundNegative(t: real, ma: real, mb: real, o: real, d: real)
    requires d < 0.0
    requires (ma - o) / d <= t <= (mb - o) / d
    ensures mb <= o + t * d <= ma
  {
  }

  /** What one axis contributes: the narrowed interval lies inside the
      axis's plane-parameter range. */
  lemma NarrowInsideAxis(b: Aabb, r: Ray, i: int, s: Span)
    requires 0 <= i < 3 && r.dir.Get(i) != 0.0
    requires s.lo != NaN && s.hi != NaN
    ensures var q0 := (b.min.Get(i) - r.orig.Get(i)) / r.dir.Get(i);
      var q1 := (b.max.Get(i) - r.orig.Get(i)) / r.dir.Get(i);
      var n := Narrow(b, r, i, s);
      Le(Fin(FMin(q0, q1)), n.lo) && Le(n.hi, Fin(FMax(q0, q1)))
  {
  }

  /** The ray point on axis `i` at a parameter between that axis's two
      plane parameters lies between the two corners on that axis. */
  lemma PointBetweenOnAxis(b: Aabb, r: Ray, i: int, t: real)
    requires 0 <= i < 3 && r.dir.Get(i) != 0.0
    requires var q0 := (b.min.Get(i) - r.orig.Get(i)) / r.dir.Get(i);
      var q1 := (b.max.Get(i) - r.orig.Get(i)) / r.dir.Get(i);
      FMin(q0, q1) <= t <= FMax(q0, q1)
    ensures var p := At(r, t);
      (b.min.Get(i) <= p.Get(i) <= b.max.Get(i)) || (b.max.Get(i) <= p.Get(i) <= b.min.Get(i))
  {
    var o, d := r.orig.Get(i), r.dir.Get(i);
    BetweenPlanes(b.min.Get(i), b.max.Get(i), o, d, t);
    assert At(r, t).Get(i) == o + d * t;
  }

  /** Soundness of the slab test: with non-zero direction components, a
      successful test leaves a non-empty open interval, and any parameter
      inside it puts the ray point between the box corners on all three
      axes. */
  lemma HitBoxSound(b: Aabb, r: Ray, tmin: Ext, tmax: Ext)
    requires NonZeroDirection(r)
    requires tmin != NaN && tmax != NaN
    requires HitFrom(b, r, 0, Span(tmin, tmax))
    ensures var f := FinalSpan(b, r, Span(tmin, tmax));
      f.lo.Fin? && f.hi.Fin? && f.lo.v < f.hi.v
    ensures var f := FinalSpan(b, r, Span(tmin, tmax));
      forall t :: f.lo.v < t < f.hi.v ==> BetweenCorners(b, At(r, t))
  {
    var s := Span(tmin, tmax);
    HitFromSpans(b, r, s);
    var s1 := Narrow(b, r, 0, s);
    var s2 := Narrow(b, r, 1, s1);
    var f := Narrow(b, r, 2, s2);
    assert r.dir.Get(0) != 0.0 && r.dir.Get(1) != 0.0 && r.dir.Get(2) != 0.0;
    NarrowInsideAxis(b, r, 0, s);
    NarrowInsideAxis(b, r, 1, s1);
    NarrowInsideAxis(b, r, 2, s2);
    OrderProperties(s1.lo, s2.lo, f.lo);
    OrderProperties(f.hi, s2.hi, s1.hi);
    OrderProperties(f.lo, f.hi, f.hi);
    assert f.lo.Fin? && f.hi.Fin?;
    forall t | f.lo.v < t < f.hi.v
      ensures BetweenCorners(b, At(r, t))
    {
      PointBetweenOnAxis(b, r, 0, t);
      PointBetweenOnAxis(b, r, 1, t);
      PointBetweenOnAxis(b, r, 2, t);
    }
  }
}
