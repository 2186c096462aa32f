/** The objects a ray can hit (ray_tracing/hittable.h, hittable.cpp,
    ray_tracing/constant_medium.h): intersection queries, bounding boxes,
    the instances that move or turn another object, and the nodes of a
    bounding-volume hierarchy.

    A query `hit(r, t_min, t_max, rec)` writes through its record argument;
    here `Hit` receives the record's current value and returns the value it
    leaves behind together with the result. Likewise `BoundingBox` receives
    the current value of its output box. `hittable_list` queries its members
    with a record of its own, default-initialised, whose fields a member may
    leave unwritten; `blank` is that record's initial value. */
module Hittables {
  import opened Tool
  import opened Extended
  import opened Aabbs
  import opened Materials
  import Bvh
  import Rotation

  /** The three axis-aligned rectangle classes. */
  datatype Plane = XY | XZ | YZ

  datatype Hittable =
    | Sphere(center: Vec3, radius: real, mat: Material)
    | MovingSphere(center0: Vec3, center1: Vec3, time0: real, time1: real, radius: real, mat: Material)
      /** `xy_rect`, `xz_rect`, `yz_rect`: the extent `[a0, a1] x [b0, b1]`
          on the two free axes, at `k` on the fixed one. */
    | Rect(plane: Plane, a0: real, a1: real, b0: real, b1: real, k: real, mat: Material)
      /** `box`: its corners and its six sides, queried as a list. */
    | Box(boxMin: Vec3, boxMax: Vec3, sides: seq<Hittable>)
    | List(objects: seq<Hittable>)
    | Translate(child: Hittable, offset: Vec3)
    | RotateY(child: Hittable, sinTheta: real, cosTheta: real, hasBox: bool, bbox: Aabb)
    | BvhNode(left: Hittable, right: Hittable, box: Aabb)

  /** Every material reachable in `h` is well-formed. */
  ghost predicate Valid(h: Hittable)
    decreases h
  {
    match h
    case Sphere(_, _, mat) => Materials.Valid(mat)
    case MovingSphere(_, _, _, _, _, mat) => Materials.Valid(mat)
    case Rect(_, _, _, _, _, _, mat) => Materials.Valid(mat)
    case Box(_, _, sides) => forall i :: 0 <= i < |sides| ==> Valid(sides[i])
    case List(objects) => forall i :: 0 <= i < |objects| ==> Valid(objects[i])
    case Translate(child, _) => Valid(child)
    case RotateY(child, _, _, _, _) => Valid(child)
    case BvhNode(left, right, _) => Valid(left) && Valid(right)
  }

  /** No material reachable in `h` is a light. */
  ghost predicate Dark(h: Hittable)
    decreases h
  {
    match h
    case Sphere(_, _, mat) => !mat.DiffuseLight?
    case MovingSphere(_, _, _, _, _, mat) => !mat.DiffuseLight?
    case Rect(_, _, _, _, _, _, mat) => !mat.DiffuseLight?
    case Box(_, _, sides) => forall i :: 0 <= i < |sides| ==> Dark(sides[i])
    case List(objects) => forall i :: 0 <= i < |objects| ==> Dark(objects[i])
    case Translate(child, _) => Dark(child)
    case RotateY(child, _, _, _, _) => Dark(child)
    case BvhNode(left, right, _) => Dark(left) && Dark(right)
  }

  /** The result of a query and the record it leaves behind. */
  datatype Outcome = Outcome(hit: bool, rec: HitRecord)

  /** The result of `bounding_box` and the box it leaves behind. */
  datatype BoxResult = BoxResult(ok: bool, box: Aabb)

  // ---------------------------------------------------------------------
  // Spheres

  /** `moving_sphere::center`: the centre moves linearly from `center0` at
      `time0` to `center1` at `time1`. */
  function MovingCenter(h: Hittable, time: real): Vec3
    requires h.MovingSphere?
  {
    Add(h.center0, Scale(Scale(Sub(h.center1, h.center0), time - h.time0), Quotient(1.0, h.time1 - h.time0)))
  }

  /** The centre is `center0` at `time0` and, for a non-empty time span,
      `center1` at `time1`. */
  lemma MovingCenterEnds(h: Hittable)
    requires h.MovingSphere?
    ensures MovingCenter(h, h.time0) == h.center0
    ensures h.time0 != h.time1 ==> MovingCenter(h, h.time1) == h.center1
  {
    var d := Sub(h.center1, h.center0);
    var q := Quotient(1.0, h.time1 - h.time0);
    ScaleByZero(d, q);
    if h.time0 != h.time1 {
      QuotientInverse(1.0, h.time1 - h.time0);
      ScaleBack(d, h.time1 - h.time0, q);
    }
  }

  lemma ScaleByZero(d: Vec3, q: real)
    ensures Scale(Scale(d, 0.0), q) == Zero
  {
  }

  lemma ScaleBack(d: Vec3, k: real, q: real)
    requires q * k == 1.0
    ensures Scale(Scale(d, k), q) == d
  {
    assert d.x * k * q == d.x * (q * k);
    assert d.y * k * q == d.y * (q * k);
    assert d.z * k * q == d.z * (q * k);
  }

  /** The quadratic of a ray against a sphere: `a t^2 + 2 halfB t + c`,
      with discriminant `delta`. */
  datatype Quadratic = Quadratic(a: real, halfB: real, delta: real)

  function SphereQuadratic(center: Vec3, radius: real, r: Ray): (q: Quadratic)
    ensures 0.0 <= q.a
  {
    var oc := Sub(r.orig, center);
    var a := LengthSquared(r.dir);
    var halfB := Dot(r.dir, oc);
    var c := LengthSquared(oc) - radius * radius;
    Quadratic(a, halfB, halfB * halfB - a * c)
  }

  /** The nearer and the farther root. A zero `a` cannot come with a
      positive discriminant, so the division by zero the total quotient
      hides is never reached by a hit. */
  function NearRoot(q: Quadratic, m: Maths): real {
    Quotient(-q.halfB - m.sqrt(q.delta), q.a)
  }

  function FarRoot(q: Quadratic, m: Maths): real {
    Quotient(-q.halfB + m.sqrt(q.delta), q.a)
  }

  /** `t` lies strictly inside `(tMin, tMax)`. */
  predicate InOpen(t: real, tMin: Ext, tMax: Ext) {
    Lt(tMin, Fin(t)) && Lt(Fin(t), tMax)
  }

  /** The parameter the sphere query accepts: none unless the discriminant
      is positive, then the nearer root if it lies strictly inside the
      bounds, else the farther one if it does. */
  function SphereRoot(q: Quadratic, tMin: Ext, tMax: Ext, m: Maths): (t: Option<real>)
    ensures t.Some? ==> InOpen(t.value, tMin, tMax)
    ensures t.Some? ==> 0.0 < q.delta
    ensures t.Some? ==> t.value == NearRoot(q, m) || t.value == FarRoot(q, m)
    ensures 0.0 < q.delta && InOpen(NearRoot(q, m), tMin, tMax) ==> t == Some(NearRoot(q, m))
    ensures 0.0 < q.delta && t.None? ==> !InOpen(NearRoot(q, m), tMin, tMax) && !InOpen(FarRoot(q, m), tMin, tMax)
  {
    if q.delta > 0.0 then
      if InOpen(NearRoot(q, m), tMin, tMax) then Some(NearRoot(q, m))
      else if InOpen(FarRoot(q, m), tMin, tMax) then Some(FarRoot(q, m))
      else None
    else None
  }

  /** `get_sphere_uv`: longitude and latitude of a point of the unit sphere
      mapped to `[0, 1]`. */
  function SphereUv(p: Vec3, m: Maths): (uv: (real, real)) {
    var phi := m.atan2(p.z, p.x);
    var theta := m.asin(p.y);
    (1.0 - (phi + Pi) / (2.0 * Pi), (theta + Pi / 2.0) / Pi)
  }

  /** What an accepting sphere query writes: `t`, the point, the oriented
      normal, the material, and (for the static sphere only) the texture
      coordinates. */
  function SphereRecord(
    rec: HitRecord, r: Ray, t: real, center: Vec3, radius: real, mat: Material, withUv: bool, m: Maths): (out: HitRecord)
    ensures out.t == t && out.p == At(r, t) && out.mat == mat
    ensures Dot(r.dir, out.normal) <= 0.0
    ensures !withUv ==> out.u == rec.u && out.v == rec.v
  {
    var p := At(r, t);
    var outward := DivScalar(Sub(p, center), radius);
    var rec1 := SetFaceNormal(rec.(t := t, p := p), r, outward);
    var rec2 := rec1.(mat := mat);
    if withUv then
      var uv := SphereUv(outward, m);
      rec2.(u := uv.0, v := uv.1)
    else rec2
  }

  // ---------------------------------------------------------------------
  // Rectangles

  /** The fixed axis and the two free axes of a rectangle class. */
  function FixedAxis(plane: Plane): (i: int)
    ensures 0 <= i < 3
  {
    match plane
    case XY => 2
    case XZ => 1
    case YZ => 0
  }

  function FirstAxis(plane: Plane): (i: int)
    ensures 0 <= i < 3 && i != FixedAxis(plane)
  {
    if plane == YZ then 1 else 0
  }

  function SecondAxis(plane: Plane): (i: int)
    ensures 0 <= i < 3 && i != FixedAxis(plane) && i != FirstAxis(plane)
  {
    if plane == XY then 1 else 2
  }

  /** The outward normal of a rectangle: the unit vector of its fixed
      axis. */
  function RectNormal(plane: Plane): (n: Vec3)
    ensures n.Get(FixedAxis(plane)) == 1.0
    ensures n.Get(FirstAxis(plane)) == 0.0 && n.Get(SecondAxis(plane)) == 0.0
  {
    match plane
    case XY => Vec3(0.0, 0.0, 1.0)
    case XZ => Vec3(0.0, 1.0, 0.0)
    case YZ => Vec3(1.0, 0.0, 0.0)
  }

  /** The ray parameter at which `r` meets the plane of `h`. */
  function RectT(h: Hittable, r: Ray): Ext
    requires h.Rect?
  {
    EDiv(h.k - r.orig.Get(FixedAxis(h.plane)), r.dir.Get(FixedAxis(h.plane)))
  }

  /** The coordinates on the two free axes of the point at parameter `t`. */
  function RectCoords(h: Hittable, r: Ray, t: real): (real, real)
    requires h.Rect?
  {
    (r.orig.Get(FirstAxis(h.plane)) + t * r.dir.Get(FirstAxis(h.plane)),
     r.orig.Get(SecondAxis(h.plane)) + t * r.dir.Get(SecondAxis(h.plane)))
  }

  /** The texture coordinates of a point of the extent: its position
      relative to the extent on each free axis. */
  function RectUv(h: Hittable, xy: (real, real)): (uv: (real, real))
    requires h.Rect?
    ensures h.a0 < h.a1 && h.a0 <= xy.0 <= h.a1 ==> 0.0 <= uv.0 <= 1.0
    ensures h.b0 < h.b1 && h.b0 <= xy.1 <= h.b1 ==> 0.0 <= uv.1 <= 1.0
  {
    UnitQuotient(xy.0 - h.a0, h.a1 - h.a0);
    UnitQuotient(xy.1 - h.b0, h.b1 - h.b0);
    (Quotient(xy.0 - h.a0, h.a1 - h.a0), Quotient(xy.1 - h.b0, h.b1 - h.b0))
  }

  /** The rectangle query: the parameter must lie in the closed range
      `[tMin, tMax]` and the point inside the closed extent. A parameter
      that is not finite (the ray is parallel to the plane) is a miss. */
  function RectHit(h: Hittable, r: Ray, tMin: Ext, tMax: Ext, rec: HitRecord): (o: Outcome)
    requires h.Rect?
    ensures !o.hit ==> o.rec == rec
    ensures o.hit ==> RectT(h, r) == Fin(o.rec.t) && o.rec.p == At(r, o.rec.t) && o.rec.mat == h.mat
    ensures o.hit ==> !Lt(Fin(o.rec.t), tMin) && !Lt(tMax, Fin(o.rec.t))
    ensures o.hit ==> Dot(r.dir, o.rec.normal) <= 0.0
    ensures o.hit ==>
      var xy := RectCoords(h, r, o.rec.t);
      && h.a0 <= xy.0 <= h.a1 && h.b0 <= xy.1 <= h.b1
      && (o.rec.u, o.rec.v) == RectUv(h, xy)
  {
    var tt := RectT(h, r);
    if !tt.Fin? || Lt(tt, tMin) || Lt(tMax, tt) then Outcome(false, rec)
    else
      var t := tt.v;
      var xy := RectCoords(h, r, t);
      var x := xy.0;
      var y := xy.1;
      if x < h.a0 || x > h.a1 || y < h.b0 || y > h.b1 then Outcome(false, rec)
      else
        var uv := RectUv(h, xy);
        var rec1 := rec.(u := uv.0, v := uv.1, t := t);
        var rec2 := SetFaceNormal(rec1, r, RectNormal(h.plane));
        Outcome(true, rec2.(mat := h.mat, p := At(r, t)))
  }

  /** A part divided by a positive whole lies in `[0, 1]`. */
  lemma UnitQuotient(a: real, b: real)
    ensures 0.0 <= a <= b && 0.0 < b ==> 0.0 <= Quotient(a, b) <= 1.0
  {
    if 0.0 <= a <= b && 0.0 < b {
      assert Quotient(a, b) == a / b;
    }
  }

  // ---------------------------------------------------------------------
  // Queries

  /** The state of the `hittable_list::hit` loop: whether a member has hit,
      the closest parameter so far, the list's own record `temp_rec`, and
      the caller's record. */
  datatype Fold = Fold(hit: bool, closest: Ext, temp: HitRecord, rec: HitRecord)

  /** Once a member has hit, the caller's record is the list's own record,
      `closest` is its parameter, and that parameter is not below `tMin`. */
  predicate Coherent(s: Fold, tMin: Ext) {
    s.hit ==> s.rec == s.temp && s.closest == Fin(s.rec.t) && (tMin != NaN ==> Le(tMin, s.closest))
  }

  /** The ray `rotate_y::hit` queries its child with: origin and direction
      turned into the child's frame, the time kept. */
  function RotatedRay(r: Ray, s: real, c: real): (q: Ray)
    ensures q.time == r.time
  {
    Ray(Rotation.Turn(r.orig, s, c), Rotation.Turn(r.dir, s, c), r.time)
  }

  /** `hittable::hit` for every object. A miss leaves the record as it was;
      an accepted parameter lies within the bounds (closed bounds, since
      every shape accepts at least the open range and the rectangles accept
      the closed one); the material stored is one the object holds. */
  function Hit(h: Hittable, r: Ray, tMin: Ext, tMax: Ext, rec: HitRecord, blank: HitRecord, m: Maths): (o: Outcome)
    decreases h, 1
    ensures !o.hit ==> o.rec == rec
    ensures o.hit && tMin != NaN ==> Le(tMin, Fin(o.rec.t))
    ensures o.hit && tMax != NaN ==> Le(Fin(o.rec.t), tMax)
    ensures o.hit && Valid(h) ==> Materials.Valid(o.rec.mat)
    ensures o.hit && Dark(h) ==> !o.rec.mat.DiffuseLight?
  {
    match h
    case Sphere(center, radius, mat) =>
      var o := SphereHit(center, radius, mat, true, r, tMin, tMax, rec, m);
      InOpenClosed(o.rec.t, tMin, tMax);
      o
    case MovingSphere(_, _, _, _, radius, mat) =>
      var o := SphereHit(MovingCenter(h, r.time), radius, mat, false, r, tMin, tMax, rec, m);
      InOpenClosed(o.rec.t, tMin, tMax);
      o
    case Rect(_, _, _, _, _, _, _) =>
      RectHit(h, r, tMin, tMax, rec)
    case Box(_, _, sides) =>
      var f := ListFold(sides, 0, r, tMin, Fold(false, tMax, blank, rec), blank, m);
      Outcome(f.hit, f.rec)
    case List(objects) =>
      var f := ListFold(objects, 0, r, tMin, Fold(false, tMax, blank, rec), blank, m);
      Outcome(f.hit, f.rec)
    case Translate(child, offset) =>
      var moved := Ray(Sub(r.orig, offset), r.dir, r.time);
      var c := Hit(child, moved, tMin, tMax, rec, blank, m);
      if !c.hit then c
      else
        var shifted := c.rec.(p := Add(c.rec.p, offset));
        Outcome(true, SetFaceNormal(shifted, moved, shifted.normal))
    case RotateY(child, s, c, _, _) =>
      var rotated := RotatedRay(r, s, c);
      var o := Hit(child, rotated, tMin, tMax, rec, blank, m);
      if !o.hit then o
      else
        var turned := o.rec.(p := Rotation.AsWrittenPoint(o.rec.p, s, c));
        Outcome(true, SetFaceNormal(turned, rotated, Rotation.AsWrittenNormal(o.rec.normal, s, c)))
    case BvhNode(_, _, _) =>
      NodeHit(h, r, tMin, tMax, rec, blank, m)
  }

  /** `sphere::hit` and `moving_sphere::hit` once the centre at the ray's
      time is known: a miss leaves the record as it was, a hit writes the
      accepted root's record with the sphere's material. */
  function SphereHit(
    center: Vec3, radius: real, mat: Material, withUv: bool, r: Ray, tMin: Ext, tMax: Ext, rec: HitRecord, m: Maths): (o: Outcome)
    ensures !o.hit ==> o.rec == rec
    ensures o.hit ==> InOpen(o.rec.t, tMin, tMax) && o.rec.mat == mat && o.rec.p == At(r, o.rec.t)
  {
    var root := SphereRoot(SphereQuadratic(center, radius, r), tMin, tMax, m);
    if root.None? then Outcome(false, rec)
    else Outcome(true, SphereRecord(rec, r, root.value, center, radius, mat, withUv, m))
  }

  /** `bvh_node::hit`: nothing unless the ray meets the node's box; then
      the left child with the caller's bounds, and the right child with the
      far bound lowered to the left child's hit. */
  function NodeHit(h: Hittable, r: Ray, tMin: Ext, tMax: Ext, rec: HitRecord, blank: HitRecord, m: Maths): (o: Outcome)
    requires h.BvhNode?
    decreases h, 0
    ensures !o.hit ==> o.rec == rec
    ensures o.hit && tMin != NaN ==> Le(tMin, Fin(o.rec.t))
    ensures o.hit && tMax != NaN ==> Le(Fin(o.rec.t), tMax)
    ensures o.hit && Valid(h) ==> Materials.Valid(o.rec.mat)
    ensures o.hit && Dark(h) ==> !o.rec.mat.DiffuseLight?
  {
    if !HitFrom(h.box, r, 0, Span(tMin, tMax)) then Outcome(false, rec)
    else
      var hl := Hit(h.left, r, tMin, tMax, rec, blank, m);
      var hr := Hit(h.right, r, tMin, if hl.hit then Fin(hl.rec.t) else tMax, hl.rec, blank, m);
      if hl.hit && tMax != NaN then
        OrderProperties(Fin(hr.rec.t), Fin(hl.rec.t), tMax);
        Outcome(true, hr.rec)
      else Outcome(hl.hit || hr.hit, hr.rec)
  }

  /** The loop of `hittable_list::hit` from member `i` on: each member is
      queried with the list's record and the closest parameter so far, and
      a hit copies the list's record to the caller's. */
  function ListFold(objs: seq<Hittable>, i: nat, r: Ray, tMin: Ext, s: Fold, blank: HitRecord, m: Maths): (f: Fold)
    requires i <= |objs|
    requires Coherent(s, tMin)
    decreases objs, |objs| - i
    ensures Coherent(f, tMin)
    ensures s.hit ==> f.hit
    ensures !f.hit ==> f == s
    ensures s.closest != NaN ==> f.closest != NaN && Le(f.closest, s.closest)
    ensures f.hit && !s.hit ==> exists j :: i <= j < |objs| && Hit(objs[j], r, tMin, s.closest, s.temp, blank, m).hit
    ensures (forall j :: i <= j < |objs| ==> Valid(objs[j])) && (s.hit ==> Materials.Valid(s.rec.mat))
      ==> (f.hit ==> Materials.Valid(f.rec.mat))
    ensures (forall j :: i <= j < |objs| ==> Dark(objs[j])) && (s.hit ==> !s.rec.mat.DiffuseLight?)
      ==> (f.hit ==> !f.rec.mat.DiffuseLight?)
  {
    if i == |objs| then s
    else
      var o := Hit(objs[i], r, tMin, s.closest, s.temp, blank, m);
      var next := if o.hit then Fold(true, Fin(o.rec.t), o.rec, o.rec) else s.(temp := o.rec);
      if s.closest != NaN && o.hit then
        var f := ListFold(objs, i + 1, r, tMin, next, blank, m);
        OrderProperties(f.closest, Fin(o.rec.t), s.closest);
        f
      else
        ListFold(objs, i + 1, r, tMin, next, blank, m)
  }

  /** A parameter strictly inside the bounds is inside the closed bounds. */
  lemma InOpenClosed(t: real, tMin: Ext, tMax: Ext)
    ensures InOpen(t, tMin, tMax) ==> Le(tMin, Fin(t)) && Le(Fin(t), tMax)
  {
    if InOpen(t, tMin, tMax) {
      OrderProperties(tMin, Fin(t), tMax);
    }
  }

  // ---------------------------------------------------------------------
  // Properties of the queries

  /** Two outcomes agree on whether there was a hit and, if so, on the
      parameter, the point and the material. */
  predicate SameReport(o1: Outcome, o2: Outcome) {
    o1.hit == o2.hit && (o1.hit ==> o1.rec.t == o2.rec.t && o1.rec.p == o2.rec.p && o1.rec.mat == o2.rec.mat)
  }

  /** Whether an object is hit, at which parameter, where and with which
      material, does not depend on the record the caller passes in: that
      record only decides what a miss leaves behind and the fields a shape
      does not write. */
  lemma {:induction false} HitIgnoresRecord(
    h: Hittable, r: Ray, tMin: Ext, tMax: Ext, rec1: HitRecord, rec2: HitRecord, blank: HitRecord, m: Maths)
    decreases h, 1
    ensures SameReport(Hit(h, r, tMin, tMax, rec1, blank, m), Hit(h, r, tMin, tMax, rec2, blank, m))
  {
    if h.Sphere? || h.MovingSphere? || h.Rect? {
      LeafIgnoresRecord(h, r, tMin, tMax, rec1, rec2, blank, m);
    } else if h.Box? || h.List? {
      ListIgnoresRecord(h, r, tMin, tMax, rec1, rec2, blank, m);
    } else if h.Translate? || h.RotateY? {
      WrapperIgnoresRecord(h, r, tMin, tMax, rec1, rec2, blank, m);
    } else {
      NodeIgnoresRecord(h, r, tMin, tMax, rec1, rec2, blank, m);
    }
  }

  /** The case of `HitIgnoresRecord` for the shapes, which write the
      parameter, point and material themselves. */
  lemma LeafIgnoresRecord(h: Hittable, r: Ray, tMin: Ext, tMax: Ext, rec1: HitRecord, rec2: HitRecord, blank: HitRecord, m: Maths)
    requires h.Sphere? || h.MovingSphere? || h.Rect?
    ensures SameReport(Hit(h, r, tMin, tMax, rec1, blank, m), Hit(h, r, tMin, tMax, rec2, blank, m))
  {
    match h
    case Sphere(center, radius, mat) =>
      SphereIgnoresRecord(center, radius, mat, true, r, tMin, tMax, rec1, rec2, m);
    case MovingSphere(_, _, _, _, radius, mat) =>
      SphereIgnoresRecord(MovingCenter(h, r.time), radius, mat, false, r, tMin, tMax, rec1, rec2, m);
    case Rect(_, _, _, _, _, _, _) =>
  }

  lemma SphereIgnoresRecord(
    center: Vec3, radius: real, mat: Material, withUv: bool, r: Ray, tMin: Ext, tMax: Ext, rec1: HitRecord, rec2: HitRecord, m: Maths)
    ensures SameReport(SphereHit(center, radius, mat, withUv, r, tMin, tMax, rec1, m), SphereHit(center, radius, mat, withUv, r, tMin, tMax, rec2, m))
  {
  }

  /** The case of `HitIgnoresRecord` for a box's sides and a list. */
  lemma ListIgnoresRecord(h: Hittable, r: Ray, tMin: Ext, tMax: Ext, rec1: HitRecord, rec2: HitRecord, blank: HitRecord, m: Maths)
    requires h.Box? || h.List?
    decreases h, 0
    ensures SameReport(Hit(h, r, tMin, tMax, rec1, blank, m), Hit(h, r, tMin, tMax, rec2, blank, m))
  {
    var objs := if h.Box? then h.sides else h.objects;
    FoldIgnoresRecord(objs, 0, r, tMin, Fold(false, tMax, blank, rec1), Fold(false, tMax, blank, rec2), blank, m);
  }

  /** The case of `HitIgnoresRecord` for a translated or rotated child. */
  lemma {:induction false} WrapperIgnoresRecord(
    h: Hittable, r: Ray, tMin: Ext, tMax: Ext, rec1: HitRecord, rec2: HitRecord, blank: HitRecord, m: Maths)
    requires h.Translate? || h.RotateY?
    decreases h, 0
    ensures SameReport(Hit(h, r, tMin, tMax, rec1, blank, m), Hit(h, r, tMin, tMax, rec2, blank, m))
  {
    WrapperStep(h, r, tMin, tMax, rec1, blank, m);
    WrapperStep(h, r, tMin, tMax, rec2, blank, m);
    match h
    case Translate(child, offset) =>
      HitIgnoresRecord(child, Ray(Sub(r.orig, offset), r.dir, r.time), tMin, tMax, rec1, rec2, blank, m);
    case RotateY(child, s, c, _, _) =>
      HitIgnoresRecord(child, RotatedRay(r, s, c), tMin, tMax, rec1, rec2, blank, m);
  }

  /** The case of `HitIgnoresRecord` for a BVH node. */
  lemma {:induction false} NodeIgnoresRecord(
    h: Hittable, r: Ray, tMin: Ext, tMax: Ext, rec1: HitRecord, rec2: HitRecord, blank: HitRecord, m: Maths)
    requires h.BvhNode?
    decreases h, 0
    ensures SameReport(Hit(h, r, tMin, tMax, rec1, blank, m), Hit(h, r, tMin, tMax, rec2, blank, m))
  {
    var hl1 := Hit(h.left, r, tMin, tMax, rec1, blank, m);
    var hl2 := Hit(h.left, r, tMin, tMax, rec2, blank, m);
    HitIgnoresRecord(h.left, r, tMin, tMax, rec1, rec2, blank, m);
    var bound := if hl1.hit then Fin(hl1.rec.t) else tMax;
    assert bound == if hl2.hit then Fin(hl2.rec.t) else tMax;
    var hr1 := Hit(h.right, r, tMin, bound, hl1.rec, blank, m);
    var hr2 := Hit(h.right, r, tMin, bound, hl2.rec, blank, m);
    HitIgnoresRecord(h.right, r, tMin, bound, hl1.rec, hl2.rec, blank, m);
    NodeOutcome(h, r, tMin, tMax, rec1, blank, m);
    NodeOutcome(h, r, tMin, tMax, rec2, blank, m);
    SameCombined(HitFrom(h.box, r, 0, Span(tMin, tMax)), hl1, hl2, hr1, hr2,
      Hit(h, r, tMin, tMax, rec1, blank, m), Hit(h, r, tMin, tMax, rec2, blank, m), rec1, rec2);
  }

  lemma SameCombined(boxHit: bool, hl1: Outcome, hl2: Outcome, hr1: Outcome, hr2: Outcome, o1: Outcome, o2: Outcome, rec1: HitRecord, rec2: HitRecord)
    requires SameReport(hl1, hl2) && SameReport(hr1, hr2)
    requires !hr1.hit ==> hr1.rec == hl1.rec
    requires !hr2.hit ==> hr2.rec == hl2.rec
    requires o1 == if boxHit then Outcome(hl1.hit || hr1.hit, hr1.rec) else Outcome(false, rec1)
    requires o2 == if boxHit then Outcome(hl2.hit || hr2.hit, hr2.rec) else Outcome(false, rec2)
    ensures SameReport(o1, o2)
  {
  }

  /** Past its box, a BVH node reports whether either child hit, with the
      record the right child leaves. */
  lemma NodeOutcome(h: Hittable, r: Ray, tMin: Ext, tMax: Ext, rec: HitRecord, blank: HitRecord, m: Maths)
    requires h.BvhNode?
    ensures var o := Hit(h, r, tMin, tMax, rec, blank, m);
      var hl := Hit(h.left, r, tMin, tMax, rec, blank, m);
      var hr := Hit(h.right, r, tMin, if hl.hit then Fin(hl.rec.t) else tMax, hl.rec, blank, m);
      if HitFrom(h.box, r, 0, Span(tMin, tMax)) then o == Outcome(hl.hit || hr.hit, hr.rec) else o == Outcome(false, rec)
  {
  }

  /** Two runs of the list loop that differ only in the caller's record
      agree on whether a member hits and, if one does, on the record they
      leave. */
  lemma {:induction false} FoldIgnoresRecord(
    objs: seq<Hittable>, i: nat, r: Ray, tMin: Ext, s1: Fold, s2: Fold, blank: HitRecord, m: Maths)
    requires i <= |objs|
    requires Coherent(s1, tMin) && Coherent(s2, tMin)
    requires s1.hit == s2.hit && s1.closest == s2.closest && s1.temp == s2.temp
    decreases |objs| - i
    ensures var f1 := ListFold(objs, i, r, tMin, s1, blank, m);
            var f2 := ListFold(objs, i, r, tMin, s2, blank, m);
      f1.hit == f2.hit && (f1.hit ==> f1.rec == f2.rec)
  {
    if i < |objs| {
      var o := Hit(objs[i], r, tMin, s1.closest, s1.temp, blank, m);
      var n1 := if o.hit then Fold(true, Fin(o.rec.t), o.rec, o.rec) else s1.(temp := o.rec);
      var n2 := if o.hit then Fold(true, Fin(o.rec.t), o.rec, o.rec) else s2.(temp := o.rec);
      FoldStep(objs, i, r, tMin, s1, blank, m);
      FoldStep(objs, i, r, tMin, s2, blank, m);
      FoldIgnoresRecord(objs, i + 1, r, tMin, n1, n2, blank, m);
    }
  }

  /** While no member has hit, the bound is still the caller's `tMax`; so a
      member that hits under `tMax` makes the loop hit. */
  lemma {:induction false} FoldFindsHit(
    objs: seq<Hittable>, i: nat, j: nat, r: Ray, tMin: Ext, tMax: Ext, s: Fold, any: HitRecord, blank: HitRecord, m: Maths)
    requires i <= j < |objs|
    requires Coherent(s, tMin)
    requires !s.hit ==> s.closest == tMax
    requires Hit(objs[j], r, tMin, tMax, any, blank, m).hit
    decreases j - i
    ensures ListFold(objs, i, r, tMin, s, blank, m).hit
  {
    var o := Hit(objs[i], r, tMin, s.closest, s.temp, blank, m);
    var next := if o.hit then Fold(true, Fin(o.rec.t), o.rec, o.rec) else s.(temp := o.rec);
    if i == j {
      if !s.hit {
        HitIgnoresRecord(objs[j], r, tMin, tMax, any, s.temp, blank, m);
      }
    } else if !s.hit && !o.hit {
      FoldFindsHit(objs, i + 1, j, r, tMin, tMax, next, any, blank, m);
    }
  }

  /** `hittable_list::hit` reports a hit exactly when some member, asked on
      its own with the same bounds, reports one. */
  lemma ListHitIff(objs: seq<Hittable>, r: Ray, tMin: Ext, tMax: Ext, rec: HitRecord, blank: HitRecord, m: Maths)
    ensures Hit(List(objs), r, tMin, tMax, rec, blank, m).hit <==>
      exists j :: 0 <= j < |objs| && Hit(objs[j], r, tMin, tMax, blank, blank, m).hit
  {
    if exists j :: 0 <= j < |objs| && Hit(objs[j], r, tMin, tMax, blank, blank, m).hit {
      var j :| 0 <= j < |objs| && Hit(objs[j], r, tMin, tMax, blank, blank, m).hit;
      FoldFindsHit(objs, 0, j, r, tMin, tMax, Fold(false, tMax, blank, rec), blank, blank, m);
    }
  }

  /** `bvh_node::hit`: a ray that misses the node's box misses the node and
      leaves the record alone; otherwise the node hits when a child does,
      and once the left child has hit, the right child can only bring the
      answer nearer. */
  lemma BvhHit(h: Hittable, r: Ray, tMin: Ext, tMax: Ext, rec: HitRecord, blank: HitRecord, m: Maths)
    requires h.BvhNode?
    ensures var o := Hit(h, r, tMin, tMax, rec, blank, m);
      var boxHit := HitFrom(h.box, r, 0, Span(tMin, tMax));
      var hl := Hit(h.left, r, tMin, tMax, rec, blank, m);
      && (!boxHit ==> o == Outcome(false, rec))
      && (boxHit && hl.hit ==> o.hit && Le(Fin(o.rec.t), Fin(hl.rec.t)))
      && (boxHit && !hl.hit ==> o == Hit(h.right, r, tMin, tMax, rec, blank, m))
  {
  }

  /** `translate::hit` asks its child with the ray moved by `-offset`, and
      moves the point it reports back by `offset`; the parameter and the
      material are the child's. */
  lemma TranslateHit(child: Hittable, offset: Vec3, r: Ray, tMin: Ext, tMax: Ext, rec: HitRecord, blank: HitRecord, m: Maths)
    ensures var o := Hit(Translate(child, offset), r, tMin, tMax, rec, blank, m);
      var moved := Ray(Sub(r.orig, offset), r.dir, r.time);
      var c := Hit(child, moved, tMin, tMax, rec, blank, m);
      && o.hit == c.hit
      && (o.hit ==> o.rec.t == c.rec.t && o.rec.p == Add(c.rec.p, offset) && o.rec.mat == c.rec.mat)
  {
    WrapperStep(Translate(child, offset), r, tMin, tMax, rec, blank, m);
  }

  /** One unfolding of the query on a translated or rotated child. */
  lemma WrapperStep(h: Hittable, r: Ray, tMin: Ext, tMax: Ext, rec: HitRecord, blank: HitRecord, m: Maths)
    requires h.Translate? || h.RotateY?
    ensures h.Translate? ==>
      var moved := Ray(Sub(r.orig, h.offset), r.dir, r.time);
      var c := Hit(h.child, moved, tMin, tMax, rec, blank, m);
      var shifted := c.rec.(p := Add(c.rec.p, h.offset));
      Hit(h, r, tMin, tMax, rec, blank, m) == if !c.hit then c else Outcome(true, SetFaceNormal(shifted, moved, shifted.normal))
    ensures h.RotateY? ==>
      var rotated := RotatedRay(r, h.sinTheta, h.cosTheta);
      var c := Hit(h.child, rotated, tMin, tMax, rec, blank, m);
      var turned := c.rec.(p := Rotation.AsWrittenPoint(c.rec.p, h.sinTheta, h.cosTheta));
      Hit(h, r, tMin, tMax, rec, blank, m)
        == if !c.hit then c else Outcome(true, SetFaceNormal(turned, rotated, Rotation.AsWrittenNormal(c.rec.normal, h.sinTheta, h.cosTheta)))
  {
  }

  /** A point of the moved ray, moved back by `offset`, is the point of the
      original ray at the same parameter. */
  lemma MovedRayPoint(r: Ray, offset: Vec3, t: real)
    ensures Add(At(Ray(Sub(r.orig, offset), r.dir, r.time), t), offset) == At(r, t)
  {
  }

  /** `rotate_y::hit` asks its child with the turned ray and reports the
      child's parameter; the point it stores has the turned x, the turned z
      in the y slot, and the child's z. */
  lemma RotateYHit(h: Hittable, r: Ray, tMin: Ext, tMax: Ext, rec: HitRecord, blank: HitRecord, m: Maths)
    requires h.RotateY?
    ensures var o := Hit(h, r, tMin, tMax, rec, blank, m);
      var c := Hit(h.child, RotatedRay(r, h.sinTheta, h.cosTheta), tMin, tMax, rec, blank, m);
      && o.hit == c.hit
      && (o.hit ==> o.rec.t == c.rec.t && o.rec.mat == c.rec.mat)
      && (o.hit ==> o.rec.p == Rotation.AsWrittenPoint(c.rec.p, h.sinTheta, h.cosTheta) && o.rec.p.z == c.rec.p.z)
  {
    WrapperStep(h, r, tMin, tMax, rec, blank, m);
  }

  // ---------------------------------------------------------------------
  // Bounding boxes

  /** `sphere::bounding_box`: the cube of half-side `radius` about the
      centre. */
  function SphereBox(center: Vec3, radius: real): (b: Aabb)
    ensures forall i :: 0 <= i < 3 ==>
      b.min.Get(i) == center.Get(i) - radius && b.max.Get(i) == center.Get(i) + radius
    ensures 0.0 <= radius ==> WellFormed(b) && BetweenCorners(b, center)
  {
    var d := Vec3(radius, radius, radius);
    Aabb(Sub(center, d), Add(center, d))
  }

  /** The box of a rectangle: its extent on the free axes, thickened by
      `0.0001` either side of `k` on the fixed axis. */
  function RectBox(h: Hittable): (b: Aabb)
    requires h.Rect?
    ensures b.min.Get(FixedAxis(h.plane)) == h.k - 0.0001 && b.max.Get(FixedAxis(h.plane)) == h.k + 0.0001
    ensures b.min.Get(FirstAxis(h.plane)) == h.a0 && b.max.Get(FirstAxis(h.plane)) == h.a1
    ensures b.min.Get(SecondAxis(h.plane)) == h.b0 && b.max.Get(SecondAxis(h.plane)) == h.b1
  {
    match h.plane
    case XY => Aabb(Vec3(h.a0, h.b0, h.k - 0.0001), Vec3(h.a1, h.b1, h.k + 0.0001))
    case XZ => Aabb(Vec3(h.a0, h.k - 0.0001, h.b0), Vec3(h.a1, h.k + 0.0001, h.b1))
    case YZ => Aabb(Vec3(h.k - 0.0001, h.a0, h.b0), Vec3(h.k + 0.0001, h.a1, h.b1))
  }

  /** `hittable::bounding_box` for every object over the time interval
      `[t0, t1]`. `out` is the current value of the caller's box, returned
      when the object leaves it alone. */
  function BoundingBox(h: Hittable, t0: real, t1: real, out: Aabb): (b: BoxResult)
    decreases h
    ensures !h.List? && !h.Translate? && !h.RotateY? ==> b.ok
    ensures h.List? && b.ok ==> 0 < |h.objects|
    ensures h.RotateY? ==> b == BoxResult(h.hasBox, h.bbox)
  {
    match h
    case Sphere(center, radius, _) => BoxResult(true, SphereBox(center, radius))
    case MovingSphere(_, _, _, _, radius, _) =>
      BoxResult(true, SurroundingBox(SphereBox(MovingCenter(h, t0), radius), SphereBox(MovingCenter(h, t1), radius)))
    case Rect(_, _, _, _, _, _, _) => BoxResult(true, RectBox(h))
    case Box(boxMin, boxMax, _) => BoxResult(true, Aabb(boxMin, boxMax))
    case List(objects) =>
      if |objects| == 0 then BoxResult(false, out)
      else ListBoxFold(objects, 0, t0, t1, Default, out, true)
    case Translate(child, offset) =>
      var c := BoundingBox(child, t0, t1, out);
      if !c.ok then c
      else BoxResult(true, Aabb(Add(c.box.min, offset), Add(c.box.max, offset)))
    case RotateY(_, _, _, hasBox, bbox) => BoxResult(hasBox, bbox)
    case BvhNode(_, _, box) => BoxResult(true, box)
  }

  /** The loop of `hittable_list::bounding_box` from member `i` on: each
      member writes the list's own box `temp`, and the caller's box becomes
      the first member's box, then the union with each later one. The loop
      stops at the first member without a box, leaving the caller's box as
      it stands. */
  function ListBoxFold(objs: seq<Hittable>, i: nat, t0: real, t1: real, temp: Aabb, out: Aabb, first: bool): (b: BoxResult)
    requires i <= |objs|
    decreases objs, |objs| - i
  {
    if i == |objs| then BoxResult(true, out)
    else
      var c := BoundingBox(objs[i], t0, t1, temp);
      if !c.ok then BoxResult(false, out)
      else ListBoxFold(objs, i + 1, t0, t1, c.box, if first then c.box else SurroundingBox(out, c.box), false)
  }

  /** `moving_sphere::bounding_box`: the least box holding the sphere at
      both ends of the interval, whatever the caller's box held. */
  lemma MovingSphereBox(h: Hittable, t0: real, t1: real, out: Aabb)
    requires h.MovingSphere?
    ensures var b := BoundingBox(h, t0, t1, out);
      && b.ok
      && Encloses(b.box, SphereBox(MovingCenter(h, t0), h.radius))
      && Encloses(b.box, SphereBox(MovingCenter(h, t1), h.radius))
      && forall outer: Aabb ::
           Encloses(outer, SphereBox(MovingCenter(h, t0), h.radius)) &&
           Encloses(outer, SphereBox(MovingCenter(h, t1), h.radius))
           ==> Encloses(outer, b.box)
  {
    var box0 := SphereBox(MovingCenter(h, t0), h.radius);
    var box1 := SphereBox(MovingCenter(h, t1), h.radius);
    forall outer: Aabb | Encloses(outer, box0) && Encloses(outer, box1)
      ensures Encloses(outer, SurroundingBox(box0, box1))
    {
      SurroundingBoxLeast(box0, box1, outer);
    }
  }

  /** Whether an object has a box, and which, does not depend on what the
      caller's box held before. */
  lemma {:induction false} BoxIgnoresOutput(h: Hittable, t0: real, t1: real, out1: Aabb, out2: Aabb)
    decreases h
    ensures var b1 := BoundingBox(h, t0, t1, out1);
            var b2 := BoundingBox(h, t0, t1, out2);
      b1.ok == b2.ok && (b1.ok ==> b1.box == b2.box)
  {
    match h
    case List(objects) =>
      if 0 < |objects| {
        BoxFoldIgnoresOutput(objects, 0, t0, t1, Default, out1, out2, true);
      }
    case Translate(child, _) =>
      BoxIgnoresOutput(child, t0, t1, out1, out2);
    case _ =>
  }

  lemma {:induction false} BoxFoldIgnoresOutput(
    objs: seq<Hittable>, i: nat, t0: real, t1: real, temp: Aabb, out1: Aabb, out2: Aabb, first: bool)
    requires i <= |objs|
    requires first ==> i < |objs|
    requires !first ==> out1 == out2
    decreases |objs| - i
    ensures var b1 := ListBoxFold(objs, i, t0, t1, temp, out1, first);
            var b2 := ListBoxFold(objs, i, t0, t1, temp, out2, first);
      b1.ok == b2.ok && (b1.ok ==> b1.box == b2.box)
  {
    if i < |objs| {
      var c := BoundingBox(objs[i], t0, t1, temp);
      if c.ok {
        var next1 := if first then c.box else SurroundingBox(out1, c.box);
        var next2 := if first then c.box else SurroundingBox(out2, c.box);
        BoxFoldIgnoresOutput(objs, i + 1, t0, t1, c.box, next1, next2, false);
      }
    }
  }

  /** `hittable_list::bounding_box`: a list has a box exactly when it is not
      empty and every member has one, and that box encloses every member's
      box. */
  lemma ListBoxEncloses(objs: seq<Hittable>, t0: real, t1: real, out: Aabb)
    ensures var b := BoundingBox(List(objs), t0, t1, out);
      && (b.ok <==> 0 < |objs| && forall j :: 0 <= j < |objs| ==> BoundingBox(objs[j], t0, t1, Default).ok)
      && (b.ok ==> forall j :: 0 <= j < |objs| ==> Encloses(b.box, BoundingBox(objs[j], t0, t1, Default).box))
  {
    if 0 < |objs| {
      BoxFoldEncloses(objs, 0, t0, t1, Default, out, true);
    }
  }

  lemma {:induction false} BoxFoldEncloses(objs: seq<Hittable>, i: nat, t0: real, t1: real, temp: Aabb, out: Aabb, first: bool)
    requires i <= |objs|
    requires first <==> i == 0
    requires 0 < |objs|
    requires forall j :: 0 <= j < i ==> Encloses(out, BoundingBox(objs[j], t0, t1, Default).box)
    decreases |objs| - i
    ensures var b := ListBoxFold(objs, i, t0, t1, temp, out, first);
      && (b.ok <==> forall j :: i <= j < |objs| ==> BoundingBox(objs[j], t0, t1, Default).ok)
      && (b.ok ==> forall j :: 0 <= j < |objs| ==> Encloses(b.box, BoundingBox(objs[j], t0, t1, Default).box))
  {
    BoxFoldOk(objs, i, t0, t1, temp, out, first);
    BoxFoldHolds(objs, i, t0, t1, temp, out, first);
  }

  /** The list's box loop from member `i` on succeeds exactly when every
      remaining member has a box. */
  lemma {:induction false} BoxFoldOk(objs: seq<Hittable>, i: nat, t0: real, t1: real, temp: Aabb, out: Aabb, first: bool)
    requires i <= |objs|
    decreases |objs| - i
    ensures ListBoxFold(objs, i, t0, t1, temp, out, first).ok <==> forall j :: i <= j < |objs| ==> BoundingBox(objs[j], t0, t1, Default).ok
  {
    if i < |objs| {
      var c := BoundingBox(objs[i], t0, t1, temp);
      BoxIgnoresOutput(objs[i], t0, t1, temp, Default);
      if c.ok {
        BoxFoldOk(objs, i + 1, t0, t1, c.box, if first then c.box else SurroundingBox(out, c.box), false);
      }
    }
  }

  /** The box the loop leaves holds the box of every member. */
  lemma {:induction false} BoxFoldHolds(objs: seq<Hittable>, i: nat, t0: real, t1: real, temp: Aabb, out: Aabb, first: bool)
    requires i <= |objs|
    requires first <==> i == 0
    requires 0 < |objs|
    requires forall j :: 0 <= j < i ==> Encloses(out, BoundingBox(objs[j], t0, t1, Default).box)
    decreases |objs| - i
    ensures var b := ListBoxFold(objs, i, t0, t1, temp, out, first);
      b.ok ==> forall j :: 0 <= j < |objs| ==> Encloses(b.box, BoundingBox(objs[j], t0, t1, Default).box)
  {
    if i < |objs| {
      var c := BoundingBox(objs[i], t0, t1, temp);
      BoxIgnoresOutput(objs[i], t0, t1, temp, Default);
      if c.ok {
        var next := if first then c.box else SurroundingBox(out, c.box);
        GrowEncloses(objs, i, t0, t1, out, c.box, next, first);
        BoxFoldHolds(objs, i + 1, t0, t1, c.box, next, false);
      }
    }
  }

  /** One step of the list's box loop: the box grown by member `i`'s box
      still holds the boxes of the members before it. */
  lemma GrowEncloses(objs: seq<Hittable>, i: nat, t0: real, t1: real, out: Aabb, c: Aabb, next: Aabb, first: bool)
    requires i < |objs|
    requires first <==> i == 0
    requires forall j :: 0 <= j < i ==> Encloses(out, BoundingBox(objs[j], t0, t1, Default).box)
    requires c == BoundingBox(objs[i], t0, t1, Default).box
    requires next == if first then c else SurroundingBox(out, c)
    ensures forall j :: 0 <= j <= i ==> Encloses(next, BoundingBox(objs[j], t0, t1, Default).box)
  {
    forall j | 0 <= j <= i
      ensures Encloses(next, BoundingBox(objs[j], t0, t1, Default).box)
    {
      if j == i {
        assert Encloses(c, c);
      } else {
        EnclosesTransitive(next, out, BoundingBox(objs[j], t0, t1, Default).box);
      }
    }
  }

  /** `translate::bounding_box`: the child's box moved by the offset, so a
      point the child's box holds, moved by the offset, is held by the
      translated box. */
  lemma TranslateBox(child: Hittable, offset: Vec3, t0: real, t1: real, out: Aabb, p: Vec3)
    ensures var b := BoundingBox(Translate(child, offset), t0, t1, out);
      var c := BoundingBox(child, t0, t1, out);
      && b.ok == c.ok
      && (b.ok && BetweenCorners(c.box, p) ==> BetweenCorners(b.box, Add(p, offset)))
  {
  }

  /** The point a rectangle reports lies in its plane, at the coordinates
      the extent test accepted. */
  lemma RectHitPoint(h: Hittable, r: Ray, tMin: Ext, tMax: Ext, rec: HitRecord)
    requires h.Rect?
    ensures var o := RectHit(h, r, tMin, tMax, rec);
      o.hit ==> OnRect(h, o.rec.p)
  {
    var o := RectHit(h, r, tMin, tMax, rec);
    if o.hit {
      var xy := RectCoords(h, r, o.rec.t);
      assert h.a0 <= xy.0 <= h.a1 && h.b0 <= xy.1 <= h.b1;
      PointInPlane(h, r, o.rec.t);
    }
  }

  /** `q` lies on the rectangle `h`: in its plane, inside its extent. */
  ghost predicate OnRect(h: Hittable, q: Vec3)
    requires h.Rect?
  {
    && q.Get(FixedAxis(h.plane)) == h.k
    && h.a0 <= q.Get(FirstAxis(h.plane)) <= h.a1
    && h.b0 <= q.Get(SecondAxis(h.plane)) <= h.b1
  }

  /** The point at the parameter where a ray meets a rectangle's plane lies
      in that plane, at the free-axis coordinates `RectCoords` computes. */
  lemma PointInPlane(h: Hittable, r: Ray, t: real)
    requires h.Rect? && RectT(h, r) == Fin(t)
    ensures At(r, t).Get(FixedAxis(h.plane)) == h.k
    ensures At(r, t).Get(FirstAxis(h.plane)) == RectCoords(h, r, t).0
    ensures At(r, t).Get(SecondAxis(h.plane)) == RectCoords(h, r, t).1
  {
    PointOnFixedAxis(h, r, t);
    PointOnFreeAxes(h, r, t);
  }

  lemma PointOnFixedAxis(h: Hittable, r: Ray, t: real)
    requires h.Rect? && RectT(h, r) == Fin(t)
    ensures At(r, t).Get(FixedAxis(h.plane)) == h.k
  {
    var k := FixedAxis(h.plane);
    PlaneParameter(h.k - r.orig.Get(k), r.dir.Get(k), t);
    AtAxis(r, t, k);
  }

  lemma PointOnFreeAxes(h: Hittable, r: Ray, t: real)
    requires h.Rect?
    ensures At(r, t).Get(FirstAxis(h.plane)) == RectCoords(h, r, t).0
    ensures At(r, t).Get(SecondAxis(h.plane)) == RectCoords(h, r, t).1
  {
    AtAxis(r, t, FirstAxis(h.plane));
    AtAxis(r, t, SecondAxis(h.plane));
  }

  /** A finite quotient, multiplied back, is the dividend. */
  lemma PlaneParameter(x: real, y: real, t: real)
    ensures EDiv(x, y) == Fin(t) ==> t * y == x
  {
  }

  /** One coordinate of a point along a ray. */
  lemma AtAxis(r: Ray, t: real, i: int)
    requires 0 <= i < 3
    ensures At(r, t).Get(i) == r.orig.Get(i) + t * r.dir.Get(i)
  {
  }

  /** Every point a rectangle reports lies in its bounding box. */
  lemma RectHitInBox(h: Hittable, r: Ray, tMin: Ext, tMax: Ext, rec: HitRecord)
    requires h.Rect?
    ensures var o := RectHit(h, r, tMin, tMax, rec);
      o.hit ==> BetweenCorners(RectBox(h), o.rec.p)
  {
    var o := RectHit(h, r, tMin, tMax, rec);
    RectHitPoint(h, r, tMin, tMax, rec);
    if o.hit {
      OnRectInBox(h, o.rec.p);
    }
  }

  lemma OnRectInBox(h: Hittable, q: Vec3)
    requires h.Rect? && OnRect(h, q)
    ensures BetweenCorners(RectBox(h), q)
  {
    var b := RectBox(h);
    forall i | 0 <= i < 3
      ensures (b.min.Get(i) <= q.Get(i) <= b.max.Get(i)) || (b.max.Get(i) <= q.Get(i) <= b.min.Get(i))
    {
      if i == FixedAxis(h.plane) {
      } else if i == FirstAxis(h.plane) {
      } else {
        assert i == SecondAxis(h.plane);
      }
    }
  }

  /** The `box` constructor: the two corners it is given and six rectangles
      with the material, a pair on each axis at the two corners'
      coordinates, each spanning the corners on the other two axes. */
  function MakeBox(p0: Vec3, p1: Vec3, mat: Material): (h: Hittable)
    ensures h.Box? && h.boxMin == p0 && h.boxMax == p1 && |h.sides| == 6
    ensures forall i :: 0 <= i < 6 ==> SideOf(h.sides[i], p0, p1, mat)
    ensures FaceAt(h.sides[0], XY, p1.z) && FaceAt(h.sides[1], XY, p0.z)
    ensures FaceAt(h.sides[2], XZ, p1.y) && FaceAt(h.sides[3], XZ, p0.y)
    ensures FaceAt(h.sides[4], YZ, p1.x) && FaceAt(h.sides[5], YZ, p0.x)
  {
    Box(p0, p1, [
      Rect(XY, p0.x, p1.x, p0.y, p1.y, p1.z, mat),
      Rect(XY, p0.x, p1.x, p0.y, p1.y, p0.z, mat),
      Rect(XZ, p0.x, p1.x, p0.z, p1.z, p1.y, mat),
      Rect(XZ, p0.x, p1.x, p0.z, p1.z, p0.y, mat),
      Rect(YZ, p0.y, p1.y, p0.z, p1.z, p1.x, mat),
      Rect(YZ, p0.y, p1.y, p0.z, p1.z, p0.x, mat)])
  }

  /** `s` is a face of the box with corners `p0` and `p1`: a rectangle with
      the material, spanning the corners on its free axes and lying at one
      corner's coordinate on its fixed axis. */
  ghost predicate SideOf(s: Hittable, p0: Vec3, p1: Vec3, mat: Material) {
    && s.Rect? && s.mat == mat
    && s.a0 == p0.Get(FirstAxis(s.plane)) && s.a1 == p1.Get(FirstAxis(s.plane))
    && s.b0 == p0.Get(SecondAxis(s.plane)) && s.b1 == p1.Get(SecondAxis(s.plane))
    && (s.k == p0.Get(FixedAxis(s.plane)) || s.k == p1.Get(FixedAxis(s.plane)))
  }

  /** `s` is a rectangle of class `plane` at `k` on its fixed axis. */
  predicate FaceAt(s: Hittable, plane: Plane, k: real) {
    s.Rect? && s.plane == plane && s.k == k
  }

  /** Whatever the sides of a box report lies between its corners, so
      whatever the loop over them reports does. */
  lemma {:induction false} SidesFoldInside(
    objs: seq<Hittable>, i: nat, r: Ray, tMin: Ext, s: Fold, blank: HitRecord, m: Maths, p0: Vec3, p1: Vec3, mat: Material)
    requires i <= |objs|
    requires Coherent(s, tMin)
    requires forall j :: 0 <= j < |objs| ==> SideOf(objs[j], p0, p1, mat)
    requires s.hit ==> BetweenCorners(Aabb(p0, p1), s.rec.p)
    decreases |objs| - i
    ensures var f := ListFold(objs, i, r, tMin, s, blank, m);
      f.hit ==> BetweenCorners(Aabb(p0, p1), f.rec.p)
  {
    if i < |objs| {
      var o := Hit(objs[i], r, tMin, s.closest, s.temp, blank, m);
      var next := if o.hit then Fold(true, Fin(o.rec.t), o.rec, o.rec) else s.(temp := o.rec);
      assert SideOf(objs[i], p0, p1, mat);
      assert o == RectHit(objs[i], r, tMin, s.closest, s.temp);
      SideHitInside(objs[i], p0, p1, mat, r, tMin, s.closest, s.temp);
      FoldStep(objs, i, r, tMin, s, blank, m);
      SidesFoldInside(objs, i + 1, r, tMin, next, blank, m, p0, p1, mat);
    }
  }

  /** One turn of the list loop. */
  lemma FoldStep(objs: seq<Hittable>, i: nat, r: Ray, tMin: Ext, s: Fold, blank: HitRecord, m: Maths)
    requires i < |objs|
    requires Coherent(s, tMin)
    ensures var o := Hit(objs[i], r, tMin, s.closest, s.temp, blank, m);
      var next := if o.hit then Fold(true, Fin(o.rec.t), o.rec, o.rec) else s.(temp := o.rec);
      Coherent(next, tMin) && ListFold(objs, i, r, tMin, s, blank, m) == ListFold(objs, i + 1, r, tMin, next, blank, m)
  {
  }

  /** Every point a face of a box reports lies between the box's corners. */
  lemma SideHitInside(side: Hittable, p0: Vec3, p1: Vec3, mat: Material, r: Ray, tMin: Ext, tMax: Ext, rec: HitRecord)
    requires SideOf(side, p0, p1, mat)
    ensures var o := RectHit(side, r, tMin, tMax, rec);
      o.hit ==> BetweenCorners(Aabb(p0, p1), o.rec.p)
  {
    var o := RectHit(side, r, tMin, tMax, rec);
    RectHitPoint(side, r, tMin, tMax, rec);
    if o.hit {
      OnSideInside(side, p0, p1, mat, o.rec.p);
    }
  }

  lemma OnSideInside(side: Hittable, p0: Vec3, p1: Vec3, mat: Material, q: Vec3)
    requires SideOf(side, p0, p1, mat) && OnRect(side, q)
    ensures BetweenCorners(Aabb(p0, p1), q)
  {
    forall i | 0 <= i < 3
      ensures (p0.Get(i) <= q.Get(i) <= p1.Get(i)) || (p1.Get(i) <= q.Get(i) <= p0.Get(i))
    {
      if i == FixedAxis(side.plane) {
      } else if i == FirstAxis(side.plane) {
      } else {
        assert i == SecondAxis(side.plane);
      }
    }
  }

  /** Every point a box made by the constructor reports lies between its
      two corners, which is the box `box::bounding_box` reports. */
  lemma BoxHitInside(p0: Vec3, p1: Vec3, mat: Material, r: Ray, tMin: Ext, tMax: Ext, rec: HitRecord, blank: HitRecord, m: Maths)
    ensures var h := MakeBox(p0, p1, mat);
      && BoundingBox(h, 0.0, 0.0, Default) == BoxResult(true, Aabb(p0, p1))
      && (Hit(h, r, tMin, tMax, rec, blank, m).hit ==> BetweenCorners(Aabb(p0, p1), Hit(h, r, tMin, tMax, rec, blank, m).rec.p))
  {
    var h := MakeBox(p0, p1, mat);
    SidesFoldInside(h.sides, 0, r, tMin, Fold(false, tMax, blank, rec), blank, m, p0, p1, mat);
  }

  // ---------------------------------------------------------------------
  // The rotate_y constructor

  /** `q` lies in `b`, minimum corner below, maximum corner above. */
  ghost predicate Inside(b: Aabb, q: Vec3) {
    forall a :: 0 <= a < 3 ==> b.min.Get(a) <= q.Get(a) <= b.max.Get(a)
  }

  /** The constructor's corner coordinate `i * hi + (1 - i) * lo` for a
      selector `i` of 0 or 1. */
  function Pick(i: int, lo: real, hi: real): (x: real)
    requires i == 0 || i == 1
    ensures x == (if i == 0 then lo else hi)
  {
    (i as real) * hi + ((1 - i) as real) * lo
  }

  /** The corner of `b` the selectors `i`, `j`, `k` choose, turned out of
      the child's frame. */
  function TurnedCorner(b: Aabb, i: int, j: int, k: int, s: real, c: real): (q: Vec3)
    requires (i == 0 || i == 1) && (j == 0 || j == 1) && (k == 0 || k == 1)
    ensures q.y == (if j == 0 then b.min.y else b.max.y)
  {
    Rotation.TurnBack(Vec3(Pick(i, b.min.x, b.max.x), Pick(j, b.min.y, b.max.y), Pick(k, b.min.z, b.max.z)), s, c)
  }

  /** The eight turned corners, in the order of the constructor's nested
      loops over `i`, `j` and `k`. */
  function TurnedCorners(b: Aabb, s: real, c: real): (cs: seq<Vec3>)
    ensures |cs| == 8
    ensures cs[0].y == b.min.y && cs[2].y == b.max.y
    ensures forall n :: 0 <= n < 8 ==> cs[n].y == b.min.y || cs[n].y == b.max.y
  {
    [TurnedCorner(b, 0, 0, 0, s, c), TurnedCorner(b, 0, 0, 1, s, c),
     TurnedCorner(b, 0, 1, 0, s, c), TurnedCorner(b, 0, 1, 1, s, c),
     TurnedCorner(b, 1, 0, 0, s, c), TurnedCorner(b, 1, 0, 1, s, c),
     TurnedCorner(b, 1, 1, 0, s, c), TurnedCorner(b, 1, 1, 1, s, c)]
  }

  /** `b` widened, with `ffmin` and `ffmax` on each axis, to take in `q`. */
  function Extend(b: Aabb, q: Vec3): (e: Aabb)
    ensures Inside(e, q) && Encloses(e, b)
    ensures forall a :: 0 <= a < 3 ==>
      (e.min.Get(a) == b.min.Get(a) || e.min.Get(a) == q.Get(a)) &&
      (e.max.Get(a) == b.max.Get(a) || e.max.Get(a) == q.Get(a))
  {
    Aabb(Vec3(FMin(b.min.x, q.x), FMin(b.min.y, q.y), FMin(b.min.z, q.z)),
         Vec3(FMax(b.max.x, q.x), FMax(b.max.y, q.y), FMax(b.max.z, q.z)))
  }

  /** The box the constructor folds the turned corners into: the smallest
      box holding them all, each of its coordinates taken from some
      corner. */
  function CornerBox(cs: seq<Vec3>): (b: Aabb)
    requires 0 < |cs|
    ensures forall n :: 0 <= n < |cs| ==> Inside(b, cs[n])
    ensures forall a :: 0 <= a < 3 ==> exists n :: 0 <= n < |cs| && b.min.Get(a) == cs[n].Get(a)
    ensures forall a :: 0 <= a < 3 ==> exists n :: 0 <= n < |cs| && b.max.Get(a) == cs[n].Get(a)
  {
    if |cs| == 1 then
      SingleCorner(cs);
      Aabb(cs[0], cs[0])
    else
      var init := cs[..|cs| - 1];
      var prefix := CornerBox(init);
      var e := Extend(prefix, cs[|cs| - 1]);
      LastSplit(cs);
      ExtendKeeps(cs, init, cs[|cs| - 1], prefix, e);
      e
  }

  lemma LastSplit<T>(s: seq<T>)
    requires 0 < |s|
    ensures s == s[..|s| - 1] + [s[|s| - 1]]
  {
  }

  lemma SingleCorner(cs: seq<Vec3>)
    requires |cs| == 1
    ensures forall n :: 0 <= n < |cs| ==> Inside(Aabb(cs[0], cs[0]), cs[n])
    ensures forall a :: 0 <= a < 3 ==> exists n :: 0 <= n < |cs| && Aabb(cs[0], cs[0]).min.Get(a) == cs[n].Get(a)
    ensures forall a :: 0 <= a < 3 ==> exists n :: 0 <= n < |cs| && Aabb(cs[0], cs[0]).max.Get(a) == cs[n].Get(a)
  {
    forall a | 0 <= a < 3
      ensures exists n :: 0 <= n < |cs| && Aabb(cs[0], cs[0]).min.Get(a) == cs[n].Get(a)
      ensures exists n :: 0 <= n < |cs| && Aabb(cs[0], cs[0]).max.Get(a) == cs[n].Get(a)
    {
      assert Aabb(cs[0], cs[0]).min.Get(a) == cs[0].Get(a);
    }
  }

  /** Extending the box of `init` by `last` gives a box of `init + [last]`
      with the same two properties. */
  lemma ExtendKeeps(cs: seq<Vec3>, init: seq<Vec3>, last: Vec3, prefix: Aabb, e: Aabb)
    requires cs == init + [last]
    requires forall n :: 0 <= n < |init| ==> Inside(prefix, init[n])
    requires forall a :: 0 <= a < 3 ==> exists n :: 0 <= n < |init| && prefix.min.Get(a) == init[n].Get(a)
    requires forall a :: 0 <= a < 3 ==> exists n :: 0 <= n < |init| && prefix.max.Get(a) == init[n].Get(a)
    requires e == Extend(prefix, last)
    ensures forall n :: 0 <= n < |cs| ==> Inside(e, cs[n])
    ensures forall a :: 0 <= a < 3 ==> exists n :: 0 <= n < |cs| && e.min.Get(a) == cs[n].Get(a)
    ensures forall a :: 0 <= a < 3 ==> exists n :: 0 <= n < |cs| && e.max.Get(a) == cs[n].Get(a)
  {
    forall n | 0 <= n < |cs|
      ensures Inside(e, cs[n])
    {
      if n < |init| {
        assert cs[n] == init[n] && Inside(prefix, init[n]);
      }
    }
    forall a | 0 <= a < 3
      ensures exists n :: 0 <= n < |cs| && e.min.Get(a) == cs[n].Get(a)
      ensures exists n :: 0 <= n < |cs| && e.max.Get(a) == cs[n].Get(a)
    {
      var n0 :| 0 <= n0 < |init| && prefix.min.Get(a) == init[n0].Get(a);
      var n1 :| 0 <= n1 < |init| && prefix.max.Get(a) == init[n1].Get(a);
      assert cs[n0] == init[n0] && cs[n1] == init[n1] && cs[|init|] == last;
      if e.min.Get(a) == prefix.min.Get(a) {
        assert e.min.Get(a) == cs[n0].Get(a);
      } else {
        assert e.min.Get(a) == cs[|init|].Get(a);
      }
      if e.max.Get(a) == prefix.max.Get(a) {
        assert e.max.Get(a) == cs[n1].Get(a);
      } else {
        assert e.max.Get(a) == cs[|init|].Get(a);
      }
    }
  }

  /** The `rotate_y` constructor: the sine and cosine of the angle, whether
      the child has a box over `[0, 1]`, and the box of the child's turned
      corners. The box holds every turned corner, and keeps the child's
      extent on the y axis. */
  function MakeRotateY(child: Hittable, angle: real, m: Maths): (h: Hittable)
    ensures h.RotateY? && h.child == child
    ensures h.sinTheta == m.sin(DegreesToRadians(angle)) && h.cosTheta == m.cos(DegreesToRadians(angle))
    ensures h.hasBox == BoundingBox(child, 0.0, 1.0, Default).ok
    ensures var cb := BoundingBox(child, 0.0, 1.0, Default).box;
      forall n :: 0 <= n < 8 ==> Inside(h.bbox, TurnedCorners(cb, h.sinTheta, h.cosTheta)[n])
    ensures var cb := BoundingBox(child, 0.0, 1.0, Default).box;
      cb.min.y <= cb.max.y ==> h.bbox.min.y == cb.min.y && h.bbox.max.y == cb.max.y
  {
    var radians := DegreesToRadians(angle);
    var s := m.sin(radians);
    var c := m.cos(radians);
    var cb := BoundingBox(child, 0.0, 1.0, Default);
    var cs := TurnedCorners(cb.box, s, c);
    CornerBoxKeepsY(cb.box, s, c);
    RotateY(child, s, c, cb.ok, CornerBox(cs))
  }

  /** Turning about the y axis leaves y alone, so the box of the turned
      corners of a box with its y corners in order has the same y extent. */
  lemma CornerBoxKeepsY(b: Aabb, s: real, c: real)
    ensures var e := CornerBox(TurnedCorners(b, s, c));
      b.min.y <= b.max.y ==> e.min.y == b.min.y && e.max.y == b.max.y
  {
    var cs := TurnedCorners(b, s, c);
    var e := CornerBox(cs);
    if b.min.y <= b.max.y {
      assert Inside(e, cs[0]) && Inside(e, cs[2]);
      assert e.min.Get(1) <= cs[0].Get(1) && cs[2].Get(1) <= e.max.Get(1);
      var n0 :| 0 <= n0 < |cs| && e.min.Get(1) == cs[n0].Get(1);
      var n1 :| 0 <= n1 < |cs| && e.max.Get(1) == cs[n1].Get(1);
      assert cs[n0].y == b.min.y || cs[n0].y == b.max.y;
      assert cs[n1].y == b.min.y || cs[n1].y == b.max.y;
    }
  }

  // ---------------------------------------------------------------------
  // Bounding-volume hierarchy

  /** `box_compare`'s key for an axis: the minimum corner, on that axis, of
      the box an object reports over `[0, 0]` into a default box. The sort
      of the constructor orders objects by this key. */
  function CompareKey(axis: int): Hittable -> real {
    x => BoundingBox(x, 0.0, 0.0, Default).box.min.Get(Bvh.Axis(axis))
  }

  /** `box_compare`: whether `a`'s box starts before `b`'s on an axis, each
      box reported over `[0, 0]` into a default box. The `||` of its guard
      stops at an `a` without a box, and `b`'s box then stays the default
      one. So the comparison is the key order exactly when `a` has a box,
      and otherwise compares `a`'s key with the origin's. */
  function BoxCompare(a: Hittable, b: Hittable, axis: int): (less: bool)
    ensures BoundingBox(a, 0.0, 0.0, Default).ok ==> (less <==> CompareKey(axis)(a) < CompareKey(axis)(b))
    ensures !BoundingBox(a, 0.0, 0.0, Default).ok ==> (less <==> CompareKey(axis)(a) < 0.0)
  {
    var boxA := BoundingBox(a, 0.0, 0.0, Default);
    var boxB := if boxA.ok then BoundingBox(b, 0.0, 0.0, Default).box else Default;
    boxA.box.min.Get(Bvh.Axis(axis)) < boxB.min.Get(Bvh.Axis(axis))
  }

  /** `box_x_compare`, `box_y_compare` and `box_z_compare`: `box_compare`
      on a fixed axis, as the constructor's two-object case calls it. */
  function BoxLess(axis: int): (L: (Hittable, Hittable) -> bool)
    ensures forall a, b :: L(a, b) == BoxCompare(a, b, axis)
  {
    (a, b) => BoxCompare(a, b, axis)
  }

  /** A list below the origin whose last member is empty has no box, yet
      the part of its box written before the empty member makes
      `box_compare` hold of it and itself: with such objects the comparator
      is not a strict weak order. */
  lemma BoxCompareNotIrreflexive(mat: Materials.Material, axis: int)
    ensures var x := List([Sphere(Vec3(-5.0, -5.0, -5.0), 1.0, mat), List([])]);
      !BoundingBox(x, 0.0, 0.0, Default).ok && BoxCompare(x, x, axis)
  {
    var sphere := Sphere(Vec3(-5.0, -5.0, -5.0), 1.0, mat);
    var objs := [sphere, List([])];
    var first := SphereBox(Vec3(-5.0, -5.0, -5.0), 1.0);
    assert BoundingBox(objs[1], 0.0, 0.0, first) == BoxResult(false, first);
    assert ListBoxFold(objs, 1, 0.0, 0.0, first, first, false) == BoxResult(false, first);
    assert ListBoxFold(objs, 0, 0.0, 0.0, Default, Default, true) == BoxResult(false, first);
  }

  /** The box a node stores: the left child's box, widened by the right
      child's. The `||` of the constructor's guard stops at a left child
      without a box, and the right child's box then stays the default one,
      so only a left child with a box lets the right child's box in. */
  function NodeBox(l: Hittable, r: Hittable, t0: real, t1: real): (b: Aabb)
    ensures Encloses(b, BoundingBox(l, t0, t1, Default).box)
    ensures BoundingBox(l, t0, t1, Default).ok ==> Encloses(b, BoundingBox(r, t0, t1, Default).box)
    ensures !BoundingBox(l, t0, t1, Default).ok ==> Encloses(b, Default)
  {
    var boxLeft := BoundingBox(l, t0, t1, Default);
    SurroundingBox(boxLeft.box, if boxLeft.ok then BoundingBox(r, t0, t1, Default).box else Default)
  }

  /** A left child without a box keeps the right child's box out of the
      node's: a list with an empty member on the left, a sphere far from the
      origin on the right. */
  lemma NodeBoxDropsRight(mat: Materials.Material, t0: real, t1: real)
    ensures var l := List([Sphere(Vec3(-5.0, -5.0, -5.0), 1.0, mat), List([])]);
            var r := Sphere(Vec3(5.0, 5.0, 5.0), 1.0, mat);
      !Encloses(NodeBox(l, r, t0, t1), BoundingBox(r, t0, t1, Default).box)
  {
    var sphere := Sphere(Vec3(-5.0, -5.0, -5.0), 1.0, mat);
    var objs := [sphere, List([])];
    var first := SphereBox(Vec3(-5.0, -5.0, -5.0), 1.0);
    assert BoundingBox(objs[1], t0, t1, first) == BoxResult(false, first);
    assert ListBoxFold(objs, 1, t0, t1, first, first, false) == BoxResult(false, first);
    assert ListBoxFold(objs, 0, t0, t1, Default, Default, true) == BoxResult(false, first);
    var b := NodeBox(List(objs), Sphere(Vec3(5.0, 5.0, 5.0), 1.0, mat), t0, t1);
    assert b.max.Get(0) == 0.0;
  }

  /** The nodes the constructor makes for a hierarchy: a single object is
      both children of its node. */
  function FromTree(t: Bvh.Tree<Hittable>, t0: real, t1: real): (h: Hittable)
    ensures h.BvhNode?
  {
    match t
    case Leaf(x) => BvhNode(x, x, NodeBox(x, x, t0, t1))
    case Pair(a, b) => BvhNode(a, b, NodeBox(a, b, t0, t1))
    case Split(l, r) =>
      var left := FromTree(l, t0, t1);
      var right := FromTree(r, t0, t1);
      BvhNode(left, right, NodeBox(left, right, t0, t1))
  }

  /** The `bvh_node` constructor over `objects[start..end]` for the time
      interval `[time0, time1]`, with `axisDraw` the random axis of each
      range. */
  function MakeBvh(objects: seq<Hittable>, start: nat, end: nat, time0: real, time1: real, axisDraw: (nat, nat) -> int): (h: Hittable)
    requires start < end <= |objects|
    ensures h.BvhNode?
  {
    FromTree(Bvh.Build(objects, start, end, axisDraw, CompareKey, BoxLess), time0, time1)
  }

  /** When every object of a hierarchy has a box, the box of every node
      encloses the box of every object below it. */
  lemma {:induction false} FromTreeEncloses(t: Bvh.Tree<Hittable>, t0: real, t1: real, x: Hittable)
    requires forall y :: y in Bvh.Items(t) ==> BoundingBox(y, t0, t1, Default).ok
    requires x in Bvh.Items(t)
    ensures Encloses(FromTree(t, t0, t1).box, BoundingBox(x, t0, t1, Default).box)
  {
    match t
    case Leaf(_) =>
    case Pair(a, _) =>
      assert a in Bvh.Items(t);
    case Split(l, r) =>
      var left := FromTree(l, t0, t1);
      var right := FromTree(r, t0, t1);
      if x in Bvh.Items(l) {
        FromTreeEncloses(l, t0, t1, x);
        NodeEncloses(left, right, left, t0, t1, BoundingBox(x, t0, t1, Default).box);
      } else {
        FromTreeEncloses(r, t0, t1, x);
        NodeEncloses(left, right, right, t0, t1, BoundingBox(x, t0, t1, Default).box);
      }
  }

  /** A box one child's node box encloses is enclosed by the parent's. */
  lemma NodeEncloses(left: Hittable, right: Hittable, child: Hittable, t0: real, t1: real, inner: Aabb)
    requires left.BvhNode? && right.BvhNode? && (child == left || child == right)
    requires Encloses(child.box, inner)
    ensures Encloses(NodeBox(left, right, t0, t1), inner)
  {
    assert BoundingBox(child, t0, t1, Default).box == child.box;
    EnclosesTransitive(NodeBox(left, right, t0, t1), child.box, inner);
  }

  /** The root box of a hierarchy built over a range encloses the box of
      every object of the range. */
  lemma MakeBvhEncloses(objects: seq<Hittable>, start: nat, end: nat, time0: real, time1: real, axisDraw: (nat, nat) -> int, j: nat)
    requires start < end <= |objects| && start <= j < end
    requires forall k :: start <= k < end ==> BoundingBox(objects[k], time0, time1, Default).ok
    ensures Encloses(MakeBvh(objects, start, end, time0, time1, axisDraw).box, BoundingBox(objects[j], time0, time1, Default).box)
  {
    var t := Bvh.Build(objects, start, end, axisDraw, CompareKey, BoxLess);
    assert objects[j] == objects[start..end][j - start];
    assert objects[j] in multiset(objects[start..end]);
    forall y | y in Bvh.Items(t)
      ensures BoundingBox(y, time0, time1, Default).ok
    {
      var k :| 0 <= k < end - start && objects[start..end][k] == y;
      assert objects[start + k] == y;
    }
    FromTreeEncloses(t, time0, time1, objects[j]);
  }

  /** Without that condition the root box can leave an object out: over a
      box-less list below the origin and a sphere far above it,
      `box_compare` puts the list first, and the root box stops at the
      origin. */
  lemma MakeBvhDropsObject(mat: Materials.Material, time0: real, time1: real, axisDraw: (nat, nat) -> int)
    ensures var l := List([Sphere(Vec3(-5.0, -5.0, -5.0), 1.0, mat), List([])]);
            var r := Sphere(Vec3(5.0, 5.0, 5.0), 1.0, mat);
      !Encloses(MakeBvh([l, r], 0, 2, time0, time1, axisDraw).box, BoundingBox(r, time0, time1, Default).box)
  {
    var objs := [Sphere(Vec3(-5.0, -5.0, -5.0), 1.0, mat), List([])];
    var l := List(objs);
    var r := Sphere(Vec3(5.0, 5.0, 5.0), 1.0, mat);
    var first := SphereBox(Vec3(-5.0, -5.0, -5.0), 1.0);
    assert BoundingBox(objs[1], 0.0, 0.0, first) == BoxResult(false, first);
    assert ListBoxFold(objs, 1, 0.0, 0.0, first, first, false) == BoxResult(false, first);
    assert ListBoxFold(objs, 0, 0.0, 0.0, Default, Default, true) == BoxResult(false, first);
    var axis := Bvh.Axis(axisDraw(0, 2));
    assert BoxCompare(l, r, axis);
    var t := Bvh.Build([l, r], 0, 2, axisDraw, CompareKey, BoxLess);
    assert [l, r][0..2] == [l, r];
    assert t.first == l && t.second == r;
    NodeBoxDropsRight(mat, time0, time1);
  }

  /** The two-object case follows `box_compare`, not the keys: a box-less
      list above the origin compares its partial box with the default one,
      is not "less" than a sphere farther out, and goes right, although its
      key is the smaller. */
  lemma MakeBvhPairFollowsBoxCompare(mat: Materials.Material, time0: real, time1: real, axisDraw: (nat, nat) -> int)
    ensures var l := List([Sphere(Vec3(5.0, 5.0, 5.0), 1.0, mat), List([])]);
            var r := Sphere(Vec3(10.0, 10.0, 10.0), 1.0, mat);
            var h := MakeBvh([l, r], 0, 2, time0, time1, axisDraw);
      CompareKey(Bvh.Axis(axisDraw(0, 2)))(l) < CompareKey(Bvh.Axis(axisDraw(0, 2)))(r) && h.left == r && h.right == l
  {
    var objs := [Sphere(Vec3(5.0, 5.0, 5.0), 1.0, mat), List([])];
    var l := List(objs);
    var r := Sphere(Vec3(10.0, 10.0, 10.0), 1.0, mat);
    var first := SphereBox(Vec3(5.0, 5.0, 5.0), 1.0);
    assert BoundingBox(objs[1], 0.0, 0.0, first) == BoxResult(false, first);
    assert ListBoxFold(objs, 1, 0.0, 0.0, first, first, false) == BoxResult(false, first);
    assert ListBoxFold(objs, 0, 0.0, 0.0, Default, Default, true) == BoxResult(false, first);
    var axis := Bvh.Axis(axisDraw(0, 2));
    assert CompareKey(axis)(l) == 4.0 && CompareKey(axis)(r) == 9.0;
    assert !BoxCompare(l, r, axis);
    var t := Bvh.Build([l, r], 0, 2, axisDraw, CompareKey, BoxLess);
    assert [l, r][0..2] == [l, r];
    assert t.first == r && t.second == l;
  }

  /** A hierarchy over well-formed objects is well-formed. */
  lemma {:induction false} FromTreeValid(t: Bvh.Tree<Hittable>, t0: real, t1: real)
    requires forall x :: x in Bvh.Items(t) ==> Valid(x)
    ensures Valid(FromTree(t, t0, t1))
  {
    match t
    case Leaf(_) =>
    case Pair(_, _) =>
    case Split(l, r) =>
      FromTreeValid(l, t0, t1);
      FromTreeValid(r, t0, t1);
  }

  // ---------------------------------------------------------------------
  // constant_medium

  /** `constant_medium`: a boundary, `-1 / density`, and an isotropic phase
      function. Its query is not part of this model. */
  datatype Medium = Medium(boundary: Hittable, negInvDensity: Ext, phaseFunction: Material)

  /** The constructor. A zero density gives `-1 / 0`, negative infinity. */
  function MakeMedium(b: Hittable, d: real, a: Textures.Texture): (md: Medium)
    ensures md.boundary == b && md.phaseFunction == Isotropic(a)
    ensures d != 0.0 ==> md.negInvDensity.Fin? && md.negInvDensity.v * d == -1.0
    ensures d == 0.0 ==> md.negInvDensity == NegInf
  {
    Medium(b, EDiv(-1.0, d), Isotropic(a))
  }

  /** A positive density gives a negative `negInvDensity`. */
  lemma MediumDensityNegative(b: Hittable, d: real, a: Textures.Texture)
    requires 0.0 < d
    ensures MakeMedium(b, d, a).negInvDensity.v < 0.0
  {
  }

  /** `constant_medium::bounding_box` is its boundary's; so whether it has
      a box, and which, does not depend on the caller's box. */
  function MediumBoundingBox(md: Medium, t0: real, t1: real, out: Aabb): (b: BoxResult)
    ensures b.ok == BoundingBox(md.boundary, t0, t1, Default).ok
    ensures b.ok ==> b.box == BoundingBox(md.boundary, t0, t1, Default).box
  {
    BoxIgnoresOutput(md.boundary, t0, t1, out, Default);
    BoundingBox(md.boundary, t0, t1, out)
  }
}
