/** The first book's renderer (raytracingInOneWeekend/hittable.h,
    material.h, main.cpp): spheres and lists, three materials with colour
    albedos, a hit record without texture coordinates, and a `ray_color`
    that shades misses with a sky gradient. The sphere's root choice, the
    orientation rule and the metal and dielectric rays are the second
    book's; the first book's two-argument rays have time zero. */
module Weekend {
  import opened Tool
  import opened Extended
  import M = Materials
  import Hittables

  datatype Material =
    | Lambertian(albedo: Vec3)
    | Metal(albedo: Vec3, fuzz: real)
    | Dielectric(refIdx: real)

  /** `hit_record`: point, oriented normal, parameter, side, material. */
  datatype HitRecord = HitRecord(p: Vec3, normal: Vec3, t: real, frontFace: bool, mat: Material)

  datatype Hittable = Sphere(center: Vec3, radius: real, mat: Material) | List(objects: seq<Hittable>)

  datatype Outcome = Outcome(hit: bool, rec: HitRecord)

  /** The `metal` constructor caps the fuzz at 1. */
  function MakeMetal(a: Vec3, f: real): (mat: Material)
    ensures mat.Metal? && mat.albedo == a && mat.fuzz <= 1.0
    ensures f < 1.0 ==> mat.fuzz == f
  {
    Metal(a, if f < 1.0 then f else 1.0)
  }

  /** What an accepting sphere query writes: every field of the record. */
  function SphereRecord(r: Ray, t: real, center: Vec3, radius: real, mat: Material): (rec: HitRecord)
    ensures rec.t == t && rec.p == At(r, t) && rec.mat == mat
    ensures Dot(r.dir, rec.normal) <= 0.0
  {
    var p := At(r, t);
    var f := M.Face(r, DivScalar(Sub(p, center), radius));
    HitRecord(p, f.normal, t, f.front, mat)
  }

  /** The state of the `hittable_list::hit` loop. The first book's loop is
      the second book's over a record without texture coordinates and a
      hierarchy of only spheres and lists; since the record and object types
      differ, the loop and its lemmas are stated again here rather than
      shared with `Hittables`. */
  datatype Fold = Fold(hit: bool, closest: Ext, temp: HitRecord, rec: HitRecord)

  /** Once a member has hit, the caller's record is the list's, and
      `closest` is its parameter, strictly above `tMin`. */
  predicate Coherent(s: Fold, tMin: Ext) {
    s.hit ==> s.rec == s.temp && s.closest == Fin(s.rec.t) && Lt(tMin, s.closest)
  }

  /** `sphere::hit` and `hittable_list::hit`. A miss leaves the record
      alone; an accepted parameter lies strictly inside the bounds. */
  function Hit(h: Hittable, r: Ray, tMin: Ext, tMax: Ext, rec: HitRecord, blank: HitRecord, m: Maths): (o: Outcome)
    decreases h
    ensures !o.hit ==> o.rec == rec
    ensures o.hit ==> Hittables.InOpen(o.rec.t, tMin, tMax)
  {
    match h
    case Sphere(center, radius, mat) =>
      var root := Hittables.SphereRoot(Hittables.SphereQuadratic(center, radius, r), tMin, tMax, m);
      if root.None? then Outcome(false, rec)
      else Outcome(true, SphereRecord(r, root.value, center, radius, mat))
    case List(objects) =>
      var f := ListFold(objects, 0, r, tMin, Fold(false, tMax, blank, rec), blank, m);
      Outcome(f.hit, f.rec)
  }

  /** The list loop from member `i` on. Each hit lowers `closest`
      strictly. */
  function ListFold(objs: seq<Hittable>, i: nat, r: Ray, tMin: Ext, s: Fold, blank: HitRecord, m: Maths): (f: Fold)
    requires i <= |objs|
    requires Coherent(s, tMin)
    decreases objs, |objs| - i
    ensures Coherent(f, tMin)
    ensures s.hit ==> f.hit
    ensures f == s || (f.hit && Lt(f.closest, s.closest))
    ensures f.hit && !s.hit ==> exists j :: i <= j < |objs| && Hit(objs[j], r, tMin, s.closest, s.temp, blank, m).hit
  {
    if i == |objs| then s
    else
      var o := Hit(objs[i], r, tMin, s.closest, s.temp, blank, m);
      if o.hit then
        var next := Fold(true, Fin(o.rec.t), o.rec, o.rec);
        var f := ListFold(objs, i + 1, r, tMin, next, blank, m);
        if f != next then OrderProperties(f.closest, Fin(o.rec.t), s.closest); f else f
      else
        ListFold(objs, i + 1, r, tMin, s.(temp := o.rec), blank, m)
  }

  /** A query's result does not depend on the record passed in, except what
      a miss leaves behind: a sphere writes every field. */
  lemma {:induction false} HitIgnoresRecord(
    h: Hittable, r: Ray, tMin: Ext, tMax: Ext, rec1: HitRecord, rec2: HitRecord, blank: HitRecord, m: Maths)
    decreases h
    ensures var o1 := Hit(h, r, tMin, tMax, rec1, blank, m);
            var o2 := Hit(h, r, tMin, tMax, rec2, blank, m);
      o1.hit == o2.hit && (o1.hit ==> o1.rec == o2.rec)
  {
    match h
    case Sphere(_, _, _) =>
    case List(objects) =>
      FoldIgnoresRecord(objects, 0, r, tMin, Fold(false, tMax, blank, rec1), Fold(false, tMax, blank, rec2), blank, m);
  }

  lemma {:induction false} FoldIgnoresRecord(
    objs: seq<Hittable>, i: nat, r: Ray, tMin: Ext, s1: Fold, s2: Fold, blank: HitRecord, m: Maths)
    requires i <= |objs|
    requires Coherent(s1, tMin) && Coherent(s2, tMin)
    requires s1.hit == s2.hit && s1.closest == s2.closest && s1.temp == s2.temp
    decreases |objs| - i
    ensures var f1 := ListFold(objs, i, r, tMin, s1, blank, m);
            var f2 := ListFold(objs, i, r, tMin, s2, blank, m);
      f1.hit == f2.hit && (f1.hit ==> f1.rec == f2.rec)
  {
    if i < |objs| {
      var o := Hit(objs[i], r, tMin, s1.closest, s1.temp, blank, m);
      var n1 := if o.hit then Fold(true, Fin(o.rec.t), o.rec, o.rec) else s1.(temp := o.rec);
      var n2 := if o.hit then Fold(true, Fin(o.rec.t), o.rec, o.rec) else s2.(temp := o.rec);
      FoldIgnoresRecord(objs, i + 1, r, tMin, n1, n2, blank, m);
    }
  }

  /** While nothing has hit, the bound is the caller's `tMax`; so a member
      that hits under `tMax` makes the loop hit. */
  lemma {:induction false} FoldFindsHit(
    objs: seq<Hittable>, i: nat, j: nat, r: Ray, tMin: Ext, tMax: Ext, s: Fold, any: HitRecord, blank: HitRecord, m: Maths)
    requires i <= j < |objs|
    requires Coherent(s, tMin)
    requires !s.hit ==> s.closest == tMax
    requires Hit(objs[j], r, tMin, tMax, any, blank, m).hit
    decreases j - i
    ensures ListFold(objs, i, r, tMin, s, blank, m).hit
  {
    var o := Hit(objs[i], r, tMin, s.closest, s.temp, blank, m);
    if i == j {
      if !s.hit {
        HitIgnoresRecord(objs[j], r, tMin, tMax, any, s.temp, blank, m);
      }
    } else if !s.hit && !o.hit {
      FoldFindsHit(objs, i + 1, j, r, tMin, tMax, s.(temp := o.rec), any, blank, m);
    }
  }

  /** `hittable_list::hit` is false exactly when every member misses under
      the caller's bounds. */
  lemma ListHitIff(objs: seq<Hittable>, r: Ray, tMin: Ext, tMax: Ext, rec: HitRecord, blank: HitRecord, m: Maths)
    ensures Hit(List(objs), r, tMin, tMax, rec, blank, m).hit <==>
      exists j :: 0 <= j < |objs| && Hit(objs[j], r, tMin, tMax, blank, blank, m).hit
  {
    if exists j :: 0 <= j < |objs| && Hit(objs[j], r, tMin, tMax, blank, blank, m).hit {
      var j :| 0 <= j < |objs| && Hit(objs[j], r, tMin, tMax, blank, blank, m).hit;
      FoldFindsHit(objs, 0, j, r, tMin, tMax, Fold(false, tMax, blank, rec), blank, blank, m);
    }
  }

  /** Lowering the far bound of a sphere query to a value still above the
      accepted parameter does not change the answer. */
  lemma SphereNarrowed(h: Hittable, r: Ray, tMin: Ext, tMax: Ext, c: Ext, m: Maths)
    requires h.Sphere?
    requires var q := Hittables.SphereQuadratic(h.center, h.radius, r);
      var t := Hittables.SphereRoot(q, tMin, tMax, m);
      t.Some? && Lt(Fin(t.value), c) && Le(c, tMax)
    ensures var q := Hittables.SphereQuadratic(h.center, h.radius, r);
      Hittables.SphereRoot(q, tMin, c, m) == Hittables.SphereRoot(q, tMin, tMax, m)
  {
    var q := Hittables.SphereQuadratic(h.center, h.radius, r);
    var t := Hittables.SphereRoot(q, tMin, tMax, m).value;
    var near := Hittables.NearRoot(q, m);
    var far := Hittables.FarRoot(q, m);
    OrderProperties(Fin(t), c, tMax);
    OrderProperties(Fin(near), c, tMax);
    assert Hittables.InOpen(t, tMin, c);
    if t != near {
      assert t == far;
      assert !Hittables.InOpen(near, tMin, tMax);
      assert !Hittables.InOpen(near, tMin, c);
    }
  }

  /** Lowering the far bound of any query to a value still above the
      parameter it accepted keeps a hit, at that parameter or nearer: a
      sphere gives the same root, and a list, whose loop then starts from
      the lower bound, never holds a farther `closest` than before. */
  lemma {:induction false} HitNarrowed(
    h: Hittable, r: Ray, tMin: Ext, tMax: Ext, c: Ext, rec1: HitRecord, rec2: HitRecord, blank: HitRecord, m: Maths)
    requires Le(c, tMax)
    requires var o := Hit(h, r, tMin, tMax, rec1, blank, m); o.hit && Lt(Fin(o.rec.t), c)
    decreases h
    ensures var o := Hit(h, r, tMin, c, rec2, blank, m);
      o.hit && o.rec.t <= Hit(h, r, tMin, tMax, rec1, blank, m).rec.t
  {
    match h
    case Sphere(_, _, _) =>
      SphereNarrowed(h, r, tMin, tMax, c, m);
    case List(objects) =>
      var s1 := Fold(false, tMax, blank, rec1);
      var s2 := Fold(false, c, blank, rec2);
      FoldNarrowed(objects, 0, r, tMin, s1, s2, blank, m);
      var f1 := ListFold(objects, 0, r, tMin, s1, blank, m);
      var f2 := ListFold(objects, 0, r, tMin, s2, blank, m);
      OrderProperties(f2.closest, f1.closest, c);
  }

  /** Two runs of the list loop, the second with a `closest` no farther than
      the first's, stay in that order to the end. */
  lemma {:induction false} FoldNarrowed(
    objs: seq<Hittable>, i: nat, r: Ray, tMin: Ext, s1: Fold, s2: Fold, blank: HitRecord, m: Maths)
    requires i <= |objs|
    requires Coherent(s1, tMin) && Coherent(s2, tMin)
    requires Le(s2.closest, s1.closest)
    decreases objs, |objs| - i
    ensures Le(ListFold(objs, i, r, tMin, s2, blank, m).closest, ListFold(objs, i, r, tMin, s1, blank, m).closest)
  {
    if i < |objs| {
      var o1 := Hit(objs[i], r, tMin, s1.closest, s1.temp, blank, m);
      var o2 := Hit(objs[i], r, tMin, s2.closest, s2.temp, blank, m);
      var n1 := if o1.hit then Fold(true, Fin(o1.rec.t), o1.rec, o1.rec) else s1.(temp := o1.rec);
      var n2 := if o2.hit then Fold(true, Fin(o2.rec.t), o2.rec, o2.rec) else s2.(temp := o2.rec);
      assert Le(n2.closest, s2.closest) by {
        OrderProperties(n2.closest, s2.closest, s1.closest);
      }
      if o1.hit {
        OrderProperties(Fin(o1.rec.t), s2.closest, s1.closest);
        if Lt(Fin(o1.rec.t), s2.closest) {
          HitNarrowed(objs[i], r, tMin, s1.closest, s2.closest, s1.temp, s2.temp, blank, m);
        } else {
          OrderProperties(n2.closest, s2.closest, n1.closest);
        }
      } else {
        OrderProperties(n2.closest, s2.closest, s1.closest);
      }
      FoldNarrowed(objs, i + 1, r, tMin, n1, n2, blank, m);
    }
  }

  /** `hittable_list::hit` finds the nearest hit: the parameter reported is
      no greater than the parameter any member, a sphere or a nested list,
      reports when asked on its own. */
  lemma ListClosest(objs: seq<Hittable>, r: Ray, tMin: Ext, tMax: Ext, rec: HitRecord, blank: HitRecord, m: Maths, j: nat)
    requires j < |objs| && Hit(objs[j], r, tMin, tMax, blank, blank, m).hit
    ensures var o := Hit(List(objs), r, tMin, tMax, rec, blank, m);
      o.hit && o.rec.t <= Hit(objs[j], r, tMin, tMax, blank, blank, m).rec.t
  {
    var tj := Hit(objs[j], r, tMin, tMax, blank, blank, m).rec.t;
    OrderProperties(tMax, tMax, tMax);
    FoldClosest(objs, 0, j, r, tMin, tMax, Fold(false, tMax, blank, rec), blank, m, tj);
    ListHitIff(objs, r, tMin, tMax, rec, blank, m);
  }

  lemma {:induction false} FoldClosest(
    objs: seq<Hittable>, i: nat, j: nat, r: Ray, tMin: Ext, tMax: Ext, s: Fold, blank: HitRecord, m: Maths, tj: real)
    requires i <= |objs| && j < |objs|
    requires Coherent(s, tMin)
    requires Le(s.closest, tMax)
    requires Hit(objs[j], r, tMin, tMax, blank, blank, m).hit && Hit(objs[j], r, tMin, tMax, blank, blank, m).rec.t == tj
    requires i > j ==> Le(s.closest, Fin(tj))
    decreases |objs| - i
    ensures Le(ListFold(objs, i, r, tMin, s, blank, m).closest, Fin(tj))
  {
    if i < |objs| {
      var o := Hit(objs[i], r, tMin, s.closest, s.temp, blank, m);
      var next := if o.hit then Fold(true, Fin(o.rec.t), o.rec, o.rec) else s.(temp := o.rec);
      assert Le(next.closest, s.closest) by {
        OrderProperties(next.closest, s.closest, tMax);
      }
      OrderProperties(next.closest, s.closest, tMax);
      if i == j {
        OrderProperties(Fin(tj), s.closest, tMax);
        if Lt(Fin(tj), s.closest) {
          HitNarrowed(objs[j], r, tMin, tMax, s.closest, blank, s.temp, blank, m);
          assert o.hit && o.rec.t <= tj;
        }
        OrderProperties(next.closest, s.closest, Fin(tj));
      } else if i > j {
        OrderProperties(next.closest, s.closest, Fin(tj));
      }
      FoldClosest(objs, i + 1, j, r, tMin, tMax, next, blank, m, tj);
    }
  }

  /** `hit_sphere`: `-1` when the discriminant is negative, otherwise the
      nearer root, whether or not it lies in front of the ray. */
  function HitSphere(center: Vec3, radius: real, r: Ray, m: Maths): (t: real)
    ensures var q := Hittables.SphereQuadratic(center, radius, r);
      (q.delta < 0.0 ==> t == -1.0) && (0.0 <= q.delta ==> t == Hittables.NearRoot(q, m))
  {
    var q := Hittables.SphereQuadratic(center, radius, r);
    if q.delta < 0.0 then -1.0 else Quotient(-q.halfB - m.sqrt(q.delta), q.a)
  }

  /** When the nearer root lies within the bounds and the discriminant is
      positive, `hit_sphere` gives the parameter the sphere query accepts. */
  lemma HitSphereAgrees(center: Vec3, radius: real, mat: Material, r: Ray, tMin: Ext, tMax: Ext, rec: HitRecord, blank: HitRecord, m: Maths)
    requires 0.0 < Hittables.SphereQuadratic(center, radius, r).delta
    requires Hittables.InOpen(HitSphere(center, radius, r, m), tMin, tMax)
    ensures var o := Hit(Sphere(center, radius, mat), r, tMin, tMax, rec, blank, m);
      o.hit && o.rec.t == HitSphere(center, radius, r, m)
  {
  }

  /** The first book's `scatter`: a lambertian always scatters along the
      normal plus a random unit vector with its albedo; a metal reflects
      with its albedo and absorbs rays that leave below the surface; a
      dielectric always scatters with a white attenuation. */
  function Scatter(mat: Material, rIn: Ray, rec: HitRecord, attenuation: Vec3, scattered: Ray, d: M.Draw, m: Maths): (s: M.Scattered)
    ensures mat.Lambertian? ==>
      s.ok && s.attenuation == mat.albedo && s.scattered == Ray(rec.p, Add(rec.normal, d.unitVector), DefaultTime)
    ensures mat.Metal? ==>
      s.attenuation == mat.albedo && s.scattered.orig == rec.p && (s.ok <==> Dot(s.scattered.dir, rec.normal) > 0.0)
    ensures mat.Dielectric? ==> s.ok && s.attenuation == Vec3(1.0, 1.0, 1.0) && s.scattered.orig == rec.p
  {
    match mat
    case Lambertian(a) => M.Scattered(true, a, Ray(rec.p, Add(rec.normal, d.unitVector), DefaultTime))
    case Metal(a, f) =>
      var sc := M.MetalRay(rIn, rec.p, rec.normal, f, d, m);
      M.Scattered(Dot(sc.dir, rec.normal) > 0.0, a, sc)
    case Dielectric(ri) =>
      M.Scattered(true, Vec3(1.0, 1.0, 1.0), M.DielectricRay(ri, rIn, rec.p, rec.normal, rec.frontFace, d.uniform, m))
  }

  const Red: Vec3 := Vec3(1.0, 0.0, 0.0)
  const White: Vec3 := Vec3(1.0, 1.0, 1.0)
  const SkyBlue: Vec3 := Vec3(0.5, 0.7, 1.0)

  /** The sky gradient `(1 - t) * white + t * blue`. */
  function Blend(t: real): (c: Vec3)
    ensures t == 0.0 ==> c == White
    ensures t == 1.0 ==> c == SkyBlue
    ensures 0.0 <= t <= 1.0 ==> 0.5 <= c.x <= 1.0 && 0.7 <= c.y <= 1.0 && c.z == 1.0
  {
    Add(Scale(White, 1.0 - t), Scale(SkyBlue, t))
  }

  /** The background of a ray that misses: the gradient at half of one
      plus the y component of the unit direction. */
  function Sky(r: Ray, m: Maths): Vec3 {
    Blend((UnitVector(r.dir, m).y + 1.0) * 0.5)
  }

  /** The first book's `ray_color`. Out of depth the path is red; a miss
      sees the sky; an absorbed ray is black; a scattered one is the
      attenuated colour of the next level. */
  function RayColor(r: Ray, world: Hittable, depth: int, rng: int -> M.Draw, blank: HitRecord, m: Maths): (c: Vec3)
    decreases depth
    ensures depth <= 0 ==> c == Red
    ensures 0 < depth && !Hit(world, r, Fin(0.001), PosInf, blank, blank, m).hit ==> c == Sky(r, m)
  {
    if depth <= 0 then Red
    else
      var o := Hit(world, r, Fin(0.001), PosInf, blank, blank, m);
      if o.hit then
        var s := Scatter(o.rec.mat, r, o.rec, Zero, Ray(Zero, Zero, 0.0), rng(depth), m);
        if s.ok then Mul(s.attenuation, RayColor(s.scattered, world, depth - 1, rng, blank, m))
        else Zero
      else Sky(r, m)
  }

  /** For a ray that hits: only a metal can absorb, which gives black;
      otherwise the colour is the attenuated colour of the next level, so
      with one level left a scattered ray shows the attenuated red. */
  lemma RayColorOnHit(r: Ray, world: Hittable, depth: int, rng: int -> M.Draw, blank: HitRecord, m: Maths)
    requires 0 < depth
    ensures var o := Hit(world, r, Fin(0.001), PosInf, blank, blank, m);
      var s := Scatter(o.rec.mat, r, o.rec, Zero, Ray(Zero, Zero, 0.0), rng(depth), m);
      o.hit ==>
        && (!s.ok ==> o.rec.mat.Metal? && RayColor(r, world, depth, rng, blank, m) == Zero)
        && (s.ok ==> RayColor(r, world, depth, rng, blank, m) == Mul(s.attenuation, RayColor(s.scattered, world, depth - 1, rng, blank, m)))
        && (s.ok && depth == 1 ==> RayColor(r, world, depth, rng, blank, m) == Mul(s.attenuation, Red))
  {
  }
}
