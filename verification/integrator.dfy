/** The second book's integrator, `ray_color` in
    rayTracingTheNextWeek/main.cpp: light gathered along a path of
    scatterings, cut off after `depth` bounces. The random draws of the
    scatter at each level are `rng(depth)`. `blank` is the initial value of
    the uninitialised records the function and the world's lists declare. */
module Integrator {
  import opened Tool
  import opened Extended
  import opened Materials
  import H = Hittables

  /** The bounds every world query uses: `0.001` and positive infinity. */
  const NearLimit: Ext := Fin(0.001)
  const FarLimit: Ext := PosInf

  /** `ray_color`. Out of depth the path is black; a ray that misses the
      world sees the background; a hit whose material absorbs the ray gives
      only what that material emits; otherwise the emission plus the
      attenuated colour of the scattered ray, one level deeper. The
      scatter's output variables start as the default vector and ray. */
  function RayColor(r: Ray, background: Vec3, world: H.Hittable, depth: int, rng: int -> Draw, blank: HitRecord, m: Maths): (c: Vec3)
    requires H.Valid(world)
    decreases depth
    ensures depth <= 0 ==> c == Zero
    ensures 0 < depth && !H.Hit(world, r, NearLimit, FarLimit, blank, blank, m).hit ==> c == background
  {
    if depth <= 0 then Zero
    else
      var o := H.Hit(world, r, NearLimit, FarLimit, blank, blank, m);
      if !o.hit then background
      else
        var emitted := Emitted(o.rec.mat, o.rec.u, o.rec.v, o.rec.p, m);
        var s := Scatter(o.rec.mat, r, o.rec, Zero, Ray(Zero, Zero, 0.0), rng(depth), m);
        if !s.ok then emitted
        else Add(emitted, Mul(s.attenuation, RayColor(s.scattered, background, world, depth - 1, rng, blank, m)))
  }

  /** The cases of `ray_color` for a ray that hits: the hit lies beyond
      `0.001`; a light gives exactly its emission; any other material that
      absorbs gives black; one that scatters adds the attenuated colour of
      the next level to its emission. */
  lemma RayColorOnHit(r: Ray, background: Vec3, world: H.Hittable, depth: int, rng: int -> Draw, blank: HitRecord, m: Maths)
    requires H.Valid(world) && 0 < depth
    ensures var o := H.Hit(world, r, NearLimit, FarLimit, blank, blank, m);
      o.hit ==>
        var emitted := Emitted(o.rec.mat, o.rec.u, o.rec.v, o.rec.p, m);
        var s := Scatter(o.rec.mat, r, o.rec, Zero, Ray(Zero, Zero, 0.0), rng(depth), m);
        && Le(NearLimit, Fin(o.rec.t))
        && (o.rec.mat.DiffuseLight? ==> RayColor(r, background, world, depth, rng, blank, m) == emitted)
        && (!s.ok && !o.rec.mat.DiffuseLight? ==> RayColor(r, background, world, depth, rng, blank, m) == Zero)
        && (s.ok ==> RayColor(r, background, world, depth, rng, blank, m)
                     == Add(emitted, Mul(s.attenuation, RayColor(s.scattered, background, world, depth - 1, rng, blank, m))))
  {
    var o := H.Hit(world, r, NearLimit, FarLimit, blank, blank, m);
    if o.hit {
      ScatterSucceeds(o.rec.mat, r, o.rec, Zero, Ray(Zero, Zero, 0.0), rng(depth), m);
    }
  }

  /** With one bounce left, the scattered ray is never followed: a hit
      shows only what its material emits. */
  lemma {:induction false} SingleBounce(r: Ray, background: Vec3, world: H.Hittable, rng: int -> Draw, blank: HitRecord, m: Maths)
    requires H.Valid(world)
    ensures var o := H.Hit(world, r, NearLimit, FarLimit, blank, blank, m);
      o.hit ==> RayColor(r, background, world, 1, rng, blank, m) == Emitted(o.rec.mat, o.rec.u, o.rec.v, o.rec.p, m)
  {
    var o := H.Hit(world, r, NearLimit, FarLimit, blank, blank, m);
    if o.hit {
      var emitted := Emitted(o.rec.mat, o.rec.u, o.rec.v, o.rec.p, m);
      var s := Scatter(o.rec.mat, r, o.rec, Zero, Ray(Zero, Zero, 0.0), rng(1), m);
      if s.ok {
        var deeper := RayColor(s.scattered, background, world, 0, rng, blank, m);
        assert deeper == Zero;
        assert Mul(s.attenuation, Zero) == Zero;
        assert Add(emitted, Zero) == emitted;
      }
    }
  }

  /** A world with no light, against a black background, is black at every
      depth. */
  lemma {:induction false} DarkWorldIsBlack(r: Ray, world: H.Hittable, depth: int, rng: int -> Draw, blank: HitRecord, m: Maths)
    requires H.Valid(world) && H.Dark(world)
    decreases depth
    ensures RayColor(r, Zero, world, depth, rng, blank, m) == Zero
  {
    if 0 < depth {
      var o := H.Hit(world, r, NearLimit, FarLimit, blank, blank, m);
      if o.hit {
        var emitted := Emitted(o.rec.mat, o.rec.u, o.rec.v, o.rec.p, m);
        assert emitted == Zero;
        var s := Scatter(o.rec.mat, r, o.rec, Zero, Ray(Zero, Zero, 0.0), rng(depth), m);
        if s.ok {
          DarkWorldIsBlack(s.scattered, world, depth - 1, rng, blank, m);
          assert Mul(s.attenuation, Zero) == Zero;
          assert Add(Zero, Zero) == Zero;
        }
      }
    }
  }
}
