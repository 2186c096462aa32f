/** Materials, the hit record they read, and the orientation rule that
    every shape applies to its surface normal (ray_tracing/material.h,
    ray_tracing/material.cpp, ray_tracing/hittable.h). The random
    directions and the uniform number a scatter consumes are one `Draw`
    handed in by the caller. */
module Materials {
  import opened Tool
  import Textures

  /** `lambertian`, `metal`, `dielectric`, `diffus_light` and `isotropic`.
      The three texture-driven materials share the field `tex`. */
  datatype Material =
    | Lambertian(tex: Textures.Texture)
    | Metal(albedo: Vec3, fuzz: real)
    | Dielectric(refIdx: real)
    | DiffuseLight(tex: Textures.Texture)
    | Isotropic(tex: Textures.Texture)

  /** The textures a material evaluates are well-formed. */
  ghost predicate Valid(m: Material) {
    (m.Lambertian? || m.DiffuseLight? || m.Isotropic?) ==> Textures.Valid(m.tex)
  }

  /** `hit_record`: point, oriented normal, ray parameter, surface
      coordinates, which side was hit, and the material. */
  datatype HitRecord = HitRecord(
    p: Vec3, normal: Vec3, t: real, u: real, v: real, frontFace: bool, mat: Material)

  /** The orientation `set_face_normal` chooses. */
  datatype Facing = Facing(front: bool, normal: Vec3)

  /** `set_face_normal`: the ray hits the front iff it travels against the
      outward normal, and the stored normal always opposes the ray. */
  function Face(r: Ray, outward: Vec3): (f: Facing)
    ensures f.front <==> Dot(r.dir, outward) < 0.0
    ensures f.normal == outward || f.normal == Neg(outward)
    ensures f.front ==> f.normal == outward
    ensures Dot(r.dir, f.normal) <= 0.0
  {
    DotProperties(r.dir, outward, Zero, 0.0);
    var front := Dot(r.dir, outward) < 0.0;
    Facing(front, if front then outward else Neg(outward))
  }

  /** `set_face_normal` as a write to the record: only `frontFace` and
      `normal` change. */
  function SetFaceNormal(rec: HitRecord, r: Ray, outward: Vec3): (out: HitRecord)
    ensures out == rec.(frontFace := out.frontFace, normal := out.normal)
    ensures out.frontFace <==> Dot(r.dir, outward) < 0.0
    ensures Dot(r.dir, out.normal) <= 0.0
  {
    var f := Face(r, outward);
    rec.(frontFace := f.front, normal := f.normal)
  }

  /** The random quantities one scatter may consume: `random_unit_vector`,
      `random_in_unit_sphere` and `random_double`. */
  datatype Draw = Draw(unitVector: Vec3, inUnitSphere: Vec3, uniform: real)

  /** The two outputs a scatter writes, and whether it succeeded. */
  datatype Scattered = Scattered(ok: bool, attenuation: Vec3, scattered: Ray)

  /** The `metal` constructor caps the fuzz at 1. */
  function MakeMetal(a: Vec3, f: real): (m: Material)
    ensures m.Metal? && m.albedo == a
    ensures m.fuzz <= 1.0
    ensures f < 1.0 ==> m.fuzz == f
    ensures 1.0 <= f ==> m.fuzz == 1.0
  {
    Metal(a, if f < 1.0 then f else 1.0)
  }

  /** `material::emitted`: black, except for a light, which emits its
      texture. */
  function Emitted(mat: Material, u: real, v: real, p: Vec3, m: Maths): (c: Vec3)
    requires Valid(mat)
    ensures !mat.DiffuseLight? ==> c == Zero
    ensures mat.DiffuseLight? ==> c == Textures.Value(mat.tex, u, v, p, m)
  {
    match mat
    case DiffuseLight(t) => Textures.Value(t, u, v, p, m)
    case _ => Zero
  }

  /** The scattered ray of `metal`: the reflection of the unit incoming
      direction, perturbed by the fuzz. The two-argument ray constructor
      gives the ray the default time. */
  function MetalRay(rIn: Ray, p: Vec3, normal: Vec3, fuzz: real, d: Draw, m: Maths): (s: Ray)
    ensures s.orig == p && s.time == DefaultTime
    ensures fuzz == 0.0 ==> s.dir == Reflect(UnitVector(rIn.dir, m), normal)
  {
    var reflected := Reflect(UnitVector(rIn.dir, m), normal);
    Ray(p, Add(reflected, Scale(d.inUnitSphere, fuzz)), DefaultTime)
  }

  /** `etai_over_etat`: the reciprocal of the index when entering through
      the front face, the index itself when leaving. */
  function EtaRatio(frontFace: bool, refIdx: real): (eta: real)
    ensures frontFace && refIdx != 0.0 ==> eta * refIdx == 1.0
    ensures !frontFace ==> eta == refIdx
  {
    if frontFace && refIdx != 0.0 then (QuotientInverse(1.0, refIdx); Quotient(1.0, refIdx))
    else if frontFace then Quotient(1.0, refIdx)
    else refIdx
  }

  /** `cos_theta`: the cosine of the incidence angle, capped at 1. */
  function CosTheta(unitDirection: Vec3, normal: Vec3): (c: real)
    ensures c <= 1.0
    ensures c == 1.0 || c == Dot(Neg(unitDirection), normal)
  {
    FMin(Dot(Neg(unitDirection), normal), 1.0)
  }

  /** Total internal reflection: Snell's law has no solution. */
  predicate CannotRefract(eta: real, cosTheta: real, m: Maths) {
    eta * m.sqrt(1.0 - cosTheta * cosTheta) > 1.0
  }

  /** The scattered ray of `dielectric`: reflected under total internal
      reflection (no random number drawn), reflected when the uniform draw
      falls below the Schlick probability, refracted otherwise. Every path
      leaves from the hit point with the default time. */
  function DielectricRay(
    refIdx: real, rIn: Ray, p: Vec3, normal: Vec3, frontFace: bool, uniform: real, m: Maths): (s: Ray)
    ensures s.orig == p && s.time == DefaultTime
    ensures
      var unit := UnitVector(rIn.dir, m);
      var eta := EtaRatio(frontFace, refIdx);
      s.dir == Reflect(unit, normal) || s.dir == Refract(unit, normal, eta, m)
  {
    var eta := EtaRatio(frontFace, refIdx);
    var unit := UnitVector(rIn.dir, m);
    var cos := CosTheta(unit, normal);
    if CannotRefract(eta, cos, m) then
      Ray(p, Reflect(unit, normal), DefaultTime)
    else if uniform < Schlick(cos, eta) then
      Ray(p, Reflect(unit, normal), DefaultTime)
    else
      Ray(p, Refract(unit, normal, eta, m), DefaultTime)
  }

  /** Under total internal reflection the dielectric reflects, whatever the
      uniform draw would have been. */
  lemma TotalInternalReflection(
    refIdx: real, rIn: Ray, p: Vec3, normal: Vec3, frontFace: bool, u0: real, u1: real, m: Maths)
    requires CannotRefract(EtaRatio(frontFace, refIdx), CosTheta(UnitVector(rIn.dir, m), normal), m)
    ensures DielectricRay(refIdx, rIn, p, normal, frontFace, u0, m)
         == DielectricRay(refIdx, rIn, p, normal, frontFace, u1, m)
    ensures DielectricRay(refIdx, rIn, p, normal, frontFace, u0, m).dir
         == Reflect(UnitVector(rIn.dir, m), normal)
  {
  }

  /** `material::scatter` for every material. `attenuation` and `scattered`
      are the values of the caller's output variables; a light writes
      neither. */
  function Scatter(
    mat: Material, rIn: Ray, rec: HitRecord, attenuation: Vec3, scattered: Ray, d: Draw, m: Maths): (s: Scattered)
    requires Valid(mat)
    ensures mat.Lambertian? ==>
      s.ok && s.attenuation == Textures.Value(mat.tex, rec.u, rec.v, rec.p, m)
      && s.scattered == Ray(rec.p, Add(rec.normal, d.unitVector), rIn.time)
    ensures mat.Metal? ==>
      s.attenuation == mat.albedo && s.scattered.orig == rec.p && s.scattered.time == DefaultTime
      && (s.ok <==> Dot(s.scattered.dir, rec.normal) > 0.0)
    ensures mat.Dielectric? ==>
      s.ok && s.attenuation == Vec3(1.0, 1.0, 1.0)
      && s.scattered.orig == rec.p && s.scattered.time == DefaultTime
    ensures mat.DiffuseLight? ==>
      !s.ok && s.attenuation == attenuation && s.scattered == scattered
    ensures mat.Isotropic? ==>
      s.ok && s.attenuation == Textures.Value(mat.tex, rec.u, rec.v, rec.p, m)
      && s.scattered == Ray(rec.p, d.inUnitSphere, rIn.time)
  {
    match mat
    case Lambertian(t) =>
      Scattered(true, Textures.Value(t, rec.u, rec.v, rec.p, m), Ray(rec.p, Add(rec.normal, d.unitVector), rIn.time))
    case Metal(a, f) =>
      var sc := MetalRay(rIn, rec.p, rec.normal, f, d, m);
      Scattered(Dot(sc.dir, rec.normal) > 0.0, a, sc)
    case Dielectric(ri) =>
      Scattered(true, Vec3(1.0, 1.0, 1.0), DielectricRay(ri, rIn, rec.p, rec.normal, rec.frontFace, d.uniform, m))
    case DiffuseLight(_) =>
      Scattered(false, attenuation, scattered)
    case Isotropic(t) =>
      Scattered(true, Textures.Value(t, rec.u, rec.v, rec.p, m), Ray(rec.p, d.inUnitSphere, rIn.time))
  }

  /** Which materials absorb: a light always, a metal exactly when its ray
      would leave below the surface, nothing else. */
  lemma ScatterSucceeds(
    mat: Material, rIn: Ray, rec: HitRecord, attenuation: Vec3, scattered: Ray, d: Draw, m: Maths)
    requires Valid(mat)
    ensures var s := Scatter(mat, rIn, rec, attenuation, scattered, d, m);
      s.ok <==> !mat.DiffuseLight? && (mat.Metal? ==> Dot(s.scattered.dir, rec.normal) > 0.0)
  {
  }

  /** Every scattered ray that is used leaves from the hit point, and does
      not depend on the caller's output variables. */
  lemma ScatterFromHitPoint(
    mat: Material, rIn: Ray, rec: HitRecord, a0: Vec3, s0: Ray, a1: Vec3, s1: Ray, d: Draw, m: Maths)
    requires Valid(mat)
    ensures var s := Scatter(mat, rIn, rec, a0, s0, d, m);
      s.ok ==> s.scattered.orig == rec.p && s == Scatter(mat, rIn, rec, a1, s1, d, m)
  {
  }

  /** A constant-medium's phase function is isotropic and so always
      scatters. */
  lemma IsotropicAlwaysScatters(
    t: Textures.Texture, rIn: Ray, rec: HitRecord, attenuation: Vec3, scattered: Ray, d: Draw, m: Maths)
    requires Textures.Valid(t)
    ensures Scatter(Isotropic(t), rIn, rec, attenuation, scattered, d, m).ok
  {
  }
}
