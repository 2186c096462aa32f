/** Scalar helpers, 3-vectors, rays and the colour output arithmetic of the
    renderer (raytracingInOneWeekend/constantAndTool.h). Every double is a
    real; the transcendental functions the code calls are fields of the
    `Maths` oracle, and each fact the model relies on about them is stated
    as a predicate on that oracle. */
module Tool {

  datatype Option<T> = None | Some(value: T)

  /** The oracle for the C library's floating-point functions. */
  datatype Maths = Maths(
    sqrt: real -> real,
    sin: real -> real,
    cos: real -> real,
    atan2: (real, real) -> real,
    asin: real -> real)
  {
    /** The only fact the geometry needs about `sqrt`: it is positive on
        positive arguments. */
    ghost predicate SqrtPositive() {
      forall x :: 0.0 < x ==> 0.0 < sqrt(x)
    }
  }

  const Pi: real := 3.1415926535897932385

  /** The time the two-argument ray constructor of the second book gives a
      ray. That constructor is not part of this model; it is taken to
      default the time to zero. */
  const DefaultTime: real := 0.0

  function DegreesToRadians(degrees: real): (r: real)
    ensures degrees == 180.0 ==> r == Pi
    ensures degrees == 0.0 ==> r == 0.0
    ensures 0.0 < degrees ==> 0.0 < r
  {
    degrees * Pi / 180.0
  }

  /** `degrees_to_radians` is linear. */
  lemma DegreesToRadiansLinear(a: real, b: real, k: real)
    ensures DegreesToRadians(a + b) == DegreesToRadians(a) + DegreesToRadians(b)
    ensures DegreesToRadians(k * a) == k * DegreesToRadians(a)
  {
  }

  /** `ffmin`: `a <= b ? a : b`. */
  function FMin(a: real, b: real): (r: real)
    ensures r <= a && r <= b
    ensures r == a || r == b
  {
    if a <= b then a else b
  }

  /** `ffmax`: `a >= b ? a : b`. */
  function FMax(a: real, b: real): (r: real)
    ensures a <= r && b <= r
    ensures r == a || r == b
  {
    if a >= b then a else b
  }

  function Clamp(x: real, min: real, max: real): (r: real)
    ensures min <= max ==> min <= r <= max
    ensures min <= x <= max ==> r == x
    ensures x < min ==> r == min
    ensures min <= max < x ==> r == max
  {
    if x < min then min
    else if x > max then max
    else x
  }

  /** Division as the code performs it where the divisor may be zero.
      IEEE-754 would give an infinity or NaN there; this model has no such
      values and yields 0 instead. */
  function Quotient(a: real, b: real): (r: real)
    ensures b == 0.0 ==> r == 0.0
  {
    if b == 0.0 then 0.0 else a / b
  }

  /** Away from zero, the quotient is the real quotient. */
  lemma QuotientInverse(a: real, b: real)
    requires b != 0.0
    ensures Quotient(a, b) * b == a
  {
  }

  /** `static_cast<int>` of a double: truncation toward zero. */
  function Trunc(x: real): (r: int)
    ensures 0.0 <= x ==> r as real <= x < r as real + 1.0
    ensures x < 0.0 ==> r as real - 1.0 < x <= r as real
    ensures 0.0 <= x ==> 0 <= r
  {
    if x >= 0.0 then x.Floor else -((-x).Floor)
  }

  datatype Vec3 = Vec3(x: real, y: real, z: real) {
    /** `operator[]`. */
    function Get(i: int): real
      requires 0 <= i < 3
    {
      if i == 0 then x else if i == 1 then y else z
    }
  }

  const Zero: Vec3 := Vec3(0.0, 0.0, 0.0)

  function Neg(v: Vec3): (r: Vec3)
    ensures forall i :: 0 <= i < 3 ==> r.Get(i) == -v.Get(i)
  {
    Vec3(-v.x, -v.y, -v.z)
  }

  function Add(u: Vec3, v: Vec3): (r: Vec3)
    ensures forall i :: 0 <= i < 3 ==> r.Get(i) == u.Get(i) + v.Get(i)
  {
    Vec3(u.x + v.x, u.y + v.y, u.z + v.z)
  }

  function Sub(u: Vec3, v: Vec3): (r: Vec3)
    ensures forall i :: 0 <= i < 3 ==> r.Get(i) == u.Get(i) - v.Get(i)
  {
    Vec3(u.x - v.x, u.y - v.y, u.z - v.z)
  }

  /** The component-wise product `u * v`. */
  function Mul(u: Vec3, v: Vec3): (r: Vec3)
    ensures forall i :: 0 <= i < 3 ==> r.Get(i) == u.Get(i) * v.Get(i)
  {
    Vec3(u.x * v.x, u.y * v.y, u.z * v.z)
  }

  /** `v * t`. */
  function Scale(v: Vec3, t: real): (r: Vec3)
    ensures forall i :: 0 <= i < 3 ==> r.Get(i) == v.Get(i) * t
  {
    Vec3(v.x * t, v.y * t, v.z * t)
  }

  /** `v / t`, which the code computes as `v * (1 / t)`. For a non-zero
      `t`, scaling back by `t` recovers `v`; a zero `t` gives the zero
      vector, as `Quotient` does. */
  function DivScalar(v: Vec3, t: real): (r: Vec3)
    ensures t != 0.0 ==> Scale(r, t) == v
    ensures t == 0.0 ==> r == Zero
  {
    var q := Scale(v, Quotient(1.0, t));
    assert t != 0.0 ==> q.x * t == v.x && q.y * t == v.y && q.z * t == v.z;
    q
  }

  function Dot(u: Vec3, v: Vec3): real {
    u.x * v.x + u.y * v.y + u.z * v.z
  }

  function Cross(u: Vec3, v: Vec3): (r: Vec3)
    ensures Dot(r, u) == 0.0 && Dot(r, v) == 0.0
  {
    Vec3(u.y * v.z - u.z * v.y,
         u.z * v.x - u.x * v.z,
         u.x * v.y - u.y * v.x)
  }

  function LengthSquared(v: Vec3): (r: real)
    ensures 0.0 <= r
  {
    SquarePositive(v.x);
    SquarePositive(v.y);
    SquarePositive(v.z);
    v.x * v.x + v.y * v.y + v.z * v.z
  }

  lemma SquarePositive(a: real)
    ensures 0.0 <= a * a
    ensures a != 0.0 ==> 0.0 < a * a
  {
  }

  function Length(v: Vec3, m: Maths): real {
    m.sqrt(LengthSquared(v))
  }

  /** `unit_vector`: `v / v.length()`. */
  function UnitVector(v: Vec3, m: Maths): Vec3 {
    DivScalar(v, Length(v, m))
  }

  /** `dot` is symmetric and the negation of either argument negates it. */
  lemma DotProperties(u: Vec3, v: Vec3, w: Vec3, k: real)
    ensures Dot(u, v) == Dot(v, u)
    ensures Dot(u, Neg(v)) == -Dot(u, v)
    ensures Dot(Add(u, w), v) == Dot(u, v) + Dot(w, v)
    ensures Dot(Scale(u, k), v) == k * Dot(u, v)
  {
  }

  /** `reflect`: `v - n * 2 * dot(v, n)`. */
  function Reflect(v: Vec3, n: Vec3): (r: Vec3)
    ensures Dot(r, n) == Dot(v, n) - 2.0 * Dot(v, n) * Dot(n, n)
  {
    var d := Dot(v, n);
    var r := Sub(v, Scale(Scale(n, 2.0), d));
    calc {
      Dot(r, n);
      Dot(v, n) - (n.x * 2.0 * d * n.x + n.y * 2.0 * d * n.y + n.z * 2.0 * d * n.z);
      Dot(v, n) - 2.0 * d * Dot(n, n);
    }
    r
  }

  /** For a unit normal, reflection negates the normal component and is its
      own inverse. */
  lemma {:induction false} ReflectUnitNormal(v: Vec3, n: Vec3)
    requires Dot(n, n) == 1.0
    ensures Dot(Reflect(v, n), n) == -Dot(v, n)
    ensures Reflect(Reflect(v, n), n) == v
  {
    var r := Reflect(v, n);
    var d := Dot(v, n);
    assert Dot(r, n) == -d;
    var rr := Reflect(r, n);
    assert rr == Sub(r, Scale(Scale(n, 2.0), -d));
    assert r == Sub(v, Scale(Scale(n, 2.0), d));
  }

  /** `refract`; only its structure is modelled, not its numeric meaning. */
  function Refract(uv: Vec3, n: Vec3, etaiOverEtat: real, m: Maths): Vec3 {
    var cosTheta := Dot(Neg(uv), n);
    var parallel := Scale(Add(uv, Scale(n, cosTheta)), etaiOverEtat);
    var perp := Scale(n, -m.sqrt(1.0 - LengthSquared(parallel)));
    Add(parallel, perp)
  }

  /** `schlick`; `pow(1 - cosine, 5)` is written out as a product. */
  function Schlick(cosine: real, refIdx: real): real {
    var r0 := Quotient(1.0 - refIdx, 1.0 + refIdx);
    var r1 := r0 * r0;
    var c := 1.0 - cosine;
    r1 + (1.0 - r1) * (c * c * c * c * c)
  }

  /** A ray: origin, direction (not necessarily unit) and time. The rays of
      the first book carry no time; there it is always zero. */
  datatype Ray = Ray(orig: Vec3, dir: Vec3, time: real)

  /** `ray::at`. */
  function At(r: Ray, t: real): (p: Vec3)
    ensures t == 0.0 ==> p == r.orig
    ensures Sub(p, r.orig) == Scale(r.dir, t)
  {
    Add(r.orig, Scale(r.dir, t))
  }

  /** Points along a ray are affine in the parameter. */
  lemma AtAffine(r: Ray, s: real, t: real)
    ensures Sub(At(r, t), At(r, s)) == Scale(r.dir, t - s)
  {
  }

  /** One output channel of `write_color`:
      `static_cast<int>(255 * clamp(c, 0.0, 0.999))`. */
  function Channel(c: real): (r: int)
    ensures 0 <= r <= 254
    ensures 0.0 <= c <= 0.999 ==> r == (255.0 * c).Floor
    ensures c <= 0.0 ==> r == 0
    ensures 0.999 <= c ==> r == 254
  {
    var k := Clamp(c, 0.0, 0.999);
    assert 255.0 * k <= 254.745;
    Trunc(255.0 * k)
  }

  /** The three integers `write_color` prints for a pixel whose summed
      colour is `pixel` after `samplesPerPixel` samples (gamma 2: square
      root of the average). The stream output itself is not modelled. */
  function WriteColor(pixel: Vec3, samplesPerPixel: int, m: Maths): (rgb: (int, int, int))
    ensures 0 <= rgb.0 <= 254 && 0 <= rgb.1 <= 254 && 0 <= rgb.2 <= 254
  {
    var scale := Quotient(1.0, samplesPerPixel as real);
    var r := Channel(m.sqrt(scale * pixel.x));
    var g := Channel(m.sqrt(scale * pixel.y));
    var b := Channel(m.sqrt(scale * pixel.z));
    (r, g, b)
  }
}
