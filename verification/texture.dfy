/** Textures and Perlin noise (ray_tracing/texture.h, ray_tracing/texture.cpp):
    constant, checker, noise and image textures, the permutation tables of
    `perlin`, the hashed lattice lookup of `noise`, `turb`, the two
    trilinear interpolations and the texel lookup of `image_texture`. */
module Textures {
  import opened Tool

  /** An `unsigned char`. */
  newtype Byte = x: int | 0 <= x < 256

  /** `perlin::point_count`. */
  const PointCount: int := 256

  /** The eight lattice-corner values `c[2][2][2]`, indexed `[di][dj][dk]`. */
  datatype Cell<T> = Cell(c000: T, c001: T, c010: T, c011: T, c100: T, c101: T, c110: T, c111: T)

  /** A `perlin` generator: `ran_vec3` and the three permutation tables. The
      never-initialised `ranfloat` member is not modelled. */
  datatype Perlin = Perlin(ranVec: seq<Vec3>, permX: seq<int>, permY: seq<int>, permZ: seq<int>)

  /** A table of `point_count` entries, each an index into a table of that
      size. */
  ghost predicate IsTable(t: seq<int>) {
    |t| == PointCount && forall k :: 0 <= k < |t| ==> 0 <= t[k] < PointCount
  }

  ghost predicate PerlinValid(g: Perlin) {
    |g.ranVec| == PointCount && IsTable(g.permX) && IsTable(g.permY) && IsTable(g.permZ)
  }

  datatype Texture =
    | Constant(color: Vec3)
    | Checker(even: Texture, odd: Texture)
    | Noise(noise: Perlin, scale: real)
    | Image(data: Option<seq<Byte>>, nx: int, ny: int)

  /** What a texture needs so that its `value` stays inside its arrays: a
      well-formed noise generator, and an image whose data holds `3*nx*ny`
      bytes for dimensions of at least one pixel. */
  ghost predicate Valid(t: Texture) {
    match t
    case Constant(_) => true
    case Checker(e, o) => Valid(e) && Valid(o)
    case Noise(g, _) => PerlinValid(g)
    case Image(data, nx, ny) => data.Some? ==> 1 <= nx && 1 <= ny && 3 * nx * ny <= |data.value|
  }

  // ---------------------------------------------------------------------
  // Permutation tables

  /** The sequence `0, 1, ..., n-1`. */
  function Iota(n: nat): (s: seq<int>)
    ensures |s| == n
    ensures forall k :: 0 <= k < n ==> s[k] == k
  {
    if n == 0 then [] else Iota(n - 1) + [n - 1]
  }

  /** `0 .. n-1` holds each value of that range exactly once. */
  lemma {:induction false} IotaCounts(n: nat)
    ensures forall v :: 0 <= v < n ==> multiset(Iota(n))[v] == 1
    ensures forall v :: (v < 0 || n <= v) ==> multiset(Iota(n))[v] == 0
  {
    if n > 0 {
      IotaCounts(n - 1);
      assert Iota(n) == Iota(n - 1) + [n - 1];
      assert multiset(Iota(n)) == multiset(Iota(n - 1)) + multiset{n - 1};
    }
  }

  /** The draws `random_int(0, i)` that `permute` makes: one per index,
      each in `[0, i]`. */
  ghost predicate ValidDraws(draws: seq<int>, n: int) {
    n <= |draws| && forall i :: 0 < i < n ==> 0 <= draws[i] <= i
  }

  /** `perlin::permute`: the Fisher-Yates shuffle of `p[0..n)`, walking `i`
      down from `n-1` to 1 and swapping `p[i]` with `p[draws[i]]`. */
  method Permute(p: seq<int>, n: int, draws: seq<int>) returns (q: seq<int>)
    requires n <= |p|
    requires ValidDraws(draws, n)
    ensures |q| == |p|
    ensures 0 <= n ==> multiset(q[..n]) == multiset(p[..n])
    ensures multiset(q) == multiset(p)
    ensures forall k :: 0 <= k < |p| && n <= k ==> q[k] == p[k]
    ensures q == PermuteSpec(p, n - 1, draws)
  {
    q := p;
    var i := n - 1;
    while i > 0
      invariant i <= n - 1
      invariant |q| == |p|
      invariant PermuteSpec(q, i, draws) == PermuteSpec(p, n - 1, draws)
      invariant 0 <= n ==> multiset(q[..n]) == multiset(p[..n])
      invariant multiset(q) == multiset(p)
      invariant forall k :: 0 <= k < |p| && n <= k ==> q[k] == p[k]
    {
      var target := draws[i];
      var tmp := q[i];
      var q' := q[i := q[target]][target := tmp];
      SwapPreservesMultiset(q, i, target, n);
      q := q';
      i := i - 1;
    }
  }

  /** Swapping two entries below `n` keeps the multiset of the prefix and of
      the whole sequence, and touches nothing from `n` on. */
  lemma SwapPreservesMultiset(q: seq<int>, i: int, t: int, n: int)
    requires 0 <= t <= i < n <= |q|
    ensures var q' := q[i := q[t]][t := q[i]];
      multiset(q'[..n]) == multiset(q[..n]) && multiset(q') == multiset(q) &&
      forall k :: n <= k < |q| ==> q'[k] == q[k]
  {
    var q' := q[i := q[t]][t := q[i]];
    assert q'[..n] == q[..n][i := q[t]][t := q[i]];
    assert q == q[..n] + q[n..];
    assert q' == q'[..n] + q[n..];
  }

  /** When every draw is its own index, nothing moves. */
  lemma {:induction false} PermuteIdentityDraws(p: seq<int>, n: int, draws: seq<int>, q: seq<int>)
    requires n <= |p| && n <= |draws|
    requires forall i :: 0 < i < n ==> draws[i] == i
    requires q == PermuteSpec(p, n - 1, draws)
    ensures q == p
    decreases n
  {
    if n - 1 > 0 {
      var p' := p[n - 1 := p[draws[n - 1]]][draws[n - 1] := p[n - 1]];
      assert p' == p;
      PermuteIdentityDraws(p, n - 1, draws, PermuteSpec(p, n - 2, draws));
    }
  }

  /** The shuffle as a recursive function: the swaps for `i = hi, hi-1, ...,
      1` applied in that order. */
  function PermuteSpec(p: seq<int>, hi: int, draws: seq<int>): (q: seq<int>)
    requires hi < |p| && hi < |draws|
    requires forall i :: 0 < i <= hi ==> 0 <= draws[i] <= i
    ensures |q| == |p|
    decreases hi
  {
    if hi <= 0 then p
    else
      var t := draws[hi];
      PermuteSpec(p[hi := p[t]][t := p[hi]], hi - 1, draws)
  }

  /** `perlin_generate_perm`: the identity table of `point_count` entries,
      shuffled. The result holds each index exactly once. */
  method GeneratePerm(draws: seq<int>) returns (p: seq<int>)
    requires ValidDraws(draws, PointCount)
    ensures |p| == PointCount
    ensures forall v :: 0 <= v < PointCount ==> multiset(p)[v] == 1
    ensures IsTable(p)
  {
    var init: seq<int> := [];
    var i := 0;
    while i < PointCount
      invariant 0 <= i <= PointCount
      invariant init == Iota(i)
    {
      init := init + [i];
      i := i + 1;
    }
    p := Permute(init, PointCount, draws);
    IotaCounts(PointCount);
    forall k | 0 <= k < |p|
      ensures 0 <= p[k] < PointCount
    {
      assert p[k] in multiset(p);
      assert multiset(Iota(PointCount))[p[k]] > 0;
    }
  }

  /** The `perlin` constructor: `ran_vec3[i]` is the unit vector of the
      i-th random vector, then three shuffled tables. */
  method MakePerlin(vecDraws: seq<Vec3>, dx: seq<int>, dy: seq<int>, dz: seq<int>, m: Maths)
    returns (g: Perlin)
    requires |vecDraws| == PointCount
    requires ValidDraws(dx, PointCount) && ValidDraws(dy, PointCount) && ValidDraws(dz, PointCount)
    ensures PerlinValid(g)
    ensures forall k :: 0 <= k < PointCount ==> g.ranVec[k] == UnitVector(vecDraws[k], m)
  {
    var ran := seq(PointCount, k requires 0 <= k < PointCount => UnitVector(vecDraws[k], m));
    var px := GeneratePerm(dx);
    var py := GeneratePerm(dy);
    var pz := GeneratePerm(dz);
    g := Perlin(ran, px, py, pz);
  }

  // ---------------------------------------------------------------------
  // Lattice hashing

  /** `x & 255` on a two's-complement `int`: the residue of `x` modulo 256,
      which is what the bitwise and computes for negative `x` as well. */
  function Low8(x: int): (r: int)
    ensures 0 <= r < 256
    ensures 0 <= x < 256 ==> r == x
    ensures (x - r) % 256 == 0
  {
    x % 256
  }

  /** `& 255` wraps around every 256 lattice steps. */
  lemma Low8Periodic(x: int)
    ensures Low8(x + 256) == Low8(x)
  {
    var a, b := Low8(x + 256), Low8(x);
    assert (a - b) % 256 == 0;
  }

  function Pow2(k: nat): (r: nat)
    ensures 1 <= r
  {
    if k == 0 then 1 else 2 * Pow2(k - 1)
  }

  /** Bitwise exclusive or of two non-negative integers, bit by bit from
      the lowest. */
  function Xor(a: nat, b: nat): nat
    decreases a + b
  {
    if a == 0 then b
    else if b == 0 then a
    else 2 * Xor(a / 2, b / 2) + (if a % 2 == b % 2 then 0 else 1)
  }

  /** Exclusive or of two `k`-bit values is a `k`-bit value. */
  lemma {:induction false} XorBound(a: nat, b: nat, k: nat)
    requires a < Pow2(k) && b < Pow2(k)
    ensures Xor(a, b) < Pow2(k)
    decreases k
  {
    if a != 0 && b != 0 {
      assert k > 0;
      XorBound(a / 2, b / 2, k - 1);
    }
  }

  /** A value exclusive-ored with itself vanishes. */
  lemma {:induction false} XorSelf(a: nat)
    ensures Xor(a, a) == 0
    decreases a
  {
    if a != 0 {
      XorSelf(a / 2);
    }
  }

  /** Exclusive or is commutative. */
  lemma {:induction false} XorCommutes(a: nat, b: nat)
    ensures Xor(a, b) == Xor(b, a)
    decreases a + b
  {
    if a != 0 && b != 0 {
      XorCommutes(a / 2, b / 2);
    }
  }

  /** The three-way `^` of table entries, each in `[0, 255]`. */
  function Xor3(a: int, b: int, c: int): (r: int)
    requires 0 <= a < 256 && 0 <= b < 256 && 0 <= c < 256
    ensures 0 <= r < 256
  {
    assert Pow2(8) == 256;
    XorBound(a, b, 8);
    XorBound(Xor(a, b), c, 8);
    Xor(Xor(a, b), c)
  }

  /** The `ran_vec3` index `perm_x[(i)&255] ^ perm_y[(j)&255] ^ perm_z[(k)&255]`
      of the lattice point `(i, j, k)`. */
  function HashIndex(g: Perlin, i: int, j: int, k: int): (h: int)
    requires PerlinValid(g)
    ensures 0 <= h < |g.ranVec|
  {
    Xor3(g.permX[Low8(i)], g.permY[Low8(j)], g.permZ[Low8(k)])
  }

  /** The lattice hash repeats every 256 steps along each axis. */
  lemma HashIndexPeriodic(g: Perlin, i: int, j: int, k: int)
    requires PerlinValid(g)
    ensures HashIndex(g, i + 256, j, k) == HashIndex(g, i, j, k)
    ensures HashIndex(g, i, j + 256, k) == HashIndex(g, i, j, k)
    ensures HashIndex(g, i, j, k + 256) == HashIndex(g, i, j, k)
  {
    Low8Periodic(i);
    Low8Periodic(j);
    Low8Periodic(k);
  }

  /** `3u^2 - 2u^3`, the fade curve of both interpolations, with `pow`
      written as products. */
  function Smoothstep(u: real): (r: real)
    ensures u == 0.0 ==> r == 0.0
    ensures u == 1.0 ==> r == 1.0
  {
    3.0 * (u * u) - 2.0 * (u * u * u)
  }

  /** `trilinear_interp`: successive linear interpolations along x, y and z
      with the faded weights. */
  function TrilinearInterp(c: Cell<real>, u: real, v: real, w: real): real {
    var uu := Smoothstep(u);
    var vv := Smoothstep(v);
    var ww := Smoothstep(w);
    var x00 := c.c000 + (uu - 0.0) / 1.0 * (c.c100 - c.c000);
    var x10 := c.c010 + uu * (c.c110 - c.c010);
    var x01 := c.c001 + uu * (c.c101 - c.c001);
    var x11 := c.c011 + uu * (c.c111 - c.c011);
    var y0 := x00 + vv * (x10 - x00);
    var y1 := x01 + vv * (x11 - x01);
    y0 + ww * (y1 - y0)
  }

  /** The interpolation reproduces the corner values at the two extreme
      corners, and a constant field. */
  lemma TrilinearInterpCorners(c: Cell<real>, k: real)
    ensures TrilinearInterp(c, 0.0, 0.0, 0.0) == c.c000
    ensures TrilinearInterp(c, 1.0, 1.0, 1.0) == c.c111
    ensures forall u: real, v: real, w: real ::
      TrilinearInterp(Cell(k, k, k, k, k, k, k, k), u, v, w) == k
  {
  }

  /** `vec3_trilinear_interp`, transcribed: each corner contributes the dot
      product of its gradient with the offset to that corner. */
  function Vec3TrilinearInterp(c: Cell<Vec3>, u: real, v: real, w: real): real {
    var uu := Smoothstep(u);
    var vv := Smoothstep(v);
    var ww := Smoothstep(w);
    var x00 := Dot(Vec3(u, v, w), c.c000)
      + (Dot(Vec3(u - 1.0, v, w), c.c100) - Dot(Vec3(u, v, w), c.c000)) * uu;
    var x10 := Dot(Vec3(u, v - 1.0, w), c.c010)
      + (Dot(Vec3(u - 1.0, v - 1.0, w), c.c110) - Dot(Vec3(u, v - 1.0, w), c.c010)) * uu;
    var x01 := Dot(Vec3(u, v, w - 1.0), c.c001)
      + (Dot(Vec3(u - 1.0, v, w - 1.0), c.c101) - Dot(Vec3(u, v, w - 1.0), c.c001)) * uu;
    var x11 := Dot(Vec3(u, v - 1.0, w - 1.0), c.c011)
      + (Dot(Vec3(u - 1.0, v - 1.0, w - 1.0), c.c111) - Dot(Vec3(u, v - 1.0, w - 1.0), c.c011)) * uu;
    var y0 := x00 + (x10 - x00) * vv;
    var y1 := x01 + (x11 - x01) * vv;
    y0 + (y1 - y0) * ww
  }

  /** The gradient of lattice corner `(i, j, k)`. */
  function Gradient(g: Perlin, i: int, j: int, k: int): Vec3
    requires PerlinValid(g)
  {
    g.ranVec[HashIndex(g, i, j, k)]
  }

  /** `perlin::noise`: the fractional parts of the point, and the gradients
      of the eight surrounding lattice corners hashed from its integer parts
      (`floor`, then the conversion to `int`). */
  function PerlinNoise(g: Perlin, p: Vec3): real
    requires PerlinValid(g)
  {
    var i, j, k := p.x.Floor, p.y.Floor, p.z.Floor;
    var u, v, w := p.x - i as real, p.y - j as real, p.z - k as real;
    var c := Cell(
      Gradient(g, i, j, k), Gradient(g, i, j, k + 1),
      Gradient(g, i, j + 1, k), Gradient(g, i, j + 1, k + 1),
      Gradient(g, i + 1, j, k), Gradient(g, i + 1, j, k + 1),
      Gradient(g, i + 1, j + 1, k), Gradient(g, i + 1, j + 1, k + 1));
    Vec3TrilinearInterp(c, u, v, w)
  }

  /** The fractional parts `noise` interpolates with lie in `[0, 1)`. */
  lemma FractionalPart(x: real)
    ensures 0.0 <= x - x.Floor as real < 1.0
  {
  }

  /** The weight of octave `i`: 1, halved once per octave. */
  function Weight(i: nat): (r: real)
    ensures 0.0 < r <= 1.0
    ensures 0 < i ==> r == Weight(i - 1) / 2.0
  {
    if i == 0 then 1.0 else Weight(i - 1) * 0.5
  }

  /** The point sampled at octave `i`: `p` doubled once per octave. */
  function OctavePoint(p: Vec3, i: nat): Vec3 {
    if i == 0 then p else Scale(OctavePoint(p, i - 1), 2.0)
  }

  /** The signed sum of the first `n` octaves. */
  function OctaveSum(g: Perlin, p: Vec3, n: nat): real
    requires PerlinValid(g)
  {
    if n == 0 then 0.0 else OctaveSum(g, p, n - 1) + OctaveTerm(g, p, n - 1)
  }

  /** The weighted noise of octave `i`. */
  function OctaveTerm(g: Perlin, p: Vec3, i: nat): real
    requires PerlinValid(g)
  {
    Times(Weight(i), PerlinNoise(g, OctavePoint(p, i)))
  }

  /** A product kept behind a function so that the sums of octaves can be
      reasoned about without unfolding it. */
  function Times(a: real, b: real): real {
    a * b
  }

  function Abs(x: real): (r: real)
    ensures 0.0 <= r && (r == x || r == -x)
  {
    if x < 0.0 then -x else x
  }

  /** `turb`: the absolute value of the octave sum; a non-positive depth
      runs no octave. */
  function Turb(g: Perlin, p: Vec3, depth: int): (r: real)
    requires PerlinValid(g)
    ensures 0.0 <= r
    ensures depth <= 0 ==> r == 0.0
  {
    Abs(OctaveSum(g, p, if depth < 0 then 0 else depth))
  }

  /** One more octave adds its term to the sum. */
  lemma OctaveStep(g: Perlin, p: Vec3, i: nat)
    requires PerlinValid(g)
    ensures OctaveSum(g, p, i + 1) == OctaveSum(g, p, i) + Times(Weight(i), PerlinNoise(g, OctavePoint(p, i)))
    ensures OctavePoint(p, i + 1) == Scale(OctavePoint(p, i), 2.0)
    ensures Weight(i + 1) == Weight(i) * 0.5
  {
  }

  lemma TurbOfSum(g: Perlin, p: Vec3, depth: int, n: nat)
    requires PerlinValid(g)
    requires n == (if depth < 0 then 0 else depth)
    ensures Turb(g, p, depth) == Abs(OctaveSum(g, p, n))
  {
  }

  /** `turb` as the loop the code runs, which computes `Turb`. */
  method TurbLoop(g: Perlin, p: Vec3, depth: int) returns (r: real)
    requires PerlinValid(g)
    ensures r == Turb(g, p, depth)
  {
    var accum := 0.0;
    var tempP := p;
    var weight := 1.0;
    var octaves: nat := if depth < 0 then 0 else depth;
    var i := 0;
    while i < depth
      invariant 0 <= i <= octaves
      invariant weight == Weight(i)
      invariant tempP == OctavePoint(p, i)
      invariant accum == OctaveSum(g, p, i)
    {
      OctaveStep(g, p, i);
      accum := accum + Times(weight, PerlinNoise(g, tempP));
      weight := weight * 0.5;
      tempP := Scale(tempP, 2.0);
      i := i + 1;
    }
    TurbOfSum(g, p, depth, i);
    r := Abs(accum);
  }

  // ---------------------------------------------------------------------
  // Image lookup

  /** The texel `(i, j)` for texture coordinates `(u, v)`: the truncated
      products, then the four clamps in the order the code applies them. */
  function TexelIndex(u: real, v: real, nx: int, ny: int): (ij: (int, int))
    ensures 1 <= nx ==> 0 <= ij.0 <= nx - 1
    ensures 1 <= ny ==> 0 <= ij.1 <= ny - 1
    ensures 1 <= nx && 0 <= Trunc(u * nx as real) <= nx - 1 ==> ij.0 == Trunc(u * nx as real)
    ensures 1 <= ny && 0 <= Trunc((1.0 - v) * ny as real - 0.001) <= ny - 1
      ==> ij.1 == Trunc((1.0 - v) * ny as real - 0.001)
    ensures 1 <= nx && Trunc(u * nx as real) < 0 ==> ij.0 == 0
    ensures 1 <= nx && nx - 1 < Trunc(u * nx as real) ==> ij.0 == nx - 1
    ensures 1 <= ny && Trunc((1.0 - v) * ny as real - 0.001) < 0 ==> ij.1 == 0
    ensures 1 <= ny && ny - 1 < Trunc((1.0 - v) * ny as real - 0.001) ==> ij.1 == ny - 1
  {
    var i0 := Trunc(u * nx as real);
    var j0 := Trunc((1.0 - v) * ny as real - 0.001);
    var i1 := if i0 < 0 then 0 else i0;
    var j1 := if j0 < 0 then 0 else j0;
    var i2 := if i1 > nx - 1 then nx - 1 else i1;
    var j2 := if j1 > ny - 1 then ny - 1 else j1;
    (i2, j2)
  }

  /** The byte offset `3*i + 3*nx*j + ch` of channel `ch` of texel `(i, j)`
      lies inside an image of `3*nx*ny` bytes. */
  lemma ByteOffsetInBounds(i: int, j: int, ch: int, nx: int, ny: int)
    requires 0 <= i <= nx - 1 && 0 <= j <= ny - 1 && 0 <= ch <= 2
    ensures 0 <= 3 * i + 3 * nx * j + ch < 3 * nx * ny
  {
    MulMonotone(nx, j, ny - 1);
    assert nx * (ny - 1) == nx * ny - nx;
  }

  lemma MulMonotone(a: int, b: int, c: int)
    requires 0 <= a && 0 <= b <= c
    ensures 0 <= a * b <= a * c
  {
  }

  /** The colour `data[3*i + 3*nx*j + ch] / 255.0` of each channel. */
  function TexelChannel(data: seq<Byte>, nx: int, ny: int, i: int, j: int, ch: int): (c: real)
    requires 1 <= nx && 1 <= ny && 3 * nx * ny <= |data|
    requires 0 <= i <= nx - 1 && 0 <= j <= ny - 1 && 0 <= ch <= 2
    ensures 0.0 <= c <= 1.0
  {
    ByteOffsetInBounds(i, j, ch, nx, ny);
    data[3 * i + 3 * nx * j + ch] as real / 255.0
  }

  /** `image_texture::value`: cyan for missing data, otherwise the colour of
      the clamped texel. */
  function ImageValue(data: Option<seq<Byte>>, nx: int, ny: int, u: real, v: real): (c: Vec3)
    requires data.Some? ==> 1 <= nx && 1 <= ny && 3 * nx * ny <= |data.value|
    ensures data.None? ==> c == Vec3(0.0, 1.0, 1.0)
    ensures 0.0 <= c.x <= 1.0 && 0.0 <= c.y <= 1.0 && 0.0 <= c.z <= 1.0
  {
    if data.None? then Vec3(0.0, 1.0, 1.0)
    else
      var ij := TexelIndex(u, v, nx, ny);
      Vec3(TexelChannel(data.value, nx, ny, ij.0, ij.1, 0),
           TexelChannel(data.value, nx, ny, ij.0, ij.1, 1),
           TexelChannel(data.value, nx, ny, ij.0, ij.1, 2))
  }

  // ---------------------------------------------------------------------
  // Texture values

  /** The product of sines `checker_texture` tests the sign of. */
  function CheckerSine(p: Vec3, m: Maths): real {
    m.sin(10.0 * p.x) * m.sin(10.0 * p.y) * m.sin(10.0 * p.z)
  }

  /** `noise_texture::value`: grey of intensity `0.7 (1 + sin(scale z + 10
      turb(p)))`. */
  function NoiseValue(g: Perlin, scale: real, p: Vec3, m: Maths): (c: Vec3)
    requires PerlinValid(g)
    ensures c.x == c.y == c.z
  {
    Scale(Scale(Vec3(1.0, 1.0, 1.0), 1.0 + m.sin(scale * p.z + 10.0 * Turb(g, p, 7))), 0.7)
  }

  /** `texture::value` for every kind of texture. */
  function Value(t: Texture, u: real, v: real, p: Vec3, m: Maths): (c: Vec3)
    requires Valid(t)
    ensures t.Checker? && CheckerSine(p, m) < 0.0 ==> c == Value(t.odd, u, v, p, m)
    ensures t.Checker? && 0.0 <= CheckerSine(p, m) ==> c == Value(t.even, u, v, p, m)
    ensures t.Noise? ==> c.x == c.y == c.z
    ensures t.Image? ==> 0.0 <= c.x <= 1.0 && 0.0 <= c.y <= 1.0 && 0.0 <= c.z <= 1.0
    ensures t.Image? && t.data.None? ==> c == Vec3(0.0, 1.0, 1.0)
  {
    match t
    case Constant(color) => color
    case Checker(e, o) => if CheckerSine(p, m) < 0.0 then Value(o, u, v, p, m) else Value(e, u, v, p, m)
    case Noise(g, scale) => NoiseValue(g, scale, p, m)
    case Image(data, nx, ny) => ImageValue(data, nx, ny, u, v)
  }

  /** A constant texture ignores the texture coordinates and the point. */
  lemma ConstantIgnoresPoint(color: Vec3, u0: real, v0: real, p0: Vec3, u1: real, v1: real, p1: Vec3, m: Maths)
    ensures Value(Constant(color), u0, v0, p0, m) == Value(Constant(color), u1, v1, p1, m) == color
  {
  }
}
