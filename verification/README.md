# A verified model of a small C++ path tracer

This project models the geometric and combinatorial core of a path tracer written in C++ after the two "Ray Tracing in One Weekend" books. The core covers:

- 3-vectors and rays;
- axis-aligned bounding boxes and their slab test;
- the objects a ray can hit (spheres, moving spheres, axis-aligned rectangles, boxes, lists, translated and rotated instances, nodes of a bounding-volume hierarchy) and their bounding boxes;
- the construction of the hierarchy;
- the materials and their scatter rules;
- the textures, including the Perlin permutation tables and the image texel lookup;
- the recursive `ray_color` integrators of both books.

Every `double` is a Dafny `real`. The C library's `sqrt`, `sin`, `cos`, `atan2` and `asin` are fields of an oracle value, `Tool.Maths`. Random draws are parameters:

- `rng(depth)` for the draws of one scatter;
- `axisDraw(start, end)` for the axis a hierarchy node sorts on;
- a sequence of draws for `permute`.

The ray-parameter bounds of a query are extended doubles, `Extended.Ext`, with NaN and both infinities. The integrator queries up to `infinity`, and the slab test divides by direction components that may be zero.

A query `hit(r, t_min, t_max, rec)` writes through its record argument. In the model, `Hit` receives the record's current value and returns the value it leaves behind, together with the result. `bounding_box` likewise receives the current value of its output box. `hittable_list` queries its members with a default-constructed record of its own; its initial value is the parameter `blank`.

Modules, one per file:

| file | module | source |
|---|---|---|
| tool.dfy | `Tool` | scalar helpers, `vec3`, `ray`, `write_color` |
| extended.dfy | `Extended` | IEEE comparisons, `ffmin`/`ffmax`, division on doubles |
| aabb.dfy | `Aabbs` | `aabb`, `surrounding_box`, `aabb::hit` |
| texture.dfy | `Textures` | textures, `perlin` |
| material.dfy | `Materials` | `hit_record`, `set_face_normal`, the materials |
| bvh.dfy | `Bvh` | the recursive shape of the `bvh_node` constructor over any object type |
| rotation.dfy | `Rotation` | the turns of `rotate_y` |
| hittable.dfy | `Hittables` | all hittables of the second book, `constant_medium` |
| integrator.dfy | `Integrator` | the second book's `ray_color` |
| weekend.dfy | `Weekend` | the first book's hittables, materials, `hit_sphere` and `ray_color` |

## Model

| member | source | states |
|---|---|---|
| Tool.DegreesToRadians | raytracingInOneWeekend/constantAndTool.h:25-30 | 180 degrees is `pi`, 0 is 0, and positive angles stay positive |
| Tool.DegreesToRadiansLinear | raytracingInOneWeekend/constantAndTool.h:27-30 | the conversion is additive and homogeneous |
| Tool.FMin | raytracingInOneWeekend/constantAndTool.h:32-35 | the result is one of the two arguments and at most both |
| Tool.FMax | raytracingInOneWeekend/constantAndTool.h:37-40 | the result is one of the two arguments and at least both |
| Tool.Clamp | raytracingInOneWeekend/constantAndTool.h:52-57 | the result lies in `[min, max]` when `min <= max`; a value in range is returned unchanged; below `min` gives `min`; above `max` gives `max` |
| Tool.QuotientInverse | raytracingInOneWeekend/constantAndTool.h:180-183 | away from zero, the quotient times the divisor is the dividend |
| Tool.Trunc | raytracingInOneWeekend/constantAndTool.h:136-138 | `static_cast<int>` truncates toward zero: the integer is within one of `x`, on the side of zero |
| Tool.Neg | raytracingInOneWeekend/constantAndTool.h:72 | unary minus negates every component |
| Tool.Add | raytracingInOneWeekend/constantAndTool.h:160-163 | addition is component-wise |
| Tool.Sub | raytracingInOneWeekend/constantAndTool.h:165-168 | subtraction is component-wise |
| Tool.Mul | raytracingInOneWeekend/constantAndTool.h:170-173 | the vector product is component-wise |
| Tool.Scale | raytracingInOneWeekend/constantAndTool.h:175-178 | scaling multiplies every component |
| Tool.DivScalar | raytracingInOneWeekend/constantAndTool.h:180-183 | for a non-zero `t`, dividing by `t` and scaling back by `t` gives the vector back; a zero `t` gives the zero vector |
| Tool.Cross | raytracingInOneWeekend/constantAndTool.h:194-202 | the cross product is orthogonal to both arguments |
| Tool.LengthSquared | raytracingInOneWeekend/constantAndTool.h:114-117 | the squared length is never negative |
| Tool.DotProperties | raytracingInOneWeekend/constantAndTool.h:186-191 | `dot` is symmetric, negating an argument negates it, and it is linear in its first argument |
| Tool.Reflect | raytracingInOneWeekend/constantAndTool.h:246-249 | the normal component of the reflection is `v.n - 2 (v.n)(n.n)` |
| Tool.ReflectUnitNormal | raytracingInOneWeekend/constantAndTool.h:246-249 | for a unit normal, reflection negates the normal component and is its own inverse |
| Tool.At | raytracingInOneWeekend/constantAndTool.h:290-293 | `at(0)` is the origin, and `at(t) - origin` is `t` times the direction |
| Tool.AtAffine | raytracingInOneWeekend/constantAndTool.h:290-293 | the difference of two points on a ray is the direction scaled by the parameter difference |
| Tool.Channel | raytracingInOneWeekend/constantAndTool.h:136-138 | each printed channel lies in `[0, 254]`; it is `floor(255 c)` for `c` in `[0, 0.999]`, 0 below and 254 above |
| Tool.WriteColor | raytracingInOneWeekend/constantAndTool.h:126-139 | for a non-negative pixel sum over at least one sample, all three printed integers lie in `[0, 254]` |
| Extended.OrderProperties | ray_tracing/aabb.cpp:28-31 | without NaN, `<` on doubles is a strict total order and `<=` is its reflexive closure |
| Extended.EMin | raytracingInOneWeekend/constantAndTool.h:32-35 | `ffmin` on doubles returns an argument, at most both when neither is NaN, and `b` when either is NaN |
| Extended.EMax | raytracingInOneWeekend/constantAndTool.h:37-40 | `ffmax` on doubles returns an argument, at least both when neither is NaN, and `b` when either is NaN |
| Extended.EDiv | ray_tracing/aabb.cpp:23-26 | IEEE division: finite with quotient times divisor equal to the dividend for a non-zero divisor; NaN for 0/0; an infinity otherwise |
| Aabbs.ConstructorDoesNotValidate | ray_tracing/aabb.h:15 | the constructor accepts corners the wrong way round |
| Aabbs.SurroundingBox | ray_tracing/aabb.cpp:5-14 | the union encloses both boxes; each corner coordinate comes from one of the inputs; it is well-formed when both inputs are |
| Aabbs.SurroundingBoxAlgebra | ray_tracing/aabb.cpp:5-14 | the union is commutative, and a box united with itself is itself |
| Aabbs.SurroundingBoxLeast | ray_tracing/aabb.cpp:5-14 | any box enclosing both inputs encloses their union |
| Aabbs.EnclosesTransitive | ray_tracing/aabb.cpp:5-14 | enclosure composes along chains of unions |
| Aabbs.Narrow | ray_tracing/aabb.cpp:23-30 | one slab iteration never lowers `tmin` nor raises `tmax` |
| Aabbs.HitBox | ray_tracing/aabb.cpp:16-37 | the loop the code runs returns the functional slab test, and on success leaves a non-empty interval |
| Aabbs.FinalSpanNarrows | ray_tracing/aabb.cpp:28-30 | over the three axes, `tmin` never decreases and `tmax` never increases |
| Aabbs.HitFromSpans | ray_tracing/aabb.cpp:31-34 | the test succeeds exactly when no axis empties the running interval |
| Aabbs.HitBoxSound | ray_tracing/aabb.cpp:18-36 | with non-zero direction components, success leaves a finite non-empty open interval, and every parameter in it puts the ray point inside the box |
| Textures.IotaCounts | ray_tracing/texture.cpp:21-24 | the initial table `0..n-1` holds each value of the range exactly once and nothing else |
| Textures.Permute | ray_tracing/texture.cpp:7-16 | for any draws in `[0, i]`, the shuffle permutes `p[0..n)`, leaves everything from `n` on alone, and equals the swaps applied from `i = n-1` down to 1 (`PermuteSpec`) |
| Textures.PermuteIdentityDraws | ray_tracing/texture.cpp:7-16 | when every draw is its own index, the swaps move nothing, so `Permute` returns its input |
| Textures.GeneratePerm | ray_tracing/texture.cpp:18-27 | the table holds each index `0..255` exactly once, so every entry is an index into a table of 256 |
| Textures.MakePerlin | ray_tracing/texture.cpp:29-40 | the generator holds 256 unit vectors of the draws and three valid permutation tables |
| Textures.Low8 | ray_tracing/texture.cpp:68 | `x & 255` lies in `[0, 255]`, is `x` for `x` in that range, and differs from `x` by a multiple of 256 |
| Textures.Low8Periodic | ray_tracing/texture.cpp:68 | `& 255` repeats every 256 steps |
| Textures.XorBound | ray_tracing/texture.cpp:68 | exclusive or of two `k`-bit values is a `k`-bit value |
| Textures.XorSelf | ray_tracing/texture.cpp:68 | a value exclusive-ored with itself is 0 |
| Textures.XorCommutes | ray_tracing/texture.cpp:68 | exclusive or is commutative |
| Textures.Xor3 | ray_tracing/texture.cpp:68 | the three-way `^` of table entries stays in `[0, 255]` |
| Textures.HashIndex | ray_tracing/texture.cpp:58-71 | the hashed `ran_vec3` index is within the gradient table |
| Textures.HashIndexPeriodic | ray_tracing/texture.cpp:68 | the lattice hash repeats every 256 steps along each axis |
| Textures.Smoothstep | ray_tracing/texture.h:128-130 | the fade curve maps 0 to 0 and 1 to 1 |
| Textures.TrilinearInterpCorners | ray_tracing/texture.h:126-139 | the interpolation gives `c[0][0][0]` at `(0,0,0)`, `c[1][1][1]` at `(1,1,1)`, and `k` when all corners are `k` |
| Textures.FractionalPart | ray_tracing/texture.cpp:45-47 | the fractional parts `noise` interpolates with lie in `[0, 1)` |
| Textures.Weight | ray_tracing/texture.cpp:80-85 | the octave weight lies in `(0, 1]` and halves with each octave |
| Textures.Turb | ray_tracing/texture.cpp:76-89 | turbulence is never negative, and a non-positive depth gives 0 |
| Textures.OctaveStep | ray_tracing/texture.cpp:82-87 | one more octave adds its weighted noise, doubles the point and halves the weight |
| Textures.TurbLoop | ray_tracing/texture.cpp:76-89 | the loop the code runs computes `Turb` |
| Textures.TexelIndex | ray_tracing/texture.cpp:99-109 | the clamped indices satisfy `0 <= i <= nx-1` and `0 <= j <= ny-1`; a truncated index already in range is kept, one below is raised to 0, and one above is lowered to `nx-1`; likewise `j` is raised to 0 or lowered to `ny-1` |
| Textures.ByteOffsetInBounds | ray_tracing/texture.cpp:111-113 | the byte offset `3i + 3 nx j + c` lies in `[0, 3 nx ny)` |
| Textures.TexelChannel | ray_tracing/texture.cpp:111-113 | each channel value lies in `[0, 1]` |
| Textures.ImageValue | ray_tracing/texture.cpp:91-116 | missing data gives `(0, 1, 1)`, and every channel lies in `[0, 1]` |
| Textures.NoiseValue | ray_tracing/texture.h:99-102 | the noise colour has three equal components |
| Textures.Value | ray_tracing/texture.h:19-47 | the checker gives the odd value exactly when the sine product is negative and the even value otherwise; noise is grey; images stay in `[0, 1]` and missing data gives cyan |
| Textures.ConstantIgnoresPoint | ray_tracing/texture.h:19-22 | a constant texture returns its colour whatever `u`, `v` and `p` are |
| Materials.Face | ray_tracing/hittable.h:22-26 | the front is hit exactly when the ray opposes the outward normal; the normal is the outward normal or its negation, and always opposes the ray |
| Materials.SetFaceNormal | ray_tracing/hittable.h:22-26 | only `front_face` and `normal` change; `front_face` holds exactly when the ray opposes the outward normal; the stored normal opposes the ray |
| Materials.MakeMetal | ray_tracing/material.h:44 | the fuzz is `f` below 1 and 1 otherwise |
| Materials.Emitted | ray_tracing/material.h:15-18 | every material but a light emits black; a light emits its texture's value |
| Materials.MetalRay | ray_tracing/material.h:48-49 | the metal ray leaves the hit point with the default time; without fuzz it is the reflection of the unit direction |
| Materials.EtaRatio | ray_tracing/material.cpp:11-19 | entering through the front the ratio is the reciprocal of the index; leaving it is the index |
| Materials.CosTheta | ray_tracing/material.cpp:23 | the cosine is capped at 1, and is otherwise `dot(-unit_direction, normal)` |
| Materials.DielectricRay | ray_tracing/material.cpp:21-42 | every path leaves the hit point with the default time, in the reflected or the refracted direction |
| Materials.TotalInternalReflection | ray_tracing/material.cpp:25-30 | under total internal reflection the ray is reflected, whatever the uniform draw |
| Materials.Scatter | ray_tracing/material.h:27-104 | per material: lambertian and isotropic always scatter from `rec.p` with the texture value and the incoming time; metal has its albedo, the default time, and succeeds exactly when the ray leaves above the surface; dielectric always scatters white from `rec.p`; a light fails and writes nothing |
| Materials.ScatterSucceeds | ray_tracing/material.cpp:7-43 | scattering fails exactly for a light, or for a metal whose ray leaves below the surface |
| Materials.ScatterFromHitPoint | ray_tracing/material.cpp:28-41 | every successful scatter leaves from the hit point, and does not depend on the caller's output variables |
| Materials.IsotropicAlwaysScatters | ray_tracing/constant_medium.h:23 | the medium's phase function always scatters |
| Bvh.Axis | hittable.cpp:131-132 | the draw selects the x, y or z comparator, and any other value selects z |
| Bvh.Insert | hittable.cpp:155 | inserting into an ordered sequence keeps it ordered and adds exactly the new element |
| Bvh.Sort | hittable.cpp:155 | the sort returns an ordered permutation of its input |
| Bvh.SortRange | hittable.cpp:130-155 | sorting `[start, end)` of a copy permutes and orders that range and leaves the rest of the copy equal to the input |
| Bvh.OrderedPair | hittable.cpp:140-152 | a pair node holds both objects, and the first goes left exactly when one call of the comparator says it is less |
| Bvh.OrderedPairByKey | hittable.cpp:140-152 | when the comparator is the strict order of a key, the pair is ordered by that key |
| Bvh.Build | hittable.cpp:128-159 | the hierarchy holds exactly the multiset `objects[start, end)`; one object gives a leaf; two give the pair the comparator of the drawn axis orders, key-ordered when that comparator agrees with the key; longer ranges split at `start + span/2` into two non-empty, strictly shorter halves with the smaller keys on the left |
| Bvh.SplitHalves | hittable.cpp:155-158 | the two halves of the sorted range hold its objects between them, with the smaller keys left |
| Bvh.SortedHalves | hittable.cpp:155-156 | in an ordered sequence, everything before a cut has a key no greater than everything after it |
| Rotation.Turn | hittable.cpp:289-293 | turning into the child's frame keeps the y component |
| Rotation.TurnBack | hittable.cpp:266-269 | turning out of the child's frame keeps the y component |
| Rotation.TurnBackUndoesTurn | hittable.cpp:266-293 | for a genuine angle, the constructor's turn undoes the query's and the other way round |
| Rotation.AsWrittenPoint | hittable.cpp:304-305 | the stored point has the turned x, the turned z in the y slot, and the child's z |
| Rotation.AsWrittenNormal | hittable.cpp:306-307 | the normal's first component ends up holding the turned z; the other two are the child's |
| Rotation.AsWrittenMovesAtZeroAngle | hittable.cpp:304-307 | even for the zero turn, the stored point and normal differ from the child's |
| Hittables.MovingCenterEnds | ray_tracing/hittable.h:74-77 | the centre is `center0` at `time0` and `center1` at `time1` when the times differ |
| Hittables.SphereQuadratic | hittable.cpp:8-12 | the quadratic's leading coefficient is never negative |
| Hittables.SphereRoot | hittable.cpp:13-41 | no root unless the discriminant is positive; the accepted root lies strictly inside the bounds; the nearer root is chosen whenever it is inside; no root means neither is inside |
| Hittables.SphereRecord | hittable.cpp:21-26 | an accepting sphere writes `t`, the point at `t`, the material, and a normal opposing the ray; the moving sphere leaves `u`, `v` alone |
| Hittables.SphereHit | hittable.cpp:6-84 | a miss leaves the record alone; a hit lies strictly inside the bounds, at the point on the ray, with the sphere's material |
| Hittables.RectNormal | hittable.cpp:190 | the outward normal is the unit vector of the fixed axis (likewise lines 214 and 238) |
| Hittables.RectUv | hittable.cpp:187-188 | for a non-degenerate extent, a point inside it has `u, v` in `[0, 1]` (likewise lines 211-212 and 235-236) |
| Hittables.RectHit | hittable.cpp:172-243 | a miss leaves the record alone; a hit has `t` in the closed range `[t_min, t_max]`, the point on the ray inside the extent, the rectangle's material, a normal opposing the ray and the extent-relative `u, v` |
| Hittables.Hit | hittable.cpp:6-312 | for every object: a miss leaves the record alone; an accepted `t` lies within the bounds; the stored material is well-formed, and not a light in a dark world |
| Hittables.NodeHit | ray_tracing/hittable.h:131-142 | the node query keeps the same five guarantees as `Hit` |
| Hittables.ListFold | hittable.cpp:86-103 | the loop keeps the caller's record equal to the last accepted hit; `closest` never increases; once hit it stays hit; a hit comes from some member |
| Hittables.HitIgnoresRecord | hittable.cpp:6-312 | whether an object is hit, and at which `t`, point and material, does not depend on the record passed in |
| Hittables.FoldFindsHit | hittable.cpp:92-99 | a member that hits under the caller's `t_max` makes the loop hit |
| Hittables.ListHitIff | hittable.cpp:86-103 | the list hits exactly when some member, asked alone with the same bounds, hits |
| Hittables.BvhHit | ray_tracing/hittable.h:131-142 | a box miss is a miss that leaves the record alone; past the box, a left hit makes the node hit no further away; without it the node is the right child |
| Hittables.TranslateHit | ray_tracing/hittable.h:270-282 | the child is asked with the moved ray; the node hits exactly when the child does, with the child's `t` and material and the point moved back by the offset |
| Hittables.MovedRayPoint | ray_tracing/hittable.h:272-278 | the point of the moved ray, moved back, is the original ray's point at the same `t` |
| Hittables.RotateYHit | hittable.cpp:283-312 | the child is asked with the turned ray; the node hits exactly when the child does, with the child's `t` and material and the point as the code assigns it |
| Hittables.SphereBox | ray_tracing/hittable.h:44-48 | the sphere box is `center +- (r, r, r)`, well-formed and holding the centre when `r >= 0` |
| Hittables.RectBox | ray_tracing/hittable.h:166-211 | the rectangle box is the extent on the free axes, padded by `0.0001` either side of `k` on the fixed axis |
| Hittables.BoundingBox | ray_tracing/hittable.h:44-314 | every object but a list, a translation or a rotation has a box; a list with a box is non-empty; a rotation reports its stored flag and box |
| Hittables.MovingSphereBox | ray_tracing/hittable.h:66-72 | a moving sphere always has a box, and it is the least box enclosing the sphere's boxes at `t0` and at `t1` |
| Hittables.BoxIgnoresOutput | hittable.cpp:105-125 | whether an object has a box, and which, does not depend on the caller's box |
| Hittables.ListBoxEncloses | hittable.cpp:105-125 | a list has a box exactly when it is non-empty and every member has one; that box encloses every member's box |
| Hittables.BoxFoldOk | hittable.cpp:114-122 | the loop succeeds exactly when every remaining member has a box |
| Hittables.BoxFoldHolds | hittable.cpp:114-122 | the box the loop leaves encloses every member's box |
| Hittables.TranslateBox | ray_tracing/hittable.h:284-294 | the translated box exists exactly when the child's does, and holds every point of the child's box moved by the offset |
| Hittables.RectHitPoint | hittable.cpp:172-195 | the reported point lies in the rectangle's plane, inside its extent |
| Hittables.RectHitInBox | hittable.cpp:172-243 | every reported point lies in the rectangle's bounding box |
| Hittables.MakeBox | ray_tracing/hittable.h:239-253 | the box keeps its two corners and six faces, a pair at the two corners on each axis, each spanning the corners on the other two axes |
| Hittables.BoxHitInside | ray_tracing/hittable.h:227-253 | the box's bounding box is exactly its two corners, and every point it reports lies between them |
| Hittables.TurnedCorners | hittable.cpp:256-269 | the eight turned corners keep the child box's y coordinates |
| Hittables.Extend | hittable.cpp:271-275 | widening a box with `ffmin`/`ffmax` takes in the corner and keeps the old box |
| Hittables.CornerBox | hittable.cpp:253-280 | the folded box holds every turned corner, and each of its coordinates comes from some corner |
| Hittables.MakeRotateY | hittable.cpp:246-281 | the sine and cosine of the angle, the child's box flag over `[0, 1]`, a box holding all eight turned corners, and the child's y extent |
| Hittables.CornerBoxKeepsY | hittable.cpp:253-280 | the rotated box has the same y range as the child's box |
| Hittables.BoxCompare | ray_tracing/hittable.h:319-330 | with a first object that has a box, the comparison is the order of the two minimum corners on the axis; without one, the short-circuit `or` of its guard leaves the second box at the default and the first corner is compared with the origin |
| Hittables.BoxCompareNotIrreflexive | ray_tracing/hittable.h:319-330 | a box-less list below the origin compares less than itself, so the comparator is not a strict weak order |
| Hittables.NodeBox | hittable.cpp:161-167 | the node box encloses the left child's box, and the right child's only when the left child has one: the short-circuit `or` of the guard otherwise leaves the right box at the default |
| Hittables.NodeBoxDropsRight | hittable.cpp:161-167 | a box-less left child below the origin keeps a right sphere far above it out of the node's box |
| Hittables.FromTree | hittable.cpp:136-167 | the constructor makes a node at every level |
| Hittables.BoxLess | ray_tracing/hittable.h:332-345 | the comparator of each axis is `box_compare` on that axis |
| Hittables.MakeBvh | hittable.cpp:128-169 | the constructor over a non-empty range gives a node |
| Hittables.MakeBvhPairFollowsBoxCompare | hittable.cpp:138-152 | over a box-less list above the origin and a sphere farther out, the pair puts the sphere left, as `box_compare` says, although the list's key is the smaller |
| Hittables.FromTreeEncloses | hittable.cpp:161-167 | when every object has a box, every node's box encloses the box of every object below it |
| Hittables.MakeBvhEncloses | hittable.cpp:128-169 | when every object of the range has a box, the root box encloses the box of each |
| Hittables.MakeBvhDropsObject | hittable.cpp:128-169 | over a box-less list below the origin and a sphere, `box_compare` puts the list on the left and the root box leaves the sphere's box out |
| Hittables.FromTreeValid | hittable.cpp:128-169 | a hierarchy over well-formed objects is well-formed |
| Hittables.MakeMedium | ray_tracing/constant_medium.h:20-24 | the medium keeps its boundary and an isotropic phase function; `neg_inv_density * d == -1` for non-zero `d`; a zero `d` gives negative infinity |
| Hittables.MediumDensityNegative | ray_tracing/constant_medium.h:20-21 | a positive density gives a negative `neg_inv_density` |
| Hittables.MediumBoundingBox | ray_tracing/constant_medium.h:27-30 | the medium's box is its boundary's, flag and box |
| Integrator.RayColor | rayTracingTheNextWeek/main.cpp:217-229 | out of depth the path is black; a ray that misses the world under `0.001` and `infinity` sees the background |
| Integrator.RayColorOnHit | rayTracingTheNextWeek/main.cpp:226-238 | a hit lies beyond `0.001`; a light gives exactly its emission; another absorbing material gives black; a scattering one gives the emission plus the attenuated colour one level deeper |
| Integrator.SingleBounce | rayTracingTheNextWeek/main.cpp:222-238 | with one level left, a hit shows only its emission |
| Integrator.DarkWorldIsBlack | rayTracingTheNextWeek/main.cpp:217-240 | a world without lights, against a black background, is black at every depth |
| Weekend.MakeMetal | raytracingInOneWeekend/material.h:42 | the fuzz is at most 1, and `f` when `f < 1` |
| Weekend.SphereRecord | raytracingInOneWeekend/hittable.h:65-69 | an accepting sphere writes `t`, the point at `t`, the material, and a normal opposing the ray |
| Weekend.Hit | raytracingInOneWeekend/hittable.h:50-134 | a miss leaves the record alone; an accepted `t` lies strictly inside the bounds |
| Weekend.ListFold | raytracingInOneWeekend/hittable.h:114-134 | each accepted hit lowers `closest` strictly; the caller's record is the last accepted hit; a hit comes from some member |
| Weekend.HitIgnoresRecord | raytracingInOneWeekend/hittable.h:50-134 | hit or miss, and the whole record on a hit, do not depend on the record passed in |
| Weekend.ListHitIff | raytracingInOneWeekend/hittable.h:114-134 | the list is false exactly when every member misses under the caller's bounds |
| Weekend.SphereNarrowed | raytracingInOneWeekend/hittable.h:57-85 | lowering the far bound to a value still above the accepted root leaves the sphere's answer unchanged |
| Weekend.HitNarrowed | raytracingInOneWeekend/hittable.h:114-134 | lowering the far bound to a value still above the accepted `t` keeps a hit, at that `t` or nearer, for a sphere or a nested list |
| Weekend.FoldNarrowed | raytracingInOneWeekend/hittable.h:120-131 | two runs of the list loop keep the order of their `closest_so_far` to the end |
| Weekend.ListClosest | raytracingInOneWeekend/hittable.h:124-130 | the reported `t` is no greater than the `t` any member, a sphere or a nested list, reports alone: the nearest hit wins |
| Weekend.HitSphere | raytracingInOneWeekend/main.cpp:82-97 | a negative discriminant gives `-1`; otherwise the nearer root |
| Weekend.HitSphereAgrees | raytracingInOneWeekend/main.cpp:82-97 | when the nearer root is inside the bounds, `hit_sphere` gives the `t` the sphere query accepts |
| Weekend.Scatter | raytracingInOneWeekend/material.h:26-99 | lambertian always scatters from `rec.p` with its albedo; metal has its albedo and succeeds exactly when the ray leaves above the surface; dielectric always scatters white from `rec.p` |
| Weekend.Blend | raytracingInOneWeekend/main.cpp:79 | the gradient is white at 0 and sky blue at 1, and stays between them for `t` in `[0, 1]` |
| Weekend.RayColor | raytracingInOneWeekend/main.cpp:56-80 | out of depth the path is red; a ray that misses sees the sky gradient |
| Weekend.RayColorOnHit | raytracingInOneWeekend/main.cpp:65-74 | only a metal can absorb, giving black; a scattered ray gives the attenuated colour one level deeper, and the attenuated red with one level left |

## Left out

- Scene builders, the camera, the pixel loops, the image header and all stream output are not modelled. They only instantiate objects or do I/O. Of `write_color`, only the channel arithmetic is modelled.
- Loading images with `stbi_load`, destructors and raw ownership are not modelled. These are foreign calls and memory management.
- Random sampling (`random_double`, `random_int`, the rejection loops of `random_in_unit_sphere`, `random_unit_vector`, `vec3::random`) is replaced by the draws handed in as parameters.
- Floating point is not modelled: rounding, signed zero, and infinities or NaN outside the ray-parameter bounds.
- Integer width is not modelled: the conversions to `int` (`floor` in `perlin::noise`, the `static_cast<int>` of `write_color` and `image_texture::value`) and the sums `i + di` are unbounded integers, assumed to stay within `int`'s range, where the code's behaviour is undefined otherwise.
- `Tool.WriteColor`: the `[0, 254]` bound is claimed only for a non-negative sum over at least one sample. For a negative component, `sqrt` gives NaN, and zero samples give `1.0 / 0`; `clamp` passes NaN on and its cast to `int` is undefined. The model's oracle `sqrt` and `Tool.Quotient` give a value in range there, which the code does not promise.
- `Tool.Quotient`: a zero divisor gives 0 instead of an IEEE infinity or NaN. This affects `unit_vector` of a zero vector, a zero radius, a moving sphere with `time0 == time1`, a degenerate rectangle extent, a zero refractive index, `schlick`, and the first book's `hit_sphere` for a zero direction, where the code's `(-0 - 0) / 0` is NaN and `Weekend.HitSphere` gives 0.
- `Hittables.RectHit`: when the ray is parallel to the plane, IEEE division gives a non-finite `t`, and the model treats that as a miss. The code compares the infinity or NaN against the bounds; in particular a ray lying in the plane gets `t = 0 / 0`, a NaN that passes every comparison of the rectangle's `hit`, and the code reports a hit at that `t` where the model reports a miss.
- `Hittables.MovingCenterEnds`: `center(time1) == center1` is not claimed when `time0 == time1`, since the code divides by zero there.
- `sqrt`, `sin`, `cos`, `atan2` and `asin` are uninterpreted oracle functions. Only their structural use is modelled, not their numeric meaning.
- `get_sphere_uv`, `refract`, `schlick`, the gradient arithmetic of `vec3_trilinear_interp` and the `sin` of `noise_texture` are transcribed but carry no contract. Their meaning is numeric.
- `Materials.DielectricRay`: the contract says the ray is the reflection or the refraction. It does not say which the Schlick probability picks, since that is numeric.
- `constant_medium::hit` is out of scope: it depends on a random logarithmic draw. The constructor and `bounding_box` are modelled. A zero density, which the code divides by, becomes negative infinity.
- The two-argument `ray` constructor of the second book is in `ray_tracing/constantAndTool.h`, which is not part of this model. It is taken to set the time to 0 (`Tool.DefaultTime`). The first book's rays carry no time and are given time 0.
- `Bvh.Sort`: `std::sort` leaves equal keys in an unspecified order. The model uses a stable insertion sort, which is one of the orders the code may produce. Only permutation and order are claimed.
- `Bvh.Build`: a range of zero objects makes the constructor recurse forever. It is excluded by the precondition `start < end`.
- `box_compare` and the `bvh_node` constructor only log a missing box to `cerr`; the logging is not modelled. What their `||` leaves in the boxes is (`Hittables.BoxCompare`, `Hittables.NodeBox`).
- `Hittables.MakeBvh`: the two-object case calls `box_compare` once, as the code does (`Hittables.BoxLess`), but the sort of a longer range orders by `Hittables.CompareKey`. That is `box_compare`'s order whenever every object has a box. With a box-less object, `box_compare` is not a strict weak order (`Hittables.BoxCompareNotIrreflexive`), `std::sort`'s behaviour is undefined, and the model sorts by the key.
- `Hittables.FromTreeEncloses`: enclosure is promised only when every object has a box. Otherwise a box-less left child keeps its sibling's box out (`Hittables.NodeBoxDropsRight`).
- `Hittables.MakeBvhEncloses`: likewise promised only when every object of the range has a box; `Hittables.MakeBvhDropsObject` shows a root box that misses an object.
- `Hittables.CornerBox`: the constructor folds the eight corners from an infinite box. The model folds from the first corner, which gives the same box for finite corners.
- `Hittables.RotateYHit`: `rotate_y::hit` stores the turned z in the point's y slot and assigns the normal's x twice. The model encodes these assignments as written (`Rotation.AsWrittenPoint`, `Rotation.AsWrittenNormal`) and claims no inversion of the turn.
- `Hittables.Hit`: the bounds guarantee is the closed range for every object. The spheres give the open range (`Hittables.SphereHit`), and the rectangles accept the closed one.
- The `perlin` member `ranfloat` is never initialised by the code and is not modelled.
- `+=`, `-=`, `*=` and `/=` update a vector in place. Values are immutable here, so each becomes the corresponding binary operation; returning the same object is not modelled.
