# A verified model of the cobra path tracer's geometric core

This project models the decision logic of the cobra path tracer in Dafny. It covers:

- the vector kernel, rays and the orthonormal basis;
- intervals over the extended reals, and axis-aligned bounding boxes with their slab ray test;
- the bounding volume hierarchy (BVH): its recursive in-place build and its closest-hit traversal;
- the sphere and the quad (including the six-quad cube), with the front-face rule of the hit record;
- the four materials and the checker texture;
- the scene list, the image buffer and the plain-text PPM (P3) writer.

Doubles are reals and infinite bounds are an extended real. A square root, a power or a random draw is never computed. Wherever the source calls one, its value is a parameter of the model, constrained where needed: `IsSqrt(x, r)` says `r` is the non-negative root of `x`.

Each file is one module:

| file | module | models |
|---|---|---|
| `wrappers.dfy` | `Wrappers` | `Option`, for a `hit` that returns `false` |
| `vec3.dfy` | `Vectors` | `src/core/vec3.cpp` |
| `interval.dfy` | `Intervals` | `src/core/interval.h` |
| `ray.dfy` | `Rays` | `src/core/ray.cpp` |
| `aabb.dfy` | `Boxes` | `src/core/aabb.h` |
| `hit_record.dfy` | `HitRecords` | `src/core/hit_record.h` |
| `scene.dfy` | `Scenes` | `src/scene/scene.cpp` |
| `sphere.dfy` | `Spheres` | `src/geometry/sphere.cpp` |
| `quad.dfy` | `Quads` | `src/geometry/quad.h` (quad and cube) |
| `bvh.dfy` | `Bvh` | `src/core/bvh_node.h`, over object indices |
| `hittable.dfy` | `Hittables` | the virtual `hit`/`bounding_box` dispatch that joins the BVH to spheres and quads |
| `onb.dfy` | `Bases` | `src/core/onb.h` |
| `texture.dfy` | `Textures` | `src/core/texture.h` |
| `scatter_record.dfy` | `ScatterRecords` | the fields of `scatter_record` the materials assign |
| `metal.dfy`, `dielectric.dfy`, `lambertian.dfy`, `light.dfy` | `Metals`, `Dielectrics`, `Lambertians`, `Lights` | the materials |
| `image.dfy` | `Images` | `src/image/image.cpp` |
| `ppm_writer.dfy` | `PpmWriter` | `src/image/ppm_writer.cpp` |

Code that changes state in place is modelled with classes. This covers:

- `Image` (an `array`) and `Scene` (a `seq` that `AddHittable` appends to);
- the `std::vector` the BVH build sorts (`ObjectList`);
- `HitRecord`, `ScatterRecord` and `RayObject`;
- the `+=`, `*=` and `/=` of `MutableVec3`.

Code that works by loops is modelled with methods whose loops carry invariants: the slab test (`Boxes.Hit`) and the writer's nested loops (`PpmWriter.Write`). Each such method is proved against a function that states what it computes. Pure code is functions and lemmas.

Three points where the code is easy to misread:

- `src/image/ppm_writer.h:44-48` declares `linear_to_gamma`, but `src/image/ppm_writer.cpp:22-24` never calls it. Each channel is written as `min(255, max(0, int(c * 255)))` with no gamma correction, and that is what `PpmWriter.Channel` models.
- In `src/core/aabb.h`, only the three-interval constructor (lines 33-42) pads a thin axis; the two-corner and two-box constructors do not. The quad's box is built from those two, which is the second finding below.
- `src/image/image.cpp:5-8` addresses the buffer as `row * width + col`, which its callers do not match; this is the third finding below.

## Model

| member | source | states |
|---|---|---|
| Vectors.UnitVector | src/core/vec3.cpp:143-146 | the result has unit length and scaling it by the input's length gives back the input |
| Vectors.OnHemisphere | src/core/vec3.cpp:160-167 | the result is the sample or its negation, lies on the normal's side (non-negative dot product), and is the sample itself when the sample already points to that side |
| Vectors.DotSymmetric | src/core/vec3.cpp:128-133 | the dot product is symmetric |
| Vectors.LengthSquaredIsDot | src/core/vec3.cpp:84-87 | `length_squared(v)` is `dot(v, v)` and is never negative |
| Vectors.DotLinear | src/core/vec3.cpp:128-133 | the dot product is linear in its first argument |
| Vectors.DotScale | src/core/vec3.cpp:128-133 | a scalar factor moves out of either argument of the dot product |
| Vectors.DotNeg | src/core/vec3.cpp:39-42 | negating either argument negates the dot product |
| Vectors.CrossOrthogonal | src/core/vec3.cpp:135-141 | `cross(u, v)` is orthogonal to `u` and to `v` |
| Vectors.CrossAntiCommutes | src/core/vec3.cpp:135-141 | `cross(u, v) == -cross(v, u)` |
| Vectors.CrossAdd | src/core/vec3.cpp:135-141 | the cross product distributes over addition on both sides |
| Vectors.CrossScaleLeft | src/core/vec3.cpp:135-141 | scaling the first argument scales the cross product |
| Vectors.CrossScaleRight | src/core/vec3.cpp:135-141 | scaling the second argument scales the cross product |
| Vectors.CrossSelf | src/core/vec3.cpp:135-141 | a vector crossed with itself is zero |
| Vectors.CrossLength | src/core/vec3.cpp:135-141 | Lagrange's identity: the squared length of `cross(u, v)` is `length(u)^2 length(v)^2 - (u . v)^2` |
| Vectors.ReflectAboutUnitNormal | src/core/vec3.cpp:176-179 | for a unit normal, reflection negates the normal component and keeps the squared length |
| Vectors.NearZeroComponents | src/core/vec3.cpp:169-174 | `near_zero` holds exactly when every component, as read by `operator[]`, is strictly within 1e-8 of zero |
| Vectors.MutableVec3.constructor | src/core/vec3.cpp:13-15 | the new vector holds the given components in a fresh array |
| Vectors.MutableVec3.AddAssign | src/core/vec3.cpp:54-60 | `+=` leaves the vector equal to the old value plus the argument |
| Vectors.MutableVec3.MulAssign | src/core/vec3.cpp:62-68 | `*=` leaves the vector equal to the old value scaled by the factor |
| Vectors.MutableVec3.DivAssign | src/core/vec3.cpp:70-73 | `/= t` leaves the vector equal to the old value divided by a non-zero `t` |
| Intervals.LeTotalOrder | src/core/interval.h:57-70 | the comparison of bounds, infinities included, is a total order, and `<` is its strict part |
| Intervals.Interval.Clamp | src/core/interval.h:77-84 | for an ordered interval the result lies in `[min, max]`; a contained value is returned unchanged; a value below `min` gives `min`; a value above `max` gives `max` |
| Intervals.HullContains | src/core/interval.h:37-41 | the union interval contains every value either input contains, and contains both inputs |
| Intervals.HullCommutes | src/core/interval.h:37-41 | the union interval does not depend on the order of its inputs |
| Intervals.HullIdempotent | src/core/interval.h:37-41 | the union of an interval with itself is that interval |
| Intervals.SurroundsImpliesContains | src/core/interval.h:57-70 | exclusive membership implies inclusive membership |
| Intervals.ClampIdempotent | src/core/interval.h:77-84 | clamping a clamped value changes nothing |
| Intervals.ExpandSizeAndMidpoint | src/core/interval.h:91-95 | on a finite interval, `expand(delta)` adds exactly `delta` to `size()` and keeps the midpoint |
| Intervals.ShiftProperties | src/core/interval.h:116-130 | shifting by `d` keeps `size()`; `x` is contained exactly when `x + d` is contained in the shifted interval; `d + ival == ival + d` |
| Intervals.EmptyAndUniverse | src/core/interval.h:105-108 | `empty` (also the default interval) contains and surrounds no value; `universe` contains and surrounds every value |
| Rays.NewRay | src/core/ray.cpp:10-12 | the constructor keeps the origin and stores a unit direction that scales back to the given one; a zero direction has no positive length and is excluded |
| Rays.AtZero | src/core/ray.cpp:28-31 | `at(0)` is the origin |
| Rays.RayObject.constructor | src/core/ray.cpp:10-12 | the object holds the given ray |
| Rays.RayObject.Assign | src/core/ray.cpp:32-40 | after `operator=` the ray equals the source's old value, self-assignment included |
| Boxes.BoxWithinTransitive | src/core/aabb.h:66-71 | box inclusion is transitive |
| Boxes.AxisIntervalSelects | src/core/aabb.h:79-86 | `axis_interval(n)` is `x` for every `n` other than 1 and 2, and a point is in the box exactly when each coordinate is in the interval for its axis |
| Boxes.FromPointsProperties | src/core/aabb.h:53-58 | the two-corner box does not depend on the corners' order, is ordered on every axis and contains both corners |
| Boxes.FromPointsUnpadded | src/core/aabb.h:53-58 | the two-corner constructor pads nothing: equal corners give axes of size 0 |
| Boxes.PadWidens | src/core/aabb.h:33-43 | padding only widens an axis, so it keeps every value the axis surrounds |
| Boxes.PadProperties | src/core/aabb.h:33-43 | an axis at least 0.0001 wide is unchanged; a narrower one is expanded by 0.0001; a non-empty finite axis ends at least 0.0001 wide |
| Boxes.EnclosingProperties | src/core/aabb.h:66-71 | the union box contains both boxes, does not depend on their order, and the union of a box with itself is that box |
| Boxes.PadShift | src/core/aabb.h:132-135 | shifting an axis does not change how it is padded |
| Boxes.OffsetShiftsEachAxis | src/core/aabb.h:132-140 | `bbox + offset` is each padded axis shifted by the matching component, and `offset + bbox` is the same box |
| Boxes.Meet | src/core/aabb.h:110-123 | the narrowed parameter interval lies inside both of the intervals it narrows |
| Boxes.SlabStepIsMeet | src/core/aabb.h:104-123 | one pass of the loop intersects `ray_t` with the slab `[min(t0, t1), max(t0, t1)]` of one axis |
| Boxes.NarrowedIsSlabRange | src/core/aabb.h:102-127 | after three passes `ray_t` is `ray_t` intersected with the three slabs |
| Boxes.EmptyStaysEmpty | src/core/aabb.h:125-126 | once `ray_t` is empty after some pass, the box is missed, so the early `return false` gives the same answer as finishing the loop |
| Boxes.Hit | src/core/aabb.h:97-129 | the slab test returns true exactly when `ray_t` intersected with the three slabs is non-empty; the caller's interval is not changed |
| Boxes.TimesMonotone | src/core/aabb.h:107-108 | multiplying by `1/d` keeps the order of the bounds for positive `d` and reverses it for negative `d` |
| Boxes.SlabGrows | src/core/aabb.h:104-116 | the slab of an ordered axis lies inside the slab of every axis containing it |
| Boxes.MeetGrows | src/core/aabb.h:110-123 | the narrowing is monotone in both intervals |
| Boxes.BoxHitGrows | src/core/aabb.h:97-129 | a ray that passes the slab test of an ordered box passes it for every box containing that box |
| Boxes.FlatAxisMissed | src/core/aabb.h:107-126 | an axis of zero width makes the slab test fail for every ray and every `ray_t` |
| Boxes.SlabSurrounds | src/core/aabb.h:107-123 | if an axis strictly contains the ray's coordinate at `t`, the slab of that axis strictly contains `t` |
| Boxes.InteriorPointHit | src/core/aabb.h:97-129 | a ray whose point at a `t` strictly inside `ray_t` is strictly inside the box on every axis passes the slab test |
| Boxes.ContainedPointHit | src/core/aabb.h:97-129 | the same holds for a `t` anywhere in `ray_t`, ends included, as long as `ray_t` holds more than one point |
| Boxes.SinglePointIntervalMissed | src/core/aabb.h:110-126 | over a `ray_t` of a single point `[t, t]` the slab test fails for every box, because the final comparison `ray_t.max <= ray_t.min` is true |
| HitRecords.FaceNormal | src/core/hit_record.h:33-37 | `front_face` holds exactly when the ray runs against the outward normal; the normal is the outward one on the front face and its negation otherwise; the stored normal never points along the ray |
| HitRecords.HitRecord.SetFaceNormal | src/core/hit_record.h:33-37 | only `front_face` and `normal` change, to the values above; `point`, `t`, `mat`, `u` and `v` keep their values |
| Scenes.Scene.constructor | src/scene/scene.cpp:6-8 | a new scene holds no hittable |
| Scenes.Scene.AddHittable | src/scene/scene.cpp:13-16 | `add_hittable` appends at the end and leaves earlier entries as they were |
| Scenes.Scene.GetHittables | src/scene/scene.cpp:17-20 | the list comes back in insertion order and the scene is unchanged |
| Spheres.NewSphere | src/geometry/sphere.cpp:7-11 | the box is the two-corner box from `center - (r,r,r)` to `center + (r,r,r)` and contains the centre |
| Spheres.NewSphereSignFree | src/geometry/sphere.cpp:9-10 | a negative radius gives the same box as its absolute value |
| Spheres.RootsOrdered | src/geometry/sphere.cpp:27-31 | the first root tried is never beyond the second |
| Spheres.Intersect | src/geometry/sphere.cpp:17-43 | a negative discriminant misses; the nearer root is taken when `ray_t` strictly surrounds it, the farther one otherwise, and the ray misses if neither is surrounded; a hit is surrounded by `ray_t`, is the ray's point there, carries the sphere's material, has a normal opposing the ray, and its normal and front-face flag are what `set_face_normal` makes of the outward normal at the hit point |
| Spheres.Outward | src/geometry/sphere.cpp:38 | for a non-zero radius, `radius` times the outward normal is `point - center`; for a zero radius the normal is the zero vector that stands for NaN |
| Spheres.ZeroRadiusDiscriminant | src/geometry/sphere.cpp:19-23 | for a zero radius the discriminant is never positive, and it is 0 for a ray along a line through the centre |
| Spheres.ZeroRadiusHit | src/geometry/sphere.cpp:17-43 | a zero-radius sphere is hit only at a discriminant of exactly 0, and the hit is a back face with the zero normal |
| Spheres.RootSolvesQuadratic | src/geometry/sphere.cpp:19-28 | each root of the quadratic formula solves `a t^2 + 2 half_b t + c = 0` |
| Spheres.OnSphere | src/geometry/sphere.cpp:19-23 | a parameter solving the quadratic puts the ray's point on the sphere |
| Spheres.UnitOutward | src/geometry/sphere.cpp:38-39 | `(point - center) / radius` and its negation are unit vectors for a point on the sphere |
| Spheres.HitOnSurface | src/geometry/sphere.cpp:36-39 | for a non-zero radius, every reported hit lies on the sphere and has a unit normal |
| Spheres.RootOnSphere | src/geometry/sphere.cpp:27-31 | both candidate roots are points of the sphere |
| Spheres.NarrowingKeepsHit | src/geometry/sphere.cpp:28-34 | lowering the upper end of `ray_t` to any value beyond the reported root reports the same hit |
| Spheres.Hit | src/geometry/sphere.cpp:17-43 | returns true exactly when the intersection function finds a hit, writes that hit into the record, and leaves the record untouched on a miss |
| Spheres.InsideBallInsideBox | src/geometry/sphere.cpp:7-11 | a point strictly inside the ball is strictly inside the constructor's box on every axis |
| Spheres.TangentInsideBox | src/geometry/sphere.cpp:7-11 | a point of the sphere where a direction with no zero component is tangent is strictly inside the constructor's box on every axis |
| Spheres.InsideBetweenRoots | src/geometry/sphere.cpp:19-31 | every parameter strictly between the two roots puts the ray's point strictly inside the ball |
| Spheres.TouchingRoot | src/geometry/sphere.cpp:19-31 | at a zero discriminant the root is a point of the sphere where the ray is perpendicular to the radius |
| Spheres.HitPassesBox | src/geometry/sphere.cpp:17-43 | every hit on a sphere of non-zero radius over a `ray_t` of more than one point passes the slab test of the box the constructor gives it, over the same `ray_t` |
| Spheres.ZeroRadiusBoxMissed | src/geometry/sphere.cpp:7-11 | a zero-radius sphere's box is a single point, and every ray fails its slab test |
| Quads.PaddedBox | src/geometry/quad.h:41-43 | the corrected quad box contains the box as written |
| Quads.NewQuad | src/geometry/quad.h:37-51 | the constructor keeps `Q`, `u`, `v` and the material; the box is the corrected box of the two diagonals (see the findings); `D` places the plane through `Q`; `area` is `length(cross(u, v))`; for non-parallel edges the normal is the unit `cross(u, v)`, for parallel edges it is the zero vector standing for NaN, so the area is positive unless the normal is that zero vector (`AreaAgrees`) |
| Quads.FlatQuadNeverHit | src/geometry/quad.h:76-80 | a quad with a zero normal is missed by every ray, as the NaN comparison in the source misses |
| Quads.ParallelEdgesNeverHit | src/geometry/quad.h:37-51 | a quad built from parallel edges has area 0 and is missed by every ray |
| Quads.NewQuadWellFormed | src/geometry/quad.h:45-50 | every constructed quad has `w` dual to `cross(u, v)`, a normal perpendicular to both edges, and its plane through `Q` |
| Quads.DiagonalBoxCorners | src/geometry/quad.h:41-43 | the box of the two diagonals, as written and corrected, contains all four corners, for either winding |
| Quads.IsInteriorUnitSquare | src/geometry/quad.h:116-120 | `is_interior(a, b)` holds exactly when both lie in `[0, 1]`, boundaries included |
| Quads.PlanarCoordinates | src/geometry/quad.h:91-93 | `alpha` and `beta` recover `s` and `t` from the planar vector `s u + t v` |
| Quads.PointInterior | src/geometry/quad.h:88-96 | a point `Q + s u + t v` with `s` and `t` in `[0, 1]` passes the interior test |
| Quads.CornersInterior | src/geometry/quad.h:116-120 | the four corners of a constructed quad pass the interior test |
| Quads.OnPlane | src/geometry/quad.h:84 | the computed `t` puts the ray's point on the quad's plane |
| Quads.Intersect | src/geometry/quad.h:76-104 | a ray with `abs(normal . direction) < 1e-8` misses; a hit has a `t` that `ray_t` contains inclusively, is the ray's point there, lies on the plane and inside the unit square in `(alpha, beta)`, carries the quad's material, and has the normal and front-face flag `set_face_normal` makes of the quad's normal |
| Quads.PlaneParameter | src/geometry/quad.h:84 | for a ray through a point of the quad's plane, the computed `t` is that point's parameter |
| Quads.HitInside | src/geometry/quad.h:76-104 | conversely, a non-parallel ray through `Q + s u + t v` with `(s, t)` in the unit square, at a `t` that `ray_t` contains, is reported as hit at that `t` |
| Quads.PaddedBoxSurrounds | src/geometry/quad.h:41-43 | a point strictly inside the quad's edges is strictly inside the corrected box on every axis |
| Quads.PaddedBoxHit | src/geometry/quad.h:41-43 | with the corrected box, a ray through a point strictly inside the quad, at a `t` strictly inside `ray_t`, passes the slab test |
| Quads.PaddedBoxHitContains | src/geometry/quad.h:41-43 | the same for a `t` anywhere in a `ray_t` of more than one point, ends included, as `hit` accepts them |
| Quads.InteriorHitPassesBox | src/geometry/quad.h:76-98 | when a constructed quad reports a hit over a `ray_t` of more than one point and the ray crosses the quad strictly inside its edges, the hit is at that crossing and the ray passes the slab test of the quad's box |
| Quads.FlatDiagonalBoxMissed | src/geometry/quad.h:41-43 | the box as written has zero width in `z` for a quad whose edges lie in a plane of constant `z`, so every ray fails its slab test |
| Quads.DiagonalBoxMissesFlatQuad | src/geometry/quad.h:41-43 | for such a quad, every ray that `hit` reports as crossing it strictly inside fails the slab test of the box as written and passes that of the corrected box |
| Quads.NarrowingKeepsHit | src/geometry/quad.h:84-86 | any interval that still contains the reported `t` reports the same hit |
| Quads.Hit | src/geometry/quad.h:76-104 | returns true exactly when the intersection function finds a hit, writes that hit into the record, and leaves the record untouched on a miss |
| Quads.RandomTowardInterior | src/geometry/quad.h:134-138 | with draws in `[0, 1)`, the sampled direction ends at a point that passes the interior test |
| Quads.DistanceSquaredIsDistance | src/geometry/quad.h:128 | with the unit direction the ray stores, `t * t` is the squared distance from `origin` to the hit point |
| Quads.DistanceSquaredAsWrittenOverscales | src/geometry/quad.h:128 | the distance term as written is the squared distance times `length(direction)^2` |
| Quads.HitCosinePositive | src/geometry/quad.h:129 | a hit in the `pdf_value` range has a positive cosine |
| Quads.PdfValueAsWritten | src/geometry/quad.h:122-132 | `pdf_value` as written is never negative, and is 0 exactly when the ray misses within `[0.001, +infinity]`; this covers quads of zero area, which every ray misses |
| Quads.PdfValue | src/geometry/quad.h:122-132 | the corrected `pdf_value` is never negative, and is 0 exactly when the ray misses within `[0.001, +infinity]`; this covers quads of zero area, which every ray misses |
| Quads.PdfValueSolidAngle | src/geometry/quad.h:128-131 | on a hit, the corrected value is the squared distance to the hit point over the positive projected area `cosine * area` |
| Quads.PdfValueAsWrittenOverscales | src/geometry/quad.h:128-131 | the value as written is always `length(direction)^2` times the corrected one |
| Quads.PdfValueAsWrittenDiffers | src/geometry/quad.h:128-131 | for every hit along a direction that is not of unit length, the two values differ |
| Quads.LoHi | src/geometry/quad.h:146-147 | the componentwise min and max do not depend on the corners' order, are strictly ordered for corners that differ on every axis, and span the same box as the corners |
| Quads.CubeFramesValid | src/geometry/quad.h:149-158 | between ordered corners, each of the six faces has as area the length of its edges' cross product |
| Quads.CubeFramesPositive | src/geometry/quad.h:149-158 | between ordered corners, every face has a positive area exactly when the corners differ on every axis |
| Quads.CubeFramesInsideBox | src/geometry/quad.h:146-158 | every corner of every face lies in the box between the min and max corners |
| Quads.Faces | src/geometry/quad.h:153-158 | six quads, one per face in the order front, right, back, left, top, bottom, each built by the quad constructor with the shared material; a face of positive area is well formed and one of zero area has the zero normal |
| Quads.CubeFacesSymmetric | src/geometry/quad.h:146-151 | `cube(a, b)` and `cube(b, a)` build the same faces |
| Quads.CubeFacesInsideBox | src/geometry/quad.h:146-158 | for any two corners, every corner of every face lies in the box spanned by `a` and `b` |
| Quads.CubeFacesPositive | src/geometry/quad.h:144-158 | all six faces have a positive area exactly when `a` and `b` differ on every axis |
| Quads.CubeFlatFacesMissed | src/geometry/quad.h:144-158 | the faces of zero area, which corners sharing a coordinate give, are missed by every ray |
| Quads.NewCube | src/geometry/quad.h:144-159 | for any two corners, the constructor makes a fresh scene holding exactly the six faces, added in order |
| Bvh.AxisOf | src/core/bvh_node.h:46-49 | the draws 0, 1 and 2 select the x, y and z comparators, and every draw selects one of the three axes |
| Bvh.Insert | src/core/bvh_node.h:112-118 | insertion adds exactly one element to the multiset |
| Bvh.InsertSorted | src/core/bvh_node.h:112-118 | insertion keeps a list sorted by the comparator |
| Bvh.SortSpan | src/core/bvh_node.h:64 | the sorted span is a permutation of the span and is ordered by the comparator |
| Bvh.ObjectList.constructor | src/core/bvh_node.h:29 | the list starts as the given objects |
| Bvh.ObjectList.SortRange | src/core/bvh_node.h:64 | `std::sort` on `[start, end)` replaces that range by its sorted order and leaves the rest of the list unchanged |
| Bvh.PartitionPermuted | src/core/bvh_node.h:64-67 | reordering each side of a split keeps it a partition by the comparator |
| Bvh.SplitShaped | src/core/bvh_node.h:62-68 | two halves built from the sorted span make a node of the constructor's shape over a permutation of the span |
| Bvh.SplitBuilt | src/core/bvh_node.h:62-68 | after the sort and the two recursive builds, the span is a permutation of its old contents, the rest of the list is unchanged, and the node has the constructor's shape |
| Bvh.Build | src/core/bvh_node.h:44-71 | for a non-empty span, the build keeps the list's length, leaves the span a permutation of its old contents and the rest of the list unchanged, gives the node the constructor's shape (span 1: one object twice; span 2: both objects in order; longer: sorted along the drawn axis and split at the middle), and makes every node's box the union of its children's; each recursive call gets a strictly shorter span |
| Bvh.ShapedLeaves | src/core/bvh_node.h:53-68 | a built node holds exactly the objects of its span |
| Bvh.LeafBoxesWithin | src/core/bvh_node.h:70 | every object's box lies inside the box of each node above it |
| Bvh.FromList | src/core/bvh_node.h:28-33 | the tree over the scene's list holds exactly its objects, and every node's box is the union of its children's |
| Bvh.HitInInterval | src/core/bvh_node.h:83-92 | a hit the tree reports lies in `ray_t`, when every object's hits lie in the interval it was asked about |
| Bvh.HitFromLeaf | src/core/bvh_node.h:83-92 | every hit the tree reports is what one of its objects reports over `ray_t` with the upper end lowered |
| Bvh.NodeBoxPassed | src/core/bvh_node.h:85-86 | a node whose box contains an object's box passes the slab test whenever that object is hit over a `ray_t` of more than one point |
| Bvh.NodeHitBelow | src/core/bvh_node.h:88-91 | a node's hit is no later than any bound that its left child's hit, or its right child's hit in the narrowed interval, meets |
| Bvh.NarrowedByLeft | src/core/bvh_node.h:89 | an object hit before the left child's hit is still hit, no later, in the interval `[ray_t.min, rec.t]` the right child is searched in |
| Bvh.ClosestHit | src/core/bvh_node.h:83-92 | over a `ray_t` of more than one point, the tree reports a hit, and no later than the hit of any object it holds (under the hypotheses listed below) |
| Hittables.Intersect | src/core/bvh_node.h:88-89 | the virtual `hit` of a sphere or a quad: a reported hit lies in `ray_t` and is the ray's point at that `t` |
| Hittables.NarrowingKeepsIntersection | src/core/bvh_node.h:89 | for spheres and quads alike, lowering the upper end of `ray_t` to any value beyond the reported hit reports the same hit |
| Hittables.PrimLeafBehaves | src/core/bvh_node.h:88-89 | spheres and quads meet what the closest-hit argument asks of objects: hits lie in the interval, and narrowing keeps them |
| Hittables.HitPrimitive | src/core/bvh_node.h:88-89 | dispatching to the sphere's or the quad's `hit` fills the record exactly when that object reports a hit |
| Hittables.HitNode | src/core/bvh_node.h:83-92 | `bvh_node::hit` returns true exactly when the traversal function finds a hit, leaves that hit in the record, and leaves the record untouched when the node's box misses or nothing is hit |
| Hittables.HitChild | src/core/bvh_node.h:88-89 | the same for a child, object or node |
| Hittables.FromScene | src/core/bvh_node.h:28-33 | the tree over a non-empty scene holds exactly the scene's objects, each with its own bounding box, and every node's box is the union of its children's |
| Hittables.ClosestPrimitiveHit | src/core/bvh_node.h:83-92 | over spheres and quads and a `ray_t` of more than one point, the tree reports a hit no later than the hit of any object it holds (under the same hypothesis on boxes) |
| Hittables.ConservativeScene | src/core/bvh_node.h:83-92 | when every object is a sphere of non-zero radius with the constructor's box, a constructed quad the ray crosses strictly inside its edges, or an object the ray never hits, each object's own bounding box meets the hypothesis of `Hittables.ClosestPrimitiveHit` |
| Hittables.ZeroRadiusNotConservative | src/core/bvh_node.h:83-92 | a zero-radius sphere that the ray hits over a `ray_t` of more than one point breaks that hypothesis: the object reports the hit and its box fails the slab test |
| Bases.Helper | src/core/onb.h:31 | whichever helper axis is chosen, its cross product with a unit `w` has squared length at least 0.19, so it is never parallel to `w` |
| Bases.WAxis | src/core/onb.h:28 | the `w` axis has unit length |
| Bases.NewOnb | src/core/onb.h:26-34 | the basis is orthonormal, `w` points along `n`, `v` along `cross(w, a)`, and `u` is `cross(w, v)` |
| Bases.DoubleCross | src/core/onb.h:32-33 | `(a x b) x c = (a . c) b - (b . c) a` |
| Bases.NewOnbLeftHanded | src/core/onb.h:32-33 | the basis as written is left-handed: `cross(u, v) = -w` |
| Bases.NewRightHandedOnb | src/core/onb.h:11-13 | with `u = cross(v, w)` the basis keeps `v` and `w`, negates `u`, stays orthonormal and is right-handed: `cross(u, v) = w` |
| Bases.OrthonormalCompletion | src/core/onb.h:32-33 | normalising `cross(w, a)` and crossing it with `w` completes a unit `w` to an orthonormal basis |
| Bases.TransformComponents | src/core/onb.h:60-63 | each component of `transform(c)` is `c0 u + c1 v + c2 w` on that axis |
| Bases.TransformZAxis | src/core/onb.h:60-63 | `transform((0, 0, 1))` is `w` |
| Bases.TransformAdditive | src/core/onb.h:60-63 | `transform` maps sums to sums |
| Bases.TransformHomogeneous | src/core/onb.h:60-63 | `transform` maps multiples to multiples |
| Bases.TransformCoordinates | src/core/onb.h:60-63 | on an orthonormal basis, projecting `transform(c)` onto `u`, `v` and `w` gives back `c` |
| Textures.SolidRgb | src/core/texture.h:49-58 | a solid colour returns its colour for every `u`, `v` and `p` |
| Textures.NewChecker | src/core/texture.h:80-81 | the checker stores the reciprocal of the scale and both children |
| Textures.CheckerColors | src/core/texture.h:89-92 | the two-colour checker is the checker over two solid colours |
| Textures.CppRem2 | src/core/texture.h:105 | C++'s `% 2` is 0 or 1 for non-negative sums and 0 or -1 for negative ones, and the sum minus it is even |
| Textures.Value | src/core/texture.h:99-108 | every value is the colour of one of the texture's solid leaves |
| Textures.TruncatedParity | src/core/texture.h:105 | `sum % 2 == 0` detects exactly the even sums, negative ones included |
| Textures.CheckerColorsValue | src/core/texture.h:89-107 | the two-colour checker shows `c1` on even cells and `c2` on odd cells, whatever `u` and `v` are |
| Textures.CellStep | src/core/texture.h:101 | moving by one scale along x moves the cell coordinate by one |
| Textures.ShiftFlipsChild | src/core/texture.h:99-108 | shifting a point by the scale along x flips the cell's parity, so the other child answers, at the same `u`, `v`, `p` |
| Metals.Scatter | src/core/metal.h:38-48 | always succeeds; attenuation is the albedo, no density, `skip_pdf` set; the ray starts at the hit point along the reflection of the incoming direction; `fuzz` is never read |
| Metals.UnitReflection | src/core/metal.h:40-45 | for a unit incoming direction and a unit normal, the reflection already has unit length and leaves with the normal component negated |
| Dielectrics.RefractionRatio | src/core/dieletric.h:18 | the ratio is `1 / refraction_index` on the front face and `refraction_index` on the back face, whatever its value |
| Dielectrics.CosTheta | src/core/dieletric.h:21 | the cosine is `dot(-unit_direction, normal)` clamped to at most 1 |
| Dielectrics.R0 | src/core/dieletric.h:44-45 | Schlick's `r0` is never negative |
| Dielectrics.ReflectanceEnds | src/core/dieletric.h:41-47 | the reflectance is `r0` at cosine 1 and 1 at cosine 0 |
| Dielectrics.R0Bounds | src/core/dieletric.h:44-45 | for a positive ratio, `r0` lies in `[0, 1)` |
| Dielectrics.ReflectanceBounds | src/core/dieletric.h:41-47 | for a positive ratio and a cosine in `[0, 1]`, the reflectance lies in `[r0, 1]` |
| Dielectrics.TotalInternalReflection | src/core/dieletric.h:24-28 | when `ri * sin_theta > 1`, the reflection is chosen whatever the draw |
| Dielectrics.ChoiceByDraw | src/core/dieletric.h:27-28 | a draw below `r0` always reflects |
| Dielectrics.ZeroIndexReflects | src/core/dieletric.h:18-28 | an index of 0 seen from the back gives a reflectance of 1, so every draw below 1 reflects |
| Dielectrics.MinusOneRatioRefracts | src/core/dieletric.h:24-30 | a ratio of -1, whose reflectance is NaN, always refracts |
| Dielectrics.Scatter | src/core/dieletric.h:13-34 | always succeeds with a white attenuation, no density and `skip_pdf` set; the ray starts at the hit point along the direction `ChosenDirection` picks, whose choices the lemmas above describe |
| Lambertians.ScatterDirection | src/core/lambertian.h:40-42 | the direction is the normal plus the sample when that sum is not near zero, and the normal alone when it is |
| Lambertians.ScatterDirectionNotNearZero | src/core/lambertian.h:40-42 | unless the normal itself is near zero, the direction never is |
| Lambertians.UnitNotNearZero | src/core/lambertian.h:40-42 | a unit normal is not near zero |
| Lambertians.Scatter | src/core/lambertian.h:37-46 | always succeeds with the albedo as attenuation and a ray from the hit point along the scatter direction; the incoming ray plays no part |
| Lights.LightOfColor | src/core/light.h:28-29 | the colour constructor makes a light whose texture is that solid colour |
| Lights.Emitted | src/core/light.h:42-47 | black on a back face; on a front face the texture's value at `(u, v, p)`, which is one of the texture's colours |
| Lights.ColorLightEmits | src/core/light.h:28-46 | a light made from a colour emits exactly that colour from its front face, for every `u`, `v`, `p` |
| Lights.EmissionIgnoresRay | src/core/light.h:42-47 | the emission does not depend on the incoming ray |
| Images.AsWrittenLeavesBuffer | src/image/image.cpp:5-8 | as written, pixel `(1, 0)` of a 2 x 1 image is sent past the end of its 2-cell buffer |
| Images.AsWrittenCollides | src/image/image.cpp:5-8 | as written, in every image taller than it is wide and at least two pixels wide, the two distinct pixels `(0, width)` and `(1, 0)` map to one cell |
| Images.AsWrittenOutOfBounds | src/image/image.cpp:5-8 | as written, whenever the image is wider than tall, the last pixel its callers address lies past the buffer |
| Images.IndexInBounds | src/image/image.cpp:5-8 | with the corrected index, every pixel of the image has a cell in the buffer |
| Images.IndexInjective | src/image/image.cpp:5-8 | with the corrected index, distinct pixels occupy distinct cells |
| Images.IndexInverse | src/image/image.cpp:5-8 | the pixel's coordinates are recovered from its index by division and remainder |
| Images.WriteTouchesOnePixel | src/image/image.cpp:28-31 | writing one pixel's cell changes that pixel to the new colour and leaves every other pixel as it was |
| Images.Image.constructor | src/image/image.cpp:10-12 | the buffer has `width * height` cells, all black, and the dimensions are the arguments |
| Images.Image.GetWidth | src/image/image.cpp:18-21 | returns the width given to the constructor |
| Images.Image.GetHeight | src/image/image.cpp:23-26 | returns the height given to the constructor |
| Images.Image.SetPixel | src/image/image.cpp:28-31 | overwrites exactly one cell, so that `get_pixel` at the same coordinates returns the new colour |
| Images.Image.GetPixel | src/image/image.cpp:33-36 | returns the colour stored for the pixel and changes nothing |
| PpmWriter.Decimal | src/image/ppm_writer.cpp:16 | a number is written as a non-empty run of decimal digits with no leading zero |
| PpmWriter.DecimalRoundTrip | src/image/ppm_writer.cpp:16 | a number written in decimal reads back as itself |
| PpmWriter.Trunc | src/image/ppm_writer.cpp:22-24 | `int(x)` truncates toward zero: the floor for non-negative `x`, within 1 of `x` and no farther from 0 |
| PpmWriter.Channel | src/image/ppm_writer.cpp:22-24 | a channel is at most 255; 255 for inputs of at least 1; 0 for inputs of at most 0; `floor(c * 255)` in between; no gamma correction |
| PpmWriter.ChannelMonotone | src/image/ppm_writer.cpp:22-24 | a brighter channel never gives a smaller number |
| PpmWriter.TripleOnOneLine | src/image/ppm_writer.cpp:25 | a pixel's triple holds no newline |
| PpmWriter.LineCount | src/image/ppm_writer.cpp:17-28 | when no pixel's text holds a newline, the body holds exactly one newline per row written |
| PpmWriter.BodyLines | src/image/ppm_writer.cpp:17-28 | the body of the file holds exactly `height` lines |
| PpmWriter.HeaderFields | src/image/ppm_writer.cpp:15-16 | the header starts with `P3` and a newline, and its width and height read back exactly |
| PpmWriter.WritePixel | src/image/ppm_writer.cpp:22-25 | appends exactly the pixel's `r g b ` triple |
| PpmWriter.WriteLine | src/image/ppm_writer.cpp:19-26 | appends the triples of the pixels `(x, y)` for `x` from 0 up to the width, in order |
| PpmWriter.Write | src/image/ppm_writer.cpp:10-31 | writes the header and then, for each `y` below the height, one line of the triples of `(x, y)` for `x` below the width; always returns true |

## Left out

- Floating point: doubles are reals, so rounding, NaN and overflow are not modelled. Infinite interval bounds are modelled with an extended real. The one NaN the interval code can produce (`size()` of an infinite interval) is `None`.
- `std::sqrt`, `std::pow` and `random_double`/`random_int` are parameters of the model, not computed. A root is constrained by `IsSqrt`, `pow(x, 5)` is a product, and a draw is a free parameter.
- `random_unit_vector`, `vec3::random`, `length` and `unit_vector`'s square root (src/core/vec3.cpp:25-33, 79-82 and 148-159): the sampling loop is not modelled; a sample is a parameter.
- `refract`, `material` and the declaration of `scatter_record` are not part of this model. The refracted direction is a parameter of `Dielectrics.Scatter`.
- Boxes.Hit: requires every direction component to be non-zero. The source's `1.0 / 0.0` gives an infinity, which the model does not follow.
- Rays.NewRay: requires a positive length. The source divides by zero for a zero direction.
- Bvh.Build: requires a non-empty span. With an empty span the source recurses on the same span forever.
- Bvh.Build: `std::sort` is modelled as a stable insertion sort. The source leaves the order of objects that compare equal unspecified, so the model fixes one order the source may not produce.
- Bvh.ClosestHit: requires a `ray_t` of more than one point, and is stated under the hypothesis `BoxesConservative`: an object hit over a `ray_t` of more than one point also passes the slab test of its box. Over a single point `[t, t]` the slab test fails for every box (`Boxes.SinglePointIntervalMissed`), while `quad::hit` accepts `t` at either end (`interval::contains` is inclusive), so the tree can miss a quad hit there; the model says nothing about that case.
- Bvh.ClosestHit: the hypothesis is proved for spheres of non-zero radius with the constructor's box (`Spheres.HitPassesBox`) and for quads the ray crosses strictly inside their edges (`Quads.InteriorHitPassesBox`), both gathered for a whole scene by `Hittables.ConservativeScene`, and only for rays whose direction has no zero component. A zero-radius sphere's box is a single point, so its hits fail the slab test (`Spheres.ZeroRadiusBoxMissed`) and the hypothesis fails (`Hittables.ZeroRadiusNotConservative`). A hit on a quad's edge or corner is not proved to pass the slab test.
- Hittables.ClosestPrimitiveHit: carries the same requirement on `ray_t` and the same `BoxesConservative` hypothesis.
- Dielectrics.Scatter: takes `sin_theta` as the root of `1 - cos_theta^2`, which needs that value to be non-negative. It requires a non-zero index when the ray meets the front face, where the source's ratio `1 / 0` is an infinity. A ratio of -1, where Schlick's `r0` divides by zero, is modelled by its effect: the NaN reflectance exceeds no draw.
- Spheres.Intersect: for a zero radius the source's outward normal `(p - center) / 0` is NaN; the model stores the zero vector, which `set_face_normal` turns into a back face as NaN does. The normal itself is not NaN in the model.
- Quads.NewQuad: for parallel edges the source's `normal`, `w` and `D` are NaN; the model stores zero vectors and a zero `D`. Only the outcome, that no ray hits the quad, is the source's.
- Quads.NewQuad: the box is `PaddedBox`, the corrected box of the second finding, not the unpadded box of src/geometry/quad.h:41-43. `Quads.DiagonalBox` models the box as written, and `Quads.DiagonalBoxMissesFlatQuad` shows where the two differ.
- Images.Image.SetPixel: writes the cell at the corrected index `col * width + row` of the third finding, not the source's `row * width + col`. `Images.IndexAsWritten` models the source's index.
- Images.Image.GetPixel: reads the cell at the corrected index, as `Images.Image.SetPixel` writes it.
- Images.WriteTouchesOnePixel: is stated for the corrected index only. With the index as written, two pixels of an image taller than it is wide share a cell (`Images.AsWrittenCollides`), so writing one can change the other.
- PpmWriter.Write: reads pixels through the corrected index, so its output is what the source would write with that index.
- Hittables.FromScene: models `bvh_node(scene)` over the scene's list of primitives, with the scene's `hittable_list` read through `get_hittables`. The `shared_ptr` handles are object indices.
- The stale declarations in `src/geometry/hittable.h`, `src/geometry/sphere.h`, `src/scene/scene.h`, `src/math/` and the camera are not part of this model. The interval-based `hit(ray, interval, rec)` of the `.cpp` and `core/` files is modelled.
- `ppm_writer::write(image, filename)` (src/image/ppm_writer.cpp:33-40) opens a file; that I/O is not modelled. The stream is modelled as the string written to it.
- The renderer's pixel loop (src/renderer/raytracer.cpp) and `main` are not part of this model.
- PpmWriter.Channel: `int(c * 255)` is not bounded to 32 bits; a huge channel value that would overflow the cast is treated as any other value above 1.
- Textures.Value: `int(std::floor(...))` is not bounded to 32 bits either.
- Textures.NewChecker: requires a non-zero scale. `1.0 / 0` is an infinity in the source.

## Findings

| source | as written | input that shows it | evidently intended | confidence | as-written member | corrected member |
|---|---|---|---|---|---|---|
| src/geometry/quad.h:128 | `distance_squared = t * t * direction.length_squared()`. But the ray built at line 125 stores a unit direction (src/core/ray.cpp:10-12), so `t` is already the distance, and the density is multiplied by `length(direction)^2`. | quad `Q = (0,0,0)`, `u = (1,0,0)`, `v = (0,1,0)`; `pdf_value((0.5,0.5,1), (0,0,-2))`. The hit is at `t = 1` and the cosine is 1. As written this gives 4; the solid-angle density is 1. | `distance_squared = t * t` | not executed | Quads.PdfValueAsWrittenDiffers | Quads.PdfValueSolidAngle |
| src/geometry/quad.h:41-43 | The box is the union of two two-corner boxes, and neither constructor pads. A quad in a plane of constant `z` gets a box of zero width in `z`, and the slab test (src/core/aabb.h:125) rejects every ray against it. A BVH node holding only such a quad therefore never reports its hits. | quad `Q = (0,0,0)`, `u = (1,0,0)`, `v = (0,1,0)`; ray from `(0.25,0.25,1)` along `(0.5,0.5,-1)`; `ray_t = [0.001, +infinity]`. `hit` reports the point `(0.75,0.75,0)`, but the box's `z` axis has zero width, so its slab is a single parameter and the slab test fails. | pad thin axes, as `aabb(interval, interval, interval)` does (src/core/aabb.h:33-43) | not executed | Quads.DiagonalBoxMissesFlatQuad | Quads.PaddedBoxHit |
| src/image/image.cpp:5-8 | `index(row, col) = row * width + col`. Its callers pass `row < width` and `col < height` (src/image/ppm_writer.cpp:19-21). | a 2 x 1 image: pixel `(1, 0)` is sent to cell 2 of a 2-cell buffer | `index(row, col) = col * width + row` | not executed | Images.AsWrittenLeavesBuffer | Images.IndexInBounds |
| src/core/onb.h:32-33 | `u = cross(w, v)`. With `v` a unit vector orthogonal to the unit `w`, this gives `cross(u, v) = -w`, a left-handed basis, while the class comment (src/core/onb.h:11-13) documents a right-handed one. | `n = (0,0,1)`: `w = (0,0,1)`, `a = (1,0,0)`, `v = cross(w, a) = (0,1,0)`, `u = cross(w, v) = (-1,0,0)`, and `cross(u, v) = (0,0,-1) = -w`. | `u = cross(v, w)` | not executed | Bases.NewOnbLeftHanded | Bases.NewRightHandedOnb |
