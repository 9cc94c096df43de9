# A verified model of the core of a "Ray Tracing in One Weekend" renderer in Rust

This project models the geometric and numerical core of the renderer in Dafny:

- **Vectors and rays.** `Vec3` arithmetic, reflection and refraction, and rays `origin + t * direction`.
- **Intervals and boxes.**
  - Closed parameter intervals, with infinite ends.
  - Axis-aligned bounding boxes and their slab test.
- **Scene objects.**
  - Spheres and planar quadrilaterals (quads).
  - Lists of objects that keep the closest hit.
  - The bounding volume hierarchy (BVH): its construction, which sorts a sub-range of the object vector in place, and its traversal.
- **Materials.** Lambertian, metal and dielectric scattering, with Schlick's reflectance.
- **Textures.** A solid colour and a 3-D checker board.
- **Perlin noise.** Shuffled permutation tables, the hashed lattice gradients and the smoothed trilinear blend. Turbulence sums octaves of this noise.
- **Camera.** The image-height clamp, the origin of each camera ray, and the recursive integrator `ray_colour`.
- **Image store.** The byte linearisation applied on load, and the clamped pixel lookup.

## Modelling conventions

- **Floating point.** `f64` arithmetic is exact arithmetic on `real`.
  - The infinities the source builds on purpose, such as `Interval::empty`, `Interval::universe` and `1.0 / 0.0` in the slab test, are kept: interval ends are extended reals (`ExtReals.ExtReal`).
  - An IEEE NaN that can arise is `None`, and a comparison with it is false, as in IEEE arithmetic.
- **Square root.** The square root is a parameter `sqrt: real -> real`. Properties that need it assume `IsSqrt(sqrt)`: `sqrt(x)` is a non-negative square root of `x` for `x >= 0`.
- **Randomness.** Random draws are parameters:
  - the unit vector and the uniform number each scatter uses;
  - the swap targets of the permutation shuffle;
  - the unnormalised gradient vectors;
  - the sub-pixel offset, the defocus-disk point and the time of a camera ray.
- **Out-parameters.** A `&mut HitRecord` is threaded through by value: every `hit` takes a record and returns an `Outcome`, which holds the boolean and the new record.
- **Trait objects.** `Rc<dyn Hittable>`, `Rc<dyn Material>` and `Rc<dyn Texture>` become closed datatypes.
- **Panics.** A Rust `panic!` (an index out of bounds, `clamp` with crossed bounds) is the `Panics` case of `Wrappers.Fallible`.
- **State that changes in place.**
  - `HittableList` and `RtwImage` are classes.
  - The BVH sort and the Perlin shuffle work on arrays.
  - The loops of `AABB::hit`, `HittableList::hit`, `perlin_interp`, `noise` and `turb` are methods with loop invariants. Each is proved against a function that specifies it.

## Model

| member | source | states |
|---|---|---|
| Vectors.Vec3.LengthSquared | src/vec3.rs:43-45 | the squared length is never negative |
| Vectors.Vec3.UnitVector | src/vec3.rs:63-65 | with an exact square root, a non-zero vector is scaled to length exactly 1 |
| Vectors.Vec3.Index | src/vec3.rs:240-251 | indices 0, 1 and 2 give x, y and z; it panics exactly for an index above 2 |
| Vectors.Vec3.WithAxis | src/vec3.rs:253-262 | writing component `i` sets that component and leaves the other two alone; it panics exactly for `i > 2` |
| Vectors.New | src/vec3.rs:11-13 | components 0, 1 and 2 of the new vector are x, y and z |
| Vectors.Reflect | src/vec3.rs:104-106 | for a unit normal the reflected vector's component along `n` is negated; the squared length changes only by a term that vanishes for a unit normal |
| Vectors.AddAssign | src/vec3.rs:282-286 | `+=` adds component by component |
| Vectors.CrossOrthogonal | src/vec3.rs:55-61 | the cross product is orthogonal to both factors |
| Vectors.CrossAddLeft | src/vec3.rs:55-61 | the cross product distributes over a sum on the left |
| Vectors.CrossAddRight | src/vec3.rs:55-61 | the cross product distributes over a sum on the right |
| Vectors.CrossScaleLeft | src/vec3.rs:55-61 | a scalar on the left factor comes out of the cross product |
| Vectors.CrossScaleRight | src/vec3.rs:55-61 | a scalar on the right factor comes out of the cross product |
| Vectors.CrossSelf | src/vec3.rs:55-61 | a vector crossed with itself is zero |
| Vectors.DotSymmetric | src/vec3.rs:51-53 | the dot product is symmetric, and `v . v` is the squared length |
| Vectors.NegInvolution | src/vec3.rs:266-276 | negating twice gives the vector back, and `v - v` and `v + (-v)` are zero |
| Vectors.NearZeroIff | src/vec3.rs:99-102 | `near_zero` holds exactly when every component is below 1e-8 in magnitude; the zero vector is near zero |
| Vectors.ScaledLengthSquared | src/vec3.rs:63-65 | dividing by `l` divides the squared length by `l * l` |
| Rays.Ray.At | src/ray.rs:33-35 | the point at `t` is `t * direction` away from the origin |
| Rays.New | src/ray.rs:13-19 | the new ray keeps its origin, direction and time |
| Rays.AtZero | src/ray.rs:33-35 | the point at `t = 0` is the origin |
| Rays.AtAdditive | src/ray.rs:33-35 | advancing by `s + t` is advancing by `s`, then by `t * direction` |
| Intervals.Interval.Size | src/interval.rs:23-25 | `max - min`: NaN exactly when both ends are the same infinity; the finite difference for finite ends; `+inf` when `max = +inf` or `min = -inf` and the other end is not that same infinity; `-inf` when `min = +inf` or `max = -inf` likewise |
| Intervals.Interval.Clamp | src/interval.rs:35-37 | a contained value is returned unchanged; a value below `min` gives `min`; for a non-empty interval the result lies inside it and a value above `max` gives `max` |
| Intervals.Interval.Expand | src/interval.rs:39-45 | each end moves outward by half of `delta`, so a finite size grows by `delta` |
| Intervals.New | src/interval.rs:8-10 | the ends are the given ones |
| Intervals.Empty | src/interval.rs:12-14 | `max < min`, and no number is contained |
| Intervals.Universe | src/interval.rs:16-21 | every number is contained in it and surrounded by it |
| Intervals.Enclosing | src/interval.rs:47-52 | the result encloses both arguments, taking each end from one of them |
| Intervals.EnclosingContains | src/interval.rs:47-52 | a number in either argument is in the enclosure |
| Intervals.EnclosingCommutes | src/interval.rs:47-52 | the order of the arguments does not matter |
| Intervals.EnclosingEmpty | src/interval.rs:47-52 | the empty interval is a neutral element on both sides |
| Intervals.SurroundsImpliesContains | src/interval.rs:27-33 | a surrounded value is contained |
| Boxes.Aabb.AxisInterval | src/aabb.rs:47-53 | axis 1 selects y, axis 2 selects z, and every other axis selects x |
| Boxes.Aabb.SlabStep | src/aabb.rs:59-80 | one slab can only narrow the parameter interval |
| Boxes.Aabb.Hit | src/aabb.rs:55-86 | the loop over the three axes returns exactly the slab-test predicate `Hits` |
| Boxes.Aabb.LongestAxis | src/aabb.rs:88-106 | the answer is an axis below 3; when all sizes are defined, no axis is longer than it |
| Boxes.Recip | src/aabb.rs:61 | `1 / d` for non-zero `d` is the finite, non-zero reciprocal; `1 / 0` is `+inf` |
| Boxes.ExtMul | src/aabb.rs:62-63 | the product is NaN exactly for zero times an infinity; finite factors multiply; a non-zero factor times an infinity, or two infinities, give the infinity whose sign is the product of the signs |
| Boxes.PadToMinimum | src/aabb.rs:108-119 | the box comes back unchanged, because the expanded interval is discarded |
| Boxes.New | src/aabb.rs:11-19 | the box has the three given intervals |
| Boxes.Empty | src/aabb.rs:21-27 | every axis is the empty interval |
| Boxes.FromPoints | src/aabb.rs:29-37 | on every axis the interval is finite and ordered, contains both points, and has an end at each point |
| Boxes.FromBoxes | src/aabb.rs:39-45 | on every axis the result encloses both boxes and is their `enclosing` interval |
| Boxes.FromBoxesEmpty | src/aabb.rs:21-45 | the empty box is neutral for `from_boxes` on both sides |
| Boxes.EmptyRangeMisses | src/aabb.rs:55-86 | a parameter interval with `max <= min` never hits |
| Boxes.FlatAxisMisses | src/aabb.rs:55-86 | a box of zero thickness on an axis the ray crosses is never hit, because the slab interval becomes empty |
| Boxes.WiderRangeHits | src/aabb.rs:55-86 | raising the upper end of `ray_t` never turns a hit of the box into a miss |
| HitRecords.HitRecord.SetFaceNormal | src/hittable.rs:23-30 | `front_face` holds exactly when the ray meets the outward normal head-on; the stored normal is the outward normal or its negation, so it always faces the ray; nothing else changes |
| HitRecords.NewRecord | src/hittable.rs:13-21 | the fresh record is zero, not front-facing, with a black Lambertian material |
| Hittables.Hittable.BoundingBox | src/hittable_list.rs:55-57 | a list or BVH node reports its stored box; a quad reports its box; a sphere's box contains its centre |
| Hittables.UpTo | src/hittable_list.rs:45 | the interval from `rayT.min` to the closest hit so far |
| Hittables.Hit | src/hittable.rs:39-41 | on a miss the record is untouched; on a hit `t` lies in `rayT` and `p` is the point of the ray at `t` |
| Hittables.Scan | src/hittable_list.rs:38-53 | the scan keeps a hit once found, and every reported `t` lies in `rayT` at or before the current closest; that it is the nearest is NearestHits.ScanNearest |
| Hittables.HitIgnoresRecord | src/hittable.rs:39-41 | whether an object is hit, and at which `t`, does not depend on the record passed in |
| Hittables.EmptyListMisses | src/hittable_list.rs:38-53 | an empty list never reports a hit and leaves the record alone |
| Hittables.ListHitIffSomeObjectHit | src/hittable_list.rs:38-53 | a list is hit exactly when some object in it is hit on the whole `rayT` |
| Hittables.ScanBeforeAnyHit | src/hittable_list.rs:44-50 | the scan from item `i` with no hit yet finds one exactly when some later object is hit |
| Hittables.BvhBoxMissSkipsChildren | src/bvh.rs:75-78 | a node whose box the ray misses reports a miss and leaves the record alone |
| Hittables.BvhCombinesChildren | src/bvh.rs:75-88 | a node is hit exactly when a child is, and never further away than the left child's hit; that it is the nearer of the two is NearestHits.BvhHitIsNearest |
| NearestHits.NearRootFirst | src/sphere.rs:30-33 | with an exact square root, the root `(h - sqrt(disc)) / a` tried first is never past `(h + sqrt(disc)) / a` |
| NearestHits.SphereNarrow | src/sphere.rs:21-46 | lowering the upper end of `rayT` to `m` keeps a sphere hit found below `m` at the same `t`, and finds no hit the wider query would not find at the same `t` |
| NearestHits.QuadNarrow | src/quad.rs:56-82 | the same narrowing property for a quad, whose only candidate is the plane's `t` |
| NearestHits.Narrow | src/hittable.rs:39-41 | the narrowing property holds for spheres, quads, lists and BVH nodes nested to any depth, whenever every BVH node's box passes the ray on `[min, m]` once a child is hit before `m` (`BoxesAdmit`) |
| NearestHits.BvhNarrow | src/bvh.rs:75-88 | a BVH node narrows: its box passes the narrowed query when the wide answer lies below `m`, passes the wide query when the narrowed one does, and the children's answers narrow |
| NearestHits.BoxAdmitsNarrow | src/bvh.rs:75-88 | a node's answer below `m` comes from a child hit below `m`, so under `BoxesAdmit` its box passes `[min, m]` |
| NearestHits.ChildrenNarrow | src/bvh.rs:80-87 | with the box passing both queries, the left child is asked the query and its narrowing, and the right child either the same cut query twice or a query and its narrowing, so the node's answers narrow |
| NearestHits.ObjectsNarrow | src/hittable_list.rs:44-45 | every object of a list narrows when asked with a fresh record, given `BoxesAdmit` for the list |
| NearestHits.NearestNarrows | src/hittable_list.rs:38-53 | two nearest answers over the same objects, on `rayT` and on `rayT` cut at `m`, narrow as their objects do |
| NearestHits.HitStep | src/hittable_list.rs:45-48 | a loop step that hits at `t` and continues on `[min, t]` keeps the answer the nearest over all remaining objects |
| NearestHits.ScanNearest | src/hittable_list.rs:38-53 | from any point of the loop, no remaining object is hit on `[min, closest]` before the loop's answer, and that answer is the record carried in or one of those hits, given `BoxesAdmit` for the list |
| NearestHits.ListHitIsNearest | src/hittable_list.rs:39-53 | `HittableList::hit` reports the nearest hit: no object is hit on `rayT` before it, and some object is hit exactly there, for objects (BVH nodes included) satisfying `BoxesAdmit` |
| NearestHits.BvhHitIsNearest | src/bvh.rs:75-88 | when the ray passes the node's box, the node's hit is no further than either child's hit on `rayT` and equals one of them, for a right child satisfying `BoxesAdmit` |
| FlatQuads.BvhOverFlatQuadMisses | src/bvh.rs:75-78 | a node built over one quad lying in a plane `x_k = const` rejects, at its box test, every ray crossing that plane, on any `rayT`, and so reports no hit |
| FlatQuads.HiddenQuadHit | src/bvh.rs:75-88 | when such a quad is hit on `[min, +inf]` before `m`, the node built over it still reports no hit, and it does not satisfy `BoxesAdmit` |
| FlatQuads.BvhHidesFloorQuad | src/bvh.rs:75-88 | the unit square on the floor `z = 0`, hit on its own by the straight-down ray through its centre on `[0.001, +inf]`, is not hit through a BVH node built over it, and that node does not satisfy `BoxesAdmit` |
| FloorQuads.FloorQuadHit | src/quad.rs:56-82 | the straight-down ray from `(0.5, 0.5, 1)` hits the unit floor square at `t = 1` on `[0.001, +inf]` |
| FloorQuads.FloorQuadPlane | src/quad.rs:15-20 | with `sqrt(1) = 1`, the unit floor square built by `Quad::new` has normal `+z`, `d = 0` and `w = +z` |
| Hittables.HitKeepsMaterials | src/hittable.rs:39-41 | any property shared by every material in the scene, the incoming record's material and the fresh record's material also holds for the returned record's material |
| HittableLists.HittableList.AsHittable | src/hittable_list.rs:3-6 | the list as a scene object carries the same objects and box |
| HittableLists.HittableList.New | src/hittable_list.rs:9-13 | the list holds just the item, and its box is the item's box |
| HittableLists.HittableList.Empty | src/hittable_list.rs:15-20 | no objects and the empty box |
| HittableLists.HittableList.Add | src/hittable_list.rs:22-25 | the item is appended, and the box grows to enclose the old box and the item's box |
| HittableLists.HittableList.Clear | src/hittable_list.rs:27-29 | the objects are removed; the box is kept as it was |
| HittableLists.HittableList.Hit | src/hittable_list.rs:39-53 | the loop returns exactly the value of the recursive specification `Hittables.Hit`; on a miss the record is untouched; an empty list misses |
| Spheres.Sphere.Hit | src/sphere.rs:21-46 | it misses when the discriminant is negative or the direction is zero; a hit is strictly inside `rayT`, at the near root if that is inside and otherwise the far root; the normal faces the ray; the material is the sphere's |
| Spheres.Sphere.BoundingBox | src/sphere.rs:3-7 | the box contains the centre |
| Spheres.New | src/sphere.rs:10-17 | a negative radius is clamped to 0; the centre and material are kept |
| Spheres.HitOnSurface | src/sphere.rs:21-46 | with an exact square root every reported hit point lies on the sphere |
| Spheres.RootOnSurface | src/sphere.rs:26-39 | either root of the quadratic puts `ray.at(t)` at distance `radius` from the centre |
| Spheres.RootOfQuadratic | src/sphere.rs:26-33 | `(h +- sqrt(h^2 - a c)) / a` solves `a t^2 - 2 h t + c = 0` |
| Quads.Quad.SetBoundingBox | src/quad.rs:35-39 | only the box changes, and it contains all four corners |
| Quads.Quad.Hit | src/quad.rs:56-82 | the quad is hit exactly when the ray is not almost parallel to the plane, the plane's `t = (d - n . origin) / (n . direction)` lies in `rayT`, and both planar coordinates of the point at `t` lie in `[0, 1]`; a hit is at that `t`, on the plane `n . p = d`, records those coordinates as `(u, v)` and a normal facing the ray; on a miss the record is untouched |
| Quads.DegenerateQuadMisses | src/quad.rs:56-60 | a quad whose edges are parallel (`u x v = 0`) is never hit: its normal is zero, so every ray counts as parallel to it |
| Quads.New | src/quad.rs:15-33 | the normal is orthogonal to both edges, and of unit length for non-parallel edges with an exact square root; `d = n . q`; the box contains the four corners |
| Quads.AxisAlignedQuadFlatBox | src/quad.rs:35-39 | when both edges have a zero `k` component, the quad's box on axis `k` is the single point `q_k`: the padding leaves it flat |
| Quads.IsInterior | src/quad.rs:41-52 | accepts exactly when both coordinates lie in `[0, 1]`, and then records them; otherwise the record is untouched |
| Quads.OnPlane | src/quad.rs:62-67 | the `t` solved for puts the ray point on the plane |
| Quads.PlanarCoordinates | src/quad.rs:67-70 | the point `q + a u + b v` has planar coordinates exactly `(a, b)` |
| Quads.EdgeCoordinates | src/quad.rs:67-70 | with `w = n / (n . n)`, the coordinates of `a u + b v` are `a` and `b` |
| Quads.CrossOfCombination | src/quad.rs:69-70 | `(a u + b v) x v = a (u x v)` and `u x (a u + b v) = b (u x v)` |
| Materials.LambertianNew | src/material.rs:19-21 | a Lambertian material with the given albedo |
| Materials.MetalNew | src/material.rs:51-56 | the fuzz is capped at 1 and otherwise kept |
| Materials.DielectricNew | src/material.rs:81-83 | a dielectric with the given refractive index |
| Materials.PowUnitInterval | src/material.rs:87 | a power of a number in `[0, 1]` stays in `[0, 1]` |
| Materials.ReflectanceNormalIncidence | src/material.rs:85-88 | at `cos = 1` Schlick's reflectance is `r0` |
| Materials.R0Bounds | src/material.rs:86 | `r0` lies in `[0, 1]` for a non-negative index |
| Materials.ReflectanceBounds | src/material.rs:85-88 | for a cosine in `[0, 1]`, the reflectance lies between `r0` and 1 |
| Scattering.ScatterLambertian | src/material.rs:24-42 | it always scatters from the hit point, tinted by the albedo; the direction is `normal + randomUnit` when that sum is not near zero, and exactly `normal` when it is |
| Scattering.ScatterMetal | src/material.rs:59-73 | the reflected, fuzzed direction from the hit point; it scatters exactly when that direction leaves on the normal's side |
| Scattering.RefractionRatio | src/material.rs:100-104 | `1 / index` on a front face and `index` on a back face, always positive |
| Scattering.CosTheta | src/material.rs:106 | the cosine is `-d . n` when that is at most 1, and 1 otherwise |
| Scattering.ScatterDielectric | src/material.rs:91-118 | it always scatters, untinted; it reflects under total internal reflection or when the reflectance exceeds the draw, and refracts otherwise |
| Scattering.Scatter | src/material.rs:3-11 | only a metal can absorb; the scattered ray starts at the hit point at the incoming time; the attenuation is the albedo, or white for glass |
| Scattering.MirrorScattersIffIncoming | src/material.rs:67-71 | a fuzz-free mirror with a unit normal scatters exactly when the incoming ray meets the surface from the normal's side |
| Textures.Texture.Value | src/texture.rs:47-60 | a solid colour ignores its arguments; a checker board defers to the even texture on even cells and to the odd one otherwise |
| Textures.SolidNew | src/texture.rs:12-14 | the texture shows its albedo everywhere |
| Textures.CheckerNew | src/texture.rs:30-36 | the inverse scale is `1 / scale`, infinite for scale 0; the even and odd textures are kept |
| Textures.FromColours | src/texture.rs:38-44 | the even cells show `c2` and the odd cells `c1` |
| Textures.LatticeCoord | src/texture.rs:49-51 | `floor(inv_scale * x) as i32` saturates to the `i32` range and is exact inside it |
| Textures.ShiftFlipsChecker | src/texture.rs:47-60 | moving one cell width along x swaps the colour shown |
| Textures.ShiftByCell | src/texture.rs:49 | adding `1 / s` to `x` raises `floor(s x)` by one |
| Bvh.BoxCompare | src/bvh.rs:50-59 | `Less`, `Equal` or `Greater` exactly as the lower box ends compare on the axis |
| Bvh.ComparatorAxis | src/bvh.rs:25-33 | axes 0 and 1 select themselves; any other axis selects z |
| Bvh.UnionOfBoxes | src/bvh.rs:11-15 | the accumulated box encloses the box of every object |
| Bvh.BoxOfRange | src/bvh.rs:11-15 | the loop computes the union of the boxes of `objects[start..end]`, which encloses every one of them |
| Bvh.UnionExtends | src/bvh.rs:12-15 | one more object merges its box into the running union |
| Bvh.SortRange | src/bvh.rs:25-33 | the range ends sorted by key and is a permutation of itself; nothing outside it moves |
| Bvh.InsertLast | src/bvh.rs:25-33 | sinking the next object keeps the prefix sorted and the range a permutation; nothing outside moves |
| Bvh.SinkStep | src/bvh.rs:25-33 | a swap past a strictly greater key keeps the insertion invariant |
| Bvh.SinkDone | src/bvh.rs:25-33 | once the key below is no greater, the prefix is sorted |
| Bvh.SwapAdjacent | src/bvh.rs:25-33 | two neighbours exchange places; the range stays a permutation |
| Bvh.Build | src/bvh.rs:10-42 | the node is `BuiltOver` the range as it was on entry: its box is the union of the range's boxes; one object is both children, two are the children in order, and for three or more each child is built over one half, split at `span / 2`, of a reordering of the range sorted by the lower box end on the longest axis; the range is permuted in place, its halves ordered, and nothing outside it moves |
| Bvh.Mid | src/bvh.rs:34 | `start + span / 2` lies strictly inside a range of two or more |
| Bvh.SortedSplits | src/bvh.rs:25-36 | a sorted range splits into ordered halves at any point |
| Bvh.HalvesPermuted | src/bvh.rs:35-36 | building each half in turn keeps the halves ordered and the range a permutation |
| Bvh.FromList | src/bvh.rs:44-48 | the root is `BuiltOver` the list's objects, so its box is the union of all their boxes |
| Bvh.BuiltOverLeaves | src/bvh.rs:21-39 | a hierarchy built over a range holds, at its bottom, exactly the range's objects, each as often as the range does |
| Cameras.SaturatingU32 | src/camera.rs:42 | `x as u32` truncates and saturates at 0 and `u32::MAX` |
| Cameras.ImageHeight | src/camera.rs:42-43 | the height is at least 1 and fits a `u32`; for a quotient in range it is the truncated `width / aspect_ratio` |
| Cameras.Camera.GetRay | src/camera.rs:99-114 | the origin is the camera centre without defocus and a disk sample otherwise; the ray points at the pixel sample; its time is the drawn time |
| Cameras.CameraRange | src/camera.rs:132 | `[0.001, +inf)` |
| Cameras.RayColour | src/camera.rs:125-144 | depth 0 is black; a miss shows the sky; an absorbed ray is black |
| Cameras.BackgroundBounds | src/camera.rs:141-143 | the sky colour lies between white and `(0.5, 0.7, 1.0)` on every channel |
| Cameras.MulUnitColour | src/camera.rs:136 | attenuating a unit colour by a unit colour gives a unit colour |
| Cameras.RayColourBounded | src/camera.rs:125-144 | if every material's albedo lies in `[0, 1]`, every colour returned lies in `[0, 1]`, so light is never amplified |
| Noise.Identity | src/perlin.rs:73-75 | entry `i` of the initial table is `i` |
| Noise.Swap | src/perlin.rs:83 | the two entries exchange places and the others stay |
| Noise.Shuffle | src/perlin.rs:80-85 | the descending shuffle, one swap per index from `N - 1` down to 0, keeps the table's length |
| Noise.SwapPermutes | src/perlin.rs:83 | a swap is a permutation |
| Noise.ShufflePermutes | src/perlin.rs:80-85 | the whole descending shuffle is a permutation |
| Noise.ShuffleStep | src/perlin.rs:81-84 | one swap, then the shuffle of the rest, is the whole shuffle |
| Noise.Permute | src/perlin.rs:80-85 | the loop leaves the array equal to the shuffle of its old contents, a permutation of them |
| Noise.SwapEntries | src/perlin.rs:83 | the array afterwards is `Swap` of the array before |
| Noise.GeneratePerm | src/perlin.rs:72-78 | the table is a shuffle of `0 .. N-1`, hence a permutation of it |
| Noise.RangePermutationBounds | src/perlin.rs:46-50 | every entry of a permutation of `0 .. N-1` lies in `[0, N)` |
| Noise.Interp | src/perlin.rs:87-107 | the triple loop accumulates exactly the eight-term blend `InterpSum` |
| Noise.InterpVanishesAtCorners | src/perlin.rs:87-107 | at a lattice point, where u, v and w are 0 or 1, the blend is 0 |
| Noise.CornerTermVanishes | src/perlin.rs:97-101 | each of the eight terms is 0 at a lattice point |
| Noise.LatticeIndexInBounds | src/perlin.rs:47-49 | `(i + d) & (N - 1)` lies in `[0, N)` for every `i` |
| Noise.LatticeIndexIsRemainder | src/perlin.rs:47-49 | for `N = 2^k`, the mask is the remainder of `i + d` modulo `N` |
| Noise.Lookup | src/perlin.rs:46-49 | a table lookup gives an entry below `N` |
| Noise.UnitVectors | src/perlin.rs:12-15 | each gradient is the unit vector of its draw |
| Noise.NewPermTable | src/perlin.rs:17-22 | a fresh table holding a shuffle of `0 .. N-1`, which is a permutation of it |
| Noise.New | src/perlin.rs:11-30 | after construction the three tables are permutations of `0 .. N-1`, and the gradients are the normalised draws |
| Noise.Perlin.Hash | src/perlin.rs:46-50 | a defined gradient index is below `N` |
| Noise.Perlin.HashDefined | src/perlin.rs:46-50 | for `N` a power of two the XOR of three entries stays below `N`, so no gradient lookup fails |
| Noise.Perlin.Corner | src/perlin.rs:46-50 | a defined corner is the gradient at the hashed index |
| Noise.Perlin.Corners | src/perlin.rs:41-53 | a 2 by 2 by 2 cube whose `[a][b][e]` entry is that corner's gradient |
| Noise.Perlin.GatherCorners | src/perlin.rs:41-53 | the loop succeeds exactly when all eight lookups are in bounds, and then fills the cube of corner gradients |
| Noise.Perlin.GatherFace | src/perlin.rs:44-52 | the middle loop succeeds exactly when its four lookups are in bounds, and fills that face |
| Noise.Perlin.GatherEdge | src/perlin.rs:45-51 | the inner loop succeeds exactly when its two lookups are in bounds, and fills that edge |
| Noise.Perlin.Noise | src/perlin.rs:32-56 | the method returns exactly `NoiseValue`, which panics where a gradient lookup would be out of bounds |
| Noise.Perlin.NoiseFn | src/perlin.rs:32-56 | on valid tables, the function samples exactly `NoiseValue` |
| Noise.Perlin.Turb | src/perlin.rs:58-70 | `turb` is the turbulence of this noise, and a returned value is never negative |
| Noise.Perlin.NoiseVanishesAtLattice | src/perlin.rs:32-56 | noise is 0 at every integer lattice point |
| Noise.Perlin.NoiseDefined | src/perlin.rs:32-56 | for `N` a power of two, `noise` never panics |
| Noise.Perlin.CornersDefinedForPow2 | src/perlin.rs:43-53 | for `N` a power of two, all eight corner lookups are in bounds |
| Noise.AddTo | src/perlin.rs:64 | adding to the remaining sum panics exactly when the remaining sum does, and otherwise adds |
| Noise.AddToZero | src/perlin.rs:59 | starting from 0 adds nothing |
| Noise.AddToAssociates | src/perlin.rs:64 | adding `b`, then `a`, is adding `a + b` |
| Noise.TurbValue | src/perlin.rs:58-70 | panics exactly when an octave panics; otherwise it is the absolute value of the weighted sum, so never negative |
| Noise.Turbulence | src/perlin.rs:58-70 | the loop returns exactly `TurbValue` |
| Noise.TurbAdvance | src/perlin.rs:63-67 | one iteration moves one octave from the remaining sum into `accum`, halving the weight and doubling the point |
| Noise.TurbFewOctaves | src/perlin.rs:58-70 | depth 0 gives 0, and depth 1 gives the absolute value of a single noise sample |
| Noise.TurbBounded | src/perlin.rs:58-70 | for noise in `[-1, 1]` the weighted sum never panics, and its magnitude is at most twice the first weight |
| Noise.OctaveBounded | src/perlin.rs:64 | one octave is at most its weight in magnitude |
| Images.Linearise | src/rtw_image.rs:57-64 | the stored byte is `floor(b * b / 255)`, which is at most `b`; it fixes 0 and 255 |
| Images.LineariseMonotone | src/rtw_image.rs:57-64 | a brighter byte never linearises to a darker one |
| Images.LinearFloat | src/rtw_image.rs:66-72 | the float channel `(b / 255)^2` lies in `[0, 1]` |
| Images.LineariseAll | src/rtw_image.rs:57-64 | every byte is mapped in order, and none grows |
| Images.LinearFloats | src/rtw_image.rs:66-72 | every channel is mapped in order into `[0, 1]` |
| Images.ByteIsScaledFloat | src/rtw_image.rs:57-72 | the stored byte is the float channel at full scale, truncated |
| Images.LoadedBuffersAgree | src/rtw_image.rs:57-72 | the byte and float buffers that `load` fills agree channel by channel |
| Images.WrapI32 | src/rtw_image.rs:91-92 | `u32 as i32` is exact up to `i32::MAX` and negative above it |
| Images.Clamp | src/rtw_image.rs:98-100 | it panics exactly when `max - 1 < min`; otherwise the result lies in `[min, max - 1]`, and an in-range value is unchanged while one outside goes to the nearer bound |
| Images.ClampIdempotent | src/rtw_image.rs:98-100 | clamping twice is clamping once |
| Images.PixelOffset | src/rtw_image.rs:94 | for `x < width`, the bytes of pixel `(x, y)` end within the first `y + 1` rows |
| Images.OffsetInBuffer | src/rtw_image.rs:94-95 | the pixel at `(x, y)` inside the image starts a whole pixel within a buffer of `width * height * bpp` bytes |
| Images.RtwImage.Empty | src/rtw_image.rs:15-21 | the initial image has 3 bytes per pixel, size 0 by 0, and no data |
| Images.RtwImage.Load | src/rtw_image.rs:50-75 | a file that cannot be opened changes nothing; otherwise the size is set, and both buffers hold the linearised bytes |
| Images.RtwImage.PixelData | src/rtw_image.rs:85-96 | without data it answers magenta `[255, 0, 255]`; with data and a zero width or height it panics; any answer is 3 bytes |
| Images.RtwImage.PixelInBounds | src/rtw_image.rs:91-95 | for a buffer of `width * height * 3` bytes, an in-range pixel is answered with the 3 bytes starting at `(y * width + x) * 3`, which lie in the buffer |
| Images.RtwImage.PixelClampsToEdge | src/rtw_image.rs:91-92 | coordinates off the image answer with the nearest edge pixel |

## Left out

- IEEE-754 rounding, signed zero and subnormals: arithmetic is exact. NaN is modelled only where the source can produce it on purpose: `inf - inf` in `Interval::size` and `0 * inf` in the slab test. The `partial_cmp().unwrap()` panic in `box_compare` (src/bvh.rs:58) needs a NaN box bound and so does not arise.
- The square root is a parameter; `tan`, `degrees_to_radians`, `PI` and the viewport geometry of `Camera::new` (src/camera.rs:45-72) are not modelled. The camera's `pixel00_loc`, pixel deltas and defocus-disk vectors are fields of the model's camera rather than computed.
- Randomness: `random_double`, `random_int_range`, `random_unit_vector`, `random_in_unit_disk` and `Vec3::random*` (src/lib.rs:40-50, src/vec3.rs:19-29, 67-97) are parameters. Their rejection loops and the unit-vector and unit-disk guarantees of the draws are not modelled; `random_int_range(0, i)` yielding a target in `[0, i]` is the precondition `ValidTargets`.
- I/O: `Camera::render` (stdout and stderr), `write_colour` in src/colour.rs, and the file search and decoding in `RtwImage::new` and `load` (environment variables, the file system, the image crate). `Images.RtwImage.Load` receives the decoded image, or its absence, as a parameter.
- `RtwImage::width`, `RtwImage::height` and the `Ray`, `Vec3` getters: plain field reads, modelled by field access.
- src/main.rs (scene construction) and the module plumbing of src/lib.rs.
- `Rc` sharing: children, materials and textures are values, so aliasing is not modelled.
- Integer widths: `usize` overflow in the image index `(y * width + x) * bpp` is not modelled; it needs images of more than 2^62 pixels.
- Noise.Perlin.NoiseValue: `i + di` wraps modulo 2^32, as in a release build. A debug build panics there on `i32::MAX + 1`.
- Textures.Texture.Value: the `i32` sum `x_int + y_int + z_int` is unbounded. A release build wraps modulo 2^32, which changes the sum by a multiple of 2^32 and so keeps its parity: the model gives the release build's colour. The panic of a debug build on that overflow is not modelled.
- Bvh.SortRange: modelled as a stable insertion sort. `sort_by` is also stable, but its algorithm and comparison count are not modelled; only its result (sorted, a permutation, nothing else moved) is stated.
- Spheres.Sphere.BoundingBox: src/sphere.rs defines no `bounding_box`, although `BVHNode` and `HittableList` call one on every object. The model uses the cube `centre -/+ radius`.
- Spheres.Sphere.OutwardNormal: a zero radius divides `0 / 0`; the model returns the zero vector there instead of NaN.
- Quads.New: parallel edges make `n = u x v` zero, and the source's `w = n / (n . n)` and unit normal are NaN vectors; the model sets both to the zero vector instead. Either way such a quad is never hit: the source's `t` is NaN and fails `ray_t.contains`, and the model's ray counts as parallel (Quads.DegenerateQuadMisses). `PlanarCoordinates` requires non-parallel edges.
- Materials.DielectricNew: the refractive index is required to be positive, because Schlick's formula divides by `1 + index`.
- Noise.Perlin.Turb samples noise through `Noise.Perlin.NoiseFn`, the function `Noise.Perlin.Noise` is proved to compute, since a loop cannot call a method from a function.
- Noise.Perlin.GatherCorners: the triple loop of `noise` is split into three nested methods: `GatherCorners`, `GatherFace` and `GatherEdge`.
- Noise.Perlin.Hash: for an `N` that is not a power of two, the XOR of three entries can reach `N`, and `randvec[...]` then panics. The model gives `None`, and `noise` then gives `Panics`. The table size is limited to `i32::MAX` because of `N as i32`.
- Boxes.PadToMinimum: `expand` returns a new interval that the source discards, so padding changes nothing; the model keeps that behaviour.
- The `Hittable` trait in src/hittable.rs:39-41 declares only `hit`, while src/bvh.rs and src/hittable_list.rs call and define `bounding_box`; the model gives every object a `BoundingBox`.
- `Camera::new` assigns `image_height` twice; the model computes the final value in one function, Cameras.ImageHeight.
- Bvh.FromList: `from_list` of an empty list calls `BVHNode::new(objects, 0, 0)`, whose span of 0 takes the sorting branch and recurses on the same empty range for ever (a stack overflow). The model requires a non-empty list, as `Build` requires a non-empty range.
- Images.Clamp: `max - 1` is computed as in a debug build, so `clamp` panics for `max = i32::MIN`, where `max - 1` overflows. A release build wraps `max - 1` to `i32::MAX` and clamps into `[min, i32::MAX]` without panicking; that release-build behaviour is not modelled. The case arises in `pixel_data` for an image width or height of exactly 2^31, which `as i32` turns into `i32::MIN`.
- NearestHits.Narrow: proved for objects satisfying `NearestHits.BoxesAdmit`: every BVH node inside must pass the ray on `[min, m]` whenever one of its children is hit on `[min, +inf]` before `m`. That the boxes `Bvh.Build` computes meet this is not proved. The slab test does not pass every point a box encloses: a flat box is never hit (Boxes.FlatAxisMisses), and `pad_to_minimums` leaves it flat (Boxes.PadToMinimum). So the hypothesis is not met in general: a BVH node over an axis-aligned quad fails it and hides the quad (FlatQuads.HiddenQuadHit, FlatQuads.BvhHidesFloorQuad).
- NearestHits.ListHitIsNearest: requires `BoxesAdmit` of every object, for the reason given for NearestHits.Narrow; `ObjectsNarrow` and `ScanNearest` carry the same hypothesis.
- NearestHits.BvhHitIsNearest: requires `BoxesAdmit` of the right child, for the reason given for NearestHits.Narrow.
