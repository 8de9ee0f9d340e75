# A verified model of a ray tracer's bounding volume hierarchy

This project models, in Dafny, the core of a small physically based ray tracer written in Rust:

- the bounding volume hierarchy (BVH) accelerator: how it collects primitives, builds a tree
  by the surface area heuristic (SAH), flattens the tree into a depth-first node array and
  walks that array with a fixed 64-entry stack;
- the axis-aligned boxes it is made of (`Bounds3f`) and their planar cousin (`Bounds2f`);
- the two other implementations of the `Primitive` interface: the brute-force aggregate and
  the `GeometricPrimitive` wrapper around a shape;
- the rays (`Ray`, `RayDifferential`) and medium interfaces they carry;
- the sample bookkeeping of the pixel sampler;
- the componentwise vector helpers and `face_forward`.

Coordinates are extended reals: a `Float` is a finite real, plus or minus infinity, or NaN.
Comparisons follow IEEE 754, so every comparison with NaN is false. `min` and `max` follow
Rust's `f32::min`/`f32::max` and ignore a NaN operand. Arithmetic is exact: nothing is rounded.

A Rust panic is the `Panicked` case of `Outcome<T>`. Shapes, materials, area lights and media
are shared through reference-counted handles in the renderer; here each is the integer that
identifies its handle, so "the same `Arc`" is integer equality.

Where the Rust mutates state in place, the model does so too:

- `BVHAccel`, `BruteForceAggregate` and `PixelSampler` are classes whose methods update their fields.
- The build rearranges an `array` of primitive records in place.
- The traversal walks the node list with an `array` stack.

Each such method is proved against a specification function:

- the walk of the node array computes the depth-first visit `VisitTree` of the build tree;
- every sampler method leaves the fields as the matching function of `Samplers` says;
- the build produces a tree satisfying `Built`, which fixes every node's bound and every
  leaf's run of the reordered primitive list.

The properties of those functions are proved as lemmas.

Some behaviours of the code as written are modelled faithfully and characterised by lemmas:

- The SAH bucket counting casts the offset to an integer before scaling it, so only buckets 0
  and 11 are ever counted into (`BvhSplit.MiddleBucketsStayEmpty`).
- `get_1d_array` reads the array before the current offset, which panics right after
  `start_pixel` whenever an array was requested (`Samplers.FirstArrayAfterStartPixel`).
- `get_2d_array` tests the 1D offset (`Samplers.Get2DArrayFollows1D`).
- The BVH's box test can cull a ray running exactly inside a face of a box, through a NaN
  (`Bounds3.GrazingRayCulled`).
- The brute-force aggregate keeps the record with the smallest interaction time, not the
  nearest hit (`BruteForce.FirstHitKept`).

`Ray` as declared has no medium field, yet `GeometricPrimitive::intersect` reads `ray.medium`.
The model gives every ray an optional medium, and the constructors leave it empty.

## Model

| member | source | states |
|---|---|---|
| `Helpers.CeilN` | src/geometry/helpers.rs:3-11 | same dimension; each finite component becomes the least integer at or above it, infinities and NaN stay |
| `Helpers.FloorN` | src/geometry/helpers.rs:13-21 | same dimension; each finite component becomes the greatest integer at or below it, infinities and NaN stay |
| `Helpers.MinN` | src/geometry/helpers.rs:23-32 | same dimension; each component is one of the two inputs' and, without NaN, at or below both |
| `Helpers.MaxN` | src/geometry/helpers.rs:34-43 | same dimension; each component is one of the two inputs' and, without NaN, at or above both |
| `Helpers.MinBelowMax` | src/geometry/helpers.rs:23-43 | `min(a, b) <= max(a, b)` componentwise for NaN-free points |
| `Helpers.MinMaxSelf` | src/geometry/helpers.rs:23-43 | `min(a, a) == max(a, a) == a`, NaN components included |
| `Helpers.MinMaxCommute` | src/geometry/helpers.rs:23-43 | `min` and `max` do not depend on argument order |
| `Geometry.FaceForward` | src/geometry/mod.rs:11-17 | `-n` exactly when `n . v < 0`, otherwise `n` unchanged |
| `Geometry.FaceForwardFacesV` | src/geometry/mod.rs:11-17 | for finite vectors the result never points away from `v`: `face_forward(n, v) . v >= 0` |
| `Geometry.FaceForwardIdempotent` | src/geometry/mod.rs:11-17 | applying it twice is applying it once, for every input |
| `Media.NewInterface` | src/medium/medium_interface.rs:22-27 | the empty interface is not "same on both sides", so it is a transition |
| `Media.InitInterface` | src/medium/medium_interface.rs:29-34 | same on both sides exactly when the two media are the same handle |
| `Media.InitOne` | src/medium/medium_interface.rs:36-41 | one medium on both sides is the same on both sides and no transition |
| `Media.MissingSideIsTransition` | src/medium/medium_interface.rs:43-62 | a missing side makes `inside_outside_same` false and `is_medium_transition` true |
| `Media.TransitionIffDistinct` | src/medium/medium_interface.rs:43-62 | with both sides present, a transition exactly when the handles differ |
| `Rays.InitRay` | src/geometry/ray.rs:22-36 | copies origin and direction; `t_max` defaults to +infinity and `time` to 0, given values are kept |
| `Rays.NewRay` | src/geometry/ray.rs:13-20 | the ray `init` makes from zero vectors and no `t_max` or time |
| `Rays.AtZeroIsOrigin` | src/geometry/ray.rs:38-40 | `at(0)` is the origin when the direction is finite |
| `Rays.AtIsAffine` | src/geometry/ray.rs:38-40 | `at(t) = o + d*t` componentwise for a finite ray |
| `Rays.InitRayDifferential` | src/geometry/ray.rs:83-92 | keeps the ray, no differentials, all four auxiliary vectors zero |
| `Rays.NewRayDifferential` | src/geometry/ray.rs:61-70 | the differential `init_ray` makes of `Ray::new` |
| `Rays.InitDifferential` | src/geometry/ray.rs:72-81 | the differential `init_ray` makes of `Ray::init` on the same arguments |
| `Rays.ScaledDifferentials` | src/geometry/ray.rs:94-99 | the scaled copy keeps the main ray and the differentials flag |
| `Rays.ScaleDifferentials` | src/geometry/ray.rs:94-99 | the caller's differential is unchanged by the call, which scales its own by-value copy |
| `Rays.ScaleByOneIsIdentity` | src/geometry/ray.rs:94-99 | scaling finite auxiliary rays by 1 leaves them where they are |
| `Rays.ScaleByZeroCollapses` | src/geometry/ray.rs:94-99 | scaling by 0 puts both auxiliary rays on the main ray |
| `Bounds2.New` | src/geometry/bounding_box_2.rs:13-21 | the whole plane: no NaN, non-empty, holds every NaN-free point |
| `Bounds2.Init` | src/geometry/bounding_box_2.rs:23-28 | ordered corners holding both points, inside every rectangle that holds both |
| `Bounds2.InitSymmetric` | src/geometry/bounding_box_2.rs:23-28 | the order of the two points does not matter |
| `Bounds2.InitOne` | src/geometry/bounding_box_2.rs:30-35 | holds exactly the points equal to `p`; equals `init(p, p)` |
| `Bounds2.Area` | src/geometry/bounding_box_2.rs:41-44 | non-negative for a finite non-empty rectangle, negative when inverted along x only |
| `Bounds2.MaxExtent` | src/geometry/bounding_box_2.rs:46-54 | 0 exactly when strictly wider than tall (ties give 1); the chosen side is the longest |
| `Bounds2.OffsetAxisFacts` | src/geometry/bounding_box_2.rs:60-70 | one axis of `offset`: in [0, 1] between the edges, 0 at the lower edge, 1 at the upper edge of a positive extent |
| `Bounds2.Offset` | src/geometry/bounding_box_2.rs:60-70 | for a point inside, every component in [0, 1]; 0 on a lower edge, 1 on an upper edge with positive extent |
| `Bounds2.Index` | src/geometry/bounding_box_2.rs:88-98 | index 0 is the lower corner and every other index the upper one |
| `Bounds2.NeIsNotEq` | src/geometry/bounding_box_2.rs:110-118 | `!=` is the negation of `==`; a rectangle with a NaN is not equal to itself |
| `Bounds2.WholePlane` | src/geometry/bounding_box_2.rs:13-54 | `new()` has infinite diagonal and area, and `max_extent` 1 (a tie) |
| `Bounds3.New` | src/geometry/bounding_box_3.rs:13-21 | the empty box: holds no point, and every NaN-free box encloses it |
| `Bounds3.Init` | src/geometry/bounding_box_3.rs:23-28 | non-empty and holds both points; it is the union of the two one-point boxes |
| `Bounds3.InitOne` | src/geometry/bounding_box_3.rs:30-35 | holds exactly the points equal to `p` |
| `Bounds3.Diagonal` | src/geometry/bounding_box_3.rs:37-39 | finite and non-negative on a finite non-empty box |
| `Bounds3.Corner` | src/geometry/bounding_box_3.rs:41-47 | bits 1, 2 and 4 of `c` pick the upper face on x, y and z; the corner is inside a non-empty box |
| `Bounds3.CornerExtremes` | src/geometry/bounding_box_3.rs:41-47 | corner 0 is `p_min` and corner 7 is `p_max` |
| `Bounds3.SurfaceArea` | src/geometry/bounding_box_3.rs:49-52 | finite and non-negative on a finite non-empty box |
| `Bounds3.AreaOfFiniteSides` | src/geometry/bounding_box_3.rs:49-52 | the area formula is finite and non-negative for finite non-negative sides |
| `Bounds3.EmptySurfaceArea` | src/geometry/bounding_box_3.rs:49-52 | the empty box has surface area +infinity |
| `Bounds3.PointSurfaceArea` | src/geometry/bounding_box_3.rs:49-52 | a one-point box has surface area 0 |
| `Bounds3.FlatSurfaceArea` | src/geometry/bounding_box_3.rs:49-52 | a zero diagonal gives surface area 0 |
| `Bounds3.MaxExtent` | src/geometry/bounding_box_3.rs:60-69 | in {0, 1, 2}; 0 iff `dx` beats both, else 1 iff `dy > dz`, else 2; without NaN the axis is a longest one |
| `Bounds3.EmptyMaxExtent` | src/geometry/bounding_box_3.rs:60-69 | the empty box's diagonal is -infinity on every axis and its longest axis is z |
| `Bounds3.OffsetAxisFacts` | src/geometry/bounding_box_3.rs:75-88 | one axis of `offset`: in [0, 1] between the faces, 0 on the lower face, 1 on the upper face of a positive extent |
| `Bounds3.Offset` | src/geometry/bounding_box_3.rs:75-88 | for a point inside a finite box every component is in [0, 1]; 0 on lower faces, 1 on upper faces with positive extent |
| `Bounds3.InsideIsClosed` | src/geometry/bounding_box_3.rs:90-94 | a non-empty box holds both of its corners: the faces are inside |
| `Bounds3.UnionPt` | src/geometry/bounding_box_3.rs:183-192 | the result holds `p` and encloses the old box |
| `Bounds3.Union` | src/geometry/bounding_box_3.rs:194-203 | NaN-free, enclosing both operands |
| `Bounds3.UnionIsLeast` | src/geometry/bounding_box_3.rs:194-203 | a box encloses the union exactly when it encloses both operands |
| `Bounds3.UnionCommutesAndIdempotent` | src/geometry/bounding_box_3.rs:194-203 | commutative and idempotent on all boxes |
| `Bounds3.UnionAssociative` | src/geometry/bounding_box_3.rs:194-203 | associative on NaN-free boxes |
| `Bounds3.UnionWithEmpty` | src/geometry/bounding_box_3.rs:194-203 | `union(new(), b) == b == union(b, new())` for NaN-free `b` |
| `Bounds3.EnclosesTrans` | src/geometry/bounding_box_3.rs:194-203 | enclosure is transitive |
| `Bounds3.InsideEnclosed` | src/geometry/bounding_box_3.rs:90-94 | a point inside a box is inside every box enclosing it |
| `Bounds3.UnionPtIsUnionOne` | src/geometry/bounding_box_3.rs:183-192 | growing by a point is the union with that point's box |
| `Bounds3.Intersect` | src/geometry/bounding_box_3.rs:205-214 | NaN-free and enclosed by both operands |
| `Bounds3.InsideIntersect` | src/geometry/bounding_box_3.rs:205-214 | a point is inside the intersection exactly when inside both boxes |
| `Bounds3.OverlapsIffCommonPoint` | src/geometry/bounding_box_3.rs:216-222 | two non-empty boxes overlap exactly when some point lies in both |
| `Bounds3.Expand` | src/geometry/bounding_box_3.rs:224-227 | expanding a non-empty box by a non-negative amount encloses it |
| `Bounds3.ExpandAxis` | src/geometry/bounding_box_3.rs:224-227 | one axis of `expand` covers the old interval |
| `Bounds3.ExpandEmptyIsEverything` | src/geometry/bounding_box_3.rs:224-227 | expanding the empty box by a finite amount gives all of space |
| `Bounds3.Index` | src/geometry/bounding_box_3.rs:229-239 | index 0 is `p_min` and every other index `p_max` |
| `Bounds3.NeIsNotEq` | src/geometry/bounding_box_3.rs:251-259 | `!=` is the negation of `==`; a box with a NaN is not equal to itself |
| `Bounds3.IntersectP` | src/geometry/bounding_box_3.rs:106-131 | hits exactly when the slab clipping of `[0, t_max]` survives; outputs untouched on a miss; on a hit `0 <= t0 <= t1 <= t_max` |
| `Bounds3.SlabsStayEmpty` | src/geometry/bounding_box_3.rs:111-125 | once a slab empties the interval the test has failed |
| `Bounds3.SlabsBracket` | src/geometry/bounding_box_3.rs:106-131 | a surviving interval starts at or after 0, ends at or before `t_max` and is not reversed |
| `Bounds3.SlabsContain` | src/geometry/bounding_box_3.rs:111-125 | every parameter crossing the slabs seen so far stays in the interval |
| `Bounds3.IntersectPConservative` | src/geometry/bounding_box_3.rs:106-131 | a finite ray meeting the box within `[0, t_max]` is reported, with that parameter inside the interval |
| `Bounds3.SlabsExact` | src/geometry/bounding_box_3.rs:111-125 | every parameter of a surviving interval crosses each slab seen so far |
| `Bounds3.IntersectPExact` | src/geometry/bounding_box_3.rs:106-131 | the reported interval is a stretch of the ray inside the box |
| `Bounds3.IntersectPIffRayMeetsBox` | src/geometry/bounding_box_3.rs:106-131 | for a finite ray and box: a hit exactly when some point at a parameter in `[0, t_max]` is inside |
| `Bounds3.DirIsNeg` | src/shape/bounding_volume_heirarchy.rs:345 | three signs, each 0 or 1 |
| `Bounds3.SlabEntryExitIsAxis` | src/geometry/bounding_box_3.rs:133-164 | the near and far face picked through `self[dir_is_neg[i]]` and `self[1 - dir_is_neg[i]]` are those the ray's direction meets first and last |
| `Bounds3.AxisEntryExitBracket` | src/geometry/bounding_box_3.rs:133-164 | on an axis the ray moves along, or whose slab strictly holds the origin, the entry distance is at most and the widened exit distance at least every positive parameter inside the slab |
| `Bounds3.NarrowKeeps` | src/geometry/bounding_box_3.rs:146-177 | narrowing by a slab that brackets `t` keeps an interval bracketing `t` |
| `Bounds3.WithInvHitsBracketed` | src/geometry/bounding_box_3.rs:133-181 | three bracketing axes and a parameter in `(0, t_max)` make the test hit |
| `Bounds3.IntersectPWithInvConservative` | src/geometry/bounding_box_3.rs:133-181 | a finite ray inside the box at some `t` in `(0, t_max)` passes the BVH's box test, provided on every axis it moves or starts strictly between the faces |
| `Bounds3.GrazingRayCulled` | src/geometry/bounding_box_3.rs:133-181 | a ray running inside the face x = 0 of the unit box is culled, although `intersect_p` reports the crossing |
| `Floats.RobustScaleAtLeastOne` | src/geometry/bounding_box_3.rs:143-164 | the widening factor `1 + 2*gamma(3)` (with EPSILON = 0.0001) is at least 1 |
| `Primitives.NewInteraction` | src/shape/brute_force_aggregate.rs:45 | the blank record has time 0, no medium interface and no shape |
| `Primitives.RespectsChain` | src/shape/primitive.rs:8 | two calls that each only lower `t_max` together only lower `t_max` |
| `GeometricPrimitives.Intersect` | src/shape/geometric_primitive.rs:35-58 | on a shape miss ray and record unchanged; on a hit `t_max` becomes `t_hit`, the shape is recorded and the medium chosen |
| `GeometricPrimitives.ComputeScatteringFunction` | src/shape/geometric_primitive.rs:64-68 | no effect without a material, the material's effect with one |
| `GeometricPrimitives.IntersectPAgrees` | src/shape/geometric_primitive.rs:60-62 | the occlusion test answers as `intersect` would, whatever the record |
| `GeometricPrimitives.GeometricRespects` | src/shape/geometric_primitive.rs:35-58 | a shape keeping hits in `(0, t_max]` makes a primitive that only ever lowers `t_max` |
| `GeometricPrimitives.HitShrinksRay` | src/shape/geometric_primitive.rs:41 | after a hit `t_max` is finite, positive and not above the old one |
| `GeometricPrimitives.HitMediumTransition` | src/shape/geometric_primitive.rs:45-55 | the record is a transition exactly when the primitive's interface is; otherwise it is empty or the ray's medium on both sides |
| `BruteForce.BoundsOf` | src/shape/brute_force_aggregate.rs:17-20 | the box folded from the primitives' bounds has no NaN |
| `BruteForce.BoundsOfEncloses` | src/shape/brute_force_aggregate.rs:17-20 | the folded box holds every NaN-free primitive bound |
| `BruteForce.ScanHitIff` | src/shape/brute_force_aggregate.rs:40-57 | the result is true exactly when some primitive's test, made in order, returned true |
| `BruteForce.ScanMissKeepsRecord` | src/shape/brute_force_aggregate.rs:40-57 | without a hit the caller's record is untouched and the best time stays +infinity |
| `BruteForce.ScanRespects` | src/shape/brute_force_aggregate.rs:40-57 | when every primitive only lowers `t_max`, so does the scan, and a miss changes nothing |
| `BruteForce.ScanKeepsFirstEarliest` | src/shape/brute_force_aggregate.rs:48-54 | the kept record is a hit whose time is below every earlier hit's and at most every later hit's: the first hit of least time |
| `BruteForce.FirstHitKept` | src/shape/brute_force_aggregate.rs:48-54 | when all records share one time, the FIRST primitive hit is kept, not the nearest |
| `BruteForce.BruteForceAggregate.constructor` | src/shape/brute_force_aggregate.rs:10-15 | no primitives and the empty box |
| `BruteForce.BruteForceAggregate.AddPrimitive` | src/shape/brute_force_aggregate.rs:17-20 | appends the primitive and grows the box by its bound |
| `BruteForce.BruteForceAggregate.WorldBound` | src/shape/brute_force_aggregate.rs:36-38 | the stored box holds every NaN-free primitive bound |
| `BruteForce.BruteForceAggregate.Intersect` | src/shape/brute_force_aggregate.rs:40-57 | the loop's flag, ray and record are the scan's |
| `BruteForce.BruteForceAggregate.IntersectP` | src/shape/brute_force_aggregate.rs:60-64 | `intersect` with a scratch record |
| `BruteForce.AggregateRespects` | src/shape/brute_force_aggregate.rs:40-57 | an aggregate of contract-keeping primitives keeps the contract |
| `BvhNodes.InitInfo` | src/shape/bounding_volume_heirarchy.rs:14-23 | keeps number and bound; the centroid is finite and inside a finite non-empty bound |
| `BvhNodes.InfoBounds` | src/shape/bounding_volume_heirarchy.rs:152-156 | the bound folded over a run has no NaN |
| `BvhNodes.PrimsOf` | src/shape/bounding_volume_heirarchy.rs:161-164 | the primitives a run names, one per record in record order |
| `BvhNodes.Infos` | src/shape/bounding_volume_heirarchy.rs:123-126 | one record per primitive, numbered in list order |
| `BvhNodes.InitLeaf` | src/shape/bounding_volume_heirarchy.rs:44-50 | no children; first offset, count and bound as given |
| `BvhNodes.InitInterior` | src/shape/bounding_volume_heirarchy.rs:52-68 | no primitives, the axis and children as given; the bound is the union of the children present, or unchanged with none |
| `BvhNodes.HeightAtMostCount` | src/shape/bounding_volume_heirarchy.rs:148-297 | a built tree is never taller than its number of primitives |
| `BvhNodes.LaidFrame` | src/shape/bounding_volume_heirarchy.rs:299-319 | a flattened subtree depends only on the entries it occupies |
| `BvhBuild.BuiltCount` | src/shape/bounding_volume_heirarchy.rs:148-297 | a built tree holds exactly the records of its run, at least one |
| `BvhBuild.BuiltSound` | src/shape/bounding_volume_heirarchy.rs:148-297 | leaves hold at least one primitive of the ordered list; interior nodes hold none and have both children |
| `BvhBuild.InfoBoundsConcat` | src/shape/bounding_volume_heirarchy.rs:152-156 | the bound of a run is the union of the bounds of its two parts |
| `BvhBuild.BuiltBounds` | src/shape/bounding_volume_heirarchy.rs:52-68 | every node's bound is the bound of its whole run, whatever the splits |
| `BvhBuild.InfoBoundsEncloses` | src/shape/bounding_volume_heirarchy.rs:152-156 | the bound of a run holds each record's bound |
| `BvhBuild.BuiltEncloses` | src/shape/bounding_volume_heirarchy.rs:52-68 | the root's bound holds every record's bound |
| `BvhBuild.PrimsOfConcat` | src/shape/bounding_volume_heirarchy.rs:161-164 | two adjacent runs name their primitives one after the other |
| `BvhBuild.PrimsOfInfos` | src/shape/bounding_volume_heirarchy.rs:123-126 | the initial records name the primitive list itself |
| `BvhBuild.PrimsOfPermutation` | src/shape/bounding_volume_heirarchy.rs:131-135 | rearranged records name a rearrangement of the primitives |
| `BvhSplit.PermutedSwap` | src/shape/bounding_volume_heirarchy.rs:266 | a swap within the range only rearranges the range |
| `BvhSplit.RangeBounds` | src/shape/bounding_volume_heirarchy.rs:152-156 | the loop computes the run's folded bound |
| `BvhSplit.RangeCentroidBounds` | src/shape/bounding_volume_heirarchy.rs:169-172 | the loop computes the run's folded centroid bound |
| `BvhSplit.CentroidBoxFacts` | src/shape/bounding_volume_heirarchy.rs:169-172 | the centroid bound of a good run is finite, non-empty and holds every centroid |
| `BvhSplit.CentroidFaceWitness` | src/shape/bounding_volume_heirarchy.rs:169-172 | both faces of the centroid bound along an axis are attained by centroids |
| `BvhSplit.OffsetGet` | src/geometry/bounding_box_3.rs:75-88 | the bucket offset along `dim` is in [0, 1], 0 on the lower face, 1 on the upper |
| `BvhSplit.EmptyBuckets` | src/shape/bounding_volume_heirarchy.rs:205-209 | twelve empty buckets with empty boxes |
| `BvhSplit.BucketAsWrittenEnds` | src/shape/bounding_volume_heirarchy.rs:212-215 | as written, a centroid in the centroid bound is counted only into bucket 0 or 11 |
| `BvhSplit.PartitionBucketFaces` | src/shape/bounding_volume_heirarchy.rs:258-261 | the partition puts the lowest centroid in bucket 0 and the highest in bucket 11 |
| `BvhSplit.BucketsOf` | src/shape/bounding_volume_heirarchy.rs:211-218 | counting a run always yields twelve buckets |
| `BvhSplit.MiddleBucketsStayEmpty` | src/shape/bounding_volume_heirarchy.rs:211-218 | as written, buckets 1 to 10 stay empty |
| `BvhSplit.CountBuckets` | src/shape/bounding_volume_heirarchy.rs:211-218 | the counting loop yields the buckets of the run |
| `BvhSplit.ComputeCosts` | src/shape/bounding_volume_heirarchy.rs:221-239 | eleven costs, each `0.125 + (c0*SA0 + c1*SA1)/SA` for its split |
| `BvhSplit.FoldBuckets` | src/shape/bounding_volume_heirarchy.rs:228-236 | the box and count of a run of buckets |
| `BvhSplit.ScanMin` | src/shape/bounding_volume_heirarchy.rs:242-249 | the kept index is among those scanned |
| `BvhSplit.ScanMinIsFirstMinimum` | src/shape/bounding_volume_heirarchy.rs:242-249 | no cost is strictly below the kept one, and none before it is equal or below |
| `BvhSplit.MinCostBucket` | src/shape/bounding_volume_heirarchy.rs:242-249 | the loop keeps the first strict minimum and its cost |
| `BvhSplit.Swap` | src/shape/bounding_volume_heirarchy.rs:266 | exchanges two entries, rearranging only the range |
| `BvhSplit.ArgMinKey` | src/shape/bounding_volume_heirarchy.rs:194-196 | an index in the range with the smallest centroid along `dim` |
| `BvhSplit.SelectNth` | src/shape/bounding_volume_heirarchy.rs:194-196 | a rearrangement of the range with the `k`-th entry no smaller than those before and no larger than those after |
| `BvhSplit.PlaceMin` | src/shape/bounding_volume_heirarchy.rs:194-196 | one selection round extends the sorted prefix by one, only rearranging the range |
| `BvhSplit.Partition` | src/shape/bounding_volume_heirarchy.rs:254-270 | given one entry that goes left and one that does not, a rearrangement of the range with every left-going entry before `mid`, the rest from `mid` on, and `start < mid < end` |
| `BvhSplit.Costs` | src/shape/bounding_volume_heirarchy.rs:221-239 | eleven split costs for a run |
| `BvhSplit.MedianSplit` | src/shape/bounding_volume_heirarchy.rs:191-196 | `mid = (start+end)/2` strictly inside; entries before `mid` are at most those after along `dim` |
| `BvhSplit.CostsAre` | src/shape/bounding_volume_heirarchy.rs:221-239 | the computed costs are the run's costs |
| `BvhSplit.CheapestSplit` | src/shape/bounding_volume_heirarchy.rs:205-249 | the chosen bucket is the first cheapest of the run, below 11, with its cost |
| `BvhSplit.SAHSplit` | src/shape/bounding_volume_heirarchy.rs:197-281 | a leaf (records untouched) exactly when `n <= max_prims` and no cost is below `n`; otherwise a proper partition after the cheapest bucket |
| `BvhSplit.SplitAfter` | src/shape/bounding_volume_heirarchy.rs:254-270 | partitioning after a bucket below 11 leaves both halves non-empty |
| `BvhSplit.SplitWitnesses` | src/shape/bounding_volume_heirarchy.rs:254-270 | with spread-out centroids some record goes left and some right of any bucket below 11 |
| `BvhSplit.ChooseSplit` | src/shape/bounding_volume_heirarchy.rs:189-283 | no split exactly when the leaf rule holds (records untouched); otherwise a proper rearranging split |
| `BvhTraversal.TraverseHitIff` | src/shape/bounding_volume_heirarchy.rs:340-393 | `intersect` returns true exactly when one of the primitive tests it made returned true |
| `BvhTraversal.TestKeepsFlag` | src/shape/bounding_volume_heirarchy.rs:356-358 | one test keeps the flag equal to "some logged test hit" |
| `BvhTraversal.LeafScanKeepsFlag` | src/shape/bounding_volume_heirarchy.rs:354-360 | so does a leaf's scan |
| `BvhTraversal.VisitKeepsFlag` | src/shape/bounding_volume_heirarchy.rs:350-390 | so does the visit of any subtree |
| `BvhTraversal.LeafScanTestsAll` | src/shape/bounding_volume_heirarchy.rs:354-360 | a reached leaf tests every one of its primitives, in order, with no early exit |
| `BvhTraversal.FollowsTrans` | src/shape/bounding_volume_heirarchy.rs:340-393 | "only lowers `t_max` and keeps the flag" composes |
| `BvhTraversal.LeafScanFollows` | src/shape/bounding_volume_heirarchy.rs:354-360 | a leaf scan over contract-keeping primitives only lowers `t_max` |
| `BvhTraversal.VisitFollows` | src/shape/bounding_volume_heirarchy.rs:350-390 | so does the visit of any subtree |
| `BvhTraversal.AccelRespects` | src/shape/bounding_volume_heirarchy.rs:340-393 | the hierarchy over contract-keeping primitives keeps the primitive contract |
| `BvhTraversal.MachineNode` | src/shape/bounding_volume_heirarchy.rs:351-353 | the node read at the current index is the current subtree's root |
| `BvhTraversal.MachinePop` | src/shape/bounding_volume_heirarchy.rs:362-366 | popping the stack makes the top subtree current |
| `BvhTraversal.MachinePush` | src/shape/bounding_volume_heirarchy.rs:368-380 | descending pushes one child and makes the other current; the work left shrinks |
| `BvhTraversal.RunStackPush` | src/shape/bounding_volume_heirarchy.rs:368-380 | a pushed subtree is visited before the rest of the stack |
| `BvhTraversal.RunStackPop` | src/shape/bounding_volume_heirarchy.rs:362-366 | the next visit after a pop is that of the top entry |
| `BvhTraversal.VisitMiss` | src/shape/bounding_volume_heirarchy.rs:382-388 | a subtree whose box is missed changes nothing |
| `BvhTraversal.VisitLeaf` | src/shape/bounding_volume_heirarchy.rs:353-360 | a reached leaf's visit is the scan of its primitives |
| `BvhTraversal.VisitInterior` | src/shape/bounding_volume_heirarchy.rs:367-380 | a reached interior node visits its second child first when the ray's direction is negative along the split axis, else its first child, and then the other, which it pushed |
| `Bvh.InfosDescribe` | src/shape/bounding_volume_heirarchy.rs:123-126 | the initial records carry their primitives' finite bounds |
| `Bvh.InfosGood` | src/shape/bounding_volume_heirarchy.rs:123-126 | the initial records are fit to build with |
| `Bvh.OrderDescribes` | src/shape/bounding_volume_heirarchy.rs:131-135 | any rearrangement of those records carries the bounds of the primitives it names |
| `Bvh.AllGoodSlice` | src/shape/bounding_volume_heirarchy.rs:286-293 | every sub-run of a good run is good |
| `Bvh.JoinRuns` | src/shape/bounding_volume_heirarchy.rs:286-293 | rearranging the right half leaves the left half alone |
| `Bvh.RightRunUntouched` | src/shape/bounding_volume_heirarchy.rs:286-289 | the first recursive call leaves the second half good |
| `Bvh.Assemble` | src/shape/bounding_volume_heirarchy.rs:286-294 | the interior node over two built halves is built over the whole run |
| `Bvh.OrderedJoin` | src/shape/bounding_volume_heirarchy.rs:286-293 | the two halves' primitives are appended in order |
| `Bvh.BuildOrder` | src/shape/bounding_volume_heirarchy.rs:128-135 | after the first call the ordered list holds the rearranged records' primitives |
| `Bvh.SizeSumPush` | src/shape/bounding_volume_heirarchy.rs:368-380 | pushing a subtree adds its size to the stack's work |
| `Bvh.BVHAccel.Init` | src/shape/bounding_volume_heirarchy.rs:103-111 | not built, no primitives, no nodes, leaf cap `min(255, n)` |
| `Bvh.BVHAccel.AddPrimitive` | src/shape/bounding_volume_heirarchy.rs:113-117 | appends before the build and leaves the list unchanged after |
| `Bvh.BVHAccel.PushRange` | src/shape/bounding_volume_heirarchy.rs:160-164 | a leaf appends its run's primitives to the ordered list |
| `Bvh.BVHAccel.RecursivelyBuild` | src/shape/bounding_volume_heirarchy.rs:148-297 | rearranges only the range, counts one node per call, appends the run leaf by leaf, returns a tree built over the run; a leaf exactly when the leaf rule holds, else split on the centroids' widest axis |
| `Bvh.BVHAccel.BuildHalf` | src/shape/bounding_volume_heirarchy.rs:286-293 | one recursive call, as the parent sees it |
| `Bvh.BVHAccel.BuildChildren` | src/shape/bounding_volume_heirarchy.rs:286-296 | both children exist, the node is interior along `dim` and built over the run |
| `Bvh.BVHAccel.FlattenTree` | src/shape/bounding_volume_heirarchy.rs:299-319 | lays the tree out depth-first from `offset`: first child at `i+1`, second at `i + 1 + size(left)`, leaves with their offset; nothing else written |
| `Bvh.BVHAccel.Build` | src/shape/bounding_volume_heirarchy.rs:119-146 | panics on an empty list; otherwise built, primitives a permutation of the old ones in the leaves' order, node list grown by the tree's size |
| `Bvh.BVHAccel.BuildTree` | src/shape/bounding_volume_heirarchy.rs:128-131 | the first call builds a tree over the rearranged records, counting its nodes, with the ordered list matching |
| `Bvh.BVHAccel.MakeInfos` | src/shape/bounding_volume_heirarchy.rs:120-126 | one record per primitive, in list order |
| `Bvh.BVHAccel.Install` | src/shape/bounding_volume_heirarchy.rs:134-145 | the ordered list replaces the primitives and the tree is flattened from index 0 |
| `Bvh.BVHAccel.GrowNodes` | src/shape/bounding_volume_heirarchy.rs:140-142 | appends that many default nodes, keeping the old ones |
| `Bvh.BVHAccel.WorldBound` | src/shape/bounding_volume_heirarchy.rs:336-338 | panics before a build; afterwards node 0's bound holds every primitive's bound |
| `Bvh.BVHAccel.StackFits` | src/shape/bounding_volume_heirarchy.rs:348 | the built tree is no taller than the primitive count, so 65 primitives never fill the stack |
| `Bvh.BVHAccel.Intersect` | src/shape/bounding_volume_heirarchy.rs:340-393 | panics before a build; returns whenever the tree is at most 65 levels tall; returns the depth-first visit's flag, ray and record |
| `Bvh.BVHAccel.Walk` | src/shape/bounding_volume_heirarchy.rs:347-391 | the stack loop over the laid-out tree computes its depth-first visit |
| `Bvh.BVHAccel.Pop` | src/shape/bounding_volume_heirarchy.rs:362-366 | an empty stack ends the walk with the state reached; otherwise the top entry becomes current |
| `Bvh.BVHAccel.Push` | src/shape/bounding_volume_heirarchy.rs:368-380 | pushes `i+1` and descends into the second child when `dir_is_neg[axis]`, else the reverse |
| `Bvh.BVHAccel.VisitLeafNode` | src/shape/bounding_volume_heirarchy.rs:353-360 | a reached leaf's primitives are tried in turn from its offset |
| `Bvh.BVHAccel.ScanLeaf` | src/shape/bounding_volume_heirarchy.rs:354-360 | the leaf loop computes the leaf scan |
| `Bvh.BVHAccel.IntersectP` | src/shape/bounding_volume_heirarchy.rs:395-399 | `intersect` with a scratch record |
| `Samplers.InitFacts` | src/sampler/pixel_sampler.rs:23-56 | `n` rows of `spp` samples for 1D and 2D, no arrays, invariant holds |
| `Samplers.ApplyKeepsInv` | src/sampler/pixel_sampler.rs:76-110 | each sampler operation that returns keeps the dimension counters within the rows |
| `Samplers.RunKeepsInv` | src/sampler/pixel_sampler.rs:76-110 | so does every run of them |
| `Samplers.RequestKeepsSized` | src/sampler/sampler.rs:39-50 | a request appends an array of `n*spp` zeros and its size, and leaves the other dimension's arrays alone |
| `Samplers.NextIsSetToSuccessor` | src/sampler/pixel_sampler.rs:98-110 | `start_next_sample` is `set_sample_number(idx + 1)` |
| `Samplers.SamplesOfPixel` | src/sampler/sampler.rs:78-85 | after `start_pixel` and `k` next-sample calls, sample `k` is current, offsets rewound; the `k`-th call says true iff `k < spp` |
| `Samplers.Get1DRunDraws` | src/sampler/pixel_sampler.rs:76-83 | successive `get_1d` calls return the rows' entries in order, then the generator's draws; the counter stops at the row count |
| `Samplers.CameraSampleFromRows` | src/sampler/sampler.rs:28-38 | film offset from the first 2D row, time from the 1D row, lens from the next 2D row |
| `Samplers.CameraSampleFromGenerator` | src/sampler/sampler.rs:28-38 | with the rows used up the camera sample is the generator's draws, the film offset added to the raster position |
| `Samplers.FirstArrayAfterStartPixel` | src/sampler/sampler.rs:54-65 | right after `start_pixel`, `get_1d_array` panics if any array exists, else returns nothing |
| `Samplers.Get2DArrayFollows1D` | src/sampler/sampler.rs:66-77 | `get_2d_array` returns nothing whenever the 1D offset is at its end, and panics at 2D offset 0 otherwise |
| `Samplers.Get1DArrayReadsPrevious` | src/sampler/sampler.rs:54-65 | a returned array is the slice `[idx, idx+n)` of the array before the offset, which moves on by one |
| `PixelSamplers.PixelSampler.Init` | src/sampler/pixel_sampler.rs:23-56 | the fields are the initial state, which keeps the invariant |
| `PixelSamplers.PixelSampler.SetArray1DOffset` | src/sampler/pixel_sampler.rs:70 | overwrites exactly that field |
| `PixelSamplers.PixelSampler.SetArray2DOffset` | src/sampler/pixel_sampler.rs:71 | overwrites exactly that field |
| `PixelSamplers.PixelSampler.SetCurrentPixel` | src/sampler/pixel_sampler.rs:72 | overwrites exactly that field |
| `PixelSamplers.PixelSampler.SetCurrentPixelSampleIdx` | src/sampler/pixel_sampler.rs:73 | overwrites exactly that field |
| `PixelSamplers.PixelSampler.SetSamplesPerPixel` | src/sampler/pixel_sampler.rs:74 | overwrites exactly that field |
| `PixelSamplers.PixelSampler.StartPixel` | src/sampler/sampler.rs:22-27 | pixel `p`, sample 0, both offsets 0, nothing else changed |
| `PixelSamplers.PixelSampler.Request1DArray` | src/sampler/sampler.rs:39-44 | records `n` and appends an array of `n * spp` zeros, nothing else changed |
| `PixelSamplers.PixelSampler.Request2DArray` | src/sampler/sampler.rs:45-50 | records `n` and appends an array of `n * spp` zero points, nothing else changed |
| `PixelSamplers.PixelSampler.Get1DArray` | src/sampler/sampler.rs:54-65 | nothing when the offset is at the end of the 1D arrays; a panic at offset 0; otherwise the offset moves on and the slice `[idx*n, idx*n+n)` of the array before the offset is returned when it fits |
| `PixelSamplers.PixelSampler.Get2DArray` | src/sampler/sampler.rs:66-77 | nothing when the 1D offset is at the end of the 1D arrays; a panic at 2D offset 0; otherwise the 2D offset moves on and the slice of the 2D array before it is returned when it fits |
| `PixelSamplers.PixelSampler.DefaultStartNextSample` | src/sampler/sampler.rs:78-85 | offsets 0, index plus one, returns whether the pixel has that sample |
| `PixelSamplers.PixelSampler.DefaultSetSampleNumber` | src/sampler/sampler.rs:86-93 | offsets 0, index `k`, returns `k < spp` |
| `PixelSamplers.PixelSampler.StartNextSample` | src/sampler/pixel_sampler.rs:98-103 | dimension counters 0, then the default update and its answer |
| `PixelSamplers.PixelSampler.SetSampleNumber` | src/sampler/pixel_sampler.rs:105-110 | dimension counters 0, then the default update and its answer |
| `PixelSamplers.PixelSampler.Get1D` | src/sampler/pixel_sampler.rs:76-83 | while rows remain, the current sample's entry of the next row with the counter moved on by one (a panic when the sample index is past the row's end); afterwards the generator's draw with nothing changed |
| `PixelSamplers.PixelSampler.Get2D` | src/sampler/pixel_sampler.rs:85-92 | the same with the 2D rows and counter |
| `PixelSamplers.PixelSampler.GetCameraSample` | src/sampler/sampler.rs:28-38 | `get_2d`, `get_1d`, `get_2d` in that order, film position offset by the first |

## Left out

- Floating point: arithmetic is exact on extended reals. There is no f32 rounding, range,
  overflow to infinity or signed zero. `gamma(3)` is computed exactly from EPSILON = 0.0001.
- usize arithmetic: integers are unbounded. The sampler's index `idx + 1`, `idx * n` and
  `idx + n` never wrap, and `total_nodes` cannot overflow.
- `Bvh.BVHAccel.Build` requires every primitive to have a finite world bound. With an infinite
  or NaN bound the source's centroid comparisons `partial_cmp().unwrap()` panic, or the split
  fails to make progress. Such inputs are outside the model.
- `Bvh.BVHAccel.Intersect` and `Walk`: a return is promised only for trees at most 65 levels
  tall (the 64-entry stack). `StackFits` bounds the height by the primitive count; a bound in
  terms of the split quality is not proved.
- `println!` in `build` (src/shape/bounding_volume_heirarchy.rs:130, 133): output only.
- `split_method`: `SplitMethod` has the single variant `SAH`, so the build always takes the SAH path.
- `select_nth_unstable_by` is modelled by a selection method with its postcondition. The
  particular arrangement the standard library produces is not modelled.
- The `if let` branches that find no second child or no primitive offset are never reached on
  a built hierarchy. The model proves them unreachable and does not model the endless loop or
  silent skip they would cause.
- `BVHAccel` before `build`: `intersect` and `world_bound` index node 0, which is modelled as a
  panic. `add_primitive` after `build` is ignored, as in the source.
- Shapes: `Sphere` intersection and parameterisation are not part of this model. A shape is its
  world bound and a ray test that yields the hit parameter and a new record, or nothing. The
  primitive contract assumed of it is that a miss leaves the ray and record alone and a hit
  has a finite parameter in `(0, t_max]`.
- `GeometricPrimitives.IntersectP`: the shape's own `intersect_p` is taken to answer as its
  `intersect` does. Materials and area lights are identifiers; a material's
  `compute_scattering_function` is a parameter.
- `SurfaceInteraction` is reduced to the fields the primitives read and write: point, time,
  medium interface and shape. Its construction and transformation are left out.
- `offset_ray_origin` (src/geometry/ray.rs:102-121) and `Ray::to_string` (src/geometry/ray.rs:42-47)
  are left out: the first is IEEE bit manipulation, the second formatting.
- `Bounds3f::volume`, `lerp` and `bounding_sphere`, `Bounds2f::lerp` and `bounding_sphere`, and
  both `IndexMut` impls are not modelled. `bounding_sphere` needs a
  square root; the others are not used by the modelled core.
- `Transform * Bounds3f`, `Transform2 * Bounds2f` (src/geometry/bounding_box_3.rs:261-279) and
  `apply_transform_to_normal` (src/geometry/mod.rs:19-24) are not modelled. They are wrappers
  over a linear algebra library.
- The random number generator (src/sampler/rng.rs) is not part of this model. Each value the
  sampler would draw from it is a parameter of the operation, and the seeding in `init` is not modelled.
- `PixelSampler`'s getters are plain field reads and have no contracts of their own.
- Cameras, film, filters, spectra, materials, image output and the `main` driver are not part
  of this model.
