# physics-common: region quadtree, world, events and exact geometry in Dafny

This project models the core of the TypeScript library physics-common.

- **Region quadtree.** `Quadrant`, `QuadtreeMap` and the `Quadtree` front door are modelled, with the `AABB` geometry they depend on. A quadrant is either a leaf with a list of `(entity, bounds)` entries or a node with exactly four children. Splitting a full leaf, removing entries with the collapse that follows, and moving entries with `update` are all covered. A side map lists, for each entity, the quadrants that hold it.
- **World and EventAggregator.** The world is a list of bodies plus a quadtree over them. The aggregator is a dictionary from event name to an ordered handler list.
- **Vector2, Polygon, Body and Circle.** These are modelled where they use exact arithmetic:
  - in-place versus clone updates and the read-only guard of vectors;
  - the cache a polygon recomputes (box, edge normals, shoelace area, centre);
  - body construction defaults, setters, translation, rotation bookkeeping and impulses;
  - circle predicates.

JavaScript numbers are modelled as `real`, so every comparison is exact.

Each module follows one source file:

| module | file |
|---|---|
| `AABBs` | aabb.dfy |
| `Vectors` | vector2.dfy |
| `Circles` | circle.dfy |
| `Polygons` | polygon.dfy |
| `Bodies` | body.dfy |
| `QuadtreeMaps` | quadtree_map.dfy |
| `Quadrants` | quadrant.dfy |
| `QuadrantArena` | quadrant_arena.dfy |
| `Quadtrees` | quadtree.dfy |
| `Worlds` | world.dfy |
| `EventAggregators` | event_aggregator.dfy |
| `Wrappers` | wrappers.dfy (`Option`, `Result`, `Outcome`) |

Mutable objects are classes. Each method's contract says how the fields it changes change and which fields stay; "## Left out" names every method whose new state is stated only in part. The classes are:
- `AABB`, `Vector2`, `Circle`, `Polygon` and `Body`;
- `QuadtreeMap`, `Arena` (every `Quadrant` object of one tree), `Quadtree`, `World` and `EventAggregator`.

The values they hold are datatypes (`Box`, `Vec`, `Disc`, `Cache`, `Entry`, `Quadrant`), and pure functions over those datatypes specify the methods.

**Quadrants as an arena.** The quadrants of one tree live in one sequence. A quadrant's id is its index, and the root is quadrant 0. The parent back-pointer is an id, and a parent always comes before its children. Quadrants are never freed: a quadrant dropped by `clear` stays in the arena, detached, just as the JavaScript object lives on while anything refers to it.

**The map as a store of arrays.** `QuadtreeMap` keeps its arrays in a store indexed by handle. `get` hands out the stored array itself, and `Quadtree.remove`/`update` loop over that array while the quadrants splice it. The store keeps this aliasing visible: `Quadtrees.Quadtree.Remove` and `Update` read the stored array by position at every step, as the for-of loop does. `RemoveFromCopy` and `UpdateFromCopy` loop over a copy taken first, which is what the code evidently intends (see "## Findings"). Every quadrant id in every stored array, including the arrays of deleted keys, is a quadrant of the arena (`QuadtreeMaps.AllBelow`, part of `Arena.Valid`).

**The tree invariant** (`Quadrants.Inv`), kept by every arena method:
- every parent precedes its children;
- a node with children has exactly four distinct children, each naming it as parent, and holds no entries;
- a leaf holds each entity at most once;
- every entry's box meets its quadrant's region;
- the map lists, for each entity, exactly the quadrants holding it, each once.

**The `Quadtree` constructor and its callers.**
- The `Quadtree` constructor takes positional `(bounds, minEntities, maxEntities)`. Its defaults are 3 and 3 (src/graph/quadtree/Quadtree.ts:6-7), which its own check rejects. It has no depth limit.
- `World` (src/physics/World.ts:10-15) and `BHTree` (src/graph/bhtree/BHTree.ts:12) call it with one options object, `{ bounds, minEntities, maxEntities }`, with `maxDepth: 5` added by `World`. That object has no `valid` property, so as written the constructor's first check throws for every world.
- `Worlds.World` builds its tree with the options' own values, minimum 3 and maximum 4, which is what the world evidently intends. `maxDepth` has no counterpart in the constructor and is not modelled.

## Model

| member | source | states |
|---|---|---|
| AABBs.Extended | src/math/AABB.ts:30-38 | extending by a point gives the box whose corner is the componentwise minimum and whose far edges are the componentwise maximum |
| AABBs.Translated | src/math/AABB.ts:26-28 | translation moves the corner by the offset and keeps width and height |
| AABBs.Merged | src/math/AABB.ts:54-61 | merge keeps the smaller corner and the larger extent of the two boxes |
| AABBs.IntersectsSymmetric | src/math/AABB.ts:63-66 | `intersects` is symmetric |
| AABBs.ContainsReflexive | src/math/AABB.ts:72-76 | every box contains itself |
| AABBs.ContainsValidImpliesIntersects | src/math/AABB.ts:63-76 | a box containing a box of positive area intersects it |
| AABBs.ContainsTransitive | src/math/AABB.ts:72-76 | containment is transitive |
| AABBs.ExtendedContainsPoint | src/math/AABB.ts:30-38 | after `extend(x, y)` the box contains the point (x, y) |
| AABBs.ExtendedContainsOld | src/math/AABB.ts:30-38 | extending a box of non-negative extent keeps the old box inside the new one |
| AABBs.ExtendedKeepsPoints | src/math/AABB.ts:30-38 | every point of the box stays in it after extending, whatever the extent |
| AABBs.InfBoxInvalid | src/math/AABB.ts:48-52 | the `inf()` sentinel is not valid, and its far edges sit at 0 |
| AABBs.ExtendInfBox | src/math/AABB.ts:30-52 | the first extension of the sentinel puts the far edge at max(0, p), not at p |
| AABBs.TranslatedCenter | src/math/AABB.ts:82-88 | translation moves the centre by the offset |
| AABBs.TranslatedPreservesRelations | src/math/AABB.ts:26-28 | translating two boxes together keeps whether they intersect and whether one contains the other |
| AABBs.MergedMissesFarBox | src/math/AABB.ts:54-61 | merge does not always produce a box covering the other box |
| AABBs.AABB.constructor | src/math/AABB.ts:7-9 | the new box has the four given fields |
| AABBs.AABB.Set | src/math/AABB.ts:11-16 | all four fields take the given values |
| AABBs.AABB.Position | src/math/AABB.ts:18-20 | the corner moves and the extent stays |
| AABBs.AABB.Dimensions | src/math/AABB.ts:22-24 | the extent changes and the corner stays |
| AABBs.AABB.Translate | src/math/AABB.ts:26-28 | the box becomes `Translated` of its old value |
| AABBs.AABB.Extend | src/math/AABB.ts:30-38 | the box becomes `Extended` of its old value and contains the point |
| AABBs.AABB.Expand | src/math/AABB.ts:40-42 | width and height grow by the given amounts and the corner stays |
| AABBs.AABB.Clear | src/math/AABB.ts:44-46 | all four fields become 0 |
| AABBs.AABB.Inf | src/math/AABB.ts:48-52 | the box becomes the invalid sentinel |
| AABBs.AABB.Merge | src/math/AABB.ts:54-61 | the box becomes `Merged` of the old values of both boxes |
| AABBs.AABB.Clone | src/math/AABB.ts:78-80 | a fresh object with equal fields |
| Vectors.PlusThenMinus | src/math/Vector2.ts:27-33 | `add(v)` then `sub(v)` restores the components exactly |
| Vectors.PerpTwice | src/math/Vector2.ts:84-86 | `perp` twice equals `invert` |
| Vectors.PerpOrthogonal | src/math/Vector2.ts:84-90 | a vector's perpendicular has dot product 0 with it |
| Vectors.DotSymmetric | src/math/Vector2.ts:88-90 | `dot` is symmetric |
| Vectors.CrossAntisymmetric | src/math/Vector2.ts:92-94 | `cross` is antisymmetric, and a vector crossed with itself is 0 |
| Vectors.ScaledIsTimes | src/math/Vector2.ts:35-41 | `scale(s)` is `mult` by the vector (s, s) |
| Vectors.EqualsAsWrittenAcceptsDifferentVectors | src/math/Vector2.ts:107-112 | as written, `equals` with precision 0 accepts (0, 0) against (0, 5), and `isZero` holds for (0, 5) and (7, 0) |
| Vectors.IsZeroAsWrittenOneComponent | src/math/Vector2.ts:152-154 | as written, `isZero` holds as soon as either component is 0 |
| Vectors.CloseToExact | src/math/Vector2.ts:107-112 | the intended `equals` with precision 0 is exactly equality, and it is symmetric |
| Vectors.IsZeroExact | src/math/Vector2.ts:152-154 | the intended `isZero` holds for the zero vector and only for it |
| Vectors.CloseToImpliesEqualsAsWritten | src/math/Vector2.ts:107-112 | the intended test is stricter than the test as written |
| Vectors.Vector2.constructor | src/math/Vector2.ts:8-12 | construction never fails, even for a read-only vector, and an omitted y copies x |
| Vectors.Vector2.Set | src/math/Vector2.ts:14-25 | with clone: a fresh writable vector and an untouched receiver; in place: a read-only receiver fails unchanged, a writable one takes the components; an omitted y copies x |
| Vectors.Vector2.Add | src/math/Vector2.ts:27-29 | the outcome of `set` for the sum of the old components, also when the argument is the receiver |
| Vectors.Vector2.Sub | src/math/Vector2.ts:31-33 | the outcome of `set` for the difference |
| Vectors.Vector2.Scale | src/math/Vector2.ts:35-37 | the outcome of `set` for the components times the scalar |
| Vectors.Vector2.Mult | src/math/Vector2.ts:39-41 | the outcome of `set` for the componentwise product |
| Vectors.Vector2.Invert | src/math/Vector2.ts:47-49 | the outcome of `set` for the negated components |
| Vectors.Vector2.Perpendicular | src/math/Vector2.ts:84-86 | the outcome of `set` for (y, -x) |
| Vectors.Vector2.NormalizeZero | src/math/Vector2.ts:77-79 | normalizing the zero vector re-sets it, so it stays zero |
| Vectors.Vector2.SetZero | src/math/Vector2.ts:114-116 | the outcome of an in-place `set(0, 0)` |
| Vectors.Vector2.Clone | src/math/Vector2.ts:118-120 | a fresh vector with the same components and the requested read-only flag |
| Vectors.ReadOnlyVectorIsFrozen | src/math/Vector2.ts:122-134 | a read-only vector keeps its constructor components through `add`, `perp`, `scale` and a clone `invert` |
| Circles.Translated | src/math/Circle.ts:16-18 | translation moves the centre by the offset and keeps the radius |
| Circles.Distance2Symmetric | src/math/Circle.ts:49-54 | the squared centre distance is symmetric |
| Circles.IntersectsSymmetric | src/math/Circle.ts:25-30 | `intersects` is symmetric |
| Circles.ContainsOwnCentre | src/math/Circle.ts:32-37 | every circle contains its own centre |
| Circles.TranslatedKeepsCentre | src/math/Circle.ts:16-37 | a translated circle contains its moved centre |
| Circles.LargerNeverContained | src/math/Circle.ts:39-41 | a circle never contains one at least as large, as written or as intended |
| Circles.ContainsAsWrittenRejectsConcentric | src/math/Circle.ts:39-47 | as written, radius 10 at the origin does not contain radius 1 at the origin |
| Circles.ContainsAsWrittenAcceptsDisjoint | src/math/Circle.ts:39-47 | as written, radius 10 at the origin "contains" a radius-1 circle 100 away that it does not even intersect |
| Circles.ContainedIsInside | src/math/Circle.ts:39-47 | under the intended `contains`, the inner circle's centre lies inside and the circles intersect |
| Circles.Circle.constructor | src/math/Circle.ts:6-8 | the circle has the given centre and radius |
| Circles.Circle.Set | src/math/Circle.ts:10-14 | centre and radius take the given values |
| Circles.Circle.Position | src/math/Circle.ts:20-23 | the centre moves and the radius stays |
| Circles.Circle.Translate | src/math/Circle.ts:16-18 | the circle becomes `Translated` of its old value |
| Circles.Circle.Clone | src/math/Circle.ts:56-58 | a fresh circle with the same centre and radius |
| Polygons.Shifted | src/math/Polygon.ts:56-60 | every vertex moves by the offset, and the count stays |
| Polygons.Reversed | src/math/Polygon.ts:89-92 | position i holds the element at the mirrored position |
| Polygons.Spliced | src/math/Polygon.ts:30-31 | the inserted vertices join the old ones: the count adds up and the multiset is the union |
| Polygons.CacheOf | src/math/Polygon.ts:156-197 | fewer than three vertices: sentinel box, no normals, area 0, zero centre; otherwise one normal per vertex, area half the fan sum, a box holding every vertex, and the box's centre as centre |
| Polygons.BoundsHoldVertices | src/math/Polygon.ts:167-169 | the box extended vertex by vertex contains every vertex so far |
| Polygons.BoundsReachOrigin | src/math/Polygon.ts:157-169 | starting from the sentinel, the box's far edges are never below 0 |
| Polygons.SentinelWidensBox | src/math/Polygon.ts:157-169 | the box of a triangle with negative coordinates reaches out to the origin |
| Polygons.FanTermSplit | src/math/Polygon.ts:184-190 | each area term splits into three cross products of vertices |
| Polygons.FanSumTelescopes | src/math/Polygon.ts:181-190 | the fan sum is the closing chord minus the open chain of cross products |
| Polygons.FanSumIsShoelace | src/math/Polygon.ts:181-193 | the fan sum is the negated shoelace sum, so `area` is the signed area |
| Polygons.TriangleArea | src/math/Polygon.ts:181-193 | the unit right triangle listed counter-clockwise has area -1/2 |
| Polygons.EdgeNormalShifted | src/math/Polygon.ts:171-179 | edge normals depend only on edge vectors, so translation keeps them |
| Polygons.FanSumShifted | src/math/Polygon.ts:184-190 | translation keeps the fan sum |
| Polygons.CacheShifted | src/math/Polygon.ts:56-65 | translating the vertices keeps the recomputed normals and area, which is why `translate` need not recompute them |
| Polygons.ShiftedAppend | src/math/Polygon.ts:59-60 | translating a list vertex by vertex extends the translated prefix |
| Polygons.Polygon.constructor | src/math/Polygon.ts:14-16 | the polygon holds the given vertices and the cache they determine |
| Polygons.Polygon.Update | src/math/Polygon.ts:156-197 | the one-pass loop leaves the vertices alone and the cache equal to `CacheOf` the vertices |
| Polygons.Polygon.Set | src/math/Polygon.ts:18-22 | the vertices are replaced and the cache recomputed |
| Polygons.Polygon.Push | src/math/Polygon.ts:24-28 | the vertices are appended and the cache recomputed |
| Polygons.Polygon.Insert | src/math/Polygon.ts:30-34 | the vertices are spliced in at the index, as JavaScript's `splice` places them, and the cache recomputed |
| Polygons.Polygon.Remove | src/math/Polygon.ts:36-45 | an index out of range answers false and changes nothing; otherwise exactly that vertex goes, the cache is recomputed, and the answer is true |
| Polygons.Polygon.Clear | src/math/Polygon.ts:47-54 | no vertices, no normals, area 0, the sentinel box and a zero centre |
| Polygons.Polygon.Translate | src/math/Polygon.ts:56-65 | vertices, box and centre move by the offset; normals and area stay |
| Polygons.Polygon.Rewind | src/math/Polygon.ts:89-92 | vertices and normals are reversed; area, box and centre stay |
| Polygons.Polygon.Rotate | src/math/Polygon.ts:78-87 | the vertices take their rotated positions and the cache is recomputed; the vertex count stays |
| Polygons.Polygon.Clone | src/math/Polygon.ts:199-202 | a fresh polygon over a copy of the vertices, with its cache recomputed |
| Bodies.Clamp01 | src/physics/body/Body.ts:108-118 | `clamp(v, 0, 1)` lies in [0, 1], is v inside that range, and is the nearer end outside it |
| Bodies.Retained | src/physics/body/Body.ts:108-118 | the stored damping or restitution lies in [0, 1], and for v in [0, 1] it is 1 - v |
| Bodies.OrDefault | src/physics/body/Body.ts:37-53 | `v \|\| d`: an absent or zero value gives way to the default |
| Bodies.Truncate | src/physics/body/Body.ts:64-66 | truncation toward zero, as JavaScript's remainder uses it |
| Bodies.TurnRemainder | src/physics/body/Body.ts:64-66 | `a % 360` has the sign of a, magnitude below 360, and differs from a by whole turns |
| Bodies.Reciprocal | src/physics/body/Body.ts:98-106 | the stored inverse of a non-zero mass or inertia undoes it |
| Bodies.TurnRemainderWithinTurn | src/physics/body/Body.ts:64-66 | an angle already within a turn is kept |
| Bodies.TurnRemainderFullTurns | src/physics/body/Body.ts:64-66 | whole turns are dropped in either direction: 360 gives 0, -720 gives 0, -370 gives -10 |
| Bodies.StoredDefaults | src/physics/body/Body.ts:10-13 | the default damping is stored as 0.9 and the default restitution as 0.2 |
| Bodies.Impulsed | src/physics/body/Body.ts:71-76 | an impulse changes the linear velocity by j times the inverse mass, and adds no spin when applied at the position |
| Bodies.ImpulsesAdd | src/physics/body/Body.ts:71-76 | two impulses at the same point act as their sum |
| Bodies.ImpulseAlongOffsetAddsNoSpin | src/physics/body/Body.ts:71-76 | an impulse along the offset from the position adds no angular velocity |
| Bodies.Body.constructor | src/physics/body/Body.ts:35-57 | defaults for falsy options (mass 0.6, damping 0.1, restitution 0.8, inertia 0.2 times the computed inertia); setters applied; position equal to the definition's; the shape a fresh clone, translated then rotated, whose cache is the one its rotated vertices determine; the angle the remainder modulo 360 |
| Bodies.Body.PlacedCopy | src/physics/body/Body.ts:41-56 | the body's shape is a fresh polygon with the rotated vertices and the cache they determine |
| Bodies.Body.SetMass | src/physics/body/Body.ts:98-101 | stores the mass and its reciprocal; every other field (inertia pair, velocities, position, angle, dampings, restitution, accelerations, type) stays |
| Bodies.Body.SetInertia | src/physics/body/Body.ts:103-106 | stores the inertia and its reciprocal; every other field stays |
| Bodies.Body.SetLinearDamping | src/physics/body/Body.ts:108-110 | stores `Retained(v)`; every other field (mass and inertia pairs, velocities, position, angle, the other factors, accelerations, type) stays |
| Bodies.Body.SetAngularDamping | src/physics/body/Body.ts:112-114 | stores `Retained(v)`; every other field stays |
| Bodies.Body.SetRestitution | src/physics/body/Body.ts:116-118 | stores `Retained(v)`; every other field stays |
| Bodies.Body.Translate | src/physics/body/Body.ts:59-62 | position, shape vertices, shape box and shape centre move by t; the shape's normals and area and every other field stay |
| Bodies.Body.Rotate | src/physics/body/Body.ts:64-69 | the angle becomes (angle + d) % 360, within one turn; the shape takes the rotated vertices; everything else stays |
| Bodies.Body.Impulse | src/physics/body/Body.ts:71-76 | the velocities change as `Impulsed` says; every other field (position, angle, mass and inertia pairs, accelerations, dampings, restitution, type) stays |
| Bodies.Body.ClearForces | src/physics/body/Body.ts:78-81 | both accelerations become zero; every other field stays |
| QuadtreeMaps.IndexOf | src/graph/quadtree/QuadtreeMap.ts:25-27 | `indexOf`: -1 exactly when absent, otherwise the first position holding the element |
| QuadtreeMaps.RemoveFirst | src/graph/quadtree/QuadtreeMap.ts:25-29 | removing an absent element changes nothing; removing a present one shortens the list by one |
| QuadtreeMaps.RemoveFirstCounts | src/graph/quadtree/QuadtreeMap.ts:25-29 | exactly one occurrence goes, and every other element keeps its multiplicity |
| QuadtreeMaps.RemoveFirstNoDup | src/graph/quadtree/QuadtreeMap.ts:25-29 | in a list without duplicates, exactly that element goes and no duplicate appears |
| QuadtreeMaps.RemoveEachCounts | src/graph/quadtree/QuadtreeMap.ts:24-30 | the loop removes the passed quadrants as a multiset, ignoring absent ones |
| QuadtreeMaps.MapInsertKeeps | src/graph/quadtree/QuadtreeMap.ts:6-12 | insert adds the key if needed, appends the quadrants to its list, and leaves other keys alone |
| QuadtreeMaps.MapInsertDuplicates | src/graph/quadtree/QuadtreeMap.ts:6-12 | insert does no de-duplication |
| QuadtreeMaps.MapRemoveByCount | src/graph/quadtree/QuadtreeMap.ts:19-22 | the key goes when as many quadrants are passed as it lists, even unrelated ones |
| QuadtreeMaps.MapRemoveOne | src/graph/quadtree/QuadtreeMap.ts:14-31 | removing one listed quadrant deletes the key when it was the last one, and otherwise takes out just that quadrant; other keys stay |
| QuadtreeMaps.MapRemoveAbsent | src/graph/quadtree/QuadtreeMap.ts:14-17 | removing for an unknown entity changes nothing |
| QuadtreeMaps.SpliceEach | src/graph/quadtree/QuadtreeMap.ts:24-30 | the splice loop removes each passed quadrant's first occurrence in turn, as a multiset difference |
| QuadtreeMaps.QuadtreeMap.constructor | src/graph/quadtree/QuadtreeMap.ts:4 | the map starts empty |
| QuadtreeMaps.QuadtreeMap.Insert | src/graph/quadtree/QuadtreeMap.ts:6-12 | the lists become `MapInsert` of the old lists; existing keys keep their arrays' handles; every other stored array is untouched; a stored quadrant is an inserted one or was stored in that array before |
| QuadtreeMaps.QuadtreeMap.Remove | src/graph/quadtree/QuadtreeMap.ts:14-31 | the lists become `MapRemove` of the old lists; no array is created; only the entity's own array can change, and it keeps only quadrants it held |
| QuadtreeMaps.QuadtreeMap.Get | src/graph/quadtree/QuadtreeMap.ts:33-35 | a handle exactly for known entities, naming the stored array itself |
| QuadtreeMaps.QuadtreeMap.Exists | src/graph/quadtree/QuadtreeMap.ts:44-46 | true exactly for entities with a key |
| QuadtreeMaps.QuadtreeMap.Clear | src/graph/quadtree/QuadtreeMap.ts:37-42 | with an entity, drops only its key; without one, drops every key |
| Quadrants.NewQuadrant | src/graph/quadtree/Quadrant.ts:16-22 | a new quadrant has its region and parent, no entries and no children |
| Quadrants.FindEntity | src/graph/quadtree/Quadrant.ts:80-82 | -1 exactly when no entry has the entity, otherwise the first entry that does |
| Quadrants.InvAppend | src/graph/quadtree/Quadrant.ts:53-54 | appending to a leaf that lacks the entity, with the map insert, keeps the tree invariant |
| Quadrants.InvSplice | src/graph/quadtree/Quadrant.ts:84-85 | splicing an entry out, with the map remove, keeps the tree invariant |
| Quadrants.InvRebound | src/graph/quadtree/Quadrant.ts:106 | giving an entry a box that still meets the region keeps the tree invariant |
| Quadrants.InvGrow | src/graph/quadtree/Quadrant.ts:158-163 | a new empty quadrant under an existing parent keeps the tree invariant |
| Quadrants.InvAttach | src/graph/quadtree/Quadrant.ts:167 | marking an empty leaf as having its four new children keeps the tree invariant |
| Quadrants.InvDetach | src/graph/quadtree/Quadrant.ts:123-124 | dropping a quadrant's children keeps the tree invariant |
| Quadrants.ChildBox | src/graph/quadtree/Quadrant.ts:150-165 | each child region has half the width and height |
| Quadrants.ChildBoxInside | src/graph/quadtree/Quadrant.ts:150-165 | every child region of a valid region is valid and lies inside it |
| Quadrants.ChildrenCover | src/graph/quadtree/Quadrant.ts:150-165 | every point of the region lies in one of the four children |
| Quadrants.ChildrenMeet | src/graph/quadtree/Quadrant.ts:41-51 | a box of positive area that meets the region meets some child, so a split loses no entry |
| Quadrants.AddNewFacts | src/graph/quadtree/Quadrant.ts:176-182 | the accumulator stays a prefix, no entity is added twice, and afterwards it holds exactly the old and the new entities |
| Quadrants.AddNewFresh | src/graph/quadtree/Quadrant.ts:176-182 | distinct new entities are all added, in order |
| Quadrants.AccumulateFacts | src/graph/quadtree/Quadrant.ts:170-186 | `accumulateEntries` gathers, without repetition, exactly the entities held by the leaves below |
| Quadrants.LeafAccumulate | src/graph/quadtree/Quadrant.ts:205-207 | a leaf's `entryCount` is its number of entries |
| QuadrantArena.ChildIds | src/graph/quadtree/Quadrant.ts:158 | the four children get distinct new ids, child x + 2y in its slot |
| QuadrantArena.NearestContaining | src/graph/quadtree/Quadrant.ts:92-100 | the ancestor `bubbleInsert` stops at contains the box and is no lower than where the climb started |
| QuadrantArena.MeetingBeforeMembers | src/graph/quadtree/Quadrant.ts:138-144 | the per-quadrant query reports exactly the other entries whose boxes meet the entity's box |
| QuadrantArena.OthersMeetingExcludesSelf | src/graph/quadtree/Quadrant.ts:133-148 | the query never reports the entity itself |
| QuadrantArena.ClearStep | src/graph/quadtree/Quadrant.ts:127-128 | one step of `clear`'s unregistering loop keeps the invariant |
| QuadrantArena.InvRoot | src/graph/quadtree/Quadtree.ts:20 | a lone root with an empty map satisfies the invariant |
| QuadrantArena.Arena.constructor | src/graph/quadtree/Quadrant.ts:16-22 | a lone empty root with the given thresholds and an empty map |
| QuadrantArena.Arena.Subdivide | src/graph/quadtree/Quadrant.ts:150-168 | four new children of half size, in slots x + 2y, parented by q; q now has children; no other quadrant changes |
| QuadrantArena.Arena.NewChildren | src/graph/quadtree/Quadrant.ts:151-165 | the loops append the four child quadrants in creation order |
| QuadrantArena.Arena.Attach | src/graph/quadtree/Quadrant.ts:167 | q records its children and becomes internal; the invariant holds |
| QuadrantArena.Arena.Clear | src/graph/quadtree/Quadrant.ts:118-131 | every quadrant of q's old subtree (`Descends`) is left an empty leaf, q included; a quadrant that changes lies below q along parent links (`Under`) and is an empty leaf; a leaf only loses its entries; the invariant holds |
| QuadrantArena.ClearChildStep | src/graph/quadtree/Quadrant.ts:120-121 | clearing child k, which changes only quadrants below it, keeps the earlier children's subtrees empty and empties child k's old subtree, because sibling subtrees are disjoint |
| QuadrantArena.ClearFinish | src/graph/quadtree/Quadrant.ts:119-130 | once the children are cleared and q is an empty leaf, q's whole old subtree is empty leaves and only quadrants below q have changed |
| Quadrants.SiblingsApart | src/graph/quadtree/Quadrant.ts:119-121 | no quadrant lies below two different children of one quadrant |
| Quadrants.DescendsChild | src/graph/quadtree/Quadrant.ts:119-121 | a quadrant of q's subtree other than q lies in the subtree of one of q's children |
| QuadrantArena.Arena.ClearEntries | src/graph/quadtree/Quadrant.ts:127-130 | each entry is unregistered for q and the list is emptied |
| QuadrantArena.Arena.AccumulateEntries | src/graph/quadtree/Quadrant.ts:170-186 | the result extends the accumulator with exactly the entities held below q, each once |
| QuadrantArena.Arena.EntryCount | src/graph/quadtree/Quadrant.ts:205-207 | the number of distinct entities below q; for a leaf, its number of entries |
| QuadrantArena.Arena.Intersections | src/graph/quadtree/Quadrant.ts:133-148 | the other entries meeting the entity's box in q, in entry order; nothing when q lacks the entity |
| QuadrantArena.Arena.Insert | src/graph/quadtree/Quadrant.ts:24-55 | no change when the box misses the region or the leaf already holds the entity; a leaf with at most `maxEntities` entries appends the entry and is registered; a fuller leaf splits: it becomes internal, its children the four quadrants its `subdivide` appends to the arena; the map gains no key but the entity's; always the invariant, and no split is undone |
| QuadrantArena.Arena.Split | src/graph/quadtree/Quadrant.ts:41-51 | q ends internal, with the four quadrants created by its `subdivide` as its children; clearing, subdividing and re-inserting keeps the invariant, undoes no split, gains no key but the new entity's and leaves every earlier quadrant alone |
| QuadrantArena.Arena.Append | src/graph/quadtree/Quadrant.ts:53-54 | the entry is appended and the map lists q for the entity |
| QuadrantArena.Arena.Remove | src/graph/quadtree/Quadrant.ts:57-89 | no change on a leaf lacking the entity; on a root leaf exactly that entry is spliced out and q unregistered; the map gains no key; an entity listed for q alone is no longer listed; always the invariant |
| QuadrantArena.Arena.RemoveBelow | src/graph/quadtree/Quadrant.ts:73-78 | removing from each child keeps the invariant and gains no key |
| QuadrantArena.Arena.RemoveFromLeaf | src/graph/quadtree/Quadrant.ts:80-89 | no change when the leaf lacks the entity; on a root leaf exactly that entry is spliced out and q unregistered; an entity listed for q alone is no longer listed |
| QuadrantArena.Arena.RemoveAt | src/graph/quadtree/Quadrant.ts:84-89 | on a root leaf exactly entry i leaves q and q leaves its entity's list; the map gains no key; an entity listed for q alone is no longer listed |
| QuadrantArena.Arena.Splice | src/graph/quadtree/Quadrant.ts:84-85 | exactly entry i leaves q and q leaves that entity's list |
| QuadrantArena.Arena.BubbleCollapse | src/graph/quadtree/Quadrant.ts:58-71 | a quadrant holding at least `minEntities` distinct entities below it stops the collapse unchanged; always the invariant |
| QuadrantArena.Arena.Update | src/graph/quadtree/Quadrant.ts:91-116 | no change when q lacks the entity; when the new box stays inside q's region, or still meets it and no ancestor contains it, only the entry's box changes; always the invariant |
| QuadrantArena.Arena.Relocate | src/graph/quadtree/Quadrant.ts:108-115 | when the box still meets the region and no ancestor contains it, only the entry's box changes; always the invariant |
| QuadrantArena.Arena.Rebound | src/graph/quadtree/Quadrant.ts:106 | exactly the entry's box changes, and the invariant holds |
| QuadrantArena.Arena.BubbleInsert | src/graph/quadtree/Quadrant.ts:92-100 | nothing happens when no ancestor contains the box; otherwise nothing above the nearest containing ancestor changes; always the invariant |
| Quadtrees.CheckSettings | src/graph/quadtree/Quadtree.ts:13-18 | the constructor passes exactly for a valid region and 0 < min < max, and an invalid region is reported first |
| Quadtrees.DefaultsRejected | src/graph/quadtree/Quadtree.ts:6-18 | a tree built with both defaults (3 and 3) is always refused |
| Quadtrees.LiveVisits | src/graph/quadtree/Quadtree.ts:41-42 | the quadrants a for-of loop reads from position i on when each step splices the quadrant it read out of the array: each was in the array at or after position i |
| Quadtrees.LiveVisitsSkipsSecond | src/graph/quadtree/Quadtree.ts:41-42 | as written, with two or more holders the second is never visited |
| Quadtrees.LiveTraceVisits | src/graph/quadtree/Quadtree.ts:41-42 | a loop that reads position k of the live array at step k, each step splicing out what it read, visits a prefix of `LiveVisits`, and all of it once it has run past the end |
| Quadtrees.GatheredExcludesSelf | src/graph/quadtree/Quadtree.ts:60-73 | the tree's `intersections` never reports the entity itself |
| Quadtrees.GatheredMembers | src/graph/quadtree/Quadtree.ts:64-72 | an entity is reported exactly when one of the quadrants listed for the queried entity reports it |
| Quadtrees.ListedInArena | src/graph/quadtree/QuadtreeMap.ts:33-35 | every quadrant the map lists exists |
| Quadtrees.Quadtree.constructor | src/graph/quadtree/Quadtree.ts:13-21 | once the checks pass: a lone empty root with the thresholds, and an empty map |
| Quadtrees.Create | src/graph/quadtree/Quadtree.ts:6-21 | absent thresholds take the defaults; a failed check returns its message; otherwise a fresh valid tree with a lone empty root |
| Quadtrees.Quadtree.Contains | src/graph/quadtree/Quadtree.ts:75-77 | true exactly when some quadrant holds the entity |
| Quadtrees.Quadtree.Insert | src/graph/quadtree/Quadtree.ts:23-31 | a missing entity or an invalid box fails, with that message and no change; otherwise the root's insert runs, and an empty-enough root leaf appends the entry |
| Quadtrees.Quadtree.Remove | src/graph/quadtree/Quadtree.ts:33-43 | a missing entity fails; an untracked one changes nothing; otherwise `remove` runs on position k of the entity's live array at step k until the loop passes the array's end (or fuel runs out); when each step splices out the quadrant it read, the quadrants called are `LiveVisits` of the starting array; an entity held by one quadrant is gone afterwards |
| Quadtrees.Quadtree.RemoveHolder | src/graph/quadtree/Quadtree.ts:41-42 | one step of the loop: the map gains no key, and an entity listed for that quadrant alone is gone |
| Quadtrees.Quadtree.RemoveFromCopy | src/graph/quadtree/Quadtree.ts:33-43 | corrected `remove`: every quadrant listed at the start is called, in order; an entity held by one quadrant is gone afterwards |
| Quadtrees.Quadtree.Update | src/graph/quadtree/Quadtree.ts:45-58 | a missing entity or a given invalid box fails with no change; an untracked entity changes nothing; otherwise `update` runs on position k of the live array at step k until the loop passes its end (or fuel runs out); when each step splices out the quadrant it read, the quadrants called are `LiveVisits` of the starting array |
| Quadtrees.Quadtree.UpdateHolder | src/graph/quadtree/Quadtree.ts:56-57 | one step of the loop keeps the invariant and creates no array that was not there |
| Quadtrees.Quadtree.UpdateFromCopy | src/graph/quadtree/Quadtree.ts:45-58 | corrected `update`: the same checks, then every quadrant listed at the start is updated, in order |
| Quadtrees.Quadtree.Intersections | src/graph/quadtree/Quadtree.ts:60-73 | a missing entity fails; an untracked one gives []; otherwise each listed quadrant's result, concatenated in list order, never containing the entity |
| Quadtrees.Quadtree.Clear | src/graph/quadtree/Quadtree.ts:79-81 | every quadrant of the root's old subtree is left an empty leaf; an entity stays listed only for quadrants that held it before and were already detached from that subtree; the invariant holds |
| Worlds.AddThenRemove | src/physics/World.ts:18-31 | removing a body just added (and not already present) gives the list back |
| Worlds.RemoveKeepsOthers | src/physics/World.ts:23-31 | removal takes out one occurrence of the body and keeps every other body |
| Worlds.Create | src/physics/World.ts:9-16 | an invalid region is refused with the `Quadtree` constructor's message; a valid one gives a fresh world with no bodies, a lone empty root and an empty map |
| Worlds.World.constructor | src/physics/World.ts:9-16 | no bodies, and a tree over the region with thresholds 3 and 4 |
| Worlds.World.Add | src/physics/World.ts:18-21 | the body goes at the end of the list, then into the tree; a refused box leaves the tree unchanged; when the root is a leaf with room that lacks the body and its region meets the box, the root appends the entry and the map lists the body at the root |
| Worlds.World.Remove | src/physics/World.ts:23-32 | false with nothing changed for an absent body; otherwise its first occurrence leaves the list, the tree's `remove` runs and the answer is true; a body the tree does not hold leaves the tree unchanged, and a body held by one quadrant leaves the tree |
| Worlds.World.Clear | src/physics/World.ts:34-37 | no bodies, the tree's root an empty leaf, no body newly listed, and a body that only quadrants of the root's subtree held is gone from the tree |
| EventAggregators.RegisteredKeepsOrder | src/event/EventAggregator.ts:8-13 | register puts the handler last, keeps earlier handlers in order, and leaves other names alone |
| EventAggregators.NoEmptyListsKept | src/event/EventAggregator.ts:8-36 | no name ever maps to an empty list |
| EventAggregators.UnregisterUnknown | src/event/EventAggregator.ts:19-21 | an unknown name answers false and changes nothing |
| EventAggregators.UnregisterLastDeletesName | src/event/EventAggregator.ts:23-35 | a name with one handler is deleted with answer true, even for another handler |
| EventAggregators.UnregisterRemovesOne | src/event/EventAggregator.ts:27-35 | with two or more handlers, the answer is whether the handler was there, exactly one occurrence goes, and other names stay |
| EventAggregators.RegisterThenUnregister | src/event/EventAggregator.ts:8-36 | unregistering a just-registered new handler restores the dictionary |
| EventAggregators.EventAggregator.constructor | src/event/EventAggregator.ts:6 | no names |
| EventAggregators.EventAggregator.Register | src/event/EventAggregator.ts:8-16 | the dictionary becomes `Registered` of the old one, and the returned unregistration names this handler |
| EventAggregators.EventAggregator.Unregister | src/event/EventAggregator.ts:18-36 | dictionary and answer are `Unregistered` of the old dictionary |
| EventAggregators.EventAggregator.Revoke | src/event/EventAggregator.ts:15 | calling the returned closure is `unregister(name, handler)` |
| EventAggregators.EventAggregator.Dispatch | src/event/EventAggregator.ts:38-47 | nothing for an unknown name; otherwise the handlers are called in order, every one before the last answered false, and the chain stops early only right after a true |

## Left out

- Fuel. The recursion of `QuadrantArena.Arena.Insert`, `Remove`, `Update` and `Relocate`, and the `Quadtrees.Quadtree` methods that call them, take a `fuel` bound. Fuel 0 does nothing. The shown `Quadrant.insert` has no depth limit: inserting more than `maxEntities` + 1 entities with coincident boxes splits forever in the source, and the fuel bound cuts that recursion off. Fuel can also run out inside a split: `QuadrantArena.Arena.Split` clears q, which unregisters its entries, and re-inserts them and the new entry through q's children with one less fuel. When that is 0, those inserts do nothing, so the set-aside entries and the new one end up held by no quadrant. The source never drops entries this way.
- QuadrantArena.Arena.Insert, QuadrantArena.Arena.Split: a split is stated to make q internal over its four new children, but not where the re-inserted entries and the new one end up. Fuel can run out during the re-insertion (see the Fuel line), so they may end up held nowhere.
- QuadrantArena.Arena.Remove: the exact new state is stated for the no-op cases and for a parentless leaf. When a collapse follows, only the invariant is promised.
- QuadrantArena.Arena.RemoveFromLeaf, QuadrantArena.Arena.RemoveAt: the leaf branch of `Arena.Remove`, with the same partial state when a collapse follows.
- QuadrantArena.Arena.BubbleCollapse: states the stopping case and the invariant. It does not state that the re-inserted entries are held again after a collapse.
- QuadrantArena.Arena.BubbleInsert: states where the insertion happens and the invariant. It does not state that the entity ends up held there, since that insert may split.
- QuadrantArena.Arena.Update: requires a valid new box. The front door checks it (src/graph/quadtree/Quadtree.ts:49-50), and the invariant that every entry meets its region needs it. The exact new state is stated only when the entry stays where it is.
- QuadrantArena.Arena.Relocate: states the exact new state only when the entry stays in q. Removal and re-insertion promise only the invariant.
- Quadtrees.Quadtree.Remove: states that the entity is gone only when one quadrant held it. With several holders the loop skips quadrants (see "## Findings"), and which ones depends on what each call does to the array, so the quadrants called are tied to `LiveVisits` only under the stated condition that each call splices out the quadrant it read.
- Quadtrees.Quadtree.Remove, Quadtrees.Quadtree.Update: the loop also stops after `fuel` calls. A call can push quadrants onto the array it loops over (a collapse or a re-insertion registers new holders), and no bound on how long that goes on is proved.
- Quadtrees.Quadtree.RemoveFromCopy: does not claim that the entity is gone when several quadrants held it. A collapse re-inserts the entries of a sibling subtree, and with them the entity, into a quadrant the copy never lists.
- Quadtrees.Quadtree.Update, Quadtrees.Quadtree.UpdateFromCopy: state which quadrants are updated, not where the entity ends up.
- Quadtrees.Quadtree.Insert: states the exact new state only when the root is a leaf that appends the entry.
- Null and undefined arguments. Boxes are values, so the `!bounds` checks never fire. An entity argument is an `Option`, and `None` stands for every falsy value.
- Boxes are stored by value. The tree keeps the `Box` an entity was inserted with; the source keeps the `AABB` object, which the caller may later mutate.
- Polygons hold their vertices as values, so aliasing between a polygon's `Vector2` objects and the caller's is not modelled.
- Square roots and trigonometry are not modelled:
  - `Vector2.rotate`, `length`, `distance`, `lerp`, `clamp` and `div`, and `normalize` of a non-zero vector;
  - `Polygon.scale`, `containsPoint`, `contains`, `intersects` and `project`;
  - `Circle.perimeter` and `area`.
- Polygons.Polygon.Rotate: takes the rotated vertex positions as a parameter instead of computing them with sine and cosine.
- Polygons.CacheOf: caches each edge normal before `normalize` scales it to unit length. The normals' count and direction are modelled; their length is not.
- Bodies.Body.constructor: takes `calculateInertia()` of the cloned shape as a parameter, because its denominator can be 0. It also takes the rotated vertices.
- Bodies.Body.SetMass: requires a non-zero mass. The source stores `1 / 0`, which is Infinity, and no real stands for that.
- Bodies.Body.SetInertia: requires a non-zero inertia, for the same reason.
- The body's `contacts` list and its getters are not modelled. `Body.type` is a natural number.
- EventAggregators.EventAggregator.Dispatch: the handler is a pure function of the handler and the event, so a handler that registers or unregisters during dispatch is not modelled.
- Worlds.World.Add: the tree's thrown error on an invalid box is returned as an `Outcome`. As in the source, the body is in the list either way. The exact new tree is stated only when the root is a leaf that appends the entry; otherwise `Quadtrees.Quadtree.Insert`'s invariant and growth are passed on.
- Worlds.World.Remove: calls the tree's `remove` as written, so the body is stated to leave the tree only when one quadrant held it.
- Worlds.World.constructor: requires a valid region. `Worlds.Create` is the entry point that refuses an invalid one with the error the `Quadtree` constructor throws.
- EventAggregators.EventAggregator: the handler table is a map from name to list. The source's `_handlers` is a plain object literal, so a name inherited from `Object.prototype` (`constructor`, `toString`) finds a function, not a list. For such a name `register` and `dispatch` throw, and `unregister` returns true. This is not modelled.
- Polygons.Polygon.Remove, Polygons.Polygon.Insert: take an integer index. JavaScript's `splice` truncates its index, so `remove(1.5)` deletes vertex 1. `remove(NaN)` passes both range checks, deletes vertex 0 and returns true. Neither is modelled.
- Quadtrees.Quadtree.Clear, Worlds.World.Clear: an entity held by a quadrant that a collapse had already detached stays listed. Detached quadrants can hold entries (next line), and `clear` walks only the current children, so the map is not stated to be empty afterwards.
- Quadrants.Located: a quadrant detached by a collapse can still receive entries, because `update` starts its climb from the parent it recorded before the collapse. The invariant is stated over every quadrant of the arena, detached ones included.
- Not part of this model: Engine, SAT, CMC, BHTree, the webpack configuration and the type-only files.

## Findings

| source | as written | input that shows it | evidently intended | confidence | as-written member | corrected member |
|---|---|---|---|---|---|---|
| src/math/Circle.ts:39-47 | `contains` returns `(r - r')² < d²`, the comparison the wrong way round | circle (0, 0, r 10) and circle (0, 0, r 1): false; circle (0, 0, r 10) and circle (100, 0, r 1): true | `d² < (r - r')²`: the inner circle lies inside | not executed | Circles.ContainsAsWrittenAcceptsDisjoint | Circles.ContainedIsInside |
| src/math/Vector2.ts:107-112 | `equals` joins the component tests with `\|\|`, so `isZero` (152-154) holds when either component is 0 | (0, 0).equals((0, 5), 0) is true, and (0, 5).isZero is true | both components within the precision (`&&`) | not executed | Vectors.EqualsAsWrittenAcceptsDifferentVectors | Vectors.CloseToExact |
| src/graph/quadtree/Quadtree.ts:41-42 | `remove` loops over the live array from `QuadtreeMap.get` while each `Quadrant.remove` splices that array, so every other holder is skipped (`Quadtrees.Quadtree.Remove` models this loop; its quadrants called are `LiveVisits`) | min 1, max 2, root (0, 0, 8, 8); insert (0.5, 0.5, 1, 1), (6, 0.5, 1, 1), (0.5, 6, 1, 1), then x = (3.5, 3.5, 1, 1); x is held by children 0, 1, 2 and 3; `remove(x)` visits only children 0 and 2, and `contains(x)` stays true | remove the entity from every quadrant that held it when the call began | not executed | Quadtrees.LiveVisitsSkipsSecond | Quadtrees.Quadtree.RemoveFromCopy |
| src/graph/quadtree/Quadtree.ts:56-57 | `update` loops over the same live array, and each quadrant whose region the new box misses splices itself out | the tree above; `update(x, (6.5, 6.5, 1, 1))`: child 0 removes x and shortens the array, so position 1 is now child 2, which removes x too; the loop then ends, so children 1 and 3 are skipped and keep x with its old box, although child 3's region contains the new box | update the entity in every quadrant that held it when the call began | not executed | Quadtrees.LiveVisitsSkipsSecond | Quadtrees.Quadtree.UpdateFromCopy |
