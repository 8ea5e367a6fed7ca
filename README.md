# SkirtPhysics in Dafny

A verified model of the core of `SkirtPhysics`, a Unity component that
simulates a cloth skirt as a grid of point masses: one ring of vertices per
configured cross-section (`SkirtRing`), `m_segments` vertices per ring, joined
by vertical and horizontal springs. Ring 0 is kinematic, pinned to the root
transform. Every physics step (`FixedUpdate`) does the following:

1. drives ring 0;
2. resets each force to a pull toward the vertex's rest pose and adds the
   spring forces;
3. integrates with damping;
4. pulls over-stretched springs back to their limit;
5. pushes every horizontal edge below ring 0 out of the colliders, using a
   capsule-shaped helper collider.

`GenerateBones` binds each skinned-mesh bone and its chain of first children
to quads of the grid below the nearest ring-0 segment. `OnValidate` clamps the
inspector settings.

The model is split into modules:

- `Vectors`: `Vector3` as a triple of reals, with the vector arithmetic
  used.
- `Engine`: the engine services as a `Host` of uninterpreted functions:
  - `TransformPoint` of the root transform;
  - `Mathf.Sqrt`, `Vector3.normalized`, `Mathf.Cos` and `Mathf.Sin`;
  - `Physics.ComputePenetration`;
  - a bone's world position and its first child.

  `Lawful(h)` states the only two facts the proofs need. A lawful square
  root squares back. A normalized non-zero vector has unit length, and times
  the vector's magnitude gives the vector back.
- `Grid`: the vertex grid, flattened so that vertex `[r, s]` is at index
  `r * segments + s`, and the spring array built over it. Springs name their
  endpoints by index.
- `Dynamics`: each phase of the integrator as a function of the vertex
  sequence.
- `Collisions`: the edge-by-edge, collider-by-collider relaxation, with the
  penetration query as an oracle.
- `Bones`: segment choice, chain walk and offset recording.
- `Settings`: the inspector fields and `OnValidate`'s clamps.
- `Simulation`: a whole step as one function, the ring-0 guarantee, and
  rest-pose stability: a freshly generated skirt with no colliders stays where
  it is.
- `Skirt`: the component itself, as a class whose fields are the component's
  fields. `verts` is an array updated in place, `springs` an array and `bones`
  a list. Each method is the source's loop or loops, proved equal to the
  specification function of its phase.

Two places where the model follows the code rather than a natural reading:

- The spring force `F = ((p2 - p1) - rest) * elasticity * 0.25` is **added**
  to the first endpoint (unless that endpoint is anchor-static) and
  **subtracted** from the second. That is, `v1 += F`, `v2 -= F`.
  `SpringForceRestores` shows that this sign convention restores the rest
  vector. On a free spring, the relative force `v2.force - v1.force` that
  drives the span `p2 - p1` changes by exactly `-2F`, and `-2F` never points
  along the span's deviation from rest.
- A segment's angle offset is C#'s integer quotient `i * 360 / m_segments`,
  truncated before it is added to the float starting angle.
  `AngleStepTruncates` states that it is the floor of `i * 360 / segments`
  and equals `i * (360 / segments)` whenever `segments` divides 360.
  `AngleStepDrift` states the difference exactly: the offset runs ahead of
  `i * (360 / segments)` by `i * (360 % segments) / segments`, so with 7
  segments segment 6 sits at 308 degrees rather than 306.

## Model

| member | source | states |
|---|---|---|
| Settings.Validated | SkirtPhysics/SkirtPhysics.cs:83-90 | after the clamps every clamped field is in range (segments >= 4; inertia, damping, elasticity in [0, 1]; stiffness >= 0; both stretch limits >= 1); a field already in range keeps its value; starting angle and collision radius are untouched |
| Settings.Clamp01Spec | SkirtPhysics/SkirtPhysics.cs:84-85 | Clamp01 lands in [0, 1], is the identity exactly on [0, 1], and sends values below to 0 and above to 1 |
| Settings.Clamp01 | SkirtPhysics/SkirtPhysics.cs:84-85 | `Mathf.Clamp01`: 0 below 0, 1 above 1, the value itself in between; `Settings.Clamp01Spec` states its properties |
| Settings.MaxReal | SkirtPhysics/SkirtPhysics.cs:87-90 | `Mathf.Max` on floats: the result is at least both arguments and is one of them |
| Settings.MaxInt | SkirtPhysics/SkirtPhysics.cs:86 | `Mathf.Max` on ints: the result is at least both arguments and is one of them |
| Settings.ValidatedFixedPoints | SkirtPhysics/SkirtPhysics.cs:83-90 | the clamps change the settings if and only if some field is out of range |
| Settings.ValidatedIdempotent | SkirtPhysics/SkirtPhysics.cs:83-90 | clamping twice gives the same settings as clamping once |
| Settings.DefaultsInRange | SkirtPhysics/SkirtPhysics.cs:20-28 | the declared defaults are already in range, so the clamps leave them unchanged |
| Skirt.SkirtPhysics.constructor | SkirtPhysics/SkirtPhysics.cs:16-29 | a new component carries the declared defaults and has no grid, springs, bones or helper capsule |
| Skirt.SkirtPhysics.OnValidate | SkirtPhysics/SkirtPhysics.cs:83-90 | the component's settings become exactly the clamped settings of what they were |
| Skirt.SkirtPhysics.Start | SkirtPhysics/SkirtPhysics.cs:61-70 | the grid, the springs and the bindings are the generated ones for the configuration; every spring joins two grid vertices; the helper capsule exists |
| Grid.Mesh | SkirtPhysics/SkirtPhysics.cs:211 | the grid has one row of `segments` vertices per ring |
| Grid.MeshAt | SkirtPhysics/SkirtPhysics.cs:209-224 | vertex [r, s] lies at ring r's offset plus (cos a * radiusX, 0, sin a * radiusZ) for segment s's angle a; its position is the root transform of that point; force and velocity are zero |
| Grid.AngleStep | SkirtPhysics/SkirtPhysics.cs:214 | the whole-degree offset `i * 360 / m_segments` of segment i, with C#'s integer division; `Grid.AngleStepTruncates` states its bounds |
| Grid.RestVertex | SkirtPhysics/SkirtPhysics.cs:214-220 | the vertex built for one segment of one ring: its position is the root transform of its local rest position, and its force and velocity are zero |
| Grid.AngleStepTruncates | SkirtPhysics/SkirtPhysics.cs:214 | the degree offset of segment i is the integer quotient of i * 360 by segments (bounded below and above by the division identity); it equals i * (360 / segments) when segments divides 360 |
| Grid.AngleStepDrift | SkirtPhysics/SkirtPhysics.cs:214 | the truncated offset equals i * (360 / segments) + i * (360 % segments) / segments: it runs ahead of i whole steps by the accumulated remainders, truncated once |
| Grid.SegmentAngle | SkirtPhysics/SkirtPhysics.cs:214 | segment i's angle in radians: Deg2Rad * (startingAngle + the truncated whole-degree offset) |
| Grid.RestLocalPosition | SkirtPhysics/SkirtPhysics.cs:215-216 | a vertex's local rest position: the ring's offset plus (cos a * radiusX, 0, sin a * radiusZ) |
| Grid.IdxSplit | SkirtPhysics/SkirtPhysics.cs:54 | the flat index r * segments + s determines ring r and segment s |
| Skirt.SkirtPhysics.GenerateSkirtMesh | SkirtPhysics/SkirtPhysics.cs:209-224 | returns a fresh array equal to the generated grid |
| Skirt.SkirtPhysics.GenerateRing | SkirtPhysics/SkirtPhysics.cs:213-221 | the inner loop appends ring ringNum's row after the rows above it |
| Grid.MeshRow | SkirtPhysics/SkirtPhysics.cs:213-221 | one ring's `segments` vertices, segment by segment, each the `Grid.RestVertex` of its segment |
| Grid.MeshRows | SkirtPhysics/SkirtPhysics.cs:212-222 | the rows of the first n rings, one after the other; `Grid.MeshAt` states where each vertex lands |
| Grid.Springs | SkirtPhysics/SkirtPhysics.cs:227 | the spring array has (rings - 1) * segments * 2 entries |
| Grid.SpringsAt | SkirtPhysics/SkirtPhysics.cs:226-251 | for k = (r - 1) * segments + s, spring 2k runs vertically from [r - 1, s] to [r, s] and is anchor-static exactly when r == 1; spring 2k + 1 runs horizontally from [r, s] to [r, (s + 1) % segments] and is never static; each rest vector is the offset between the endpoints at build time, and each rest length is its magnitude |
| Grid.SpringsOnGrid | SkirtPhysics/SkirtPhysics.cs:226-247 | every spring joins two grid vertices; no spring can move a ring-0 vertex (never a second endpoint, and a first endpoint only when anchor-static) |
| Grid.VerticalSpring | SkirtPhysics/SkirtPhysics.cs:231-238 | the vertical spring of [r, s] joins two grid vertices exactly one row apart (v2 == v1 + segments), is anchor-static exactly when its first endpoint is on ring 0, and has the current offset from v1 to v2 as its rest vector |
| Grid.HorizontalSpring | SkirtPhysics/SkirtPhysics.cs:239-245 | the horizontal spring of [r, s] joins two grid vertices of ring r, distinct unless the ring has one segment, is neither vertical nor anchor-static, and has the current offset from v1 to v2 as its rest vector |
| Grid.RingSprings | SkirtPhysics/SkirtPhysics.cs:230-246 | the springs of ring r's first n segments, vertical then horizontal for each: 2 * n of them |
| Grid.RawSprings | SkirtPhysics/SkirtPhysics.cs:228-248 | the springs of rings 1 .. n - 1 in the order the first pass writes them; `Grid.RawSpringsLength` states their number |
| Grid.RawSpringsLength | SkirtPhysics/SkirtPhysics.cs:228-248 | the first pass writes two springs per vertex below ring 0 |
| Grid.Measured | SkirtPhysics/SkirtPhysics.cs:249-251 | the second pass keeps the number of springs |
| Skirt.SkirtPhysics.GenerateSprings | SkirtPhysics/SkirtPhysics.cs:226-252 | the component's new spring array equals `Grid.Springs` of the current grid |
| Skirt.SkirtPhysics.WriteRawSprings | SkirtPhysics/SkirtPhysics.cs:228-248 | the running springIdx loop fills the whole array with the first pass's springs, ring by ring |
| Skirt.SkirtPhysics.GenerateRingSprings | SkirtPhysics/SkirtPhysics.cs:230-247 | the springs of ring r are appended after the springIdx springs already written, and springIdx advances by 2 * segments |
| Skirt.SkirtPhysics.WriteSegmentSprings | SkirtPhysics/SkirtPhysics.cs:231-246 | vertex [r, s]'s vertical and then horizontal spring are written at springIdx and springIdx + 1; earlier entries are kept |
| Skirt.SkirtPhysics.MeasureSprings | SkirtPhysics/SkirtPhysics.cs:249-251 | the last loop of GenerateSprings leaves the array equal to `Grid.Measured` of its old contents: each rest length becomes its rest vector's magnitude |
| Dynamics.Driven | SkirtPhysics/SkirtPhysics.cs:103-105 | driving ring 0 keeps the number of vertices |
| Skirt.SkirtPhysics.DriveRootRing | SkirtPhysics/SkirtPhysics.cs:103-105 | each ring-0 vertex is placed at the root transform of its rest position, and nothing else changes |
| Dynamics.ShapeForces | SkirtPhysics/SkirtPhysics.cs:108-111 | the shape phase: every force becomes (T(startLocalPosition) - position) * shapeStiffness; the number of vertices is kept |
| Dynamics.ShapeForcesPositions | SkirtPhysics/SkirtPhysics.cs:108-111 | the shape-force loop leaves every position as it was |
| Skirt.SkirtPhysics.AccumulateShapeForces | SkirtPhysics/SkirtPhysics.cs:108-111 | every force becomes (T(startLocalPosition) - position) * shapeStiffness, and nothing else changes |
| Dynamics.SpringForcesFrame | SkirtPhysics/SkirtPhysics.cs:113-120 | the spring loop changes forces and nothing else |
| Dynamics.SpringForcesPositions | SkirtPhysics/SkirtPhysics.cs:113-120 | so the positions the spring loop reads are the same for every spring |
| Dynamics.ApplySpringForce | SkirtPhysics/SkirtPhysics.cs:114-119 | one spring's update, +F on a non-static first endpoint and -F on the second; the number of vertices is kept, and `Dynamics.ApplySpringForceAt` states each vertex's new force |
| Dynamics.SpringForces | SkirtPhysics/SkirtPhysics.cs:113-120 | the first n springs applied in array order; the number of vertices is kept, and `Dynamics.SpringForcesClosedForm` states the result in closed form |
| Dynamics.ApplySpringForceAt | SkirtPhysics/SkirtPhysics.cs:115-119 | one spring changes vertex i's force by exactly +F when i is its non-static first endpoint, and by -F when i is its second |
| Dynamics.SpringForcesClosedForm | SkirtPhysics/SkirtPhysics.cs:113-120 | after the spring loop each force is its old value plus F of every non-static spring the vertex starts, minus F of every spring it ends |
| Dynamics.SpringForcesAt | SkirtPhysics/SkirtPhysics.cs:113-120 | after the spring loop each vertex is its old self with the net spring force added to its force |
| Dynamics.NetSpringForceAnchored | SkirtPhysics/SkirtPhysics.cs:116-119 | a vertex that is no spring's second endpoint, and the first endpoint only of anchor-static springs, receives no spring force |
| Dynamics.PairForceAlongDeviation | SkirtPhysics/SkirtPhysics.cs:114-115 | for k >= 0 the force points along the spring's deviation from rest: F . deviation = k * deviation^2 >= 0 |
| Dynamics.PairForce | SkirtPhysics/SkirtPhysics.cs:114-115 | the spring force F = ((p2 - p1) - rest) * k; `Dynamics.PairForceAlongDeviation` and `Dynamics.SpringForceRestores` state its direction and effect |
| Dynamics.SpringForceRestores | SkirtPhysics/SkirtPhysics.cs:115-119 | on a free spring between two distinct vertices, v1 += F and v2 -= F change v2.force - v1.force by exactly -2F, and -2F . deviation <= 0, so the change never pushes the span further from its rest vector |
| Skirt.SkirtPhysics.AccumulateSpringForces | SkirtPhysics/SkirtPhysics.cs:113-120 | the array-order loop leaves the vertices equal to `Dynamics.SpringForces` over all springs, with k = elasticity * 0.25 |
| Skirt.SkirtPhysics.AddSpringForce | SkirtPhysics/SkirtPhysics.cs:114-119 | one spring adds F to its first endpoint unless static and subtracts F from its second |
| Simulation.ForcePhase | SkirtPhysics/SkirtPhysics.cs:103-120 | after the force phase each vertex is its driven self, with force shapeStiffness * (T(startLocalPosition) - position) plus F of every non-static spring it starts, minus F of every spring it ends, where F = ((p2 - p1) - rest) * elasticity * 0.25 |
| Simulation.Forces | SkirtPhysics/SkirtPhysics.cs:103-120 | the force phase: drive ring 0, the shape phase, then the spring phase with k = elasticity * 0.25; the number of vertices is kept |
| Skirt.SkirtPhysics.AccumulateForces | SkirtPhysics/SkirtPhysics.cs:103-120 | drive, shape and spring loops in order leave the vertices equal to `Simulation.Forces` |
| Dynamics.Integrated | SkirtPhysics/SkirtPhysics.cs:123-126 | every vertex takes velocity' = velocity * (1 - damping) + force * inertia and moves by velocity'; its rest position and force are kept |
| Dynamics.IntegratedVertex | SkirtPhysics/SkirtPhysics.cs:124-125 | one vertex's integration: the position advances by the new velocity, not the old one, and the force and rest position are kept |
| Skirt.SkirtPhysics.Integrate | SkirtPhysics/SkirtPhysics.cs:123-126 | the in-place loop leaves the vertices equal to `Dynamics.Integrated` of their old values |
| Dynamics.StretchMoves | SkirtPhysics/SkirtPhysics.cs:129-146 | a spring within its limit changes nothing; past it, both endpoints' position and velocity move by the same deltas, the deltas close the gap by exactly the excess along the normalized span, they are opposite for a free spring, and an anchor-static spring's first endpoint stays put; no other vertex changes |
| Dynamics.StretchReachesLimit | SkirtPhysics/SkirtPhysics.cs:129-146 | immediately after its correction an over-long spring points the way it did, its squared length is maxLen^2, and its length is maxLen = restLength * (vertical ? verticalLimit : horizontalLimit) |
| Dynamics.StretchSpan | SkirtPhysics/SkirtPhysics.cs:133-144 | the correction shortens an over-long span by (len - maxLen) along its normalized direction |
| Dynamics.MaxLength | SkirtPhysics/SkirtPhysics.cs:131 | a spring's longest allowed length: restLength times the vertical limit for a vertical spring and the horizontal limit otherwise |
| Grid.Nudge | SkirtPhysics/SkirtPhysics.cs:141-144 | one vertex moved by a delta: the same vector added to its position and its velocity, as the stretch pass (141-144) and the collision pass (179-182) both do |
| Dynamics.StretchLimitsAnchored | SkirtPhysics/SkirtPhysics.cs:137-144 | a vertex no spring may move keeps its whole state through the stretch pass |
| Dynamics.ApplyStretch | SkirtPhysics/SkirtPhysics.cs:130-145 | one spring's stretch correction; the number of vertices is kept, and `Dynamics.StretchMoves` states how each vertex moves |
| Dynamics.StretchLimits | SkirtPhysics/SkirtPhysics.cs:129-146 | the first n springs' corrections in array order; the number of vertices is kept |
| Skirt.SkirtPhysics.ApplyStretchLimits | SkirtPhysics/SkirtPhysics.cs:129-146 | the spring-order loop leaves the vertices equal to `Dynamics.StretchLimits` over all springs |
| Skirt.SkirtPhysics.LimitStretch | SkirtPhysics/SkirtPhysics.cs:130-145 | one spring's correction, with the source's deltas, equals `Dynamics.ApplyStretch` |
| Skirt.SkirtPhysics.Advance | SkirtPhysics/SkirtPhysics.cs:103-146 | the four integrator loops in order equal `Simulation.Advance` |
| Skirt.SkirtPhysics.FixedUpdate | SkirtPhysics/SkirtPhysics.cs:98-149 | without a grid or springs nothing changes; otherwise the vertices become `Simulation.Step` of the old vertices (integrator, then collisions when the helper exists); the grid/spring invariant is kept |
| Simulation.Advance | SkirtPhysics/SkirtPhysics.cs:103-146 | the integrator: the force phase, damped integration, then the stretch pass; the number of vertices is kept |
| Simulation.Step | SkirtPhysics/SkirtPhysics.cs:98-149 | a whole step: the integrator, then collision relaxation of rings 1 and up when the helper capsule exists; the number of vertices is kept |
| Simulation.AdvanceKeepsRing0 | SkirtPhysics/SkirtPhysics.cs:103-146 | the integrator leaves a resting ring-0 vertex, which no spring can move, at T(startLocalPosition) with zero force and zero velocity |
| Simulation.Ring0Kinematic | SkirtPhysics/SkirtPhysics.cs:98-149 | after a whole step, collisions included, such a vertex sits at T(startLocalPosition) with zero force and zero velocity |
| Simulation.Ring0KinematicOnGrid | SkirtPhysics/SkirtPhysics.cs:98-149 | with the generated springs, every ring-0 vertex at rest stays kinematic through a step |
| Simulation.DrivenAtRest | SkirtPhysics/SkirtPhysics.cs:103-105 | driving ring 0 changes nothing when every vertex is at T(startLocalPosition) |
| Simulation.ShapeForcesAtRest | SkirtPhysics/SkirtPhysics.cs:108-111 | at the rest pose every shape force is zero, so a force-free resting mesh is left as it is |
| Simulation.ApplySpringForceAtRest | SkirtPhysics/SkirtPhysics.cs:114-119 | a spring whose span equals its rest vector exerts F = 0, anchor-static or not, and leaves force-free endpoints unchanged |
| Simulation.SpringForcesAtRest | SkirtPhysics/SkirtPhysics.cs:113-120 | when every spring's rest vector is its current span, the spring loop leaves a resting mesh unchanged |
| Simulation.IntegratedVertexAtRest | SkirtPhysics/SkirtPhysics.cs:124-125 | a vertex with zero force and zero velocity keeps its velocity (zero) and its position |
| Simulation.IntegratedAtRest | SkirtPhysics/SkirtPhysics.cs:123-126 | integration leaves a resting mesh unchanged |
| Simulation.WithinStretchedSquare | SkirtPhysics/SkirtPhysics.cs:131-132 | a length m with m^2 = lenSqr is within maxLen = m * limit whenever limit >= 1, so the guard `lenSqr > maxLen * maxLen` fails |
| Simulation.ApplyStretchAtRest | SkirtPhysics/SkirtPhysics.cs:130-145 | a spring whose span is its rest vector and whose rest length is that vector's magnitude is not corrected when its limit is at least 1 (with a lawful square root) |
| Simulation.StretchLimitsAtRest | SkirtPhysics/SkirtPhysics.cs:129-146 | with relaxed springs and both limits at least 1, the stretch pass leaves the mesh unchanged |
| Simulation.RestIsFixedPoint | SkirtPhysics/SkirtPhysics.cs:103-146 | rest-pose stability: when every vertex sits at T(startLocalPosition) with zero force and velocity, every spring's rest vector is its span with rest length its magnitude, and both stretch limits are at least 1, the integrator returns the vertices unchanged |
| Simulation.RestIsFixedStep | SkirtPhysics/SkirtPhysics.cs:98-149 | the same for a whole step with no colliders, whether or not the helper capsule exists |
| Simulation.MeshRowsResting | SkirtPhysics/SkirtPhysics.cs:212-222 | every generated vertex starts at T(startLocalPosition) with zero force and zero velocity |
| Simulation.RingSpringsRestSpans | SkirtPhysics/SkirtPhysics.cs:229-246 | each spring of a ring joins two grid vertices and its rest vector is their current offset |
| Simulation.RawSpringsRestSpans | SkirtPhysics/SkirtPhysics.cs:228-247 | the same for the springs of every ring below ring 0 |
| Simulation.SpringsRelaxed | SkirtPhysics/SkirtPhysics.cs:226-251 | the generated springs are relaxed on the grid they were built from: rest vector the span, rest length its magnitude |
| Simulation.GeneratedSkirtAtRest | SkirtPhysics/SkirtPhysics.cs:61-70 | a freshly generated skirt with stretch limits of at least 1 is a fixed point of the integrator and of a collider-free step |
| Collisions.EdgeCapsule | SkirtPhysics/SkirtPhysics.cs:162-167 | the helper capsule around one edge: height the edge length plus two radii, centre the edge midpoint pushed one radius away from T(ring offset), oriented along the edge; `Skirt.SkirtPhysics.PushEdgeOut` states that the source's statements build it |
| Collisions.Hit | SkirtPhysics/SkirtPhysics.cs:176-183 | one reported penetration moves the capsule centre and both edge vertices by dir * dist; `Collisions.RelaxEdgeMovesTogether` states the total effect |
| Collisions.RelaxEdge | SkirtPhysics/SkirtPhysics.cs:168-184 | relaxing an edge keeps the number of vertices |
| Collisions.RelaxEdgeFrame | SkirtPhysics/SkirtPhysics.cs:168-184 | relaxing an edge changes only positions and velocities, and only of its two vertices |
| Collisions.CollideEdge | SkirtPhysics/SkirtPhysics.cs:160-184 | edge [r, s] - [r, (s + 1) % segments] relaxed against every collider with the capsule built around it; the number of vertices is kept |
| Collisions.CollideRing | SkirtPhysics/SkirtPhysics.cs:159-185 | the first n edges of ring r relaxed in segment order; the number of vertices is kept |
| Collisions.Collide | SkirtPhysics/SkirtPhysics.cs:158-186 | rings 1 .. n - 1 relaxed in ring order; the number of vertices is kept |
| Collisions.RelaxEdgeMovesTogether | SkirtPhysics/SkirtPhysics.cs:176-183 | the two edge vertices' positions and velocities move by exactly the total displacement of the capsule centre (the sum of the dir * dist of every hit); the capsule keeps its orientation, radius and height |
| Collisions.CollideEdgeFrame | SkirtPhysics/SkirtPhysics.cs:160-185 | relaxing edge [r, s] changes only the positions and velocities of [r, s] and [r, (s + 1) % segments], and never a ring-0 vertex |
| Collisions.CollideEdgeMovesTogether | SkirtPhysics/SkirtPhysics.cs:160-185 | on a ring of at least two segments both edge vertices move by one and the same displacement |
| Collisions.CollideRingFrame | SkirtPhysics/SkirtPhysics.cs:159-185 | relaxing a ring's edges keeps rest positions and forces and leaves ring 0 alone |
| Collisions.CollideFrame | SkirtPhysics/SkirtPhysics.cs:158-186 | collision relaxation never modifies a ring-0 vertex and changes only positions and velocities |
| Collisions.CollideRingWithoutColliders | SkirtPhysics/SkirtPhysics.cs:168 | with no colliders a ring's edges are left as they are |
| Collisions.CollideWithoutColliders | SkirtPhysics/SkirtPhysics.cs:158-186 | with an empty collider list relaxation leaves every vertex unchanged |
| Skirt.SkirtPhysics.HandleCollisions | SkirtPhysics/SkirtPhysics.cs:151-188 | without the helper capsule nothing changes; otherwise the vertices become `Collisions.Collide` of all rings from 1 up |
| Skirt.SkirtPhysics.PushRingsOut | SkirtPhysics/SkirtPhysics.cs:158-186 | the ring loop equals `Collisions.Collide`, ring by ring |
| Skirt.SkirtPhysics.PushRingOut | SkirtPhysics/SkirtPhysics.cs:159-185 | the segment loop equals `Collisions.CollideRing` of ring r, edge by edge |
| Skirt.SkirtPhysics.PushEdgeOut | SkirtPhysics/SkirtPhysics.cs:160-184 | the helper capsule built from the edge (height, centre pushed one radius outward, orientation) and its collider loop equal `Collisions.CollideEdge` |
| Skirt.SkirtPhysics.RelaxEdgeOut | SkirtPhysics/SkirtPhysics.cs:168-184 | the collider loop with its local capsulePos equals `Collisions.RelaxEdge` against every collider |
| Bones.Nearest | SkirtPhysics/SkirtPhysics.cs:257-267 | the scan's choice among the first n segments is one of them |
| Bones.NearestIsArgmin | SkirtPhysics/SkirtPhysics.cs:257-267 | the chosen segment's midpoint is no farther from the bone than any ring-0 segment's, and every earlier segment's is strictly farther, so the lowest index wins ties |
| Bones.NearestStep | SkirtPhysics/SkirtPhysics.cs:259-266 | the scan moves to segment n exactly when n's midpoint is strictly nearer than the best so far |
| Bones.SegmentCenter | SkirtPhysics/SkirtPhysics.cs:261-262 | the midpoint of ring-0 segment s, between vertices [0, s] and [0, (s + 1) % segments] |
| Bones.CenterDistance | SkirtPhysics/SkirtPhysics.cs:263 | the squared distance from the bone to a segment's midpoint, the quantity the scan compares |
| Skirt.SkirtPhysics.ChooseSegment | SkirtPhysics/SkirtPhysics.cs:257-267 | the argmin loop returns `Bones.Nearest` as s0, with s1 == (s0 + 1) % segments |
| Bones.Chain | SkirtPhysics/SkirtPhysics.cs:269-282 | a chain started on ring r has at most rows - 1 - r bindings, and at least one, the bone's own, while a lower ring remains |
| Bones.ChainAnchorAt | SkirtPhysics/SkirtPhysics.cs:270-274 | the q-th binding of a chain from ring r has anchors [r + q, s0], [r + q, s1], [r + q + 1, s0], [r + q + 1, s1] and no offset yet |
| Bones.QuadAt | SkirtPhysics/SkirtPhysics.cs:273 | the anchors of a binding on ring r: [r, s0], [r, s1], [r + 1, s0], [r + 1, s1] as flat indices |
| Bones.ChainOnGrid | SkirtPhysics/SkirtPhysics.cs:270-274 | every anchor of a chain is a grid vertex |
| Bones.QuadAtInGrid | SkirtPhysics/SkirtPhysics.cs:273 | the quad between rings r and r + 1 lies on the grid |
| Bones.ChainWalk | SkirtPhysics/SkirtPhysics.cs:269-282 | each bone of a chain is its predecessor's first child, and the walk stops on the last ring pair or at a bone with no child or no Transform |
| Bones.BoneBindings | SkirtPhysics/SkirtPhysics.cs:256-283 | one mesh bone's chain, walked from ring 0 below its nearest segment; `Bones.BoneBindingsShape` states its shape |
| Bones.AllBindings | SkirtPhysics/SkirtPhysics.cs:255-283 | the chains of the first n mesh bones in list order; `Bones.AllBindingsStep` and `Bones.AllBindingsCount` state its growth and size |
| Bones.GeneratedBones | SkirtPhysics/SkirtPhysics.cs:254-292 | the bindings GenerateBones leaves: `Bones.AllBindings` of every mesh bone, calibrated by `Bones.Calibrated` |
| Skirt.SkirtPhysics.BindChain | SkirtPhysics/SkirtPhysics.cs:269-282 | the walk appends exactly `Bones.Chain` to the bindings |
| Bones.BoneBindingsShape | SkirtPhysics/SkirtPhysics.cs:256-283 | with rings >= 2 each mesh bone yields between 1 and rings - 1 bindings; the first is its own, and binding q sits on the quad of rings q and q + 1 over s0 and (s0 + 1) % segments |
| Bones.AllBindingsStep | SkirtPhysics/SkirtPhysics.cs:256-283 | each mesh bone appends its chain below its nearest segment after the bindings of the bones before it |
| Bones.AllBindingsOnGrid | SkirtPhysics/SkirtPhysics.cs:256-283 | every binding's anchors are grid vertices |
| Bones.AllBindingsCount | SkirtPhysics/SkirtPhysics.cs:256-283 | with rings >= 2, n mesh bones give between n and n * (rings - 1) bindings |
| Skirt.SkirtPhysics.BindMeshBones | SkirtPhysics/SkirtPhysics.cs:256-283 | the mesh-bone loop leaves the bindings equal to `Bones.AllBindings` of every mesh bone |
| Bones.Calibrated | SkirtPhysics/SkirtPhysics.cs:285-291 | each binding keeps its bone and anchors and records an offset such that the quad's top-edge midpoint plus the offset is exactly the bone's position |
| Bones.SegmentPosition | SkirtPhysics/SkirtPhysics.cs:191 | the position half of GetSegmentOrientation: the midpoint of a quad's top edge |
| Skirt.SkirtPhysics.RecordOffsets | SkirtPhysics/SkirtPhysics.cs:285-291 | the offset loop leaves the bindings equal to their calibrated sequence |
| Skirt.SkirtPhysics.GenerateBones | SkirtPhysics/SkirtPhysics.cs:254-292 | the bindings become `Bones.GeneratedBones`: the calibrated bindings of every mesh bone's chain below its nearest segment |

## Left out

- `Start`'s creation of the helper `GameObject` and `CapsuleCollider`, and `Stop` (61-76): the helper's existence is a single flag, `helperActive`. It decides whether `HandleCollisions` runs, and `Start` sets it. Its activation and deactivation around the collision loop (156, 187) are not modelled.
- `Physics.ComputePenetration` (172-175) is an oracle, `Host.computePenetration`, that takes the capsule and the collider. The collider's own pose is folded into the oracle.
- Quaternions: `Quaternion.LookRotation` (166, 194), the rotation half of `GetSegmentOrientation` and `rotationOffset` (290), and all of `LateUpdate` (197-207). The capsule records the two vectors its rotation is built from (forward and up). A binding keeps only its position offset.
- `TransformPoint`, `Mathf.Sqrt`, `.magnitude`, `.normalized`, `Mathf.Cos`, `Mathf.Sin`, bone positions and child lookup are uninterpreted functions of a `Host`. Only the facts in `Lawful` are assumed of them, and only where a lemma says so.
- `m_root ?? transform` (99, 155, 210): the chosen root transform is `Host.transformPoint`.
- IEEE single-precision arithmetic: every float is a real, so rounding is not modelled. `Mathf.Deg2Rad` is its single-precision value, taken as an exact real.
- `OnValidate`'s mesh regeneration (91-95) is not modelled. When the segment count changes it rebuilds `m_verts` at the new size, but `m_springs` and `m_bones` keep pointing at the old, now orphaned vertex objects (231-245, 273): the spring and stretch phases then act on the orphans, and the new grid has no spring coupling. The model keeps the grid built by `Start`.
- `OnDrawGizmosSelected` (294-308) only draws debug lines.
- `Update` (79-81) is empty.
- `Skirt.SkirtPhysics.Start` requires at least two segments and at least one ring. With no ring, the source's spring array has negative size and the engine throws. With one segment the segment scan (259) does not run, and the anchors of the first binding read `m_verts[r, s1]` with `s1 = 1` (273), which does not exist; that happens only with a mesh bone and at least two rings. With zero segments every loop of `GenerateSkirtMesh`, `GenerateSprings` and the segment scan is empty, and the chain walk reads `m_verts[r, 0]` (273) only with a mesh bone and at least two rings. The requirement of two segments therefore also excludes zero- and one-segment skirts that the source accepts: those with no mesh bone or a single ring. `OnValidate` keeps segments at 4 or more.
- `Skirt.SkirtPhysics.FixedUpdate` requires the grid and spring invariant `Valid()`, which `Start` establishes. The source has no such check. After `OnValidate`'s regeneration the new grid matches `m_rings.Count × m_segments`, so the loops stay in bounds, but the springs act on orphaned vertices (see above). `HandleCollisions` reads outside `m_verts` (160) only when `m_rings` grows without a regeneration.
- `Dynamics.StretchReachesLimit`: the stretch bound is proved for each spring right after its own correction, not for the whole array after the pass (129-146). A later spring that shares a vertex moves it again. Take one column with rest length 1, vertical limit 1.1, and vertices at heights 0, -2 and -10. The first spring (anchor-static) pulls the middle vertex up to -1.1. The vertical spring of the next ring is then 8.9 long, 7.8 over its limit, and moves the middle vertex down by half of that, to -5.0. The first spring ends the pass 5.0 long.
- Non-penetration after `HandleCollisions` (158-186) is not claimed. Whether a collider still overlaps the capsule after a push depends entirely on `Physics.ComputePenetration`, which the model leaves as an unconstrained oracle. Only the frame of the relaxation and its identity without colliders are proved.
- Integer width: `m_segments` and the loop counters are unbounded integers. `i * 360` does not overflow for any realistic segment count.
