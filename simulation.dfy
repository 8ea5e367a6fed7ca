/** One whole FixedUpdate step as a function of the vertex sequence, and
    what it guarantees for the kinematic ring 0. */
module Simulation {
  import opened Vectors
  import opened Engine
  import opened Grid
  import opened Dynamics
  import opened Collisions
  import opened Settings

  /** The first three phases: ring 0 driven to the root, every force reset
      to the shape force, then the spring forces added in array order. */
  function Forces(vs: seq<Vertex>, springs: seq<Spring>, c: Settings, h: Host): (r: seq<Vertex>)
    requires c.segments <= |vs| && Endpoints(springs, |vs|)
    ensures |r| == |vs|
  {
    SpringForces(ShapeForces(Driven(vs, c.segments, h), c.shapeStiffness, h), springs, c.elasticity * 0.25, |springs|)
  }

  /** The force phase: after ring 0 is driven, each vertex's force is the
      shape force shapeStiffness * (T(startLocalPosition) - position), plus F
      of every non-static spring it starts, minus F of every spring it ends,
      where F = ((p2 - p1) - rest) * elasticity * 0.25; nothing but the force
      changes. */
  lemma {:induction false} ForcePhase(vs: seq<Vertex>, springs: seq<Spring>, c: Settings, h: Host, i: int)
    requires c.segments <= |vs| && Endpoints(springs, |vs|) && 0 <= i < |vs|
    ensures Forces(vs, springs, c, h)[i] ==
      Driven(vs, c.segments, h)[i].(force := Add(
        Scale(Sub(h.transformPoint(vs[i].startLocalPosition), Driven(vs, c.segments, h)[i].position), c.shapeStiffness),
        NetSpringForce(Positions(Driven(vs, c.segments, h)), springs, c.elasticity * 0.25, |springs|, i)))
  {
    var driven := Driven(vs, c.segments, h);
    var shaped := ShapeForces(driven, c.shapeStiffness, h);
    var k := c.elasticity * 0.25;
    SpringForcesAt(shaped, springs, k, i);
    ShapeForcesPositions(driven, c.shapeStiffness, h);
    assert Forces(vs, springs, c, h) == SpringForces(shaped, springs, k, |springs|);
    assert shaped[i] == driven[i].(force := Scale(Sub(h.transformPoint(driven[i].startLocalPosition), driven[i].position), c.shapeStiffness));
    assert driven[i].startLocalPosition == vs[i].startLocalPosition;
  }

  /** The integrator phases in their order: forces, damped integration,
      stretch limits. */
  function Advance(vs: seq<Vertex>, springs: seq<Spring>, c: Settings, h: Host): (r: seq<Vertex>)
    requires c.segments <= |vs| && Endpoints(springs, |vs|)
    ensures |r| == |vs|
  {
    var moved := Integrated(Forces(vs, springs, c, h), c.damping, c.inertia);
    StretchLimits(moved, springs, c.verticalStretchLimit, c.horizontalStretchLimit, h, |springs|)
  }

  /** A whole FixedUpdate: the integrator, then collision relaxation when the
      helper capsule exists. */
  function Step(vs: seq<Vertex>, springs: seq<Spring>, c: Settings, rings: seq<Ring>, colliders: seq<Collider>,
                helperActive: bool, h: Host): (r: seq<Vertex>)
    requires 0 < c.segments && 1 <= |rings| && |vs| == |rings| * c.segments && Endpoints(springs, |vs|)
    ensures |r| == |vs|
  {
    MulMonotone(1, |rings|, c.segments);
    var limited := Advance(vs, springs, c, h);
    if helperActive then Collide(limited, rings, c.segments, colliders, c.collisionRadius, h, |rings|)
    else limited
  }

  lemma {:induction false} ScaleZero(c: real)
    ensures Scale(Zero, c) == Zero
  {
  }

  /** The integrator leaves a resting ring-0 vertex that no spring moves at
      the root transform of its rest position, with no force and no velocity. */
  lemma {:induction false} AdvanceKeepsRing0(vs: seq<Vertex>, springs: seq<Spring>, c: Settings, h: Host, i: int)
    requires c.segments <= |vs| && Endpoints(springs, |vs|)
    requires 0 <= i < c.segments && Anchored(springs, i) && vs[i].velocity == Zero
    ensures var home := h.transformPoint(vs[i].startLocalPosition);
      Advance(vs, springs, c, h)[i] == Vertex(vs[i].startLocalPosition, home, Zero, Zero)
  {
    var home := h.transformPoint(vs[i].startLocalPosition);
    var k := c.elasticity * 0.25;
    var driven := Driven(vs, c.segments, h);
    assert driven[i] == vs[i].(position := home);
    var shaped := ShapeForces(driven, c.shapeStiffness, h);
    assert shaped[i] == Vertex(vs[i].startLocalPosition, home, Zero, Zero) by {
      assert Sub(home, home) == Zero;
      ScaleZero(c.shapeStiffness);
    }
    var sprung := SpringForces(shaped, springs, k, |springs|);
    assert sprung[i] == shaped[i] by {
      SpringForcesClosedForm(shaped, springs, k, |springs|, i);
      SpringForcesFrame(shaped, springs, k, |springs|, i);
      NetSpringForceAnchored(Positions(shaped), springs, k, |springs|, i);
    }
    var moved := Integrated(sprung, c.damping, c.inertia);
    assert moved[i] == sprung[i] by {
      ScaleZero(1.0 - c.damping);
      ScaleZero(c.inertia);
    }
    StretchLimitsAnchored(moved, springs, c.verticalStretchLimit, c.horizontalStretchLimit, h, |springs|, i);
  }

  /** Ring 0 stays kinematic: if a ring-0 vertex that no spring moves has no
      velocity before a step, afterwards it sits exactly at the root
      transform of its rest position with no force and no velocity, whatever
      the colliders do. */
  lemma {:induction false} Ring0Kinematic(vs: seq<Vertex>, springs: seq<Spring>, c: Settings, rings: seq<Ring>, colliders: seq<Collider>,
                       helperActive: bool, h: Host, i: int)
    requires 0 < c.segments && 1 <= |rings| && |vs| == |rings| * c.segments && Endpoints(springs, |vs|)
    requires 0 <= i < c.segments && Anchored(springs, i) && vs[i].velocity == Zero
    ensures var home := h.transformPoint(vs[i].startLocalPosition);
      Step(vs, springs, c, rings, colliders, helperActive, h)[i] == Vertex(vs[i].startLocalPosition, home, Zero, Zero)
  {
    MulMonotone(1, |rings|, c.segments);
    AdvanceKeepsRing0(vs, springs, c, h, i);
    if helperActive {
      CollideFrame(Advance(vs, springs, c, h), rings, c.segments, colliders, c.collisionRadius, h, |rings|, i);
    }
  }

  /** With the springs GenerateSprings builds over any grid of the same
      shape, every resting ring-0 vertex stays kinematic through a step. */
  lemma {:induction false} Ring0KinematicOnGrid(grid: seq<Vertex>, vs: seq<Vertex>, c: Settings, rings: seq<Ring>, colliders: seq<Collider>,
                             helperActive: bool, h: Host, i: int)
    requires 0 < c.segments && 1 <= |rings| && |grid| == |vs| == |rings| * c.segments
    requires 0 <= i < c.segments && vs[i].velocity == Zero
    ensures var springs := Springs(grid, |rings|, c.segments, h);
      var home := h.transformPoint(vs[i].startLocalPosition);
      Endpoints(springs, |vs|) &&
      Step(vs, springs, c, rings, colliders, helperActive, h)[i] == Vertex(vs[i].startLocalPosition, home, Zero, Zero)
  {
    SpringsOnGrid(grid, |rings|, c.segments, h);
    Ring0Kinematic(vs, Springs(grid, |rings|, c.segments, h), c, rings, colliders, helperActive, h, i);
  }

  // ---------------------------------------------------------------------
  // Rest-pose stability

  /** Every vertex sits at the root transform of its rest position, with no
      force and no velocity. */
  predicate Resting(vs: seq<Vertex>, h: Host) {
    forall i :: 0 <= i < |vs| ==>
      vs[i].position == h.transformPoint(vs[i].startLocalPosition) && vs[i].force == Zero && vs[i].velocity == Zero
  }

  /** Every spring joins two of the vertices and has their current span as
      its rest vector. */
  predicate RestSpans(vs: seq<Vertex>, springs: seq<Spring>) {
    forall j :: 0 <= j < |springs| ==>
      0 <= springs[j].v1 < |vs| && 0 <= springs[j].v2 < |vs| && springs[j].rest == Span(vs, springs[j])
  }

  /** The springs are slack: rest vector the current span, rest length its
      magnitude. */
  predicate Relaxed(vs: seq<Vertex>, springs: seq<Spring>, h: Host) {
    RestSpans(vs, springs) && forall j :: 0 <= j < |springs| ==> springs[j].restLength == Magnitude(h, springs[j].rest)
  }

  lemma {:induction false} VecSubSelf(a: Vec3)
    ensures Sub(a, a) == Zero && Add(a, Zero) == a && Sub(a, Zero) == a
  {
  }

  /** Driving ring 0 moves nothing that is already at its rest pose. */
  lemma {:induction false} DrivenAtRest(vs: seq<Vertex>, segments: int, h: Host)
    requires segments <= |vs| && Resting(vs, h)
    ensures Driven(vs, segments, h) == vs
  {
    var d := Driven(vs, segments, h);
    forall i | 0 <= i < |vs|
      ensures d[i] == vs[i]
    {
    }
  }

  /** At the rest pose the shape force is zero. */
  lemma {:induction false} ShapeForcesAtRest(vs: seq<Vertex>, shapeStiffness: real, h: Host)
    requires Resting(vs, h)
    ensures ShapeForces(vs, shapeStiffness, h) == vs
  {
    var r := ShapeForces(vs, shapeStiffness, h);
    ScaleZero(shapeStiffness);
    forall i | 0 <= i < |vs|
      ensures r[i] == vs[i]
    {
      VecSubSelf(vs[i].position);
    }
  }

  /** A spring whose span is its rest vector exerts no force, so it leaves
      force-free endpoints as they are. */
  lemma {:induction false} ApplySpringForceAtRest(vs: seq<Vertex>, sp: Spring, k: real)
    requires 0 <= sp.v1 < |vs| && 0 <= sp.v2 < |vs| && sp.rest == Span(vs, sp)
    requires vs[sp.v1].force == Zero && vs[sp.v2].force == Zero
    ensures ApplySpringForce(vs, sp, k) == vs
  {
    var p1, p2 := vs[sp.v1].position, vs[sp.v2].position;
    assert PairForce(p1, p2, sp.rest, k) == Zero by {
      VecSubSelf(Sub(p2, p1));
      ScaleZero(k);
    }
  }

  /** Springs all at their rest spans add no force to a resting mesh. */
  lemma {:induction false} SpringForcesAtRest(vs: seq<Vertex>, springs: seq<Spring>, k: real, h: Host, n: int)
    requires Resting(vs, h) && RestSpans(vs, springs) && 0 <= n <= |springs|
    ensures Endpoints(springs, |vs|) && SpringForces(vs, springs, k, n) == vs
    decreases n
  {
    assert Endpoints(springs, |vs|);
    if n > 0 {
      var sp := springs[n - 1];
      assert SpringForces(vs, springs, k, n - 1) == vs by {
        SpringForcesAtRest(vs, springs, k, h, n - 1);
      }
      assert ApplySpringForce(vs, sp, k) == vs by {
        assert 0 <= sp.v1 < |vs| && 0 <= sp.v2 < |vs| && sp.rest == Span(vs, sp);
        assert vs[sp.v1].force == Zero && vs[sp.v2].force == Zero;
        ApplySpringForceAtRest(vs, sp, k);
      }
    }
  }

  /** With no force and no velocity, integration moves nothing. */
  lemma {:induction false} IntegratedVertexAtRest(v: Vertex, damping: real, inertia: real)
    requires v.force == Zero && v.velocity == Zero
    ensures IntegratedVertex(v, damping, inertia) == v
  {
    ScaleZero(1.0 - damping);
    ScaleZero(inertia);
    VecSubSelf(v.position);
  }

  lemma {:induction false} IntegratedAtRest(vs: seq<Vertex>, damping: real, inertia: real, h: Host)
    requires Resting(vs, h)
    ensures Integrated(vs, damping, inertia) == vs
  {
    var r := Integrated(vs, damping, inertia);
    forall i | 0 <= i < |vs|
      ensures r[i] == vs[i]
    {
      IntegratedVertexAtRest(vs[i], damping, inertia);
    }
  }

  /** A length of m squared is within m * limit squared for limit >= 1. */
  lemma {:induction false} WithinStretchedSquare(sq: real, m: real, limit: real, maxLen: real)
    requires 0.0 <= m && m * m == sq && 1.0 <= limit && maxLen == m * limit
    ensures sq <= maxLen * maxLen
  {
    assert m <= maxLen by {
      assert maxLen - m == m * (limit - 1.0);
    }
    assert m * m <= m * maxLen;
    assert m * maxLen <= maxLen * maxLen;
  }

  /** A slack spring is within any limit of at least 1, so its correction
      moves nothing. */
  lemma {:induction false} ApplyStretchAtRest(vs: seq<Vertex>, sp: Spring, verticalLimit: real, horizontalLimit: real, h: Host)
    requires Lawful(h) && 1.0 <= verticalLimit && 1.0 <= horizontalLimit
    requires 0 <= sp.v1 < |vs| && 0 <= sp.v2 < |vs| && sp.rest == Span(vs, sp) && sp.restLength == Magnitude(h, sp.rest)
    ensures ApplyStretch(vs, sp, verticalLimit, horizontalLimit, h) == vs
  {
    var d := Sub(vs[sp.v2].position, vs[sp.v1].position);
    var m := Magnitude(h, d);
    SqrMagnitudeNonNegative(d);
    assert 0.0 <= m && m * m == SqrMagnitude(d);
    var limit := if sp.vertical then verticalLimit else horizontalLimit;
    WithinStretchedSquare(SqrMagnitude(d), m, limit, MaxLength(sp, verticalLimit, horizontalLimit));
  }

  lemma {:induction false} StretchLimitsAtRest(vs: seq<Vertex>, springs: seq<Spring>, verticalLimit: real, horizontalLimit: real,
                                               h: Host, n: int)
    requires Lawful(h) && 1.0 <= verticalLimit && 1.0 <= horizontalLimit
    requires Relaxed(vs, springs, h) && 0 <= n <= |springs|
    ensures Endpoints(springs, |vs|) && StretchLimits(vs, springs, verticalLimit, horizontalLimit, h, n) == vs
    decreases n
  {
    if n > 0 {
      StretchLimitsAtRest(vs, springs, verticalLimit, horizontalLimit, h, n - 1);
      ApplyStretchAtRest(vs, springs[n - 1], verticalLimit, horizontalLimit, h);
    }
  }

  /** Rest-pose stability: a skirt at its rest pose, with no force, no
      velocity and slack springs, is left exactly where it is by the
      integrator, whatever the coefficients, as long as both stretch limits
      are at least 1 (which OnValidate guarantees). */
  lemma {:induction false} RestIsFixedPoint(vs: seq<Vertex>, springs: seq<Spring>, c: Settings, h: Host)
    requires Lawful(h) && c.segments <= |vs| && 1.0 <= c.verticalStretchLimit && 1.0 <= c.horizontalStretchLimit
    requires Resting(vs, h) && Relaxed(vs, springs, h)
    ensures Endpoints(springs, |vs|) && Advance(vs, springs, c, h) == vs
  {
    DrivenAtRest(vs, c.segments, h);
    ShapeForcesAtRest(vs, c.shapeStiffness, h);
    SpringForcesAtRest(vs, springs, c.elasticity * 0.25, h, |springs|);
    assert Forces(vs, springs, c, h) == vs;
    IntegratedAtRest(vs, c.damping, c.inertia, h);
    StretchLimitsAtRest(vs, springs, c.verticalStretchLimit, c.horizontalStretchLimit, h, |springs|);
  }

  /** With no collider in the way, a whole step leaves a skirt at rest where
      it is, the helper capsule or not. */
  lemma {:induction false} RestIsFixedStep(vs: seq<Vertex>, springs: seq<Spring>, c: Settings, rings: seq<Ring>,
                                           helperActive: bool, h: Host)
    requires Lawful(h) && 0 < c.segments && 1 <= |rings| && |vs| == |rings| * c.segments
    requires 1.0 <= c.verticalStretchLimit && 1.0 <= c.horizontalStretchLimit
    requires Resting(vs, h) && Relaxed(vs, springs, h)
    ensures Endpoints(springs, |vs|) && Step(vs, springs, c, rings, [], helperActive, h) == vs
  {
    MulMonotone(1, |rings|, c.segments);
    RestIsFixedPoint(vs, springs, c, h);
    if helperActive {
      CollideWithoutColliders(vs, rings, c.segments, [], c.collisionRadius, h, |rings|);
    }
  }

  /** The generated grid is at its rest pose. */
  lemma {:induction false} MeshRowsResting(rings: seq<Ring>, startingAngle: real, segments: int, h: Host, n: int)
    requires 0 < segments && 0 <= n <= |rings|
    ensures Resting(MeshRows(rings, startingAngle, segments, h, n), h)
    decreases n
  {
    if n > 0 {
      MeshRowsResting(rings, startingAngle, segments, h, n - 1);
      var prev := MeshRows(rings, startingAngle, segments, h, n - 1);
      var row := MeshRow(rings[n - 1], startingAngle, segments, h);
      var all := prev + row;
      forall i | 0 <= i < |all|
        ensures all[i].position == h.transformPoint(all[i].startLocalPosition) && all[i].force == Zero && all[i].velocity == Zero
      {
        if i >= |prev| {
          assert all[i] == RestVertex(rings[n - 1], startingAngle, i - |prev|, segments, h);
        }
      }
    }
  }

  /** Ring r's generated springs have their build-time spans as rest vectors. */
  lemma {:induction false} RingSpringsRestSpans(vs: seq<Vertex>, rows: int, segments: int, r: int, n: int)
    requires |vs| == rows * segments && 1 <= r < rows && 0 <= n <= segments
    ensures RestSpans(vs, RingSprings(vs, rows, segments, r, n))
    decreases n
  {
    if n > 0 {
      RingSpringsRestSpans(vs, rows, segments, r, n - 1);
    }
  }

  lemma {:induction false} RawSpringsRestSpans(vs: seq<Vertex>, rows: int, segments: int, n: int)
    requires 0 < segments && |vs| == rows * segments && 1 <= n <= rows
    ensures RestSpans(vs, RawSprings(vs, rows, segments, n))
    decreases n
  {
    if n > 1 {
      RawSpringsRestSpans(vs, rows, segments, n - 1);
      RingSpringsRestSpans(vs, rows, segments, n - 1, segments);
    }
  }

  /** GenerateSprings leaves every spring slack on the grid it was built over. */
  lemma {:induction false} SpringsRelaxed(vs: seq<Vertex>, rows: int, segments: int, h: Host)
    requires 0 < segments && 1 <= rows && |vs| == rows * segments
    ensures Relaxed(vs, Springs(vs, rows, segments, h), h)
  {
    RawSpringsRestSpans(vs, rows, segments, rows);
  }

  /** A freshly generated skirt with its generated springs is a fixed point
      of the integrator, and, with no collider in the way, of a whole step. */
  lemma {:induction false} GeneratedSkirtAtRest(rings: seq<Ring>, c: Settings, helperActive: bool, h: Host)
    requires Lawful(h) && 0 < c.segments && 1 <= |rings|
    requires 1.0 <= c.verticalStretchLimit && 1.0 <= c.horizontalStretchLimit
    ensures var grid := Mesh(rings, c.startingAngle, c.segments, h);
      var springs := Springs(grid, |rings|, c.segments, h);
      Endpoints(springs, |grid|) &&
      Advance(grid, springs, c, h) == grid &&
      Step(grid, springs, c, rings, [], helperActive, h) == grid
  {
    var grid := Mesh(rings, c.startingAngle, c.segments, h);
    MeshRowsResting(rings, c.startingAngle, c.segments, h, |rings|);
    SpringsRelaxed(grid, |rings|, c.segments, h);
    MulMonotone(1, |rings|, c.segments);
    RestIsFixedPoint(grid, Springs(grid, |rings|, c.segments, h), c, h);
    RestIsFixedStep(grid, Springs(grid, |rings|, c.segments, h), c, rings, helperActive, h);
  }
}
