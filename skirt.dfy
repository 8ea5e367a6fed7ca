/** The SkirtPhysics component: its inspector fields, the vertex grid and
    spring array it builds in Start, and the per-step simulation. The engine
    services of one call come in as a Host. */
module Skirt {
  import opened Vectors
  import opened Engine
  import opened Grid
  import opened Dynamics
  import opened Collisions
  import opened Bones
  import opened Settings
  import opened Simulation

  class SkirtPhysics {
    // Inspector fields
    var rings: seq<Ring>
    var meshBones: seq<Bone>
    var colliders: seq<Collider>
    var segments: int
    var startingAngle: real
    var inertia: real
    var damping: real
    var shapeStiffness: real
    var elasticity: real
    var verticalStretchLimit: real
    var horizontalStretchLimit: real
    var collisionRadius: real

    // Built state: m_verts flattened row by row, m_springs, m_bones, and
    // whether the helper capsule object exists.
    var verts: array?<Vertex>
    var springs: array?<Spring>
    var bones: seq<Binding>
    var helperActive: bool

    /** The tunable fields as one value. */
    function Current(): Settings
      reads this
    {
      Settings(segments, startingAngle, inertia, damping, shapeStiffness, elasticity,
               verticalStretchLimit, horizontalStretchLimit, collisionRadius)
    }

    /** The grid has one row per ring and every spring joins two of its vertices. */
    ghost predicate Valid()
      reads this, springs
    {
      0 < segments && 1 <= |rings| &&
      (verts != null ==> verts.Length == |rings| * segments) &&
      (springs != null ==> verts != null && Endpoints(springs[..], verts.Length))
    }

    /** A fresh component with the declared defaults and nothing built. */
    constructor (rings: seq<Ring>, meshBones: seq<Bone>, colliders: seq<Collider>)
      ensures this.rings == rings && this.meshBones == meshBones && this.colliders == colliders
      ensures Current() == Defaults
      ensures verts == null && springs == null && bones == [] && !helperActive
    {
      this.rings, this.meshBones, this.colliders := rings, meshBones, colliders;
      segments, startingAngle, inertia, damping := 8, 22.5, 1.0, 0.1;
      shapeStiffness, elasticity, verticalStretchLimit, horizontalStretchLimit := 0.2, 0.1, 1.1, 2.0;
      collisionRadius := 0.15;
      verts, springs, bones, helperActive := null, null, [], false;
    }

    /** Builds the grid, the springs and the bone bindings, then creates the
        helper capsule. */
    method Start(h: Host)
      requires 2 <= segments && 1 <= |rings|
      modifies this`verts, this`springs, this`bones, this`helperActive
      ensures Valid() && verts != null && springs != null && fresh(verts) && fresh(springs)
      ensures segments <= verts.Length && verts[..] == Mesh(rings, startingAngle, segments, h)
      ensures springs[..] == Springs(verts[..], |rings|, segments, h)
      ensures bones == GeneratedBones(verts[..], meshBones, |rings|, segments, h)
      ensures helperActive
    {
      verts := GenerateSkirtMesh(h);
      ghost var grid := verts[..];
      MulMonotone(1, |rings|, segments);
      GenerateSprings(h);
      ghost var built := springs[..];
      assert verts[..] == grid;
      assert Endpoints(built, verts.Length) by {
        SpringsOnGrid(grid, |rings|, segments, h);
      }
      GenerateBones(h);
      ghost var bound := bones;
      assert bound == GeneratedBones(grid, meshBones, |rings|, segments, h);
      helperActive := true;
      assert verts[..] == grid && springs[..] == built && bones == bound;
    }

    /** The clamps of OnValidate. */
    method OnValidate()
      modifies this`segments, this`inertia, this`damping, this`shapeStiffness, this`elasticity,
               this`verticalStretchLimit, this`horizontalStretchLimit
      ensures Current() == Validated(old(Current()))
    {
      inertia := Clamp01(inertia);
      damping := Clamp01(damping);
      segments := MaxInt(segments, 4);
      shapeStiffness := MaxReal(shapeStiffness, 0.0);
      elasticity := Clamp01(elasticity);
      verticalStretchLimit := MaxReal(verticalStretchLimit, 1.0);
      horizontalStretchLimit := MaxReal(horizontalStretchLimit, 1.0);
    }

    // -------------------------------------------------------------------
    // Construction

    /** A new grid, vertex [r, s] at index r * segments + s, each at its
        ring's ellipse point for its segment, at rest. */
    method GenerateSkirtMesh(h: Host) returns (result: array<Vertex>)
      requires 0 < segments
      ensures fresh(result) && result[..] == Mesh(rings, startingAngle, segments, h)
    {
      MulNonNegative(|rings|, segments);
      result := new Vertex[|rings| * segments];
      var ringNum := 0;
      while ringNum < |rings|
        invariant 0 <= ringNum <= |rings|
        invariant ringNum * segments <= result.Length
        invariant result[..ringNum * segments] == MeshRows(rings, startingAngle, segments, h, ringNum)
      {
        MulMonotone(ringNum + 1, |rings|, segments);
        assert ringNum * segments + segments == (ringNum + 1) * segments;
        GenerateRing(result, ringNum, h);
        ringNum := ringNum + 1;
      }
    }

    /** The inner loop of GenerateSkirtMesh: the vertices of ring ringNum are
        written after those of the rings above it. */
    method GenerateRing(result: array<Vertex>, ringNum: int, h: Host)
      requires 0 < segments && 0 <= ringNum < |rings|
      requires ringNum * segments + segments <= result.Length
      modifies result
      ensures result[..ringNum * segments + segments] ==
        old(result[..ringNum * segments]) + MeshRow(rings[ringNum], startingAngle, segments, h)
    {
      ghost var row := MeshRow(rings[ringNum], startingAngle, segments, h);
      ghost var above := result[..ringNum * segments];
      var i := 0;
      while i < segments
        invariant 0 <= i <= segments
        invariant result[..ringNum * segments + i] == above + row[..i]
      {
        var angle := Deg2Rad * (startingAngle + (i * 360 / segments) as real);
        var radialOffset := Vec3(h.cos(angle) * rings[ringNum].radiusX, 0.0, h.sin(angle) * rings[ringNum].radiusZ);
        var localPosition := Add(rings[ringNum].offset, radialOffset);
        var k := Idx(ringNum, i, segments);
        assert angle == SegmentAngle(startingAngle, i, segments);
        assert localPosition == RestLocalPosition(rings[ringNum], angle, h);
        assert row[i] == RestVertex(rings[ringNum], startingAngle, i, segments, h);
        result[k] := Vertex(localPosition, h.transformPoint(localPosition), Zero, Zero);
        assert row[..i + 1] == row[..i] + [row[i]];
        assert result[..k + 1] == result[..k] + [result[k]];
        i := i + 1;
      }
      assert row[..segments] == row;
    }

    /** The spring array over the current grid: for each vertex [r, s] below
        ring 0 a vertical spring from [r - 1, s] and a horizontal one to
        [r, (s + 1) % segments], with rest vectors and lengths taken now. */
    method GenerateSprings(h: Host)
      requires verts != null && 0 < segments && 1 <= |rings| && verts.Length == |rings| * segments
      modifies this`springs
      ensures springs != null && fresh(springs)
      ensures springs[..] == Springs(verts[..], |rings|, segments, h)
    {
      MulNonNegative(|rings| - 1, segments);
      var result := new Spring[(|rings| - 1) * segments * 2];
      WriteRawSprings(result, verts[..]);
      MeasureSprings(result, h);
      springs := result;
    }

    /** The first loop of GenerateSprings: ring by ring below ring 0, the
        vertical and horizontal spring of every vertex, rest lengths unset. */
    method WriteRawSprings(result: array<Spring>, vs: seq<Vertex>)
      requires verts != null && vs == verts[..] && 0 < segments && 1 <= |rings| && verts.Length == |rings| * segments
      requires result.Length == SpringCount(|rings|, segments)
      modifies result
      ensures result[..] == RawSprings(vs, |rings|, segments, |rings|)
    {
      var springIdx := 0;
      var r := 1;
      while r < |rings|
        invariant 1 <= r <= |rings|
        invariant 0 <= springIdx <= result.Length
        invariant result[..springIdx] == RawSprings(vs, |rings|, segments, r)
      {
        RawSpringsFit(vs, |rings|, segments, r);
        springIdx := GenerateRingSprings(result, vs, r, springIdx);
        r := r + 1;
      }
      RawSpringsFill(vs, |rings|, segments);
      assert result[..] == result[..springIdx];
    }

    /** The last loop of GenerateSprings: each rest length becomes the
        magnitude of its rest vector. */
    static method MeasureSprings(result: array<Spring>, h: Host)
      modifies result
      ensures result[..] == Measured(old(result[..]), h)
    {
      for j := 0 to result.Length
        invariant forall q :: 0 <= q < j ==> result[q] == Measured(old(result[..]), h)[q]
        invariant forall q :: j <= q < result.Length ==> result[q] == old(result[q])
      {
        result[j] := result[j].(restLength := Magnitude(h, result[j].rest));
      }
    }

    /** The inner loop of GenerateSprings over ring r: the vertical and the
        horizontal spring of each of its vertices are written from springIdx on. */
    method GenerateRingSprings(result: array<Spring>, vs: seq<Vertex>, r: int, springIdx: int) returns (next: int)
      requires verts != null && vs == verts[..] && 0 < segments && verts.Length == |rings| * segments
      requires 1 <= r < |rings| && 0 <= springIdx && springIdx + 2 * segments <= result.Length
      modifies result
      ensures next == springIdx + 2 * segments
      ensures result[..next] == old(result[..springIdx]) + RingSprings(vs, |rings|, segments, r, segments)
    {
      ghost var before := result[..springIdx];
      next := springIdx;
      var s := 0;
      while s < segments
        invariant 0 <= s <= segments && next == springIdx + 2 * s
        invariant result[..next] == before + RingSprings(vs, |rings|, segments, r, s)
      {
        WriteSegmentSprings(result, vs, r, s, next);
        next := next + 2;
        s := s + 1;
      }
    }

    /** The body of that loop for vertex [r, s]: its vertical spring to
        [r - 1, s], then its horizontal spring to [r, (s + 1) % segments]. */
    method WriteSegmentSprings(result: array<Spring>, vs: seq<Vertex>, r: int, s: int, at: int)
      requires verts != null && vs == verts[..] && verts.Length == |rings| * segments
      requires 1 <= r < |rings| && 0 <= s < segments && 0 <= at && at + 2 <= result.Length
      modifies result
      ensures result[..at + 2] ==
        old(result[..at]) + [VerticalSpring(vs, |rings|, segments, r, s), HorizontalSpring(vs, |rings|, segments, r, s)]
    {
      IdxInGrid(r - 1, s, |rings|, segments);
      IdxInGrid(r, s, |rings|, segments);
      IdxInGrid(r, (s + 1) % segments, |rings|, segments);
      var here := Idx(r, s, segments);
      var vNeighbor := Idx(r - 1, s, segments);
      result[at] := Spring(true, r == 1, Sub(verts[here].position, verts[vNeighbor].position), 0.0, vNeighbor, here);
      var hNeighbor := Idx(r, (s + 1) % segments, segments);
      result[at + 1] := Spring(false, false, Sub(verts[hNeighbor].position, verts[here].position), 0.0, here, hNeighbor);
    }

    /** The ring-0 segment whose midpoint is nearest to p, scanning from
        segment 0 and moving only to a strictly nearer one, with its successor. */
    method ChooseSegment(p: Vec3) returns (s0: int, s1: int)
      requires verts != null && 2 <= segments <= verts.Length
      ensures s0 == Nearest(verts[..], p, segments, segments) && s1 == (s0 + 1) % segments
    {
      NextSegment(0, segments);
      ghost var vs := verts[..];
      s0, s1 := 0, 1;
      var s := 1;
      while s < segments
        invariant 1 <= s <= segments
        invariant 0 <= s0 < s && s1 == (s0 + 1) % segments
        invariant s0 == Nearest(vs, p, segments, s)
      {
        var sNext := (s + 1) % segments;
        var segmentCenter := Midpoint(verts[s].position, verts[sNext].position);
        var bestSegmentCenter := Midpoint(verts[s0].position, verts[s1].position);
        NearestStep(vs, p, segments, s);
        assert segmentCenter == SegmentCenter(vs, s, segments);
        assert bestSegmentCenter == SegmentCenter(vs, s0, segments);
        if SqrMagnitude(Sub(p, segmentCenter)) < SqrMagnitude(Sub(p, bestSegmentCenter)) {
          s0, s1 := s, sNext;
        }
        s := s + 1;
      }
    }

    /** One binding per ring pair for each mesh bone and its chain of first
        children, below the ring-0 segment nearest to the mesh bone; each
        then records the bone's offset from its quad. */
    method GenerateBones(h: Host)
      requires verts != null && 2 <= segments <= verts.Length && verts.Length == |rings| * segments
      modifies this`bones
      ensures bones == GeneratedBones(verts[..], meshBones, |rings|, segments, h)
    {
      BindMeshBones(h);
      AllBindingsOnGrid(verts[..], meshBones, |rings|, segments, h, |meshBones|);
      RecordOffsets(h);
    }

    /** The first loop of GenerateBones: each mesh bone in turn is bound
        with its chain below its nearest segment. */
    method BindMeshBones(h: Host)
      requires verts != null && 2 <= segments <= verts.Length && verts.Length == |rings| * segments
      modifies this`bones
      ensures bones == AllBindings(verts[..], meshBones, |rings|, segments, h, |meshBones|)
    {
      ghost var vs := verts[..];
      bones := [];
      for m := 0 to |meshBones|
        invariant verts[..] == vs
        invariant bones == AllBindings(vs, meshBones, |rings|, segments, h, m)
      {
        var s0, s1 := ChooseSegment(h.bonePosition(meshBones[m]));
        AllBindingsStep(vs, meshBones, |rings|, segments, h, m, s0);
        BindChain(meshBones[m], s0, s1, h);
      }
    }

    /** The chain walk of GenerateBones for one mesh bone: it and its first
        children are bound one per ring pair below segments s0 and s1, until
        the rings run out or a bone has no usable child. */
    method BindChain(meshBone: Bone, s0: int, s1: int, h: Host)
      requires 0 <= s0 < segments && 0 <= s1 < segments
      modifies this`bones
      ensures bones == old(bones) + Chain(meshBone, 0, |rings|, s0, s1, segments, h)
    {
      var boneTransform := meshBone;
      var r := 0;
      while r < |rings| - 1
        invariant 0 <= r
        invariant bones + Chain(boneTransform, r, |rings|, s0, s1, segments, h) ==
                  old(bones) + Chain(meshBone, 0, |rings|, s0, s1, segments, h)
        decreases |rings| - 1 - r
      {
        ghost var rest := Chain(boneTransform, r, |rings|, s0, s1, segments, h);
        var b := Binding(boneTransform, QuadAt(r, s0, s1, segments), Zero);
        bones := bones + [b];
        if h.childCount(boneTransform) == 0 {
          break;
        }
        var next := h.firstChild(boneTransform);
        if next.None? {
          break;
        }
        assert rest == [b] + Chain(next.value, r + 1, |rings|, s0, s1, segments, h);
        boneTransform := next.value;
        r := r + 1;
      }
    }

    /** The offset loop of GenerateBones: each binding records its bone's
        offset from the top edge of its quad. */
    method RecordOffsets(h: Host)
      requires verts != null && forall i :: 0 <= i < |bones| ==> QuadIn(bones[i].anchors, verts.Length)
      modifies this`bones
      ensures bones == Calibrated(old(bones), verts[..], h)
    {
      var i := 0;
      while i < |bones|
        invariant 0 <= i <= |bones| == |old(bones)|
        invariant forall q :: 0 <= q < i ==> bones[q] == Calibrated(old(bones), verts[..], h)[q]
        invariant forall q :: i <= q < |bones| ==> bones[q] == old(bones)[q]
      {
        var b := bones[i];
        var position := Midpoint(verts[b.anchors.a00].position, verts[b.anchors.a01].position);
        bones := bones[i := b.(offset := Sub(h.bonePosition(b.bone), position))];
        i := i + 1;
      }
    }

    // -------------------------------------------------------------------
    // The physics step

    /** One step: the phases of Step, in the component's own arrays. Nothing
        happens until the grid and the springs exist. */
    method FixedUpdate(h: Host)
      requires Valid()
      modifies verts
      ensures Valid()
      ensures verts != null && springs != null ==>
        verts[..] == Step(old(verts[..]), springs[..], Current(), rings, colliders, helperActive, h)
      ensures verts != null && springs == null ==> verts[..] == old(verts[..])
    {
      if verts == null || springs == null {
        return;
      }
      ghost var c := Current();
      Advance(h);
      HandleCollisions(h);
      assert Current() == c;
    }

    /** The integrator phases of one step, in the component's own arrays. */
    method Advance(h: Host)
      requires Valid() && verts != null && springs != null
      modifies verts
      ensures verts[..] == Simulation.Advance(old(verts[..]), springs[..], Current(), h)
    {
      AccumulateForces(h);
      Integrate();
      ApplyStretchLimits(h);
    }

    /** Drives ring 0, then accumulates shape and spring forces. */
    method AccumulateForces(h: Host)
      requires Valid() && verts != null && springs != null
      modifies verts
      ensures verts[..] == Forces(old(verts[..]), springs[..], Current(), h)
    {
      MulMonotone(1, |rings|, segments);
      DriveRootRing(h);
      AccumulateShapeForces(h);
      AccumulateSpringForces();
    }

    /** Ring 0 is placed at the root transform of its rest positions. */
    method DriveRootRing(h: Host)
      requires verts != null && 0 < segments && 1 <= |rings| && verts.Length == |rings| * segments
      modifies verts
      ensures segments <= old(verts.Length) && verts[..] == Driven(old(verts[..]), segments, h)
    {
      MulMonotone(1, |rings|, segments);
      var s := 0;
      while s < segments
        invariant 0 <= s <= segments
        invariant forall i :: 0 <= i < verts.Length ==>
          verts[i] == if i < s then Driven(old(verts[..]), segments, h)[i] else old(verts[i])
      {
        verts[s] := verts[s].(position := h.transformPoint(verts[s].startLocalPosition));
        s := s + 1;
      }
      assert verts[..] == Driven(old(verts[..]), segments, h);
    }

    /** Every force is reset to the pull toward the vertex's rest pose. */
    method AccumulateShapeForces(h: Host)
      requires verts != null
      modifies verts
      ensures verts[..] == ShapeForces(old(verts[..]), shapeStiffness, h)
    {
      for i := 0 to verts.Length
        invariant forall q :: 0 <= q < verts.Length ==>
          verts[q] == if q < i then ShapeForces(old(verts[..]), shapeStiffness, h)[q] else old(verts[q])
      {
        var desiredPosition := h.transformPoint(verts[i].startLocalPosition);
        verts[i] := verts[i].(force := Scale(Sub(desiredPosition, verts[i].position), shapeStiffness));
      }
      assert verts[..] == ShapeForces(old(verts[..]), shapeStiffness, h);
    }

    /** Every spring adds F to its first endpoint unless anchor-static and
        subtracts it from its second, in array order. */
    method AccumulateSpringForces()
      requires verts != null && springs != null && Endpoints(springs[..], verts.Length)
      modifies verts
      ensures verts[..] == SpringForces(old(verts[..]), springs[..], elasticity * 0.25, springs.Length)
    {
      ghost var start := verts[..];
      ghost var sps := springs[..];
      var k := elasticity * 0.25;
      var j := 0;
      while j < springs.Length
        invariant 0 <= j <= springs.Length && springs[..] == sps
        invariant verts[..] == SpringForces(start, sps, k, j)
      {
        ghost var before := verts[..];
        AddSpringForce(springs[j], k);
        ghost var after := verts[..];
        assert after == ApplySpringForce(before, sps[j], k);
        j := j + 1;
      }
    }

    /** The body of that loop for one spring. */
    method AddSpringForce(spring: Spring, k: real)
      requires verts != null && 0 <= spring.v1 < verts.Length && 0 <= spring.v2 < verts.Length
      modifies verts
      ensures verts[..] == ApplySpringForce(old(verts[..]), spring, k)
    {
      var springForce := Scale(Sub(Sub(verts[spring.v2].position, verts[spring.v1].position), spring.rest), k);
      if !spring.isV1Static {
        verts[spring.v1] := verts[spring.v1].(force := Add(verts[spring.v1].force, springForce));
      }
      verts[spring.v2] := verts[spring.v2].(force := Sub(verts[spring.v2].force, springForce));
    }

    /** Damped velocity update, then every vertex moves by its velocity. */
    method Integrate()
      requires verts != null
      modifies verts
      ensures verts[..] == Integrated(old(verts[..]), damping, inertia)
    {
      for i := 0 to verts.Length
        invariant forall q :: 0 <= q < verts.Length ==>
          verts[q] == if q < i then Integrated(old(verts[..]), damping, inertia)[q] else old(verts[q])
      {
        var v := verts[i];
        var velocity := Add(Scale(v.velocity, 1.0 - damping), Scale(v.force, inertia));
        verts[i] := v.(velocity := velocity, position := Add(v.position, velocity));
      }
      assert verts[..] == Integrated(old(verts[..]), damping, inertia);
    }

    /** One pass of stretch-limit corrections in spring order. */
    method ApplyStretchLimits(h: Host)
      requires verts != null && springs != null && Endpoints(springs[..], verts.Length)
      modifies verts
      ensures verts[..] == StretchLimits(old(verts[..]), springs[..], verticalStretchLimit, horizontalStretchLimit, h, springs.Length)
    {
      ghost var start := verts[..];
      ghost var sps := springs[..];
      var j := 0;
      while j < springs.Length
        invariant 0 <= j <= springs.Length && springs[..] == sps
        invariant verts[..] == StretchLimits(start, sps, verticalStretchLimit, horizontalStretchLimit, h, j)
      {
        LimitStretch(springs[j], h);
        j := j + 1;
      }
    }

    /** The body of that loop for one spring: past its limit, the endpoints
        are pulled together by the excess. */
    method LimitStretch(spring: Spring, h: Host)
      requires verts != null && 0 <= spring.v1 < verts.Length && 0 <= spring.v2 < verts.Length
      modifies verts
      ensures verts[..] == ApplyStretch(old(verts[..]), spring, verticalStretchLimit, horizontalStretchLimit, h)
    {
      ghost var vs := verts[..];
      var d := Sub(verts[spring.v2].position, verts[spring.v1].position);
      var lenSqr := SqrMagnitude(d);
      var maxLen := spring.restLength * (if spring.vertical then verticalStretchLimit else horizontalStretchLimit);
      assert maxLen == MaxLength(spring, verticalStretchLimit, horizontalStretchLimit);
      if lenSqr > maxLen * maxLen {
        var len := Sqrt(h, lenSqr);
        var shortenDir := Normalized(h, d);
        var v1Delta := Scale(Scale(shortenDir, len - maxLen), 0.5);
        var v2Delta := Neg(v1Delta);
        if spring.isV1Static {
          v1Delta := Zero;
          v2Delta := Scale(Neg(shortenDir), len - maxLen);
        }
        ghost var a := vs[spring.v1 := Nudge(vs[spring.v1], v1Delta)];
        assert ApplyStretch(vs, spring, verticalStretchLimit, horizontalStretchLimit, h) == a[spring.v2 := Nudge(a[spring.v2], v2Delta)];
        verts[spring.v1] := Nudge(verts[spring.v1], v1Delta);
        assert verts[..] == a;
        verts[spring.v2] := Nudge(verts[spring.v2], v2Delta);
      }
    }

    /** Every edge [r, s] - [r, (s + 1) % segments] on rings 1 and up, in
        order, is wrapped in the helper capsule and pushed out of each
        collider the oracle reports it penetrating. Does nothing without the
        helper capsule. */
    method HandleCollisions(h: Host)
      requires verts != null && 0 < segments && 1 <= |rings| && verts.Length == |rings| * segments
      modifies verts
      ensures verts[..] == if helperActive
        then Collide(old(verts[..]), rings, segments, colliders, collisionRadius, h, |rings|)
        else old(verts[..])
    {
      if helperActive {
        PushRingsOut(h);
      }
    }

    /** The loop of HandleCollisions: rings 1 .. |rings| - 1 in order. */
    method PushRingsOut(h: Host)
      requires verts != null && 0 < segments && 1 <= |rings| && verts.Length == |rings| * segments
      modifies verts
      ensures verts[..] == Collide(old(verts[..]), rings, segments, colliders, collisionRadius, h, |rings|)
    {
      ghost var start := verts[..];
      var r := 1;
      while r < |rings|
        invariant 1 <= r <= |rings|
        invariant verts[..] == Collide(start, rings, segments, colliders, collisionRadius, h, r)
      {
        PushRingOut(r, h);
        CollideStep(start, rings, segments, colliders, collisionRadius, h, r);
        r := r + 1;
      }
    }

    /** The inner loop of HandleCollisions: the edges of ring r in order. */
    method PushRingOut(r: int, h: Host)
      requires verts != null && 0 < segments && verts.Length == |rings| * segments && 1 <= r < |rings|
      modifies verts
      ensures verts[..] == CollideRing(old(verts[..]), rings, segments, colliders, collisionRadius, h, r, segments)
    {
      ghost var start := verts[..];
      var s := 0;
      while s < segments
        invariant 0 <= s <= segments
        invariant verts[..] == CollideRing(start, rings, segments, colliders, collisionRadius, h, r, s)
      {
        ghost var before := verts[..];
        PushEdgeOut(r, s, h);
        ghost var after := verts[..];
        assert after == CollideEdge(before, rings, segments, colliders, collisionRadius, h, r, s);
        CollideRingStep(start, rings, segments, colliders, collisionRadius, h, r, s);
        s := s + 1;
      }
    }

    /** The body of those loops for edge [r, s] - [r, (s + 1) % segments]:
        the edge is relaxed against each collider in turn. */
    method PushEdgeOut(r: int, s: int, h: Host)
      requires verts != null && 0 < segments && verts.Length == |rings| * segments
      requires 1 <= r < |rings| && 0 <= s < segments
      modifies verts
      ensures verts[..] == CollideEdge(old(verts[..]), rings, segments, colliders, collisionRadius, h, r, s)
    {
      IdxInGrid(r, s, |rings|, segments);
      IdxInGrid(r, (s + 1) % segments, |rings|, segments);
      var left := Idx(r, s, segments);
      var right := Idx(r, (s + 1) % segments, segments);
      var height := Magnitude(h, Sub(verts[left].position, verts[right].position)) + collisionRadius * 2.0;
      var capsulePos := Midpoint(verts[left].position, verts[right].position);
      var forwardDir := Sub(verts[left].position, capsulePos);
      var rightDir := Normalized(h, Sub(capsulePos, h.transformPoint(rings[r].offset)));
      var up := Cross(rightDir, forwardDir);
      capsulePos := Add(capsulePos, Scale(rightDir, collisionRadius));
      var cap := Capsule(capsulePos, forwardDir, up, collisionRadius, height);
      assert cap == EdgeCapsule(verts[..], left, right, rings[r].offset, collisionRadius, h);
      RelaxEdgeOut(left, right, cap, h);
    }

    /** The collider loop for one edge: the helper capsule starts at cap and
        each reported penetration moves it and both edge vertices. */
    method RelaxEdgeOut(left: int, right: int, cap: Capsule, h: Host)
      requires verts != null && 0 <= left < verts.Length && 0 <= right < verts.Length
      modifies verts
      ensures verts[..] == RelaxEdge(old(verts[..]), cap, left, right, colliders, h, |colliders|).verts
    {
      ghost var start := verts[..];
      var capsulePos := cap.center;
      var colliderIdx := 0;
      while colliderIdx < |colliders|
        invariant 0 <= colliderIdx <= |colliders|
        invariant EdgeState(verts[..], cap.(center := capsulePos)) == RelaxEdge(start, cap, left, right, colliders, h, colliderIdx)
      {
        var p := h.computePenetration(cap.(center := capsulePos), colliders[colliderIdx]);
        if p.collided {
          var velocity := Scale(p.direction, p.distance);
          capsulePos := Add(capsulePos, velocity);
          verts[left] := Nudge(verts[left], velocity);
          verts[right] := Nudge(verts[right], velocity);
        }
        colliderIdx := colliderIdx + 1;
      }
    }
  }
}
