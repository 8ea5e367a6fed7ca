/** The ring x segment vertex grid and the spring network over it
    (GenerateSkirtMesh and GenerateSprings). Vertices live in one flat
    sequence, vertex [r, s] at index r * segments + s; springs name their
    endpoints by index. */
module Grid {
  import opened Vectors
  import opened Engine

  /** One configured cross-section (SkirtRing). */
  datatype Ring = Ring(radiusX: real, radiusZ: real, offset: Vec3)

  /** SkirtVertex. */
  datatype Vertex = Vertex(startLocalPosition: Vec3, position: Vec3, force: Vec3, velocity: Vec3)

  /** VertexSpring, with endpoint indices instead of references. */
  datatype Spring = Spring(vertical: bool, isV1Static: bool, rest: Vec3, restLength: real, v1: int, v2: int)

  /** Flat index of vertex [r, s]. */
  function Idx(r: int, s: int, segments: int): int { r * segments + s }

  /** The flat index determines ring and segment. */
  lemma {:induction false} IdxSplit(r: int, s: int, segments: int)
    requires 0 <= r && 0 <= s < segments
    ensures Idx(r, s, segments) / segments == r
    ensures Idx(r, s, segments) % segments == s
  {
    var k := Idx(r, s, segments);
    var q, m := k / segments, k % segments;
    assert k == q * segments + m && 0 <= m < segments;
    assert (r - q) * segments == m - s;
    MultipleInOpenInterval(r - q, segments);
  }

  /** A multiple of n strictly between -n and n is zero. */
  lemma {:induction false} MultipleInOpenInterval(d: int, n: int)
    requires 0 < n && -n < d * n < n
    ensures d == 0
  {
    MulMonotone(1, d, n);
    MulMonotone(d, -1, n);
  }

  lemma {:induction false} MulMonotone(a: int, b: int, n: int)
    requires 0 < n
    ensures a <= b ==> a * n <= b * n
  {
    if a <= b {
      assert b * n - a * n == (b - a) * n;
      MulNonNegative(b - a, n);
    }
  }

  lemma {:induction false} MulNonNegative(a: int, b: int)
    requires 0 <= a && 0 <= b
    ensures 0 <= a * b
  {
  }

  lemma {:induction false} IdxInGrid(r: int, s: int, rows: int, segments: int)
    requires 0 <= r < rows && 0 <= s < segments
    ensures 0 <= Idx(r, s, segments) < rows * segments
    ensures segments <= Idx(r, s, segments) <==> 1 <= r
  {
    MulMonotone(0, r, segments);
    MulMonotone(r + 1, rows, segments);
    MulMonotone(1, r, segments);
    assert (r + 1) * segments == r * segments + segments;
  }

  lemma {:induction false} NextSegment(m: int, segments: int)
    requires 0 <= m < segments
    ensures (m + 1) % segments == if m + 1 < segments then m + 1 else 0
  {
    if m + 1 < segments {
      IdxSplit(0, m + 1, segments);
    } else {
      IdxSplit(1, 0, segments);
    }
  }

  // ---------------------------------------------------------------------
  // GenerateSkirtMesh

  /** Mathf.Deg2Rad, Unity's single-precision value of pi / 180. */
  const Deg2Rad: real := 0.0174532924

  /** The whole-degree offset of segment i: C#'s integer division of i * 360
      by the segment count, taken before it is added to the starting angle. */
  function AngleStep(i: int, segments: int): int
    requires 0 <= i && 0 < segments
  {
    i * 360 / segments
  }

  /** Segment i's angle in radians. */
  function SegmentAngle(startingAngle: real, i: int, segments: int): real
    requires 0 <= i && 0 < segments
  {
    Deg2Rad * (startingAngle + AngleStep(i, segments) as real)
  }

  /** A vertex's local rest position: the ring's offset plus the point at the
      given angle on the ring's ellipse. */
  function RestLocalPosition(ring: Ring, angle: real, h: Host): Vec3 {
    Add(ring.offset, Vec3(h.cos(angle) * ring.radiusX, 0.0, h.sin(angle) * ring.radiusZ))
  }

  /** The vertex generated for segment s of a ring: at its ellipse point,
      placed by the root transform, with no force and no velocity. */
  function RestVertex(ring: Ring, startingAngle: real, s: int, segments: int, h: Host): (v: Vertex)
    requires 0 <= s && 0 < segments
    ensures v.position == h.transformPoint(v.startLocalPosition)
    ensures v.force == Zero && v.velocity == Zero
  {
    var local := RestLocalPosition(ring, SegmentAngle(startingAngle, s, segments), h);
    Vertex(local, h.transformPoint(local), Zero, Zero)
  }

  /** One ring's vertices, segment by segment. */
  function MeshRow(ring: Ring, startingAngle: real, segments: int, h: Host): (row: seq<Vertex>)
    requires 0 < segments
    ensures |row| == segments
  {
    seq(segments, s requires 0 <= s < segments => RestVertex(ring, startingAngle, s, segments, h))
  }

  /** The rows of the first n rings, one after the other. */
  function MeshRows(rings: seq<Ring>, startingAngle: real, segments: int, h: Host, n: int): seq<Vertex>
    requires 0 < segments && 0 <= n <= |rings|
    decreases n
  {
    if n == 0 then []
    else MeshRows(rings, startingAngle, segments, h, n - 1) + MeshRow(rings[n - 1], startingAngle, segments, h)
  }

  /** One row of segments vertices per ring. */
  lemma {:induction false} MeshRowsLength(rings: seq<Ring>, startingAngle: real, segments: int, h: Host, n: int)
    requires 0 < segments && 0 <= n <= |rings|
    ensures |MeshRows(rings, startingAngle, segments, h, n)| == n * segments
    decreases n
  {
    if n > 0 {
      MeshRowsLength(rings, startingAngle, segments, h, n - 1);
      assert (n - 1) * segments + segments == n * segments;
    }
  }

  /** The whole grid GenerateSkirtMesh returns, flattened row by row. */
  function Mesh(rings: seq<Ring>, startingAngle: real, segments: int, h: Host): (vs: seq<Vertex>)
    requires 0 < segments
    ensures |vs| == |rings| * segments
  {
    MeshRowsLength(rings, startingAngle, segments, h, |rings|);
    MeshRows(rings, startingAngle, segments, h, |rings|)
  }

  /** Adding rows leaves the earlier ones as they were. */
  lemma {:induction false} MeshRowsGrow(rings: seq<Ring>, startingAngle: real, segments: int, h: Host, m: int, n: int, k: int)
    requires 0 < segments && 0 <= m <= n <= |rings| && 0 <= k < |MeshRows(rings, startingAngle, segments, h, m)|
    ensures k < |MeshRows(rings, startingAngle, segments, h, n)|
    ensures MeshRows(rings, startingAngle, segments, h, n)[k] == MeshRows(rings, startingAngle, segments, h, m)[k]
    decreases n
  {
    if m < n {
      MeshRowsGrow(rings, startingAngle, segments, h, m, n - 1, k);
    }
  }

  /** Vertex [r, s] of a generated grid sits at its ring's ellipse point for
      segment s, at rest: its position is the root transform of that local
      point, and it has no force and no velocity. */
  lemma {:induction false} MeshAt(rings: seq<Ring>, startingAngle: real, segments: int, h: Host, r: int, s: int)
    requires 0 < segments && 0 <= r < |rings| && 0 <= s < segments
    ensures var local := RestLocalPosition(rings[r], SegmentAngle(startingAngle, s, segments), h);
      0 <= Idx(r, s, segments) < |Mesh(rings, startingAngle, segments, h)| &&
      Mesh(rings, startingAngle, segments, h)[Idx(r, s, segments)] == Vertex(local, h.transformPoint(local), Zero, Zero)
  {
    IdxInGrid(r, s, r + 1, segments);
    MeshRowsLength(rings, startingAngle, segments, h, r);
    var upTo := MeshRows(rings, startingAngle, segments, h, r + 1);
    assert upTo[Idx(r, s, segments)] == MeshRow(rings[r], startingAngle, segments, h)[s];
    MeshRowsGrow(rings, startingAngle, segments, h, r + 1, |rings|, Idx(r, s, segments));
  }

  /** The angle step truncates: segment i's degree offset is the largest
      whole number of degrees not above i * 360 / segments, and it is the
      exact multiple i * (360 / segments) whenever segments divides 360. */
  lemma {:induction false} AngleStepTruncates(i: int, segments: int)
    requires 0 <= i && 0 < segments
    ensures AngleStep(i, segments) * segments <= i * 360 < (AngleStep(i, segments) + 1) * segments
    ensures 360 % segments == 0 ==> AngleStep(i, segments) == i * (360 / segments)
  {
    var q := AngleStep(i, segments);
    assert i * 360 == q * segments + (i * 360) % segments;
    assert (q + 1) * segments == q * segments + segments;
    if 360 % segments == 0 {
      var step := 360 / segments;
      assert 360 == step * segments;
      assert i * 360 == (i * step) * segments;
      MulNonNegative(i, step);
      IdxSplit(i * step, 0, segments);
    }
  }

  /** How the truncated step differs from i whole steps of 360 / segments
      degrees: it runs ahead by the i remainders 360 % segments, themselves
      divided by segments and truncated. */
  lemma {:induction false} AngleStepDrift(i: int, segments: int)
    requires 0 <= i && 0 < segments
    ensures AngleStep(i, segments) == i * (360 / segments) + i * (360 % segments) / segments
  {
    var step, rem := 360 / segments, 360 % segments;
    MulNonNegative(i, step);
    MulNonNegative(i, rem);
    var b := i * rem;
    var q, m := b / segments, b % segments;
    assert b == q * segments + m && 0 <= m < segments && 0 <= q;
    assert i * 360 == (i * step) * segments + b by {
      assert 360 == step * segments + rem;
      DistributeSteps(i, step, segments, rem);
    }
    assert i * 360 == Idx(i * step + q, m, segments) by {
      assert (i * step + q) * segments == (i * step) * segments + q * segments;
    }
    IdxSplit(i * step + q, m, segments);
  }

  /** i * 360 multiplied out, with 360 = step * segments + rem. */
  lemma {:induction false} DistributeSteps(i: int, step: int, segments: int, rem: int)
    ensures i * (step * segments + rem) == (i * step) * segments + i * rem
  {
  }

  // ---------------------------------------------------------------------
  // GenerateSprings

  /** The vertical spring of vertex [r, s] (r >= 1): from the vertex above
      it on ring r - 1, anchor-static exactly when that vertex is on ring 0,
      with the current offset between the two as its rest vector. Its rest
      length is filled in by a later pass. */
  function VerticalSpring(vs: seq<Vertex>, rows: int, segments: int, r: int, s: int): (sp: Spring)
    requires |vs| == rows * segments && 1 <= r < rows && 0 <= s < segments
    ensures 0 <= sp.v1 < |vs| && 0 <= sp.v2 < |vs| && sp.v2 == sp.v1 + segments
    ensures sp.vertical && (sp.isV1Static <==> sp.v1 < segments)
    ensures sp.rest == Sub(vs[sp.v2].position, vs[sp.v1].position)
  {
    IdxInGrid(r - 1, s, rows, segments);
    IdxInGrid(r, s, rows, segments);
    var up, here := Idx(r - 1, s, segments), Idx(r, s, segments);
    Spring(true, r == 1, Sub(vs[here].position, vs[up].position), 0.0, up, here)
  }

  /** The horizontal spring of vertex [r, s]: to its neighbour
      [r, (s + 1) % segments] on the same ring, never anchor-static. */
  function HorizontalSpring(vs: seq<Vertex>, rows: int, segments: int, r: int, s: int): (sp: Spring)
    requires |vs| == rows * segments && 1 <= r < rows && 0 <= s < segments
    ensures 0 <= sp.v1 < |vs| && 0 <= sp.v2 < |vs|
    ensures 0 <= sp.v1 - r * segments < segments && 0 <= sp.v2 - r * segments < segments
    ensures sp.v1 != sp.v2 || segments == 1
    ensures !sp.vertical && !sp.isV1Static
    ensures sp.rest == Sub(vs[sp.v2].position, vs[sp.v1].position)
  {
    NextSegment(s, segments);
    var t := (s + 1) % segments;
    assert t == if s + 1 < segments then s + 1 else 0;
    IdxInGrid(r, s, rows, segments);
    IdxInGrid(r, t, rows, segments);
    var here, next := Idx(r, s, segments), Idx(r, t, segments);
    Spring(false, false, Sub(vs[next].position, vs[here].position), 0.0, here, next)
  }

  /** The springs of the first n segments of ring r, vertical then
      horizontal for each. */
  function RingSprings(vs: seq<Vertex>, rows: int, segments: int, r: int, n: int): (sps: seq<Spring>)
    requires |vs| == rows * segments && 1 <= r < rows && 0 <= n <= segments
    ensures |sps| == 2 * n
    decreases n
  {
    if n == 0 then [] else
      RingSprings(vs, rows, segments, r, n - 1) +
      [VerticalSpring(vs, rows, segments, r, n - 1), HorizontalSpring(vs, rows, segments, r, n - 1)]
  }

  /** The springs of rings 1 .. n - 1 as the first pass of GenerateSprings
      writes them, rest lengths still unset. */
  function RawSprings(vs: seq<Vertex>, rows: int, segments: int, n: int): seq<Spring>
    requires 0 < segments && |vs| == rows * segments && 1 <= n <= rows
    decreases n
  {
    if n == 1 then []
    else RawSprings(vs, rows, segments, n - 1) + RingSprings(vs, rows, segments, n - 1, segments)
  }

  /** Two springs per vertex below ring 0. */
  lemma {:induction false} RawSpringsLength(vs: seq<Vertex>, rows: int, segments: int, n: int)
    requires 0 < segments && |vs| == rows * segments && 1 <= n <= rows
    ensures |RawSprings(vs, rows, segments, n)| == 2 * ((n - 1) * segments)
    decreases n
  {
    if n > 1 {
      RawSpringsLength(vs, rows, segments, n - 1);
      assert (n - 2) * segments + segments == (n - 1) * segments;
    }
  }

  /** The second pass: each spring's rest length is its rest vector's magnitude. */
  function Measured(sps: seq<Spring>, h: Host): (r: seq<Spring>)
    ensures |r| == |sps|
  {
    seq(|sps|, i requires 0 <= i < |sps| => sps[i].(restLength := Magnitude(h, sps[i].rest)))
  }

  function SpringCount(rows: int, segments: int): int { (rows - 1) * segments * 2 }

  /** Ring r's 2 * segments springs follow those of rings 1 .. r - 1 and
      still fit in the array of SpringCount springs. */
  lemma {:induction false} RawSpringsFit(vs: seq<Vertex>, rows: int, segments: int, r: int)
    requires 0 < segments && |vs| == rows * segments && 1 <= r < rows
    ensures |RawSprings(vs, rows, segments, r)| + 2 * segments == |RawSprings(vs, rows, segments, r + 1)|
    ensures |RawSprings(vs, rows, segments, r + 1)| <= SpringCount(rows, segments)
  {
    RawSpringsLength(vs, rows, segments, r + 1);
    MulMonotone(r, rows - 1, segments);
  }

  /** All rings together fill the array exactly. */
  lemma {:induction false} RawSpringsFill(vs: seq<Vertex>, rows: int, segments: int)
    requires 0 < segments && |vs| == rows * segments && 1 <= rows
    ensures |RawSprings(vs, rows, segments, rows)| == SpringCount(rows, segments)
  {
    RawSpringsLength(vs, rows, segments, rows);
  }

  /** The whole spring array GenerateSprings builds. */
  function Springs(vs: seq<Vertex>, rows: int, segments: int, h: Host): (sps: seq<Spring>)
    requires 0 < segments && 1 <= rows && |vs| == rows * segments
    ensures |sps| == SpringCount(rows, segments)
  {
    RawSpringsLength(vs, rows, segments, rows);
    Measured(RawSprings(vs, rows, segments, rows), h)
  }

  /** Adding segments or rings leaves the springs written before them as they were. */
  lemma {:induction false} RingSpringsGrow(vs: seq<Vertex>, rows: int, segments: int, r: int, m: int, n: int, j: int)
    requires |vs| == rows * segments && 1 <= r < rows && 0 <= m <= n <= segments && 0 <= j < 2 * m
    ensures RingSprings(vs, rows, segments, r, n)[j] == RingSprings(vs, rows, segments, r, m)[j]
    decreases n
  {
    if m < n {
      RingSpringsGrow(vs, rows, segments, r, m, n - 1, j);
    }
  }

  lemma {:induction false} RawSpringsGrow(vs: seq<Vertex>, rows: int, segments: int, m: int, n: int, j: int)
    requires 0 < segments && |vs| == rows * segments && 1 <= m <= n <= rows && 0 <= j < |RawSprings(vs, rows, segments, m)|
    ensures j < |RawSprings(vs, rows, segments, n)|
    ensures RawSprings(vs, rows, segments, n)[j] == RawSprings(vs, rows, segments, m)[j]
    decreases n
  {
    if m < n {
      var prev := RawSprings(vs, rows, segments, n - 1);
      assert j < |prev| && prev[j] == RawSprings(vs, rows, segments, m)[j] by {
        RawSpringsGrow(vs, rows, segments, m, n - 1, j);
      }
      assert j < |RawSprings(vs, rows, segments, n)| && RawSprings(vs, rows, segments, n)[j] == prev[j] by {
        var tail := RingSprings(vs, rows, segments, n - 1, segments);
        assert RawSprings(vs, rows, segments, n) == prev + tail;
      }
    }
  }

  /** Within ring r's springs, segment s contributes positions 2s and 2s + 1. */
  lemma {:induction false} RingSpringsAt(vs: seq<Vertex>, rows: int, segments: int, r: int, s: int)
    requires |vs| == rows * segments && 1 <= r < rows && 0 <= s < segments
    ensures RingSprings(vs, rows, segments, r, segments)[2 * s] == VerticalSpring(vs, rows, segments, r, s)
    ensures RingSprings(vs, rows, segments, r, segments)[2 * s + 1] == HorizontalSpring(vs, rows, segments, r, s)
  {
    RingSpringsGrow(vs, rows, segments, r, s + 1, segments, 2 * s);
    RingSpringsGrow(vs, rows, segments, r, s + 1, segments, 2 * s + 1);
  }

  /** In the first pass's array, vertex [r, s]'s two springs sit at 2k and 2k + 1, k = [r - 1, s]. */
  lemma {:induction false} RawSpringsAt(vs: seq<Vertex>, rows: int, segments: int, r: int, s: int)
    requires 0 < segments && |vs| == rows * segments && 1 <= r < rows && 0 <= s < segments
    ensures var k := Idx(r - 1, s, segments);
      var raw := RawSprings(vs, rows, segments, rows);
      0 <= 2 * k && 2 * k + 1 < |raw| &&
      raw[2 * k] == VerticalSpring(vs, rows, segments, r, s) &&
      raw[2 * k + 1] == HorizontalSpring(vs, rows, segments, r, s)
  {
    RingSpringsAt(vs, rows, segments, r, s);
    RawSpringsRingAt(vs, rows, segments, r, 2 * s);
    RawSpringsRingAt(vs, rows, segments, r, 2 * s + 1);
  }

  /** Position j of ring r's springs is position 2 * ((r - 1) * segments) + j of the whole array. */
  lemma {:induction false} RawSpringsRingAt(vs: seq<Vertex>, rows: int, segments: int, r: int, j: int)
    requires 0 < segments && |vs| == rows * segments && 1 <= r < rows && 0 <= j < 2 * segments
    ensures var at := 2 * ((r - 1) * segments) + j;
      0 <= at < |RawSprings(vs, rows, segments, rows)| &&
      RawSprings(vs, rows, segments, rows)[at] == RingSprings(vs, rows, segments, r, segments)[j]
  {
    RawSpringsRowAt(vs, rows, segments, r, j);
    RawSpringsGrow(vs, rows, segments, r + 1, rows, 2 * ((r - 1) * segments) + j);
  }

  /** Ring r's springs follow those of the rings above it. */
  lemma {:induction false} RawSpringsRowAt(vs: seq<Vertex>, rows: int, segments: int, r: int, j: int)
    requires 0 < segments && |vs| == rows * segments && 1 <= r < rows && 0 <= j < 2 * segments
    ensures var at := 2 * ((r - 1) * segments) + j;
      0 <= at < |RawSprings(vs, rows, segments, r + 1)| &&
      RawSprings(vs, rows, segments, r + 1)[at] == RingSprings(vs, rows, segments, r, segments)[j]
  {
    RawSpringsLength(vs, rows, segments, r);
    MulNonNegative(r - 1, segments);
  }

  /** The layout: for k = [r - 1, s] (r >= 1), spring 2k runs vertically from
      [r - 1, s] to [r, s] and is anchor-static exactly on ring 1, spring
      2k + 1 runs horizontally from [r, s] to [r, (s + 1) % segments]; each
      rest vector is the offset between its endpoints in vs and each rest
      length that vector's magnitude. */
  lemma {:induction false} SpringsAt(vs: seq<Vertex>, rows: int, segments: int, h: Host, r: int, s: int)
    requires 0 < segments && |vs| == rows * segments && 1 <= r < rows && 0 <= s < segments
    ensures var k := Idx(r - 1, s, segments);
      var up, here, next := Idx(r - 1, s, segments), Idx(r, s, segments), Idx(r, (s + 1) % segments, segments);
      var sps := Springs(vs, rows, segments, h);
      0 <= up < |vs| && 0 <= here < |vs| && 0 <= next < |vs| && 0 <= 2 * k && 2 * k + 1 < |sps| &&
      var vRest, hRest := Sub(vs[here].position, vs[up].position), Sub(vs[next].position, vs[here].position);
      sps[2 * k] == Spring(true, r == 1, vRest, Magnitude(h, vRest), up, here) &&
      sps[2 * k + 1] == Spring(false, false, hRest, Magnitude(h, hRest), here, next)
  {
    IdxInGrid(r - 1, s, rows, segments);
    IdxInGrid(r, s, rows, segments);
    IdxInGrid(r, (s + 1) % segments, rows, segments);
    RawSpringsAt(vs, rows, segments, r, s);
    var k := Idx(r - 1, s, segments);
    var raw := RawSprings(vs, rows, segments, rows);
    var sps := Springs(vs, rows, segments, h);
    assert sps == Measured(raw, h);
    assert sps[2 * k] == raw[2 * k].(restLength := Magnitude(h, raw[2 * k].rest));
    assert sps[2 * k + 1] == raw[2 * k + 1].(restLength := Magnitude(h, raw[2 * k + 1].rest));
  }

  // ---------------------------------------------------------------------
  // Where the springs reach

  /** Every spring endpoint indexes one of n vertices. */
  predicate Endpoints(springs: seq<Spring>, n: int) {
    forall j :: 0 <= j < |springs| ==> 0 <= springs[j].v1 < n && 0 <= springs[j].v2 < n
  }

  /** Vertex i is never moved by a spring: it is no spring's second endpoint
      and the first endpoint only of anchor-static springs. */
  predicate Anchored(springs: seq<Spring>, i: int) {
    forall j :: 0 <= j < |springs| ==> springs[j].v2 != i && (springs[j].v1 == i ==> springs[j].isV1Static)
  }

  /** A spring lies on the grid below ring 0: its first endpoint on the
      grid, on ring 0 only when it is anchor-static, its second below ring 0. */
  predicate OnGrid(sp: Spring, rows: int, segments: int) {
    0 <= sp.v1 < rows * segments && segments <= sp.v2 < rows * segments && (sp.v1 < segments ==> sp.isV1Static)
  }

  lemma {:induction false} RingSpringsOnGrid(vs: seq<Vertex>, rows: int, segments: int, r: int, n: int)
    requires |vs| == rows * segments && 1 <= r < rows && 0 <= n <= segments
    ensures forall j :: 0 <= j < 2 * n ==> OnGrid(RingSprings(vs, rows, segments, r, n)[j], rows, segments)
    decreases n
  {
    if n > 0 {
      RingSpringsOnGrid(vs, rows, segments, r, n - 1);
      IdxInGrid(r - 1, n - 1, rows, segments);
      IdxInGrid(r, n - 1, rows, segments);
      IdxInGrid(r, n % segments, rows, segments);
    }
  }

  lemma {:induction false} RawSpringsOnGrid(vs: seq<Vertex>, rows: int, segments: int, n: int)
    requires 0 < segments && |vs| == rows * segments && 1 <= n <= rows
    ensures forall j :: 0 <= j < |RawSprings(vs, rows, segments, n)| ==> OnGrid(RawSprings(vs, rows, segments, n)[j], rows, segments)
    decreases n
  {
    if n > 1 {
      RawSpringsOnGrid(vs, rows, segments, n - 1);
      RingSpringsOnGrid(vs, rows, segments, n - 1, segments);
    }
  }

  /** Every generated spring joins two grid vertices, and no spring moves a
      ring-0 vertex. */
  lemma {:induction false} SpringsOnGrid(vs: seq<Vertex>, rows: int, segments: int, h: Host)
    requires 0 < segments && 1 <= rows && |vs| == rows * segments
    ensures Endpoints(Springs(vs, rows, segments, h), rows * segments)
    ensures forall i :: 0 <= i < segments ==> Anchored(Springs(vs, rows, segments, h), i)
  {
    RawSpringsOnGrid(vs, rows, segments, rows);
  }

  // ---------------------------------------------------------------------

  /** Adds d to a vertex's position and velocity alike. */
  function Nudge(v: Vertex, d: Vec3): Vertex {
    v.(velocity := Add(v.velocity, d), position := Add(v.position, d))
  }
}
