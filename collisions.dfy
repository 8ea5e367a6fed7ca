/** Collision relaxation (HandleCollisions): every horizontal edge on rings
    at or above 1 is wrapped in the helper capsule and pushed out of each
    collider in turn. The penetration query is the host's oracle. */
module Collisions {
  import opened Vectors
  import opened Engine
  import opened Grid

  /** The helper capsule for the edge from vertex l to vertex rt: as long as
      the edge plus a radius at each end, centred on the edge's midpoint and
      pushed one radius outward, away from the root transform of the ring's
      centre; its orientation looks along the edge. */
  function EdgeCapsule(vs: seq<Vertex>, l: int, rt: int, ringOffset: Vec3, radius: real, h: Host): Capsule
    requires 0 <= l < |vs| && 0 <= rt < |vs|
  {
    var left, right := vs[l].position, vs[rt].position;
    var mid := Midpoint(left, right);
    var forward := Sub(left, mid);
    var rightDir := Normalized(h, Sub(mid, h.transformPoint(ringOffset)));
    Capsule(Add(mid, Scale(rightDir, radius)), forward, Cross(rightDir, forward), radius,
            Magnitude(h, Sub(left, right)) + radius * 2.0)
  }

  /** The vertices and the helper capsule while one edge is being relaxed. */
  datatype EdgeState = EdgeState(verts: seq<Vertex>, capsule: Capsule)

  /** A reported penetration d moves the capsule centre and both edge
      vertices' position and velocity by d; the right vertex is read after
      the left one is written, so a one-segment ring moves its vertex twice. */
  function Hit(st: EdgeState, l: int, rt: int, d: Vec3): EdgeState
    requires 0 <= l < |st.verts| && 0 <= rt < |st.verts|
  {
    var a := st.verts[l := Nudge(st.verts[l], d)];
    EdgeState(a[rt := Nudge(a[rt], d)], st.capsule.(center := Add(st.capsule.center, d)))
  }

  /** The edge after it has been tested against the first n colliders. */
  function RelaxEdge(vs: seq<Vertex>, cap: Capsule, l: int, rt: int, colliders: seq<Collider>, h: Host, n: int): (st: EdgeState)
    requires 0 <= l < |vs| && 0 <= rt < |vs| && 0 <= n <= |colliders|
    ensures |st.verts| == |vs|
    decreases n
  {
    if n == 0 then EdgeState(vs, cap)
    else
      var prev := RelaxEdge(vs, cap, l, rt, colliders, h, n - 1);
      var p := h.computePenetration(prev.capsule, colliders[n - 1]);
      if p.collided then Hit(prev, l, rt, Scale(p.direction, p.distance)) else prev
  }

  /** Relaxing an edge changes only positions and velocities, and only of
      its two vertices. */
  lemma {:induction false} RelaxEdgeFrame(vs: seq<Vertex>, cap: Capsule, l: int, rt: int, colliders: seq<Collider>, h: Host,
                                          n: int, i: int)
    requires 0 <= l < |vs| && 0 <= rt < |vs| && 0 <= n <= |colliders| && 0 <= i < |vs|
    ensures var st := RelaxEdge(vs, cap, l, rt, colliders, h, n);
      st.verts[i].startLocalPosition == vs[i].startLocalPosition && st.verts[i].force == vs[i].force &&
      (i != l && i != rt ==> st.verts[i] == vs[i])
    decreases n
  {
    if n > 0 {
      RelaxEdgeFrame(vs, cap, l, rt, colliders, h, n - 1, i);
    }
  }

  /** Edge [r, s] - [r, (s + 1) % segments], relaxed against every collider
      with the helper capsule built around it from ring r's offset. */
  function CollideEdge(vs: seq<Vertex>, rings: seq<Ring>, segments: int, colliders: seq<Collider>, radius: real, h: Host,
                       r: int, s: int): (res: seq<Vertex>)
    requires 0 < segments && |vs| == |rings| * segments && 1 <= r < |rings| && 0 <= s < segments
    ensures |res| == |vs|
  {
    IdxInGrid(r, s, |rings|, segments);
    IdxInGrid(r, (s + 1) % segments, |rings|, segments);
    var l, rt := Idx(r, s, segments), Idx(r, (s + 1) % segments, segments);
    var cap := EdgeCapsule(vs, l, rt, rings[r].offset, radius, h);
    RelaxEdge(vs, cap, l, rt, colliders, h, |colliders|).verts
  }

  /** The first n edges of ring r relaxed in order. */
  function CollideRing(vs: seq<Vertex>, rings: seq<Ring>, segments: int, colliders: seq<Collider>, radius: real, h: Host,
                       r: int, n: int): (res: seq<Vertex>)
    requires 0 < segments && |vs| == |rings| * segments && 1 <= r < |rings| && 0 <= n <= segments
    ensures |res| == |vs|
    decreases n
  {
    if n == 0 then vs
    else
      CollideEdge(CollideRing(vs, rings, segments, colliders, radius, h, r, n - 1), rings, segments, colliders, radius, h, r, n - 1)
  }

  /** Rings 1 .. n - 1 relaxed in order, each edge by edge. Ring 0 is never
      touched, and rest positions and forces are kept. */
  function Collide(vs: seq<Vertex>, rings: seq<Ring>, segments: int, colliders: seq<Collider>, radius: real, h: Host, n: int): (res: seq<Vertex>)
    requires 0 < segments && |vs| == |rings| * segments && 1 <= n <= |rings|
    ensures |res| == |vs|
    decreases n
  {
    if n == 1 then vs
    else CollideRing(Collide(vs, rings, segments, colliders, radius, h, n - 1), rings, segments, colliders, radius, h, n - 1, segments)
  }

  /** One more edge of ring r is relaxed after those before it. */
  lemma {:induction false} CollideRingStep(vs: seq<Vertex>, rings: seq<Ring>, segments: int, colliders: seq<Collider>, radius: real, h: Host,
                        r: int, n: int)
    requires 0 < segments && |vs| == |rings| * segments && 1 <= r < |rings| && 0 <= n < segments
    ensures CollideRing(vs, rings, segments, colliders, radius, h, r, n + 1) ==
      CollideEdge(CollideRing(vs, rings, segments, colliders, radius, h, r, n), rings, segments, colliders, radius, h, r, n)
  {
  }

  /** One more ring is relaxed after those before it. */
  lemma {:induction false} CollideStep(vs: seq<Vertex>, rings: seq<Ring>, segments: int, colliders: seq<Collider>, radius: real, h: Host, r: int)
    requires 0 < segments && |vs| == |rings| * segments && 1 <= r < |rings|
    ensures Collide(vs, rings, segments, colliders, radius, h, r + 1) ==
      CollideRing(Collide(vs, rings, segments, colliders, radius, h, r), rings, segments, colliders, radius, h, r, segments)
  {
  }

  /** Relaxing edge [r, s] changes only positions and velocities, and only
      of its two vertices, which lie below ring 0. */
  lemma {:induction false} CollideEdgeFrame(vs: seq<Vertex>, rings: seq<Ring>, segments: int, colliders: seq<Collider>, radius: real, h: Host,
                         r: int, s: int, i: int)
    requires 0 < segments && |vs| == |rings| * segments && 1 <= r < |rings| && 0 <= s < segments && 0 <= i < |vs|
    ensures var res := CollideEdge(vs, rings, segments, colliders, radius, h, r, s);
      res[i].startLocalPosition == vs[i].startLocalPosition && res[i].force == vs[i].force &&
      (i != Idx(r, s, segments) && i != Idx(r, (s + 1) % segments, segments) ==> res[i] == vs[i]) &&
      (i < segments ==> res[i] == vs[i])
  {
    IdxInGrid(r, s, |rings|, segments);
    IdxInGrid(r, (s + 1) % segments, |rings|, segments);
    var l, rt := Idx(r, s, segments), Idx(r, (s + 1) % segments, segments);
    RelaxEdgeFrame(vs, EdgeCapsule(vs, l, rt, rings[r].offset, radius, h), l, rt, colliders, h, |colliders|, i);
  }

  /** Relaxing the first n edges of ring r keeps rest positions and forces
      and leaves ring 0 alone. */
  lemma {:induction false} CollideRingFrame(vs: seq<Vertex>, rings: seq<Ring>, segments: int, colliders: seq<Collider>, radius: real,
                                            h: Host, r: int, n: int, i: int)
    requires 0 < segments && |vs| == |rings| * segments && 1 <= r < |rings| && 0 <= n <= segments && 0 <= i < |vs|
    ensures var res := CollideRing(vs, rings, segments, colliders, radius, h, r, n);
      res[i].startLocalPosition == vs[i].startLocalPosition && res[i].force == vs[i].force &&
      (i < segments ==> res[i] == vs[i])
    decreases n
  {
    if n > 0 {
      CollideRingFrame(vs, rings, segments, colliders, radius, h, r, n - 1, i);
      CollideEdgeFrame(CollideRing(vs, rings, segments, colliders, radius, h, r, n - 1), rings, segments, colliders, radius, h, r, n - 1, i);
    }
  }

  /** Collision relaxation never touches ring 0 and changes only positions
      and velocities. */
  lemma {:induction false} CollideFrame(vs: seq<Vertex>, rings: seq<Ring>, segments: int, colliders: seq<Collider>, radius: real,
                                        h: Host, n: int, i: int)
    requires 0 < segments && |vs| == |rings| * segments && 1 <= n <= |rings| && 0 <= i < |vs|
    ensures var res := Collide(vs, rings, segments, colliders, radius, h, n);
      res[i].startLocalPosition == vs[i].startLocalPosition && res[i].force == vs[i].force &&
      (i < segments ==> res[i] == vs[i])
    decreases n
  {
    if n > 1 {
      CollideFrame(vs, rings, segments, colliders, radius, h, n - 1, i);
      CollideRingFrame(Collide(vs, rings, segments, colliders, radius, h, n - 1), rings, segments, colliders, radius, h, n - 1, segments, i);
    }
  }

  lemma {:induction false} NudgeTwice(v: Vertex, d1: Vec3, d2: Vec3)
    ensures Nudge(Nudge(v, d1), d2) == Nudge(v, Add(d1, d2))
  {
  }

  lemma {:induction false} ShiftedGap(c0: Vec3, c: Vec3, d: Vec3)
    ensures Sub(Add(c, d), c0) == Add(Sub(c, c0), d)
  {
  }

  /** Relaxing an edge with distinct ends moves both vertices, position and
      velocity alike, by exactly the total displacement of the capsule centre;
      the capsule keeps its orientation, radius and height. */
  lemma {:induction false} RelaxEdgeMovesTogether(vs: seq<Vertex>, cap: Capsule, l: int, rt: int, colliders: seq<Collider>, h: Host, n: int)
    requires 0 <= l < |vs| && 0 <= rt < |vs| && l != rt && 0 <= n <= |colliders|
    ensures var st := RelaxEdge(vs, cap, l, rt, colliders, h, n);
      var moved := Sub(st.capsule.center, cap.center);
      st.verts[l] == Nudge(vs[l], moved) && st.verts[rt] == Nudge(vs[rt], moved) &&
      st.capsule == cap.(center := st.capsule.center)
  {
    if n == 0 {
      var st := RelaxEdge(vs, cap, l, rt, colliders, h, n);
      assert Sub(st.capsule.center, cap.center) == Zero;
    } else {
      RelaxEdgeMovesTogether(vs, cap, l, rt, colliders, h, n - 1);
      var prev := RelaxEdge(vs, cap, l, rt, colliders, h, n - 1);
      var p := h.computePenetration(prev.capsule, colliders[n - 1]);
      if p.collided {
        var d := Scale(p.direction, p.distance);
        var before := Sub(prev.capsule.center, cap.center);
        NudgeTwice(vs[l], before, d);
        NudgeTwice(vs[rt], before, d);
        ShiftedGap(cap.center, prev.capsule.center, d);
      }
    }
  }

  /** With no colliders every edge is left as it is. */
  lemma {:induction false} CollideRingWithoutColliders(vs: seq<Vertex>, rings: seq<Ring>, segments: int, colliders: seq<Collider>,
                                                       radius: real, h: Host, r: int, n: int)
    requires 0 < segments && |vs| == |rings| * segments && 1 <= r < |rings| && 0 <= n <= segments
    requires |colliders| == 0
    ensures CollideRing(vs, rings, segments, colliders, radius, h, r, n) == vs
    decreases n
  {
    if n > 0 {
      CollideRingWithoutColliders(vs, rings, segments, colliders, radius, h, r, n - 1);
    }
  }

  lemma {:induction false} CollideWithoutColliders(vs: seq<Vertex>, rings: seq<Ring>, segments: int, colliders: seq<Collider>,
                                                   radius: real, h: Host, n: int)
    requires 0 < segments && |vs| == |rings| * segments && 1 <= n <= |rings|
    requires |colliders| == 0
    ensures Collide(vs, rings, segments, colliders, radius, h, n) == vs
  {
    if n > 1 {
      CollideWithoutColliders(vs, rings, segments, colliders, radius, h, n - 1);
      CollideRingWithoutColliders(vs, rings, segments, colliders, radius, h, n - 1, segments);
    }
  }

  /** Relaxing edge [r, s] on a ring of at least two segments moves its two
      vertices together by one displacement (the capsule's) and no other vertex. */
  lemma {:induction false} CollideEdgeMovesTogether(vs: seq<Vertex>, rings: seq<Ring>, segments: int, colliders: seq<Collider>, radius: real, h: Host,
                                 r: int, s: int)
    requires 2 <= segments && |vs| == |rings| * segments && 1 <= r < |rings| && 0 <= s < segments
    ensures var res := CollideEdge(vs, rings, segments, colliders, radius, h, r, s);
      var l, rt := Idx(r, s, segments), Idx(r, (s + 1) % segments, segments);
      0 <= l < |vs| && 0 <= rt < |vs| &&
      exists moved :: res[l] == Nudge(vs[l], moved) && res[rt] == Nudge(vs[rt], moved)
  {
    IdxInGrid(r, s, |rings|, segments);
    IdxInGrid(r, (s + 1) % segments, |rings|, segments);
    NextSegment(s, segments);
    var l, rt := Idx(r, s, segments), Idx(r, (s + 1) % segments, segments);
    var cap := EdgeCapsule(vs, l, rt, rings[r].offset, radius, h);
    RelaxEdgeMovesTogether(vs, cap, l, rt, colliders, h, |colliders|);
    var st := RelaxEdge(vs, cap, l, rt, colliders, h, |colliders|);
    var moved := Sub(st.capsule.center, cap.center);
    assert st.verts[l] == Nudge(vs[l], moved) && st.verts[rt] == Nudge(vs[rt], moved);
  }
}
