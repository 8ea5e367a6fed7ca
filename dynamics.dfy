/** The integrator phases of FixedUpdate, each as a function of the vertex
    sequence: drive ring 0, shape force, spring force, damped integration
    and one pass of stretch-limit correction. */
module Dynamics {
  import opened Vectors
  import opened Engine
  import opened Grid

  lemma {:induction false} AddAssociative(a: Vec3, b: Vec3, c: Vec3)
    ensures Add(Add(a, b), c) == Add(a, Add(b, c))
  {
  }

  function Positions(vs: seq<Vertex>): (ps: seq<Vec3>)
    ensures |ps| == |vs| && forall i :: 0 <= i < |vs| ==> ps[i] == vs[i].position
  {
    seq(|vs|, i requires 0 <= i < |vs| => vs[i].position)
  }

  // ---------------------------------------------------------------------
  // Drive the kinematic ring (lines 103-105) and the shape force (108-111)

  /** Ring 0 is placed at the root transform of its rest positions. */
  function Driven(vs: seq<Vertex>, segments: int, h: Host): (r: seq<Vertex>)
    requires segments <= |vs|
    ensures |r| == |vs|
  {
    seq(|vs|, i requires 0 <= i < |vs| =>
      if i < segments then vs[i].(position := h.transformPoint(vs[i].startLocalPosition)) else vs[i])
  }

  /** Every force is reset to the pull toward the vertex's rest pose. */
  function ShapeForces(vs: seq<Vertex>, shapeStiffness: real, h: Host): (r: seq<Vertex>)
    ensures |r| == |vs|
  {
    seq(|vs|, i requires 0 <= i < |vs| =>
      vs[i].(force := Scale(Sub(h.transformPoint(vs[i].startLocalPosition), vs[i].position), shapeStiffness)))
  }

  /** The shape phase leaves every position where it was. */
  lemma {:induction false} ShapeForcesPositions(vs: seq<Vertex>, shapeStiffness: real, h: Host)
    ensures Positions(ShapeForces(vs, shapeStiffness, h)) == Positions(vs)
  {
    var r := ShapeForces(vs, shapeStiffness, h);
    assert forall j :: 0 <= j < |vs| ==> Positions(r)[j] == Positions(vs)[j];
  }

  // ---------------------------------------------------------------------
  // Spring force (lines 113-120)

  /** The spring force F = ((p2 - p1) - rest) * k. */
  function PairForce(p1: Vec3, p2: Vec3, rest: Vec3, k: real): Vec3 {
    Scale(Sub(Sub(p2, p1), rest), k)
  }

  /** F is added to the first endpoint unless the spring is anchor-static,
      and subtracted from the second. */
  function ApplySpringForce(vs: seq<Vertex>, sp: Spring, k: real): (r: seq<Vertex>)
    requires 0 <= sp.v1 < |vs| && 0 <= sp.v2 < |vs|
    ensures |r| == |vs|
  {
    var f := PairForce(vs[sp.v1].position, vs[sp.v2].position, sp.rest, k);
    var a := if sp.isV1Static then vs else vs[sp.v1 := vs[sp.v1].(force := Add(vs[sp.v1].force, f))];
    a[sp.v2 := a[sp.v2].(force := Sub(a[sp.v2].force, f))]
  }

  /** The first n springs applied in array order; only forces change. */
  function SpringForces(vs: seq<Vertex>, springs: seq<Spring>, k: real, n: int): (r: seq<Vertex>)
    requires 0 <= n <= |springs| && Endpoints(springs, |vs|)
    ensures |r| == |vs|
    decreases n
  {
    if n == 0 then vs
    else ApplySpringForce(SpringForces(vs, springs, k, n - 1), springs[n - 1], k)
  }

  /** The spring loop changes forces and nothing else. */
  lemma {:induction false} SpringForcesFrame(vs: seq<Vertex>, springs: seq<Spring>, k: real, n: int, i: int)
    requires 0 <= n <= |springs| && Endpoints(springs, |vs|) && 0 <= i < |vs|
    ensures var r := SpringForces(vs, springs, k, n);
      r[i] == vs[i].(force := r[i].force)
    decreases n
  {
    if n > 0 {
      SpringForcesFrame(vs, springs, k, n - 1, i);
    }
  }

  /** So the positions the spring loop reads never change during it. */
  lemma {:induction false} SpringForcesPositions(vs: seq<Vertex>, springs: seq<Spring>, k: real, n: int)
    requires 0 <= n <= |springs| && Endpoints(springs, |vs|)
    ensures Positions(SpringForces(vs, springs, k, n)) == Positions(vs)
  {
    var r := SpringForces(vs, springs, k, n);
    forall i | 0 <= i < |vs|
      ensures Positions(r)[i] == Positions(vs)[i]
    {
      SpringForcesFrame(vs, springs, k, n, i);
    }
  }

  /** What spring sp contributes to vertex i's force, given the positions ps. */
  function ForceOn(ps: seq<Vec3>, sp: Spring, k: real, i: int): Vec3
    requires 0 <= sp.v1 < |ps| && 0 <= sp.v2 < |ps|
  {
    var f := PairForce(ps[sp.v1], ps[sp.v2], sp.rest, k);
    Sub(if !sp.isV1Static && sp.v1 == i then f else Zero, if sp.v2 == i then f else Zero)
  }

  /** The sum of the first n springs' contributions to vertex i. */
  function NetSpringForce(ps: seq<Vec3>, springs: seq<Spring>, k: real, n: int, i: int): Vec3
    requires 0 <= n <= |springs| && Endpoints(springs, |ps|)
    decreases n
  {
    if n == 0 then Zero else Add(NetSpringForce(ps, springs, k, n - 1, i), ForceOn(ps, springs[n - 1], k, i))
  }

  /** One spring changes vertex i's force by exactly its contribution. */
  lemma {:induction false} ApplySpringForceAt(vs: seq<Vertex>, ps: seq<Vec3>, sp: Spring, k: real, i: int)
    requires 0 <= sp.v1 < |vs| && 0 <= sp.v2 < |vs| && 0 <= i < |vs| && Positions(vs) == ps
    ensures ApplySpringForce(vs, sp, k)[i].force == Add(vs[i].force, ForceOn(ps, sp, k, i))
  {
    var f := PairForce(vs[sp.v1].position, vs[sp.v2].position, sp.rest, k);
    assert f == PairForce(ps[sp.v1], ps[sp.v2], sp.rest, k);
    var g1 := if !sp.isV1Static && sp.v1 == i then f else Zero;
    var g2 := if sp.v2 == i then f else Zero;
    var a := if sp.isV1Static then vs else vs[sp.v1 := vs[sp.v1].(force := Add(vs[sp.v1].force, f))];
    assert a[i].force == Add(vs[i].force, g1);
    assert ApplySpringForce(vs, sp, k)[i].force == Sub(a[i].force, g2);
    assert ForceOn(ps, sp, k, i) == Sub(g1, g2);
  }

  /** After the spring loop, each vertex's force is its old force plus F of
      every non-static spring it starts and minus F of every spring it ends. */
  lemma {:induction false} SpringForcesClosedForm(vs: seq<Vertex>, springs: seq<Spring>, k: real, n: int, i: int)
    requires 0 <= n <= |springs| && Endpoints(springs, |vs|) && 0 <= i < |vs|
    ensures SpringForces(vs, springs, k, n)[i].force == Add(vs[i].force, NetSpringForce(Positions(vs), springs, k, n, i))
  {
    if n > 0 {
      SpringForcesClosedForm(vs, springs, k, n - 1, i);
      var prev := SpringForces(vs, springs, k, n - 1);
      var sp := springs[n - 1];
      assert 0 <= sp.v1 < |prev| && 0 <= sp.v2 < |prev|;
      SpringForcesPositions(vs, springs, k, n - 1);
      ApplySpringForceAt(prev, Positions(vs), sp, k, i);
      var before := NetSpringForce(Positions(vs), springs, k, n - 1, i);
      var step := ForceOn(Positions(vs), sp, k, i);
      var r := SpringForces(vs, springs, k, n);
      assert r == ApplySpringForce(prev, sp, k);
      assert r[i].force == Add(prev[i].force, step);
      assert prev[i].force == Add(vs[i].force, before);
      assert NetSpringForce(Positions(vs), springs, k, n, i) == Add(before, step);
      AddAssociative(vs[i].force, before, step);
    }
  }

  /** After the whole spring loop, vertex i is its old self with the net
      spring force added to its force. */
  lemma {:induction false} SpringForcesAt(vs: seq<Vertex>, springs: seq<Spring>, k: real, i: int)
    requires Endpoints(springs, |vs|) && 0 <= i < |vs|
    ensures SpringForces(vs, springs, k, |springs|)[i] ==
      vs[i].(force := Add(vs[i].force, NetSpringForce(Positions(vs), springs, k, |springs|, i)))
  {
    SpringForcesClosedForm(vs, springs, k, |springs|, i);
    SpringForcesFrame(vs, springs, k, |springs|, i);
  }

  /** A vertex no spring may move receives no spring force. */
  lemma {:induction false} NetSpringForceAnchored(ps: seq<Vec3>, springs: seq<Spring>, k: real, n: int, i: int)
    requires 0 <= n <= |springs| && Endpoints(springs, |ps|) && Anchored(springs, i)
    ensures NetSpringForce(ps, springs, k, n, i) == Zero
  {
    if n > 0 {
      NetSpringForceAnchored(ps, springs, k, n - 1, i);
      var sp := springs[n - 1];
      assert ForceOn(ps, sp, k, i) == Zero by {
        assert !(!sp.isV1Static && sp.v1 == i);
        assert sp.v2 != i;
      }
      assert NetSpringForce(ps, springs, k, n, i) == Add(Zero, Zero);
    }
  }

  /** F points along the spring's deviation from rest: F . d = k * |d|^2,
      which is never negative for k >= 0. */
  lemma {:induction false} PairForceAlongDeviation(p1: Vec3, p2: Vec3, rest: Vec3, k: real)
    requires 0.0 <= k
    ensures var deviation := Sub(Sub(p2, p1), rest);
      Dot(PairForce(p1, p2, rest, k), deviation) == k * SqrMagnitude(deviation) &&
      0.0 <= Dot(PairForce(p1, p2, rest, k), deviation)
  {
    var d := Sub(Sub(p2, p1), rest);
    SqrMagnitudeNonNegative(d);
    assert Dot(Scale(d, k), d) == k * SqrMagnitude(d);
    assert 0.0 <= k * SqrMagnitude(d);
  }

  /** The sign convention v1 += F, v2 -= F restores the rest vector: on a
      free spring it changes the relative force v2.force - v1.force, which
      drives the span p2 - p1, by exactly -2F, and -2F never points along
      the span's deviation from rest. */
  lemma {:induction false} SpringForceRestores(vs: seq<Vertex>, sp: Spring, k: real)
    requires 0 <= sp.v1 < |vs| && 0 <= sp.v2 < |vs| && sp.v1 != sp.v2 && !sp.isV1Static && 0.0 <= k
    ensures var p1, p2 := vs[sp.v1].position, vs[sp.v2].position;
      var f := PairForce(p1, p2, sp.rest, k);
      var r := ApplySpringForce(vs, sp, k);
      Sub(r[sp.v2].force, r[sp.v1].force) == Add(Sub(vs[sp.v2].force, vs[sp.v1].force), Scale(f, -2.0)) &&
      Dot(Scale(f, -2.0), Sub(Sub(p2, p1), sp.rest)) <= 0.0
  {
    var p1, p2 := vs[sp.v1].position, vs[sp.v2].position;
    var f := PairForce(p1, p2, sp.rest, k);
    PairForceAlongDeviation(p1, p2, sp.rest, k);
    var d := Sub(Sub(p2, p1), sp.rest);
    assert Dot(Scale(f, -2.0), d) == -2.0 * Dot(f, d);
  }

  // ---------------------------------------------------------------------
  // Damped integration (lines 123-126)

  function IntegratedVertex(v: Vertex, damping: real, inertia: real): (r: Vertex)
    ensures r.position == Add(v.position, r.velocity)
    ensures r.force == v.force && r.startLocalPosition == v.startLocalPosition
  {
    var velocity := Add(Scale(v.velocity, 1.0 - damping), Scale(v.force, inertia));
    v.(velocity := velocity, position := Add(v.position, velocity))
  }

  /** Every vertex takes velocity := velocity * (1 - damping) + force * inertia,
      then moves by its new velocity; rest position and force are kept. */
  function Integrated(vs: seq<Vertex>, damping: real, inertia: real): (r: seq<Vertex>)
    ensures |r| == |vs|
    ensures forall i :: 0 <= i < |vs| ==>
      r[i].startLocalPosition == vs[i].startLocalPosition && r[i].force == vs[i].force &&
      r[i].velocity == Add(Scale(vs[i].velocity, 1.0 - damping), Scale(vs[i].force, inertia)) &&
      Sub(r[i].position, vs[i].position) == r[i].velocity
  {
    seq(|vs|, i requires 0 <= i < |vs| => IntegratedVertex(vs[i], damping, inertia))
  }

  // ---------------------------------------------------------------------
  // Stretch limits (lines 129-146)

  /** The longest a spring may be: its rest length times the stretch limit of its kind. */
  function MaxLength(sp: Spring, verticalLimit: real, horizontalLimit: real): real {
    sp.restLength * (if sp.vertical then verticalLimit else horizontalLimit)
  }

  /** One spring's correction. Past its limit, a free spring moves both
      endpoints half the excess toward each other; an anchor-static spring
      leaves its anchor and moves the other endpoint the whole excess. Each
      delta is added to position and velocity alike. */
  function ApplyStretch(vs: seq<Vertex>, sp: Spring, verticalLimit: real, horizontalLimit: real, h: Host): (r: seq<Vertex>)
    requires 0 <= sp.v1 < |vs| && 0 <= sp.v2 < |vs|
    ensures |r| == |vs|
  {
    var d := Sub(vs[sp.v2].position, vs[sp.v1].position);
    var maxLen := MaxLength(sp, verticalLimit, horizontalLimit);
    if SqrMagnitude(d) > maxLen * maxLen then
      var len := Sqrt(h, SqrMagnitude(d));
      var shortenDir := Normalized(h, d);
      var half := Scale(Scale(shortenDir, len - maxLen), 0.5);
      var v1Delta := if sp.isV1Static then Zero else half;
      var v2Delta := if sp.isV1Static then Scale(Neg(shortenDir), len - maxLen) else Neg(half);
      var a := vs[sp.v1 := Nudge(vs[sp.v1], v1Delta)];
      a[sp.v2 := Nudge(a[sp.v2], v2Delta)]
    else
      vs
  }

  /** The first n springs corrected once each, in array order; rest
      positions and forces are kept. */
  function StretchLimits(vs: seq<Vertex>, springs: seq<Spring>, verticalLimit: real, horizontalLimit: real, h: Host, n: int): (r: seq<Vertex>)
    requires 0 <= n <= |springs| && Endpoints(springs, |vs|)
    ensures |r| == |vs|
    decreases n
  {
    if n == 0 then vs
    else ApplyStretch(StretchLimits(vs, springs, verticalLimit, horizontalLimit, h, n - 1), springs[n - 1], verticalLimit, horizontalLimit, h)
  }

  /** How one correction moves the endpoints: a spring within its limit
      changes nothing; otherwise each endpoint's position and velocity move
      by the same delta, the two deltas together close the gap by exactly the
      excess along the spring's direction, and they are opposite halves for
      a free spring while an anchor-static spring's anchor stays put. No other
      vertex changes. */
  lemma {:induction false} StretchMoves(vs: seq<Vertex>, sp: Spring, verticalLimit: real, horizontalLimit: real, h: Host)
    requires 0 <= sp.v1 < |vs| && 0 <= sp.v2 < |vs| && sp.v1 != sp.v2
    ensures var r := ApplyStretch(vs, sp, verticalLimit, horizontalLimit, h);
      var d := Sub(vs[sp.v2].position, vs[sp.v1].position);
      var maxLen := MaxLength(sp, verticalLimit, horizontalLimit);
      var m1 := Sub(r[sp.v1].position, vs[sp.v1].position);
      var m2 := Sub(r[sp.v2].position, vs[sp.v2].position);
      |r| == |vs| &&
      (forall i :: 0 <= i < |vs| && i != sp.v1 && i != sp.v2 ==> r[i] == vs[i]) &&
      (SqrMagnitude(d) <= maxLen * maxLen ==> r == vs) &&
      (SqrMagnitude(d) > maxLen * maxLen ==>
         r[sp.v1] == Nudge(vs[sp.v1], m1) && r[sp.v2] == Nudge(vs[sp.v2], m2) &&
         Sub(m1, m2) == Scale(Normalized(h, d), Sqrt(h, SqrMagnitude(d)) - maxLen) &&
         (sp.isV1Static ==> m1 == Zero) &&
         (!sp.isV1Static ==> m1 == Neg(m2)))
  {
  }

  /** The vector from a spring's first endpoint to its second. */
  function Span(vs: seq<Vertex>, sp: Spring): Vec3
    requires 0 <= sp.v1 < |vs| && 0 <= sp.v2 < |vs|
  {
    Sub(vs[sp.v2].position, vs[sp.v1].position)
  }

  /** Immediately after its correction an over-long spring points the way it
      did and is exactly maxLen long. */
  lemma {:induction false} StretchReachesLimit(vs: seq<Vertex>, sp: Spring, verticalLimit: real, horizontalLimit: real, h: Host)
    requires Lawful(h)
    requires 0 <= sp.v1 < |vs| && 0 <= sp.v2 < |vs| && sp.v1 != sp.v2
    requires SqrMagnitude(Span(vs, sp)) >
             MaxLength(sp, verticalLimit, horizontalLimit) * MaxLength(sp, verticalLimit, horizontalLimit)
    ensures Span(ApplyStretch(vs, sp, verticalLimit, horizontalLimit, h), sp) ==
            Scale(Normalized(h, Span(vs, sp)), MaxLength(sp, verticalLimit, horizontalLimit))
    ensures SqrMagnitude(Span(ApplyStretch(vs, sp, verticalLimit, horizontalLimit, h), sp)) ==
            MaxLength(sp, verticalLimit, horizontalLimit) * MaxLength(sp, verticalLimit, horizontalLimit)
    ensures 0.0 <= MaxLength(sp, verticalLimit, horizontalLimit) ==>
            Magnitude(h, Span(ApplyStretch(vs, sp, verticalLimit, horizontalLimit, h), sp)) ==
            MaxLength(sp, verticalLimit, horizontalLimit)
  {
    StretchSpan(vs, sp, verticalLimit, horizontalLimit, h);
    ShortenedSpan(h, Span(vs, sp), Span(ApplyStretch(vs, sp, verticalLimit, horizontalLimit, h), sp),
                  MaxLength(sp, verticalLimit, horizontalLimit));
  }

  /** An over-long spring's span shrinks by the excess along its direction. */
  lemma {:induction false} StretchSpan(vs: seq<Vertex>, sp: Spring, verticalLimit: real, horizontalLimit: real, h: Host)
    requires 0 <= sp.v1 < |vs| && 0 <= sp.v2 < |vs| && sp.v1 != sp.v2
    requires SqrMagnitude(Span(vs, sp)) >
             MaxLength(sp, verticalLimit, horizontalLimit) * MaxLength(sp, verticalLimit, horizontalLimit)
    ensures Span(ApplyStretch(vs, sp, verticalLimit, horizontalLimit, h), sp) ==
            Sub(Span(vs, sp), Scale(Normalized(h, Span(vs, sp)),
                                    Sqrt(h, SqrMagnitude(Span(vs, sp))) - MaxLength(sp, verticalLimit, horizontalLimit)))
  {
    var r := ApplyStretch(vs, sp, verticalLimit, horizontalLimit, h);
    StretchMoves(vs, sp, verticalLimit, horizontalLimit, h);
    var p1, p2, q1, q2 := vs[sp.v1].position, vs[sp.v2].position, r[sp.v1].position, r[sp.v2].position;
    assert Sub(q2, q1) == Sub(Sub(p2, p1), Sub(Sub(q1, p1), Sub(q2, p2)));
  }

  /** Shrinking an over-long span d by its excess over maxLen along its own
      direction leaves a span of exactly maxLen in the same direction. */
  lemma {:induction false} ShortenedSpan(h: Host, d: Vec3, after: Vec3, maxLen: real)
    requires Lawful(h)
    requires SqrMagnitude(d) > maxLen * maxLen
    requires after == Sub(d, Scale(Normalized(h, d), Sqrt(h, SqrMagnitude(d)) - maxLen))
    ensures after == Scale(Normalized(h, d), maxLen)
    ensures SqrMagnitude(after) == maxLen * maxLen
    ensures 0.0 <= maxLen ==> Magnitude(h, after) == maxLen
  {
    var n, len := Normalized(h, d), Magnitude(h, d);
    SqrMagnitudeNonNegative(d);
    assert Scale(n, len) == d && SqrMagnitude(n) == 1.0;
    SpanAlong(d, after, n, len, maxLen);
    SqrMagnitudeScale(n, maxLen);
    UnitScaled(maxLen * maxLen, SqrMagnitude(n));
    if 0.0 <= maxLen {
      SqrtOfSquare(h, maxLen);
    }
  }

  lemma {:induction false} SpanAlong(d: Vec3, after: Vec3, n: Vec3, len: real, maxLen: real)
    requires Scale(n, len) == d
    requires after == Sub(d, Scale(n, len - maxLen))
    ensures after == Scale(n, maxLen)
  {
  }

  lemma {:induction false} UnitScaled(c: real, u: real)
    requires u == 1.0
    ensures c * u == c
  {
  }

  /** A vertex no spring may move keeps its state through the stretch pass. */
  lemma {:induction false} StretchLimitsAnchored(vs: seq<Vertex>, springs: seq<Spring>, verticalLimit: real, horizontalLimit: real, h: Host, n: int, i: int)
    requires 0 <= n <= |springs| && Endpoints(springs, |vs|) && Anchored(springs, i) && 0 <= i < |vs|
    ensures StretchLimits(vs, springs, verticalLimit, horizontalLimit, h, n)[i] == vs[i]
  {
    if n > 0 {
      StretchLimitsAnchored(vs, springs, verticalLimit, horizontalLimit, h, n - 1, i);
    }
  }
}
