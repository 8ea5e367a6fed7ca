/** Binding the skinned mesh bones to the grid (GenerateBones): each mesh
    bone picks the ring-0 segment whose midpoint is nearest to it, then its
    chain of first children is bound, one ring per bone, to the quads below
    that segment; finally each binding records the bone's offset from its
    quad's top edge. */
module Bones {
  import opened Vectors
  import opened Engine
  import opened Grid

  /** A 2x2 block of vertex indices, anchors[row, column] of a SkirtBone. */
  datatype Quad = Quad(a00: int, a01: int, a10: int, a11: int)

  /** SkirtBone without its rotation: the bone, its anchor quad and the
      position offset recorded at binding time. */
  datatype Binding = Binding(bone: Bone, anchors: Quad, offset: Vec3)

  /** The quad between rings r and r + 1 over segments s0 and s1. */
  function QuadAt(r: int, s0: int, s1: int, segments: int): Quad {
    Quad(Idx(r, s0, segments), Idx(r, s1, segments), Idx(r + 1, s0, segments), Idx(r + 1, s1, segments))
  }

  predicate QuadIn(q: Quad, n: int) {
    0 <= q.a00 < n && 0 <= q.a01 < n && 0 <= q.a10 < n && 0 <= q.a11 < n
  }

  lemma {:induction false} QuadAtInGrid(r: int, s0: int, s1: int, rows: int, segments: int)
    requires 0 <= r < rows - 1 && 0 <= s0 < segments && 0 <= s1 < segments
    ensures QuadIn(QuadAt(r, s0, s1, segments), rows * segments)
  {
    IdxInGrid(r, s0, rows, segments);
    IdxInGrid(r, s1, rows, segments);
    IdxInGrid(r + 1, s0, rows, segments);
    IdxInGrid(r + 1, s1, rows, segments);
  }

  // ---------------------------------------------------------------------
  // Segment choice (lines 257-267)

  /** The midpoint of ring-0 segment s, from vertex s to its successor. */
  function SegmentCenter(vs: seq<Vertex>, s: int, segments: int): Vec3
    requires 0 <= s < segments <= |vs|
  {
    Midpoint(vs[s].position, vs[(s + 1) % segments].position)
  }

  /** Squared distance from p to that midpoint. */
  function CenterDistance(vs: seq<Vertex>, p: Vec3, s: int, segments: int): real
    requires 0 <= s < segments <= |vs|
  {
    SqrMagnitude(Sub(p, SegmentCenter(vs, s, segments)))
  }

  /** The segment the scan over segments 1 .. n - 1 settles on, starting from
      segment 0: a later segment replaces the best so far only when strictly
      nearer. */
  function Nearest(vs: seq<Vertex>, p: Vec3, segments: int, n: int): (best: int)
    requires 2 <= segments <= |vs| && 1 <= n <= segments
    ensures 0 <= best < n
    decreases n
  {
    if n == 1 then 0
    else
      var b := Nearest(vs, p, segments, n - 1);
      if CenterDistance(vs, p, n - 1, segments) < CenterDistance(vs, p, b, segments) then n - 1 else b
  }

  /** The scan's choice is a nearest segment among the first n, and every
      earlier segment is strictly farther, so ties go to the lowest index. */
  lemma {:induction false} NearestIsArgmin(vs: seq<Vertex>, p: Vec3, segments: int, n: int)
    requires 2 <= segments <= |vs| && 1 <= n <= segments
    ensures var best := Nearest(vs, p, segments, n);
      (forall t :: 0 <= t < n ==> CenterDistance(vs, p, best, segments) <= CenterDistance(vs, p, t, segments)) &&
      (forall t :: 0 <= t < best ==> CenterDistance(vs, p, best, segments) < CenterDistance(vs, p, t, segments))
    decreases n
  {
    if n > 1 {
      NearestIsArgmin(vs, p, segments, n - 1);
    }
  }

  /** One more step of the scan: segment n replaces the best of the first n
      exactly when it is strictly nearer. */
  lemma {:induction false} NearestStep(vs: seq<Vertex>, p: Vec3, segments: int, n: int)
    requires 2 <= segments <= |vs| && 1 <= n < segments
    ensures var b := Nearest(vs, p, segments, n);
      Nearest(vs, p, segments, n + 1) ==
        if CenterDistance(vs, p, n, segments) < CenterDistance(vs, p, b, segments) then n else b
  {
  }

  // ---------------------------------------------------------------------
  // Chain walk (lines 269-282)

  /** child is what GetChild(0).GetComponent<Transform>() gives for parent. */
  predicate ChildOf(h: Host, parent: Bone, child: Bone) {
    0 < h.childCount(parent) && h.firstChild(parent) == Some(child)
  }

  /** Each binding's bone is its predecessor's child. */
  predicate Walk(h: Host, bs: seq<Binding>)
    decreases |bs|
  {
    |bs| <= 1 || (ChildOf(h, bs[0].bone, bs[1].bone) && Walk(h, bs[1..]))
  }

  /** The bindings made from ring r on for bone and its chain of first
      children: one per ring while a lower ring remains, stopping after a
      bone without children or whose first child has no Transform. Each
      lies on the grid. */
  function Chain(bone: Bone, r: int, rows: int, s0: int, s1: int, segments: int, h: Host): (bs: seq<Binding>)
    requires 0 <= r && 0 <= s0 < segments && 0 <= s1 < segments
    ensures |bs| <= if r < rows - 1 then rows - 1 - r else 0
    ensures r < rows - 1 ==> 1 <= |bs| && bs[0].bone == bone
    decreases rows - r
  {
    if r >= rows - 1 then []
    else
      var here := Binding(bone, QuadAt(r, s0, s1, segments), Zero);
      if h.childCount(bone) == 0 then [here]
      else match h.firstChild(bone) {
        case None => [here]
        case Some(child) => [here] + Chain(child, r + 1, rows, s0, s1, segments, h)
      }
  }

  /** The q-th binding of a chain started on ring r sits on the quad of ring
      r + q and has no offset yet. */
  lemma {:induction false} ChainAnchorAt(bone: Bone, r: int, rows: int, s0: int, s1: int, segments: int, h: Host, q: int)
    requires 0 <= r && 0 <= s0 < segments && 0 <= s1 < segments
    requires 0 <= q < |Chain(bone, r, rows, s0, s1, segments, h)|
    ensures Chain(bone, r, rows, s0, s1, segments, h)[q].anchors == QuadAt(r + q, s0, s1, segments)
    ensures Chain(bone, r, rows, s0, s1, segments, h)[q].offset == Zero
    decreases q
  {
    if 0 < q {
      var child := h.firstChild(bone).value;
      ChainAnchorAt(child, r + 1, rows, s0, s1, segments, h, q - 1);
      assert r + q == (r + 1) + (q - 1);
    }
  }

  /** Every binding of a chain lies on the grid. */
  lemma {:induction false} ChainOnGrid(bone: Bone, r: int, rows: int, s0: int, s1: int, segments: int, h: Host)
    requires 0 <= r && 0 <= s0 < segments && 0 <= s1 < segments
    ensures var bs := Chain(bone, r, rows, s0, s1, segments, h);
      forall q :: 0 <= q < |bs| ==> QuadIn(bs[q].anchors, rows * segments)
  {
    var bs := Chain(bone, r, rows, s0, s1, segments, h);
    forall q | 0 <= q < |bs|
      ensures QuadIn(bs[q].anchors, rows * segments)
    {
      ChainAnchorAt(bone, r, rows, s0, s1, segments, h, q);
      QuadAtInGrid(r + q, s0, s1, rows, segments);
    }
  }

  /** Each bone of a chain is its predecessor's child, and the walk ends on
      the last ring pair or at a bone with no usable child. */
  lemma {:induction false} ChainWalk(bone: Bone, r: int, rows: int, s0: int, s1: int, segments: int, h: Host)
    requires 0 <= r && 0 <= s0 < segments && 0 <= s1 < segments
    ensures var bs := Chain(bone, r, rows, s0, s1, segments, h);
      Walk(h, bs) &&
      (0 < |bs| ==>
         var last := bs[|bs| - 1].bone;
         r + |bs| == rows - 1 || h.childCount(last) == 0 || h.firstChild(last).None?)
    decreases rows - r
  {
    if r < rows - 1 && h.childCount(bone) != 0 && h.firstChild(bone).Some? {
      var child := h.firstChild(bone).value;
      ChainWalk(child, r + 1, rows, s0, s1, segments, h);
      var rest := Chain(child, r + 1, rows, s0, s1, segments, h);
      var bs := Chain(bone, r, rows, s0, s1, segments, h);
      assert bs == [Binding(bone, QuadAt(r, s0, s1, segments), Zero)] + rest;
      assert bs[1..] == rest;
      if 0 < |rest| {
        assert rest[0].bone == child;
        assert bs[|bs| - 1] == rest[|rest| - 1];
      }
    }
  }

  /** The bindings one mesh bone contributes. */
  function BoneBindings(vs: seq<Vertex>, bone: Bone, rows: int, segments: int, h: Host): seq<Binding>
    requires 2 <= segments <= |vs|
  {
    var s0 := Nearest(vs, h.bonePosition(bone), segments, segments);
    Chain(bone, 0, rows, s0, (s0 + 1) % segments, segments, h)
  }

  /** The bindings of the first n mesh bones, in order. */
  function AllBindings(vs: seq<Vertex>, meshBones: seq<Bone>, rows: int, segments: int, h: Host, n: int): seq<Binding>
    requires 2 <= segments <= |vs| && 0 <= n <= |meshBones|
    decreases n
  {
    if n == 0 then []
    else AllBindings(vs, meshBones, rows, segments, h, n - 1) + BoneBindings(vs, meshBones[n - 1], rows, segments, h)
  }

  /** One more mesh bone appends its chain below its nearest segment. */
  lemma {:induction false} AllBindingsStep(vs: seq<Vertex>, meshBones: seq<Bone>, rows: int, segments: int, h: Host, n: int, s0: int)
    requires 2 <= segments <= |vs| && 0 <= n < |meshBones|
    requires s0 == Nearest(vs, h.bonePosition(meshBones[n]), segments, segments)
    ensures AllBindings(vs, meshBones, rows, segments, h, n + 1) ==
      AllBindings(vs, meshBones, rows, segments, h, n) + Chain(meshBones[n], 0, rows, s0, (s0 + 1) % segments, segments, h)
  {
  }

  /** Every binding lies on the grid. */
  lemma {:induction false} AllBindingsOnGrid(vs: seq<Vertex>, meshBones: seq<Bone>, rows: int, segments: int, h: Host, n: int)
    requires 2 <= segments <= |vs| && |vs| == rows * segments && 0 <= n <= |meshBones|
    ensures forall i :: 0 <= i < |AllBindings(vs, meshBones, rows, segments, h, n)| ==>
      QuadIn(AllBindings(vs, meshBones, rows, segments, h, n)[i].anchors, |vs|)
  {
    if n > 0 {
      var prev := AllBindings(vs, meshBones, rows, segments, h, n - 1);
      var mine := BoneBindings(vs, meshBones[n - 1], rows, segments, h);
      AllBindingsOnGrid(vs, meshBones, rows, segments, h, n - 1);
      var s0 := Nearest(vs, h.bonePosition(meshBones[n - 1]), segments, segments);
      assert mine == Chain(meshBones[n - 1], 0, rows, s0, (s0 + 1) % segments, segments, h);
      ChainOnGrid(meshBones[n - 1], 0, rows, s0, (s0 + 1) % segments, segments, h);
      var all := AllBindings(vs, meshBones, rows, segments, h, n);
      assert all == prev + mine;
      forall i | 0 <= i < |all|
        ensures QuadIn(all[i].anchors, |vs|)
      {
        if i < |prev| {
          assert all[i] == prev[i];
        } else {
          assert all[i] == mine[i - |prev|];
        }
      }
    }
  }

  /** The m_bones list GenerateBones leaves: every mesh bone's chain bound,
      then every binding calibrated against the grid. */
  function GeneratedBones(vs: seq<Vertex>, meshBones: seq<Bone>, rows: int, segments: int, h: Host): seq<Binding>
    requires 2 <= segments <= |vs| && |vs| == rows * segments
  {
    AllBindingsOnGrid(vs, meshBones, rows, segments, h, |meshBones|);
    Calibrated(AllBindings(vs, meshBones, rows, segments, h, |meshBones|), vs, h)
  }

  /** On a grid of at least two rings, each mesh bone yields between one and
      rows - 1 bindings, bound to consecutive quads below its nearest segment. */
  lemma {:induction false} BoneBindingsShape(vs: seq<Vertex>, bone: Bone, rows: int, segments: int, h: Host)
    requires 2 <= segments <= |vs| && 2 <= rows
    ensures var bs := BoneBindings(vs, bone, rows, segments, h);
      var s0 := Nearest(vs, h.bonePosition(bone), segments, segments);
      1 <= |bs| <= rows - 1 && bs[0].bone == bone &&
      forall q :: 0 <= q < |bs| ==> bs[q].anchors == QuadAt(q, s0, (s0 + 1) % segments, segments)
  {
    var s0 := Nearest(vs, h.bonePosition(bone), segments, segments);
    var bs := BoneBindings(vs, bone, rows, segments, h);
    forall q | 0 <= q < |bs|
      ensures bs[q].anchors == QuadAt(q, s0, (s0 + 1) % segments, segments)
    {
      ChainAnchorAt(bone, 0, rows, s0, (s0 + 1) % segments, segments, h, q);
    }
  }

  /** So n mesh bones give between n and n * (rows - 1) bindings. */
  lemma {:induction false} AllBindingsCount(vs: seq<Vertex>, meshBones: seq<Bone>, rows: int, segments: int, h: Host, n: int)
    requires 2 <= segments <= |vs| && |vs| == rows * segments && 0 <= n <= |meshBones| && 2 <= rows
    ensures n <= |AllBindings(vs, meshBones, rows, segments, h, n)| <= n * (rows - 1)
  {
    if n > 0 {
      var prev := AllBindings(vs, meshBones, rows, segments, h, n - 1);
      var mine := BoneBindings(vs, meshBones[n - 1], rows, segments, h);
      assert |AllBindings(vs, meshBones, rows, segments, h, n)| == |prev| + |mine|;
      AllBindingsCount(vs, meshBones, rows, segments, h, n - 1);
      assert 1 <= |mine| <= rows - 1 by {
        BoneBindingsShape(vs, meshBones[n - 1], rows, segments, h);
      }
      CountStep(|prev|, |mine|, n, rows - 1);
    }
  }

  lemma {:induction false} CountStep(a: int, b: int, n: int, k: int)
    requires a <= (n - 1) * k && b <= k
    ensures a + b <= n * k
  {
    assert (n - 1) * k + k == n * k;
  }

  // ---------------------------------------------------------------------
  // Offsets (lines 285-291)

  /** The position half of GetSegmentOrientation: the midpoint of the quad's top edge. */
  function SegmentPosition(vs: seq<Vertex>, q: Quad): Vec3
    requires QuadIn(q, |vs|)
  {
    Midpoint(vs[q.a00].position, vs[q.a01].position)
  }

  /** Every binding records its bone's offset from its quad, so that placing
      the bone at quad position plus offset, as LateUpdate does, puts it back
      exactly where it was while the grid keeps this pose. Bones and anchors
      are kept. */
  function Calibrated(bs: seq<Binding>, vs: seq<Vertex>, h: Host): (r: seq<Binding>)
    requires forall i :: 0 <= i < |bs| ==> QuadIn(bs[i].anchors, |vs|)
    ensures |r| == |bs|
    ensures forall i :: 0 <= i < |bs| ==>
      r[i].bone == bs[i].bone && r[i].anchors == bs[i].anchors &&
      Add(SegmentPosition(vs, r[i].anchors), r[i].offset) == h.bonePosition(r[i].bone)
  {
    seq(|bs|, i requires 0 <= i < |bs| =>
      bs[i].(offset := Sub(h.bonePosition(bs[i].bone), SegmentPosition(vs, bs[i].anchors))))
  }
}
