/** Unity's Vector3 with exact real components, and the engine services the
    simulation calls but does not define. */
module Vectors {
  /** A three-component vector; IEEE rounding is not modelled. */
  datatype Vec3 = Vec3(x: real, y: real, z: real)

  const Zero: Vec3 := Vec3(0.0, 0.0, 0.0)

  function Add(a: Vec3, b: Vec3): Vec3 { Vec3(a.x + b.x, a.y + b.y, a.z + b.z) }

  function Sub(a: Vec3, b: Vec3): Vec3 { Vec3(a.x - b.x, a.y - b.y, a.z - b.z) }

  function Neg(a: Vec3): Vec3 { Vec3(-a.x, -a.y, -a.z) }

  function Scale(a: Vec3, c: real): Vec3 { Vec3(a.x * c, a.y * c, a.z * c) }

  function Dot(a: Vec3, b: Vec3): real { a.x * b.x + a.y * b.y + a.z * b.z }

  /** Vector3.sqrMagnitude */
  function SqrMagnitude(a: Vec3): real { Dot(a, a) }

  /** Vector3.Cross */
  function Cross(a: Vec3, b: Vec3): Vec3 {
    Vec3(a.y * b.z - a.z * b.y, a.z * b.x - a.x * b.z, a.x * b.y - a.y * b.x)
  }

  /** (a + b) * 0.5f */
  function Midpoint(a: Vec3, b: Vec3): Vec3 { Scale(Add(a, b), 0.5) }

  lemma {:induction false} SqrMagnitudeNonNegative(a: Vec3)
    ensures 0.0 <= SqrMagnitude(a)
  {
    assert 0.0 <= a.x * a.x && 0.0 <= a.y * a.y && 0.0 <= a.z * a.z;
  }

  lemma {:induction false} SqrMagnitudeScale(a: Vec3, c: real)
    ensures SqrMagnitude(Scale(a, c)) == c * c * SqrMagnitude(a)
  {
    calc {
      SqrMagnitude(Scale(a, c));
      (a.x * c) * (a.x * c) + (a.y * c) * (a.y * c) + (a.z * c) * (a.z * c);
      c * c * (a.x * a.x + a.y * a.y + a.z * a.z);
    }
  }
}

/** What the simulation asks of the Unity engine, as uninterpreted functions. */
module Engine {
  import opened Vectors

  /** A scene Transform, by identity. */
  type Bone = nat

  /** An entry of the collider list, by identity; its pose is known to the engine. */
  type Collider = nat

  datatype Option<T> = None | Some(value: T)

  /** The helper capsule handed to Physics.ComputePenetration: its centre, the
      two vectors its Quaternion.LookRotation is built from, radius and height. */
  datatype Capsule = Capsule(center: Vec3, forward: Vec3, up: Vec3, radius: real, height: real)

  /** The result of Physics.ComputePenetration: whether they overlap, and the
      separating direction and distance. */
  datatype Penetration = Penetration(collided: bool, direction: Vec3, distance: real)

  /** The engine services one call sees. */
  datatype Host = Host(
    transformPoint: Vec3 -> Vec3,                      // rootTransform.TransformPoint
    sqrt: real -> real,                                // Mathf.Sqrt
    normalize: Vec3 -> Vec3,                           // Vector3.normalized
    cos: real -> real,                                 // Mathf.Cos
    sin: real -> real,                                 // Mathf.Sin
    computePenetration: (Capsule, Collider) -> Penetration,
    bonePosition: Bone -> Vec3,                        // Transform.position
    childCount: Bone -> nat,                           // Transform.childCount
    firstChild: Bone -> Option<Bone>)                  // GetChild(0).GetComponent<Transform>()

  function Sqrt(h: Host, x: real): real { h.sqrt(x) }

  /** Vector3.magnitude */
  function Magnitude(h: Host, v: Vec3): real { Sqrt(h, SqrMagnitude(v)) }

  function Normalized(h: Host, v: Vec3): Vec3 { h.normalize(v) }

  /** The only facts about the numeric services that proofs rely on. */
  ghost predicate Lawful(h: Host) {
    (forall x: real :: 0.0 <= x ==> 0.0 <= Sqrt(h, x) && Sqrt(h, x) * Sqrt(h, x) == x) &&
    (forall v: Vec3 {:trigger Normalized(h, v)} :: 0.0 < SqrMagnitude(v) ==>
       SqrMagnitude(Normalized(h, v)) == 1.0 && Scale(Normalized(h, v), Magnitude(h, v)) == v)
  }

  /** A lawful square root is the non-negative root. */
  lemma {:induction false} SqrtOfSquare(h: Host, m: real)
    requires Lawful(h) && 0.0 <= m
    ensures Sqrt(h, m * m) == m
  {
    var s := Sqrt(h, m * m);
    assert 0.0 <= s && s * s == m * m;
    NonNegativeRootUnique(s, m);
  }

  lemma {:induction false} NonNegativeRootUnique(s: real, m: real)
    requires 0.0 <= s && 0.0 <= m && s * s == m * m
    ensures s == m
  {
    assert (s + m) * (s - m) == 0.0;
    ZeroProduct(s + m, s - m);
  }

  lemma {:induction false} ZeroProduct(a: real, b: real)
    requires a * b == 0.0
    ensures a == 0.0 || b == 0.0
  {
  }
}
