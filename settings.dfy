/** The inspector settings and the clamps OnValidate applies to them. */
module Settings {
  /** The tunable fields of the component, with their declared defaults
      given by Defaults. */
  datatype Settings = Settings(
    segments: int,
    startingAngle: real,
    inertia: real,
    damping: real,
    shapeStiffness: real,
    elasticity: real,
    verticalStretchLimit: real,
    horizontalStretchLimit: real,
    collisionRadius: real)

  const Defaults: Settings := Settings(8, 22.5, 1.0, 0.1, 0.2, 0.1, 1.1, 2.0, 0.15)

  /** Mathf.Clamp01 */
  function Clamp01(x: real): real {
    if x < 0.0 then 0.0 else if x > 1.0 then 1.0 else x
  }

  /** Mathf.Max for floats and for ints. */
  function MaxReal(a: real, b: real): (m: real)
    ensures a <= m && b <= m && (m == a || m == b)
  {
    if a > b then a else b
  }

  function MaxInt(a: int, b: int): (m: int)
    ensures a <= m && b <= m && (m == a || m == b)
  {
    if a > b then a else b
  }

  /** Clamp01 lands in [0, 1], keeps what is already there and sends
      everything below to 0 and everything above to 1. */
  lemma {:induction false} Clamp01Spec(x: real)
    ensures 0.0 <= Clamp01(x) <= 1.0
    ensures 0.0 <= x <= 1.0 <==> Clamp01(x) == x
    ensures x < 0.0 ==> Clamp01(x) == 0.0
    ensures x > 1.0 ==> Clamp01(x) == 1.0
  {
  }

  /** The ranges OnValidate enforces. */
  predicate InRange(c: Settings) {
    4 <= c.segments &&
    0.0 <= c.inertia <= 1.0 && 0.0 <= c.damping <= 1.0 && 0.0 <= c.elasticity <= 1.0 &&
    0.0 <= c.shapeStiffness &&
    1.0 <= c.verticalStretchLimit && 1.0 <= c.horizontalStretchLimit
  }

  /** The settings after OnValidate's clamps: every clamped field is in its
      range, a field already in range is kept, and the starting angle and the
      collision radius are never touched. */
  function Validated(c: Settings): (r: Settings)
    ensures InRange(r)
    ensures r.startingAngle == c.startingAngle && r.collisionRadius == c.collisionRadius
    ensures 4 <= c.segments ==> r.segments == c.segments
    ensures 0.0 <= c.inertia <= 1.0 ==> r.inertia == c.inertia
    ensures 0.0 <= c.damping <= 1.0 ==> r.damping == c.damping
    ensures 0.0 <= c.elasticity <= 1.0 ==> r.elasticity == c.elasticity
    ensures 0.0 <= c.shapeStiffness ==> r.shapeStiffness == c.shapeStiffness
    ensures 1.0 <= c.verticalStretchLimit ==> r.verticalStretchLimit == c.verticalStretchLimit
    ensures 1.0 <= c.horizontalStretchLimit ==> r.horizontalStretchLimit == c.horizontalStretchLimit
  {
    c.(inertia := Clamp01(c.inertia),
       damping := Clamp01(c.damping),
       segments := MaxInt(c.segments, 4),
       shapeStiffness := MaxReal(c.shapeStiffness, 0.0),
       elasticity := Clamp01(c.elasticity),
       verticalStretchLimit := MaxReal(c.verticalStretchLimit, 1.0),
       horizontalStretchLimit := MaxReal(c.horizontalStretchLimit, 1.0))
  }

  /** Validating changes settings exactly when they are out of range. */
  lemma {:induction false} ValidatedFixedPoints(c: Settings)
    ensures Validated(c) == c <==> InRange(c)
  {
  }

  /** Validating twice is validating once. */
  lemma {:induction false} ValidatedIdempotent(c: Settings)
    ensures Validated(Validated(c)) == Validated(c)
  {
    ValidatedFixedPoints(Validated(c));
  }

  /** The declared defaults are already valid. */
  lemma {:induction false} DefaultsInRange()
    ensures InRange(Defaults) && Validated(Defaults) == Defaults
  {
    ValidatedFixedPoints(Defaults);
  }
}
