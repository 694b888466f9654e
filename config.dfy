/** The solver's fixed parameters; the source hard-codes them and validates none. */
module Config {
  import opened Geometry

  /** Steepest terrain, in degrees from the vertical, a module may stand on. */
  const MaxSlopeDeg: real := 30.0
  /** Nominal spacing between modules. */
  const MinDist: real := 3.0
  /** Subtractive margin applied to the spacing test. */
  const Tolerance: real := 0.1
  /** Length of one growth arm. */
  const StepSize: real := 3.5
  /** Sun direction before normalisation. */
  const SunRaw: Vec3 := Vec3(0.0, -3.0, 0.5)
  /** Search radius used to ground the seed. */
  const SeedRadius: real := 1000000.0
  /** Search radius used to ground each growth candidate. */
  const SenseRadius: real := 1000.0
  /** Number of hexagonal growth directions. */
  const DirectionCount: nat := 6
  /** Angle between consecutive growth directions, in degrees. */
  const DirectionStepDeg: real := 60.0
  /** Default attempt budget of the entry point. */
  const DefaultMaxModules: nat := 147

  /** The spacing actually enforced: a candidate closer than this collides. */
  const Clearance: real := MinDist - Tolerance
}
