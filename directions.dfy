/** The six hexagonal growth offsets, built once per run. */
module Directions {
  import opened Geometry
  import opened Config

  /** StepSize along the horizontal direction at `angle` degrees from +X. */
  function Offset(o: Oracle, angle: real): Vec3 {
    Vec3(StepSize * o.cosDeg(angle), StepSize * o.sinDeg(angle), 0.0)
  }

  /** The offsets in the order the sensing loop visits them: 0, 60, ..., 300 degrees. */
  function Offsets(o: Oracle): (r: seq<Vec3>)
    ensures |r| == DirectionCount
    ensures forall k :: 0 <= k < |r| ==> r[k].z == 0.0
  {
    [Offset(o, 0.0), Offset(o, 60.0), Offset(o, 120.0),
     Offset(o, 180.0), Offset(o, 240.0), Offset(o, 300.0)]
  }

  /** Builds the offset table one direction at a time. */
  method GrowthDirections(o: Oracle) returns (dirs: seq<Vec3>)
    ensures |dirs| == DirectionCount
    ensures dirs == Offsets(o)
  {
    dirs := [];
    for i := 0 to DirectionCount
      invariant |dirs| == i
      invariant forall k :: 0 <= k < i ==> dirs[k] == Offset(o, (k as real) * DirectionStepDeg)
    {
      var angle := (i as real) * DirectionStepDeg;
      var v := Vec3(o.cosDeg(angle), o.sinDeg(angle), 0.0);
      v := Scale(StepSize, v);
      dirs := dirs + [v];
    }
  }

  /**
   * The oracle's trigonometry is exact at the six multiples of 60 degrees,
   * with sin 60 the positive square root of 3/4.
   */
  predicate ExactTrig(o: Oracle) {
    var h := o.sinDeg(60.0);
    h > 0.0 && h * h == 0.75 &&
    o.cosDeg(0.0) == 1.0 && o.sinDeg(0.0) == 0.0 &&
    o.cosDeg(60.0) == 0.5 &&
    o.cosDeg(120.0) == -0.5 && o.sinDeg(120.0) == h &&
    o.cosDeg(180.0) == -1.0 && o.sinDeg(180.0) == 0.0 &&
    o.cosDeg(240.0) == -0.5 && o.sinDeg(240.0) == -h &&
    o.cosDeg(300.0) == 0.5 && o.sinDeg(300.0) == -h
  }

  /**
   * Side k of the hexagon: offset k is horizontal, has length StepSize, and
   * the next offset (cyclically) is 60 degrees counter-clockwise from it
   * (cosine 1/2, positive turn).
   */
  predicate HexSide(d: seq<Vec3>, k: nat)
    requires k < |d|
  {
    var u, v := d[k], d[(k + 1) % |d|];
    u.z == 0.0 && Dot(u, u) == StepSize * StepSize &&
    Dot(u, v) == StepSize * StepSize / 2.0 && u.x * v.y - u.y * v.x > 0.0
  }

  /**
   * With exact trigonometry the offsets form a regular hexagon in the
   * horizontal plane whose first vertex lies on +X.
   */
  lemma HexagonShape(o: Oracle)
    requires ExactTrig(o)
    ensures Offsets(o)[0] == Vec3(StepSize, 0.0, 0.0)
    ensures forall k :: 0 <= k < DirectionCount ==> HexSide(Offsets(o), k)
  {
  }
}
