/**
 * Sensing and constraint filtering: each hexagonal neighbour of the cursor
 * is grounded on the terrain and kept only if it is not too steep and not
 * too close to a module already placed.
 */
module Constraints {
  import opened Wrappers
  import opened Geometry
  import opened Config

  /** The slope test: the surface normal leans more than MaxSlopeDeg from +Z. */
  predicate Steep(o: Oracle, h: Hit) {
    o.angleDeg(h.normal, ZAxis) > MaxSlopeDeg
  }

  /**
   * The collision test: some module lies strictly closer than Clearance to q.
   * Squared distances are compared; since both sides are non-negative this is
   * the same as comparing the distances themselves.
   */
  predicate TooClose(colony: seq<Vec3>, q: Vec3) {
    exists j :: 0 <= j < |colony| && Dist2(q, colony[j]) < Clearance * Clearance
  }

  /** For non-negative d, d < Clearance exactly when d * d < Clearance * Clearance. */
  lemma SquaredComparison(d: real)
    requires d >= 0.0
    ensures d < Clearance <==> d * d < Clearance * Clearance
  {
    assert Clearance * Clearance == 8.41;
    if d < Clearance {
      MulMono(d, d, 2.9);
    } else {
      MulMono(d, 2.9, d);
    }
  }

  /** Multiplying by a non-negative factor preserves order. */
  lemma MulMono(k: real, a: real, b: real)
    requires k >= 0.0 && a <= b
    ensures k * a <= k * b
  {
  }

  /** dist is Euclidean distance: never negative, and its square is Dist2. */
  ghost predicate IsDistance(dist: (Vec3, Vec3) -> real) {
    forall p, q :: dist(p, q) >= 0.0 && dist(p, q) * dist(p, q) == Dist2(p, q)
  }

  /** For a true distance, p and q are closer than Clearance exactly when Dist2 is below its square. */
  lemma DistanceBelow(dist: (Vec3, Vec3) -> real, p: Vec3, q: Vec3)
    requires IsDistance(dist)
    ensures dist(p, q) < Clearance <==> Dist2(p, q) < Clearance * Clearance
  {
    var d := dist(p, q);
    assert d >= 0.0 && d * d == Dist2(p, q);
    SquaredComparison(d);
  }

  /**
   * Stated with the distance itself: q is too close exactly when some module
   * lies strictly closer than Clearance, the test DistanceTo(...) < 2.9.
   */
  lemma TooCloseByDistance(dist: (Vec3, Vec3) -> real, colony: seq<Vec3>, q: Vec3)
    requires IsDistance(dist)
    ensures TooClose(colony, q) <==> exists j :: 0 <= j < |colony| && dist(q, colony[j]) < Clearance
  {
    forall j | 0 <= j < |colony|
      ensures dist(q, colony[j]) < Clearance <==> Dist2(q, colony[j]) < Clearance * Clearance
    {
      DistanceBelow(dist, q, colony[j]);
    }
  }

  /** Grounds one raw candidate and applies the slope and spacing tests. */
  function Evaluate(o: Oracle, colony: seq<Vec3>, raw: Vec3): Option<Vec3> {
    match o.project(raw, SenseRadius)
    case None => None
    case Some(h) =>
      if Steep(o, h) || TooClose(colony, h.point) then None else Some(h.point)
  }

  /**
   * q is what the terrain gives for the raw point origin + d, and the ground
   * there passes the slope test.
   */
  predicate GroundedFrom(o: Oracle, origin: Vec3, d: Vec3, q: Vec3) {
    var r := o.project(Add(origin, d), SenseRadius);
    r.Some? && r.value.point == q && !Steep(o, r.value)
  }

  /** The accepted candidates around the cursor, in direction order. */
  function Survivors(o: Oracle, colony: seq<Vec3>, cursor: Vec3, offsets: seq<Vec3>): (r: seq<Vec3>)
    ensures |r| <= |offsets|
  {
    if offsets == [] then []
    else
      var before := Survivors(o, colony, cursor, offsets[..|offsets| - 1]);
      match Evaluate(o, colony, Add(cursor, offsets[|offsets| - 1]))
      case None => before
      case Some(q) => before + [q]
  }

  /**
   * Every survivor is grounded from the cursor along one of the offsets,
   * passed the slope test and keeps its distance from the whole colony;
   * conversely every offset whose candidate passes both tests yields a
   * survivor.
   */
  lemma {:induction false} SurvivorsExact(o: Oracle, colony: seq<Vec3>, cursor: Vec3, offsets: seq<Vec3>)
    ensures forall c :: 0 <= c < |Survivors(o, colony, cursor, offsets)| ==>
      var q := Survivors(o, colony, cursor, offsets)[c];
      !TooClose(colony, q) &&
      exists t :: 0 <= t < |offsets| && GroundedFrom(o, cursor, offsets[t], q)
    ensures forall t :: 0 <= t < |offsets| && Evaluate(o, colony, Add(cursor, offsets[t])).Some? ==>
      Evaluate(o, colony, Add(cursor, offsets[t])).value in Survivors(o, colony, cursor, offsets)
  {
    if offsets != [] {
      var n := |offsets| - 1;
      var init := offsets[..n];
      SurvivorsExact(o, colony, cursor, init);
      var before := Survivors(o, colony, cursor, init);
      var r := Survivors(o, colony, cursor, offsets);
      assert before <= r;
      forall c | 0 <= c < |r|
        ensures !TooClose(colony, r[c]) && exists t :: 0 <= t < |offsets| && GroundedFrom(o, cursor, offsets[t], r[c])
      {
        if c < |before| {
          var t :| 0 <= t < |init| && GroundedFrom(o, cursor, init[t], before[c]);
          assert offsets[t] == init[t];
        } else {
          assert GroundedFrom(o, cursor, offsets[n], r[c]);
        }
      }
      forall t | 0 <= t < |offsets| && Evaluate(o, colony, Add(cursor, offsets[t])).Some?
        ensures Evaluate(o, colony, Add(cursor, offsets[t])).value in r
      {
        if t < n {
          assert offsets[t] == init[t];
        }
      }
    }
  }

  /** The sensing step is blocked exactly when every direction is rejected. */
  lemma {:induction false} SurvivorsEmpty(o: Oracle, colony: seq<Vec3>, cursor: Vec3, offsets: seq<Vec3>)
    ensures Survivors(o, colony, cursor, offsets) == [] <==>
      forall t :: 0 <= t < |offsets| ==> Evaluate(o, colony, Add(cursor, offsets[t])).None?
  {
    SurvivorsExact(o, colony, cursor, offsets);
    if offsets != [] {
      var n := |offsets| - 1;
      SurvivorsEmpty(o, colony, cursor, offsets[..n]);
      if Survivors(o, colony, cursor, offsets) == [] {
        forall t | 0 <= t < |offsets|
          ensures Evaluate(o, colony, Add(cursor, offsets[t])).None?
        {
          if t < n {
            assert offsets[t] == offsets[..n][t];
          }
        }
      }
    }
  }

  /** The collision scan over the colony, stopping at the first module too close. */
  method CheckCollision(colony: seq<Vec3>, q: Vec3) returns (collision: bool)
    ensures collision <==> TooClose(colony, q)
  {
    collision := false;
    var j := 0;
    while j < |colony|
      invariant 0 <= j <= |colony|
      invariant !collision <==> forall k :: 0 <= k < j ==> Dist2(q, colony[k]) >= Clearance * Clearance
      invariant collision ==> TooClose(colony, q)
    {
      if Dist2(q, colony[j]) < Clearance * Clearance {
        collision := true;
        break;
      }
      j := j + 1;
    }
  }

  /** The sensing loop: tries every offset from the cursor and keeps the survivors. */
  method Sense(o: Oracle, offsets: seq<Vec3>, colony: seq<Vec3>, cursor: Vec3) returns (candidates: seq<Vec3>)
    ensures candidates == Survivors(o, colony, cursor, offsets)
  {
    candidates := [];
    var t := 0;
    while t < |offsets|
      invariant 0 <= t <= |offsets|
      invariant candidates == Survivors(o, colony, cursor, offsets[..t])
    {
      var testPoint := Add(cursor, offsets[t]);
      var check := o.project(testPoint, SenseRadius);
      if check.Some? {
        var candPoint := check.value.point;
        var slope := o.angleDeg(check.value.normal, ZAxis);
        if slope <= MaxSlopeDeg {
          var collision := CheckCollision(colony, candPoint);
          if !collision {
            candidates := candidates + [candPoint];
          }
        }
      }
      assert offsets[..t + 1][..t] == offsets[..t];
      t := t + 1;
    }
    assert offsets[..t] == offsets;
  }
}
