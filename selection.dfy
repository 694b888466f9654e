/**
 * Heliotropic selection: among the surviving candidates, the one whose growth
 * direction is best aligned with the sun wins; the first of equal scores wins.
 */
module Selection {
  import opened Wrappers
  import opened Geometry
  import opened Config

  /** The score a candidate must beat before any candidate has been chosen. */
  const Sentinel: real := -999.0

  /** Alignment of the growth direction cursor -> cand with the sun direction. */
  function Score(o: Oracle, cand: Vec3, cursor: Vec3): real {
    Dot(o.unitize(Sub(cand, cursor)), o.unitize(SunRaw))
  }

  /** The zero vector, the one vector Unitize cannot scale to length 1. */
  const Zero: Vec3 := Vec3(0.0, 0.0, 0.0)

  /** Unitize turns every non-zero vector into a unit vector. */
  ghost predicate Unitizes(o: Oracle) {
    forall v :: v != Zero ==> Dot(o.unitize(v), o.unitize(v)) == 1.0
  }

  /** The dot product of two unit vectors lies in [-1, 1]. */
  lemma UnitDotRange(u: Vec3, v: Vec3)
    requires Dot(u, u) == 1.0 && Dot(v, v) == 1.0
    ensures -1.0 <= Dot(u, v) <= 1.0
  {
    var d, e := Sub(u, v), Add(u, v);
    assert d.x * d.x >= 0.0 && d.y * d.y >= 0.0 && d.z * d.z >= 0.0;
    assert e.x * e.x >= 0.0 && e.y * e.y >= 0.0 && e.z * e.z >= 0.0;
    assert Dot(d, d) == 2.0 - 2.0 * Dot(u, v);
    assert Dot(e, e) == 2.0 + 2.0 * Dot(u, v);
  }

  /**
   * A candidate away from the cursor scores between -1 (growing away from the
   * sun) and 1 (growing straight towards it), so it always beats the sentinel.
   */
  lemma ScoreRange(o: Oracle, cand: Vec3, cursor: Vec3)
    requires Unitizes(o)
    requires cand != cursor
    ensures -1.0 <= Score(o, cand, cursor) <= 1.0
  {
    var g := Sub(cand, cursor);
    assert g != Zero;
    UnitDotRange(o.unitize(g), o.unitize(SunRaw));
  }

  /** The scores of the candidates, in candidate order. */
  function Scores(o: Oracle, cursor: Vec3, cands: seq<Vec3>): (r: seq<real>)
    ensures |r| == |cands|
    ensures Unitizes(o) && (forall k :: 0 <= k < |cands| ==> cands[k] != cursor) ==>
      forall k :: 0 <= k < |cands| ==> -1.0 <= r[k] <= 1.0
  {
    var r := seq(|cands|, k requires 0 <= k < |cands| => Score(o, cands[k], cursor));
    assert Unitizes(o) && (forall k :: 0 <= k < |cands| ==> cands[k] != cursor) ==>
      forall k :: 0 <= k < |cands| ==> -1.0 <= r[k] <= 1.0
    by {
      if Unitizes(o) && (forall k :: 0 <= k < |cands| ==> cands[k] != cursor) {
        forall k | 0 <= k < |cands| {
          ScoreRange(o, cands[k], cursor);
        }
      }
    }
    r
  }

  /**
   * k is the winner: its score beats the sentinel, is at least every score,
   * and is strictly above every score before it.
   */
  predicate IsFirstMax(scores: seq<real>, k: nat) {
    k < |scores| && Sentinel < scores[k] &&
    (forall j :: 0 <= j < |scores| ==> scores[j] <= scores[k]) &&
    (forall j :: 0 <= j < k ==> scores[j] < scores[k])
  }

  /**
   * The running strict maximum, scanned left to right from the sentinel:
   * the index the selection loop ends with.
   */
  function FirstMax(scores: seq<real>): (r: Option<nat>)
    ensures r.Some? ==> r.value < |scores|
  {
    if scores == [] then None
    else
      var n := |scores| - 1;
      var prev := FirstMax(scores[..n]);
      var bar := if prev.Some? then scores[prev.value] else Sentinel;
      if scores[n] > bar then Some(n) else prev
  }

  /**
   * The scan picks exactly the first maximum, and picks nothing exactly when
   * no score beats the sentinel.
   */
  lemma {:induction false} FirstMaxSpec(scores: seq<real>)
    ensures forall k: nat :: FirstMax(scores) == Some(k) <==> IsFirstMax(scores, k)
    ensures FirstMax(scores) == None <==> forall j :: 0 <= j < |scores| ==> scores[j] <= Sentinel
  {
    if scores != [] {
      var n := |scores| - 1;
      var init := scores[..n];
      FirstMaxSpec(init);
      var prev := FirstMax(init);
      assert forall j :: 0 <= j < n ==> init[j] == scores[j];
      if prev.Some? {
        assert IsFirstMax(init, prev.value);
      }
      forall k: nat
        ensures FirstMax(scores) == Some(k) <==> IsFirstMax(scores, k)
      {
        if IsFirstMax(scores, k) && k < n {
          assert IsFirstMax(init, k);
        }
      }
    }
  }

  /** Whenever some candidate exists and every score beats the sentinel, there is a winner. */
  lemma WinnerExists(scores: seq<real>)
    requires |scores| > 0
    requires forall j :: 0 <= j < |scores| ==> Sentinel < scores[j]
    ensures FirstMax(scores).Some?
  {
    FirstMaxSpec(scores);
    assert scores[0] > Sentinel;
  }

  /** The selection loop over the candidates. */
  method SelectBest(o: Oracle, cursor: Vec3, cands: seq<Vec3>) returns (best: Option<nat>)
    ensures best == FirstMax(Scores(o, cursor, cands))
  {
    ghost var scores := Scores(o, cursor, cands);
    var sun := o.unitize(SunRaw);
    best := None;
    var bestScore := Sentinel;
    var t := 0;
    while t < |cands|
      invariant 0 <= t <= |cands|
      invariant best == FirstMax(scores[..t])
      invariant bestScore == if best.Some? then scores[best.value] else Sentinel
    {
      var growthDir := o.unitize(Sub(cands[t], cursor));
      var score := Dot(growthDir, sun);
      assert scores[..t + 1][..t] == scores[..t];
      if score > bestScore {
        bestScore := score;
        best := Some(t);
      }
      t := t + 1;
    }
    assert scores[..t] == scores;
  }
}
