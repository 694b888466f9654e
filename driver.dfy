/**
 * The growth loop: ground the seed, then for a fixed budget of iterations
 * sense the six neighbours of the cursor, and either place the best survivor
 * and move the cursor onto it, or, when every neighbour is rejected, move the
 * cursor to a randomly chosen module already placed.
 */
module Driver {
  import opened Wrappers
  import opened Geometry
  import opened Config
  import opened Directions
  import opened Constraints
  import opened Selection

  /**
   * The random choice made when growth is blocked: given the iteration and
   * the colony size n > 0, the index (below n) of the module to resume from.
   */
  type Chooser = f: (nat, nat) -> nat | forall i, n :: 0 < n ==> f(i, n) < n
    witness (i: nat, n: nat) => 0

  /**
   * The loop's state: the placed modules, the iteration at which each was
   * placed (a parallel list), and the cursor growth continues from.
   */
  datatype GrowthState = GrowthState(modules: seq<Vec3>, iterations: seq<nat>, cursor: Vec3)

  /** The seed snapped to the terrain, or the raw seed when it cannot be grounded. */
  function Ground(o: Oracle, seed: Vec3): (c: Vec3)
    ensures c == seed || (o.project(seed, SeedRadius).Some? && c == o.project(seed, SeedRadius).value.point)
    ensures o.project(seed, SeedRadius).None? ==> c == seed
  {
    match o.project(seed, SeedRadius)
    case Some(h) => h.point
    case None => seed
  }

  /** The state before the first iteration. */
  function Start(o: Oracle, seed: Vec3): (s: GrowthState)
    ensures s.modules == [s.cursor] && s.iterations == [0]
  {
    var c := Ground(o, seed);
    GrowthState([c], [0], c)
  }

  /** Iteration i of the growth loop. */
  function Step(o: Oracle, pick: Chooser, offsets: seq<Vec3>, s: GrowthState, i: nat): (r: GrowthState)
    requires |s.modules| > 0
    ensures s.modules <= r.modules && s.iterations <= r.iterations
    ensures |r.modules| <= |s.modules| + 1
  {
    var cands := Survivors(o, s.modules, s.cursor, offsets);
    if cands == [] then
      s.(cursor := s.modules[pick(i, |s.modules|)])
    else
      match FirstMax(Scores(o, s.cursor, cands))
      case None => s
      case Some(k) => GrowthState(s.modules + [cands[k]], s.iterations + [i], cands[k])
  }

  /** Iterations i through n, in order. */
  function Iterate(o: Oracle, pick: Chooser, offsets: seq<Vec3>, s: GrowthState, i: nat, n: nat): (r: GrowthState)
    requires |s.modules| > 0
    ensures s.modules <= r.modules && s.iterations <= r.iterations
    ensures |r.modules| <= |s.modules| + (if i <= n then n + 1 - i else 0)
    decreases n + 1 - i
  {
    if i > n then s
    else Iterate(o, pick, offsets, Step(o, pick, offsets, s, i), i + 1, n)
  }

  /** The whole run with an attempt budget of n iterations. */
  function Simulate(o: Oracle, pick: Chooser, seed: Vec3, n: nat): (r: GrowthState)
    ensures 1 <= |r.modules| <= n + 1
    ensures r.modules[0] == Ground(o, seed)
  {
    Iterate(o, pick, Offsets(o), Start(o, seed), 1, n)
  }

  /** Every two modules keep at least the enforced clearance. */
  predicate Spaced(m: seq<Vec3>) {
    forall a, b :: 0 <= a < b < |m| ==> Dist2(m[a], m[b]) >= Clearance * Clearance
  }

  /**
   * Stated with the distance itself: the colony is spaced exactly when every
   * two modules are at least Clearance apart.
   */
  lemma SpacedByDistance(dist: (Vec3, Vec3) -> real, m: seq<Vec3>)
    requires IsDistance(dist)
    ensures Spaced(m) <==> forall a, b :: 0 <= a < b < |m| ==> dist(m[a], m[b]) >= Clearance
  {
    forall a, b | 0 <= a < b < |m|
      ensures dist(m[a], m[b]) >= Clearance <==> Dist2(m[a], m[b]) >= Clearance * Clearance
    {
      DistanceBelow(dist, m[a], m[b]);
    }
  }

  /**
   * Every module after the seed is the terrain point grounded from an
   * earlier module along one of the offsets, on ground that passed the
   * slope test.
   */
  ghost predicate Grown(o: Oracle, offsets: seq<Vec3>, m: seq<Vec3>) {
    forall k :: 1 <= k < |m| ==> GrownAt(o, offsets, m, k)
  }

  /** Module k is grounded from some earlier module j along some offset t. */
  ghost predicate GrownAt(o: Oracle, offsets: seq<Vec3>, m: seq<Vec3>, k: nat)
    requires k < |m|
  {
    exists j, t :: 0 <= j < k && 0 <= t < |offsets| && GroundedFrom(o, m[j], offsets[t], m[k])
  }

  /**
   * The iteration record starts with 0 for the seed, increases strictly and
   * holds only iterations before i.
   */
  predicate Chronicle(its: seq<nat>, i: nat) {
    |its| > 0 && its[0] == 0 &&
    (forall a, b :: 0 <= a < b < |its| ==> its[a] < its[b]) &&
    (forall k :: 0 <= k < |its| ==> its[k] < i)
  }

  /** What holds at the top of iteration i. */
  ghost predicate ColonyInvariant(o: Oracle, offsets: seq<Vec3>, s: GrowthState, i: nat) {
    |s.modules| == |s.iterations| && Chronicle(s.iterations, i) &&
    Spaced(s.modules) && Grown(o, offsets, s.modules) && s.cursor in s.modules
  }

  /** The initial colony is the grounded seed alone, placed at iteration 0, with the cursor on it. */
  lemma StartInvariant(o: Oracle, offsets: seq<Vec3>, seed: Vec3)
    ensures Start(o, seed).modules ==
      [if o.project(seed, SeedRadius).Some? then o.project(seed, SeedRadius).value.point else seed]
    ensures ColonyInvariant(o, offsets, Start(o, seed), 1)
  {
  }

  /**
   * What one iteration does: when blocked, the colony is unchanged and the
   * cursor lands on a module of it; when it grows, the single new module is
   * the first best-scoring survivor, stamped with i, and the cursor moves
   * onto it; and it does grow whenever some neighbour survives and every
   * score beats the sentinel.
   */
  lemma StepOutcome(o: Oracle, pick: Chooser, offsets: seq<Vec3>, s: GrowthState, i: nat)
    requires |s.modules| > 0
    ensures var cands, r := Survivors(o, s.modules, s.cursor, offsets), Step(o, pick, offsets, s, i);
      (cands == [] ==> r.modules == s.modules && r.iterations == s.iterations && r.cursor in s.modules) &&
      (|r.modules| == |s.modules| + 1 ==>
        exists k: nat :: IsFirstMax(Scores(o, s.cursor, cands), k) &&
          r.modules == s.modules + [cands[k]] && r.iterations == s.iterations + [i] && r.cursor == cands[k]) &&
      (|r.modules| == |s.modules| ==> r.modules == s.modules && r.iterations == s.iterations) &&
      (cands != [] && |r.modules| == |s.modules| ==> r.cursor == s.cursor) &&
      (cands != [] && (forall k :: 0 <= k < |cands| ==> Sentinel < Score(o, cands[k], s.cursor)) ==>
        |r.modules| == |s.modules| + 1)
  {
    var cands := Survivors(o, s.modules, s.cursor, offsets);
    var scores := Scores(o, s.cursor, cands);
    FirstMaxSpec(scores);
    if cands != [] && (forall k :: 0 <= k < |cands| ==> Sentinel < Score(o, cands[k], s.cursor)) {
      WinnerExists(scores);
    }
  }

  /**
   * With a well-behaved Unitize, an iteration with any survivor always grows:
   * a survivor is clear of the cursor's module, so its score is at least -1
   * and beats the sentinel, and the guard before appending never fails.
   */
  lemma OpenStepGrows(o: Oracle, pick: Chooser, offsets: seq<Vec3>, s: GrowthState, i: nat)
    requires Unitizes(o)
    requires s.cursor in s.modules
    requires Survivors(o, s.modules, s.cursor, offsets) != []
    ensures |Step(o, pick, offsets, s, i).modules| == |s.modules| + 1
  {
    var cands := Survivors(o, s.modules, s.cursor, offsets);
    var j :| 0 <= j < |s.modules| && s.modules[j] == s.cursor;
    forall k | 0 <= k < |cands|
      ensures Sentinel < Score(o, cands[k], s.cursor)
    {
      SurvivorOrigin(o, s.modules, s.cursor, offsets, cands[k]);
      assert Dist2(cands[k], s.modules[j]) >= Clearance * Clearance;
      ScoreRange(o, cands[k], s.cursor);
    }
    StepOutcome(o, pick, offsets, s, i);
  }

  /** Appending a point that is not too close to any module keeps the colony spaced. */
  lemma AppendSpaced(m: seq<Vec3>, q: Vec3)
    requires Spaced(m) && !TooClose(m, q)
    ensures Spaced(m + [q])
  {
    var m' := m + [q];
    forall a, b | 0 <= a < b < |m'|
      ensures Dist2(m'[a], m'[b]) >= Clearance * Clearance
    {
      if b == |m| {
        Dist2Symmetric(m[a], q);
      }
    }
  }

  /** Appending a point grounded from a module of the colony keeps it grown. */
  lemma AppendGrown(o: Oracle, offsets: seq<Vec3>, m: seq<Vec3>, q: Vec3, j: nat, t: nat)
    requires Grown(o, offsets, m)
    requires j < |m| && t < |offsets| && GroundedFrom(o, m[j], offsets[t], q)
    ensures Grown(o, offsets, m + [q])
  {
    var m' := m + [q];
    forall k | 1 <= k < |m'|
      ensures GrownAt(o, offsets, m', k)
    {
      if k == |m| {
        assert GroundedFrom(o, m'[j], offsets[t], m'[k]);
      } else {
        assert GrownAt(o, offsets, m, k);
        var j2, t2 :| 0 <= j2 < k && 0 <= t2 < |offsets| && GroundedFrom(o, m[j2], offsets[t2], m[k]);
        assert GroundedFrom(o, m'[j2], offsets[t2], m'[k]);
      }
    }
  }

  /** Recording iteration i after the record so far keeps it a chronicle, now below i + 1. */
  lemma AppendChronicle(its: seq<nat>, i: nat)
    requires Chronicle(its, i)
    ensures Chronicle(its + [i], i + 1)
  {
  }

  /** A survivor is clear of the colony and grounded from the cursor along one offset. */
  lemma SurvivorOrigin(o: Oracle, colony: seq<Vec3>, cursor: Vec3, offsets: seq<Vec3>, q: Vec3)
    requires q in Survivors(o, colony, cursor, offsets)
    ensures !TooClose(colony, q)
    ensures exists t :: 0 <= t < |offsets| && GroundedFrom(o, cursor, offsets[t], q)
  {
    SurvivorsExact(o, colony, cursor, offsets);
    var c :| 0 <= c < |Survivors(o, colony, cursor, offsets)| && Survivors(o, colony, cursor, offsets)[c] == q;
  }

  /** Placing a survivor, stamped with i, and moving the cursor onto it keeps the invariant. */
  lemma GrowthPreserves(o: Oracle, offsets: seq<Vec3>, s: GrowthState, q: Vec3, i: nat)
    requires ColonyInvariant(o, offsets, s, i)
    requires q in Survivors(o, s.modules, s.cursor, offsets)
    ensures ColonyInvariant(o, offsets, GrowthState(s.modules + [q], s.iterations + [i], q), i + 1)
  {
    var m := s.modules;
    SurvivorOrigin(o, m, s.cursor, offsets, q);
    var t :| 0 <= t < |offsets| && GroundedFrom(o, s.cursor, offsets[t], q);
    var j :| 0 <= j < |m| && m[j] == s.cursor;
    AppendSpaced(m, q);
    AppendGrown(o, offsets, m, q, j, t);
    AppendChronicle(s.iterations, i);
    assert (m + [q])[|m|] == q;
  }

  /** One iteration preserves the colony invariant and advances the iteration bound. */
  lemma StepPreserves(o: Oracle, pick: Chooser, offsets: seq<Vec3>, s: GrowthState, i: nat)
    requires ColonyInvariant(o, offsets, s, i)
    ensures ColonyInvariant(o, offsets, Step(o, pick, offsets, s, i), i + 1)
  {
    var m := s.modules;
    var cands := Survivors(o, m, s.cursor, offsets);
    if cands == [] {
      assert Step(o, pick, offsets, s, i).cursor == m[pick(i, |m|)];
    } else if FirstMax(Scores(o, s.cursor, cands)).Some? {
      var q := cands[FirstMax(Scores(o, s.cursor, cands)).value];
      GrowthPreserves(o, offsets, s, q, i);
    }
  }

  /**
   * Running iterations i..n from a state that satisfies the invariant keeps
   * the invariant, only ever appends, and appends at most one module per
   * iteration.
   */
  lemma {:induction false} IterateInvariant(o: Oracle, pick: Chooser, offsets: seq<Vec3>, s: GrowthState, i: nat, n: nat)
    requires i <= n + 1
    requires ColonyInvariant(o, offsets, s, i)
    ensures var r := Iterate(o, pick, offsets, s, i, n);
      ColonyInvariant(o, offsets, r, n + 1) &&
      s.modules <= r.modules && s.iterations <= r.iterations &&
      |r.modules| <= |s.modules| + (n + 1 - i)
    decreases n + 1 - i
  {
    if i <= n {
      StepPreserves(o, pick, offsets, s, i);
      IterateInvariant(o, pick, offsets, Step(o, pick, offsets, s, i), i + 1, n);
    }
  }

  /**
   * The facts about a whole run with budget n: between 1 and n + 1 modules,
   * the grounded (or raw) seed first with iteration 0, every other module
   * stamped with a distinct iteration in 1..n in increasing order, every two
   * distinct modules at least the clearance apart, every module after the
   * seed grown from an earlier one on ground that passed the slope test, and
   * the cursor left on a module.
   */
  lemma RunFacts(o: Oracle, pick: Chooser, seed: Vec3, n: nat)
    ensures var r := Simulate(o, pick, seed, n);
      1 <= |r.modules| <= n + 1 && |r.iterations| == |r.modules| &&
      r.modules[0] == (if o.project(seed, SeedRadius).Some? then o.project(seed, SeedRadius).value.point else seed) &&
      r.iterations[0] == 0 &&
      (forall a, b :: 0 <= a < b < |r.iterations| ==> r.iterations[a] < r.iterations[b]) &&
      (forall k :: 1 <= k < |r.iterations| ==> 1 <= r.iterations[k] <= n) &&
      (forall a, b :: 0 <= a < |r.modules| && 0 <= b < |r.modules| && a != b ==>
        Dist2(r.modules[a], r.modules[b]) >= Clearance * Clearance) &&
      Grown(o, Offsets(o), r.modules) &&
      r.cursor in r.modules
  {
    var s := Start(o, seed);
    StartInvariant(o, Offsets(o), seed);
    IterateInvariant(o, pick, Offsets(o), s, 1, n);
    var r := Simulate(o, pick, seed, n);
    assert r.modules[0] == s.modules[0];
    forall a, b | 0 <= a < |r.modules| && 0 <= b < |r.modules| && a != b
      ensures Dist2(r.modules[a], r.modules[b]) >= Clearance * Clearance
    {
      if b < a {
        Dist2Symmetric(r.modules[a], r.modules[b]);
      }
    }
  }

  /** In the distance's own units: every two distinct modules of a run are at least 2.9 apart. */
  lemma RunSpacing(dist: (Vec3, Vec3) -> real, o: Oracle, pick: Chooser, seed: Vec3, n: nat)
    requires IsDistance(dist)
    ensures var m := Simulate(o, pick, seed, n).modules;
      forall a, b :: 0 <= a < |m| && 0 <= b < |m| && a != b ==> dist(m[a], m[b]) >= Clearance
  {
    RunFacts(o, pick, seed, n);
    ApartByDistance(dist, Simulate(o, pick, seed, n).modules);
  }

  /** Squared clearance between every two distinct modules, restated with the distance. */
  lemma ApartByDistance(dist: (Vec3, Vec3) -> real, m: seq<Vec3>)
    requires IsDistance(dist)
    requires forall a, b :: 0 <= a < |m| && 0 <= b < |m| && a != b ==> Dist2(m[a], m[b]) >= Clearance * Clearance
    ensures forall a, b :: 0 <= a < |m| && 0 <= b < |m| && a != b ==> dist(m[a], m[b]) >= Clearance
  {
    forall a, b | 0 <= a < |m| && 0 <= b < |m| && a != b
      ensures dist(m[a], m[b]) >= Clearance
    {
      DistanceBelow(dist, m[a], m[b]);
    }
  }

  /**
   * One pass of the loop body: sense, then either backtrack to a random
   * module or place the best survivor and move onto it.
   */
  method Iteration(o: Oracle, pick: Chooser, offsets: seq<Vec3>, modules: seq<Vec3>, iterations: seq<nat>,
                   current: Vec3, i: nat)
    returns (modules': seq<Vec3>, iterations': seq<nat>, current': Vec3)
    requires |modules| > 0
    ensures GrowthState(modules', iterations', current') ==
      Step(o, pick, offsets, GrowthState(modules, iterations, current), i)
  {
    modules', iterations', current' := modules, iterations, current;
    var candidates := Sense(o, offsets, modules, current);
    if candidates == [] {
      current' := modules[pick(i, |modules|)];
      return;
    }
    var best := SelectBest(o, current, candidates);
    if best.Some? {
      modules' := modules + [candidates[best.value]];
      iterations' := iterations + [i];
      current' := candidates[best.value];
    }
  }

  /**
   * The growth loop as the solver runs it. Returns the placed modules in
   * placement order and the iteration at which each was placed.
   */
  method RunSimulation(o: Oracle, pick: Chooser, seed: Vec3, maxModules: nat)
    returns (modules: seq<Vec3>, iterations: seq<nat>)
    ensures modules == Simulate(o, pick, seed, maxModules).modules
    ensures iterations == Simulate(o, pick, seed, maxModules).iterations
    ensures 1 <= |modules| <= maxModules + 1
    ensures Spaced(modules)
    ensures Grown(o, Offsets(o), modules)
  {
    var offsets := GrowthDirections(o);
    var mp := o.project(seed, SeedRadius);
    var current := if mp.Some? then mp.value.point else seed;
    modules := [current];
    iterations := [0];
    StartInvariant(o, offsets, seed);
    for i := 1 to maxModules + 1
      invariant |modules| <= i
      invariant ColonyInvariant(o, offsets, GrowthState(modules, iterations, current), i)
      invariant Iterate(o, pick, offsets, GrowthState(modules, iterations, current), i, maxModules)
        == Simulate(o, pick, seed, maxModules)
    {
      ghost var s := GrowthState(modules, iterations, current);
      StepPreserves(o, pick, offsets, s, i);
      modules, iterations, current := Iteration(o, pick, offsets, modules, iterations, current, i);
    }
  }

  /** The entry point's call: a run with the default budget of 147 iterations. */
  method RunDefault(o: Oracle, pick: Chooser, seed: Vec3) returns (modules: seq<Vec3>)
    ensures modules == Simulate(o, pick, seed, DefaultMaxModules).modules
    ensures 1 <= |modules| <= DefaultMaxModules + 1
  {
    var iterations;
    modules, iterations := RunSimulation(o, pick, seed, DefaultMaxModules);
  }
}
