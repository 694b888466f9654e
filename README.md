# Mars adaptive habitat solver — growth loop model

This project models `run_simulation`, the growth loop of the Mars habitat
solver. The loop places habitat modules one at a time on a terrain mesh. It
starts from a seed point and spends a fixed budget of iterations. In each
iteration it does four things:

1. It builds six raw candidates: the cursor plus each hexagonal offset.
2. It grounds each candidate on the terrain. It keeps a candidate only if the
   ground is no steeper than 30 degrees and the point is no closer than
   `3.0 - 0.1` to any module already placed.
3. It scores each survivor by how well the direction from the cursor to it
   lines up with the sun. The first survivor with the strictly best score wins.
4. It appends the winner and moves the cursor onto it. If no candidate
   survived, it moves the cursor to a randomly chosen existing module instead.

The model is split into modules that follow these steps:

- `Geometry`: points, vectors and the `Oracle`, a value that bundles the
  foreign geometry calls as functions.
- `Config`: the solver's hard-coded parameters.
- `Directions`: the hexagonal offsets.
- `Constraints`: grounding, the slope test, the spacing test and the sensing
  loop.
- `Selection`: sun-alignment scoring and the first-strict-maximum choice,
  which starts from the `-999.0` sentinel.
- `Driver`: the state and the loop.

Each loop of the source is a method with loop invariants. The body of the
main loop is a method of its own, `Iteration`, with no loop. Each of these
methods is proved equal to a specification function:

- `GrowthDirections` equals the literal list `Offsets`;
- `CheckCollision` answers the predicate `TooClose`;
- `Sense` equals the recursive `Survivors`;
- `SelectBest` equals the recursive `FirstMax` of `Scores`;
- `Iteration`, the main loop's body, equals `Step`;
- `RunSimulation` equals `Simulate`, which runs `Step` through the recursive
  `Iterate`.

The properties are proved about those functions as lemmas.

The geometry is abstract. The oracle supplies four things:

- closest mesh point together with its normal (`project`, which takes the
  search radius);
- `Unitize`;
- the angle between two vectors in degrees;
- cosine and sine.

Distances are exact: the model compares squared Euclidean distance with
`(3.0 - 0.1)²`. For any distance function whose values are non-negative and
square to `Dist2` (`IsDistance`), `TooCloseByDistance` shows that `TooClose`
is exactly the source's test `DistanceTo(...) < 2.9` against some module.
`SpacedByDistance` and `RunSpacing` state the spacing result in the same
units. The source's `random.choice` is a
`Chooser`, a caller-supplied function. Given the iteration and the colony
size, it returns an index into the colony.

In two places the source is lenient, and the model follows it:

- If the seed cannot be grounded, the raw seed is used. The run is not
  aborted.
- The parameters are constants and are never validated.

## Model

| member | source | states |
|---|---|---|
| `Geometry.Dist2` | growth_solver.py:85 | the squared distance used by the collision test is never negative |
| `Constraints.SquaredComparison` | growth_solver.py:85 | for a non-negative distance d, `d < min_dist - 0.1` holds exactly when `d² < (min_dist - 0.1)²`, so comparing squares is the source's test |
| `Directions.Offsets` | growth_solver.py:37-43 | the six hexagonal offsets, all horizontal (z = 0) |
| `Constraints.TooCloseByDistance` | growth_solver.py:83-89 | for any true distance function, `TooClose` holds exactly when some placed module is strictly closer than `min_dist - 0.1` |
| `Selection.ScoreRange` | growth_solver.py:106-113 | when Unitize makes non-zero vectors unit length, the score of a candidate away from the cursor (`Score`, lines 107-111, the entries of `Scores`) lies in [-1, 1], so it beats -999 |
| `Selection.Scores` | growth_solver.py:105-111 | one score per candidate; when Unitize makes non-zero vectors unit length and no candidate sits on the cursor, every score lies in [-1, 1] |
| `Driver.Start` | growth_solver.py:52-53 | the run starts with one module, iteration record `[0]`, and the cursor on that module |
| `Driver.Iterate` | growth_solver.py:59-121 | iterations i..n only extend `modules` and `iterations`, and add at most one module per iteration |
| `Driver.Simulate` | growth_solver.py:24-124 | a run with budget n ends with 1 to n+1 modules, the seed module first |
| `Driver.SpacedByDistance` | growth_solver.py:83-91 | a colony is spaced exactly when every two of its modules are at least `min_dist - 0.1` apart in true distance |
| `Driver.RunSpacing` | growth_solver.py:24-124 | every two distinct modules of a run are at least `min_dist - 0.1` apart in true distance |
| `Driver.OpenStepGrows` | growth_solver.py:101-121 | when Unitize makes non-zero vectors unit length, an iteration with a survivor always appends a module, so `if best_cand:` never fails |
| `Driver.RunDefault` | growth_solver.py:24 | a call with the default budget of 147 is the specified run and leaves 1 to 148 modules |
| `Directions.GrowthDirections` | growth_solver.py:37-43 | the loop builds exactly six offsets, the k-th being `step_size * (cos 60k°, sin 60k°, 0)` in loop order |
| `Directions.HexagonShape` | growth_solver.py:37-43 | with exact trigonometry the offsets form a regular horizontal hexagon: each has length 3.5, the first is (3.5, 0, 0), and each is 60° counter-clockwise from the previous one |
| `Constraints.CheckCollision` | growth_solver.py:82-89 | the scan with early `break` reports a collision exactly when some placed module is strictly closer than `min_dist - 0.1` (equality is accepted) |
| `Constraints.Survivors` | growth_solver.py:61-91 | each direction contributes at most one candidate |
| `Constraints.Sense` | growth_solver.py:61-91 | the sensing loop returns exactly the grounded, not-too-steep, not-too-close candidates (`Evaluate`, lines 69-91, applied to each direction), in direction order |
| `Constraints.SurvivorsExact` | growth_solver.py:64-91 | with `Evaluate` (lines 69-91) as the per-direction test: every survivor was grounded from the cursor along one offset, on ground no steeper than 30° (equality accepted), and is not too close to any module; every candidate that passes all three checks is a survivor |
| `Constraints.SurvivorsEmpty` | growth_solver.py:64-96 | the iteration is blocked exactly when every direction fails grounding, slope or spacing |
| `Selection.FirstMax` | growth_solver.py:102-115 | the chosen index, if any, is a valid candidate index |
| `Selection.FirstMaxSpec` | growth_solver.py:102-115 | the running strict maximum chooses k exactly when k's score beats -999, is at least every score and is strictly above every earlier score; it chooses nothing exactly when no score beats -999 |
| `Selection.WinnerExists` | growth_solver.py:102-118 | with at least one candidate and all scores above the sentinel, a winner is always chosen |
| `Selection.SelectBest` | growth_solver.py:102-115 | the scoring loop (unitized growth direction dotted with the unitized sun vector, strict `>` update) ends with the first maximum of `Scores` |
| `Driver.StartInvariant` | growth_solver.py:48-53 | the initial colony is `[grounded seed]` whenever the seed can be grounded, and `[raw seed]` only when grounding fails (`Ground`, lines 49-50); iterations is `[0]`; the cursor is on it, and the colony invariant holds |
| `Driver.Step` | growth_solver.py:59-121 | one iteration only appends to `modules` and `iterations`, and adds at most one module |
| `Driver.StepOutcome` | growth_solver.py:96-121 | when blocked: the colony is unchanged and the cursor lands on one of its modules; when some candidate survives but none is chosen, nothing changes, cursor included; when it grows: it appends the first best-scoring survivor, records the iteration number, and moves the cursor onto the new module; it always grows when some candidate survives and every score beats the sentinel |
| `Driver.AppendSpaced` | growth_solver.py:83-91 | appending a point that passed the spacing test keeps every pair of modules at least the clearance apart |
| `Driver.AppendGrown` | growth_solver.py:64-91 | appending a point grounded from a colony module on acceptable slope keeps every module traceable to an earlier one |
| `Driver.GrowthPreserves` | growth_solver.py:117-121 | placing a survivor, recording iteration i and moving the cursor onto it preserves spacing, slope, the iteration record and cursor membership |
| `Driver.StepPreserves` | growth_solver.py:59-121 | every iteration preserves the colony invariant: same lengths, iterations 0-first and strictly increasing and below the next iteration number, pairwise spacing, slope-checked growth, cursor in the colony |
| `Driver.IterateInvariant` | growth_solver.py:59-121 | running the remaining iterations keeps the invariant, only extends `modules` and `iterations`, and adds at most one module per iteration |
| `Driver.RunFacts` | growth_solver.py:24-124 | for a budget n, the final colony has 1 to n+1 modules. The seed (grounded or raw) stays first, with iteration 0. Every later module carries a distinct iteration in 1..n, in increasing order. Every two distinct modules are at least `min_dist - 0.1` apart. Every later module was grounded from an earlier one on slope ≤ 30°. The cursor ends on a module |
| `Driver.Iteration` | growth_solver.py:61-121 | one pass of the loop body computes exactly the specification's step |
| `Driver.RunSimulation` | growth_solver.py:24-124 | the loop produces exactly the specified run, with 1 to `max_modules + 1` modules, pairwise spaced, each grown on acceptable slope |

## Left out

- Rhino geometry: `ClosestMeshPoint`, `NormalAt`, `VectorAngle`, `Unitize`,
  `math.cos`/`math.sin`/`math.radians`/`math.degrees` are oracle functions supplied by the caller; their floating-point behaviour is not modelled.
- `terrain_mesh.Normals.ComputeNormals()` (line 46) changes the mesh, which is part of the oracle; it is not modelled.
- Floating point in general: coordinates, scores and angles are exact reals. The hexagon lemmas assume exact sine and cosine at multiples of 60°. The source's floats differ from these in the last bits.
- `random.choice` (line 98): an arbitrary in-range index from the `Chooser`, not a uniform distribution.
- `print` diagnostics (lines 55 and 123) are I/O. Of the Grasshopper entry point (lines 126-129), only the call with the default budget is modelled, as `RunDefault`; the `activate` toggle and the output binding are host wiring.
- `RunSimulation` also returns the `iterations` list, which the source keeps local, so that its properties can be stated.
- `if best_cand:` (line 118) is modelled as "a candidate was chosen"; the truth value of a chosen Rhino point is not modelled.
