# Choreo trajectory core, modelled in Dafny

Choreo plans time-optimal paths for competition robots. Its C++ library,
TrajoptLib, turns a path into a nonlinear program. The path is a list of
waypoints, each carrying its own constraints and the constraints of the
segment that ends at it. The program is handed to an external solver.
The Python client library, choreolib, loads the resulting trajectories and
samples them by time.

This project models the parts of that pipeline that can be stated without
the numeric solver:

- **Geometry.** `Rotation2` is a rotation stored as a (cos, sin) pair. It has
  the default, angle and (x, y) constructors, composition, inverse,
  difference, and both equalities: the numeric one, and the symbolic one
  that emits solver relations. `HPolytope2` is a convex region Ax <= b,
  built from clockwise points, with `Contains` and `RotateBy`.
- **Constraints.** The closed eleven-way `Constraint` variant. The
  `LaneConstraint` constructor and `Apply`. The `KeepInCircleConstraint`
  `Apply`. The generator's `std::visit` dispatch.
- **The differential drivetrain generator.**
  - The variable layout (nine variables per sample, one timestep per segment).
  - The timestep bounds, seeds and total-time objective.
  - The collocation and wheel-acceleration equalities, and the strict
    wheel-speed and wheel-force bounds.
  - Waypoint and segment constraint dispatch.
  - The initial guess, the solution assembly and the exit-condition test of
    `Generate`.
- **Trajectory sampling in choreolib.**
  - `lerp`, event markers (`offset_by`, `load_event_marker`), and sample
    `interpolate` and `flipped`.
  - The trajectory lookup (`__sample_internal`, a binary search), `sample_at`,
    `get_total_time` and trajectory `flipped`.

The solver is replaced by a recorder, the class
`Problem.OptimizationProblem`. It numbers the decision variables, keeps the
log of registered relations and applied constraints in order, and keeps
the objective and the variables' current values. Every constructor loop
and `Apply` is a method whose effect on that log is specified exactly.
Lemmas then state what the logged relations demand of a solution.
Quantities are Dafny `real`s, not IEEE doubles.

Files:

| file | module | models |
|---|---|---|
| `wrappers.dfy` | `Wrappers` | Option and Result |
| `symbolic.dfy` | `Symbolic` | solver expressions and relations, and their value under an assignment |
| `rotation2.dfy` | `Rotation2` | `rotation2.hpp` |
| `translation2.dfy` | `Translation2` | the translation operations the other files use |
| `hpolytope2.dfy` | `HPolytope2` | `HPolytope2.hpp` and the examples of `HPolytope2dTest.cpp` |
| `constraint.dfy` | `Constraint` | `Constraint.hpp` |
| `problem.dfy` | `Problem` | the recorder standing in for the solver |
| `keep_in_circle.dfy` | `KeepInCircle` | `KeepInCircleConstraint.hpp` |
| `lane.dfy` | `Lane` | `LaneConstraint.hpp` |
| `dispatch.dfy` | `Dispatch` | the `std::visit` dispatch of the generator |
| `differential_layout.dfy` | `DifferentialLayout` | sample and variable numbering |
| `differential_model.dfy` | `DifferentialModel` | specification functions of `DifferentialTrajectoryGenerator.cpp` |
| `differential_generator.dfy` | `DifferentialGenerator` | the generator class, its loops and `Generate` |
| `trajectory.dfy` | `ChoreoTrajectory` | `choreolib/py/choreo/trajectory/__init__.py` |

**Cancellation.** `Generate` first resets the shared cancellation flag to 0
(`DifferentialTrajectoryGenerator.cpp:304`), so a stop requested before
`Generate` has no effect. The model's `Generate` ensures
`cancellation.value == 0`, and its outcome depends only on the solver's exit
condition.

## Model

| member | source | states |
|---|---|---|
| `Rotation2.Identity` | trajoptlib/include/trajopt/geometry/rotation2.hpp:155-156 | the default rotation (cos 1, sin 0) lies on the unit circle |
| `Rotation2.FromAngle` | trajoptlib/include/trajopt/geometry/rotation2.hpp:32-38 | a rotation built from an angle is a unit rotation whenever the supplied cosine and sine satisfy cos² + sin² = 1 |
| `Rotation2.FromXY` | trajoptlib/include/trajopt/geometry/rotation2.hpp:57-68 | a vector of length at most 1e-6 gives exactly the identity; a longer one gives a unit rotation pointing along (x, y), with cos·m = x and sin·m = y |
| `Rotation2.Equals` | trajoptlib/include/trajopt/geometry/rotation2.hpp:198-200 | numeric equality holds exactly when the two rotations are the same (cos, sin) pair |
| `Rotation2.RotateByCommutes` | trajoptlib/include/trajopt/geometry/rotation2.hpp:117-122 | composition is commutative |
| `Rotation2.RotateByAssociates` | trajoptlib/include/trajopt/geometry/rotation2.hpp:117-122 | composition is associative |
| `Rotation2.IdentityIsNeutral` | trajoptlib/include/trajopt/geometry/rotation2.hpp:117-122 | the default rotation is a left and right identity of composition |
| `Rotation2.RotateByStaysOnUnitCircle` | trajoptlib/include/trajopt/geometry/rotation2.hpp:117-122 | composing two unit rotations gives a unit rotation |
| `Rotation2.PlusNegateIsIdentity` | trajoptlib/include/trajopt/geometry/rotation2.hpp:86-108 | for a unit rotation r, r + (-r) and r - r are both the identity |
| `Rotation2.MinusUndoesPlus` | trajoptlib/include/trajopt/geometry/rotation2.hpp:86-99 | (a + b) - b == a for every unit rotation b |
| `Rotation2.CrossZeroIffParallel` | trajoptlib/include/trajopt/geometry/rotation2.hpp:168-182 | for unit rotations the cross product is 0 exactly when they are equal or antipodal |
| `Rotation2.Lift` | trajoptlib/include/trajopt/geometry/rotation2.hpp:75-77 | a numeric rotation converted to a symbolic one evaluates to itself under every assignment |
| `Rotation2.RotateByVEvaluates` | trajoptlib/include/trajopt/geometry/rotation2.hpp:117-122 | the symbolic composition evaluates to the numeric composition of the evaluated operands |
| `Rotation2.EqualityConstraints` | trajoptlib/include/trajopt/geometry/rotation2.hpp:162-196 | symbolic equality yields 1 relation plus 1 per symbolic operand, so 2 or 3 in total |
| `Rotation2.EqualityConstraintsMeaning` | trajoptlib/include/trajopt/geometry/rotation2.hpp:162-196 | an assignment satisfies the relations exactly when the cross product vanishes and every symbolic side is a unit rotation |
| `Rotation2.EqualityConstraintsOnManifold` | trajoptlib/include/trajopt/geometry/rotation2.hpp:168-196 | with unit numeric operands, the relations hold exactly when both sides are unit rotations that are equal or antipodal |
| `Rotation2.EqualsImpliesEqualityConstraints` | trajoptlib/include/trajopt/geometry/rotation2.hpp:162-200 | numerically equal unit rotations satisfy the symbolic equality relations |
| `Translation2.RotateByKeepsDot` | trajoptlib/include/trajopt/constraint/LaneConstraint.hpp:38-39 | rotating two vectors by the same unit rotation keeps their dot product, and so lengths and angles |
| `HPolytope2.Next` | trajoptlib/include/trajopt/geometry/HPolytope2.hpp:46 | the next vertex index is (i + 1) mod n and in range |
| `HPolytope2.Polytope` | trajoptlib/include/trajopt/geometry/HPolytope2.hpp:27-58 | n points give n rows of A and n bounds in b |
| `HPolytope2.FromPoints` | trajoptlib/include/trajopt/geometry/HPolytope2.hpp:45-57 | the row-filling loop builds exactly `Polytope(points)` |
| `HPolytope2.Contains` | trajoptlib/include/trajopt/geometry/HPolytope2.hpp:111-121 | the early-exit row loop returns true exactly when every row satisfies A_i·p <= b_i, boundary included |
| `HPolytope2.RotateBy` | trajoptlib/include/trajopt/geometry/HPolytope2.hpp:99-103 | rotation keeps the row count and leaves b unchanged |
| `HPolytope2.RotateByIsRigid` | trajoptlib/include/trajopt/geometry/HPolytope2.hpp:99-103 | for a unit rotation, q is in P exactly when q rotated is in P rotated |
| `HPolytope2.EdgeEndpointsOnBoundary` | trajoptlib/include/trajopt/geometry/HPolytope2.hpp:45-56 | both endpoints of edge i satisfy row i with equality |
| `HPolytope2.RowMeansRightOfEdge` | trajoptlib/include/trajopt/geometry/HPolytope2.hpp:29-56 | row i holds at q exactly when q is on or to the right of the directed edge i -> i+1 |
| `HPolytope2.EmptyContainsEverything` | trajoptlib/include/trajopt/geometry/HPolytope2.hpp:111-121 | a region built from no points contains every point |
| `HPolytope2.PolytopeOfFour` | trajoptlib/include/trajopt/geometry/HPolytope2.hpp:45-57 | the rows and bounds of any four-point region, edge by edge with the wrap-around edge last |
| `HPolytope2.RejectedByRow` | trajoptlib/include/trajopt/geometry/HPolytope2.hpp:114-117 | one violated row rejects the point |
| `HPolytope2.HoldsAllFourRows` | trajoptlib/include/trajopt/geometry/HPolytope2.hpp:114-120 | a point satisfying all four rows of a four-row region is contained |
| `HPolytope2.SquareRows` | trajoptlib/test/src/geometry/HPolytope2dTest.cpp:8-18 | the square's corners give A = [[0,-2],[-2,0],[0,2],[2,0]] |
| `HPolytope2.SquareBounds` | trajoptlib/test/src/geometry/HPolytope2dTest.cpp:8-18 | the square's corners give b = [2,2,2,2] |
| `HPolytope2.SquareIsRegion` | trajoptlib/test/src/geometry/HPolytope2dTest.cpp:8-18 | the square built from its four corners is exactly the H-form square \|x\| <= 1, \|y\| <= 1 |
| `HPolytope2.SquareContains` | trajoptlib/test/src/geometry/HPolytope2dTest.cpp:8-24 | the square contains (0, 0) |
| `HPolytope2.SquareRejects` | trajoptlib/test/src/geometry/HPolytope2dTest.cpp:8-24 | the square rejects (±2, 0) and (0, ±2) |
| `HPolytope2.DiamondRows` | trajoptlib/test/src/geometry/HPolytope2dTest.cpp:28-51 | the diamond's vertices give A = [[-1,-1],[-1,1],[1,1],[1,-1]] |
| `HPolytope2.DiamondBounds` | trajoptlib/test/src/geometry/HPolytope2dTest.cpp:28-51 | the diamond's vertices give b = [1,1,1,1] |
| `HPolytope2.DiamondIsRegion` | trajoptlib/test/src/geometry/HPolytope2dTest.cpp:28-51 | the diamond built from its four vertices is exactly the H-form diamond \|x\| + \|y\| <= 1 |
| `HPolytope2.DiamondContains` | trajoptlib/test/src/geometry/HPolytope2dTest.cpp:28-51 | the diamond contains (0, 0) |
| `HPolytope2.DiamondHoldsVertex` | trajoptlib/test/src/geometry/HPolytope2dTest.cpp:28-51 | the diamond contains each of its four vertices |
| `HPolytope2.DiamondRejects` | trajoptlib/test/src/geometry/HPolytope2dTest.cpp:28-51 | the diamond rejects (±1, ±1) |
| `Constraint.KindIndex` | trajoptlib/include/trajopt/constraint/Constraint.hpp:63-77 | every constraint's variant index is below 11 |
| `Constraint.OfKind` | trajoptlib/include/trajopt/constraint/Constraint.hpp:63-77 | every index below 11 is the index of some alternative |
| `Constraint.ExactlyElevenKinds` | trajoptlib/include/trajopt/constraint/Constraint.hpp:51-77 | the variant is a closed sum of exactly eleven kinds; equal indices mean the same alternative |
| `Problem.OptimizationProblem.DecisionVariable` | trajoptlib/include/trajopt/constraint/KeepInCircleConstraint.hpp:51 | a fresh variable gets the next number; nothing else changes |
| `Problem.OptimizationProblem.SubjectTo` | trajoptlib/include/trajopt/constraint/KeepInCircleConstraint.hpp:54-55 | a relation is appended to the log; nothing else changes |
| `Problem.OptimizationProblem.Record` | trajoptlib/src/DifferentialTrajectoryGenerator.cpp:222 | an entry that is not a plain relation is appended to the log; nothing else changes |
| `Problem.OptimizationProblem.Minimize` | trajoptlib/src/DifferentialTrajectoryGenerator.cpp:189 | the objective is set; nothing else changes |
| `Problem.OptimizationProblem.SetValue` | trajoptlib/src/DifferentialTrajectoryGenerator.cpp:162 | one variable's value is set; nothing else changes |
| `Problem.Lookup` | trajoptlib/src/DifferentialTrajectoryGenerator.cpp:363 | a set variable reads its value, an unset one reads 0 |
| `Problem.OptimizationProblem.Value` | trajoptlib/src/DifferentialTrajectoryGenerator.cpp:363 | reading a variable through the problem gives the same value as `Lookup` on its current values, the read the solution assembly uses |
| `Problem.OptimizationProblem.Solve` | trajoptlib/src/DifferentialTrajectoryGenerator.cpp:307 | the solve replaces the values by the outcome's and reports its exit condition; the log and objective stay |
| `KeepInCircle.Relations` | trajoptlib/include/trajopt/constraint/KeepInCircleConstraint.hpp:53-55 | two inequalities, the second being alpha <= 1 |
| `KeepInCircle.Entries` | trajoptlib/include/trajopt/constraint/KeepInCircleConstraint.hpp:53-55 | one Apply logs exactly those two relations, in order |
| `KeepInCircle.Apply` | trajoptlib/include/trajopt/constraint/KeepInCircleConstraint.hpp:42-56 | Apply allocates exactly one variable and appends exactly the two relations over it |
| `KeepInCircle.EvalDistanceSquared` | trajoptlib/include/trajopt/constraint/KeepInCircleConstraint.hpp:53-54 | the registered left-hand side is the squared distance of the position from the centre |
| `KeepInCircle.RelationsMeaning` | trajoptlib/include/trajopt/constraint/KeepInCircleConstraint.hpp:51-55 | a solution satisfies them exactly when ‖p - c‖² <= r²α² and α <= 1 |
| `KeepInCircle.UnitScaleIsDisk` | trajoptlib/include/trajopt/constraint/KeepInCircleConstraint.hpp:51-55 | with α = 1 they hold exactly when the position is in the closed disk |
| `KeepInCircle.NoLowerBoundOnScale` | trajoptlib/include/trajopt/constraint/KeepInCircleConstraint.hpp:50-55 | with a nonzero radius some α satisfies both relations wherever the robot is, so the pair alone does not keep it in the circle |
| `Lane.Direction` | trajoptlib/include/trajopt/constraint/LaneConstraint.hpp:35-39 | the centre line's direction is a unit rotation along (dx, dy), or the identity for a zero-length line |
| `Lane.UnitDirection` | trajoptlib/include/trajopt/constraint/LaneConstraint.hpp:37-39 | (dx, dy) divided by its length has length 1 |
| `Lane.MakeLane` | trajoptlib/include/trajopt/constraint/LaneConstraint.hpp:31-65 | a zero tolerance gives one on-line half-plane and no bottom line; otherwise a top line kept below and a bottom line kept above, both with origin (0, 0) |
| `Lane.OffsetIsPerpendicular` | trajoptlib/include/trajopt/constraint/LaneConstraint.hpp:35-39 | the offset is perpendicular to the centre line, has length \|tolerance\| and lies to the left for a positive tolerance |
| `Lane.LaneEdgesAtTolerance` | trajoptlib/include/trajopt/constraint/LaneConstraint.hpp:33-65 | both ends of the top line lie at +tolerance from the centre line and both ends of the bottom line at -tolerance, mirror images about it; each edge is the centre segment translated (its end minus its start equals end - start) |
| `Lane.ZeroLengthLaneIsVertical` | trajoptlib/include/trajopt/constraint/LaneConstraint.hpp:33-61 | for a zero-length centre line the direction falls back to the identity, so the top edge is the centre line moved up by tolerance and the bottom edge moved down by it |
| `Lane.Entries` | trajoptlib/include/trajopt/constraint/LaneConstraint.hpp:84-90 | the top line's half-plane comes first, then the bottom line's only when present |
| `Lane.Apply` | trajoptlib/include/trajopt/constraint/LaneConstraint.hpp:78-91 | Apply appends exactly those entries and allocates nothing; the stored lines are values it cannot change |
| `Lane.ApplyCount` | trajoptlib/include/trajopt/constraint/LaneConstraint.hpp:84-90 | a zero-tolerance lane applies one half-plane and any other lane two |
| `Dispatch.Lowering` | trajoptlib/src/DifferentialTrajectoryGenerator.cpp:272-276 | each Apply appends one or two entries and allocates a variable only for a keep-in circle |
| `Dispatch.ApplyConstraint` | trajoptlib/src/DifferentialTrajectoryGenerator.cpp:273-275 | visiting a constraint appends its lowering and changes neither values nor objective |
| `Dispatch.ApplyAll` | trajoptlib/src/DifferentialTrajectoryGenerator.cpp:272-276 | applying n constraints appends between n and 2n entries and allocates at most n variables |
| `Dispatch.ApplyAllDelegated` | trajoptlib/src/DifferentialTrajectoryGenerator.cpp:272-276 | constraints other than lanes and keep-in circles give one entry each, in list order, and allocate nothing |
| `Dispatch.ApplyAllAllocates` | trajoptlib/src/DifferentialTrajectoryGenerator.cpp:272-276 | a list allocates exactly one variable per keep-in circle in it |
| `Dispatch.ApplyAllAt` | trajoptlib/src/DifferentialTrajectoryGenerator.cpp:272-276 | the constraint loop at one sample appends `ApplyAll`'s entries in order |
| `DifferentialLayout.SampleTotal` | trajoptlib/src/DifferentialTrajectoryGenerator.cpp:110 | the sample count is the total interval count plus one |
| `DifferentialLayout.SumMonotone` | trajoptlib/src/DifferentialTrajectoryGenerator.cpp:280-281 | later waypoints start at no earlier sample |
| `DifferentialLayout.SegmentSpan` | trajoptlib/src/DifferentialTrajectoryGenerator.cpp:279-283 | segment w spans samples GetIndex(w, 0) up to GetIndex(w + 1, 0), exactly Ns[w] of them |
| `DifferentialLayout.Locate` | trajoptlib/src/DifferentialTrajectoryGenerator.cpp:279-283 | every sample before the last belongs to some segment at some offset below that segment's count |
| `DifferentialLayout.LocateUnique` | trajoptlib/src/DifferentialTrajectoryGenerator.cpp:279-297 | no sample belongs to two segments, so the segment ranges partition the samples |
| `DifferentialLayout.DtColumn` | trajoptlib/src/DifferentialTrajectoryGenerator.cpp:138-140 | there is one timestep variable per segment |
| `DifferentialLayout.TimestepsAreDtColumn` | trajoptlib/src/DifferentialTrajectoryGenerator.cpp:138-140 | the timestep vector the allocation loop builds is that column |
| `DifferentialLayout.LayoutDistinct` | trajoptlib/src/DifferentialTrajectoryGenerator.cpp:125-136 | distinct (sample, slot) pairs get distinct variables |
| `DifferentialLayout.SampleBeforeDt` | trajoptlib/src/DifferentialTrajectoryGenerator.cpp:125-140 | every timestep variable comes after every sample variable |
| `DifferentialLayout.ExpandTimesteps` | trajoptlib/src/DifferentialTrajectoryGenerator.cpp:358-367 | the per-sample timestep array has length ΣNs |
| `DifferentialLayout.ExpandTimestepsAt` | trajoptlib/src/DifferentialTrajectoryGenerator.cpp:358-367 | entry GetIndex(w, i) of that array is segment w's timestep, in segment order |
| `DifferentialLayout.ExpandTimestepsTotal` | trajoptlib/src/DifferentialTrajectoryGenerator.cpp:358-367 | the per-sample timesteps add up to Σ N_w dt_w |
| `DifferentialModel.StdMin` | trajoptlib/src/DifferentialTrajectoryGenerator.cpp:251 | std::min returns one of its arguments, at most both |
| `DifferentialModel.WheelSplitRoundTrip` | trajoptlib/src/DifferentialTrajectoryGenerator.cpp:343-346 | splitting (v, ω) into wheel speeds and recombining with WheelToChassisSpeeds and θ̇ gives (v, 0) and ω back |
| `DifferentialModel.WheelCombineRoundTrip` | trajoptlib/src/DifferentialTrajectoryGenerator.cpp:35-37 | combining wheel speeds into (v, ω) and splitting again gives the wheel speeds back |
| `DifferentialModel.InputMatrix` | trajoptlib/src/DifferentialTrajectoryGenerator.cpp:71-73 | B is symmetric with equal diagonal entries; diagonal ± off-diagonal are 2/m and 2r_b²/J |
| `DifferentialModel.EqualForcesDriveStraight` | trajoptlib/src/DifferentialTrajectoryGenerator.cpp:71-79 | equal wheel forces F accelerate both wheels by 2F/m |
| `DifferentialModel.OppositeForcesTurn` | trajoptlib/src/DifferentialTrajectoryGenerator.cpp:71-79 | opposite forces accelerate the wheels oppositely by 2r_b²F/J |
| `DifferentialModel.Dynamics` | trajoptlib/src/DifferentialTrajectoryGenerator.cpp:63-82 | θ̇ = (vr - vl)/trackwidth and the wheel accelerations are B u |
| `DifferentialModel.CapVelocity` | trajoptlib/src/DifferentialTrajectoryGenerator.cpp:176-180 | the capped speed is at most the drivetrain's top speed and at most dist/angularTime; it is one of the two |
| `DifferentialModel.SeedTimestep` | trajoptlib/src/DifferentialTrajectoryGenerator.cpp:161-186 | a segment without intervals is seeded 0; otherwise N·dt equals the segment's angular plus linear time |
| `DifferentialModel.SeedsCoverSegmentTimes` | trajoptlib/src/DifferentialTrajectoryGenerator.cpp:184-186 | N times the seed is the segment's time, for every segment |
| `DifferentialModel.TimestepRelations` | trajoptlib/src/DifferentialTrajectoryGenerator.cpp:157-160 | two relations per segment |
| `DifferentialModel.TimestepRelationsMeaning` | trajoptlib/src/DifferentialTrajectoryGenerator.cpp:157-160 | they hold exactly when dt >= 0 and dt·r·ω_max <= trackwidth |
| `DifferentialModel.TimestepLog` | trajoptlib/src/DifferentialTrajectoryGenerator.cpp:151-160 | the timestep loop logs two relations per segment |
| `DifferentialModel.TotalTimeValue` | trajoptlib/src/DifferentialTrajectoryGenerator.cpp:143-155 | the objective evaluates to Σ N_w dt_w |
| `DifferentialModel.MaxWheelForce` | trajoptlib/src/DifferentialTrajectoryGenerator.cpp:244-251 | the force limit is the smaller of τ/r and μ·m·9.8 |
| `DifferentialModel.BoundRelations` | trajoptlib/src/DifferentialTrajectoryGenerator.cpp:230-260 | eight relations per sample |
| `DifferentialModel.BoundRelationsMeaning` | trajoptlib/src/DifferentialTrajectoryGenerator.cpp:230-260 | they hold exactly when \|vl\|, \|vr\| < r·ω_max and \|Fl\|, \|Fr\| < F_max, all strictly |
| `DifferentialModel.BoundEntries` | trajoptlib/src/DifferentialTrajectoryGenerator.cpp:234-259 | one pass of the bounds loop logs those eight relations in order |
| `DifferentialModel.BoundsLog` | trajoptlib/src/DifferentialTrajectoryGenerator.cpp:230-260 | the bounds loop logs 8 relations per sample |
| `DifferentialModel.IntervalEntries` | trajoptlib/src/DifferentialTrajectoryGenerator.cpp:222-225 | each control interval logs three entries: the collocation equality and two acceleration equalities |
| `DifferentialModel.IntervalEntriesMeaning` | trajoptlib/src/DifferentialTrajectoryGenerator.cpp:224-225 | the acceleration equalities hold exactly when (al, ar) = B (Fl, Fr) at that sample |
| `DifferentialModel.SegmentDynamics` | trajoptlib/src/DifferentialTrajectoryGenerator.cpp:196-226 | i intervals of a segment log 3i entries |
| `DifferentialModel.DynamicsLog` | trajoptlib/src/DifferentialTrajectoryGenerator.cpp:192-227 | the dynamics loop logs 3 entries per control interval of the path |
| `DifferentialModel.ContextAtMeaning` | trajoptlib/src/DifferentialTrajectoryGenerator.cpp:266-270 | the velocity and turn rate handed to a constraint evaluate to WheelToChassisSpeeds and θ̇ of the sample's wheel values |
| `DifferentialModel.WaypointSites` | trajoptlib/src/DifferentialTrajectoryGenerator.cpp:262-277 | there is one dispatch site per waypoint |
| `DifferentialModel.WaypointSitesAt` | trajoptlib/src/DifferentialTrajectoryGenerator.cpp:262-277 | waypoint k's constraints are applied once, at its first sample GetIndex(k, 0) |
| `DifferentialModel.SampleSites` | trajoptlib/src/DifferentialTrajectoryGenerator.cpp:283-296 | there is one site per sample of the segment |
| `DifferentialModel.SampleSitesAt` | trajoptlib/src/DifferentialTrajectoryGenerator.cpp:283-296 | the k-th site of segment s is sample GetIndex(s, k) with the segment's constraints |
| `DifferentialModel.SegmentSites` | trajoptlib/src/DifferentialTrajectoryGenerator.cpp:279-297 | the segment dispatch visits ΣNs samples |
| `DifferentialModel.SegmentSitesAt` | trajoptlib/src/DifferentialTrajectoryGenerator.cpp:279-297 | sample k is visited k-th, with the segment constraints of waypoint s + 1, where s is the segment holding k |
| `DifferentialModel.SiteLog` | trajoptlib/src/DifferentialTrajectoryGenerator.cpp:262-297 | dispatch never frees variables |
| `DifferentialModel.SiteLogAppend` | trajoptlib/src/DifferentialTrajectoryGenerator.cpp:279-297 | dispatching two runs of sites in turn is dispatching their concatenation |
| `DifferentialModel.SiteLogAllocates` | trajoptlib/src/DifferentialTrajectoryGenerator.cpp:262-297 | dispatch allocates exactly one variable per keep-in circle applied |
| `DifferentialModel.Solution` | trajoptlib/src/DifferentialTrajectoryGenerator.cpp:356-394 | the assembled solution has ΣNs timesteps and one entry per sample in each per-sample vector |
| `DifferentialModel.SolutionTimesteps` | trajoptlib/src/DifferentialTrajectoryGenerator.cpp:358-367 | sample i of segment w carries the value of segment w's timestep variable |
| `DifferentialModel.SolutionDuration` | trajoptlib/src/DifferentialTrajectoryGenerator.cpp:358-367 | the solution's timesteps add up to the value of the minimised objective |
| `DifferentialModel.SolutionWheels` | trajoptlib/src/DifferentialTrajectoryGenerator.cpp:377-380 | each sample's ω and chassis speed split back into its wheel speeds |
| `DifferentialModel.SeedWheelsMatchChassis` | trajoptlib/src/DifferentialTrajectoryGenerator.cpp:327-346 | sample 0 is at rest; from sample 1 on the seeded wheels give (vl + vr)/2 = linearVelocity and θ̇ = ω |
| `DifferentialModel.SeedAccelIsDifference` | trajoptlib/src/DifferentialTrajectoryGenerator.cpp:347-352 | al[i]·dt[i] = vl[i] - vl[i-1], and likewise for ar |
| `DifferentialModel.TimestepSeedsAt` | trajoptlib/src/DifferentialTrajectoryGenerator.cpp:161-186 | once the loop is past segment j, j's timestep holds its seed |
| `DifferentialModel.TimestepSeedsKeep` | trajoptlib/src/DifferentialTrajectoryGenerator.cpp:151-188 | the timestep loop sets no variable below the first timestep |
| `DifferentialModel.PathSeedsAt` | trajoptlib/src/DifferentialTrajectoryGenerator.cpp:321-325 | once the loop is past sample j, j's x, y and heading hold the guess's |
| `DifferentialModel.PathSeedsKeep` | trajoptlib/src/DifferentialTrajectoryGenerator.cpp:321-325 | the path loop sets only pose slots |
| `DifferentialModel.WheelSpeedSeedsAt` | trajoptlib/src/DifferentialTrajectoryGenerator.cpp:332-346 | once the loop is past sample j, j's wheel speeds hold their seeds |
| `DifferentialModel.WheelAccelSeedsAt` | trajoptlib/src/DifferentialTrajectoryGenerator.cpp:347-352 | once the loop is past sample j, j's wheel accelerations hold their seeds |
| `DifferentialModel.WheelSeedsKeep` | trajoptlib/src/DifferentialTrajectoryGenerator.cpp:327-353 | the wheel seeding sets only wheel slots |
| `DifferentialModel.InitialValuesMeaning` | trajoptlib/src/DifferentialTrajectoryGenerator.cpp:318-354 | after construction every timestep, pose and wheel variable holds its seed and no force is set |
| `DifferentialModel.ExitClassification` | trajoptlib/src/DifferentialTrajectoryGenerator.cpp:309-315 | exit codes 0 and 1 and codes above 2 are successes; 2 (callback stop) and every negative code are failures |
| `DifferentialGenerator.DispatchBase` | trajoptlib/src/DifferentialTrajectoryGenerator.cpp:125-140 | the layout allocates 9 variables per sample plus one per segment |
| `DifferentialGenerator.ConstructionAllocates` | trajoptlib/src/DifferentialTrajectoryGenerator.cpp:262-297 | the finished problem has the laid-out variables plus one per keep-in circle applied |
| `DifferentialGenerator.DifferentialTrajectoryGenerator.constructor` | trajoptlib/src/DifferentialTrajectoryGenerator.cpp:108-299 | construction leaves every vector laid out, the whole log in phase order, the total-time objective, and the seeded values |
| `DifferentialGenerator.DifferentialTrajectoryGenerator.RegisterConstraints` | trajoptlib/src/DifferentialTrajectoryGenerator.cpp:142-297 | the four registration phases, in order, build the construction log and seed the timesteps |
| `DifferentialGenerator.DifferentialTrajectoryGenerator.AllocateVariables` | trajoptlib/src/DifferentialTrajectoryGenerator.cpp:125-140 | afterwards the nine vectors hold samples' variables in order, then one timestep per segment; nothing is logged |
| `DifferentialGenerator.DifferentialTrajectoryGenerator.AllocateSample` | trajoptlib/src/DifferentialTrajectoryGenerator.cpp:126-135 | one pass extends each vector by its slot of the next sample |
| `DifferentialGenerator.DifferentialTrajectoryGenerator.AllocateTimesteps` | trajoptlib/src/DifferentialTrajectoryGenerator.cpp:137-139 | segment s gets timestep variable 9·sampTot + s: one per segment, in segment order, after every sample's variables |
| `DifferentialGenerator.DifferentialTrajectoryGenerator.Timesteps` | trajoptlib/src/DifferentialTrajectoryGenerator.cpp:142-189 | the loop logs the two bounds per segment, seeds every timestep and minimises Σ dt·N |
| `DifferentialGenerator.DifferentialTrajectoryGenerator.SegmentTimestep` | trajoptlib/src/DifferentialTrajectoryGenerator.cpp:152-187 | one segment's bounds are appended and its timestep is seeded |
| `DifferentialGenerator.DifferentialTrajectoryGenerator.Dynamics` | trajoptlib/src/DifferentialTrajectoryGenerator.cpp:192-227 | the dynamics loop appends the three entries of every control interval, segment by segment |
| `DifferentialGenerator.DifferentialTrajectoryGenerator.SegmentIntervals` | trajoptlib/src/DifferentialTrajectoryGenerator.cpp:196-226 | one segment's intervals are appended in order |
| `DifferentialGenerator.DifferentialTrajectoryGenerator.WheelBounds` | trajoptlib/src/DifferentialTrajectoryGenerator.cpp:230-260 | every sample's eight bounds are appended in sample order |
| `DifferentialGenerator.DifferentialTrajectoryGenerator.SampleBounds` | trajoptlib/src/DifferentialTrajectoryGenerator.cpp:231-259 | one sample's eight bounds are appended |
| `DifferentialGenerator.DifferentialTrajectoryGenerator.WaypointDispatch` | trajoptlib/src/DifferentialTrajectoryGenerator.cpp:262-277 | every waypoint's constraints are applied at its first sample, waypoint by waypoint |
| `DifferentialGenerator.DifferentialTrajectoryGenerator.SegmentDispatch` | trajoptlib/src/DifferentialTrajectoryGenerator.cpp:279-297 | waypoint s + 1's segment constraints are applied at every sample of segment s |
| `DifferentialGenerator.DifferentialTrajectoryGenerator.SegmentSamples` | trajoptlib/src/DifferentialTrajectoryGenerator.cpp:283-296 | one segment's samples are visited in order |
| `DifferentialGenerator.DifferentialTrajectoryGenerator.SegmentSampleStep` | trajoptlib/src/DifferentialTrajectoryGenerator.cpp:284-295 | one pass of the loop appends the log of waypoint s + 1's segment constraints applied at sample GetIndex(s, j) |
| `DifferentialGenerator.DifferentialTrajectoryGenerator.ApplyInitialGuess` | trajoptlib/src/DifferentialTrajectoryGenerator.cpp:318-354 | the path seeds, then the wheel seeds, are written; the log is untouched |
| `DifferentialGenerator.DifferentialTrajectoryGenerator.SeedWheels` | trajoptlib/src/DifferentialTrajectoryGenerator.cpp:327-353 | the wheel values of every sample are seeded, zeros at sample 0 |
| `DifferentialGenerator.DifferentialTrajectoryGenerator.SeedPathSample` | trajoptlib/src/DifferentialTrajectoryGenerator.cpp:322-324 | one sample's pose is set from the guess |
| `DifferentialGenerator.DifferentialTrajectoryGenerator.SeedWheelSample` | trajoptlib/src/DifferentialTrajectoryGenerator.cpp:333-352 | one sample's wheel speeds are set from (v, ω), and its accelerations from the speeds just set and those of the sample before |
| `DifferentialGenerator.DifferentialTrajectoryGenerator.SeedWheelStep` | trajoptlib/src/DifferentialTrajectoryGenerator.cpp:333-352 | one pass of the loop extends the seeds computed from the values before the loop by exactly one more sample |
| `DifferentialGenerator.DifferentialTrajectoryGenerator.ConstructDifferentialSolution` | trajoptlib/src/DifferentialTrajectoryGenerator.cpp:356-394 | the assembled solution is `Solution` of the current values |
| `DifferentialGenerator.DifferentialTrajectoryGenerator.ExpandDtValues` | trajoptlib/src/DifferentialTrajectoryGenerator.cpp:358-367 | the per-sample timesteps are each segment's timestep value repeated Ns[w] times, in segment order |
| `DifferentialGenerator.DifferentialTrajectoryGenerator.TurnRates` | trajoptlib/src/DifferentialTrajectoryGenerator.cpp:377-380 | ω holds one entry per sample, and entry j is (vr − vl)/trackwidth at sample j's values |
| `DifferentialGenerator.DifferentialTrajectoryGenerator.Generate` | trajoptlib/src/DifferentialTrajectoryGenerator.cpp:302-316 | the flag is reset; a failure exit is returned as the error, any other exit yields the solution of the solved values |
| `DifferentialGenerator.ValuesOf` | trajoptlib/src/DifferentialTrajectoryGenerator.cpp:369-375 | reading back a vector gives one value per variable, in order |
| `DifferentialGenerator.ValuesOfLaidOut` | trajoptlib/src/DifferentialTrajectoryGenerator.cpp:381-393 | reading back a laid-out vector gives that slot's per-sample values |
| `ChoreoTrajectory.Lerp` | choreolib/py/choreo/trajectory/__init__.py:14-15 | lerp(a, b, 0) = a and lerp(a, b, 1) = b |
| `ChoreoTrajectory.LerpSymmetric` | choreolib/py/choreo/trajectory/__init__.py:14-15 | lerp(a, b, t) = lerp(b, a, 1 - t) |
| `ChoreoTrajectory.LerpBetween` | choreolib/py/choreo/trajectory/__init__.py:14-15 | for t in [0, 1] the result lies between a and b |
| `ChoreoTrajectory.LerpAll` | choreolib/py/choreo/trajectory/__init__.py:407-436 | the module forces are interpolated entry by entry |
| `ChoreoTrajectory.OffsetBy` | choreolib/py/choreo/trajectory/__init__.py:27-38 | the event is kept and the timestamp moves by exactly the offset |
| `ChoreoTrajectory.OffsetByCompose` | choreolib/py/choreo/trajectory/__init__.py:27-38 | offsetting by a then b is offsetting by a + b |
| `ChoreoTrajectory.OffsetByInverse` | choreolib/py/choreo/trajectory/__init__.py:27-38 | offsetting back by the opposite amount restores the marker |
| `ChoreoTrajectory.LoadEventMarker` | choreolib/py/choreo/trajectory/__init__.py:45-54 | a loaded marker has a nonnegative time and a nonempty name; only KeyError or ValueError escape |
| `ChoreoTrajectory.LoadNumericEvent` | choreolib/py/choreo/trajectory/__init__.py:45-54 | a numeric marker is dropped exactly when target + offset < 0 or the name is empty, and otherwise gets time target + offset |
| `ChoreoTrajectory.LoadUnnamedEventRaises` | choreolib/py/choreo/trajectory/__init__.py:46-54 | a marker without a name raises KeyError, which is not caught |
| `ChoreoTrajectory.LoadNullTimeIsDropped` | choreolib/py/choreo/trajectory/__init__.py:46-54 | a null time raises TypeError inside the try, so the marker is dropped |
| `ChoreoTrajectory.Interpolate` | choreolib/py/choreo/trajectory/__init__.py:124-154 | succeeds exactly when the timestamps differ, the kinds match and the end has enough module forces; the result is of the start's kind at time t |
| `ChoreoTrajectory.InterpolateAtStart` | choreolib/py/choreo/trajectory/__init__.py:124-154 | interpolating at the start's time gives the start state |
| `ChoreoTrajectory.InterpolateAtEnd` | choreolib/py/choreo/trajectory/__init__.py:124-154 | interpolating at the end's time gives the end state |
| `ChoreoTrajectory.Negated` | choreolib/py/choreo/trajectory/__init__.py:473-474 | every entry is negated and the length kept |
| `ChoreoTrajectory.Flipped` | choreolib/py/choreo/trajectory/__init__.py:156-191 | the flip keeps the timestamp and kind and maps x, y, heading through the flipper; it fails only for a mirrored swerve sample with fewer than four module forces |
| `ChoreoTrajectory.MirroredDifferentialSwapsSides` | choreolib/py/choreo/trajectory/__init__.py:164-177 | a mirrored differential flip swaps vl/vr, al/ar, fl/fr and negates omega |
| `ChoreoTrajectory.FlipTwice` | choreolib/py/choreo/trajectory/__init__.py:156-191 | with self-inverse flip maps, flipping twice restores the sample |
| `ChoreoTrajectory.FlipAll` | choreolib/py/choreo/trajectory/__init__.py:333-335 | the list flip succeeds exactly when every sample flips, and then flips each one in place order |
| `ChoreoTrajectory.TotalTime` | choreolib/py/choreo/trajectory/__init__.py:311-318 | 0 for no samples, else the last sample's timestamp |
| `ChoreoTrajectory.SortedPairs` | choreolib/py/choreo/trajectory/__init__.py:229-236 | in a sorted trajectory an earlier sample is never later than a later one |
| `ChoreoTrajectory.SortedWithinTotalTime` | choreolib/py/choreo/trajectory/__init__.py:223-226 | in a sorted trajectory no sample is after the total time |
| `ChoreoTrajectory.FirstAtOrAfter` | choreolib/py/choreo/trajectory/__init__.py:229-236 | the index of the first sample at or after t: all before it are earlier |
| `ChoreoTrajectory.BracketIsFirst` | choreolib/py/choreo/trajectory/__init__.py:229-236 | in a sorted trajectory the only bracketing index is the first sample at or after t |
| `ChoreoTrajectory.FindBracket` | choreolib/py/choreo/trajectory/__init__.py:229-236 | the search ends in range with the sample before it earlier than t and, unless last, itself at or after t; when sorted and t is in range it is the first sample at or after t |
| `ChoreoTrajectory.SampleInternal` | choreolib/py/choreo/trajectory/__init__.py:217-251 | None without samples, the only sample, clamping to the first or last sample, and for sorted samples exactly `SampleSpec` |
| `ChoreoTrajectory.SampleNearRequestedTime` | choreolib/py/choreo/trajectory/__init__.py:239-251 | within a sorted trajectory's span a successful lookup returns a state at t or less than the tolerance after it |
| `ChoreoTrajectory.ScaleInUnit` | choreolib/py/choreo/trajectory/__init__.py:246-251 | the interpolation scale of a bracketing pair lies in (0, 1] |
| `ChoreoTrajectory.SampleBetweenNeighbours` | choreolib/py/choreo/trajectory/__init__.py:239-251 | an interpolated lookup's x lies between the x of the two samples around t |
| `ChoreoTrajectory.SampleAt` | choreolib/py/choreo/trajectory/__init__.py:253-272 | for sorted samples, the lookup flipped with the default flipper when asked; None passes through |
| `ChoreoTrajectory.FlippedTrajectoryAsWritten` | choreolib/py/choreo/trajectory/__init__.py:326-335 | as written, the result does not depend on the year: it is the flip with the default season's flipper |
| `ChoreoTrajectory.FlippedIgnoresYear` | choreolib/py/choreo/trajectory/__init__.py:326-335 | a year whose flipper differs from the default one gives a result other than that year's flip |
| `ChoreoTrajectory.FlippedTrajectory` | choreolib/py/choreo/trajectory/__init__.py:326-335 | the flip keeps name, splits, events and sample count, and flips every sample with the requested season's flipper |

## Left out

- The solver (sleipnir). The recorder `Problem.OptimizationProblem` keeps the log of registered relations; the numeric solve is a parameter of `Solve` (its outcome). The symbolic `VariableMatrix` algebra is reduced to the scalar expressions of `Symbolic`.
- The Hermite–Simpson collocation expression (`DifferentialTrajectoryGenerator.cpp:215-222`). Each interval records one collocation entry naming its two samples and its timestep, without the expression itself.
- The applied constraints other than lanes and keep-in circles. Their headers, including `HalfPlaneConstraint`, are not part of this model. Each such Apply is recorded as one delegated log entry carrying the constraint and the sample's context.
- `GetIndex` is defined in a header that is not part of this model. It is assumed to be the cumulative sum of the earlier segments' interval counts plus the offset.
- `cos`, `sin`, `atan2`, `hypot`, `AngleModulus`, `CalculateTrapezoidalTime` and the heading difference through `Rotation2d::RotateBy(...).Radians()`. These are floating-point or transcendental. They are supplied as values or as fields of a `Numerics` record; hypot is characterised by m >= 0 and m² = x² + y².
- IEEE semantics: rounding, infinities and NaN. Arithmetic is on reals. The 1e-6 thresholds are the exact real 0.000001.
- `DifferentialModel.CapVelocity`: when angularTime is 0, IEEE division gives an infinity or NaN and `std::min` keeps the first argument. The model writes that case out, and treats every other division by 0 as excluded (see the next line).
- `DifferentialGenerator.DifferentialTrajectoryGenerator.constructor`: requires a nonzero mass, moment of inertia, wheel radius and trackwidth, and nonzero guess timesteps from sample 1 on. The source divides by these and would produce infinities or NaN; that behaviour is not modelled.
- `DifferentialGenerator.DifferentialTrajectoryGenerator.constructor`: requires at least one waypoint. With none, `wptCnt - 1` underflows in the source.
- `CalculateInitialGuess`, which produces the guess the constructor is given, is not part of this model. The guess is a parameter that must cover every sample.
- The progress callback (`DifferentialTrajectoryGenerator.cpp:86-106`): its 60 fps wall-clock throttle, its consumer callbacks and the shared flag it reads. Only the flag's reset in `Generate` is modelled, as a `CancellationFlag` object.
- The `diagnostics` argument of `Generate` and the solver tolerance; they only affect the solve.
- `Rotation2.FromXY`: takes the hypot magnitude as an argument, which must satisfy m >= 0 and m² = x² + y².
- `radians()`/`degrees()` and the matrix form of a rotation. `HPolytope2::RotateBy` is modelled with the standard rotation matrix, as `ToMatrix` is not shown.
- The Python flipper (`get_flipper_for_year`, `flip_x`, `flip_y`, `flip_heading`). It is an abstract `Flipper` value: whether the field is mirrored, plus three maps. Only the swaps and negations of `flipped` are modelled.
- `float(...)` on strings in `load_event_marker`. It is the `parse` argument: a failed parse raises ValueError, and a non-number, non-string raises TypeError.
- `Pose2d`, `ChassisSpeeds` and the pose and speed getters of samples and trajectories (`get_pose`, `get_chassis_speeds`, `get_initial_pose`, `get_final_pose`, `get_poses`). They build wpimath objects and compute nothing the model needs.
- The two sample classes and the two trajectory classes are one `Sample` datatype with two variants and one `Trajectory` datatype. Their methods are the same code apart from the fields.
- `ChoreoTrajectory.SampleInternal`: for samples whose timestamps are not sorted, the model states only the empty, single-sample and clamping cases. The binary search promises nothing more there.
- `ChoreoTrajectory.SampleAt`: likewise pinned to `SampleSpec` only for sorted samples.
- `ChoreoTrajectory.FlipTwice`: requires a mirrored swerve sample to carry exactly four module forces. The flip keeps only modules 0 to 3, so a longer list is not restored.

## Findings

| source | as written | input that shows it | evidently intended | confidence | as-written member | corrected member |
|---|---|---|---|---|---|---|
| choreolib/py/choreo/trajectory/__init__.py:326-335 | `DifferentialTrajectory.flipped(year)` flips every sample with `x.flipped()`, the default year, and never uses `year`; `SwerveTrajectory.flipped` (lines 612-621) does the same | a differential trajectory with one sample vl = 1, vr = 0, flipped for a year whose field is mirrored while the default year's field is rotated: the as-written result keeps vl = 1, while that year's flip gives vl = 0 | every sample flipped with `x.flipped(year)` | not executed | `ChoreoTrajectory.FlippedTrajectoryAsWritten`, `ChoreoTrajectory.FlippedIgnoresYear` | `ChoreoTrajectory.FlippedTrajectory` |
