/**
 * The differential drivetrain trajectory generator. Its constructor lays out
 * the decision variables, registers the timestep bounds and the objective,
 * the dynamics, the wheel bounds and every waypoint and segment constraint,
 * and seeds the variables from the initial guess; Generate runs the solve and
 * assembles the solution.
 */
module DifferentialGenerator {
  import opened Wrappers
  import opened Symbolic
  import opened DifferentialLayout
  import opened DifferentialModel
  import P = Problem
  import Dispatch

  /** The number of variables laid out before any constraint is applied: nine per sample, one per segment. */
  function DispatchBase(ns: seq<nat>): (n: nat)
    ensures n == VarsPerSample * Sum(ns) + VarsPerSample + |ns|
  {
    VarsPerSample * SampleTotal(ns) + |ns|
  }

  /** The waypoint constraints' entries and the next free variable after them. */
  function WaypointLog(d: Drivetrain, ns: seq<nat>, ws: seq<Waypoint>): Dispatch.Lowered
    requires |ns| == |ws| - 1
  {
    SiteLog(d, WaypointSites(ns, ws, |ws|), DispatchBase(ns))
  }

  /** The segment constraints' entries and the next free variable after them. */
  function SegmentLog(d: Drivetrain, ns: seq<nat>, ws: seq<Waypoint>): Dispatch.Lowered
    requires |ns| == |ws| - 1
  {
    SiteLog(d, SegmentSites(ns, ws, |ns|), WaypointLog(d, ns, ws).next)
  }

  /** Everything the constructor registers, phase by phase. */
  function ConstructionLog(d: Drivetrain, ns: seq<nat>, ws: seq<Waypoint>): seq<P.Entry>
    requires |ns| == |ws| - 1 && NonzeroDivisors(d)
  {
    var dts := DtColumn(SampleTotal(ns), |ns|);
    TimestepLog(d, dts) + DynamicsLog(d, ns, dts, |ns|) + BoundsLog(d, SampleTotal(ns))
      + WaypointLog(d, ns, ws).entries + SegmentLog(d, ns, ws).entries
  }

  /**
   * The problem ends up with the laid-out variables plus one scaling unknown
   * per keep-in circle applied, whether at a waypoint or along a segment.
   */
  lemma ConstructionAllocates(d: Drivetrain, ns: seq<nat>, ws: seq<Waypoint>)
    requires |ns| == |ws| - 1
    ensures SegmentLog(d, ns, ws).next ==
      DispatchBase(ns) + SiteKeepInCount(WaypointSites(ns, ws, |ws|)) + SiteKeepInCount(SegmentSites(ns, ws, |ns|))
  {
    SiteLogAllocates(d, WaypointSites(ns, ws, |ws|), DispatchBase(ns));
    SiteLogAllocates(d, SegmentSites(ns, ws, |ns|), WaypointLog(d, ns, ws).next);
  }

  /** The process-wide flag the progress callback returns to ask the solver to stop. */
  class CancellationFlag {
    var value: int

    constructor ()
      ensures value == 0
    {
      value := 0;
    }
  }

  class DifferentialTrajectoryGenerator {
    const drivetrain: Drivetrain
    const waypoints: seq<Waypoint>
    /** The control interval count of every segment. */
    const ns: seq<nat>
    const problem: P.OptimizationProblem
    const cancellation: CancellationFlag

    /** The variable numbers of the per-sample vectors and of the per-segment timesteps. */
    var x: seq<nat>
    var y: seq<nat>
    var heading: seq<nat>
    var vl: seq<nat>
    var vr: seq<nat>
    var al: seq<nat>
    var ar: seq<nat>
    var fl: seq<nat>
    var fr: seq<nat>
    var dts: seq<nat>

    /** One interval count per segment, and the drivetrain's divisors nonzero. */
    predicate Shaped()
      reads this
    {
      |ns| == |waypoints| - 1 && NonzeroDivisors(drivetrain)
    }

    /** x, y and heading hold the pose variables of every sample. */
    predicate PoseLaidOut()
      reads this
    {
      var n := SampleTotal(ns);
      LaidOut(x, n, XSlot) && LaidOut(y, n, YSlot) && LaidOut(heading, n, HeadingSlot)
    }

    /** vl, vr, al and ar hold the wheel variables of every sample. */
    predicate WheelsLaidOut()
      reads this
    {
      var n := SampleTotal(ns);
      LaidOut(vl, n, VlSlot) && LaidOut(vr, n, VrSlot) && LaidOut(al, n, AlSlot) && LaidOut(ar, n, ArSlot)
    }

    /** Shaped, and every vector laid out. */
    predicate Valid()
      reads this
    {
      && Shaped()
      && PoseLaidOut() && WheelsLaidOut()
      && LaidOut(fl, SampleTotal(ns), FlSlot) && LaidOut(fr, SampleTotal(ns), FrSlot)
      && TimestepsLaidOut(dts, SampleTotal(ns), |ns|)
    }

    /**
     * Builds the problem for the path `ws` with interval counts `counts`,
     * seeded from `guess`. The guess must cover every sample, and its
     * timesteps from sample 1 on must be nonzero.
     */
    constructor (d: Drivetrain, ws: seq<Waypoint>, counts: seq<nat>, guess: DifferentialSolution, num: Numerics,
                 flag: CancellationFlag)
      requires |counts| == |ws| - 1 && NonzeroDivisors(d)
      requires CoversSamples(guess, SampleTotal(counts)) && NonzeroSeedSteps(guess, SampleTotal(counts))
      ensures Valid() && fresh(problem)
      ensures drivetrain == d && waypoints == ws && ns == counts && cancellation == flag
      ensures problem.entries == ConstructionLog(d, counts, ws)
      ensures problem.varCount == SegmentLog(d, counts, ws).next
      ensures problem.objective == Some(TotalTime(counts, DtColumn(SampleTotal(counts), |counts|)))
      ensures problem.values == InitialValues(d, num, counts, guess)
    {
      drivetrain := d;
      waypoints := ws;
      ns := counts;
      cancellation := flag;
      problem := new P.OptimizationProblem();
      x, y, heading, vl, vr, al, ar, fl, fr, dts := [], [], [], [], [], [], [], [], [], [];
      new;
      AllocateVariables();
      TimestepsAreDtColumn(dts, SampleTotal(ns), |ns|);
      RegisterConstraints(guess, num);
      ApplyInitialGuess(guess, num);
    }

    /**
     * The constructor's phases between the allocation and the seeding: the
     * timesteps and the objective, the dynamics, the wheel bounds, then the
     * waypoint and the segment constraints.
     */
    method RegisterConstraints(guess: DifferentialSolution, num: Numerics)
      requires Valid() && CoversSamples(guess, SampleTotal(ns))
      requires problem.entries == [] && problem.varCount == DispatchBase(ns)
      modifies problem
      ensures problem.entries == ConstructionLog(drivetrain, ns, waypoints)
      ensures problem.varCount == SegmentLog(drivetrain, ns, waypoints).next
      ensures problem.objective == Some(TotalTime(ns, DtColumn(SampleTotal(ns), |ns|)))
      ensures problem.values == TimestepSeeds(drivetrain, num, ns, guess, old(problem.values), |ns|)
    {
      TimestepsAreDtColumn(dts, SampleTotal(ns), |ns|);
      Timesteps(guess, num);
      assert problem.entries == TimestepLog(drivetrain, dts);
      Dynamics();
      WheelBounds();
      WaypointDispatch();
      SegmentDispatch();
    }

    /** Allocates the nine variables of every sample, sample by sample, then one timestep per segment. */
    method AllocateVariables()
      requires Shaped()
      requires problem.varCount == 0
      modifies this, problem
      ensures Valid()
      ensures problem.varCount == DispatchBase(ns)
      ensures problem.entries == old(problem.entries) && problem.values == old(problem.values)
      ensures problem.objective == old(problem.objective)
    {
      var sampTot := SampleTotal(ns);
      x, y, heading, vl, vr, al, ar, fl, fr, dts := [], [], [], [], [], [], [], [], [], [];
      var index := 0;
      while index < sampTot
        invariant 0 <= index <= sampTot
        invariant problem.varCount == SampleVar(index, XSlot)
        invariant SamplesLaidOut(index)
        invariant dts == []
        invariant problem.entries == old(problem.entries) && problem.values == old(problem.values)
        invariant problem.objective == old(problem.objective)
      {
        AllocateSample(index);
        index := index + 1;
      }
      AllocateTimesteps(sampTot);
    }

    /** All nine per-sample vectors hold their variables of samples 0 .. n - 1. */
    predicate SamplesLaidOut(n: nat)
      reads this
    {
      && LaidOut(x, n, XSlot) && LaidOut(y, n, YSlot) && LaidOut(heading, n, HeadingSlot)
      && LaidOut(vl, n, VlSlot) && LaidOut(vr, n, VrSlot)
      && LaidOut(al, n, AlSlot) && LaidOut(ar, n, ArSlot)
      && LaidOut(fl, n, FlSlot) && LaidOut(fr, n, FrSlot)
    }

    /** The timestep loop of the allocation: one variable per segment, after every sample's variables. */
    method AllocateTimesteps(sampTot: nat)
      requires Shaped() && dts == [] && problem.varCount == DtVar(sampTot, 0)
      modifies `dts, problem
      ensures TimestepsLaidOut(dts, sampTot, |ns|) && problem.varCount == DtVar(sampTot, |ns|)
      ensures problem.entries == old(problem.entries) && problem.values == old(problem.values)
      ensures problem.objective == old(problem.objective)
    {
      var s := 0;
      while s < |waypoints| - 1
        invariant 0 <= s <= |ns|
        invariant problem.varCount == DtVar(sampTot, s)
        invariant TimestepsLaidOut(dts, sampTot, s)
        invariant problem.entries == old(problem.entries) && problem.values == old(problem.values)
        invariant problem.objective == old(problem.objective)
      {
        var v := problem.DecisionVariable();
        TimestepsLaidOutStep(dts, sampTot, s, v.id);
        dts := dts + [v.id];
        s := s + 1;
      }
    }

    /** One pass of the allocation loop: the next variable of each of the nine vectors, in vector order. */
    method AllocateSample(ghost index: nat)
      requires problem.varCount == SampleVar(index, XSlot)
      requires SamplesLaidOut(index)
      modifies this, problem
      ensures problem.varCount == SampleVar(index + 1, XSlot)
      ensures SamplesLaidOut(index + 1)
      ensures dts == old(dts)
      ensures problem.entries == old(problem.entries) && problem.values == old(problem.values)
      ensures problem.objective == old(problem.objective)
    {
      var v := problem.DecisionVariable();
      LaidOutStep(x, index, XSlot, v.id);
      x := x + [v.id];
      v := problem.DecisionVariable();
      LaidOutStep(y, index, YSlot, v.id);
      y := y + [v.id];
      v := problem.DecisionVariable();
      LaidOutStep(heading, index, HeadingSlot, v.id);
      heading := heading + [v.id];
      v := problem.DecisionVariable();
      LaidOutStep(vl, index, VlSlot, v.id);
      vl := vl + [v.id];
      v := problem.DecisionVariable();
      LaidOutStep(vr, index, VrSlot, v.id);
      vr := vr + [v.id];
      v := problem.DecisionVariable();
      LaidOutStep(al, index, AlSlot, v.id);
      al := al + [v.id];
      v := problem.DecisionVariable();
      LaidOutStep(ar, index, ArSlot, v.id);
      ar := ar + [v.id];
      v := problem.DecisionVariable();
      LaidOutStep(fl, index, FlSlot, v.id);
      fl := fl + [v.id];
      v := problem.DecisionVariable();
      LaidOutStep(fr, index, FrSlot, v.id);
      fr := fr + [v.id];
    }

    /**
     * Bounds every timestep (dt >= 0, dt r omega_max <= tw), seeds it, and
     * minimises the total time.
     */
    method Timesteps(guess: DifferentialSolution, num: Numerics)
      requires Shaped() && TimestepsLaidOut(dts, SampleTotal(ns), |ns|) && CoversSamples(guess, SampleTotal(ns))
      modifies problem
      ensures problem.entries == old(problem.entries) + TimestepLog(drivetrain, dts)
      ensures problem.objective == Some(TotalTime(ns, dts))
      ensures problem.values == TimestepSeeds(drivetrain, num, ns, guess, old(problem.values), |ns|)
      ensures problem.varCount == old(problem.varCount)
    {
      var total := Const(0.0);
      var s := 0;
      while s < |ns|
        invariant 0 <= s <= |ns|
        invariant total == TotalTime(ns[..s], dts[..s])
        invariant problem.entries == old(problem.entries) + TimestepLog(drivetrain, dts[..s])
        invariant problem.values == TimestepSeeds(drivetrain, num, ns, guess, old(problem.values), s)
        invariant problem.varCount == old(problem.varCount) && problem.objective == old(problem.objective)
      {
        TotalTimeStep(ns, dts, s);
        TimestepLogStep(drivetrain, dts, s);
        total := Add(total, Mul(Var(dts[s]), Const(ns[s] as real)));
        SegmentTimestep(s, guess, num);
        var rs := TimestepRelations(drivetrain, dts[s]);
        P.AppendRuns(old(problem.entries), TimestepLog(drivetrain, dts[..s]), [P.Subject(rs[0]), P.Subject(rs[1])]);
        s := s + 1;
      }
      assert ns[..|ns|] == ns && dts[..|ns|] == dts;
      problem.Minimize(total);
    }

    /** One pass of the timestep loop: segment s's two bounds, then its seed. */
    method SegmentTimestep(s: nat, guess: DifferentialSolution, num: Numerics)
      requires Shaped() && TimestepsLaidOut(dts, SampleTotal(ns), |ns|) && s < |ns| && CoversSamples(guess, SampleTotal(ns))
      modifies problem
      ensures var rs := TimestepRelations(drivetrain, dts[s]);
        problem.entries == old(problem.entries) + [P.Subject(rs[0]), P.Subject(rs[1])]
      ensures problem.values == old(problem.values)[DtVar(SampleTotal(ns), s) := SeedTimestep(drivetrain, num, ns, guess, s)]
      ensures problem.varCount == old(problem.varCount) && problem.objective == old(problem.objective)
    {
      var dt := dts[s];
      problem.SubjectTo(Le(Const(0.0), Var(dt)));
      problem.SubjectTo(Le(Mul(Mul(Var(dt), Const(drivetrain.wheelRadius)), Const(drivetrain.wheelMaxAngularVelocity)),
                           Const(drivetrain.trackwidth)));
      if ns[s] == 0 {
        problem.SetValue(dt, 0.0);
      } else {
        problem.SetValue(dt, SegmentTime(drivetrain, num, ns, guess, s) / (ns[s] as real));
      }
    }

    /** Registers, for every control interval, the collocation equality and the two wheel-acceleration equalities. */
    method Dynamics()
      requires Valid()
      modifies problem
      ensures problem.entries == old(problem.entries) + DynamicsLog(drivetrain, ns, dts, |ns|)
      ensures problem.varCount == old(problem.varCount) && problem.values == old(problem.values)
      ensures problem.objective == old(problem.objective)
    {
      var w := 0;
      while w < |waypoints| - 1
        invariant 0 <= w <= |ns|
        invariant problem.entries == old(problem.entries) + DynamicsLog(drivetrain, ns, dts, w)
        invariant problem.varCount == old(problem.varCount) && problem.values == old(problem.values)
        invariant problem.objective == old(problem.objective)
      {
        ghost var done := DynamicsLog(drivetrain, ns, dts, w);
        SegmentIntervals(w);
        P.AppendRuns(old(problem.entries), done, SegmentDynamics(drivetrain, ns, dts, w, ns[w]));
        w := w + 1;
      }
    }

    /** The inner loop of the dynamics: every control interval of segment w. */
    method SegmentIntervals(w: nat)
      requires Valid() && w < |ns|
      modifies problem
      ensures problem.entries == old(problem.entries) + SegmentDynamics(drivetrain, ns, dts, w, ns[w])
      ensures problem.varCount == old(problem.varCount) && problem.values == old(problem.values)
      ensures problem.objective == old(problem.objective)
    {
      var nSgmt := ns[w];
      var dt := dts[w];
      SegmentSpan(ns, w);
      SumMonotone(ns, w + 1, |ns|);
      assert ns[..|ns|] == ns;
      var i := 0;
      while i < nSgmt
        invariant 0 <= i <= nSgmt
        invariant problem.entries == old(problem.entries) + SegmentDynamics(drivetrain, ns, dts, w, i)
        invariant problem.varCount == old(problem.varCount) && problem.values == old(problem.values)
        invariant problem.objective == old(problem.objective)
      {
        var index := GetIndex(ns, w, i);
        // The interval runs from sample `index` to sample `index + 1`, both laid out.
        assert index + 1 < |x|;
        ghost var done := SegmentDynamics(drivetrain, ns, dts, w, i);
        problem.Record(P.Collocation(index, dt));
        problem.SubjectTo(Eq(Var(al[index]), WheelAccel(drivetrain, index, 0)));
        problem.SubjectTo(Eq(Var(ar[index]), WheelAccel(drivetrain, index, 1)));
        assert problem.entries == old(problem.entries) + done + IntervalEntries(drivetrain, index, dt);
        P.AppendRuns(old(problem.entries), done, IntervalEntries(drivetrain, index, dt));
        i := i + 1;
      }
    }

    /** Registers the eight strict wheel-speed and wheel-force bounds of every sample. */
    method WheelBounds()
      requires Valid()
      modifies problem
      ensures problem.entries == old(problem.entries) + BoundsLog(drivetrain, SampleTotal(ns))
      ensures problem.varCount == old(problem.varCount) && problem.values == old(problem.values)
      ensures problem.objective == old(problem.objective)
    {
      var index := 0;
      while index < |x|
        invariant 0 <= index <= |x|
        invariant problem.entries == old(problem.entries) + BoundsLog(drivetrain, index)
        invariant problem.varCount == old(problem.varCount) && problem.values == old(problem.values)
        invariant problem.objective == old(problem.objective)
      {
        SampleBounds(index);
        index := index + 1;
      }
    }

    /** One pass of the bounds loop: -vmax < vl, vr < vmax and -Fmax < Fl, Fr < Fmax at sample `index`. */
    method SampleBounds(index: nat)
      requires Valid() && index < |x|
      modifies problem
      ensures problem.entries == old(problem.entries) + BoundEntries(drivetrain, index)
      ensures problem.varCount == old(problem.varCount) && problem.values == old(problem.values)
      ensures problem.objective == old(problem.objective)
    {
      assert vl[index] == SampleVar(index, VlSlot) && vr[index] == SampleVar(index, VrSlot);
      assert fl[index] == SampleVar(index, FlSlot) && fr[index] == SampleVar(index, FrSlot);
      var maxWheelVelocity := drivetrain.wheelRadius * drivetrain.wheelMaxAngularVelocity;
      problem.SubjectTo(Lt(Const(-maxWheelVelocity), Var(vl[index])));
      problem.SubjectTo(Lt(Var(vl[index]), Const(maxWheelVelocity)));
      problem.SubjectTo(Lt(Const(-maxWheelVelocity), Var(vr[index])));
      problem.SubjectTo(Lt(Var(vr[index]), Const(maxWheelVelocity)));
      var maxWheelForce := drivetrain.wheelMaxTorque / drivetrain.wheelRadius;
      var maxFrictionForce := drivetrain.wheelCoF * drivetrain.mass * 9.8;
      var maxForce := StdMin(maxWheelForce, maxFrictionForce);
      problem.SubjectTo(Lt(Const(-maxForce), Var(fl[index])));
      problem.SubjectTo(Lt(Var(fl[index]), Const(maxForce)));
      problem.SubjectTo(Lt(Const(-maxForce), Var(fr[index])));
      problem.SubjectTo(Lt(Var(fr[index]), Const(maxForce)));
      var rs := BoundRelations(drivetrain, index);
      assert maxWheelVelocity == MaxWheelVelocity(drivetrain);
      assert maxForce == MaxWheelForce(drivetrain);
      assert rs[0] == Lt(Const(-maxWheelVelocity), Var(vl[index]));
      assert rs[7] == Lt(Var(fr[index]), Const(maxForce));
    }

    /** Applies every waypoint's constraints at its first sample. */
    method WaypointDispatch()
      requires Shaped()
      modifies problem
      ensures var log := SiteLog(drivetrain, WaypointSites(ns, waypoints, |waypoints|), old(problem.varCount));
        problem.entries == old(problem.entries) + log.entries && problem.varCount == log.next
      ensures problem.values == old(problem.values) && problem.objective == old(problem.objective)
    {
      var w := 0;
      while w < |waypoints|
        invariant 0 <= w <= |waypoints|
        invariant var log := SiteLog(drivetrain, WaypointSites(ns, waypoints, w), old(problem.varCount));
          problem.entries == old(problem.entries) + log.entries && problem.varCount == log.next
        invariant problem.values == old(problem.values) && problem.objective == old(problem.objective)
      {
        var index := GetIndex(ns, w, 0);
        var constraints := waypoints[w].waypointConstraints;
        ghost var sites := WaypointSites(ns, waypoints, w);
        ghost var done := SiteLog(drivetrain, sites, old(problem.varCount));
        ghost var applied := Dispatch.ApplyAll(constraints, ContextAt(drivetrain, index), done.next);
        ghost var after := SiteLog(drivetrain, sites + [Site(index, constraints)], old(problem.varCount));
        assert WaypointSites(ns, waypoints, w + 1) == sites + [Site(index, constraints)];
        SiteLogStep(drivetrain, sites, Site(index, constraints), old(problem.varCount));
        assert after.entries == done.entries + applied.entries && after.next == applied.next;
        Dispatch.ApplyAllAt(constraints, problem, ContextAt(drivetrain, index));
        P.AppendRuns(old(problem.entries), done.entries, applied.entries);
        assert problem.entries == old(problem.entries) + after.entries && problem.varCount == after.next;
        w := w + 1;
      }
    }

    /** Applies waypoint s + 1's segment constraints at every sample of segment s. */
    method SegmentDispatch()
      requires Shaped()
      modifies problem
      ensures var log := SiteLog(drivetrain, SegmentSites(ns, waypoints, |ns|), old(problem.varCount));
        problem.entries == old(problem.entries) + log.entries && problem.varCount == log.next
      ensures problem.values == old(problem.values) && problem.objective == old(problem.objective)
    {
      var s := 0;
      while s < |waypoints| - 1
        invariant 0 <= s <= |ns|
        invariant var log := SiteLog(drivetrain, SegmentSites(ns, waypoints, s), old(problem.varCount));
          problem.entries == old(problem.entries) + log.entries && problem.varCount == log.next
        invariant problem.values == old(problem.values) && problem.objective == old(problem.objective)
      {
        ghost var done := SiteLog(drivetrain, SegmentSites(ns, waypoints, s), old(problem.varCount));
        ghost var samples := SampleSites(ns, s, waypoints[s + 1].segmentConstraints, ns[s]);
        SiteLogAppend(drivetrain, SegmentSites(ns, waypoints, s), samples, old(problem.varCount));
        SegmentSamples(s);
        P.AppendRuns(old(problem.entries), done.entries, SiteLog(drivetrain, samples, done.next).entries);
        s := s + 1;
      }
    }

    /** The inner loop of the segment dispatch: every sample of segment s. */
    method SegmentSamples(s: nat)
      requires Shaped() && s < |ns|
      modifies problem
      ensures var log := SiteLog(drivetrain, SampleSites(ns, s, waypoints[s + 1].segmentConstraints, ns[s]), old(problem.varCount));
        problem.entries == old(problem.entries) + log.entries && problem.varCount == log.next
      ensures problem.values == old(problem.values) && problem.objective == old(problem.objective)
    {
      var startIndex := GetIndex(ns, s, 0);
      var endIndex := GetIndex(ns, s + 1, 0);
      SegmentSpan(ns, s);
      var index := startIndex;
      while index < endIndex
        invariant startIndex <= index <= endIndex
        invariant var log := SiteLog(drivetrain, SampleSites(ns, s, waypoints[s + 1].segmentConstraints, index - startIndex), old(problem.varCount));
          problem.entries == old(problem.entries) + log.entries && problem.varCount == log.next
        invariant problem.values == old(problem.values) && problem.objective == old(problem.objective)
      {
        SegmentSampleStep(s, index - startIndex, old(problem.entries), old(problem.varCount));
        index := index + 1;
      }
    }

    /** One pass of the segment loop: sample j of segment s gets the constraints of waypoint s + 1. */
    method SegmentSampleStep(s: nat, j: nat, ghost base: seq<P.Entry>, ghost next: nat)
      requires Shaped() && s < |ns| && j < ns[s]
      requires var log := SiteLog(drivetrain, SampleSites(ns, s, waypoints[s + 1].segmentConstraints, j), next);
        problem.entries == base + log.entries && problem.varCount == log.next
      modifies problem
      ensures var log := SiteLog(drivetrain, SampleSites(ns, s, waypoints[s + 1].segmentConstraints, j + 1), next);
        problem.entries == base + log.entries && problem.varCount == log.next
      ensures problem.values == old(problem.values) && problem.objective == old(problem.objective)
    {
      var index := GetIndex(ns, s, j);
      var constraints := waypoints[s + 1].segmentConstraints;
      ghost var sites := SampleSites(ns, s, constraints, j);
      ghost var done := SiteLog(drivetrain, sites, next);
      ghost var applied := Dispatch.ApplyAll(constraints, ContextAt(drivetrain, index), done.next);
      assert SampleSites(ns, s, constraints, j + 1) == sites + [Site(index, constraints)];
      SiteLogStep(drivetrain, sites, Site(index, constraints), next);
      Dispatch.ApplyAllAt(constraints, problem, ContextAt(drivetrain, index));
      P.AppendRuns(base, done.entries, applied.entries);
    }

    /**
     * Seeds x, y and heading from the guess; the wheel speeds and
     * accelerations at sample 0 with 0, and after it with the split of the
     * guess's speed and turn rate and its finite differences.
     */
    method ApplyInitialGuess(guess: DifferentialSolution, num: Numerics)
      requires Shaped() && PoseLaidOut() && WheelsLaidOut()
      requires CoversSamples(guess, SampleTotal(ns)) && NonzeroSeedSteps(guess, SampleTotal(ns))
      modifies problem
      ensures problem.values ==
        WheelSeeds(drivetrain, num, guess, PathSeeds(guess, old(problem.values), SampleTotal(ns)), SampleTotal(ns))
      ensures problem.entries == old(problem.entries) && problem.varCount == old(problem.varCount)
      ensures problem.objective == old(problem.objective)
    {
      var sampleTotal := |x|;
      var i := 0;
      while i < sampleTotal
        invariant 0 <= i <= sampleTotal
        invariant problem.values == PathSeeds(guess, old(problem.values), i)
        invariant problem.entries == old(problem.entries) && problem.varCount == old(problem.varCount)
        invariant problem.objective == old(problem.objective)
      {
        SeedPathSample(i, guess);
        i := i + 1;
      }
      SeedWheels(guess, num);
    }

    /** The wheel part of ApplyInitialGuess: zeros at sample 0, then the loop over samples 1 onwards. */
    method SeedWheels(guess: DifferentialSolution, num: Numerics)
      requires Shaped() && WheelsLaidOut()
      requires CoversSamples(guess, SampleTotal(ns)) && NonzeroSeedSteps(guess, SampleTotal(ns))
      modifies problem
      ensures problem.values == WheelSeeds(drivetrain, num, guess, old(problem.values), SampleTotal(ns))
      ensures problem.entries == old(problem.entries) && problem.varCount == old(problem.varCount)
      ensures problem.objective == old(problem.objective)
    {
      problem.SetValue(vl[0], 0.0);
      problem.SetValue(vr[0], 0.0);
      problem.SetValue(al[0], 0.0);
      problem.SetValue(ar[0], 0.0);
      assert problem.values == WheelSeeds(drivetrain, num, guess, old(problem.values), 1);
      var sampleTotal := |vl|;
      var i := 1;
      while i < sampleTotal
        invariant 1 <= i <= sampleTotal
        invariant problem.values == WheelSeeds(drivetrain, num, guess, old(problem.values), i)
        invariant problem.entries == old(problem.entries) && problem.varCount == old(problem.varCount)
        invariant problem.objective == old(problem.objective)
      {
        SeedWheelStep(i, guess, num, old(problem.values));
        i := i + 1;
      }
    }

    /** One pass of the wheel loop, stated as one more step of WheelSeeds from the values `base` before the loop. */
    method SeedWheelStep(i: nat, guess: DifferentialSolution, num: Numerics, ghost base: map<nat, real>)
      requires Shaped() && WheelsLaidOut() && 1 <= i < SampleTotal(ns)
      requires CoversSamples(guess, SampleTotal(ns)) && NonzeroSeedSteps(guess, SampleTotal(ns))
      requires problem.values == WheelSeeds(drivetrain, num, guess, base, i)
      modifies problem
      ensures problem.values == WheelSeeds(drivetrain, num, guess, base, i + 1)
      ensures problem.entries == old(problem.entries) && problem.varCount == old(problem.varCount)
      ensures problem.objective == old(problem.objective)
    {
      WheelSpeedSeedsAt(drivetrain, num, guess, base, i, i - 1);
      WheelSeedsStep(drivetrain, num, guess, base, i);
      SeedWheelSample(i, guess, num, problem.values);
    }

    /** One pass of the path loop: x, y and heading of sample i from the guess. */
    method SeedPathSample(i: nat, guess: DifferentialSolution)
      requires i < SampleTotal(ns) && CoversSamples(guess, SampleTotal(ns))
      requires PoseLaidOut()
      modifies problem
      ensures problem.values == old(problem.values)[SampleVar(i, XSlot) := guess.x[i]]
        [SampleVar(i, YSlot) := guess.y[i]][SampleVar(i, HeadingSlot) := guess.heading[i]]
      ensures problem.entries == old(problem.entries) && problem.varCount == old(problem.varCount)
      ensures problem.objective == old(problem.objective)
    {
      problem.SetValue(x[i], guess.x[i]);
      problem.SetValue(y[i], guess.y[i]);
      problem.SetValue(heading[i], guess.heading[i]);
    }

    /**
     * One pass of the wheel loop at sample i >= 1: the wheel speeds split from
     * the guess's speed and turn rate, then the accelerations from the wheel
     * speeds just set and those of sample i - 1.
     */
    method SeedWheelSample(i: nat, guess: DifferentialSolution, num: Numerics, ghost seeded: map<nat, real>)
      requires Shaped() && WheelsLaidOut() && 1 <= i < SampleTotal(ns)
      requires CoversSamples(guess, SampleTotal(ns)) && NonzeroSeedSteps(guess, SampleTotal(ns))
      requires problem.values == seeded
      requires P.Lookup(seeded, SampleVar(i - 1, VlSlot)) == SeedLeft(drivetrain, num, guess, i - 1)
      requires P.Lookup(seeded, SampleVar(i - 1, VrSlot)) == SeedRight(drivetrain, num, guess, i - 1)
      modifies problem
      ensures problem.values == seeded
        [SampleVar(i, VlSlot) := SeedLeft(drivetrain, num, guess, i)]
        [SampleVar(i, VrSlot) := SeedRight(drivetrain, num, guess, i)]
        [SampleVar(i, AlSlot) := SeedAccelLeft(drivetrain, num, guess, i)]
        [SampleVar(i, ArSlot) := SeedAccelRight(drivetrain, num, guess, i)]
      ensures problem.entries == old(problem.entries) && problem.varCount == old(problem.varCount)
      ensures problem.objective == old(problem.objective)
    {
      assert vl[i] == SampleVar(i, VlSlot) && vr[i] == SampleVar(i, VrSlot);
      assert al[i] == SampleVar(i, AlSlot) && ar[i] == SampleVar(i, ArSlot);
      assert vl[i - 1] == SampleVar(i - 1, VlSlot) && vr[i - 1] == SampleVar(i - 1, VrSlot);
      var linearVelocity := num.hypot(guess.x[i] - guess.x[i - 1], guess.y[i] - guess.y[i - 1]) / guess.dt[i];
      var omega := num.headingChange(guess.heading[i], guess.heading[i - 1]) / guess.dt[i];
      assert linearVelocity == SeedLinearVelocity(num, guess, i) && omega == SeedAngularVelocity(num, guess, i);
      problem.SetValue(vl[i], LeftWheel(drivetrain, linearVelocity, omega));
      problem.SetValue(vr[i], RightWheel(drivetrain, linearVelocity, omega));
      var left, lastLeft := problem.Value(vl[i]), problem.Value(vl[i - 1]);
      var accelLeft := FiniteDifference(left, lastLeft, guess.dt[i]);
      problem.SetValue(al[i], accelLeft);
      var right, lastRight := problem.Value(vr[i]), problem.Value(vr[i - 1]);
      var accelRight := FiniteDifference(right, lastRight, guess.dt[i]);
      problem.SetValue(ar[i], accelRight);
    }

    /** The timestep loop of the solution: each segment's timestep value, once per control interval. */
    method ExpandDtValues() returns (dtPerSample: seq<real>)
      requires Valid()
      ensures dtPerSample == ExpandTimesteps(ns, TimestepValues(ns, problem.values))
    {
      ghost var dtValues := TimestepValues(ns, problem.values);
      dtPerSample := [];
      var s := 0;
      while s < |ns|
        invariant 0 <= s <= |ns|
        invariant dtPerSample == ExpandTimesteps(ns[..s], dtValues[..s])
      {
        var n := ns[s];
        var dtValue := problem.Value(dts[s]);
        var i := 0;
        while i < n
          invariant 0 <= i <= n
          invariant dtPerSample == ExpandTimesteps(ns[..s], dtValues[..s]) + Repeat(i, dtValue)
        {
          dtPerSample := dtPerSample + [dtValue];
          i := i + 1;
        }
        assert dtValue == dtValues[s];
        ExpandTimestepsPrefix(ns, dtValues, s);
        s := s + 1;
      }
      assert ns[..|ns|] == ns && dtValues[..|ns|] == dtValues;
    }

    /** The turn-rate loop of the solution: (vr - vl) / trackwidth at every sample. */
    method TurnRates() returns (omega: seq<real>)
      requires Valid()
      ensures var n := SampleTotal(ns);
        var left, right := SampleValues(n, VlSlot, problem.values), SampleValues(n, VrSlot, problem.values);
        |omega| == n && forall j :: 0 <= j < n ==> omega[j] == TurnRate(drivetrain, left[j], right[j])
    {
      omega := [];
      var sample := 0;
      while sample < |vl|
        invariant 0 <= sample <= |vl|
        invariant |omega| == sample
        invariant forall j :: 0 <= j < sample ==>
          omega[j] == TurnRate(drivetrain, P.Lookup(problem.values, SampleVar(j, VlSlot)), P.Lookup(problem.values, SampleVar(j, VrSlot)))
      {
        omega := omega + [(problem.Value(vr[sample]) - problem.Value(vl[sample])) / drivetrain.trackwidth];
        sample := sample + 1;
      }
    }

    /** Collects the variables' current values into a solution. */
    method ConstructDifferentialSolution() returns (r: DifferentialSolution)
      requires Valid()
      ensures r == Solution(drivetrain, ns, problem.values)
    {
      var dtPerSample := ExpandDtValues();
      var omega := TurnRates();
      var values := problem.values;
      var sampTot := SampleTotal(ns);
      ValuesOfLaidOut(values, x, sampTot, XSlot);
      ValuesOfLaidOut(values, y, sampTot, YSlot);
      ValuesOfLaidOut(values, heading, sampTot, HeadingSlot);
      ValuesOfLaidOut(values, vl, sampTot, VlSlot);
      ValuesOfLaidOut(values, vr, sampTot, VrSlot);
      ValuesOfLaidOut(values, al, sampTot, AlSlot);
      ValuesOfLaidOut(values, ar, sampTot, ArSlot);
      ValuesOfLaidOut(values, fl, sampTot, FlSlot);
      ValuesOfLaidOut(values, fr, sampTot, FrSlot);
      r := DifferentialSolution(
        dtPerSample, ValuesOf(values, x), ValuesOf(values, y), ValuesOf(values, heading),
        ValuesOf(values, vl), ValuesOf(values, vr), omega,
        ValuesOf(values, al), ValuesOf(values, ar), ValuesOf(values, fl), ValuesOf(values, fr));
    }

    /**
     * Resets the cancellation flag and runs the solve. A negative exit
     * condition or a callback-requested stop is returned as the failure; any
     * other exit yields the assembled solution.
     */
    method Generate(outcome: P.SolveOutcome) returns (r: Result<DifferentialSolution, P.ExitCondition>)
      requires Valid()
      modifies problem, cancellation
      ensures cancellation.value == 0
      ensures problem.values == outcome.values
      ensures problem.entries == old(problem.entries) && problem.varCount == old(problem.varCount)
      ensures problem.objective == old(problem.objective)
      ensures IsFailureExit(outcome.exit) ==> r == Failure(outcome.exit)
      ensures !IsFailureExit(outcome.exit) ==> r == Success(Solution(drivetrain, ns, outcome.values))
    {
      cancellation.value := 0;
      var exit := problem.Solve(outcome);
      if exit.code < 0 || exit == CallbackRequestedStop {
        r := Failure(exit);
      } else {
        var solution := ConstructDifferentialSolution();
        r := Success(solution);
      }
    }
  }

  /** The values of the variables `ids`, in order. */
  function ValuesOf(values: map<nat, real>, ids: seq<nat>): (vs: seq<real>)
    ensures |vs| == |ids|
    ensures forall i :: 0 <= i < |ids| ==> vs[i] == P.Lookup(values, ids[i])
  {
    seq(|ids|, i requires 0 <= i < |ids| => P.Lookup(values, ids[i]))
  }

  /** Reading back laid-out variables gives the per-sample values of their slot. */
  lemma ValuesOfLaidOut(values: map<nat, real>, ids: seq<nat>, n: nat, k: nat)
    requires LaidOut(ids, n, k)
    ensures ValuesOf(values, ids) == SampleValues(n, k, values)
  {
  }
}
