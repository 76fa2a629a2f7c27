/**
 * The pure side of the differential drivetrain generator: the path and
 * solution records, the dynamics' linear parts, the initial timestep seed,
 * the wheel limits, and, for every phase of the generator's constructor,
 * the log entries it appends to the problem.
 */
module DifferentialModel {
  import opened Wrappers
  import opened Symbolic
  import opened DifferentialLayout
  import C = Constraint
  import P = Problem
  import Dispatch

  datatype Drivetrain = Drivetrain(
    mass: real, moi: real, trackwidth: real, wheelRadius: real,
    wheelMaxAngularVelocity: real, wheelMaxTorque: real, wheelCoF: real)

  /**
   * The drivetrain quantities the generator divides by. IEEE division by zero
   * (an infinity or NaN) has no counterpart over the reals.
   */
  predicate NonzeroDivisors(d: Drivetrain) {
    d.mass != 0.0 && d.moi != 0.0 && d.trackwidth != 0.0 && d.wheelRadius != 0.0
  }

  /** A waypoint's own constraints, and those of the segment that ends at it. */
  datatype Waypoint = Waypoint(waypointConstraints: seq<C.Constraint>, segmentConstraints: seq<C.Constraint>)

  /** The per-sample result arrays; `dt` holds one entry per control interval. */
  datatype DifferentialSolution = DifferentialSolution(
    dt: seq<real>, x: seq<real>, y: seq<real>, heading: seq<real>,
    vl: seq<real>, vr: seq<real>, omega: seq<real>,
    al: seq<real>, ar: seq<real>, fl: seq<real>, fr: seq<real>)

  /** std::min(a, b): b if b < a, otherwise a. */
  function StdMin(a: real, b: real): (m: real)
    ensures m <= a && m <= b
    ensures m == a || m == b
  {
    if b < a then b else a
  }

  // ---------------------------------------------------------------- dynamics

  /** A chassis velocity: forward speed and sideways speed (always 0 for a differential drive). */
  datatype ChassisSpeeds = ChassisSpeeds(vx: real, vy: real)

  /** Chassis speed from wheel speeds: the mean of the two, straight ahead. */
  function WheelToChassisSpeeds(vl: real, vr: real): ChassisSpeeds {
    ChassisSpeeds((vl + vr) / 2.0, 0.0)
  }

  /** The turn rate of wheel speeds vl, vr on a track of width tw. */
  function TurnRate(d: Drivetrain, vl: real, vr: real): real
    requires d.trackwidth != 0.0
  {
    (vr - vl) / d.trackwidth
  }

  /** Wheel speeds from a chassis speed v and turn rate omega: v - (tw/2) omega and v + (tw/2) omega. */
  function LeftWheel(d: Drivetrain, v: real, omega: real): real {
    v - d.trackwidth / 2.0 * omega
  }

  function RightWheel(d: Drivetrain, v: real, omega: real): real {
    v + d.trackwidth / 2.0 * omega
  }

  /** Splitting (v, omega) into wheel speeds and recombining them gives (v, omega) back. */
  lemma WheelSplitRoundTrip(d: Drivetrain, v: real, omega: real)
    requires d.trackwidth != 0.0
    ensures WheelToChassisSpeeds(LeftWheel(d, v, omega), RightWheel(d, v, omega)) == ChassisSpeeds(v, 0.0)
    ensures TurnRate(d, LeftWheel(d, v, omega), RightWheel(d, v, omega)) == omega
  {
    var h := d.trackwidth / 2.0 * omega;
    assert RightWheel(d, v, omega) - LeftWheel(d, v, omega) == 2.0 * h;
    assert 2.0 * h == d.trackwidth * omega;
  }

  /** Recombining wheel speeds into (v, omega) and splitting again gives the wheel speeds back. */
  lemma WheelCombineRoundTrip(d: Drivetrain, vl: real, vr: real)
    requires d.trackwidth != 0.0
    ensures LeftWheel(d, WheelToChassisSpeeds(vl, vr).vx, TurnRate(d, vl, vr)) == vl
    ensures RightWheel(d, WheelToChassisSpeeds(vl, vr).vx, TurnRate(d, vl, vr)) == vr
  {
    var w := TurnRate(d, vl, vr);
    assert d.trackwidth * w == vr - vl;
    assert d.trackwidth / 2.0 * w == (vr - vl) / 2.0;
  }

  /** A 2x2 matrix, row by row. */
  datatype Matrix2 = Matrix2(m00: real, m01: real, m10: real, m11: real)

  /** 1/m, the part of a wheel's acceleration per unit force that moves the chassis. */
  function InverseMass(d: Drivetrain): real
    requires d.mass != 0.0
  {
    1.0 / d.mass
  }

  /** r_b^2 / J with r_b = tw/2, the part that turns it. */
  function TurningInertia(d: Drivetrain): real
    requires d.moi != 0.0
  {
    var rb := d.trackwidth / 2.0;
    rb * rb / d.moi
  }

  /** The input matrix B of the wheel dynamics: d(vl, vr)/dt = B (Fl, Fr). */
  function InputMatrix(d: Drivetrain): (b: Matrix2)
    requires d.mass != 0.0 && d.moi != 0.0
    ensures b.m01 == b.m10 && b.m00 == b.m11
    ensures b.m00 + b.m01 == 2.0 * InverseMass(d)
    ensures b.m00 - b.m01 == 2.0 * TurningInertia(d)
  {
    var diag := InverseMass(d) + TurningInertia(d);
    var off := InverseMass(d) - TurningInertia(d);
    Matrix2(diag, off, off, diag)
  }

  /** A left and a right wheel quantity. */
  datatype WheelPair = WheelPair(left: real, right: real)

  /** B u for u = (fl, fr). */
  function Apply2(b: Matrix2, fl: real, fr: real): WheelPair {
    WheelPair(b.m00 * fl + b.m01 * fr, b.m10 * fl + b.m11 * fr)
  }

  /** Equal wheel forces F accelerate both wheels alike, by 2F/m: no turning. */
  lemma EqualForcesDriveStraight(d: Drivetrain, f: real)
    requires d.mass != 0.0 && d.moi != 0.0
    ensures Apply2(InputMatrix(d), f, f) == WheelPair(2.0 * InverseMass(d) * f, 2.0 * InverseMass(d) * f)
  {
    var b := InputMatrix(d);
    var im, ti := InverseMass(d), TurningInertia(d);
    assert b.m00 == im + ti && b.m01 == im - ti && b.m10 == b.m01 && b.m11 == b.m00;
    assert (im + ti) * f + (im - ti) * f == 2.0 * im * f;
    assert b.m00 * f + b.m01 * f == 2.0 * im * f;
    assert b.m10 * f + b.m11 * f == 2.0 * im * f;
  }

  /** Opposite wheel forces F, -F accelerate the wheels oppositely, by 2 r_b^2 F / J: pure turning. */
  lemma OppositeForcesTurn(d: Drivetrain, f: real)
    requires d.mass != 0.0 && d.moi != 0.0
    ensures Apply2(InputMatrix(d), f, -f) == WheelPair(2.0 * TurningInertia(d) * f, -(2.0 * TurningInertia(d) * f))
  {
    var b := InputMatrix(d);
    var im, ti := InverseMass(d), TurningInertia(d);
    assert b.m00 == im + ti && b.m01 == im - ti && b.m10 == b.m01 && b.m11 == b.m00;
    assert (im + ti) * f + (im - ti) * -f == 2.0 * ti * f;
    assert (im - ti) * f + (im + ti) * -f == -(2.0 * ti * f);
    assert b.m00 * f + b.m01 * -f == 2.0 * ti * f;
    assert b.m10 * f + b.m11 * -f == -(2.0 * ti * f);
  }

  /** The state (x, y, heading, vl, vr) of the dynamics. */
  datatype State = State(x: real, y: real, heading: real, vl: real, vr: real)

  /**
   * The dynamics f(x, u): position moves along the heading at the mean wheel
   * speed, the heading turns at (vr - vl)/tw, and the wheel speeds change by
   * B u. cos and sin of the heading are supplied by the caller.
   */
  function Dynamics(d: Drivetrain, s: State, fl: real, fr: real, cosHeading: real, sinHeading: real): (xdot: State)
    requires NonzeroDivisors(d)
    ensures xdot.heading == TurnRate(d, s.vl, s.vr)
    ensures WheelPair(xdot.vl, xdot.vr) == Apply2(InputMatrix(d), fl, fr)
  {
    var v := WheelToChassisSpeeds(s.vl, s.vr).vx;
    var bu := Apply2(InputMatrix(d), fl, fr);
    State(v * cosHeading, v * sinHeading, TurnRate(d, s.vl, s.vr), bu.left, bu.right)
  }

  // ------------------------------------------------------- timestep seeding

  /** The floating-point and trajectory helpers the seed uses, which are not part of this model. */
  datatype Numerics = Numerics(
    hypot: (real, real) -> real,
    angleModulus: real -> real,
    trapezoidalTime: (real, real, real) -> real,
    /** Rotation2d{h}.RotateBy(-Rotation2d{last}).Radians(): the signed angle from `last` to `h`. */
    headingChange: (real, real) -> real)

  function Abs(x: real): (a: real)
    ensures a >= 0.0 && (a == x || a == -x)
  {
    if x < 0.0 then -x else x
  }

  /** The largest wheel-torque force, used for the seed: 2 tau / r. */
  function SeedMaxForce(d: Drivetrain): real
    requires d.wheelRadius != 0.0
  {
    d.wheelMaxTorque * 2.0 / d.wheelRadius
  }

  function SeedMaxAccel(d: Drivetrain): real
    requires NonzeroDivisors(d)
  {
    SeedMaxForce(d) / d.mass
  }

  /** The top chassis speed r omega_max. */
  function MaxDrivetrainVelocity(d: Drivetrain): real {
    d.wheelRadius * d.wheelMaxAngularVelocity
  }

  function MaxAngularVelocity(d: Drivetrain): real
    requires NonzeroDivisors(d)
  {
    MaxDrivetrainVelocity(d) * 2.0 / d.trackwidth
  }

  function MaxAngularAccel(d: Drivetrain): real
    requires NonzeroDivisors(d)
  {
    SeedMaxAccel(d) * 2.0 / d.trackwidth
  }

  /**
   * min(vmax, dist / angularTime). When angularTime is 0 the IEEE quotient is
   * +infinity or NaN, and std::min returns its first argument in both cases.
   */
  function CapVelocity(vmax: real, dist: real, angularTime: real): (v: real)
    ensures v <= vmax
    ensures angularTime != 0.0 ==> v <= dist / angularTime
    ensures v == vmax || (angularTime != 0.0 && v == dist / angularTime)
  {
    if angularTime == 0.0 then vmax else StdMin(vmax, dist / angularTime)
  }

  /** The seeded path: its (x, y, heading) at every sample. */
  predicate CoversSamples(guess: DifferentialSolution, n: nat) {
    |guess.x| >= n && |guess.y| >= n && |guess.heading| >= n && |guess.dt| >= n
  }

  /**
   * The time the seed gives segment s: the time to turn through the heading
   * change at the angular limits, plus the time to cover the straight-line
   * distance at a speed capped so the turn fits in.
   */
  function SegmentTime(d: Drivetrain, num: Numerics, ns: seq<nat>, guess: DifferentialSolution, s: nat): real
    requires NonzeroDivisors(d)
    requires s < |ns| && CoversSamples(guess, SampleTotal(ns))
  {
    SegmentSpan(ns, s);
    SumMonotone(ns, s + 1, |ns|);
    assert ns[..|ns|] == ns;
    var start, end := GetIndex(ns, s, 0), GetIndex(ns, s + 1, 0);
    var dist := num.hypot(guess.x[end] - guess.x[start], guess.y[end] - guess.y[start]);
    var dTheta := Abs(num.angleModulus(guess.heading[end] - guess.heading[start]));
    var angularTime := num.trapezoidalTime(dTheta, MaxAngularVelocity(d), MaxAngularAccel(d));
    var maxLinearVel := CapVelocity(MaxDrivetrainVelocity(d), dist, angularTime);
    var linearTime := num.trapezoidalTime(dist, maxLinearVel, SeedMaxAccel(d));
    angularTime + linearTime
  }

  /** The initial value of segment s's timestep: 0 for a segment without intervals, else its time split evenly over them. */
  function SeedTimestep(d: Drivetrain, num: Numerics, ns: seq<nat>, guess: DifferentialSolution, s: nat): (dt: real)
    requires NonzeroDivisors(d)
    requires s < |ns| && CoversSamples(guess, SampleTotal(ns))
    ensures ns[s] == 0 ==> dt == 0.0
    ensures ns[s] > 0 ==> dt * (ns[s] as real) == SegmentTime(d, num, ns, guess, s)
  {
    if ns[s] == 0 then 0.0 else SegmentTime(d, num, ns, guess, s) / (ns[s] as real)
  }

  /** Seeds spread over every interval add up to the segments' times. */
  lemma SeedsCoverSegmentTimes(d: Drivetrain, num: Numerics, ns: seq<nat>, guess: DifferentialSolution, s: nat)
    requires NonzeroDivisors(d)
    requires s < |ns| && CoversSamples(guess, SampleTotal(ns)) && ns[s] > 0
    ensures (ns[s] as real) * SeedTimestep(d, num, ns, guess, s) == SegmentTime(d, num, ns, guess, s)
  {
  }

  // -------------------------------------------------------------- relations

  /** The two bounds on a segment's timestep: dt >= 0 and dt r omega_max <= tw. */
  function TimestepRelations(d: Drivetrain, dt: nat): (rs: seq<Relation>)
    ensures |rs| == 2
  {
    [ Le(Const(0.0), Var(dt)),
      Le(Mul(Mul(Var(dt), Const(d.wheelRadius)), Const(d.wheelMaxAngularVelocity)), Const(d.trackwidth)) ]
  }

  /** What the timestep bounds demand of a solution. */
  lemma TimestepRelationsMeaning(d: Drivetrain, dt: nat, env: nat -> real)
    ensures AllHold(TimestepRelations(d, dt), env) <==>
      0.0 <= env(dt) && env(dt) * d.wheelRadius * d.wheelMaxAngularVelocity <= d.trackwidth
  {
    var rs := TimestepRelations(d, dt);
    assert Eval(Const(d.wheelRadius), env) == d.wheelRadius;
    assert Eval(Mul(Var(dt), Const(d.wheelRadius)), env) == env(dt) * d.wheelRadius;
    assert Eval(rs[1].lhs, env) == env(dt) * d.wheelRadius * d.wheelMaxAngularVelocity;
    assert rs == [rs[0], rs[1]];
    AllHoldPair(rs[0], rs[1], env);
  }

  /** The log of the timestep loop over timestep variables `dts`. */
  function TimestepLog(d: Drivetrain, dts: seq<nat>): (es: seq<P.Entry>)
    ensures |es| == 2 * |dts|
  {
    if dts == [] then []
    else
      var rs := TimestepRelations(d, dts[|dts| - 1]);
      TimestepLog(d, dts[..|dts| - 1]) + [P.Subject(rs[0]), P.Subject(rs[1])]
  }

  /** The timestep log of the first s + 1 segments extends that of the first s by segment s's two bounds. */
  lemma TimestepLogStep(d: Drivetrain, dts: seq<nat>, s: nat)
    requires s < |dts|
    ensures var rs := TimestepRelations(d, dts[s]);
      TimestepLog(d, dts[..s + 1]) == TimestepLog(d, dts[..s]) + [P.Subject(rs[0]), P.Subject(rs[1])]
  {
    assert dts[..s + 1][..s] == dts[..s];
  }

  /** The objective: the sum over segments of dt N, added up from 0 in segment order. */
  function TotalTime(ns: seq<nat>, dts: seq<nat>): Expr
    requires |dts| == |ns|
  {
    if ns == [] then Const(0.0)
    else Add(TotalTime(ns[..|ns| - 1], dts[..|dts| - 1]), Mul(Var(dts[|dts| - 1]), Const(ns[|ns| - 1] as real)))
  }

  /** The running objective over the first s + 1 segments adds segment s's term to that of the first s. */
  lemma TotalTimeStep(ns: seq<nat>, dts: seq<nat>, s: nat)
    requires |dts| == |ns| && s < |ns|
    ensures TotalTime(ns[..s + 1], dts[..s + 1]) == Add(TotalTime(ns[..s], dts[..s]), Mul(Var(dts[s]), Const(ns[s] as real)))
  {
    assert ns[..s + 1][..s] == ns[..s] && dts[..s + 1][..s] == dts[..s];
  }

  /** The objective's value is the total duration N_0 dt_0 + ... at the variables' values. */
  lemma {:induction false} TotalTimeValue(ns: seq<nat>, dts: seq<nat>, env: nat -> real)
    requires |dts| == |ns|
    ensures Eval(TotalTime(ns, dts), env) == TotalDuration(ns, seq(|dts|, i requires 0 <= i < |dts| => env(dts[i])))
  {
    var values := seq(|dts|, i requires 0 <= i < |dts| => env(dts[i]));
    if ns != [] {
      var n := |ns|;
      var init := dts[..n - 1];
      TotalTimeValue(ns[..n - 1], init, env);
      assert values[..n - 1] == seq(|init|, i requires 0 <= i < |init| => env(init[i]));
      assert Eval(Const(ns[n - 1] as real), env) == ns[n - 1] as real;
      assert Eval(Mul(Var(dts[n - 1]), Const(ns[n - 1] as real)), env) == env(dts[n - 1]) * (ns[n - 1] as real);
    }
  }

  /** The highest wheel speed r omega_max. */
  function MaxWheelVelocity(d: Drivetrain): real {
    d.wheelRadius * d.wheelMaxAngularVelocity
  }

  /** The highest wheel force: the smaller of the torque limit tau/r and the friction limit mu m g. */
  function MaxWheelForce(d: Drivetrain): (f: real)
    requires d.wheelRadius != 0.0
    ensures f <= d.wheelMaxTorque / d.wheelRadius && f <= d.wheelCoF * d.mass * 9.8
    ensures f == d.wheelMaxTorque / d.wheelRadius || f == d.wheelCoF * d.mass * 9.8
  {
    StdMin(d.wheelMaxTorque / d.wheelRadius, d.wheelCoF * d.mass * 9.8)
  }

  /** The eight strict wheel bounds of one sample. */
  function BoundRelations(d: Drivetrain, index: nat): (rs: seq<Relation>)
    requires d.wheelRadius != 0.0
    ensures |rs| == 8
  {
    var v, f := MaxWheelVelocity(d), MaxWheelForce(d);
    var vl, vr := Var(SampleVar(index, VlSlot)), Var(SampleVar(index, VrSlot));
    var fl, fr := Var(SampleVar(index, FlSlot)), Var(SampleVar(index, FrSlot));
    [ Lt(Const(-v), vl), Lt(vl, Const(v)), Lt(Const(-v), vr), Lt(vr, Const(v)),
      Lt(Const(-f), fl), Lt(fl, Const(f)), Lt(Const(-f), fr), Lt(fr, Const(f)) ]
  }

  /** |value| < limit, as the pair of strict bounds states it. */
  predicate StrictlyWithin(value: real, limit: real) {
    -limit < value < limit
  }

  /** What the bounds of one sample demand of a solution. */
  lemma BoundRelationsMeaning(d: Drivetrain, index: nat, env: nat -> real)
    requires d.wheelRadius != 0.0
    ensures AllHold(BoundRelations(d, index), env) <==>
      && StrictlyWithin(env(SampleVar(index, VlSlot)), MaxWheelVelocity(d))
      && StrictlyWithin(env(SampleVar(index, VrSlot)), MaxWheelVelocity(d))
      && StrictlyWithin(env(SampleVar(index, FlSlot)), MaxWheelForce(d))
      && StrictlyWithin(env(SampleVar(index, FrSlot)), MaxWheelForce(d))
  {
    var rs := BoundRelations(d, index);
    if forall i :: 0 <= i < 8 ==> Holds(rs[i], env) {
      assert Holds(rs[0], env) && Holds(rs[1], env) && Holds(rs[2], env) && Holds(rs[3], env);
      assert Holds(rs[4], env) && Holds(rs[5], env) && Holds(rs[6], env) && Holds(rs[7], env);
    }
  }

  /** The entries of one pass of the bounds loop: its eight relations, in order. */
  function BoundEntries(d: Drivetrain, index: nat): (es: seq<P.Entry>)
    requires d.wheelRadius != 0.0
    ensures |es| == 8
    ensures forall i :: 0 <= i < 8 ==> es[i] == P.Subject(BoundRelations(d, index)[i])
  {
    var rs := BoundRelations(d, index);
    [ P.Subject(rs[0]), P.Subject(rs[1]), P.Subject(rs[2]), P.Subject(rs[3]),
      P.Subject(rs[4]), P.Subject(rs[5]), P.Subject(rs[6]), P.Subject(rs[7]) ]
  }

  /** The log of the wheel-bound loop over samples 0 .. n - 1. */
  function BoundsLog(d: Drivetrain, n: nat): (es: seq<P.Entry>)
    requires d.wheelRadius != 0.0
    ensures |es| == 8 * n
  {
    if n == 0 then []
    else
      BoundsLog(d, n - 1) + BoundEntries(d, n - 1)
  }

  /** The acceleration B u of the left (row 0) or right (row 1) wheel at sample `index`. */
  function WheelAccel(d: Drivetrain, index: nat, row: nat): Expr
    requires d.mass != 0.0 && d.moi != 0.0
  {
    var b := InputMatrix(d);
    var fl, fr := Var(SampleVar(index, FlSlot)), Var(SampleVar(index, FrSlot));
    if row == 0 then Add(Mul(Const(b.m00), fl), Mul(Const(b.m01), fr))
    else Add(Mul(Const(b.m10), fl), Mul(Const(b.m11), fr))
  }

  /** The entries of one collocation interval: the collocation equality, then al = (B u)_0 and ar = (B u)_1. */
  function IntervalEntries(d: Drivetrain, index: nat, dt: nat): (es: seq<P.Entry>)
    requires d.mass != 0.0 && d.moi != 0.0
    ensures |es| == 3
  {
    [ P.Collocation(index, dt),
      P.Subject(Eq(Var(SampleVar(index, AlSlot)), WheelAccel(d, index, 0))),
      P.Subject(Eq(Var(SampleVar(index, ArSlot)), WheelAccel(d, index, 1))) ]
  }

  /** The acceleration variables registered at a sample equal B u at that sample's forces. */
  lemma IntervalEntriesMeaning(d: Drivetrain, index: nat, dt: nat, env: nat -> real)
    requires d.mass != 0.0 && d.moi != 0.0
    ensures var es := IntervalEntries(d, index, dt);
      (Holds(es[1].relation, env) && Holds(es[2].relation, env)) <==>
      WheelPair(env(SampleVar(index, AlSlot)), env(SampleVar(index, ArSlot))) ==
        Apply2(InputMatrix(d), env(SampleVar(index, FlSlot)), env(SampleVar(index, FrSlot)))
  {
    var b := InputMatrix(d);
    var fl, fr := env(SampleVar(index, FlSlot)), env(SampleVar(index, FrSlot));
    assert Eval(Const(b.m00), env) == b.m00 && Eval(Const(b.m01), env) == b.m01;
    assert Eval(Const(b.m10), env) == b.m10 && Eval(Const(b.m11), env) == b.m11;
    var vfl, vfr := Var(SampleVar(index, FlSlot)), Var(SampleVar(index, FrSlot));
    assert Eval(vfl, env) == fl && Eval(vfr, env) == fr;
    assert Eval(Mul(Const(b.m00), vfl), env) == b.m00 * fl;
    assert Eval(Mul(Const(b.m01), vfr), env) == b.m01 * fr;
    assert Eval(Mul(Const(b.m10), vfl), env) == b.m10 * fl;
    assert Eval(Mul(Const(b.m11), vfr), env) == b.m11 * fr;
    assert Eval(WheelAccel(d, index, 0), env) == b.m00 * fl + b.m01 * fr;
    assert Eval(WheelAccel(d, index, 1), env) == b.m10 * fl + b.m11 * fr;
    var es := IntervalEntries(d, index, dt);
    var al, ar := env(SampleVar(index, AlSlot)), env(SampleVar(index, ArSlot));
    assert Holds(es[1].relation, env) <==> al == b.m00 * fl + b.m01 * fr;
    assert Holds(es[2].relation, env) <==> ar == b.m10 * fl + b.m11 * fr;
  }

  /** The entries of samples 0 .. i - 1 of segment w. */
  function SegmentDynamics(d: Drivetrain, ns: seq<nat>, dts: seq<nat>, w: nat, i: nat): (es: seq<P.Entry>)
    requires d.mass != 0.0 && d.moi != 0.0
    requires |dts| == |ns| && w < |ns|
    ensures |es| == 3 * i
  {
    if i == 0 then []
    else SegmentDynamics(d, ns, dts, w, i - 1) + IntervalEntries(d, GetIndex(ns, w, i - 1), dts[w])
  }

  /** The log of the dynamics loop over segments 0 .. n - 1. */
  function DynamicsLog(d: Drivetrain, ns: seq<nat>, dts: seq<nat>, n: nat): (es: seq<P.Entry>)
    requires d.mass != 0.0 && d.moi != 0.0
    requires |dts| == |ns| && n <= |ns|
    ensures |es| == 3 * Sum(ns[..n])
  {
    if n == 0 then []
    else
      SumStep(ns, n - 1);
      DynamicsLog(d, ns, dts, n - 1) + SegmentDynamics(d, ns, dts, n - 1, ns[n - 1])
  }

  // ---------------------------------------------------------- dispatch sites

  /** The expressions a constraint is applied to at sample `index`. */
  function ContextAt(d: Drivetrain, index: nat): P.Context {
    var vl, vr := Var(SampleVar(index, VlSlot)), Var(SampleVar(index, VrSlot));
    var al, ar := Var(SampleVar(index, AlSlot)), Var(SampleVar(index, ArSlot));
    P.Context(
      Var(SampleVar(index, XSlot)), Var(SampleVar(index, YSlot)), Var(SampleVar(index, HeadingSlot)),
      Div(Add(vl, vr), 2.0), Const(0.0), Div(Sub(vr, vl), d.trackwidth),
      Div(Add(al, ar), 2.0), Const(0.0), Div(Sub(ar, al), d.trackwidth))
  }

  /** The context's velocity and turn rate evaluate to WheelToChassisSpeeds and TurnRate of the wheel values. */
  lemma ContextAtMeaning(d: Drivetrain, index: nat, env: nat -> real)
    requires d.trackwidth != 0.0
    ensures var ctx := ContextAt(d, index);
      var vl, vr := env(SampleVar(index, VlSlot)), env(SampleVar(index, VrSlot));
      && ChassisSpeeds(Eval(ctx.vx, env), Eval(ctx.vy, env)) == WheelToChassisSpeeds(vl, vr)
      && Eval(ctx.omega, env) == TurnRate(d, vl, vr)
  {
    var ctx := ContextAt(d, index);
    var vl, vr := env(SampleVar(index, VlSlot)), env(SampleVar(index, VrSlot));
    var evl, evr := Var(SampleVar(index, VlSlot)), Var(SampleVar(index, VrSlot));
    assert Eval(evl, env) == vl && Eval(evr, env) == vr;
    assert Eval(Add(evl, evr), env) == vl + vr;
    assert Eval(Sub(evr, evl), env) == vr - vl;
    assert Eval(ctx.vx, env) == (vl + vr) / 2.0;
    assert Eval(ctx.vy, env) == 0.0;
    assert Eval(ctx.omega, env) == (vr - vl) / d.trackwidth;
  }

  /** A sample and the constraints applied at it. */
  datatype Site = Site(index: nat, constraints: seq<C.Constraint>)

  /** The sites of waypoints 0 .. w - 1: waypoint w's constraints are applied once, at its first sample. */
  function WaypointSites(ns: seq<nat>, ws: seq<Waypoint>, w: nat): (sites: seq<Site>)
    requires |ns| == |ws| - 1 && w <= |ws|
    ensures |sites| == w
  {
    if w == 0 then [] else WaypointSites(ns, ws, w - 1) + [Site(GetIndex(ns, w - 1, 0), ws[w - 1].waypointConstraints)]
  }

  /** The waypoint sites are the waypoints in order, each at its first sample. */
  lemma {:induction false} WaypointSitesAt(ns: seq<nat>, ws: seq<Waypoint>, w: nat, k: nat)
    requires |ns| == |ws| - 1 && k < w <= |ws|
    ensures WaypointSites(ns, ws, w)[k] == Site(GetIndex(ns, k, 0), ws[k].waypointConstraints)
  {
    if k < w - 1 {
      WaypointSitesAt(ns, ws, w - 1, k);
    }
  }

  /** The first j samples of segment s, each carrying the constraints `cs`. */
  function SampleSites(ns: seq<nat>, s: nat, cs: seq<C.Constraint>, j: nat): (sites: seq<Site>)
    requires s < |ns|
    ensures |sites| == j
  {
    if j == 0 then [] else SampleSites(ns, s, cs, j - 1) + [Site(GetIndex(ns, s, j - 1), cs)]
  }

  lemma {:induction false} SampleSitesAt(ns: seq<nat>, s: nat, cs: seq<C.Constraint>, j: nat, k: nat)
    requires s < |ns| && k < j
    ensures SampleSites(ns, s, cs, j)[k] == Site(GetIndex(ns, s, k), cs)
  {
    if k < j - 1 {
      SampleSitesAt(ns, s, cs, j - 1, k);
    }
  }

  /** The sites of segments 0 .. n - 1: the constraints of waypoint s + 1 at every sample of segment s. */
  function SegmentSites(ns: seq<nat>, ws: seq<Waypoint>, n: nat): (sites: seq<Site>)
    requires |ns| == |ws| - 1 && n <= |ns|
    ensures |sites| == Sum(ns[..n])
  {
    if n == 0 then []
    else
      SumStep(ns, n - 1);
      SegmentSites(ns, ws, n - 1) + SampleSites(ns, n - 1, ws[n].segmentConstraints, ns[n - 1])
  }

  /**
   * The segment sites are the samples 0 .. Sum(Ns) - 1 in order, and sample k
   * carries the segment constraints of the waypoint that ends k's segment.
   */
  lemma {:induction false} SegmentSitesAt(ns: seq<nat>, ws: seq<Waypoint>, n: nat, k: nat)
    requires |ns| == |ws| - 1 && n <= |ns| && k < Sum(ns[..n])
    ensures SegmentSites(ns, ws, n)[k].index == k
    ensures Locate(ns[..n], k).0 < n
    ensures SegmentSites(ns, ws, n)[k].constraints == ws[Locate(ns[..n], k).0 + 1].segmentConstraints
  {
    if n > 0 {
      var m := n - 1;
      var pre := ns[..n];
      assert pre[..m] == ns[..m];
      var front := SegmentSites(ns, ws, m);
      var back := SampleSites(ns, m, ws[n].segmentConstraints, ns[m]);
      assert SegmentSites(ns, ws, n) == front + back;
      if k < Sum(ns[..m]) {
        assert Locate(pre, k) == Locate(ns[..m], k);
        SegmentSitesAt(ns, ws, m, k);
      } else {
        var j := k - Sum(ns[..m]);
        assert Locate(pre, k) == (m, j);
        SumStep(ns, m);
        SampleSitesAt(ns, m, ws[n].segmentConstraints, ns[m], j);
      }
    }
  }

  /** The entries and the next free variable after applying every site's constraints in order. */
  function SiteLog(d: Drivetrain, sites: seq<Site>, next: nat): (r: Dispatch.Lowered)
    ensures next <= r.next
  {
    if sites == [] then Dispatch.Lowered([], next)
    else
      var init := SiteLog(d, sites[..|sites| - 1], next);
      var last := sites[|sites| - 1];
      var applied := Dispatch.ApplyAll(last.constraints, ContextAt(d, last.index), init.next);
      Dispatch.Lowered(init.entries + applied.entries, applied.next)
  }

  /** Applying the sites one more site at a time. */
  lemma SiteLogStep(d: Drivetrain, sites: seq<Site>, site: Site, next: nat)
    ensures var init := SiteLog(d, sites, next);
      var applied := Dispatch.ApplyAll(site.constraints, ContextAt(d, site.index), init.next);
      SiteLog(d, sites + [site], next) == Dispatch.Lowered(init.entries + applied.entries, applied.next)
  {
    assert (sites + [site])[..|sites|] == sites;
  }

  /** Applying two runs of sites one after the other. */
  lemma {:induction false} SiteLogAppend(d: Drivetrain, a: seq<Site>, b: seq<Site>, next: nat)
    ensures var first := SiteLog(d, a, next);
      var second := SiteLog(d, b, first.next);
      SiteLog(d, a + b, next) == Dispatch.Lowered(first.entries + second.entries, second.next)
    decreases |b|
  {
    if b == [] {
      assert a + b == a;
      var first := SiteLog(d, a, next);
      assert SiteLog(d, b, first.next) == Dispatch.Lowered([], first.next);
      assert first.entries + [] == first.entries;
    } else {
      var b', last := b[..|b| - 1], b[|b| - 1];
      assert b == b' + [last];
      assert a + b == (a + b') + [last];
      SiteLogAppend(d, a, b', next);
      var first := SiteLog(d, a, next);
      var mid := SiteLog(d, b', first.next);
      var applied := Dispatch.ApplyAll(last.constraints, ContextAt(d, last.index), mid.next);
      SiteLogStep(d, b', last, first.next);
      SiteLogStep(d, a + b', last, next);
      P.AppendRuns(first.entries, mid.entries, applied.entries);
    }
  }

  /** The keep-in circles over all the sites' constraint lists. */
  function SiteKeepInCount(sites: seq<Site>): nat {
    if sites == [] then 0
    else SiteKeepInCount(sites[..|sites| - 1]) + Dispatch.KeepInCount(sites[|sites| - 1].constraints)
  }

  /** Applying the sites allocates one variable per keep-in circle among their constraints, and nothing else. */
  lemma {:induction false} SiteLogAllocates(d: Drivetrain, sites: seq<Site>, next: nat)
    ensures SiteLog(d, sites, next).next == next + SiteKeepInCount(sites)
  {
    if sites != [] {
      var init := sites[..|sites| - 1];
      var last := sites[|sites| - 1];
      SiteLogAllocates(d, init, next);
      Dispatch.ApplyAllAllocates(last.constraints, ContextAt(d, last.index), SiteLog(d, init, next).next);
    }
  }

  // ------------------------------------------------------------- solution

  /** The value of every segment's timestep variable, in segment order. */
  function TimestepValues(ns: seq<nat>, values: map<nat, real>): (dts: seq<real>)
    ensures |dts| == |ns|
  {
    seq(|ns|, (s: nat) => P.Lookup(values, DtVar(SampleTotal(ns), s)))
  }

  /** Slot k's value at samples 0 .. n - 1. */
  function SampleValues(n: nat, k: nat, values: map<nat, real>): (vs: seq<real>)
    ensures |vs| == n
  {
    seq(n, (i: nat) => P.Lookup(values, SampleVar(i, k)))
  }

  /**
   * The solution assembled from the variables' values: per-sample timesteps
   * (each segment's value repeated once per interval), the nine per-sample
   * vectors, and the turn rate of every sample's wheel speeds.
   */
  function Solution(d: Drivetrain, ns: seq<nat>, values: map<nat, real>): (r: DifferentialSolution)
    requires d.trackwidth != 0.0
    ensures |r.dt| == Sum(ns) && |r.x| == SampleTotal(ns)
  {
    var n := SampleTotal(ns);
    var vl, vr := SampleValues(n, VlSlot, values), SampleValues(n, VrSlot, values);
    DifferentialSolution(
      ExpandTimesteps(ns, TimestepValues(ns, values)),
      SampleValues(n, XSlot, values), SampleValues(n, YSlot, values), SampleValues(n, HeadingSlot, values),
      vl, vr, seq(n, (i: nat) requires i < n => TurnRate(d, vl[i], vr[i])),
      SampleValues(n, AlSlot, values), SampleValues(n, ArSlot, values),
      SampleValues(n, FlSlot, values), SampleValues(n, FrSlot, values))
  }

  /**
   * The solution's timestep array has one entry per control interval: sample
   * i of segment w carries segment w's timestep, and the entries add up to
   * the value of the objective the problem minimises.
   */
  lemma SolutionTimesteps(d: Drivetrain, ns: seq<nat>, values: map<nat, real>, w: nat, i: nat)
    requires d.trackwidth != 0.0 && w < |ns| && i < ns[w]
    ensures GetIndex(ns, w, i) < |Solution(d, ns, values).dt|
    ensures Solution(d, ns, values).dt[GetIndex(ns, w, i)] == P.Lookup(values, DtVar(SampleTotal(ns), w))
  {
    ExpandTimestepsAt(ns, TimestepValues(ns, values), w, i);
  }

  lemma SolutionDuration(d: Drivetrain, ns: seq<nat>, values: map<nat, real>)
    requires d.trackwidth != 0.0
    ensures SumReals(Solution(d, ns, values).dt) ==
      Eval(TotalTime(ns, DtColumn(SampleTotal(ns), |ns|)), (id: nat) => P.Lookup(values, id))
  {
    var dts := DtColumn(SampleTotal(ns), |ns|);
    var env := (id: nat) => P.Lookup(values, id);
    var timesteps := TimestepValues(ns, values);
    assert Solution(d, ns, values).dt == ExpandTimesteps(ns, timesteps);
    ExpandTimestepsTotal(ns, timesteps);
    TotalTimeValue(ns, dts, env);
    DtColumnValues(ns, values, env);
  }

  /** The timestep column read through an environment that agrees with `values` is the timestep values. */
  lemma DtColumnValues(ns: seq<nat>, values: map<nat, real>, env: nat -> real)
    requires forall id :: env(id) == P.Lookup(values, id)
    ensures var dts := DtColumn(SampleTotal(ns), |ns|);
      seq(|dts|, i requires 0 <= i < |dts| => env(dts[i])) == TimestepValues(ns, values)
  {
  }

  /** Every sample's forward speed and turn rate recombine into its wheel speeds. */
  lemma SolutionWheels(d: Drivetrain, ns: seq<nat>, values: map<nat, real>, i: nat)
    requires d.trackwidth != 0.0 && i < SampleTotal(ns)
    ensures var r := Solution(d, ns, values);
      && LeftWheel(d, WheelToChassisSpeeds(r.vl[i], r.vr[i]).vx, r.omega[i]) == r.vl[i]
      && RightWheel(d, WheelToChassisSpeeds(r.vl[i], r.vr[i]).vx, r.omega[i]) == r.vr[i]
  {
    var r := Solution(d, ns, values);
    WheelCombineRoundTrip(d, r.vl[i], r.vr[i]);
  }

  // ------------------------------------------------------------ initial guess

  /** The chassis speed the seed gives sample i >= 1: the straight-line distance from sample i - 1 over dt[i]. */
  function SeedLinearVelocity(num: Numerics, guess: DifferentialSolution, i: nat): real
    requires 1 <= i && CoversSamples(guess, i + 1) && guess.dt[i] != 0.0
  {
    num.hypot(guess.x[i] - guess.x[i - 1], guess.y[i] - guess.y[i - 1]) / guess.dt[i]
  }

  /** The turn rate the seed gives sample i >= 1: the heading change from sample i - 1 over dt[i]. */
  function SeedAngularVelocity(num: Numerics, guess: DifferentialSolution, i: nat): real
    requires 1 <= i && CoversSamples(guess, i + 1) && guess.dt[i] != 0.0
  {
    num.headingChange(guess.heading[i], guess.heading[i - 1]) / guess.dt[i]
  }

  /** The seed's timesteps from sample 1 on are nonzero (the model's stand-in for IEEE division). */
  predicate NonzeroSeedSteps(guess: DifferentialSolution, n: nat)
    requires CoversSamples(guess, n)
  {
    forall i :: 1 <= i < n ==> guess.dt[i] != 0.0
  }

  /** The seeded left and right wheel speeds: 0 at sample 0, the split of (v, omega) after it. */
  function SeedLeft(d: Drivetrain, num: Numerics, guess: DifferentialSolution, i: nat): real
    requires CoversSamples(guess, i + 1) && NonzeroSeedSteps(guess, i + 1)
  {
    if i == 0 then 0.0
    else LeftWheel(d, SeedLinearVelocity(num, guess, i), SeedAngularVelocity(num, guess, i))
  }

  function SeedRight(d: Drivetrain, num: Numerics, guess: DifferentialSolution, i: nat): real
    requires CoversSamples(guess, i + 1) && NonzeroSeedSteps(guess, i + 1)
  {
    if i == 0 then 0.0
    else RightWheel(d, SeedLinearVelocity(num, guess, i), SeedAngularVelocity(num, guess, i))
  }

  /** The backward difference (now - last) / dt. */
  function FiniteDifference(now: real, last: real, dt: real): real
    requires dt != 0.0
  {
    (now - last) / dt
  }

  /** The seeded wheel accelerations: 0 at sample 0, the change of wheel speed over dt[i] after it. */
  function SeedAccelLeft(d: Drivetrain, num: Numerics, guess: DifferentialSolution, i: nat): real
    requires CoversSamples(guess, i + 1) && NonzeroSeedSteps(guess, i + 1)
  {
    if i == 0 then 0.0
    else FiniteDifference(SeedLeft(d, num, guess, i), SeedLeft(d, num, guess, i - 1), guess.dt[i])
  }

  function SeedAccelRight(d: Drivetrain, num: Numerics, guess: DifferentialSolution, i: nat): real
    requires CoversSamples(guess, i + 1) && NonzeroSeedSteps(guess, i + 1)
  {
    if i == 0 then 0.0
    else FiniteDifference(SeedRight(d, num, guess, i), SeedRight(d, num, guess, i - 1), guess.dt[i])
  }

  /**
   * From sample 1 on, the seeded wheel speeds move the chassis at the seeded
   * speed and turn it at the seeded rate; at sample 0 everything is at rest.
   */
  lemma SeedWheelsMatchChassis(d: Drivetrain, num: Numerics, guess: DifferentialSolution, i: nat)
    requires d.trackwidth != 0.0
    requires CoversSamples(guess, i + 1) && NonzeroSeedSteps(guess, i + 1)
    ensures i == 0 ==> SeedLeft(d, num, guess, i) == 0.0 && SeedRight(d, num, guess, i) == 0.0
    ensures i == 0 ==> SeedAccelLeft(d, num, guess, i) == 0.0 && SeedAccelRight(d, num, guess, i) == 0.0
    ensures i >= 1 ==>
      && WheelToChassisSpeeds(SeedLeft(d, num, guess, i), SeedRight(d, num, guess, i)).vx == SeedLinearVelocity(num, guess, i)
      && TurnRate(d, SeedLeft(d, num, guess, i), SeedRight(d, num, guess, i)) == SeedAngularVelocity(num, guess, i)
  {
    if i >= 1 {
      WheelSplitRoundTrip(d, SeedLinearVelocity(num, guess, i), SeedAngularVelocity(num, guess, i));
    }
  }

  /** The seeded accelerations are the finite differences of the seeded wheel speeds. */
  lemma SeedAccelIsDifference(d: Drivetrain, num: Numerics, guess: DifferentialSolution, i: nat)
    requires 1 <= i && CoversSamples(guess, i + 1) && NonzeroSeedSteps(guess, i + 1)
    ensures SeedAccelLeft(d, num, guess, i) * guess.dt[i] == SeedLeft(d, num, guess, i) - SeedLeft(d, num, guess, i - 1)
    ensures SeedAccelRight(d, num, guess, i) * guess.dt[i] == SeedRight(d, num, guess, i) - SeedRight(d, num, guess, i - 1)
  {
  }

  /** The path seed: every sample's x, y and heading come from the initial guess. */
  predicate SeededPath(guess: DifferentialSolution, n: nat, values: map<nat, real>)
    requires CoversSamples(guess, n)
  {
    forall i :: 0 <= i < n ==>
      && P.Lookup(values, SampleVar(i, XSlot)) == guess.x[i]
      && P.Lookup(values, SampleVar(i, YSlot)) == guess.y[i]
      && P.Lookup(values, SampleVar(i, HeadingSlot)) == guess.heading[i]
  }

  /** The wheel seed: every sample's wheel speeds and accelerations are the seeded ones. */
  predicate SeededWheels(d: Drivetrain, num: Numerics, guess: DifferentialSolution, n: nat, values: map<nat, real>)
    requires CoversSamples(guess, n) && NonzeroSeedSteps(guess, n)
  {
    forall i :: 0 <= i < n ==>
      && P.Lookup(values, SampleVar(i, VlSlot)) == SeedLeft(d, num, guess, i)
      && P.Lookup(values, SampleVar(i, VrSlot)) == SeedRight(d, num, guess, i)
      && P.Lookup(values, SampleVar(i, AlSlot)) == SeedAccelLeft(d, num, guess, i)
      && P.Lookup(values, SampleVar(i, ArSlot)) == SeedAccelRight(d, num, guess, i)
  }

  /** The timestep seed: every segment's timestep variable holds its seed. */
  predicate SeededTimesteps(d: Drivetrain, num: Numerics, ns: seq<nat>, guess: DifferentialSolution, values: map<nat, real>)
    requires NonzeroDivisors(d) && CoversSamples(guess, SampleTotal(ns))
  {
    forall s :: 0 <= s < |ns| ==> P.Lookup(values, DtVar(SampleTotal(ns), s)) == SeedTimestep(d, num, ns, guess, s)
  }

  /** The values after the timestep loop has seeded segments 0 .. s - 1, starting from `values`. */
  function TimestepSeeds(d: Drivetrain, num: Numerics, ns: seq<nat>, guess: DifferentialSolution,
                         values: map<nat, real>, s: nat): map<nat, real>
    requires NonzeroDivisors(d) && CoversSamples(guess, SampleTotal(ns)) && s <= |ns|
  {
    if s == 0 then values
    else TimestepSeeds(d, num, ns, guess, values, s - 1)[DtVar(SampleTotal(ns), s - 1) := SeedTimestep(d, num, ns, guess, s - 1)]
  }

  /** Segment j's timestep holds its seed once the loop is past j. */
  lemma {:induction false} TimestepSeedsAt(d: Drivetrain, num: Numerics, ns: seq<nat>, guess: DifferentialSolution,
                                           values: map<nat, real>, s: nat, j: nat)
    requires NonzeroDivisors(d) && CoversSamples(guess, SampleTotal(ns)) && j < s <= |ns|
    ensures P.Lookup(TimestepSeeds(d, num, ns, guess, values, s), DtVar(SampleTotal(ns), j)) == SeedTimestep(d, num, ns, guess, j)
  {
    if j < s - 1 {
      TimestepSeedsAt(d, num, ns, guess, values, s - 1, j);
    }
  }

  /** The timestep loop sets no variable below the first timestep. */
  lemma {:induction false} TimestepSeedsKeep(d: Drivetrain, num: Numerics, ns: seq<nat>, guess: DifferentialSolution,
                                             values: map<nat, real>, s: nat, id: nat)
    requires NonzeroDivisors(d) && CoversSamples(guess, SampleTotal(ns)) && s <= |ns|
    requires id < DtVar(SampleTotal(ns), 0)
    ensures id in TimestepSeeds(d, num, ns, guess, values, s) <==> id in values
    ensures P.Lookup(TimestepSeeds(d, num, ns, guess, values, s), id) == P.Lookup(values, id)
  {
    if s > 0 {
      TimestepSeedsKeep(d, num, ns, guess, values, s - 1, id);
    }
  }

  /** The values after the path loop of ApplyInitialGuess has seeded samples 0 .. i - 1. */
  function PathSeeds(guess: DifferentialSolution, values: map<nat, real>, i: nat): map<nat, real>
    requires CoversSamples(guess, i)
  {
    if i == 0 then values
    else
      PathSeeds(guess, values, i - 1)
        [SampleVar(i - 1, XSlot) := guess.x[i - 1]]
        [SampleVar(i - 1, YSlot) := guess.y[i - 1]]
        [SampleVar(i - 1, HeadingSlot) := guess.heading[i - 1]]
  }

  /** Sample j's pose holds the guess's pose once the loop is past j. */
  lemma {:induction false} PathSeedsAt(guess: DifferentialSolution, values: map<nat, real>, i: nat, j: nat)
    requires CoversSamples(guess, i) && j < i
    ensures var m := PathSeeds(guess, values, i);
      && P.Lookup(m, SampleVar(j, XSlot)) == guess.x[j]
      && P.Lookup(m, SampleVar(j, YSlot)) == guess.y[j]
      && P.Lookup(m, SampleVar(j, HeadingSlot)) == guess.heading[j]
  {
    if j < i - 1 {
      PathSeedsAt(guess, values, i - 1, j);
      LayoutDistinct(i - 1, XSlot, j, XSlot);
      LayoutDistinct(i - 1, XSlot, j, YSlot);
      LayoutDistinct(i - 1, XSlot, j, HeadingSlot);
      LayoutDistinct(i - 1, YSlot, j, XSlot);
      LayoutDistinct(i - 1, YSlot, j, YSlot);
      LayoutDistinct(i - 1, YSlot, j, HeadingSlot);
      LayoutDistinct(i - 1, HeadingSlot, j, XSlot);
      LayoutDistinct(i - 1, HeadingSlot, j, YSlot);
      LayoutDistinct(i - 1, HeadingSlot, j, HeadingSlot);
    }
  }

  /** The path loop sets only pose slots of samples below i. */
  lemma {:induction false} PathSeedsKeep(guess: DifferentialSolution, values: map<nat, real>, i: nat, id: nat)
    requires CoversSamples(guess, i)
    requires id >= SampleVar(i, 0) || exists j: nat, k: nat :: 3 <= k < VarsPerSample && id == SampleVar(j, k)
    ensures id in PathSeeds(guess, values, i) <==> id in values
    ensures P.Lookup(PathSeeds(guess, values, i), id) == P.Lookup(values, id)
  {
    if i > 0 {
      if id < SampleVar(i, 0) {
        var j: nat, k: nat :| 3 <= k < VarsPerSample && id == SampleVar(j, k);
        LayoutDistinct(i - 1, XSlot, j, k);
        LayoutDistinct(i - 1, YSlot, j, k);
        LayoutDistinct(i - 1, HeadingSlot, j, k);
      }
      PathSeedsKeep(guess, values, i - 1, id);
    }
  }

  /** The values after ApplyInitialGuess has seeded the wheels of samples 0 .. i - 1. */
  function WheelSeeds(d: Drivetrain, num: Numerics, guess: DifferentialSolution, values: map<nat, real>, i: nat): map<nat, real>
    requires CoversSamples(guess, i) && NonzeroSeedSteps(guess, i)
  {
    if i == 0 then values
    else
      WheelSeeds(d, num, guess, values, i - 1)
        [SampleVar(i - 1, VlSlot) := SeedLeft(d, num, guess, i - 1)]
        [SampleVar(i - 1, VrSlot) := SeedRight(d, num, guess, i - 1)]
        [SampleVar(i - 1, AlSlot) := SeedAccelLeft(d, num, guess, i - 1)]
        [SampleVar(i - 1, ArSlot) := SeedAccelRight(d, num, guess, i - 1)]
  }

  /** One more pass of the wheel loop adds sample i's four seeds. */
  lemma WheelSeedsStep(d: Drivetrain, num: Numerics, guess: DifferentialSolution, values: map<nat, real>, i: nat)
    requires CoversSamples(guess, i + 1) && NonzeroSeedSteps(guess, i + 1)
    ensures WheelSeeds(d, num, guess, values, i + 1) == WheelSeeds(d, num, guess, values, i)
      [SampleVar(i, VlSlot) := SeedLeft(d, num, guess, i)]
      [SampleVar(i, VrSlot) := SeedRight(d, num, guess, i)]
      [SampleVar(i, AlSlot) := SeedAccelLeft(d, num, guess, i)]
      [SampleVar(i, ArSlot) := SeedAccelRight(d, num, guess, i)]
  {
  }

  /** Setting sample i's four wheel slots leaves every variable of an earlier sample alone. */
  lemma WheelUpdateKeeps(m: map<nat, real>, i: nat, vl: real, vr: real, al: real, ar: real, id: nat)
    requires id < SampleVar(i, 0)
    ensures P.Lookup(m[SampleVar(i, VlSlot) := vl][SampleVar(i, VrSlot) := vr][SampleVar(i, AlSlot) := al][SampleVar(i, ArSlot) := ar], id)
      == P.Lookup(m, id)
  {
  }

  /** Sample j's wheel speeds hold their seeds once the loop is past j. */
  lemma {:induction false} WheelSpeedSeedsAt(d: Drivetrain, num: Numerics, guess: DifferentialSolution, values: map<nat, real>, i: nat, j: nat)
    requires CoversSamples(guess, i) && NonzeroSeedSteps(guess, i) && j < i
    ensures P.Lookup(WheelSeeds(d, num, guess, values, i), SampleVar(j, VlSlot)) == SeedLeft(d, num, guess, j)
    ensures P.Lookup(WheelSeeds(d, num, guess, values, i), SampleVar(j, VrSlot)) == SeedRight(d, num, guess, j)
  {
    WheelSeedsStep(d, num, guess, values, i - 1);
    if j < i - 1 {
      WheelSpeedSeedsAt(d, num, guess, values, i - 1, j);
      var m := WheelSeeds(d, num, guess, values, i - 1);
      var vl, vr := SeedLeft(d, num, guess, i - 1), SeedRight(d, num, guess, i - 1);
      var al, ar := SeedAccelLeft(d, num, guess, i - 1), SeedAccelRight(d, num, guess, i - 1);
      WheelUpdateKeeps(m, i - 1, vl, vr, al, ar, SampleVar(j, VlSlot));
      WheelUpdateKeeps(m, i - 1, vl, vr, al, ar, SampleVar(j, VrSlot));
    }
  }

  /** Sample j's wheel accelerations hold their seeds once the loop is past j. */
  lemma {:induction false} WheelAccelSeedsAt(d: Drivetrain, num: Numerics, guess: DifferentialSolution, values: map<nat, real>, i: nat, j: nat)
    requires CoversSamples(guess, i) && NonzeroSeedSteps(guess, i) && j < i
    ensures P.Lookup(WheelSeeds(d, num, guess, values, i), SampleVar(j, AlSlot)) == SeedAccelLeft(d, num, guess, j)
    ensures P.Lookup(WheelSeeds(d, num, guess, values, i), SampleVar(j, ArSlot)) == SeedAccelRight(d, num, guess, j)
  {
    WheelSeedsStep(d, num, guess, values, i - 1);
    if j < i - 1 {
      WheelAccelSeedsAt(d, num, guess, values, i - 1, j);
      var m := WheelSeeds(d, num, guess, values, i - 1);
      var vl, vr := SeedLeft(d, num, guess, i - 1), SeedRight(d, num, guess, i - 1);
      var al, ar := SeedAccelLeft(d, num, guess, i - 1), SeedAccelRight(d, num, guess, i - 1);
      WheelUpdateKeeps(m, i - 1, vl, vr, al, ar, SampleVar(j, AlSlot));
      WheelUpdateKeeps(m, i - 1, vl, vr, al, ar, SampleVar(j, ArSlot));
    }
  }

  /** The wheel seeding sets only wheel slots of samples below i. */
  lemma {:induction false} WheelSeedsKeep(d: Drivetrain, num: Numerics, guess: DifferentialSolution, values: map<nat, real>, i: nat, id: nat)
    requires CoversSamples(guess, i) && NonzeroSeedSteps(guess, i)
    requires id >= SampleVar(i, 0) || exists j: nat, k: nat :: (k < 3 || 7 <= k < VarsPerSample) && id == SampleVar(j, k)
    ensures id in WheelSeeds(d, num, guess, values, i) <==> id in values
    ensures P.Lookup(WheelSeeds(d, num, guess, values, i), id) == P.Lookup(values, id)
  {
    if i > 0 {
      if id < SampleVar(i, 0) {
        var j: nat, k: nat :| (k < 3 || 7 <= k < VarsPerSample) && id == SampleVar(j, k);
        LayoutDistinct(i - 1, VlSlot, j, k);
        LayoutDistinct(i - 1, VrSlot, j, k);
        LayoutDistinct(i - 1, AlSlot, j, k);
        LayoutDistinct(i - 1, ArSlot, j, k);
      }
      WheelSeedsKeep(d, num, guess, values, i - 1, id);
    }
  }

  /**
   * The values the constructor leaves in the problem: the timestep seeds,
   * then the guess's poses, then the seeded wheel speeds and accelerations.
   */
  function InitialValues(d: Drivetrain, num: Numerics, ns: seq<nat>, guess: DifferentialSolution): map<nat, real>
    requires NonzeroDivisors(d)
    requires CoversSamples(guess, SampleTotal(ns)) && NonzeroSeedSteps(guess, SampleTotal(ns))
  {
    var n := SampleTotal(ns);
    WheelSeeds(d, num, guess, PathSeeds(guess, TimestepSeeds(d, num, ns, guess, map[], |ns|), n), n)
  }

  /**
   * After construction every timestep holds its seed, every sample's pose
   * holds the guess's pose, every sample's wheels hold their seeds, and no
   * force has a value (the solver starts them at 0).
   */
  lemma InitialValuesMeaning(d: Drivetrain, num: Numerics, ns: seq<nat>, guess: DifferentialSolution)
    requires NonzeroDivisors(d)
    requires CoversSamples(guess, SampleTotal(ns)) && NonzeroSeedSteps(guess, SampleTotal(ns))
    ensures var values := InitialValues(d, num, ns, guess);
      && SeededTimesteps(d, num, ns, guess, values)
      && SeededPath(guess, SampleTotal(ns), values)
      && SeededWheels(d, num, guess, SampleTotal(ns), values)
      && forall i :: 0 <= i < SampleTotal(ns) ==> SampleVar(i, FlSlot) !in values && SampleVar(i, FrSlot) !in values
  {
    var n := SampleTotal(ns);
    var t := TimestepSeeds(d, num, ns, guess, map[], |ns|);
    var p := PathSeeds(guess, t, n);
    var values := InitialValues(d, num, ns, guess);
    forall s | 0 <= s < |ns|
      ensures P.Lookup(values, DtVar(n, s)) == SeedTimestep(d, num, ns, guess, s)
    {
      TimestepSeedsAt(d, num, ns, guess, map[], |ns|, s);
      PathSeedsKeep(guess, t, n, DtVar(n, s));
      WheelSeedsKeep(d, num, guess, p, n, DtVar(n, s));
    }
    forall i | 0 <= i < n
      ensures P.Lookup(values, SampleVar(i, XSlot)) == guess.x[i]
      ensures P.Lookup(values, SampleVar(i, YSlot)) == guess.y[i]
      ensures P.Lookup(values, SampleVar(i, HeadingSlot)) == guess.heading[i]
    {
      PathSeedsAt(guess, t, n, i);
      WheelSeedsKeep(d, num, guess, p, n, SampleVar(i, XSlot));
      WheelSeedsKeep(d, num, guess, p, n, SampleVar(i, YSlot));
      WheelSeedsKeep(d, num, guess, p, n, SampleVar(i, HeadingSlot));
    }
    forall i | 0 <= i < n
      ensures SampleVar(i, FlSlot) !in values && SampleVar(i, FrSlot) !in values
    {
      SampleBeforeDt(n, i, FlSlot, 0);
      SampleBeforeDt(n, i, FrSlot, 0);
      TimestepSeedsKeep(d, num, ns, guess, map[], |ns|, SampleVar(i, FlSlot));
      TimestepSeedsKeep(d, num, ns, guess, map[], |ns|, SampleVar(i, FrSlot));
      PathSeedsKeep(guess, t, n, SampleVar(i, FlSlot));
      PathSeedsKeep(guess, t, n, SampleVar(i, FrSlot));
      WheelSeedsKeep(d, num, guess, p, n, SampleVar(i, FlSlot));
      WheelSeedsKeep(d, num, guess, p, n, SampleVar(i, FrSlot));
    }
    forall i | 0 <= i < n
      ensures P.Lookup(values, SampleVar(i, VlSlot)) == SeedLeft(d, num, guess, i)
      ensures P.Lookup(values, SampleVar(i, VrSlot)) == SeedRight(d, num, guess, i)
      ensures P.Lookup(values, SampleVar(i, AlSlot)) == SeedAccelLeft(d, num, guess, i)
      ensures P.Lookup(values, SampleVar(i, ArSlot)) == SeedAccelRight(d, num, guess, i)
    {
      WheelSpeedSeedsAt(d, num, guess, p, n, i);
      WheelAccelSeedsAt(d, num, guess, p, n, i);
    }
  }

  // ------------------------------------------------------------ exit status

  /** sleipnir's kCallbackRequestedStop (2 in that library, which is not part of this model). */
  const CallbackRequestedStop: P.ExitCondition := P.ExitCondition(2)

  /** Generate's test: negative exit conditions and a callback-requested stop are failures. */
  predicate IsFailureExit(e: P.ExitCondition) {
    e.code < 0 || e == CallbackRequestedStop
  }

  /** Success and acceptable-tolerance exits are not failures; cancellation and every negative code are. */
  lemma ExitClassification(e: P.ExitCondition)
    ensures e.code == 0 || e.code == 1 ==> !IsFailureExit(e)
    ensures e.code == 2 ==> IsFailureExit(e)
    ensures e.code > 2 ==> !IsFailureExit(e)
  {
  }
}
