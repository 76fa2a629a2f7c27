/**
 * The keep-in circle constraint: the robot's position must stay within
 * `radius` of `center`. Apply follows equation (24) of the cited paper: one
 * scaling unknown alpha and two inequalities.
 */
module KeepInCircle {
  import opened Symbolic
  import C = Constraint
  import P = Problem

  /** |pose.translation - center|^2 as the engine's expression (distance.Dot(distance)). */
  function DistanceSquared(k: C.KeepInCircleConstraint, ctx: P.Context): Expr {
    var dx := Sub(ctx.x, Const(k.center.x));
    var dy := Sub(ctx.y, Const(k.center.y));
    Add(Mul(dx, dx), Mul(dy, dy))
  }

  /** The squared distance of the evaluated position from the centre. */
  function PointDistanceSquared(k: C.KeepInCircleConstraint, ctx: P.Context, env: nat -> real): (d: real)
    ensures d >= 0.0
  {
    var dx, dy := Eval(ctx.x, env) - k.center.x, Eval(ctx.y, env) - k.center.y;
    dx * dx + dy * dy
  }

  /** r^2, the constant the engine multiplies by alpha^2. */
  function RadiusSquared(k: C.KeepInCircleConstraint): real {
    k.radius * k.radius
  }

  /** The two relations Apply registers, with `alpha` the scaling unknown. */
  function Relations(k: C.KeepInCircleConstraint, ctx: P.Context, alpha: Expr): (rs: seq<Relation>)
    ensures |rs| == 2 && rs[0].Le? && rs[1] == Le(alpha, Const(1.0))
  {
    [ Le(DistanceSquared(k, ctx), Mul(Mul(Const(RadiusSquared(k)), alpha), alpha)),
      Le(alpha, Const(1.0)) ]
  }

  /** The log entries of one Apply whose scaling unknown is variable `alphaId`. */
  function Entries(k: C.KeepInCircleConstraint, ctx: P.Context, alphaId: nat): (es: seq<P.Entry>)
    ensures |es| == 2
    ensures forall i :: 0 <= i < 2 ==> es[i] == P.Subject(Relations(k, ctx, Var(alphaId))[i])
  {
    var rs := Relations(k, ctx, Var(alphaId));
    [P.Subject(rs[0]), P.Subject(rs[1])]
  }

  /** Allocates alpha, then registers |p - c|^2 <= r^2 alpha^2 and alpha <= 1. */
  method Apply(k: C.KeepInCircleConstraint, problem: P.OptimizationProblem, ctx: P.Context)
    modifies problem
    ensures problem.varCount == old(problem.varCount) + 1
    ensures problem.entries == old(problem.entries) + Entries(k, ctx, old(problem.varCount))
    ensures problem.values == old(problem.values) && problem.objective == old(problem.objective)
  {
    var alpha := problem.DecisionVariable();
    var rs := Relations(k, ctx, alpha);
    problem.SubjectTo(rs[0]);
    problem.SubjectTo(rs[1]);
  }

  /** The registered distance expression evaluates to the squared distance of the evaluated position. */
  lemma EvalDistanceSquared(k: C.KeepInCircleConstraint, ctx: P.Context, env: nat -> real)
    ensures Eval(DistanceSquared(k, ctx), env) == PointDistanceSquared(k, ctx, env)
  {
    var dx, dy := Sub(ctx.x, Const(k.center.x)), Sub(ctx.y, Const(k.center.y));
    assert Eval(Const(k.center.x), env) == k.center.x && Eval(Const(k.center.y), env) == k.center.y;
    var ex, ey := Eval(dx, env), Eval(dy, env);
    assert ex == Eval(ctx.x, env) - k.center.x && ey == Eval(ctx.y, env) - k.center.y;
    assert Eval(Mul(dx, dx), env) == ex * ex;
    assert Eval(Mul(dy, dy), env) == ey * ey;
  }

  /** r^2 alpha^2, the squared radius of the circle scaled by alpha. */
  function ScaledRadiusSquared(k: C.KeepInCircleConstraint, a: real): real {
    RadiusSquared(k) * a * a
  }

  /** The registered right-hand side r^2 alpha^2 evaluates to the scaled squared radius. */
  lemma EvalScaledRadius(k: C.KeepInCircleConstraint, alpha: Expr, env: nat -> real)
    ensures Eval(Mul(Mul(Const(RadiusSquared(k)), alpha), alpha), env) == ScaledRadiusSquared(k, Eval(alpha, env))
  {
    assert Eval(Const(RadiusSquared(k)), env) == RadiusSquared(k);
  }

  /** What the two relations demand of a solution. */
  lemma RelationsMeaning(k: C.KeepInCircleConstraint, ctx: P.Context, alpha: Expr, env: nat -> real)
    ensures AllHold(Relations(k, ctx, alpha), env) <==>
      var a := Eval(alpha, env);
      PointDistanceSquared(k, ctx, env) <= ScaledRadiusSquared(k, a) && a <= 1.0
  {
    var rs := Relations(k, ctx, alpha);
    EvalDistanceSquared(k, ctx, env);
    EvalScaledRadius(k, alpha, env);
    assert rs[0].lhs == DistanceSquared(k, ctx);
    assert rs[0].rhs == Mul(Mul(Const(RadiusSquared(k)), alpha), alpha);
    assert rs == [rs[0], rs[1]];
    AllHoldPair(rs[0], rs[1], env);
  }

  /** With alpha = 1 the relations say exactly that the position lies in the closed disk. */
  lemma UnitScaleIsDisk(k: C.KeepInCircleConstraint, ctx: P.Context, alpha: Expr, env: nat -> real)
    requires Eval(alpha, env) == 1.0
    ensures AllHold(Relations(k, ctx, alpha), env) <==> PointDistanceSquared(k, ctx, env) <= k.radius * k.radius
  {
    assert ScaledRadiusSquared(k, 1.0) == k.radius * k.radius;
    RelationsMeaning(k, ctx, alpha, env);
  }

  /** The absolute value of the radius. */
  function Abs(x: real): (m: real)
    ensures m >= 0.0 && m * m == x * x
  {
    if x < 0.0 then -x else x
  }

  /** A value of alpha that satisfies both relations wherever the position is: -(d + 1) / |r|. */
  function EscapeScale(k: C.KeepInCircleConstraint, ctx: P.Context, env: nat -> real): real
    requires k.radius != 0.0
  {
    -(PointDistanceSquared(k, ctx, env) + 1.0) / Abs(k.radius)
  }

  /** The arithmetic behind EscapeScale: a = -(d + 1) / |r| is at most 1 and r^2 a^2 = (d + 1)^2 >= d. */
  lemma EscapeArithmetic(k: C.KeepInCircleConstraint, d: real)
    requires k.radius != 0.0 && d >= 0.0
    ensures -(d + 1.0) / Abs(k.radius) <= 1.0
    ensures ScaledRadiusSquared(k, -(d + 1.0) / Abs(k.radius)) >= d
  {
    var r := Abs(k.radius);
    var a := -(d + 1.0) / r;
    assert a * r == -(d + 1.0);
    assert k.radius * k.radius * a * a == (a * r) * (a * r);
    assert (d + 1.0) * (d + 1.0) == d * d + 2.0 * d + 1.0;
  }

  /**
   * No lower bound on alpha is registered, so the two relations alone do not
   * keep the robot in the circle: whatever the position, a negative alpha
   * satisfies both (when the radius is not zero and alpha is a fresh unknown).
   */
  lemma NoLowerBoundOnScale(k: C.KeepInCircleConstraint, ctx: P.Context, alphaId: nat, env: nat -> real)
    requires k.radius != 0.0
    requires !Mentions(ctx.x, alphaId) && !Mentions(ctx.y, alphaId)
    ensures
      var env' := Override(env, alphaId, EscapeScale(k, ctx, env));
      && AllHold(Relations(k, ctx, Var(alphaId)), env')
      && PointDistanceSquared(k, ctx, env') == PointDistanceSquared(k, ctx, env)
  {
    var a := EscapeScale(k, ctx, env);
    var env' := Override(env, alphaId, a);
    EvalIgnoresOthers(ctx.x, alphaId, env, a);
    EvalIgnoresOthers(ctx.y, alphaId, env, a);
    var d := PointDistanceSquared(k, ctx, env);
    assert PointDistanceSquared(k, ctx, env') == d;
    EscapeArithmetic(k, d);
    assert a == -(d + 1.0) / Abs(k.radius);
    assert Eval(Var(alphaId), env') == a;
    RelationsMeaning(k, ctx, Var(alphaId), env');
  }
}
