/**
 * Symbolic scalars: the expressions and relations that the geometry and the
 * constraints hand to the optimisation engine. The engine itself (automatic
 * differentiation, the numerical solve) is not part of this model; an
 * environment `env` stands for one assignment of values to the decision
 * variables, and `Holds` says whether a recorded relation is satisfied by it.
 */
module Symbolic {

  /** A scalar expression over decision variables (sleipnir's Variable). */
  datatype Expr =
    | Const(value: real)
    | Var(id: nat)
    | Add(left: Expr, right: Expr)
    | Sub(left: Expr, right: Expr)
    | Mul(left: Expr, right: Expr)
    | Neg(operand: Expr)
      /** Division by a numeric constant; every division the core builds has a constant divisor. */
    | Div(numerator: Expr, denominator: real)

  /** A relation registered with SubjectTo; `a >= b` is recorded as Le(b, a). */
  datatype Relation =
    | Eq(lhs: Expr, rhs: Expr)
    | Le(lhs: Expr, rhs: Expr)
    | Lt(lhs: Expr, rhs: Expr)

  /** The value of `e` when every variable takes its value from `env`. A zero constant divisor has no IEEE counterpart over the reals and evaluates to 0. */
  function Eval(e: Expr, env: nat -> real): real {
    match e
    case Const(c) => c
    case Var(i) => env(i)
    case Add(l, r) => Eval(l, env) + Eval(r, env)
    case Sub(l, r) => Eval(l, env) - Eval(r, env)
    case Mul(l, r) => Eval(l, env) * Eval(r, env)
    case Neg(x) => -Eval(x, env)
    case Div(n, d) => if d == 0.0 then 0.0 else Eval(n, env) / d
  }

  predicate Holds(r: Relation, env: nat -> real) {
    match r
    case Eq(a, b) => Eval(a, env) == Eval(b, env)
    case Le(a, b) => Eval(a, env) <= Eval(b, env)
    case Lt(a, b) => Eval(a, env) < Eval(b, env)
  }

  predicate AllHold(rs: seq<Relation>, env: nat -> real) {
    forall i :: 0 <= i < |rs| ==> Holds(rs[i], env)
  }

  /** Two relations hold together exactly when each one holds. */
  lemma AllHoldPair(r0: Relation, r1: Relation, env: nat -> real)
    ensures AllHold([r0, r1], env) <==> Holds(r0, env) && Holds(r1, env)
  {
    var rs := [r0, r1];
    assert rs[0] == r0 && rs[1] == r1;
    if Holds(r0, env) && Holds(r1, env) {
      forall i | 0 <= i < |rs|
        ensures Holds(rs[i], env)
      {
        if i == 0 {
        } else {
          assert i == 1;
        }
      }
    }
  }

  /** Whether variable `id` occurs in `e`. */
  predicate Mentions(e: Expr, id: nat) {
    match e
    case Const(_) => false
    case Var(i) => i == id
    case Add(l, r) => Mentions(l, id) || Mentions(r, id)
    case Sub(l, r) => Mentions(l, id) || Mentions(r, id)
    case Mul(l, r) => Mentions(l, id) || Mentions(r, id)
    case Neg(x) => Mentions(x, id)
    case Div(n, _) => Mentions(n, id)
  }

  /** `env` with variable `id` set to `value`. */
  function Override(env: nat -> real, id: nat, value: real): (env': nat -> real)
    ensures env'(id) == value
    ensures forall i :: i != id ==> env'(i) == env(i)
  {
    (i: nat) => if i == id then value else env(i)
  }

  /** Changing a variable that does not occur in `e` leaves its value alone. */
  lemma {:induction false} EvalIgnoresOthers(e: Expr, id: nat, env: nat -> real, value: real)
    requires !Mentions(e, id)
    ensures Eval(e, Override(env, id, value)) == Eval(e, env)
  {
    match e
    case Const(_) =>
    case Var(_) =>
    case Add(l, r) => EvalIgnoresOthers(l, id, env, value); EvalIgnoresOthers(r, id, env, value);
    case Sub(l, r) => EvalIgnoresOthers(l, id, env, value); EvalIgnoresOthers(r, id, env, value);
    case Mul(l, r) => EvalIgnoresOthers(l, id, env, value); EvalIgnoresOthers(r, id, env, value);
    case Neg(x) => EvalIgnoresOthers(x, id, env, value);
    case Div(n, _) => EvalIgnoresOthers(n, id, env, value);
  }
}
