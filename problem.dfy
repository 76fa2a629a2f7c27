/**
 * The optimisation problem as the core sees it: a recorder that hands out
 * fresh decision variables, keeps every relation registered with SubjectTo
 * in order, remembers the seed (initial value) of each variable and the
 * objective. The numerical solve is not part of this model: Solve takes the
 * engine's outcome as a parameter.
 */
module Problem {
  import opened Wrappers
  import opened Symbolic
  import C = Constraint

  /** The values a constraint is applied to at one sample: pose, velocity, angular velocity, acceleration, angular acceleration. */
  datatype Context = Context(
    x: Expr, y: Expr, heading: Expr,
    vx: Expr, vy: Expr, omega: Expr,
    ax: Expr, ay: Expr, alpha: Expr)

  /** One item of the problem's log, in registration order. */
  datatype Entry =
      /** A relation registered with SubjectTo. */
    | Subject(relation: Relation)
      /** The Apply of a constraint kind whose lowering is not part of this model, at one sample. */
    | Delegated(constraint: C.Constraint, at: Context)
      /** The Hermite-Simpson collocation equality between samples `index` and `index + 1`, with timestep variable `dt`. */
    | Collocation(index: nat, dt: nat)

  /** The terminal status the engine reports; negative codes are failures. */
  datatype ExitCondition = ExitCondition(code: int)

  /** What one run of the engine produces: its exit condition and a value for every variable. */
  datatype SolveOutcome = SolveOutcome(exit: ExitCondition, values: map<nat, real>)

  /** Appending two runs of entries one after the other appends their concatenation. */
  lemma AppendRuns(log: seq<Entry>, a: seq<Entry>, b: seq<Entry>)
    ensures log + a + b == log + (a + b)
  {
  }

  /** The log entries that are relations, in order. */
  function Relations(es: seq<Entry>): (rs: seq<Relation>)
    ensures |rs| <= |es|
    ensures forall r :: r in rs <==> Subject(r) in es
  {
    if es == [] then []
    else Relations(es[..|es| - 1]) + (if es[|es| - 1].Subject? then [es[|es| - 1].relation] else [])
  }

  /** The value of variable `id` in `values`; a variable never set has value 0. */
  function Lookup(values: map<nat, real>, id: nat): (v: real)
    ensures id in values ==> v == values[id]
    ensures id !in values ==> v == 0.0
  {
    if id in values then values[id] else 0.0
  }

  class OptimizationProblem {
    /** Variables are numbered 0, 1, 2, ... in order of allocation. */
    var varCount: nat
    var entries: seq<Entry>
    /** Seeds before the solve, solved values after it; a variable never set has value 0. */
    var values: map<nat, real>
    var objective: Option<Expr>

    constructor ()
      ensures varCount == 0 && entries == [] && values == map[] && objective == None
    {
      varCount := 0;
      entries := [];
      values := map[];
      objective := None;
    }

    /** A fresh unknown: the next variable number. */
    method DecisionVariable() returns (v: Expr)
      modifies this
      ensures v == Var(old(varCount)) && varCount == old(varCount) + 1
      ensures entries == old(entries) && values == old(values) && objective == old(objective)
    {
      v := Var(varCount);
      varCount := varCount + 1;
    }

    method SubjectTo(r: Relation)
      modifies this
      ensures entries == old(entries) + [Subject(r)]
      ensures varCount == old(varCount) && values == old(values) && objective == old(objective)
    {
      entries := entries + [Subject(r)];
    }

    /** Appends a log entry that is not a plain relation (a delegated Apply, a collocation equality). */
    method Record(e: Entry)
      modifies this
      ensures entries == old(entries) + [e]
      ensures varCount == old(varCount) && values == old(values) && objective == old(objective)
    {
      entries := entries + [e];
    }

    method Minimize(cost: Expr)
      modifies this
      ensures objective == Some(cost)
      ensures varCount == old(varCount) && entries == old(entries) && values == old(values)
    {
      objective := Some(cost);
    }

    /** Seeds variable `id` with `value`. */
    method SetValue(id: nat, value: real)
      modifies this
      ensures values == old(values)[id := value]
      ensures varCount == old(varCount) && entries == old(entries) && objective == old(objective)
    {
      values := values[id := value];
    }

    /** The current value of variable `id`. */
    function Value(id: nat): (v: real)
      reads this
      ensures v == Lookup(values, id)
    {
      Lookup(values, id)
    }

    /** The current values as an environment for Eval and Holds. */
    function Env(): (env: nat -> real)
      reads this
      ensures forall id :: env(id) == Value(id)
    {
      var m := values;
      (id: nat) => Lookup(m, id)
    }

    /** Runs the engine; the outcome is supplied by the caller. */
    method Solve(outcome: SolveOutcome) returns (exit: ExitCondition)
      modifies this
      ensures exit == outcome.exit && values == outcome.values
      ensures varCount == old(varCount) && entries == old(entries) && objective == old(objective)
    {
      values := outcome.values;
      exit := outcome.exit;
    }
  }
}
