/**
 * The std::visit dispatch the generator performs for every constraint it
 * applies: whatever the kind, its Apply is called with the problem and the
 * sample's context and only ever appends to the problem. The lane and the
 * keep-in circle lower themselves as their own modules say; every other
 * kind's Apply is recorded as one delegated log entry.
 */
module Dispatch {
  import C = Constraint
  import P = Problem
  import KeepInCircle
  import Lane

  /** Entries appended to the problem, and the next free variable number afterwards. */
  datatype Lowered = Lowered(entries: seq<P.Entry>, next: nat)

  /** What one Apply appends. */
  function Lowering(c: C.Constraint, ctx: P.Context, next: nat): (r: Lowered)
    ensures r.next == next + (if c.KeepInCircle? then 1 else 0)
    ensures 1 <= |r.entries| <= 2
  {
    match c
    case KeepInCircle(k) => Lowered(KeepInCircle.Entries(k, ctx, next), next + 1)
    case Lane(l) => Lowered(Lane.Entries(l, ctx), next)
    case _ => Lowered([P.Delegated(c, ctx)], next)
  }

  /** Visits `c` and calls its Apply. */
  method ApplyConstraint(c: C.Constraint, problem: P.OptimizationProblem, ctx: P.Context)
    modifies problem
    ensures problem.entries == old(problem.entries) + Lowering(c, ctx, old(problem.varCount)).entries
    ensures problem.varCount == Lowering(c, ctx, old(problem.varCount)).next
    ensures problem.values == old(problem.values) && problem.objective == old(problem.objective)
  {
    match c
    case KeepInCircle(k) =>
      KeepInCircle.Apply(k, problem, ctx);
    case Lane(l) =>
      Lane.Apply(l, problem, ctx);
    case _ =>
      problem.Record(P.Delegated(c, ctx));
  }

  /** The entries and the next free variable after applying `cs` in order. */
  function ApplyAll(cs: seq<C.Constraint>, ctx: P.Context, next: nat): (r: Lowered)
    ensures |cs| <= |r.entries| <= 2 * |cs|
    ensures next <= r.next <= next + |cs|
  {
    if cs == [] then Lowered([], next)
    else
      var init := ApplyAll(cs[..|cs| - 1], ctx, next);
      var last := Lowering(cs[|cs| - 1], ctx, init.next);
      Lowered(init.entries + last.entries, last.next)
  }

  /** Whether a kind's Apply is recorded as a single delegated entry. */
  predicate IsDelegated(c: C.Constraint) {
    !c.KeepInCircle? && !c.Lane?
  }

  /**
   * A list of constraints none of which is a lane or a keep-in circle lowers
   * to one delegated entry per constraint, in list order, and allocates nothing.
   */
  lemma {:induction false} ApplyAllDelegated(cs: seq<C.Constraint>, ctx: P.Context, next: nat)
    requires forall i :: 0 <= i < |cs| ==> IsDelegated(cs[i])
    ensures ApplyAll(cs, ctx, next).entries == seq(|cs|, i requires 0 <= i < |cs| => P.Delegated(cs[i], ctx))
    ensures ApplyAll(cs, ctx, next).next == next
  {
    if cs != [] {
      var init := cs[..|cs| - 1];
      ApplyAllDelegated(init, ctx, next);
      var s := seq(|cs|, i requires 0 <= i < |cs| => P.Delegated(cs[i], ctx));
      assert s == seq(|init|, i requires 0 <= i < |init| => P.Delegated(init[i], ctx)) + [P.Delegated(cs[|cs| - 1], ctx)];
    }
  }

  /** The number of keep-in circles in `cs`: the variables applying `cs` allocates. */
  function KeepInCount(cs: seq<C.Constraint>): (n: nat)
    ensures n <= |cs|
  {
    if cs == [] then 0
    else KeepInCount(cs[..|cs| - 1]) + (if cs[|cs| - 1].KeepInCircle? then 1 else 0)
  }

  /** Applying a list allocates exactly one variable per keep-in circle in it. */
  lemma {:induction false} ApplyAllAllocates(cs: seq<C.Constraint>, ctx: P.Context, next: nat)
    ensures ApplyAll(cs, ctx, next).next == next + KeepInCount(cs)
  {
    if cs != [] {
      ApplyAllAllocates(cs[..|cs| - 1], ctx, next);
    }
  }

  /** Applies every constraint of `cs`, in order, at one sample. */
  method ApplyAllAt(cs: seq<C.Constraint>, problem: P.OptimizationProblem, ctx: P.Context)
    modifies problem
    ensures problem.entries == old(problem.entries) + ApplyAll(cs, ctx, old(problem.varCount)).entries
    ensures problem.varCount == ApplyAll(cs, ctx, old(problem.varCount)).next
    ensures problem.values == old(problem.values) && problem.objective == old(problem.objective)
  {
    var i := 0;
    while i < |cs|
      invariant 0 <= i <= |cs|
      invariant problem.entries == old(problem.entries) + ApplyAll(cs[..i], ctx, old(problem.varCount)).entries
      invariant problem.varCount == ApplyAll(cs[..i], ctx, old(problem.varCount)).next
      invariant problem.values == old(problem.values) && problem.objective == old(problem.objective)
    {
      assert cs[..i + 1][..i] == cs[..i];
      ApplyConstraint(cs[i], problem, ctx);
      i := i + 1;
    }
    assert cs[..|cs|] == cs;
  }
}
