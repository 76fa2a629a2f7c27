/**
 * A rotation in the plane stored as a point (cos, sin) on the unit circle,
 * generic over the scalar: `Rotation2<real>` is the numeric rotation,
 * `Rotation2<Expr>` the rotation built from the engine's unknowns.
 */
module Rotation2 {
  import opened Symbolic

  datatype Rotation2<T> = Rotation2(cos: T, sin: T)

  type Rotation2d = Rotation2<real>
  type Rotation2v = Rotation2<Expr>

  /** Below this magnitude a raw (x, y) direction snaps to the identity. */
  const Threshold: real := 0.000001

  predicate OnUnitCircle(r: Rotation2d) {
    r.cos * r.cos + r.sin * r.sin == 1.0
  }

  /** The default-constructed rotation: an angle of 0 radians. */
  function Identity(): (r: Rotation2d)
    ensures OnUnitCircle(r)
  {
    Rotation2(1.0, 0.0)
  }

  /** The cosine and sine the caller's math library computes; their values are not part of this model. */
  datatype Trig = Trig(cos: real -> real, sin: real -> real)

  ghost predicate Pythagorean(t: Trig) {
    forall a :: t.cos(a) * t.cos(a) + t.sin(a) * t.sin(a) == 1.0
  }

  /** Rotation from an angle in radians. */
  function FromAngle(t: Trig, angle: real): (r: Rotation2d)
    ensures Pythagorean(t) ==> OnUnitCircle(r)
  {
    Rotation2(t.cos(angle), t.sin(angle))
  }

  /** `m` is the value std::hypot(x, y) stands for: the Euclidean length of (x, y). */
  predicate IsHypot(x: real, y: real, m: real) {
    m >= 0.0 && m * m == x * x + y * y
  }

  /**
   * Rotation pointing along the raw vector (x, y), whose length `magnitude`
   * the caller computes with hypot. A vector no longer than the threshold
   * yields the identity.
   */
  function FromXY(x: real, y: real, magnitude: real): (r: Rotation2d)
    requires IsHypot(x, y, magnitude)
    ensures magnitude <= Threshold ==> r == Identity()
    ensures magnitude > Threshold ==> OnUnitCircle(r)
    ensures magnitude > Threshold ==> r.cos * magnitude == x && r.sin * magnitude == y
  {
    if magnitude > Threshold then
      var r := Rotation2(x / magnitude, y / magnitude);
      assert r.cos * r.cos + r.sin * r.sin == (x * x + y * y) / (magnitude * magnitude);
      r
    else
      Identity()
  }

  /** Composition by complex multiplication: the angles add. */
  function RotateBy(a: Rotation2d, b: Rotation2d): Rotation2d {
    Rotation2(a.cos * b.cos - a.sin * b.sin, a.cos * b.sin + a.sin * b.cos)
  }

  /** Unary minus: the inverse rotation. */
  function Negate(r: Rotation2d): Rotation2d {
    Rotation2(r.cos, -r.sin)
  }

  /** operator+ is rotate_by. */
  function Plus(a: Rotation2d, b: Rotation2d): Rotation2d {
    RotateBy(a, b)
  }

  /** Binary minus is `this + -other`. */
  function Minus(a: Rotation2d, b: Rotation2d): Rotation2d {
    Plus(a, Negate(b))
  }

  /** Numeric equality: the cosines are equal and the sines are equal. */
  function Equals(a: Rotation2d, b: Rotation2d): (r: bool)
    ensures r <==> a == b
  {
    a.cos == b.cos && a.sin == b.sin
  }

  lemma RotateByCommutes(a: Rotation2d, b: Rotation2d)
    ensures RotateBy(a, b) == RotateBy(b, a)
  {
  }

  lemma RotateByAssociates(a: Rotation2d, b: Rotation2d, c: Rotation2d)
    ensures RotateBy(RotateBy(a, b), c) == RotateBy(a, RotateBy(b, c))
  {
    var ab, bc := RotateBy(a, b), RotateBy(b, c);
    var x, y := RotateBy(ab, c), RotateBy(a, bc);
    assert x.cos == y.cos by {
      calc {
        ab.cos * c.cos - ab.sin * c.sin;
        (a.cos * b.cos - a.sin * b.sin) * c.cos - (a.cos * b.sin + a.sin * b.cos) * c.sin;
        a.cos * (b.cos * c.cos - b.sin * c.sin) - a.sin * (b.cos * c.sin + b.sin * c.cos);
      }
    }
    assert x.sin == y.sin by {
      calc {
        ab.cos * c.sin + ab.sin * c.cos;
        (a.cos * b.cos - a.sin * b.sin) * c.sin + (a.cos * b.sin + a.sin * b.cos) * c.cos;
        a.cos * (b.cos * c.sin + b.sin * c.cos) + a.sin * (b.cos * c.cos - b.sin * c.sin);
      }
    }
  }

  lemma IdentityIsNeutral(r: Rotation2d)
    ensures RotateBy(r, Identity()) == r && RotateBy(Identity(), r) == r
  {
    var one := Identity();
    var left, right := RotateBy(r, one), RotateBy(one, r);
    assert left.cos == r.cos && left.sin == r.sin;
    assert right.cos == r.cos && right.sin == r.sin;
  }

  /** Composition keeps a rotation on the unit circle: |ab| = |a| |b|. */
  lemma RotateByStaysOnUnitCircle(a: Rotation2d, b: Rotation2d)
    requires OnUnitCircle(a) && OnUnitCircle(b)
    ensures OnUnitCircle(RotateBy(a, b))
  {
    var r := RotateBy(a, b);
    calc {
      r.cos * r.cos + r.sin * r.sin;
      (a.cos * b.cos - a.sin * b.sin) * (a.cos * b.cos - a.sin * b.sin)
        + (a.cos * b.sin + a.sin * b.cos) * (a.cos * b.sin + a.sin * b.cos);
      (a.cos * a.cos + a.sin * a.sin) * (b.cos * b.cos + b.sin * b.sin);
      1.0 * 1.0;
    }
  }

  /** r + (-r) is the identity for every rotation on the unit circle. */
  lemma PlusNegateIsIdentity(r: Rotation2d)
    requires OnUnitCircle(r)
    ensures Plus(r, Negate(r)) == Identity()
    ensures Minus(r, r) == Identity()
  {
    var p := Plus(r, Negate(r));
    assert p.cos == r.cos * r.cos + r.sin * r.sin by {
      assert r.sin * -r.sin == -(r.sin * r.sin);
    }
    assert p.sin == 0.0 by {
      assert r.cos * -r.sin == -(r.sin * r.cos);
    }
  }

  /** Subtracting b undoes adding b. */
  lemma MinusUndoesPlus(a: Rotation2d, b: Rotation2d)
    requires OnUnitCircle(b)
    ensures Minus(Plus(a, b), b) == a
  {
    RotateByAssociates(a, b, Negate(b));
    PlusNegateIsIdentity(b);
  }

  /** The rotation pointing the opposite way: angle + pi. */
  function Antipode(r: Rotation2d): Rotation2d {
    Rotation2(-r.cos, -r.sin)
  }

  /** The 2D cross product of the two unit vectors: the sine of the angle between them. */
  function Cross(a: Rotation2d, b: Rotation2d): real {
    a.cos * b.sin - a.sin * b.cos
  }

  /**
   * On the unit circle the cross product vanishes exactly for equal and for
   * antipodal rotations: the cross-product relation cannot tell them apart.
   */
  lemma CrossZeroIffParallel(a: Rotation2d, b: Rotation2d)
    requires OnUnitCircle(a) && OnUnitCircle(b)
    ensures Cross(a, b) == 0.0 <==> b == a || b == Antipode(a)
  {
    if Cross(a, b) == 0.0 {
      var k := a.cos * b.cos + a.sin * b.sin;
      calc {
        k * a.cos;
        k * a.cos - Cross(a, b) * a.sin;
        b.cos * (a.cos * a.cos + a.sin * a.sin);
        b.cos;
      }
      calc {
        k * a.sin;
        k * a.sin + Cross(a, b) * a.cos;
        b.sin * (a.cos * a.cos + a.sin * a.sin);
        b.sin;
      }
      calc {
        k * k;
        k * k * (a.cos * a.cos + a.sin * a.sin);
        (k * a.cos) * (k * a.cos) + (k * a.sin) * (k * a.sin);
        b.cos * b.cos + b.sin * b.sin;
        1.0;
      }
      assert (k - 1.0) * (k + 1.0) == 0.0;
      if k == 1.0 {
        assert b == a;
      } else {
        assert k == -1.0;
        assert b == Antipode(a);
      }
    }
  }

  // ----- Symbolic rotations -----

  /** The numeric rotation a symbolic one denotes under `env`. */
  function EvalRotation(r: Rotation2v, env: nat -> real): Rotation2d {
    Rotation2(Eval(r.cos, env), Eval(r.sin, env))
  }

  /** The converting constructor: a numeric rotation used where a symbolic one is expected. */
  function Lift(r: Rotation2d): (v: Rotation2v)
    ensures forall env :: EvalRotation(v, env) == r
  {
    Rotation2(Const(r.cos), Const(r.sin))
  }

  /** rotate_by over the engine's unknowns: the same formula, built as expressions. */
  function RotateByV(a: Rotation2v, b: Rotation2v): Rotation2v {
    Rotation2(Sub(Mul(a.cos, b.cos), Mul(a.sin, b.sin)), Add(Mul(a.cos, b.sin), Mul(a.sin, b.cos)))
  }

  /** One formula for both scalars: evaluating the symbolic composition gives the numeric composition. */
  lemma RotateByVEvaluates(a: Rotation2v, b: Rotation2v, env: nat -> real)
    ensures EvalRotation(RotateByV(a, b), env) == RotateBy(EvalRotation(a, env), EvalRotation(b, env))
  {
    var r := RotateByV(a, b);
    var ea, eb := EvalRotation(a, env), EvalRotation(b, env);
    var x, y := EvalRotation(r, env), RotateBy(ea, eb);
    assert x.cos == y.cos by {
      assert Eval(r.cos, env) == Eval(Mul(a.cos, b.cos), env) - Eval(Mul(a.sin, b.sin), env);
      assert Eval(Mul(a.cos, b.cos), env) == ea.cos * eb.cos;
      assert Eval(Mul(a.sin, b.sin), env) == ea.sin * eb.sin;
    }
    assert x.sin == y.sin by {
      assert Eval(r.sin, env) == Eval(Mul(a.cos, b.sin), env) + Eval(Mul(a.sin, b.cos), env);
      assert Eval(Mul(a.cos, b.sin), env) == ea.cos * eb.sin;
      assert Eval(Mul(a.sin, b.cos), env) == ea.sin * eb.cos;
    }
  }

  /** cos*cos + sin*sin == 1, registered for an operand that holds unknowns. */
  function UnitRelation(r: Rotation2v): Relation {
    Eq(Add(Mul(r.cos, r.cos), Mul(r.sin, r.sin)), Const(1.0))
  }

  /**
   * operator== when at least one side holds unknowns: the cross-product
   * relation, then one unit-norm relation per symbolic operand. The flags say
   * which operands are symbolic (the template's `if constexpr` tests).
   */
  function EqualityConstraints(lhs: Rotation2v, lhsSymbolic: bool, rhs: Rotation2v, rhsSymbolic: bool): (rs: seq<Relation>)
    requires lhsSymbolic || rhsSymbolic
    ensures 2 <= |rs| <= 3
    ensures |rs| == 1 + (if lhsSymbolic then 1 else 0) + (if rhsSymbolic then 1 else 0)
  {
    [Eq(Sub(Mul(lhs.cos, rhs.sin), Mul(lhs.sin, rhs.cos)), Const(0.0))]
      + (if lhsSymbolic then [UnitRelation(lhs)] else [])
      + (if rhsSymbolic then [UnitRelation(rhs)] else [])
  }

  /** What the equality relations demand of a solution `env`. */
  lemma EqualityConstraintsMeaning(lhs: Rotation2v, lhsSymbolic: bool, rhs: Rotation2v, rhsSymbolic: bool, env: nat -> real)
    requires lhsSymbolic || rhsSymbolic
    ensures AllHold(EqualityConstraints(lhs, lhsSymbolic, rhs, rhsSymbolic), env) <==>
      && Cross(EvalRotation(lhs, env), EvalRotation(rhs, env)) == 0.0
      && (lhsSymbolic ==> OnUnitCircle(EvalRotation(lhs, env)))
      && (rhsSymbolic ==> OnUnitCircle(EvalRotation(rhs, env)))
  {
    var rs := EqualityConstraints(lhs, lhsSymbolic, rhs, rhsSymbolic);
    var l, r := EvalRotation(lhs, env), EvalRotation(rhs, env);
    assert Eval(rs[0].lhs, env) == Eval(Mul(lhs.cos, rhs.sin), env) - Eval(Mul(lhs.sin, rhs.cos), env);
    assert Holds(rs[0], env) <==> Cross(l, r) == 0.0;
    forall x: Rotation2v ensures Holds(UnitRelation(x), env) <==> OnUnitCircle(EvalRotation(x, env)) {
      assert Eval(UnitRelation(x).lhs, env) == Eval(Mul(x.cos, x.cos), env) + Eval(Mul(x.sin, x.sin), env);
    }
    if lhsSymbolic {
      assert rs[1] == UnitRelation(lhs);
    }
    if rhsSymbolic {
      assert rs[|rs| - 1] == UnitRelation(rhs);
    }
    if !lhsSymbolic {
      assert rs == [rs[0], UnitRelation(rhs)];
    } else if !rhsSymbolic {
      assert rs == [rs[0], UnitRelation(lhs)];
    } else {
      assert rs == [rs[0], UnitRelation(lhs), UnitRelation(rhs)];
    }
  }

  /**
   * Rotation equality on the manifold: when the numeric operands are unit
   * rotations (as every numeric rotation built from an angle or a normalised
   * vector is), a solution satisfies the equality relations exactly when both
   * sides are unit rotations that are equal or antipodal.
   */
  lemma EqualityConstraintsOnManifold(lhs: Rotation2v, lhsSymbolic: bool, rhs: Rotation2v, rhsSymbolic: bool, env: nat -> real)
    requires lhsSymbolic || rhsSymbolic
    requires !lhsSymbolic ==> OnUnitCircle(EvalRotation(lhs, env))
    requires !rhsSymbolic ==> OnUnitCircle(EvalRotation(rhs, env))
    ensures AllHold(EqualityConstraints(lhs, lhsSymbolic, rhs, rhsSymbolic), env) <==>
      var l, r := EvalRotation(lhs, env), EvalRotation(rhs, env);
      OnUnitCircle(l) && OnUnitCircle(r) && (r == l || r == Antipode(l))
  {
    var l, r := EvalRotation(lhs, env), EvalRotation(rhs, env);
    EqualityConstraintsMeaning(lhs, lhsSymbolic, rhs, rhsSymbolic, env);
    if OnUnitCircle(l) && OnUnitCircle(r) {
      CrossZeroIffParallel(l, r);
    }
  }

  /** Numerically equal unit rotations, lifted, satisfy the symbolic equality relations. */
  lemma EqualsImpliesEqualityConstraints(a: Rotation2d, b: Rotation2d, env: nat -> real)
    requires OnUnitCircle(a) && Equals(a, b)
    ensures AllHold(EqualityConstraints(Lift(a), true, Lift(b), true), env)
  {
    EqualityConstraintsOnManifold(Lift(a), true, Lift(b), true, env);
  }
}
