/**
 * A convex region of the plane in H-form, { p : A p <= b }, built from its
 * boundary points wound clockwise: one half-plane per edge, the last edge
 * closing the loop back to the first point.
 */
module HPolytope2 {
  import R = Rotation2
  import T = Translation2

  /** Row i of the n x 2 matrix A, written as the vector (A(i,0), A(i,1)), and the bound b(i). */
  datatype HPolytope2 = HPolytope2(A: seq<T.Translation2d>, b: seq<real>)

  /** The row of the edge p -> q: a = -(q.y - p.y), b = q.x - p.x. */
  function EdgeRow(p: T.Translation2d, q: T.Translation2d): T.Translation2d {
    var diff := T.Minus(q, p);
    T.Translation2d(-diff.y, diff.x)
  }

  /** The bound of the edge p -> q: c = a p.x + b p.y. */
  function EdgeBound(p: T.Translation2d, q: T.Translation2d): real {
    T.Dot(EdgeRow(p, q), p)
  }

  /** The index of the point after point i, wrapping to 0 after the last: (i + 1) mod n. */
  function Next(i: nat, n: nat): (j: nat)
    requires i < n
    ensures j < n && j == (i + 1) % n
  {
    if i + 1 < n then i + 1 else 0
  }

  /** The region the point-list constructor builds. */
  function Polytope(points: seq<T.Translation2d>): (P: HPolytope2)
    ensures |P.A| == |P.b| == |points|
  {
    var n := |points|;
    HPolytope2(
      seq(n, i requires 0 <= i < n => EdgeRow(points[i], points[Next(i, n)])),
      seq(n, i requires 0 <= i < n => EdgeBound(points[i], points[Next(i, n)])))
  }

  /** Every half-plane holds at `p`; points on the boundary count as inside. */
  predicate ContainsPoint(P: HPolytope2, p: T.Translation2d)
    requires |P.b| <= |P.A|
  {
    forall i :: 0 <= i < |P.b| ==> T.Dot(P.A[i], p) <= P.b[i]
  }

  /** The point-list constructor: fills A and b row by row. */
  method FromPoints(points: seq<T.Translation2d>) returns (P: HPolytope2)
    ensures P == Polytope(points)
  {
    var n := |points|;
    var A := new real[n, 2];
    var b := new real[n];
    for i := 0 to n
      invariant forall k :: 0 <= k < i ==>
        T.Translation2d(A[k, 0], A[k, 1]) == EdgeRow(points[k], points[Next(k, n)])
      invariant forall k :: 0 <= k < i ==> b[k] == EdgeBound(points[k], points[Next(k, n)])
    {
      var j := Next(i, n);
      var diff := T.Minus(points[j], points[i]);
      var a0 := -diff.y;
      var b0 := diff.x;
      var c := a0 * points[i].x + b0 * points[i].y;
      assert T.Translation2d(a0, b0) == EdgeRow(points[i], points[j]);
      assert c == EdgeBound(points[i], points[j]);
      A[i, 0] := a0;
      A[i, 1] := b0;
      b[i] := c;
    }
    P := HPolytope2(seq(n, i requires 0 <= i < n reads A => T.Translation2d(A[i, 0], A[i, 1])), b[..]);
  }

  /** Contains: checks the rows in order and stops at the first violated one. */
  method Contains(P: HPolytope2, p: T.Translation2d) returns (inside: bool)
    requires |P.b| <= |P.A|
    ensures inside == ContainsPoint(P, p)
  {
    var row := 0;
    while row < |P.b|
      invariant 0 <= row <= |P.b|
      invariant forall i :: 0 <= i < row ==> T.Dot(P.A[i], p) <= P.b[i]
    {
      if T.Dot(P.A[row], p) > P.b[row] {
        return false;
      }
      row := row + 1;
    }
    return true;
  }

  /** The region rotated about the origin: A becomes A R^T, b is unchanged. */
  function RotateBy(P: HPolytope2, r: R.Rotation2d): (Q: HPolytope2)
    ensures |Q.A| == |P.A| && Q.b == P.b
  {
    HPolytope2(seq(|P.A|, i requires 0 <= i < |P.A| => T.RotateBy(P.A[i], r)), P.b)
  }

  /** Rotating by a unit rotation moves the region rigidly: q is in P exactly when q rotated is in P rotated. */
  lemma RotateByIsRigid(P: HPolytope2, r: R.Rotation2d, q: T.Translation2d)
    requires |P.b| <= |P.A| && R.OnUnitCircle(r)
    ensures ContainsPoint(RotateBy(P, r), T.RotateBy(q, r)) <==> ContainsPoint(P, q)
  {
    forall i | 0 <= i < |P.b|
      ensures T.Dot(RotateBy(P, r).A[i], T.RotateBy(q, r)) == T.Dot(P.A[i], q)
    {
      T.RotateByKeepsDot(P.A[i], q, r);
    }
  }

  /** Both endpoints of edge i lie on the boundary line of row i. */
  lemma EdgeEndpointsOnBoundary(points: seq<T.Translation2d>, i: nat)
    requires i < |points|
    ensures var P, j := Polytope(points), Next(i, |points|);
      T.Dot(P.A[i], points[i]) == P.b[i] && T.Dot(P.A[i], points[j]) == P.b[i]
  {
    var j := Next(i, |points|);
    var p, q := points[i], points[j];
    calc {
      T.Dot(EdgeRow(p, q), q);
      -(q.y - p.y) * q.x + (q.x - p.x) * q.y;
      -(q.y - p.y) * p.x + (q.x - p.x) * p.y;
      EdgeBound(p, q);
    }
  }

  /**
   * Row i holds at q exactly when q lies on or to the right of the directed
   * edge points[i] -> points[i+1]: the interior side for clockwise winding.
   */
  lemma RowMeansRightOfEdge(points: seq<T.Translation2d>, i: nat, q: T.Translation2d)
    requires i < |points|
    ensures var P, j := Polytope(points), Next(i, |points|);
      T.Dot(P.A[i], q) <= P.b[i] <==> T.Cross(T.Minus(points[j], points[i]), T.Minus(q, points[i])) <= 0.0
  {
    var j := Next(i, |points|);
    var p, e := points[i], points[j];
    calc {
      T.Dot(EdgeRow(p, e), q) - EdgeBound(p, e);
      -(e.y - p.y) * q.x + (e.x - p.x) * q.y - (-(e.y - p.y) * p.x + (e.x - p.x) * p.y);
      (e.x - p.x) * (q.y - p.y) - (e.y - p.y) * (q.x - p.x);
      T.Cross(T.Minus(e, p), T.Minus(q, p));
    }
  }

  /** With no points there are no rows, so every point is contained. */
  lemma EmptyContainsEverything(q: T.Translation2d)
    ensures ContainsPoint(Polytope([]), q)
  {
  }

  function Square(): seq<T.Translation2d> {
    [T.Translation2d(1.0, -1.0), T.Translation2d(-1.0, -1.0), T.Translation2d(-1.0, 1.0), T.Translation2d(1.0, 1.0)]
  }

  /** The rows and bounds of the polytope of four points, edge by edge. */
  lemma PolytopeOfFour(a: T.Translation2d, b: T.Translation2d, c: T.Translation2d, d: T.Translation2d)
    ensures Polytope([a, b, c, d]) == HPolytope2(
      [EdgeRow(a, b), EdgeRow(b, c), EdgeRow(c, d), EdgeRow(d, a)],
      [EdgeBound(a, b), EdgeBound(b, c), EdgeBound(c, d), EdgeBound(d, a)])
  {
    assert Next(0, 4) == 1 && Next(1, 4) == 2 && Next(2, 4) == 3 && Next(3, 4) == 0;
  }

  /** One violated half-plane is enough to reject a point. */
  lemma RejectedByRow(P: HPolytope2, q: T.Translation2d, i: nat)
    requires i < |P.b| <= |P.A|
    requires T.Dot(P.A[i], q) > P.b[i]
    ensures !ContainsPoint(P, q)
  {
  }

  /** A point that satisfies all four rows of a four-row region is inside it. */
  lemma HoldsAllFourRows(P: HPolytope2, q: T.Translation2d)
    requires |P.b| == 4 && |P.A| == 4
    requires T.Dot(P.A[0], q) <= P.b[0] && T.Dot(P.A[1], q) <= P.b[1]
    requires T.Dot(P.A[2], q) <= P.b[2] && T.Dot(P.A[3], q) <= P.b[3]
    ensures ContainsPoint(P, q)
  {
    forall i | 0 <= i < 4
      ensures T.Dot(P.A[i], q) <= P.b[i]
    {
      if i == 0 {} else if i == 1 {} else if i == 2 {} else {}
    }
  }

  /** The square |x| <= 1, |y| <= 1 written directly in H-form. */
  function SquareRegion(): HPolytope2 {
    HPolytope2(
      [T.Translation2d(0.0, -2.0), T.Translation2d(-2.0, 0.0), T.Translation2d(0.0, 2.0), T.Translation2d(2.0, 0.0)],
      [2.0, 2.0, 2.0, 2.0])
  }

  /** The square built from its corners has one outward row per side ... */
  lemma SquareRows()
    ensures Polytope(Square()).A == SquareRegion().A
  {
    PolytopeOfFour(T.Translation2d(1.0, -1.0), T.Translation2d(-1.0, -1.0), T.Translation2d(-1.0, 1.0), T.Translation2d(1.0, 1.0));
  }

  /** ... and every side at the same distance from the centre. */
  lemma SquareBounds()
    ensures Polytope(Square()).b == SquareRegion().b
  {
    PolytopeOfFour(T.Translation2d(1.0, -1.0), T.Translation2d(-1.0, -1.0), T.Translation2d(-1.0, 1.0), T.Translation2d(1.0, 1.0));
  }

  /** Together: the square built from its corners is the H-form square. */
  lemma SquareIsRegion()
    ensures Polytope(Square()) == SquareRegion()
  {
    SquareRows();
    SquareBounds();
  }

  /** The H-form square holds its centre ... */
  lemma SquareRegionContains()
    ensures ContainsPoint(SquareRegion(), T.Translation2d(0.0, 0.0))
  {
  }

  /** ... and rejects a point just beyond each of its sides. */
  lemma SquareRegionRejects()
    ensures !ContainsPoint(SquareRegion(), T.Translation2d(2.0, 0.0))
    ensures !ContainsPoint(SquareRegion(), T.Translation2d(0.0, 2.0))
    ensures !ContainsPoint(SquareRegion(), T.Translation2d(-2.0, 0.0))
    ensures !ContainsPoint(SquareRegion(), T.Translation2d(0.0, -2.0))
  {
    RejectedByRow(SquareRegion(), T.Translation2d(2.0, 0.0), 3);
    RejectedByRow(SquareRegion(), T.Translation2d(0.0, 2.0), 2);
    RejectedByRow(SquareRegion(), T.Translation2d(-2.0, 0.0), 1);
    RejectedByRow(SquareRegion(), T.Translation2d(0.0, -2.0), 0);
  }

  /** The square built from its corners holds its centre. */
  lemma SquareContains()
    ensures ContainsPoint(Polytope(Square()), T.Translation2d(0.0, 0.0))
  {
    SquareIsRegion();
    SquareRegionContains();
  }

  /** The square built from its corners rejects a point just beyond each of its sides. */
  lemma SquareRejects()
    ensures !ContainsPoint(Polytope(Square()), T.Translation2d(2.0, 0.0))
    ensures !ContainsPoint(Polytope(Square()), T.Translation2d(0.0, 2.0))
    ensures !ContainsPoint(Polytope(Square()), T.Translation2d(-2.0, 0.0))
    ensures !ContainsPoint(Polytope(Square()), T.Translation2d(0.0, -2.0))
  {
    SquareIsRegion();
    SquareRegionRejects();
  }

  function Diamond(): seq<T.Translation2d> {
    [T.Translation2d(0.0, -1.0), T.Translation2d(-1.0, 0.0), T.Translation2d(0.0, 1.0), T.Translation2d(1.0, 0.0)]
  }

  /** The diamond |x| + |y| <= 1 written directly in H-form. */
  function DiamondRegion(): HPolytope2 {
    HPolytope2(
      [T.Translation2d(-1.0, -1.0), T.Translation2d(-1.0, 1.0), T.Translation2d(1.0, 1.0), T.Translation2d(1.0, -1.0)],
      [1.0, 1.0, 1.0, 1.0])
  }

  /** The diamond built from its vertices has the rows of |x| + |y| <= 1 ... */
  lemma DiamondRows()
    ensures Polytope(Diamond()).A == DiamondRegion().A
  {
    PolytopeOfFour(T.Translation2d(0.0, -1.0), T.Translation2d(-1.0, 0.0), T.Translation2d(0.0, 1.0), T.Translation2d(1.0, 0.0));
  }

  /** ... and its bounds. */
  lemma DiamondBounds()
    ensures Polytope(Diamond()).b == DiamondRegion().b
  {
    PolytopeOfFour(T.Translation2d(0.0, -1.0), T.Translation2d(-1.0, 0.0), T.Translation2d(0.0, 1.0), T.Translation2d(1.0, 0.0));
  }

  /** Together: the diamond built from its vertices is the H-form diamond. */
  lemma DiamondIsRegion()
    ensures Polytope(Diamond()) == DiamondRegion()
  {
    DiamondRows();
    DiamondBounds();
  }

  /** The H-form diamond holds its centre ... */
  lemma DiamondRegionContains()
    ensures ContainsPoint(DiamondRegion(), T.Translation2d(0.0, 0.0))
  {
  }

  /** ... each of its four vertices ... */
  lemma DiamondRegionHoldsVertex(k: nat)
    requires k < 4
    ensures ContainsPoint(DiamondRegion(), Diamond()[k])
  {
    HoldsAllFourRows(DiamondRegion(), Diamond()[k]);
  }

  /** ... and rejects a point just beyond each of its sides. */
  lemma DiamondRegionRejects()
    ensures !ContainsPoint(DiamondRegion(), T.Translation2d(1.0, 1.0))
    ensures !ContainsPoint(DiamondRegion(), T.Translation2d(-1.0, 1.0))
    ensures !ContainsPoint(DiamondRegion(), T.Translation2d(-1.0, -1.0))
    ensures !ContainsPoint(DiamondRegion(), T.Translation2d(1.0, -1.0))
  {
    RejectedByRow(DiamondRegion(), T.Translation2d(1.0, 1.0), 2);
    RejectedByRow(DiamondRegion(), T.Translation2d(-1.0, 1.0), 1);
    RejectedByRow(DiamondRegion(), T.Translation2d(-1.0, -1.0), 0);
    RejectedByRow(DiamondRegion(), T.Translation2d(1.0, -1.0), 3);
  }

  /** The diamond built from its vertices holds its centre. */
  lemma DiamondContains()
    ensures ContainsPoint(Polytope(Diamond()), T.Translation2d(0.0, 0.0))
  {
    DiamondIsRegion();
    DiamondRegionContains();
  }

  /** The diamond built from its vertices holds each vertex, each on the boundary of two sides. */
  lemma DiamondHoldsVertex(k: nat)
    requires k < 4
    ensures ContainsPoint(Polytope(Diamond()), Diamond()[k])
  {
    DiamondIsRegion();
    DiamondRegionHoldsVertex(k);
  }

  /** The diamond built from its vertices rejects a point just beyond each of its sides. */
  lemma DiamondRejects()
    ensures !ContainsPoint(Polytope(Diamond()), T.Translation2d(1.0, 1.0))
    ensures !ContainsPoint(Polytope(Diamond()), T.Translation2d(-1.0, 1.0))
    ensures !ContainsPoint(Polytope(Diamond()), T.Translation2d(-1.0, -1.0))
    ensures !ContainsPoint(Polytope(Diamond()), T.Translation2d(1.0, -1.0))
  {
    DiamondIsRegion();
    DiamondRegionRejects();
  }
}
