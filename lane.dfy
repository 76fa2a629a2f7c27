/**
 * The lane constraint: the robot must stay between two lines parallel to a
 * centre line, `tolerance` away on either side. The constructor chooses the
 * lines; Apply hands them, in order, to the half-plane constraint.
 */
module Lane {
  import opened Wrappers
  import R = Rotation2
  import T = Translation2
  import C = Constraint
  import P = Problem

  /**
   * The rotation the constructor builds from (dx/dist, dy/dist), where dist is
   * hypot(dx, dy). For a zero-length centre line both quotients are NaN in
   * IEEE arithmetic, their hypot is NaN, the threshold test fails and the
   * (x, y) constructor yields the identity; the model says so directly.
   */
  function Direction(dx: real, dy: real, dist: real): (r: R.Rotation2d)
    requires R.IsHypot(dx, dy, dist)
    ensures dist > 0.0 ==> R.OnUnitCircle(r) && r.cos * dist == dx && r.sin * dist == dy
    ensures dist == 0.0 ==> r == R.Identity()
  {
    if dist == 0.0 then R.Identity()
    else
      var ux, uy := dx / dist, dy / dist;
      UnitDirection(dx, dy, dist);
      R.FromXY(ux, uy, 1.0)
  }

  /** Dividing a vector by its length gives a vector of length 1. */
  lemma UnitDirection(dx: real, dy: real, dist: real)
    requires R.IsHypot(dx, dy, dist) && dist != 0.0
    ensures R.IsHypot(dx / dist, dy / dist, 1.0)
    ensures (dx / dist) * dist == dx && (dy / dist) * dist == dy
  {
    assert dist > 0.0;
    var inv := 1.0 / dist;
    assert dist * inv == 1.0;
    assert dx / dist == dx * inv && dy / dist == dy * inv;
    assert (dx * inv) * (dx * inv) + (dy * inv) * (dy * inv) == (dx * dx + dy * dy) * (inv * inv);
    assert (dist * dist) * (inv * inv) == (dist * inv) * (dist * inv);
  }

  /** The offset from the centre line to the top lane edge: (0, tolerance) rotated by the line's direction. */
  function Offset(tolerance: real, direction: R.Rotation2d): T.Translation2d {
    T.RotateBy(T.Translation2d(0.0, tolerance), direction)
  }

  /**
   * The constructor. `dist` is the length hypot(end - start) that the source
   * computes with std::hypot. A nonzero tolerance gives two lines, the centre
   * line shifted by +offset (robot below it) and by -offset (robot above it);
   * a zero tolerance gives the single on-line half-plane and no bottom line.
   */
  function MakeLane(start: T.Translation2d, end: T.Translation2d, tolerance: real, dist: real): (l: C.LaneConstraint)
    requires R.IsHypot(end.x - start.x, end.y - start.y, dist)
    ensures tolerance == 0.0 ==>
      l.topLine == C.HalfPlaneConstraint(T.Translation2d(0.0, 0.0), start, end, C.On) && l.bottomLine == None
    ensures tolerance != 0.0 ==>
      && l.bottomLine.Some?
      && l.topLine.origin == l.bottomLine.value.origin == T.Translation2d(0.0, 0.0)
      && l.topLine.side == C.Below && l.bottomLine.value.side == C.Above
  {
    if tolerance != 0.0 then
      var offset := Offset(tolerance, Direction(end.x - start.x, end.y - start.y, dist));
      C.LaneConstraint(
        C.HalfPlaneConstraint(T.Translation2d(0.0, 0.0), T.Plus(start, offset), T.Plus(end, offset), C.Below),
        Some(C.HalfPlaneConstraint(T.Translation2d(0.0, 0.0), T.Minus(start, offset), T.Minus(end, offset), C.Above)))
    else
      C.LaneConstraint(C.HalfPlaneConstraint(T.Translation2d(0.0, 0.0), start, end, C.On), None)
  }

  /**
   * For a centre line of positive length the offset is perpendicular to it
   * and exactly |tolerance| long, pointing to its left (counter-clockwise)
   * for a positive tolerance.
   */
  lemma OffsetIsPerpendicular(dx: real, dy: real, dist: real, tolerance: real)
    requires R.IsHypot(dx, dy, dist) && dist > 0.0
    ensures var o := Offset(tolerance, Direction(dx, dy, dist));
      && T.Dot(o, T.Translation2d(dx, dy)) == 0.0
      && T.Dot(o, o) == tolerance * tolerance
      && T.Cross(T.Translation2d(dx, dy), o) == tolerance * dist
  {
    var r := Direction(dx, dy, dist);
    var o := Offset(tolerance, r);
    assert o == T.Translation2d(-tolerance * r.sin, tolerance * r.cos);
    calc {
      T.Dot(o, T.Translation2d(dx, dy));
      -tolerance * r.sin * dx + tolerance * r.cos * dy;
      -tolerance * r.sin * (r.cos * dist) + tolerance * r.cos * (r.sin * dist);
      0.0;
    }
    calc {
      T.Dot(o, o);
      tolerance * tolerance * (r.cos * r.cos + r.sin * r.sin);
      tolerance * tolerance;
    }
    calc {
      T.Cross(T.Translation2d(dx, dy), o);
      dx * (tolerance * r.cos) + dy * (tolerance * r.sin);
      tolerance * (r.cos * dist * r.cos + r.sin * dist * r.sin);
      tolerance * dist * (r.cos * r.cos + r.sin * r.sin);
      tolerance * dist;
    }
  }

  /**
   * The signed distance of p to the left of the line through `start` with
   * direction d, scaled by |d|: Cross(d, p - start).
   */
  function ScaledSideDistance(start: T.Translation2d, end: T.Translation2d, p: T.Translation2d): real {
    T.Cross(T.Minus(end, start), T.Minus(p, start))
  }

  /**
   * With a nonzero tolerance and a centre line of positive length, both ends
   * of the top line lie `tolerance` to the left of the centre line and both
   * ends of the bottom line `tolerance` to its right: the lane edges are
   * parallel to the centre line, on opposite sides, at perpendicular
   * distance |tolerance|, mirror images of each other about it.
   */
  lemma LaneEdgesAtTolerance(start: T.Translation2d, end: T.Translation2d, tolerance: real, dist: real)
    requires R.IsHypot(end.x - start.x, end.y - start.y, dist) && dist > 0.0 && tolerance != 0.0
    ensures var l := MakeLane(start, end, tolerance, dist);
      && ScaledSideDistance(start, end, l.topLine.lineStart) == tolerance * dist
      && ScaledSideDistance(start, end, l.topLine.lineEnd) == tolerance * dist
      && ScaledSideDistance(start, end, l.bottomLine.value.lineStart) == -tolerance * dist
      && ScaledSideDistance(start, end, l.bottomLine.value.lineEnd) == -tolerance * dist
      && T.Plus(l.topLine.lineStart, l.bottomLine.value.lineStart) == T.Plus(start, start)
      && T.Plus(l.topLine.lineEnd, l.bottomLine.value.lineEnd) == T.Plus(end, end)
      && T.Minus(l.topLine.lineEnd, l.topLine.lineStart) == T.Minus(end, start)
      && T.Minus(l.bottomLine.value.lineEnd, l.bottomLine.value.lineStart) == T.Minus(end, start)
  {
    var dx, dy := end.x - start.x, end.y - start.y;
    var d := T.Translation2d(dx, dy);
    var o := Offset(tolerance, Direction(dx, dy, dist));
    OffsetIsPerpendicular(dx, dy, dist, tolerance);
    assert T.Minus(end, start) == d;
    assert T.Cross(d, d) == 0.0;
    assert T.Cross(d, T.Minus(T.Plus(start, o), start)) == T.Cross(d, o);
    assert T.Cross(d, T.Minus(T.Plus(end, o), start)) == T.Cross(d, d) + T.Cross(d, o);
    assert T.Cross(d, T.Minus(T.Minus(start, o), start)) == -T.Cross(d, o);
    assert T.Cross(d, T.Minus(T.Minus(end, o), start)) == T.Cross(d, d) - T.Cross(d, o);
  }

  /**
   * A zero-length centre line with a nonzero tolerance: the direction falls
   * back to the identity, so the offset is (0, tolerance) and the edges are
   * the centre line shifted straight up and straight down by the tolerance.
   */
  lemma ZeroLengthLaneIsVertical(start: T.Translation2d, end: T.Translation2d, tolerance: real)
    requires R.IsHypot(end.x - start.x, end.y - start.y, 0.0) && tolerance != 0.0
    ensures var l := MakeLane(start, end, tolerance, 0.0);
      && l.topLine.lineStart == T.Translation2d(start.x, start.y + tolerance)
      && l.topLine.lineEnd == T.Translation2d(end.x, end.y + tolerance)
      && l.bottomLine.Some?
      && l.bottomLine.value.lineStart == T.Translation2d(start.x, start.y - tolerance)
      && l.bottomLine.value.lineEnd == T.Translation2d(end.x, end.y - tolerance)
  {
    assert Offset(tolerance, Direction(end.x - start.x, end.y - start.y, 0.0)) == T.Translation2d(0.0, tolerance);
  }

  /** The log entries of one Apply: the top line, then the bottom line when present. */
  function Entries(l: C.LaneConstraint, ctx: P.Context): (es: seq<P.Entry>)
    ensures |es| == (if l.bottomLine.Some? then 2 else 1)
    ensures es[0] == P.Delegated(C.HalfPlane(l.topLine), ctx)
    ensures l.bottomLine.Some? ==> es[1] == P.Delegated(C.HalfPlane(l.bottomLine.value), ctx)
  {
    [P.Delegated(C.HalfPlane(l.topLine), ctx)]
      + (if l.bottomLine.Some? then [P.Delegated(C.HalfPlane(l.bottomLine.value), ctx)] else [])
  }

  /** Applies the top line, then the bottom line if there is one. */
  method Apply(l: C.LaneConstraint, problem: P.OptimizationProblem, ctx: P.Context)
    modifies problem
    ensures problem.entries == old(problem.entries) + Entries(l, ctx)
    ensures problem.varCount == old(problem.varCount)
    ensures problem.values == old(problem.values) && problem.objective == old(problem.objective)
  {
    problem.Record(P.Delegated(C.HalfPlane(l.topLine), ctx));
    if l.bottomLine.Some? {
      problem.Record(P.Delegated(C.HalfPlane(l.bottomLine.value), ctx));
    }
  }

  /** A lane of zero tolerance applies one half-plane; any other lane applies two. */
  lemma ApplyCount(start: T.Translation2d, end: T.Translation2d, tolerance: real, dist: real, ctx: P.Context)
    requires R.IsHypot(end.x - start.x, end.y - start.y, dist)
    ensures |Entries(MakeLane(start, end, tolerance, dist), ctx)| == (if tolerance == 0.0 then 1 else 2)
  {
  }
}
