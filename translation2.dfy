/**
 * Points and vectors in the plane. Only the operations the modelled core
 * uses are given; they follow the standard definitions of a 2D translation.
 */
module Translation2 {
  import R = Rotation2

  datatype Translation2d = Translation2d(x: real, y: real)

  function Plus(a: Translation2d, b: Translation2d): Translation2d {
    Translation2d(a.x + b.x, a.y + b.y)
  }

  function Minus(a: Translation2d, b: Translation2d): Translation2d {
    Translation2d(a.x - b.x, a.y - b.y)
  }

  function Dot(a: Translation2d, b: Translation2d): real {
    a.x * b.x + a.y * b.y
  }

  /** The z component of the cross product a x b. */
  function Cross(a: Translation2d, b: Translation2d): real {
    a.x * b.y - a.y * b.x
  }

  /** The vector rotated counter-clockwise by `r` (multiplication by r's rotation matrix). */
  function RotateBy(t: Translation2d, r: R.Rotation2d): Translation2d {
    Translation2d(t.x * r.cos - t.y * r.sin, t.x * r.sin + t.y * r.cos)
  }

  /** A unit rotation is rigid: it keeps every dot product, hence lengths and angles. */
  lemma RotateByKeepsDot(u: Translation2d, v: Translation2d, r: R.Rotation2d)
    requires R.OnUnitCircle(r)
    ensures Dot(RotateBy(u, r), RotateBy(v, r)) == Dot(u, v)
  {
    var c, s := r.cos, r.sin;
    calc {
      Dot(RotateBy(u, r), RotateBy(v, r));
      (u.x * c - u.y * s) * (v.x * c - v.y * s) + (u.x * s + u.y * c) * (v.x * s + v.y * c);
      (u.x * v.x + u.y * v.y) * (c * c + s * s);
      Dot(u, v);
    }
  }
}
