/**
 * The closed set of constraint kinds a waypoint or a segment can carry, and
 * the immutable parameters each kind holds. Every kind lowers itself onto the
 * optimisation problem through one uniform Apply; the lowering of the kinds
 * other than the lane and the keep-in circle is not part of this model (see
 * the Dispatch module), so for those only the parameters are recorded.
 */
module Constraint {
  import opened Wrappers
  import T = Translation2

  /** Which side of a half-plane's boundary line the robot must keep to. */
  datatype Side = Above | Below | On

  /** The half-plane through lineStart and lineEnd, measured relative to origin. */
  datatype HalfPlaneConstraint = HalfPlaneConstraint(
    origin: T.Translation2d, lineStart: T.Translation2d, lineEnd: T.Translation2d, side: Side)

  /** The two lines a lane constraint applies: the top line always, the bottom line when present. */
  datatype LaneConstraint = LaneConstraint(topLine: HalfPlaneConstraint, bottomLine: Option<HalfPlaneConstraint>)

  /** The keep-in circle: its centre and radius, stored unchanged by the constructor. */
  datatype KeepInCircleConstraint = KeepInCircleConstraint(center: T.Translation2d, radius: real)

  /**
   * The sum of all constraint kinds, in the order of the variant's type list.
   * The parameters of the kinds whose headers are not part of this model
   * follow their documented constructor arguments.
   */
  datatype Constraint =
    | AngularVelocityMaxMagnitude(maxAngularVelocity: real)
    | KeepInCircle(keepIn: KeepInCircleConstraint)
    | KeepOutCircle(keepOutCenter: T.Translation2d, keepOutRadius: real)
    | Lane(lane: LaneConstraint)
    | LinearAccelerationMaxMagnitude(maxLinearAcceleration: real)
    | LinearVelocityDirection(direction: real)
    | LinearVelocityMaxMagnitude(maxLinearVelocity: real)
    | PointAt(fieldPoint: T.Translation2d, headingTolerance: real)
    | HalfPlane(halfPlane: HalfPlaneConstraint)
    | PoseEquality(poseX: real, poseY: real, poseHeading: real)
    | TranslationEquality(translationX: real, translationY: real)

  /** The number of alternatives of the variant. */
  const KindCount: nat := 11

  /** The position of a constraint's kind in the variant's type list (std::variant::index). */
  function KindIndex(c: Constraint): (k: nat)
    ensures k < KindCount
  {
    match c
    case AngularVelocityMaxMagnitude(_) => 0
    case KeepInCircle(_) => 1
    case KeepOutCircle(_, _) => 2
    case Lane(_) => 3
    case LinearAccelerationMaxMagnitude(_) => 4
    case LinearVelocityDirection(_) => 5
    case LinearVelocityMaxMagnitude(_) => 6
    case PointAt(_, _) => 7
    case HalfPlane(_) => 8
    case PoseEquality(_, _, _) => 9
    case TranslationEquality(_, _) => 10
  }

  /** A constraint of kind `k`, with arbitrary parameters. */
  function OfKind(k: nat): (c: Constraint)
    requires k < KindCount
    ensures KindIndex(c) == k
  {
    var o := T.Translation2d(0.0, 0.0);
    var h := HalfPlaneConstraint(o, o, o, On);
    if k == 0 then AngularVelocityMaxMagnitude(0.0)
    else if k == 1 then KeepInCircle(KeepInCircleConstraint(o, 0.0))
    else if k == 2 then KeepOutCircle(o, 0.0)
    else if k == 3 then Lane(LaneConstraint(h, None))
    else if k == 4 then LinearAccelerationMaxMagnitude(0.0)
    else if k == 5 then LinearVelocityDirection(0.0)
    else if k == 6 then LinearVelocityMaxMagnitude(0.0)
    else if k == 7 then PointAt(o, 0.0)
    else if k == 8 then HalfPlane(h)
    else if k == 9 then PoseEquality(0.0, 0.0, 0.0)
    else TranslationEquality(0.0, 0.0)
  }

  /**
   * The variant is a closed sum of exactly eleven kinds: every constraint has
   * one of eleven indices, every index is taken, and two constraints of the
   * same index are built by the same alternative.
   */
  lemma ExactlyElevenKinds(c: Constraint, d: Constraint)
    ensures KindIndex(c) < KindCount
    ensures forall k :: 0 <= k < KindCount ==> KindIndex(OfKind(k)) == k
    ensures KindIndex(c) == KindIndex(d) <==>
      (c.AngularVelocityMaxMagnitude? && d.AngularVelocityMaxMagnitude?) ||
      (c.KeepInCircle? && d.KeepInCircle?) ||
      (c.KeepOutCircle? && d.KeepOutCircle?) ||
      (c.Lane? && d.Lane?) ||
      (c.LinearAccelerationMaxMagnitude? && d.LinearAccelerationMaxMagnitude?) ||
      (c.LinearVelocityDirection? && d.LinearVelocityDirection?) ||
      (c.LinearVelocityMaxMagnitude? && d.LinearVelocityMaxMagnitude?) ||
      (c.PointAt? && d.PointAt?) ||
      (c.HalfPlane? && d.HalfPlane?) ||
      (c.PoseEquality? && d.PoseEquality?) ||
      (c.TranslationEquality? && d.TranslationEquality?)
  {
  }
}
