/**
 * The Python client library's trajectory types: event markers, the samples
 * of a differential or a swerve trajectory, flipping them to the other
 * alliance's side of the field, and looking a sample up by timestamp.
 *
 * Python's exceptions are Failure values that `:-` propagates, and Python's
 * None is Option's None. The two trajectory classes share every method
 * body and differ only in the class of their samples, so they are one
 * datatype over a sample that is either kind.
 */
module ChoreoTrajectory {
  import opened Wrappers

  /** The exceptions the modelled code can raise. */
  datatype PyError = TypeError | KeyError | ValueError | IndexError | ZeroDivisionError | AttributeError

  type PyResult<T> = Result<T, PyError>

  // ------------------------------------------------------------ interpolation

  /** Linear interpolation from a (t = 0) to b (t = 1). */
  function Lerp(a: real, b: real, t: real): (r: real)
    ensures t == 0.0 ==> r == a
    ensures t == 1.0 ==> r == b
  {
    a + (b - a) * t
  }

  /** Interpolating from b back to a with the complementary scale gives the same value. */
  lemma LerpSymmetric(a: real, b: real, t: real)
    ensures Lerp(a, b, t) == Lerp(b, a, 1.0 - t)
  {
  }

  lemma LerpBetweenOrdered(a: real, b: real, t: real)
    requires a <= b && 0.0 <= t <= 1.0
    ensures a <= Lerp(a, b, t) <= b
  {
    var d := b - a;
    assert d * t >= 0.0;
    assert d * (1.0 - t) >= 0.0;
  }

  /** For t in [0, 1] the interpolated value lies between the two ends. */
  lemma LerpBetween(a: real, b: real, t: real)
    requires 0.0 <= t <= 1.0
    ensures a <= b ==> a <= Lerp(a, b, t) <= b
    ensures b <= a ==> b <= Lerp(a, b, t) <= a
  {
    if a <= b {
      LerpBetweenOrdered(a, b, t);
    }
    if b <= a {
      LerpSymmetric(a, b, t);
      LerpBetweenOrdered(b, a, 1.0 - t);
    }
  }

  /** Element-wise interpolation of a's entries towards b's, for as many entries as a has. */
  function LerpAll(a: seq<real>, b: seq<real>, t: real): (r: seq<real>)
    requires |a| <= |b|
    ensures |r| == |a| && forall i :: 0 <= i < |a| ==> r[i] == Lerp(a[i], b[i], t)
  {
    seq(|a|, i requires 0 <= i < |a| => Lerp(a[i], b[i], t))
  }

  // ------------------------------------------------------------ event markers

  /** A JSON value as the file loader hands it over. */
  datatype Json = Null | Bool(b: bool) | Num(n: real) | Str(s: string) | Arr(items: seq<Json>) | Obj(fields: map<string, Json>)

  /**
   * A named event at a time of the trajectory. The loader stores whatever the
   * file holds under "name" (the dataclass does not check its annotation).
   */
  datatype EventMarker = EventMarker(timestamp: real, event: Json)

  /** The marker moved by `offset` in time, with the same event. */
  function OffsetBy(m: EventMarker, offset: real): (r: EventMarker)
    ensures r.event == m.event
    ensures r.timestamp - m.timestamp == offset
  {
    EventMarker(m.timestamp + offset, m.event)
  }

  /** Offsetting twice is offsetting once by the sum. */
  lemma OffsetByCompose(m: EventMarker, a: real, b: real)
    ensures OffsetBy(OffsetBy(m, a), b) == OffsetBy(m, a + b)
  {
    assert OffsetBy(OffsetBy(m, a), b).timestamp == OffsetBy(m, a + b).timestamp;
  }

  /** Offsetting back by the opposite amount restores the marker. */
  lemma OffsetByInverse(m: EventMarker, offset: real)
    ensures OffsetBy(OffsetBy(m, offset), -offset) == m
  {
    assert OffsetBy(OffsetBy(m, offset), -offset).timestamp == m.timestamp;
  }

  /** `j[key]`: a missing key of an object raises KeyError; anything but an object raises TypeError. */
  function Subscript(j: Json, key: string): PyResult<Json> {
    match j
    case Obj(fields) => if key in fields then Success(fields[key]) else Failure(KeyError)
    case _ => Failure(TypeError)
  }

  /**
   * `float(j)`: numbers as they are, booleans as 1 and 0, strings through
   * `parse` (None for text that is not a number, which raises ValueError);
   * None, lists and objects raise TypeError.
   */
  function ToFloat(j: Json, parse: string -> Option<real>): PyResult<real> {
    match j
    case Num(n) => Success(n)
    case Bool(b) => Success(if b then 1.0 else 0.0)
    case Str(s) => if parse(s).Some? then Success(parse(s).value) else Failure(ValueError)
    case _ => Failure(TypeError)
  }

  /** `len(j)`: defined for strings, lists and objects; TypeError otherwise. */
  function Len(j: Json): PyResult<nat> {
    match j
    case Str(s) => Success(|s|)
    case Arr(items) => Success(|items|)
    case Obj(fields) => Success(|fields|)
    case _ => Failure(TypeError)
  }

  /** The body of the loader's `try`, every step in source order. */
  function ReadEventMarker(event: Json, parse: string -> Option<real>): PyResult<Option<EventMarker>> {
    var from :- Subscript(event, "from");
    var offsetField :- Subscript(from, "offset");
    var offsetValue :- Subscript(offsetField, "val");
    var offset :- ToFloat(offsetValue, parse);
    var targetField :- Subscript(from, "targetTimestamp");
    var targetTimestamp :- ToFloat(targetField, parse);
    var name :- Subscript(event, "name");
    if targetTimestamp + offset < 0.0 then Success(None)
    else
      var length :- Len(name);
      if length == 0 then Success(None) else Success(Some(EventMarker(targetTimestamp + offset, name)))
  }

  /**
   * Loads a marker from its JSON form. A marker before the start of the
   * trajectory or with an empty name is dropped (None), and so is one whose
   * reading raises TypeError; every other exception propagates.
   */
  function LoadEventMarker(event: Json, parse: string -> Option<real>): (r: PyResult<Option<EventMarker>>)
    ensures r.Success? && r.value.Some? ==>
      r.value.value.timestamp >= 0.0 && Len(r.value.value.event).Success? && Len(r.value.value.event).value > 0
    ensures r.Failure? ==> r.error == KeyError || r.error == ValueError
  {
    var read := ReadEventMarker(event, parse);
    if read.Failure? && read.error == TypeError then Success(None) else read
  }

  /** The JSON form of a marker whose time is `offset` after `target`. */
  function EventJson(offset: Json, target: Json, name: Json): Json {
    Obj(map["from" := Obj(map["offset" := Obj(map["val" := offset]), "targetTimestamp" := target]), "name" := name])
  }

  /** A marker given by numbers and a string name loads exactly when its time is not negative and its name not empty. */
  lemma LoadNumericEvent(offset: real, target: real, name: string, parse: string -> Option<real>)
    ensures LoadEventMarker(EventJson(Num(offset), Num(target), Str(name)), parse) ==
      Success(if target + offset < 0.0 || |name| == 0 then None else Some(EventMarker(target + offset, Str(name))))
  {
    var from := Obj(map["offset" := Obj(map["val" := Num(offset)]), "targetTimestamp" := Num(target)]);
    assert Subscript(EventJson(Num(offset), Num(target), Str(name)), "from") == Success(from);
    assert Subscript(EventJson(Num(offset), Num(target), Str(name)), "name") == Success(Str(name));
  }

  /** Only TypeError is caught: a marker without a "name" key raises KeyError. */
  lemma LoadUnnamedEventRaises(offset: real, target: real, parse: string -> Option<real>)
    ensures
      var from := Obj(map["offset" := Obj(map["val" := Num(offset)]), "targetTimestamp" := Num(target)]);
      LoadEventMarker(Obj(map["from" := from]), parse) == Failure(KeyError)
  {
    var from := Obj(map["offset" := Obj(map["val" := Num(offset)]), "targetTimestamp" := Num(target)]);
    assert Subscript(Obj(map["from" := from]), "from") == Success(from);
    assert "name" !in map["from" := from];
  }

  /** A null time raises TypeError in `float`, which the loader turns into None. */
  lemma LoadNullTimeIsDropped(offset: real, name: Json, parse: string -> Option<real>)
    ensures LoadEventMarker(EventJson(Num(offset), Null, name), parse) == Success(None)
  {
    var from := Obj(map["offset" := Obj(map["val" := Num(offset)]), "targetTimestamp" := Null]);
    assert Subscript(EventJson(Num(offset), Null, name), "from") == Success(from);
    assert ReadEventMarker(EventJson(Num(offset), Null, name), parse) == Failure(TypeError);
  }

  // ------------------------------------------------------------------ samples

  /** One state of a trajectory, of a differential or of a swerve drivetrain. */
  datatype Sample =
    | DifferentialSample(timestamp: real, x: real, y: real, heading: real,
                         vl: real, vr: real, omega: real, al: real, ar: real, fl: real, fr: real)
    | SwerveSample(timestamp: real, x: real, y: real, heading: real,
                   vx: real, vy: real, omega: real, ax: real, ay: real, alpha: real,
                   fx: seq<real>, fy: seq<real>)

  /** Whether `interpolate` finds every attribute it reads on `end`. */
  predicate SameKind(s: Sample, end: Sample) {
    s.DifferentialSample? == end.DifferentialSample?
  }

  /**
   * The state at time t between s and end: every quantity interpolated with
   * scale (t - s.timestamp) / (end.timestamp - s.timestamp), and the
   * timestamp t. Equal timestamps divide by zero; an end of the other kind
   * lacks an attribute; a swerve end with fewer module forces than s runs out
   * of indices.
   */
  function Interpolate(s: Sample, end: Sample, t: real): (r: PyResult<Sample>)
    ensures r.Success? <==>
      && end.timestamp != s.timestamp && SameKind(s, end)
      && (s.SwerveSample? ==> |s.fx| <= |end.fx| && |s.fy| <= |end.fy|)
    ensures r.Success? ==> r.value.timestamp == t && SameKind(r.value, s)
  {
    if end.timestamp == s.timestamp then Failure(ZeroDivisionError)
    else
      var scale := (t - s.timestamp) / (end.timestamp - s.timestamp);
      match s
      case DifferentialSample(_, _, _, _, _, _, _, _, _, _, _) =>
        if !end.DifferentialSample? then Failure(AttributeError)
        else Success(DifferentialSample(
          t, Lerp(s.x, end.x, scale), Lerp(s.y, end.y, scale), Lerp(s.heading, end.heading, scale),
          Lerp(s.vl, end.vl, scale), Lerp(s.vr, end.vr, scale), Lerp(s.omega, end.omega, scale),
          Lerp(s.al, end.al, scale), Lerp(s.ar, end.ar, scale), Lerp(s.fl, end.fl, scale), Lerp(s.fr, end.fr, scale)))
      case SwerveSample(_, _, _, _, _, _, _, _, _, _, _, _) =>
        if !end.SwerveSample? then Failure(AttributeError)
        else if |end.fx| < |s.fx| || |end.fy| < |s.fy| then Failure(IndexError)
        else Success(SwerveSample(
          t, Lerp(s.x, end.x, scale), Lerp(s.y, end.y, scale), Lerp(s.heading, end.heading, scale),
          Lerp(s.vx, end.vx, scale), Lerp(s.vy, end.vy, scale), Lerp(s.omega, end.omega, scale),
          Lerp(s.ax, end.ax, scale), Lerp(s.ay, end.ay, scale), Lerp(s.alpha, end.alpha, scale),
          LerpAll(s.fx, end.fx, scale), LerpAll(s.fy, end.fy, scale)))
  }

  /** Interpolating at the start's own time gives back the start state. */
  lemma InterpolateAtStart(s: Sample, end: Sample)
    requires Interpolate(s, end, s.timestamp).Success?
    ensures Interpolate(s, end, s.timestamp) == Success(s)
  {
    var scale := (s.timestamp - s.timestamp) / (end.timestamp - s.timestamp);
    assert scale == 0.0;
    if s.SwerveSample? {
      assert LerpAll(s.fx, end.fx, scale) == s.fx;
      assert LerpAll(s.fy, end.fy, scale) == s.fy;
    }
  }

  /** Interpolating at the end's time gives the end state, when both carry as many module forces. */
  lemma InterpolateAtEnd(s: Sample, end: Sample)
    requires Interpolate(s, end, end.timestamp).Success?
    requires s.SwerveSample? ==> |s.fx| == |end.fx| && |s.fy| == |end.fy|
    ensures Interpolate(s, end, end.timestamp) == Success(end)
  {
    var scale := (end.timestamp - s.timestamp) / (end.timestamp - s.timestamp);
    assert scale == 1.0;
    if s.SwerveSample? {
      assert LerpAll(s.fx, end.fx, scale) == end.fx;
      assert LerpAll(s.fy, end.fy, scale) == end.fy;
    }
  }

  // ----------------------------------------------------------------- flipping

  /**
   * The field flipper of one season: whether the field is mirrored (rather
   * than rotated) and the maps it applies to x, y and heading.
   */
  datatype Flipper = Flipper(isMirrored: bool, flipX: real -> real, flipY: real -> real, flipHeading: real -> real)

  /** Every entry negated. */
  function Negated(xs: seq<real>): (r: seq<real>)
    ensures |r| == |xs| && forall i :: 0 <= i < |xs| ==> r[i] == -xs[i]
  {
    seq(|xs|, i requires 0 <= i < |xs| => -xs[i])
  }

  /**
   * The sample as seen from the other alliance. On a mirrored field the left
   * and right sides trade places and turning reverses; on a rotated field the
   * velocities, accelerations and forces reverse. A mirrored swerve sample
   * reads module forces 0 to 3 and raises IndexError with fewer.
   */
  function Flipped(s: Sample, f: Flipper): (r: PyResult<Sample>)
    ensures r.Success? <==> !(s.SwerveSample? && f.isMirrored && (|s.fx| < 4 || |s.fy| < 4))
    ensures r.Success? ==> r.value.timestamp == s.timestamp && SameKind(r.value, s)
    ensures r.Success? ==> r.value.x == f.flipX(s.x) && r.value.y == f.flipY(s.y) && r.value.heading == f.flipHeading(s.heading)
  {
    match s
    case DifferentialSample(ts, x, y, h, vl, vr, omega, al, ar, fl, fr) =>
      if f.isMirrored then Success(DifferentialSample(ts, f.flipX(x), f.flipY(y), f.flipHeading(h), vr, vl, -omega, ar, al, fr, fl))
      else Success(DifferentialSample(ts, f.flipX(x), f.flipY(y), f.flipHeading(h), vl, vr, omega, al, ar, fl, fr))
    case SwerveSample(ts, x, y, h, vx, vy, omega, ax, ay, alpha, fx, fy) =>
      if f.isMirrored then
        if |fx| < 4 || |fy| < 4 then Failure(IndexError)
        else Success(SwerveSample(ts, f.flipX(x), f.flipY(y), f.flipHeading(h), -vx, vy, -omega, -ax, ay, -alpha,
                                  [-fx[1], -fx[0], -fx[3], -fx[2]], [fy[1], fy[0], fy[3], fy[2]]))
      else Success(SwerveSample(ts, f.flipX(x), f.flipY(y), f.flipHeading(h), -vx, -vy, omega, -ax, -ay, alpha,
                                Negated(fx), Negated(fy)))
  }

  /** On a mirrored field a differential sample trades its left and right wheels and turns the other way. */
  lemma MirroredDifferentialSwapsSides(s: Sample, f: Flipper)
    requires s.DifferentialSample? && f.isMirrored
    ensures Flipped(s, f).Success?
    ensures var m := Flipped(s, f).value;
      && m.vl == s.vr && m.vr == s.vl && m.al == s.ar && m.ar == s.al && m.fl == s.fr && m.fr == s.fl
      && m.omega == -s.omega
  {
  }

  /** Whether the flipper's maps undo themselves at the sample's position and heading. */
  predicate InvolutiveAt(f: Flipper, s: Sample) {
    f.flipX(f.flipX(s.x)) == s.x && f.flipY(f.flipY(s.y)) == s.y && f.flipHeading(f.flipHeading(s.heading)) == s.heading
  }

  /**
   * Flipping twice restores the sample when the flipper's maps undo
   * themselves; a mirrored swerve sample must carry exactly four module
   * forces, since the flip keeps only modules 0 to 3.
   */
  lemma FlipTwice(s: Sample, f: Flipper)
    requires InvolutiveAt(f, s)
    requires s.SwerveSample? && f.isMirrored ==> |s.fx| == 4 && |s.fy| == 4
    ensures Flipped(s, f).Success?
    ensures Flipped(Flipped(s, f).value, f) == Success(s)
  {
    var once := Flipped(s, f).value;
    if s.SwerveSample? {
      if f.isMirrored {
        assert once.fx == [-s.fx[1], -s.fx[0], -s.fx[3], -s.fx[2]];
        assert s.fx == [s.fx[0], s.fx[1], s.fx[2], s.fx[3]];
        assert s.fy == [s.fy[0], s.fy[1], s.fy[2], s.fy[3]];
      } else {
        assert Negated(Negated(s.fx)) == s.fx;
        assert Negated(Negated(s.fy)) == s.fy;
      }
    }
  }

  /** The samples flipped in order; the first failure propagates. */
  function FlipAll(samples: seq<Sample>, f: Flipper): (r: PyResult<seq<Sample>>)
    ensures r.Success? <==> forall i :: 0 <= i < |samples| ==> Flipped(samples[i], f).Success?
    ensures r.Success? ==> |r.value| == |samples| && forall i :: 0 <= i < |samples| ==> Success(r.value[i]) == Flipped(samples[i], f)
  {
    if samples == [] then Success([])
    else
      var head :- Flipped(samples[0], f);
      var rest :- FlipAll(samples[1..], f);
      assert forall i :: 1 <= i < |samples| ==> samples[i] == samples[1..][i - 1];
      Success([head] + rest)
  }

  // ------------------------------------------------------------- trajectories

  /** A named trajectory: its samples in time order, the sample indices where it splits, and its events. */
  datatype Trajectory = Trajectory(name: string, samples: seq<Sample>, splits: seq<int>, events: seq<EventMarker>)

  /** The timestamp of the last sample, or 0 without samples. */
  function TotalTime(samples: seq<Sample>): (r: real)
    ensures samples == [] ==> r == 0.0
    ensures samples != [] ==> r == samples[|samples| - 1].timestamp
  {
    if |samples| == 0 then 0.0 else samples[|samples| - 1].timestamp
  }

  /** Timestamps never decrease from one sample to the next. */
  predicate Sorted(samples: seq<Sample>) {
    forall i :: 0 < i < |samples| ==> samples[i - 1].timestamp <= samples[i].timestamp
  }

  /** In a sorted trajectory every earlier sample is no later than every later one. */
  lemma {:induction false} SortedPairs(samples: seq<Sample>, i: nat, j: nat)
    requires Sorted(samples) && i <= j < |samples|
    ensures samples[i].timestamp <= samples[j].timestamp
    decreases j - i
  {
    if i < j {
      SortedPairs(samples, i, j - 1);
    }
  }

  /** Every sample of a sorted trajectory lies within its total time. */
  lemma SortedWithinTotalTime(samples: seq<Sample>, i: nat)
    requires Sorted(samples) && i < |samples|
    ensures samples[i].timestamp <= TotalTime(samples)
  {
    SortedPairs(samples, i, |samples| - 1);
  }

  /** The reference for the binary search: the first sample at or after t, scanning from the front (|samples| if none). */
  function FirstAtOrAfter(samples: seq<Sample>, t: real): (k: nat)
    ensures k <= |samples|
    ensures forall i :: 0 <= i < k ==> samples[i].timestamp < t
    ensures k < |samples| ==> samples[k].timestamp >= t
  {
    if samples == [] then 0
    else if samples[0].timestamp >= t then 0
    else
      var k := 1 + FirstAtOrAfter(samples[1..], t);
      assert forall i :: 1 <= i < k ==> samples[i] == samples[1..][i - 1];
      k
  }

  /** Sample k is at or after t, and the sample before it, if any, is earlier than t. */
  predicate IsBracket(samples: seq<Sample>, t: real, k: nat) {
    k < |samples| && samples[k].timestamp >= t && (k == 0 || samples[k - 1].timestamp < t)
  }

  /** In a sorted trajectory the bracket is unique: the first sample at or after t. */
  lemma BracketIsFirst(samples: seq<Sample>, t: real, k: nat)
    requires Sorted(samples) && IsBracket(samples, t, k)
    ensures k == FirstAtOrAfter(samples, t)
  {
    var first := FirstAtOrAfter(samples, t);
    if first < k {
      SortedPairs(samples, first, k - 1);
    }
  }

  /** The binary search: narrows [low, high] until one index is left. */
  method FindBracket(samples: seq<Sample>, t: real) returns (low: nat)
    requires |samples| >= 1
    ensures low < |samples|
    ensures low == 0 || samples[low - 1].timestamp < t
    ensures low == |samples| - 1 || samples[low].timestamp >= t
    ensures Sorted(samples) && t <= TotalTime(samples) ==> low == FirstAtOrAfter(samples, t)
  {
    low := 0;
    var high := |samples| - 1;
    while low != high
      invariant 0 <= low <= high < |samples|
      invariant low == 0 || samples[low - 1].timestamp < t
      invariant high == |samples| - 1 || samples[high].timestamp >= t
      decreases high - low
    {
      var mid := (low + high) / 2;
      if samples[mid].timestamp < t {
        low := mid + 1;
      } else {
        high := mid;
      }
    }
    if Sorted(samples) && t <= TotalTime(samples) {
      BracketIsFirst(samples, t, low);
    }
  }

  /** The gap under which two neighbouring samples count as one instant. */
  const Tolerance: real := 0.000001

  /** The result once the search has settled on `low`. */
  function Settle(samples: seq<Sample>, t: real, low: nat): PyResult<Option<Sample>>
    requires low < |samples|
  {
    if low == 0 then Success(Some(samples[0]))
    else
      var behind, ahead := samples[low - 1], samples[low];
      if ahead.timestamp - behind.timestamp < Tolerance then Success(Some(ahead))
      else
        var s :- Interpolate(behind, ahead, t);
        Success(Some(s))
  }

  /**
   * What looking up time t returns: None without samples, the only sample
   * of a one-sample trajectory, the first or last sample for a time outside
   * the trajectory, and otherwise the state at t between the first sample at
   * or after t and the one before it.
   */
  function SampleSpec(samples: seq<Sample>, t: real): PyResult<Option<Sample>> {
    if |samples| == 0 then Success(None)
    else if |samples| == 1 then Success(Some(samples[0]))
    else if t < samples[0].timestamp then Success(Some(samples[0]))
    else if t > TotalTime(samples) then Success(Some(samples[|samples| - 1]))
    else
      var k := FirstAtOrAfter(samples, t);
      Settle(samples, t, k)
  }

  /** The sample at time t: clamping at both ends, a binary search, then interpolation. */
  method SampleInternal(traj: Trajectory, t: real) returns (r: PyResult<Option<Sample>>)
    ensures traj.samples == [] ==> r == Success(None)
    ensures |traj.samples| == 1 ==> r == Success(Some(traj.samples[0]))
    ensures |traj.samples| > 1 && t < traj.samples[0].timestamp ==> r == Success(Some(traj.samples[0]))
    ensures |traj.samples| > 1 && traj.samples[0].timestamp <= t && t > TotalTime(traj.samples) ==> r == Success(Some(traj.samples[|traj.samples| - 1]))
    ensures Sorted(traj.samples) ==> r == SampleSpec(traj.samples, t)
  {
    var samples := traj.samples;
    if |samples| == 0 {
      return Success(None);
    }
    if |samples| == 1 {
      return Success(Some(samples[0]));
    }
    if t < samples[0].timestamp {
      return Success(Some(samples[0]));
    }
    if t > TotalTime(samples) {
      return Success(Some(samples[|samples| - 1]));
    }
    var low := FindBracket(samples, t);
    if low == 0 {
      return Success(Some(samples[0]));
    }
    var behind, ahead := samples[low - 1], samples[low];
    if ahead.timestamp - behind.timestamp < Tolerance {
      return Success(Some(ahead));
    }
    var s := Interpolate(behind, ahead, t);
    if s.Failure? {
      return Failure(s.error);
    }
    return Success(Some(s.value));
  }

  /**
   * Within a sorted trajectory's time span, a lookup that succeeds returns a
   * state at t or at most the tolerance after it.
   */
  lemma SampleNearRequestedTime(samples: seq<Sample>, t: real)
    requires Sorted(samples) && |samples| >= 2
    requires samples[0].timestamp <= t <= TotalTime(samples)
    requires SampleSpec(samples, t).Success?
    ensures var r := SampleSpec(samples, t).value;
      r.Some? && 0.0 <= r.value.timestamp - t < Tolerance
  {
  }

  /** The interpolation scale of a bracketing pair lies in (0, 1]. */
  lemma ScaleInUnit(behind: real, ahead: real, t: real)
    requires behind < t <= ahead
    ensures 0.0 < (t - behind) / (ahead - behind) <= 1.0
  {
    var scale := (t - behind) / (ahead - behind);
    assert scale * (ahead - behind) == t - behind;
  }

  /** An interpolated lookup of a sorted trajectory lies between the positions of the two samples around t. */
  lemma SampleBetweenNeighbours(samples: seq<Sample>, t: real)
    requires Sorted(samples) && |samples| >= 2
    requires samples[0].timestamp <= t <= TotalTime(samples)
    ensures var k := FirstAtOrAfter(samples, t);
      var r := SampleSpec(samples, t);
      0 < k < |samples| && r.Success? && r.value.Some? && r.value.value != samples[k] ==>
        var a, b := samples[k - 1].x, samples[k].x;
        (a <= b ==> a <= r.value.value.x <= b) && (b <= a ==> b <= r.value.value.x <= a)
  {
    var k := FirstAtOrAfter(samples, t);
    var r := SampleSpec(samples, t);
    if 0 < k < |samples| && r.Success? && r.value.Some? && r.value.value != samples[k] {
      var behind, ahead := samples[k - 1], samples[k];
      assert ahead.timestamp - behind.timestamp >= Tolerance;
      ScaleInUnit(behind.timestamp, ahead.timestamp, t);
      var scale := (t - behind.timestamp) / (ahead.timestamp - behind.timestamp);
      assert r.value.value == Interpolate(behind, ahead, t).value;
      LerpBetween(behind.x, ahead.x, scale);
    }
  }

  /** A lookup's result, flipped when asked; None and failures pass through. */
  function FlippedLookup(found: PyResult<Option<Sample>>, flip: bool, f: Flipper): PyResult<Option<Sample>> {
    if found.Failure? || found.value.None? || !flip then found
    else
      var s :- Flipped(found.value.value, f);
      Success(Some(s))
  }

  /** Lookup, flipped with the default season's flipper when asked. */
  method SampleAt(traj: Trajectory, t: real, flipForRedAlliance: bool, defaultFlipper: Flipper)
    returns (r: PyResult<Option<Sample>>)
    ensures Sorted(traj.samples) ==> r == FlippedLookup(SampleSpec(traj.samples, t), flipForRedAlliance, defaultFlipper)
  {
    var tmp := SampleInternal(traj, t);
    if tmp.Failure? || tmp.value.None? {
      return tmp;
    }
    if flipForRedAlliance {
      var s := Flipped(tmp.value.value, defaultFlipper);
      if s.Failure? {
        return Failure(s.error);
      }
      return Success(Some(s.value));
    }
    return tmp;
  }

  /**
   * The trajectory flipped for `year`, as written: the samples are flipped
   * with the default season's flipper whatever the year.
   */
  function FlippedTrajectoryAsWritten(traj: Trajectory, year: int, flipperFor: int -> Flipper, defaultYear: int): (r: PyResult<Trajectory>)
    ensures r == FlippedTrajectory(traj, flipperFor(defaultYear))
  {
    var samples :- FlipAll(traj.samples, flipperFor(defaultYear));
    Success(Trajectory(traj.name, samples, traj.splits, traj.events))
  }

  /** With a year other than the default, the as-written flip can differ from flipping for that year. */
  lemma FlippedIgnoresYear()
    ensures
      var mirror := Flipper(true, x => x, y => y, h => h);
      var rotate := Flipper(false, x => x, y => y, h => h);
      var flipperFor := (year: int) => if year == 2024 then mirror else rotate;
      var traj := Trajectory("t", [DifferentialSample(0.0, 0.0, 0.0, 0.0, 1.0, 0.0, 0.0, 0.0, 0.0, 0.0, 0.0)], [], []);
      FlippedTrajectoryAsWritten(traj, 2024, flipperFor, 2025) != FlippedTrajectory(traj, flipperFor(2024))
  {
    var mirror := Flipper(true, x => x, y => y, h => h);
    var rotate := Flipper(false, x => x, y => y, h => h);
    var flipperFor := (year: int) => if year == 2024 then mirror else rotate;
    var s := DifferentialSample(0.0, 0.0, 0.0, 0.0, 1.0, 0.0, 0.0, 0.0, 0.0, 0.0, 0.0);
    var traj := Trajectory("t", [s], [], []);
    assert Flipped(s, rotate).value.vl == 1.0;
    assert Flipped(s, mirror).value.vl == 0.0;
    assert FlippedTrajectoryAsWritten(traj, 2024, flipperFor, 2025).value.samples[0].vl == 1.0;
    assert FlippedTrajectory(traj, flipperFor(2024)).value.samples[0].vl == 0.0;
  }

  /**
   * The trajectory as seen from the other alliance: every sample flipped
   * with the flipper of the requested season, the name, splits and events
   * unchanged.
   */
  function FlippedTrajectory(traj: Trajectory, f: Flipper): (r: PyResult<Trajectory>)
    ensures r.Success? <==> forall i :: 0 <= i < |traj.samples| ==> Flipped(traj.samples[i], f).Success?
    ensures r.Success? ==>
      && r.value.name == traj.name && r.value.splits == traj.splits && r.value.events == traj.events
      && |r.value.samples| == |traj.samples|
      && forall i :: 0 <= i < |traj.samples| ==> Success(r.value.samples[i]) == Flipped(traj.samples[i], f)
  {
    var samples :- FlipAll(traj.samples, f);
    Success(Trajectory(traj.name, samples, traj.splits, traj.events))
  }
}
