/**
 * How the differential generator lays out a path: waypoint w's first sample
 * is GetIndex(Ns, w, 0), segment s has Ns[s] control intervals, and the
 * samples of all segments are numbered consecutively. GetIndex is defined
 * in a header that is not part of this model; the layout below takes it to
 * be the cumulative sum of the earlier segments' interval counts plus the
 * sample offset.
 */
module DifferentialLayout {

  /** Ns[0] + ... + Ns[|Ns| - 1]. */
  function Sum(ns: seq<nat>): nat {
    if ns == [] then 0 else Sum(ns[..|ns| - 1]) + ns[|ns| - 1]
  }

  /** The sample number of sample `s` of segment `w` (sample 0 of waypoint w). */
  function GetIndex(ns: seq<nat>, w: nat, s: nat): nat
    requires w <= |ns|
  {
    Sum(ns[..w]) + s
  }

  /** The number of samples: the first sample of the last waypoint, plus one. */
  function SampleTotal(ns: seq<nat>): (n: nat)
    ensures n == Sum(ns) + 1
  {
    assert ns[..|ns|] == ns;
    GetIndex(ns, |ns|, 0) + 1
  }

  lemma SumStep(ns: seq<nat>, w: nat)
    requires w < |ns|
    ensures Sum(ns[..w + 1]) == Sum(ns[..w]) + ns[w]
  {
    assert ns[..w + 1][..w] == ns[..w];
  }

  /** Later waypoints start no earlier. */
  lemma {:induction false} SumMonotone(ns: seq<nat>, w: nat, w': nat)
    requires w <= w' <= |ns|
    ensures Sum(ns[..w]) <= Sum(ns[..w'])
    decreases w' - w
  {
    if w < w' {
      SumStep(ns, w);
      SumMonotone(ns, w + 1, w');
    }
  }

  /** Segment w's samples run from GetIndex(w, 0) up to but excluding GetIndex(w + 1, 0). */
  lemma SegmentSpan(ns: seq<nat>, w: nat)
    requires w < |ns|
    ensures GetIndex(ns, w + 1, 0) == GetIndex(ns, w, 0) + ns[w]
  {
    SumStep(ns, w);
  }

  /**
   * Every sample before the last one belongs to exactly one segment: Locate
   * finds the segment and the offset in it.
   */
  function Locate(ns: seq<nat>, k: nat): (p: (nat, nat))
    requires k < Sum(ns)
    ensures p.0 < |ns| && p.1 < ns[p.0]
    ensures GetIndex(ns, p.0, p.1) == k
  {
    var init := ns[..|ns| - 1];
    if k < Sum(init) then
      var p := Locate(init, k);
      assert init[..p.0] == ns[..p.0];
      p
    else
      assert ns[..|ns| - 1] == init;
      (|ns| - 1, k - Sum(init))
  }

  /** Two (segment, offset) pairs name the same sample only if they are equal. */
  lemma LocateUnique(ns: seq<nat>, w: nat, i: nat, w': nat, i': nat)
    requires w < |ns| && i < ns[w] && w' < |ns| && i' < ns[w']
    requires GetIndex(ns, w, i) == GetIndex(ns, w', i')
    ensures w == w' && i == i'
  {
    if w < w' {
      SumStep(ns, w);
      SumMonotone(ns, w + 1, w');
    } else if w' < w {
      SumStep(ns, w');
      SumMonotone(ns, w' + 1, w);
    }
  }

  /** Per-sample variables: nine per sample, allocated sample by sample. */
  const VarsPerSample: nat := 9

  /** The position of each per-sample variable within its sample's block. */
  const XSlot: nat := 0
  const YSlot: nat := 1
  const HeadingSlot: nat := 2
  const VlSlot: nat := 3
  const VrSlot: nat := 4
  const AlSlot: nat := 5
  const ArSlot: nat := 6
  const FlSlot: nat := 7
  const FrSlot: nat := 8

  /** The variable number of slot `k` of sample `index`. */
  function SampleVar(index: nat, k: nat): nat {
    VarsPerSample * index + k
  }

  /** The variable number of segment s's timestep, allocated after all samples. */
  function DtVar(sampTot: nat, s: nat): nat {
    VarsPerSample * sampTot + s
  }

  /** `ids` holds slot k of samples 0 .. n - 1, in sample order. */
  predicate LaidOut(ids: seq<nat>, n: nat, k: nat) {
    |ids| == n && forall i :: 0 <= i < n ==> ids[i] == SampleVar(i, k)
  }

  /** Appending sample n's slot-k variable extends the layout by one sample. */
  lemma LaidOutStep(ids: seq<nat>, n: nat, k: nat, id: nat)
    requires LaidOut(ids, n, k) && id == SampleVar(n, k)
    ensures LaidOut(ids + [id], n + 1, k)
  {
  }

  /** The timestep vector: one variable per segment. */
  function DtColumn(sampTot: nat, count: nat): (ids: seq<nat>)
    ensures |ids| == count
  {
    seq(count, (s: nat) => DtVar(sampTot, s))
  }

  /** `ids` holds the timestep variables of segments 0 .. count - 1, in segment order. */
  predicate TimestepsLaidOut(ids: seq<nat>, sampTot: nat, count: nat) {
    |ids| == count && forall s :: 0 <= s < count ==> ids[s] == DtVar(sampTot, s)
  }

  /** Appending segment s's timestep variable extends the timestep layout by one segment. */
  lemma TimestepsLaidOutStep(ids: seq<nat>, sampTot: nat, s: nat, id: nat)
    requires TimestepsLaidOut(ids, sampTot, s) && id == DtVar(sampTot, s)
    ensures TimestepsLaidOut(ids + [id], sampTot, s + 1)
  {
  }

  /** The laid-out timestep vector is DtColumn. */
  lemma TimestepsAreDtColumn(ids: seq<nat>, sampTot: nat, count: nat)
    requires TimestepsLaidOut(ids, sampTot, count)
    ensures ids == DtColumn(sampTot, count)
  {
  }

  /** Distinct (sample, slot) pairs get distinct variables, and every timestep comes after every sample variable. */
  lemma LayoutDistinct(i: nat, k: nat, j: nat, l: nat)
    requires k < VarsPerSample && l < VarsPerSample
    ensures SampleVar(i, k) == SampleVar(j, l) <==> i == j && k == l
  {
    if i < j {
      assert SampleVar(i, k) < SampleVar(i + 1, 0) <= SampleVar(j, l);
    } else if j < i {
      assert SampleVar(j, l) < SampleVar(j + 1, 0) <= SampleVar(i, k);
    }
  }

  lemma SampleBeforeDt(sampTot: nat, i: nat, k: nat, s: nat)
    requires i < sampTot && k < VarsPerSample
    ensures SampleVar(i, k) < DtVar(sampTot, s)
  {
    assert SampleVar(i, k) < SampleVar(i + 1, 0) <= SampleVar(sampTot, 0);
  }

  /** `count` copies of `v`. */
  function Repeat(count: nat, v: real): (r: seq<real>)
    ensures |r| == count && forall i :: 0 <= i < count ==> r[i] == v
  {
    seq(count, _ => v)
  }

  /** The per-sample timestep vector: segment w's value repeated Ns[w] times, in segment order. */
  function ExpandTimesteps(ns: seq<nat>, dts: seq<real>): (r: seq<real>)
    requires |dts| == |ns|
    ensures |r| == Sum(ns)
  {
    if ns == [] then []
    else ExpandTimesteps(ns[..|ns| - 1], dts[..|dts| - 1]) + Repeat(ns[|ns| - 1], dts[|dts| - 1])
  }

  /** The per-sample timestep of sample i of segment w is segment w's timestep. */
  lemma {:induction false} ExpandTimestepsAt(ns: seq<nat>, dts: seq<real>, w: nat, i: nat)
    requires |dts| == |ns| && w < |ns| && i < ns[w]
    ensures GetIndex(ns, w, i) < |ExpandTimesteps(ns, dts)|
    ensures ExpandTimesteps(ns, dts)[GetIndex(ns, w, i)] == dts[w]
  {
    var n := |ns|;
    var init, dinit := ns[..n - 1], dts[..n - 1];
    if w < n - 1 {
      ExpandTimestepsAt(init, dinit, w, i);
      assert init[..w] == ns[..w];
      SumStep(ns, w);
      SumMonotone(ns, w + 1, n - 1);
    } else {
      assert init == ns[..w];
    }
  }

  /** The sum of a sequence of reals. */
  function SumReals(xs: seq<real>): real {
    if xs == [] then 0.0 else SumReals(xs[..|xs| - 1]) + xs[|xs| - 1]
  }

  /** The time a segment of `count` intervals of length `dt` takes. */
  function SegmentDuration(count: nat, dt: real): real {
    (count as real) * dt
  }

  /** N_0 dt_0 + ... + N_{n-1} dt_{n-1}: the total time the objective minimises. */
  function TotalDuration(ns: seq<nat>, dts: seq<real>): real
    requires |dts| == |ns|
  {
    if ns == [] then 0.0
    else TotalDuration(ns[..|ns| - 1], dts[..|dts| - 1]) + SegmentDuration(ns[|ns| - 1], dts[|dts| - 1])
  }

  lemma {:induction false} SumRealsAppend(xs: seq<real>, ys: seq<real>)
    ensures SumReals(xs + ys) == SumReals(xs) + SumReals(ys)
    decreases |ys|
  {
    if ys != [] {
      var ys' := ys[..|ys| - 1];
      assert (xs + ys)[..|xs + ys| - 1] == xs + ys';
      assert (xs + ys)[|xs + ys| - 1] == ys[|ys| - 1];
      SumRealsAppend(xs, ys');
      assert SumReals(xs + ys) == SumReals(xs + ys') + ys[|ys| - 1];
      assert SumReals(ys) == SumReals(ys') + ys[|ys| - 1];
    } else {
      assert xs + ys == xs;
    }
  }

  lemma {:induction false} SumRealsRepeat(n: nat, v: real)
    ensures SumReals(Repeat(n, v)) == SegmentDuration(n, v)
  {
    if n > 0 {
      assert Repeat(n, v)[..n - 1] == Repeat(n - 1, v);
      SumRealsRepeat(n - 1, v);
      assert ((n - 1) as real) * v + v == (n as real) * v;
    }
  }

  /** ExpandTimesteps and TotalDuration, each split off at the last segment. */
  lemma ExpandTimestepsLast(ns: seq<nat>, dts: seq<real>)
    requires |dts| == |ns| > 0
    ensures var n := |ns|;
      && ExpandTimesteps(ns, dts) == ExpandTimesteps(ns[..n - 1], dts[..n - 1]) + Repeat(ns[n - 1], dts[n - 1])
      && TotalDuration(ns, dts) == TotalDuration(ns[..n - 1], dts[..n - 1]) + SegmentDuration(ns[n - 1], dts[n - 1])
  {
  }

  /** Expanding one more segment's timestep appends that segment's samples. */
  lemma ExpandTimestepsPrefix(ns: seq<nat>, dts: seq<real>, s: nat)
    requires |dts| == |ns| && s < |ns|
    ensures ExpandTimesteps(ns[..s + 1], dts[..s + 1]) == ExpandTimesteps(ns[..s], dts[..s]) + Repeat(ns[s], dts[s])
  {
    ExpandTimestepsLast(ns[..s + 1], dts[..s + 1]);
    assert ns[..s + 1][..s] == ns[..s] && dts[..s + 1][..s] == dts[..s];
  }

  /** The per-sample timesteps add up to the total time the objective minimises. */
  lemma {:induction false} ExpandTimestepsTotal(ns: seq<nat>, dts: seq<real>)
    requires |dts| == |ns|
    ensures SumReals(ExpandTimesteps(ns, dts)) == TotalDuration(ns, dts)
  {
    if ns != [] {
      var n := |ns|;
      var init, dinit := ns[..n - 1], dts[..n - 1];
      var count, dt := ns[n - 1], dts[n - 1];
      ExpandTimestepsLast(ns, dts);
      ExpandTimestepsTotal(init, dinit);
      SumRealsAppend(ExpandTimesteps(init, dinit), Repeat(count, dt));
      SumRealsRepeat(count, dt);
    }
  }
}
