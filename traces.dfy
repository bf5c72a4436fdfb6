/** The traces of get_traces and get_traces_: for every point index i, the
    polyline through point i of each mesh, from the innermost mesh to the
    outermost, stored as one vtkPolyData with one line per trace. get_traces
    keeps the mesh points and records the shell index and the running
    length; get_traces_ resamples every trace by chord length and records
    the total length of the trace. */
module Traces {
  import opened Common
  import opened Interpolation
  import opened Meshes

  /** Every mesh has at least n points, so GetPoint(i) is defined for i < n. */
  predicate Covers(meshes: seq<seq<Point>>, n: nat)
  {
    forall k :: 0 <= k < |meshes| ==> n <= |meshes[k]|
  }

  /** The trace through point i: point i of every mesh, in mesh order. */
  function Column(meshes: seq<seq<Point>>, i: nat): (trace: seq<Point>)
    requires Covers(meshes, i + 1)
    ensures |trace| == |meshes|
    ensures forall k :: 0 <= k < |meshes| ==> trace[k] == meshes[k][i]
  {
    seq(|meshes|, k requires 0 <= k < |meshes| => meshes[k][i])
  }

  /** The inner loop `for mesh in meshes: trace.append(mesh.GetPoint(i))`. */
  method GatherTrace(meshes: seq<seq<Point>>, i: nat) returns (trace: seq<Point>)
    requires Covers(meshes, i + 1)
    ensures trace == Column(meshes, i)
  {
    trace := [];
    var k := 0;
    while k < |meshes|
      invariant 0 <= k <= |meshes|
      invariant trace == Column(meshes, i)[..k]
    {
      trace := trace + [meshes[k][i]];
      k := k + 1;
    }
  }

  /** The point ids of a line of k points whose first point has id start. */
  function LineIds(start: nat, k: nat): (ids: seq<nat>)
    ensures |ids| == k
    ensures forall j :: 0 <= j < k ==> ids[j] == start + j
  {
    seq(k, j requires 0 <= j < k => start + j)
  }

  /** The lines of n traces of k points each, stored one after the other. */
  function Lines(k: nat, n: nat): (lines: seq<seq<nat>>)
    ensures |lines| == n
    ensures forall i :: 0 <= i < n ==> lines[i] == LineIds(i * k, k)
  {
    seq(n, i requires 0 <= i < n => LineIds(i * k, k))
  }

  lemma LinesGrow(k: nat, n: nat)
    ensures Lines(k, n + 1) == Lines(k, n) + [LineIds(n * k, k)]
  {
  }

  /** The shell indices 0, 1, ..., k - 1. */
  function Ramp(k: nat): (r: seq<real>)
    ensures |r| == k
    ensures forall j :: 0 <= j < k ==> r[j] == j as real
  {
    seq(k, j requires 0 <= j < k => j as real)
  }

  /** The value v, t times. */
  function Repeat(v: real, t: nat): (r: seq<real>)
    ensures |r| == t
    ensures forall j :: 0 <= j < t ==> r[j] == v
  {
    seq(t, j requires 0 <= j < t => v)
  }

  /** The arrays after the optional prob_image call. */
  function WithProbes(points: seq<Point>, arrays: map<string, seq<real>>, images: Option<seq<Probe>>): map<string, seq<real>>
    requires images.Some? ==> forall k :: 0 <= k < |images.value| ==> Regular(images.value[k].img)
  {
    match images
    case None => arrays
    case Some(ims) => Probed(points, arrays, ims)
  }

  /** Whether the optional prob_image call goes through. */
  predicate ProbesPass(images: Option<seq<Probe>>)
  {
    images.None? || ProbeOutcome(images.value).Pass?
  }

  // ---------------------------------------------------------------- get_traces

  /** Step k of the running length: the distance from the previous point of
      the trace, and from the origin [0, 0, 0] for the first point. */
  function Steps(trace: seq<Point>, dist: (Point, Point) -> real): (st: seq<real>)
    ensures |st| == |trace|
  {
    seq(|trace|, k requires 0 <= k < |trace| => StepAt(trace, dist, k))
  }

  /** Step k: from the origin for the first point, else from point k - 1. */
  function StepAt(trace: seq<Point>, dist: (Point, Point) -> real, k: nat): real
    requires k < |trace|
  {
    dist(if k == 0 then Origin else trace[k - 1], trace[k])
  }

  /** The 'length' values of one trace: the running total of the steps. */
  function Running(trace: seq<Point>, dist: (Point, Point) -> real): (r: seq<real>)
    ensures |r| == |trace|
  {
    var st := Steps(trace, dist);
    seq(|trace|, k requires 0 <= k < |trace| => SumTo(st, k + 1))
  }

  /** The running length starts with the distance of the first point from
      the origin and grows by the distance between consecutive points. */
  lemma RunningStep(trace: seq<Point>, dist: (Point, Point) -> real)
    requires |trace| > 0
    ensures Running(trace, dist)[0] == dist(Origin, trace[0])
    ensures forall k :: 1 <= k < |trace| ==>
      Running(trace, dist)[k] == Running(trace, dist)[k - 1] + dist(trace[k - 1], trace[k])
  {
    var st := Steps(trace, dist);
    assert Running(trace, dist)[0] == SumTo(st, 1) == SumTo(st, 0) + st[0];
    forall k | 1 <= k < |trace|
      ensures Running(trace, dist)[k] == Running(trace, dist)[k - 1] + dist(trace[k - 1], trace[k])
    {
      assert Running(trace, dist)[k] == SumTo(st, k + 1) == SumTo(st, k) + st[k];
      assert Running(trace, dist)[k - 1] == SumTo(st, k);
    }
  }

  /** The running length never decreases. */
  lemma RunningMonotone(trace: seq<Point>, dist: (Point, Point) -> real, i: nat, j: nat)
    requires IsDistance(dist) && i <= j < |trace|
    ensures Running(trace, dist)[i] <= Running(trace, dist)[j]
  {
    SumMonotone(Steps(trace, dist), i + 1, j + 1);
  }

  /** The running length stays put exactly where a point repeats the previous one. */
  lemma RunningStays(trace: seq<Point>, dist: (Point, Point) -> real, k: nat)
    requires IsDistance(dist) && 1 <= k < |trace|
    ensures Running(trace, dist)[k] == Running(trace, dist)[k - 1] <==> trace[k - 1] == trace[k]
  {
    RunningStep(trace, dist);
  }

  function PointBlocks(meshes: seq<seq<Point>>, n: nat): (bs: seq<seq<Point>>)
    requires Covers(meshes, n)
    ensures |bs| == n
    ensures forall i :: 0 <= i < n ==> bs[i] == Column(meshes, i)
  {
    seq(n, i requires 0 <= i < n => Column(meshes, i))
  }

  function IsovalBlocks(k: nat, n: nat): (bs: seq<seq<real>>)
    ensures |bs| == n
    ensures forall i :: 0 <= i < n ==> bs[i] == Ramp(k)
  {
    seq(n, i requires 0 <= i < n => Ramp(k))
  }

  function LengthBlocks(meshes: seq<seq<Point>>, dist: (Point, Point) -> real, n: nat): (bs: seq<seq<real>>)
    requires Covers(meshes, n)
    ensures |bs| == n
    ensures forall i :: 0 <= i < n ==> bs[i] == Running(Column(meshes, i), dist)
  {
    seq(n, i requires 0 <= i < n => Running(Column(meshes, i), dist))
  }

  /** The points of get_traces after n traces: trace after trace. */
  function RawPoints(meshes: seq<seq<Point>>, n: nat): (pts: seq<Point>)
    requires Covers(meshes, n)
    ensures |pts| == n * |meshes|
  {
    ConcatLength(PointBlocks(meshes, n), |meshes|);
    Concat(PointBlocks(meshes, n))
  }

  /** The 'isoval' array: the shell index of every point. */
  function RawIsovals(k: nat, n: nat): (vals: seq<real>)
    ensures |vals| == n * k
  {
    ConcatLength(IsovalBlocks(k, n), k);
    Concat(IsovalBlocks(k, n))
  }

  /** The 'length' array: the running length of every point along its trace. */
  function RawLengths(meshes: seq<seq<Point>>, dist: (Point, Point) -> real, n: nat): (vals: seq<real>)
    requires Covers(meshes, n)
    ensures |vals| == n * |meshes|
  {
    ConcatLength(LengthBlocks(meshes, dist, n), |meshes|);
    Concat(LengthBlocks(meshes, dist, n))
  }

  /** The arrays get_traces adds, 'isoval' then 'length'. */
  function RawArrays(meshes: seq<seq<Point>>, dist: (Point, Point) -> real, n: nat): map<string, seq<real>>
    requires Covers(meshes, n)
  {
    map["isoval" := RawIsovals(|meshes|, n)]["length" := RawLengths(meshes, dist, n)]
  }

  /** Growing each layout by one trace appends that trace's block. */
  lemma RawGrow(meshes: seq<seq<Point>>, dist: (Point, Point) -> real, n: nat)
    requires Covers(meshes, n + 1)
    ensures RawPoints(meshes, n + 1) == RawPoints(meshes, n) + Column(meshes, n)
    ensures RawIsovals(|meshes|, n + 1) == RawIsovals(|meshes|, n) + Ramp(|meshes|)
    ensures RawLengths(meshes, dist, n + 1) == RawLengths(meshes, dist, n) + Running(Column(meshes, n), dist)
  {
    var k := |meshes|;
    assert PointBlocks(meshes, n + 1) == PointBlocks(meshes, n) + [Column(meshes, n)];
    ConcatSnoc(PointBlocks(meshes, n), Column(meshes, n));
    assert IsovalBlocks(k, n + 1) == IsovalBlocks(k, n) + [Ramp(k)];
    ConcatSnoc(IsovalBlocks(k, n), Ramp(k));
    assert LengthBlocks(meshes, dist, n + 1) == LengthBlocks(meshes, dist, n) + [Running(Column(meshes, n), dist)];
    ConcatSnoc(LengthBlocks(meshes, dist, n), Running(Column(meshes, n), dist));
  }

  /** The loop over one trace in get_traces: every point is inserted and
      joins the line, with its shell index and the running length, which
      starts from the origin and adds the distance from the previous point. */
  method AppendTrace(pts: seq<Point>, isovals: seq<real>, lengths: seq<real>, trace: seq<Point>, dist: (Point, Point) -> real)
    returns (outPts: seq<Point>, cell: seq<nat>, outIsovals: seq<real>, outLengths: seq<real>)
    ensures outPts == pts + trace
    ensures cell == LineIds(|pts|, |trace|)
    ensures outIsovals == isovals + Ramp(|trace|)
    ensures outLengths == lengths + Running(trace, dist)
  {
    ghost var run := Running(trace, dist);
    var newPts, newIsovals, newLengths := [], [], [];
    cell := [];
    var dr := 0.0;
    var ro := Origin;
    var iso := 0;
    while iso < |trace|
      invariant 0 <= iso <= |trace|
      invariant newPts == trace[..iso]
      invariant cell == LineIds(|pts|, iso)
      invariant newIsovals == Ramp(iso)
      invariant newLengths == run[..iso]
      invariant dr == SumTo(Steps(trace, dist), iso)
      invariant ro == if iso == 0 then Origin else trace[iso - 1]
    {
      var r := trace[iso];
      cell := cell + [|pts| + iso];
      newPts := newPts + [r];
      newIsovals := newIsovals + [iso as real];
      RunningNext(trace, dist, iso, dr);
      dr := dr + dist(ro, r);
      newLengths := newLengths + [dr];
      ro := r;
      assert trace[..iso + 1] == trace[..iso] + [r];
      iso := iso + 1;
    }
    assert trace[..iso] == trace && run[..iso] == run;
    outPts, outIsovals, outLengths := pts + newPts, isovals + newIsovals, lengths + newLengths;
  }

  /** One more step of the loop of get_traces: the running length grows by
      the distance from the previous point. */
  lemma RunningNext(trace: seq<Point>, dist: (Point, Point) -> real, iso: nat, dr: real)
    requires iso < |trace| && dr == SumTo(Steps(trace, dist), iso)
    ensures dr + dist(if iso == 0 then Origin else trace[iso - 1], trace[iso]) == SumTo(Steps(trace, dist), iso + 1)
    ensures Running(trace, dist)[..iso + 1] == Running(trace, dist)[..iso] + [SumTo(Steps(trace, dist), iso + 1)]
  {
    var st, run := Steps(trace, dist), Running(trace, dist);
    assert st[iso] == dist(if iso == 0 then Origin else trace[iso - 1], trace[iso]);
    assert SumTo(st, iso + 1) == SumTo(st, iso) + st[iso];
    assert run[iso] == SumTo(st, iso + 1);
    assert run[..iso + 1] == run[..iso] + [run[iso]];
  }

  /** get_traces. Every trace becomes one line; its points are the mesh
      points themselves, each carrying its shell index as 'isoval' and its
      running length as 'length'. Fails on an empty mesh list (meshes[0]),
      and with the error of prob_image when an image to probe is empty. */
  method RawTraces(meshes: seq<seq<Point>>, dist: (Point, Point) -> real, images: Option<seq<Probe>>)
    returns (res: Result<PolyData>)
    requires |meshes| > 0 ==> Covers(meshes, |meshes[0]|)
    requires images.Some? ==> forall k :: 0 <= k < |images.value| ==> Regular(images.value[k].img)
    ensures |meshes| == 0 ==> res == Err(NoMeshes)
    ensures |meshes| > 0 && !ProbesPass(images) ==> res == Err(EmptyImage)
    ensures res.Ok? <==> |meshes| > 0 && ProbesPass(images)
    ensures res.Ok? ==> fresh(res.value)
    ensures res.Ok? ==> res.value.points == RawPoints(meshes, |meshes[0]|)
    ensures res.Ok? ==> res.value.lines == Lines(|meshes|, |meshes[0]|)
    ensures res.Ok? ==>
      res.value.arrays == WithProbes(RawPoints(meshes, |meshes[0]|), RawArrays(meshes, dist, |meshes[0]|), images)
  {
    if |meshes| == 0 {
      return Err(NoMeshes);
    }
    var k := |meshes|;
    var npts := |meshes[0]|;
    var pts: seq<Point> := [];
    var cells: seq<seq<nat>> := [];
    var isovals: seq<real> := [];
    var lengths: seq<real> := [];
    var i := 0;
    while i < npts
      invariant 0 <= i <= npts
      invariant pts == RawPoints(meshes, i)
      invariant cells == Lines(k, i)
      invariant isovals == RawIsovals(k, i)
      invariant lengths == RawLengths(meshes, dist, i)
    {
      var trace := GatherTrace(meshes, i);
      var cell;
      pts, cell, isovals, lengths := AppendTrace(pts, isovals, lengths, trace, dist);
      RawGrow(meshes, dist, i);
      LinesGrow(k, i);
      cells := cells + [cell];
      i := i + 1;
    }
    var mesh := new PolyData(pts, cells);
    mesh.arrays := mesh.arrays["isoval" := isovals]["length" := lengths];
    if images.Some? {
      var out := ProbeImages(mesh, images.value);
      if out.Fail? {
        return Err(EmptyImage);
      }
    }
    return Ok(mesh);
  }

  /** Where everything of get_traces sits: point k of line i is point i of
      mesh k, stored at index i * K + k (K the number of meshes), with shell
      index k and the running length of trace i up to mesh k. */
  lemma RawLayout(meshes: seq<seq<Point>>, dist: (Point, Point) -> real, n: nat, i: nat, k: nat)
    requires Covers(meshes, n) && i < n && k < |meshes|
    ensures i * |meshes| + k < n * |meshes|
    ensures Lines(|meshes|, n)[i][k] == i * |meshes| + k
    ensures RawPoints(meshes, n)[i * |meshes| + k] == meshes[k][i]
    ensures RawIsovals(|meshes|, n)[i * |meshes| + k] == k as real
    ensures RawLengths(meshes, dist, n)[i * |meshes| + k] == Running(Column(meshes, i), dist)[k]
  {
    var K := |meshes|;
    ConcatIndex(PointBlocks(meshes, n), K, i, k);
    ConcatIndex(IsovalBlocks(K, n), K, i, k);
    ConcatIndex(LengthBlocks(meshes, dist, n), K, i, k);
  }

  // --------------------------------------------------------------- get_traces_

  /** The chord lengths between consecutive points of a trace. */
  function Segments(trace: seq<Point>, dist: (Point, Point) -> real): (segs: seq<real>)
    requires |trace| >= 1
    ensures |segs| == |trace| - 1
    ensures forall j {:trigger segs[j]} :: 0 <= j < |segs| ==> segs[j] == dist(trace[j], trace[j + 1])
  {
    seq(|trace| - 1, j requires 0 <= j < |trace| - 1 => SegmentAt(trace, dist, j))
  }

  /** Segment j: the distance from point j to point j + 1. */
  function SegmentAt(trace: seq<Point>, dist: (Point, Point) -> real, j: nat): real
    requires j + 1 < |trace|
  {
    dist(trace[j], trace[j + 1])
  }

  /** Chord lengths are never negative, and the first is positive when the
      trace starts with two different points. */
  lemma SegmentsFacts(trace: seq<Point>, dist: (Point, Point) -> real)
    requires IsDistance(dist) && |trace| >= 2 && trace[0] != trace[1]
    ensures Segments(trace, dist)[0] > 0.0
    ensures forall j :: 0 <= j < |trace| - 1 ==> 0.0 <= Segments(trace, dist)[j]
  {
  }

  /** The normalised chord-length parameter: the cumulative sum of the
      segments, padded with a leading 0, divided by the total. */
  function Knots(segs: seq<real>): (xs: seq<real>)
    requires Sum(segs) != 0.0
    ensures |xs| == |segs| + 1
  {
    seq(|segs| + 1, i requires 0 <= i <= |segs| => SumTo(segs, i) / Sum(segs))
  }

  /** Nonnegative segments, the first of them positive. */
  ghost predicate Chords(segs: seq<real>)
  {
    |segs| >= 1 && segs[0] > 0.0 && forall j :: 0 <= j < |segs| ==> 0.0 <= segs[j]
  }

  lemma DivSelf(t: real)
    requires t > 0.0
    ensures 0.0 / t == 0.0 && t / t == 1.0
  {
  }

  lemma DivStrict(a: real, b: real, t: real)
    requires a < b && t > 0.0
    ensures a / t < b / t
  {
    var p, q := a / t, b / t;
    assert p * t == a && q * t == b;
  }

  /** The total of the chords is positive; the knots start at 0 and end at 1. */
  lemma KnotsEnds(segs: seq<real>)
    requires Chords(segs)
    ensures Sum(segs) > 0.0
    ensures Knots(segs)[0] == 0.0 && Knots(segs)[|segs|] == 1.0
  {
    SumMonotone(segs, 1, |segs|);
    DivSelf(Sum(segs));
  }

  lemma KnotsSorted(segs: seq<real>)
    requires Chords(segs)
    ensures Sum(segs) > 0.0 && Sorted(Knots(segs))
  {
    KnotsEnds(segs);
    var t := Sum(segs);
    var xs := Knots(segs);
    forall i, j | 0 <= i <= j < |xs| ensures xs[i] <= xs[j] {
      SumMonotone(segs, i, j);
      DivMonotone(SumTo(segs, i), SumTo(segs, j), t);
    }
  }

  /** The knots rise strictly across exactly the chords of positive length. */
  lemma KnotStep(segs: seq<real>, j: nat)
    requires Chords(segs) && j < |segs|
    ensures Sum(segs) > 0.0 && (Knots(segs)[j] < Knots(segs)[j + 1] <==> segs[j] > 0.0)
  {
    KnotsEnds(segs);
    var t := Sum(segs);
    var a, b := SumTo(segs, j), SumTo(segs, j + 1);
    assert Knots(segs)[j] == a / t && Knots(segs)[j + 1] == b / t;
    if segs[j] > 0.0 {
      DivStrict(a, b, t);
    } else {
      assert a == b;
    }
  }

  /** The knots of a trace can be interpolated at every sample in [0, 1]. */
  lemma KnotsEvaluable(segs: seq<real>)
    requires Chords(segs)
    ensures Sum(segs) > 0.0
    ensures forall s :: 0.0 <= s <= 1.0 ==> Evaluable(Knots(segs), s)
  {
    KnotsEnds(segs);
    KnotsSorted(segs);
    KnotStep(segs, 0);
  }

  /** One resampled trace and the total length of the original trace. */
  datatype Resampled = Resampled(points: seq<Point>, total: real)

  /** The rows of the coordinate array of a trace. */
  function Coords(trace: seq<Point>): (ys: seq<seq<real>>)
    ensures |ys| == |trace|
    ensures forall i :: 0 <= i < |trace| ==> ys[i] == AsVector(trace[i])
  {
    seq(|trace|, i requires 0 <= i < |trace| => AsVector(trace[i]))
  }

  /** interpolate_this_trace: npts points evenly spaced in the chord-length
      parameter, by linear interpolation, and the total chord length. The
      code needs two points to interpolate; a trace whose first segment has
      zero length gives NaN there and is excluded. */
  function InterpolateTrace(trace: seq<Point>, dist: (Point, Point) -> real, npts: nat): (r: Result<Resampled>)
    requires IsDistance(dist)
    requires |trace| >= 2 ==> trace[0] != trace[1]
    ensures r.Err? <==> |trace| < 2
    ensures r.Err? ==> r.error == TooFewShells
    ensures r.Ok? ==> |r.value.points| == npts && r.value.total > 0.0
  {
    InterpolateTraceAt(trace, dist, npts, 1)
  }

  /** The interpolation. Every stage gives the same result; a positive stage
      keeps the resampling out of proofs that go through InterpolateOk. */
  function InterpolateTraceAt(trace: seq<Point>, dist: (Point, Point) -> real, npts: nat, stage: nat): (r: Result<Resampled>)
    requires IsDistance(dist)
    requires |trace| >= 2 ==> trace[0] != trace[1]
    ensures r.Err? <==> |trace| < 2
    ensures r.Err? ==> r.error == TooFewShells
    ensures r.Ok? ==> |r.value.points| == npts && r.value.total > 0.0
    decreases trace, stage
  {
    if stage > 0 then InterpolateTraceAt(trace, dist, npts, stage - 1)
    else if |trace| < 2 then Err(TooFewShells)
    else Ok(Resampled(ResamplePoints(trace, dist, npts), ChordLength(trace, dist)))
  }

  /** What a trace of at least two points resamples to. */
  lemma InterpolateOk(trace: seq<Point>, dist: (Point, Point) -> real, npts: nat)
    requires IsDistance(dist) && |trace| >= 2 && trace[0] != trace[1]
    ensures InterpolateTrace(trace, dist, npts) ==
      Ok(Resampled(ResamplePoints(trace, dist, npts), ChordLength(trace, dist)))
  {
    assert InterpolateTrace(trace, dist, npts) == InterpolateTraceAt(trace, dist, npts, 0);
  }

  /** The total chord length of a trace, the last entry of the cumulative sum. */
  function ChordLength(trace: seq<Point>, dist: (Point, Point) -> real): (total: real)
    requires IsDistance(dist) && |trace| >= 2 && trace[0] != trace[1]
    ensures total > 0.0
  {
    SegmentsFacts(trace, dist);
    KnotsEnds(Segments(trace, dist));
    Sum(Segments(trace, dist))
  }

  /** Sample k of a resampled trace: the interpolant of the trace
      coordinates over the chord-length knots, at linspace(0, 1, npts)[k].
      Every stage gives the same point; a positive stage only keeps the
      arithmetic of the sample out of proofs that do not look at it. */
  function SamplePoint(trace: seq<Point>, dist: (Point, Point) -> real, npts: nat, k: nat, stage: nat): Point
    requires IsDistance(dist) && |trace| >= 2 && trace[0] != trace[1] && k < npts
    decreases stage
  {
    if stage > 0 then SamplePoint(trace, dist, npts, k, stage - 1)
    else
      var segs := Segments(trace, dist);
      SegmentsFacts(trace, dist);
      KnotsEvaluable(segs);
      AsPoint(Interp(Knots(segs), Coords(trace), 3, Linspace01(npts)[k]))
  }

  /** The resampled points, in the order of linspace(0, 1, npts). */
  function ResamplePoints(trace: seq<Point>, dist: (Point, Point) -> real, npts: nat): (pts: seq<Point>)
    requires IsDistance(dist) && |trace| >= 2 && trace[0] != trace[1]
    ensures |pts| == npts
  {
    seq(npts, k requires 0 <= k < npts => SamplePoint(trace, dist, npts, k, 1))
  }

  /** The facts the interpolation at sample k rests on. */
  lemma InterpolateUnfold(trace: seq<Point>, dist: (Point, Point) -> real, npts: nat, k: nat)
    requires IsDistance(dist) && |trace| >= 2 && trace[0] != trace[1] && k < npts
    ensures Chords(Segments(trace, dist))
    ensures Sum(Segments(trace, dist)) > 0.0
    ensures Evaluable(Knots(Segments(trace, dist)), Linspace01(npts)[k])
  {
    SegmentsFacts(trace, dist);
    KnotsEvaluable(Segments(trace, dist));
  }

  /** The index of the last chord of positive length. */
  function LastPositive(segs: seq<real>): (j: nat)
    requires |segs| >= 1 && segs[0] > 0.0
    ensures j < |segs| && segs[j] > 0.0
    ensures forall m :: j < m < |segs| ==> segs[m] <= 0.0
  {
    if segs[|segs| - 1] > 0.0 then |segs| - 1 else LastPositive(segs[..|segs| - 1])
  }

  /** Zero terms leave the running sum unchanged. */
  lemma {:induction false} SumFlat(xs: seq<real>, i: nat, j: nat)
    requires i <= j <= |xs|
    requires forall m :: i <= m < j ==> xs[m] == 0.0
    ensures SumTo(xs, i) == SumTo(xs, j)
    decreases j - i
  {
    if i < j {
      SumFlat(xs, i, j - 1);
    }
  }

  /** Chords of zero length join equal points. */
  lemma {:induction false} PointsFlat(trace: seq<Point>, dist: (Point, Point) -> real, i: nat, j: nat)
    requires IsDistance(dist) && i <= j < |trace|
    requires forall m :: i <= m < j ==> Segments(trace, dist)[m] == 0.0
    ensures trace[i] == trace[j]
    decreases j - i
  {
    if i < j {
      PointsFlat(trace, dist, i, j - 1);
      assert dist(trace[j - 1], trace[j]) == Segments(trace, dist)[j - 1];
    }
  }

  /** The resampled trace starts at the first point of the trace. */
  lemma InterpolateFirst(trace: seq<Point>, dist: (Point, Point) -> real, npts: nat)
    requires IsDistance(dist) && |trace| >= 2 && trace[0] != trace[1] && npts >= 1
    ensures ResamplePoints(trace, dist, npts)[0] == trace[0]
  {
    var segs := Segments(trace, dist);
    assert ResamplePoints(trace, dist, npts)[0] == SamplePoint(trace, dist, npts, 0, 0);
    InterpolateUnfold(trace, dist, npts, 0);
    KnotsEnds(segs);
    InterpAtKnot(Knots(segs), Coords(trace), 3, 0);
  }

  /** The knot that ends the last chord of positive length is already 1. */
  lemma LastKnot(segs: seq<real>)
    requires Chords(segs)
    ensures Sum(segs) > 0.0
    ensures Knots(segs)[LastPositive(segs) + 1] == 1.0
    ensures Knots(segs)[LastPositive(segs)] < Knots(segs)[LastPositive(segs) + 1]
  {
    var j := LastPositive(segs);
    KnotsEnds(segs);
    SumFlat(segs, j + 1, |segs|);
    KnotsFlat(segs, j + 1, |segs|);
    KnotStep(segs, j);
  }

  /** Knots over equal running sums are equal. */
  lemma KnotsFlat(segs: seq<real>, i: nat, j: nat)
    requires Sum(segs) != 0.0 && i <= j <= |segs| && SumTo(segs, i) == SumTo(segs, j)
    ensures Knots(segs)[i] == Knots(segs)[j]
  {
  }

  /** Every point after the last chord of positive length is the last point. */
  lemma LastPoint(trace: seq<Point>, dist: (Point, Point) -> real)
    requires IsDistance(dist) && |trace| >= 2 && trace[0] != trace[1]
    ensures Chords(Segments(trace, dist))
    ensures trace[LastPositive(Segments(trace, dist)) + 1] == trace[|trace| - 1]
  {
    var segs := Segments(trace, dist);
    SegmentsFacts(trace, dist);
    PointsFlat(trace, dist, LastPositive(segs) + 1, |segs|);
  }

  /** With at least two samples the resampled trace ends at the last point
      of the trace, also when trailing chords have zero length. */
  lemma InterpolateLast(trace: seq<Point>, dist: (Point, Point) -> real, npts: nat)
    requires IsDistance(dist) && |trace| >= 2 && trace[0] != trace[1] && npts >= 2
    ensures ResamplePoints(trace, dist, npts)[npts - 1] == trace[|trace| - 1]
  {
    assert ResamplePoints(trace, dist, npts)[npts - 1] == SamplePoint(trace, dist, npts, npts - 1, 0);
    LastSample(trace, dist, npts);
  }

  /** The last sample is the interpolant at the knot that ends the last
      chord of positive length, which is the last point of the trace. */
  lemma LastSample(trace: seq<Point>, dist: (Point, Point) -> real, npts: nat)
    requires IsDistance(dist) && |trace| >= 2 && trace[0] != trace[1] && npts >= 2
    ensures SamplePoint(trace, dist, npts, npts - 1, 0) == trace[|trace| - 1]
  {
    var segs := Segments(trace, dist);
    SegmentsFacts(trace, dist);
    var j := LastPositive(segs) + 1;
    LastKnot(segs);
    LastPoint(trace, dist);
    SampleAtKnot(trace, dist, npts, npts - 1, j);
  }

  /** A sample that falls on a knot ending a chord of positive length is
      the trace point at that knot. */
  lemma SampleAtKnot(trace: seq<Point>, dist: (Point, Point) -> real, npts: nat, k: nat, j: nat)
    requires IsDistance(dist) && |trace| >= 2 && trace[0] != trace[1] && k < npts
    requires 0 < j < |trace|
    requires Sum(Segments(trace, dist)) != 0.0
    requires Knots(Segments(trace, dist))[j] == Linspace01(npts)[k]
    requires Knots(Segments(trace, dist))[j - 1] < Knots(Segments(trace, dist))[j]
    ensures SamplePoint(trace, dist, npts, k, 0) == trace[j]
  {
    var segs := Segments(trace, dist);
    InterpolateUnfold(trace, dist, npts, k);
    KnotsSorted(segs);
    InterpAtKnot(Knots(segs), Coords(trace), 3, j);
  }

  /** The total length get_traces_ reports for a trace is the last running
      length get_traces records for it, less the first step from the origin. */
  lemma TotalMatchesRunning(trace: seq<Point>, dist: (Point, Point) -> real)
    requires IsDistance(dist) && |trace| >= 2 && trace[0] != trace[1]
    ensures ChordLength(trace, dist) ==
      Running(trace, dist)[|trace| - 1] - dist(Origin, trace[0])
  {
    var segs := Segments(trace, dist);
    var st := Steps(trace, dist);
    var k := 0;
    while k < |segs|
      invariant 0 <= k <= |segs|
      invariant SumTo(st, k + 1) == st[0] + SumTo(segs, k)
    {
      k := k + 1;
    }
  }

  /** Every trace can be resampled: at least two meshes, and the first two
      differ at every point index. */
  predicate Separated(meshes: seq<seq<Point>>, n: nat)
  {
    |meshes| >= 2 && Covers(meshes, n) && forall i :: 0 <= i < n ==> meshes[0][i] != meshes[1][i]
  }

  /** rs holds the resamplings of the first |rs| traces, in order. */
  ghost predicate ResampledFrom(rs: seq<Resampled>, meshes: seq<seq<Point>>, dist: (Point, Point) -> real, t: nat)
  {
    && IsDistance(dist)
    && Separated(meshes, |rs|)
    && forall i :: 0 <= i < |rs| ==> rs[i] == InterpolateTrace(Column(meshes, i), dist, t).value
  }

  /** Appending the resampling of the next trace keeps rs in step with the meshes. */
  lemma ResampledGrow(rs: seq<Resampled>, r: Resampled, meshes: seq<seq<Point>>, dist: (Point, Point) -> real, t: nat)
    requires ResampledFrom(rs, meshes, dist, t) && Separated(meshes, |rs| + 1)
    requires r == InterpolateTrace(Column(meshes, |rs|), dist, t).value
    ensures ResampledFrom(rs + [r], meshes, dist, t)
  {
    forall i | 0 <= i < |rs| + 1
      ensures (rs + [r])[i] == InterpolateTrace(Column(meshes, i), dist, t).value
    {
      if i < |rs| {
        assert (rs + [r])[i] == rs[i];
      } else {
        assert (rs + [r])[i] == r;
      }
    }
  }

  /** Every resampled trace holds t points. */
  predicate Uniform(rs: seq<Resampled>, t: nat)
  {
    forall i :: 0 <= i < |rs| ==> |rs[i].points| == t
  }

  function SampleBlocks(rs: seq<Resampled>): (bs: seq<seq<Point>>)
    ensures |bs| == |rs|
    ensures forall i :: 0 <= i < |rs| ==> bs[i] == rs[i].points
  {
    seq(|rs|, i requires 0 <= i < |rs| => rs[i].points)
  }

  function TotalBlocks(rs: seq<Resampled>, t: nat): (bs: seq<seq<real>>)
    ensures |bs| == |rs|
    ensures forall i :: 0 <= i < |rs| ==> bs[i] == Repeat(rs[i].total, t)
  {
    seq(|rs|, i requires 0 <= i < |rs| => Repeat(rs[i].total, t))
  }

  /** The points of get_traces_: the resampled traces one after the other. */
  function SampledPoints(rs: seq<Resampled>, t: nat): (pts: seq<Point>)
    requires Uniform(rs, t)
    ensures |pts| == |rs| * t
  {
    ConcatLength(SampleBlocks(rs), t);
    Concat(SampleBlocks(rs))
  }

  /** The 'length' array of get_traces_: the total length of its trace at every point. */
  function SampledLengths(rs: seq<Resampled>, t: nat): (vals: seq<real>)
    ensures |vals| == |rs| * t
  {
    ConcatLength(TotalBlocks(rs, t), t);
    Concat(TotalBlocks(rs, t))
  }

  lemma SampledPointsGrow(rs: seq<Resampled>, r: Resampled, t: nat)
    requires Uniform(rs, t) && |r.points| == t
    ensures SampledPoints(rs + [r], t) == SampledPoints(rs, t) + r.points
  {
    assert SampleBlocks(rs + [r]) == SampleBlocks(rs) + [r.points];
    ConcatSnoc(SampleBlocks(rs), r.points);
  }

  lemma SampledLengthsGrow(rs: seq<Resampled>, r: Resampled, t: nat)
    ensures SampledLengths(rs + [r], t) == SampledLengths(rs, t) + Repeat(r.total, t)
  {
    assert TotalBlocks(rs + [r], t) == TotalBlocks(rs, t) + [Repeat(r.total, t)];
    ConcatSnoc(TotalBlocks(rs, t), Repeat(r.total, t));
  }

  /** One more resampled trace extends the laid-out points, lengths and
      lines by its own block, and keeps the traces in step with the meshes. */
  lemma TraceAppended(rs: seq<Resampled>, r: Resampled, meshes: seq<seq<Point>>, dist: (Point, Point) -> real, t: nat)
    requires Uniform(rs, t) && |r.points| == t
    requires |meshes| >= 2 ==> ResampledFrom(rs, meshes, dist, t) && Separated(meshes, |rs| + 1)
    requires |meshes| >= 2 ==> r == InterpolateTrace(Column(meshes, |rs|), dist, t).value
    ensures Uniform(rs + [r], t)
    ensures SampledPoints(rs + [r], t) == SampledPoints(rs, t) + r.points
    ensures SampledLengths(rs + [r], t) == SampledLengths(rs, t) + Repeat(r.total, t)
    ensures Lines(t, |rs| + 1) == Lines(t, |rs|) + [LineIds(|rs| * t, t)]
    ensures |meshes| >= 2 ==> ResampledFrom(rs + [r], meshes, dist, t)
  {
    SampledPointsGrow(rs, r, t);
    SampledLengthsGrow(rs, r, t);
    LinesGrow(t, |rs|);
    if |meshes| >= 2 {
      ResampledGrow(rs, r, meshes, dist, t);
    }
  }

  /** The loop over one resampled trace in get_traces_: every sample is
      inserted, joins the line and carries the total length of the trace. */
  method AppendSamples(pts: seq<Point>, lengths: seq<real>, samples: seq<Point>, total: real)
    returns (outPts: seq<Point>, cell: seq<nat>, outLengths: seq<real>)
    ensures outPts == pts + samples
    ensures cell == LineIds(|pts|, |samples|)
    ensures outLengths == lengths + Repeat(total, |samples|)
  {
    outPts, cell, outLengths := pts, [], lengths;
    var t := 0;
    while t < |samples|
      invariant 0 <= t <= |samples|
      invariant outPts == pts + samples[..t]
      invariant cell == LineIds(|pts|, t)
      invariant outLengths == lengths + Repeat(total, t)
    {
      var pid := |outPts|;
      outPts := outPts + [samples[t]];
      cell := cell + [pid];
      outLengths := outLengths + [total];
      assert samples[..t + 1] == samples[..t] + [samples[t]];
      t := t + 1;
    }
    assert samples[..t] == samples;
  }

  /** One round of the loop of get_traces_: trace i is gathered, resampled
      and, when that succeeds, its samples are appended as one line. */
  method ResampleNext(meshes: seq<seq<Point>>, dist: (Point, Point) -> real, samples: nat, i: nat,
                      pts: seq<Point>, lengths: seq<real>)
    returns (r: Result<Resampled>, outPts: seq<Point>, cell: seq<nat>, outLengths: seq<real>)
    requires IsDistance(dist) && Covers(meshes, i + 1)
    requires |meshes| >= 2 ==> meshes[0][i] != meshes[1][i]
    ensures r == InterpolateTrace(Column(meshes, i), dist, samples)
    ensures r.Ok? ==> outPts == pts + r.value.points && outLengths == lengths + Repeat(r.value.total, samples)
    ensures r.Ok? ==> cell == LineIds(|pts|, samples)
  {
    var trace := GatherTrace(meshes, i);
    r := InterpolateTrace(trace, dist, samples);
    if r.Err? {
      return r, pts, [], lengths;
    }
    outPts, cell, outLengths := AppendSamples(pts, lengths, r.value.points, r.value.total);
  }

  /** The loop of get_traces_ over the traces: trace i is gathered from the
      meshes, resampled and appended as one line. Fails when a trace cannot
      be interpolated, which happens exactly when there is a single mesh. */
  method ResampleAll(meshes: seq<seq<Point>>, dist: (Point, Point) -> real, samples: nat)
    returns (ok: bool, pts: seq<Point>, cells: seq<seq<nat>>, lengths: seq<real>, ghost traced: seq<Resampled>)
    requires IsDistance(dist) && |meshes| > 0 && Covers(meshes, |meshes[0]|)
    requires |meshes| >= 2 ==> Separated(meshes, |meshes[0]|)
    ensures ok <==> |meshes| >= 2 || |meshes[0]| == 0
    ensures ok ==> |traced| == |meshes[0]| && Uniform(traced, samples)
    ensures ok && |meshes| >= 2 ==> ResampledFrom(traced, meshes, dist, samples)
    ensures ok ==>
      && pts == SampledPoints(traced, samples)
      && lengths == SampledLengths(traced, samples)
      && cells == Lines(samples, |meshes[0]|)
  {
    traced := [];
    var npts := |meshes[0]|;
    pts, cells, lengths := [], [], [];
    var i := 0;
    while i < npts
      invariant 0 <= i <= npts
      invariant |meshes| >= 2 || i == 0
      invariant |traced| == i && Uniform(traced, samples)
      invariant |meshes| >= 2 ==> ResampledFrom(traced, meshes, dist, samples)
      invariant pts == SampledPoints(traced, samples)
      invariant lengths == SampledLengths(traced, samples)
      invariant cells == Lines(samples, i)
    {
      var r, nextPts, cell, nextLengths := ResampleNext(meshes, dist, samples, i, pts, lengths);
      if r.Err? {
        return false, pts, cells, lengths, traced;
      }
      TraceAppended(traced, r.value, meshes, dist, samples);
      pts, lengths := nextPts, nextLengths;
      traced := traced + [r.value];
      cells := cells + [cell];
      i := i + 1;
    }
    ok := true;
  }

  /** get_traces_. Every trace is resampled to `samples` points, which form
      one line and carry the total length of the trace as 'length'. Fails on
      an empty mesh list, on a single mesh with points (interp1d needs two
      knots), and with the error of prob_image. The ghost result lists the
      resampled traces the points and lengths are laid out from. */
  method ResampledTraces(meshes: seq<seq<Point>>, dist: (Point, Point) -> real, samples: nat, images: Option<seq<Probe>>)
    returns (res: Result<PolyData>, ghost traced: seq<Resampled>)
    requires IsDistance(dist)
    requires |meshes| > 0 ==> Covers(meshes, |meshes[0]|)
    requires |meshes| >= 2 ==> Separated(meshes, |meshes[0]|)
    requires images.Some? ==> forall k :: 0 <= k < |images.value| ==> Regular(images.value[k].img)
    ensures |meshes| == 0 ==> res == Err(NoMeshes)
    ensures |meshes| == 1 && |meshes[0]| > 0 ==> res == Err(TooFewShells)
    ensures |meshes| >= 2 && !ProbesPass(images) ==> res == Err(EmptyImage)
    ensures res.Ok? <==> ProbesPass(images) && (|meshes| >= 2 || (|meshes| == 1 && |meshes[0]| == 0))
    ensures res.Ok? ==> fresh(res.value)
    ensures res.Ok? ==> |traced| == |meshes[0]| && Uniform(traced, samples)
    ensures res.Ok? && |meshes| >= 2 ==> ResampledFrom(traced, meshes, dist, samples)
    ensures res.Ok? ==>
      && res.value.points == SampledPoints(traced, samples)
      && res.value.lines == Lines(samples, |meshes[0]|)
      && res.value.arrays == WithProbes(SampledPoints(traced, samples), map["length" := SampledLengths(traced, samples)], images)
  {
    traced := [];
    if |meshes| == 0 {
      return Err(NoMeshes), traced;
    }
    var ok, pts, cells, lengths;
    ok, pts, cells, lengths, traced := ResampleAll(meshes, dist, samples);
    if !ok {
      return Err(TooFewShells), traced;
    }
    var mesh := new PolyData(pts, cells);
    mesh.arrays := mesh.arrays["length" := lengths];
    if images.Some? {
      var out := ProbeImages(mesh, images.value);
      if out.Fail? {
        return Err(EmptyImage), traced;
      }
    }
    return Ok(mesh), traced;
  }

  /** Where the samples of get_traces_ sit: sample k of trace i is stored at
      i * T + k (T the number of samples) and joins line i there. */
  lemma SampledIndex(rs: seq<Resampled>, t: nat, i: nat, k: nat)
    requires Uniform(rs, t) && i < |rs| && k < t
    ensures i * t + k < |rs| * t
    ensures Lines(t, |rs|)[i][k] == i * t + k
    ensures SampledPoints(rs, t)[i * t + k] == rs[i].points[k]
  {
    ConcatIndex(SampleBlocks(rs), t, i, k);
  }

  /** Every sample of trace i carries the total length of trace i. */
  lemma SampledTotal(rs: seq<Resampled>, t: nat, i: nat, k: nat)
    requires i < |rs| && k < t
    ensures i * t + k < |rs| * t
    ensures SampledLengths(rs, t)[i * t + k] == rs[i].total
  {
    ConcatIndex(TotalBlocks(rs, t), t, i, k);
  }

  /** The first sample of every trace of get_traces_ is its point on the
      innermost mesh. */
  lemma SampledFirst(rs: seq<Resampled>, meshes: seq<seq<Point>>, dist: (Point, Point) -> real, samples: nat, i: nat)
    requires ResampledFrom(rs, meshes, dist, samples) && i < |rs| && samples >= 1
    ensures i * samples < |rs| * samples
    ensures SampledPoints(rs, samples)[i * samples] == meshes[0][i]
  {
    SampledIndex(rs, samples, i, 0);
    InterpolateOk(Column(meshes, i), dist, samples);
    InterpolateFirst(Column(meshes, i), dist, samples);
  }

  /** The last sample of every trace of get_traces_ is its point on the
      outermost mesh. */
  lemma SampledLast(rs: seq<Resampled>, meshes: seq<seq<Point>>, dist: (Point, Point) -> real, samples: nat, i: nat)
    requires ResampledFrom(rs, meshes, dist, samples) && i < |rs| && samples >= 2
    ensures i * samples + samples - 1 < |rs| * samples
    ensures SampledPoints(rs, samples)[i * samples + samples - 1] == meshes[|meshes| - 1][i]
  {
    var k := samples - 1;
    SampledIndex(rs, samples, i, k);
    ResampledLast(rs, meshes, dist, samples, i);
    assert i * samples + samples - 1 == i * samples + k;
    assert SampledPoints(rs, samples)[i * samples + k] == rs[i].points[k];
  }

  lemma ResampledLast(rs: seq<Resampled>, meshes: seq<seq<Point>>, dist: (Point, Point) -> real, samples: nat, i: nat)
    requires ResampledFrom(rs, meshes, dist, samples) && i < |rs| && samples >= 2
    ensures rs[i].points[samples - 1] == meshes[|meshes| - 1][i]
  {
    var trace := Column(meshes, i);
    assert rs[i] == InterpolateTrace(trace, dist, samples).value;
    InterpolateOk(trace, dist, samples);
    InterpolateLast(trace, dist, samples);
    assert trace[|trace| - 1] == meshes[|meshes| - 1][i];
  }

  /** The length every sample of trace i carries in get_traces_ is the last
      running length get_traces gives the same trace, less the first step
      from the origin. */
  lemma SampledLength(rs: seq<Resampled>, meshes: seq<seq<Point>>, dist: (Point, Point) -> real, samples: nat, i: nat, k: nat)
    requires ResampledFrom(rs, meshes, dist, samples) && i < |rs| && k < samples
    ensures i * samples + k < |rs| * samples
    ensures SampledLengths(rs, samples)[i * samples + k] ==
      Running(Column(meshes, i), dist)[|meshes| - 1] - dist(Origin, meshes[0][i])
  {
    ResampledTotal(rs, meshes, dist, samples, i);
    var trace := Column(meshes, i);
    SampledRunning(rs, samples, i, k, trace, dist);
    assert |trace| - 1 == |meshes| - 1 && trace[0] == meshes[0][i];
  }

  /** The sampled length of trace i, for a trace whose chord length rs[i]
      carries. */
  lemma SampledRunning(rs: seq<Resampled>, t: nat, i: nat, k: nat, trace: seq<Point>, dist: (Point, Point) -> real)
    requires i < |rs| && k < t
    requires IsDistance(dist) && |trace| >= 2 && trace[0] != trace[1]
    requires rs[i].total == ChordLength(trace, dist)
    ensures i * t + k < |rs| * t
    ensures SampledLengths(rs, t)[i * t + k] == Running(trace, dist)[|trace| - 1] - dist(Origin, trace[0])
  {
    SampledTotal(rs, t, i, k);
    TotalMatchesRunning(trace, dist);
  }

  lemma ResampledTotal(rs: seq<Resampled>, meshes: seq<seq<Point>>, dist: (Point, Point) -> real, samples: nat, i: nat)
    requires ResampledFrom(rs, meshes, dist, samples) && i < |rs|
    ensures rs[i].total == ChordLength(Column(meshes, i), dist)
  {
    assert rs[i] == InterpolateTrace(Column(meshes, i), dist, samples).value;
    InterpolateOk(Column(meshes, i), dist, samples);
  }

}
