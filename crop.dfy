/** The bounding-box crop applied to a membrane and a DNA segmentation
    before the heat relaxation: the box is spanned by the nonzero voxels of
    the membrane image, and both images are sliced to it. */
module Cropper {
  import opened Common

  /** Offsets of the crop, in the order the code returns them. Each upper
      bound is the largest nonzero coordinate itself, and is used as an
      exclusive slice end. */
  datatype Roi = Roi(zmin: int, zmax: int, ymin: int, ymax: int, xmin: int, xmax: int)

  /** A voxel of v that holds a nonzero value. */
  predicate IsHit(v: Vol<int>, p: Voxel)
  {
    0 <= p.z < |v| && 0 <= p.y < |v[p.z]| && 0 <= p.x < |v[p.z][p.y]| && v[p.z][p.y][p.x] != 0
  }

  /** Nonzero positions of a row from column x on, in increasing order. */
  function RowHits(row: seq<int>, z: int, y: int, x: nat): (hs: seq<Voxel>)
    requires x <= |row|
    decreases |row| - x
  {
    if x == |row| then []
    else (if row[x] != 0 then [Voxel(z, y, x)] else []) + RowHits(row, z, y, x + 1)
  }

  lemma {:induction false} RowHitsSpec(row: seq<int>, z: int, y: int, x: nat, p: Voxel)
    requires x <= |row|
    ensures p in RowHits(row, z, y, x) <==> p.z == z && p.y == y && x <= p.x < |row| && row[p.x] != 0
    decreases |row| - x
  {
    if x < |row| {
      var head := if row[x] != 0 then [Voxel(z, y, x)] else [];
      assert RowHits(row, z, y, x) == head + RowHits(row, z, y, x + 1);
      assert p in head <==> p == Voxel(z, y, x) && row[x] != 0;
      RowHitsSpec(row, z, y, x + 1, p);
    }
  }

  /** Nonzero positions of a plane from row y on, in C order. */
  function PlaneHits(plane: seq<seq<int>>, z: int, y: nat): (hs: seq<Voxel>)
    requires y <= |plane|
    decreases |plane| - y
  {
    if y == |plane| then []
    else RowHits(plane[y], z, y, 0) + PlaneHits(plane, z, y + 1)
  }

  lemma {:induction false} PlaneHitsSpec(plane: seq<seq<int>>, z: int, y: nat, p: Voxel)
    requires y <= |plane|
    ensures p in PlaneHits(plane, z, y) <==>
      p.z == z && y <= p.y < |plane| && 0 <= p.x < |plane[p.y]| && plane[p.y][p.x] != 0
    decreases |plane| - y
  {
    if y < |plane| {
      assert PlaneHits(plane, z, y) == RowHits(plane[y], z, y, 0) + PlaneHits(plane, z, y + 1);
      RowHitsSpec(plane[y], z, y, 0, p);
      PlaneHitsSpec(plane, z, y + 1, p);
    }
  }

  /** Nonzero positions of a volume from plane z on, in the C order of
      numpy.where. */
  function VolHits(v: Vol<int>, z: nat): (hs: seq<Voxel>)
    requires z <= |v|
    decreases |v| - z
  {
    if z == |v| then []
    else PlaneHits(v[z], z, 0) + VolHits(v, z + 1)
  }

  lemma {:induction false} VolHitsSpec(v: Vol<int>, z: nat, p: Voxel)
    requires z <= |v|
    ensures p in VolHits(v, z) <==> z <= p.z && IsHit(v, p)
    decreases |v| - z
  {
    if z < |v| {
      PlaneHitsSpec(v[z], z, 0, p);
      VolHitsSpec(v, z + 1, p);
    }
  }

  /** The nonzero voxels of a volume, in the order numpy.where lists them. */
  function NonZero(v: Vol<int>): (hs: seq<Voxel>)
    ensures forall p :: p in hs <==> IsHit(v, p)
  {
    var hs := VolHits(v, 0);
    assert forall p :: p in hs <==> IsHit(v, p) by {
      forall p ensures p in hs <==> IsHit(v, p) { VolHitsSpec(v, 0, p); }
    }
    hs
  }

  function Zs(hs: seq<Voxel>): seq<int> { seq(|hs|, i requires 0 <= i < |hs| => hs[i].z) }
  function Ys(hs: seq<Voxel>): seq<int> { seq(|hs|, i requires 0 <= i < |hs| => hs[i].y) }
  function Xs(hs: seq<Voxel>): seq<int> { seq(|hs|, i requires 0 <= i < |hs| => hs[i].x) }

  /** The box v[zmin:zmax, ymin:ymax, xmin:xmax]. */
  function Slice(v: Vol<int>, roi: Roi): (c: Vol<int>)
    requires Regular(v)
    requires 0 <= roi.zmin <= roi.zmax <= |v|
    requires 0 <= roi.ymin <= roi.ymax <= ShapeOf(v).ny
    requires 0 <= roi.xmin <= roi.xmax <= ShapeOf(v).nx
    ensures HasShape(c, Shape(roi.zmax - roi.zmin, roi.ymax - roi.ymin, roi.xmax - roi.xmin))
    ensures forall i, j, k :: 0 <= i < roi.zmax - roi.zmin && 0 <= j < roi.ymax - roi.ymin && 0 <= k < roi.xmax - roi.xmin ==>
      c[i][j][k] == v[roi.zmin + i][roi.ymin + j][roi.xmin + k]
  {
    SliceAt(v, roi, 1)
  }

  /** The box. Every stage gives the same volume; a positive stage keeps the
      comprehension out of proofs, which use the ensures. */
  function SliceAt(v: Vol<int>, roi: Roi, stage: nat): (c: Vol<int>)
    requires Regular(v)
    requires 0 <= roi.zmin <= roi.zmax <= |v|
    requires 0 <= roi.ymin <= roi.ymax <= ShapeOf(v).ny
    requires 0 <= roi.xmin <= roi.xmax <= ShapeOf(v).nx
    ensures HasShape(c, Shape(roi.zmax - roi.zmin, roi.ymax - roi.ymin, roi.xmax - roi.xmin))
    ensures forall i, j, k :: 0 <= i < roi.zmax - roi.zmin && 0 <= j < roi.ymax - roi.ymin && 0 <= k < roi.xmax - roi.xmin ==>
      c[i][j][k] == v[roi.zmin + i][roi.ymin + j][roi.xmin + k]
    decreases v, stage
  {
    if stage > 0 then SliceAt(v, roi, stage - 1) else
    seq(roi.zmax - roi.zmin, i requires 0 <= i < roi.zmax - roi.zmin =>
      seq(roi.ymax - roi.ymin, j requires 0 <= j < roi.ymax - roi.ymin =>
        seq(roi.xmax - roi.xmin, k requires 0 <= k < roi.xmax - roi.xmin =>
          v[roi.zmin + i][roi.ymin + j][roi.xmin + k])))
  }

  /** The box spanned by the nonzero voxels: each bound is attained by some
      nonzero voxel and every nonzero voxel lies within the bounds. */
  ghost predicate SpansHits(v: Vol<int>, roi: Roi)
  {
    && (forall p :: IsHit(v, p) ==>
          roi.zmin <= p.z <= roi.zmax && roi.ymin <= p.y <= roi.ymax && roi.xmin <= p.x <= roi.xmax)
    && (exists p :: IsHit(v, p) && p.z == roi.zmin)
    && (exists p :: IsHit(v, p) && p.z == roi.zmax)
    && (exists p :: IsHit(v, p) && p.y == roi.ymin)
    && (exists p :: IsHit(v, p) && p.y == roi.ymax)
    && (exists p :: IsHit(v, p) && p.x == roi.xmin)
    && (exists p :: IsHit(v, p) && p.x == roi.xmax)
  }

  /** The offsets the code computes from numpy.where(mem). */
  function BoundingBox(v: Vol<int>): (roi: Roi)
    requires |NonZero(v)| > 0
    ensures SpansHits(v, roi)
  {
    var hs := NonZero(v);
    var roi := Roi(MinInt(Zs(hs)), MaxInt(Zs(hs)), MinInt(Ys(hs)), MaxInt(Ys(hs)), MinInt(Xs(hs)), MaxInt(Xs(hs)));
    forall p | IsHit(v, p)
      ensures roi.zmin <= p.z <= roi.zmax && roi.ymin <= p.y <= roi.ymax && roi.xmin <= p.x <= roi.xmax
    {
      HitWithin(hs, p);
    }
    BoundsAttained(hs);
    roi
  }

  /** Every listed voxel lies between the least and greatest listed coordinates. */
  lemma HitWithin(hs: seq<Voxel>, p: Voxel)
    requires p in hs
    ensures MinInt(Zs(hs)) <= p.z <= MaxInt(Zs(hs))
    ensures MinInt(Ys(hs)) <= p.y <= MaxInt(Ys(hs))
    ensures MinInt(Xs(hs)) <= p.x <= MaxInt(Xs(hs))
  {
    var i :| 0 <= i < |hs| && hs[i] == p;
    assert Zs(hs)[i] == p.z && Ys(hs)[i] == p.y && Xs(hs)[i] == p.x;
  }

  /** The least and greatest listed coordinates belong to listed voxels. */
  lemma BoundsAttained(hs: seq<Voxel>)
    requires |hs| > 0
    ensures exists p :: p in hs && p.z == MinInt(Zs(hs))
    ensures exists p :: p in hs && p.z == MaxInt(Zs(hs))
    ensures exists p :: p in hs && p.y == MinInt(Ys(hs))
    ensures exists p :: p in hs && p.y == MaxInt(Ys(hs))
    ensures exists p :: p in hs && p.x == MinInt(Xs(hs))
    ensures exists p :: p in hs && p.x == MaxInt(Xs(hs))
  {
    WitnessOf(hs, Zs(hs), MinInt(Zs(hs)), 0);
    WitnessOf(hs, Zs(hs), MaxInt(Zs(hs)), 0);
    WitnessOf(hs, Ys(hs), MinInt(Ys(hs)), 1);
    WitnessOf(hs, Ys(hs), MaxInt(Ys(hs)), 1);
    WitnessOf(hs, Xs(hs), MinInt(Xs(hs)), 2);
    WitnessOf(hs, Xs(hs), MaxInt(Xs(hs)), 2);
  }

  function Coord(p: Voxel, axis: nat): int
  {
    if axis == 0 then p.z else if axis == 1 then p.y else p.x
  }

  /** A value taken from one coordinate of a list of voxels belongs to one of them. */
  lemma WitnessOf(hs: seq<Voxel>, cs: seq<int>, c: int, axis: nat)
    requires |cs| == |hs| && forall i :: 0 <= i < |hs| ==> cs[i] == Coord(hs[i], axis)
    requires c in cs
    ensures exists i :: 0 <= i < |hs| && Coord(hs[i], axis) == c
  {
    var i :| 0 <= i < |cs| && cs[i] == c;
    assert Coord(hs[i], axis) == c;
  }

  /** What get_croppped_version returns: both cropped images and the offsets. */
  datatype Cropped = Cropped(mem: Vol<int>, dna: Vol<int>, roi: Roi)

  /** Offsets whose lower and upper bounds are valid indices of a volume of shape s. */
  predicate Inside(roi: Roi, s: Shape)
  {
    && 0 <= roi.zmin <= roi.zmax < s.nz
    && 0 <= roi.ymin <= roi.ymax < s.ny
    && 0 <= roi.xmin <= roi.xmax < s.nx
  }

  /** The result of slicing mem and dna with the offsets of roi. */
  ghost predicate IsCropOf(c: Cropped, mem: Vol<int>, dna: Vol<int>)
  {
    var roi := c.roi;
    && Regular(mem) && HasShape(dna, ShapeOf(mem)) && Inside(roi, ShapeOf(mem))
    && HasShape(c.mem, Shape(roi.zmax - roi.zmin, roi.ymax - roi.ymin, roi.xmax - roi.xmin))
    && HasShape(c.dna, Shape(roi.zmax - roi.zmin, roi.ymax - roi.ymin, roi.xmax - roi.xmin))
    && (forall i, j, k :: 0 <= i < roi.zmax - roi.zmin && 0 <= j < roi.ymax - roi.ymin && 0 <= k < roi.xmax - roi.xmin ==>
          c.mem[i][j][k] == mem[roi.zmin + i][roi.ymin + j][roi.xmin + k] &&
          c.dna[i][j][k] == dna[roi.zmin + i][roi.ymin + j][roi.xmin + k])
  }

  lemma SliceIsCrop(mem: Vol<int>, dna: Vol<int>, roi: Roi)
    requires Regular(mem) && HasShape(dna, ShapeOf(mem)) && Inside(roi, ShapeOf(mem))
    ensures IsCropOf(Cropped(Slice(mem, roi), Slice(dna, roi), roi), mem, dna)
  {
    var m, d := Slice(mem, roi), Slice(dna, roi);
    assert HasShape(m, Shape(roi.zmax - roi.zmin, roi.ymax - roi.ymin, roi.xmax - roi.xmin));
    assert HasShape(d, Shape(roi.zmax - roi.zmin, roi.ymax - roi.ymin, roi.xmax - roi.xmin));
  }

  /** get_croppped_version: fails on an all-zero membrane image, otherwise
      returns both images sliced with the exclusive upper bounds and the
      offsets, which span the nonzero membrane voxels. */
  function Crop(mem: Vol<int>, dna: Vol<int>): Result<Cropped>
    requires Regular(mem) && HasShape(dna, ShapeOf(mem))
  {
    CropAt(mem, dna, 1)
  }

  /** The crop. Every stage gives the same result; a positive stage only
      keeps the search for the box out of proofs that do not look at it. */
  function CropAt(mem: Vol<int>, dna: Vol<int>, stage: nat): (r: Result<Cropped>)
    requires Regular(mem) && HasShape(dna, ShapeOf(mem))
    ensures r.Err? <==> forall p :: !IsHit(mem, p)
    ensures r.Err? ==> r.error == EmptyMembrane
    ensures r.Ok? ==> SpansHits(mem, r.value.roi)
    ensures r.Ok? ==> Inside(r.value.roi, ShapeOf(mem))
    ensures r.Ok? ==> IsCropOf(r.value, mem, dna)
    decreases mem, stage
  {
    if stage > 0 then CropAt(mem, dna, stage - 1)
    else if |NonZero(mem)| == 0 then
      assert forall p :: p !in NonZero(mem);
      Err(EmptyMembrane)
    else
      var roi := BoundingBox(mem);
      HitsInside(mem, roi);
      assert IsHit(mem, NonZero(mem)[0]);
      SliceIsCrop(mem, dna, roi);
      Ok(Cropped(Slice(mem, roi), Slice(dna, roi), roi))
  }

  /** The spanning box of a regular volume lies inside it. */
  lemma HitsInside(v: Vol<int>, roi: Roi)
    requires Regular(v) && SpansHits(v, roi)
    ensures Inside(roi, ShapeOf(v))
  {
    var p :| IsHit(v, p) && p.z == roi.zmax;
    var q :| IsHit(v, q) && q.y == roi.ymax;
    var o :| IsHit(v, o) && o.x == roi.xmax;
    var a :| IsHit(v, a) && a.z == roi.zmin;
    var b :| IsHit(v, b) && b.y == roi.ymin;
    var c :| IsHit(v, c) && c.x == roi.xmin;
  }
}
