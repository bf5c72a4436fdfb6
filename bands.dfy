/** get_geodesics: crop to the membrane's box, relax the heat equation
    between the Dirichlet sets, take the logarithm of the relaxed field and
    cut it into bands with numpy.digitize, then paste the band image back
    into a full-size volume. The distance transform, the boundary finders,
    the dilation and the centroid rounding are library work; their results
    (an iteration count, three voxel sets and a voxel) are inputs. */
module GeodesicBinner {
  import opened Common
  import opened Cropper
  import opened HeatSolver
  import Interpolation

  /** numpy.digitize(x, edges) for increasing edges (right=False): the
      number of edges at or below x. */
  function Digitize(x: real, edges: seq<real>): (d: nat)
    ensures d <= |edges|
  {
    if |edges| == 0 then 0 else (if edges[0] <= x then 1 else 0) + Digitize(x, edges[1..])
  }

  /** For sorted edges the count is the bin index: edges[..d] are at or
      below x and edges[d..] above it. */
  lemma {:induction false} DigitizeBracket(x: real, edges: seq<real>)
    requires Interpolation.Sorted(edges)
    ensures forall i :: 0 <= i < Digitize(x, edges) ==> edges[i] <= x
    ensures forall i :: Digitize(x, edges) <= i < |edges| ==> x < edges[i]
  {
    if |edges| > 0 {
      DigitizeBracket(x, edges[1..]);
      if edges[0] > x {
        DigitizeNone(x, edges[1..]);
      }
    }
  }

  lemma {:induction false} DigitizeNone(x: real, edges: seq<real>)
    requires forall i :: 0 <= i < |edges| ==> x < edges[i]
    ensures Digitize(x, edges) == 0
  {
    if |edges| > 0 { DigitizeNone(x, edges[1..]); }
  }

  /** A larger value never falls in a lower bin. */
  lemma {:induction false} DigitizeMonotone(a: real, b: real, edges: seq<real>)
    requires a <= b
    ensures Digitize(a, edges) <= Digitize(b, edges)
  {
    if |edges| > 0 { DigitizeMonotone(a, b, edges[1..]); }
  }

  /** (mem > 0) + (dna > 0): 0 outside the cell, 1 in the cytoplasm, 2 in the nucleus. */
  function Mask(mem: Vol<int>, dna: Vol<int>, s: Shape): (m: Vol<int>)
    requires HasShape(mem, s) && HasShape(dna, s)
    ensures HasShape(m, s)
    ensures forall z, y, x :: InBox(z, y, x, s) ==> 0 <= m[z][y][x] <= 2
  {
    seq(s.nz, z requires 0 <= z < s.nz =>
      seq(s.ny, y requires 0 <= y < s.ny =>
        seq(s.nx, x requires 0 <= x < s.nx =>
          (if mem[z][y][x] > 0 then 1 else 0) + (if dna[z][y][x] > 0 then 1 else 0))))
  }

  /** Some voxel of the mask is nucleus. */
  ghost predicate HasNucleus(mask: Vol<int>, s: Shape)
    requires HasShape(mask, s)
  {
    exists z, y, x :: InBox(z, y, x, s) && mask[z][y][x] == 2
  }

  /** omega[mask == 0] = 0 followed by omega[omega > 0] = log(omega[omega > 0]). */
  function LogField(omega: Vol<real>, mask: Vol<int>, s: Shape, ln: real -> real): (f: Vol<real>)
    requires HasShape(omega, s) && HasShape(mask, s)
    ensures HasShape(f, s)
  {
    seq(s.nz, z requires 0 <= z < s.nz =>
      seq(s.ny, y requires 0 <= y < s.ny =>
        seq(s.nx, x requires 0 <= x < s.nx => LogAt(mask[z][y][x], omega[z][y][x], ln))))
  }

  /** One voxel of the log field: 0 outside the cell, the log of a positive
      value, and any other value unchanged. */
  function LogAt(m: int, w: real, ln: real -> real): real
  {
    if m == 0 then 0.0 else if w > 0.0 then ln(w) else w
  }

  /** The band of one voxel: nucleus voxels count from 1, cytoplasm voxels
      from nisos + 1 against the field shifted down by one, and voxels
      outside the cell stay 0. */
  function Band(m: int, w: real, edges: seq<real>): int
  {
    if m == 2 then 1 + Digitize(w, edges)
    else if m == 1 then |edges| + 1 + Digitize(w - 1.0, edges)
    else 0
  }

  /** Band ranges: [1, nisos + 1] in the nucleus, [nisos + 1, 2 nisos + 1]
      in the cytoplasm, 0 outside. */
  lemma BandRange(m: int, w: real, edges: seq<real>)
    ensures m == 2 ==> 1 <= Band(m, w, edges) <= |edges| + 1
    ensures m == 1 ==> |edges| + 1 <= Band(m, w, edges) <= 2 * |edges| + 1
    ensures m != 1 && m != 2 ==> Band(m, w, edges) == 0
  {
  }

  /** Within one region the band never decreases as the field grows. */
  lemma BandMonotone(m: int, a: real, b: real, edges: seq<real>)
    requires a <= b
    ensures Band(m, a, edges) <= Band(m, b, edges)
  {
    DigitizeMonotone(a, b, edges);
    DigitizeMonotone(a - 1.0, b - 1.0, edges);
  }

  /** The geodists image right after the two digitize assignments. */
  function Bands(mask: Vol<int>, field: Vol<real>, s: Shape, edges: seq<real>): (g: Vol<int>)
    requires HasShape(mask, s) && HasShape(field, s)
    ensures HasShape(g, s)
  {
    seq(s.nz, z requires 0 <= z < s.nz =>
      seq(s.ny, y requires 0 <= y < s.ny =>
        seq(s.nx, x requires 0 <= x < s.nx => Band(mask[z][y][x], field[z][y][x], edges))))
  }

  /** g[c] = 1, a no-op when c is outside the volume. */
  function SetOne(g: Vol<int>, s: Shape, c: Voxel): (w: Vol<int>)
    requires HasShape(g, s)
    ensures HasShape(w, s)
  {
    seq(s.nz, z requires 0 <= z < s.nz =>
      seq(s.ny, y requires 0 <= y < s.ny =>
        seq(s.nx, x requires 0 <= x < s.nx => if Voxel(z, y, x) == c then 1 else g[z][y][x])))
  }

  /** astype(np.uint8): values reduced modulo 256. */
  function Wrap(g: Vol<int>, s: Shape): (w: Vol<int>)
    requires HasShape(g, s)
    ensures HasShape(w, s)
    ensures forall z, y, x :: InBox(z, y, x, s) ==> 0 <= w[z][y][x] < 256
  {
    seq(s.nz, z requires 0 <= z < s.nz =>
      seq(s.ny, y requires 0 <= y < s.ny =>
        seq(s.nx, x requires 0 <= x < s.nx => g[z][y][x] % 256)))
  }

  /** a[a == 0] = val. */
  function FillZeros(g: Vol<int>, s: Shape, val: int): (w: Vol<int>)
    requires HasShape(g, s)
    ensures HasShape(w, s)
  {
    seq(s.nz, z requires 0 <= z < s.nz =>
      seq(s.ny, y requires 0 <= y < s.ny =>
        seq(s.nx, x requires 0 <= x < s.nx => if g[z][y][x] == 0 then val else g[z][y][x])))
  }

  /** Inside the box of roi, with the exclusive upper bounds of the slices. */
  predicate InRoi(z: int, y: int, x: int, roi: Roi)
  {
    roi.zmin <= z < roi.zmax && roi.ymin <= y < roi.ymax && roi.xmin <= x < roi.xmax
  }

  function RoiShape(roi: Roi): Shape
    requires roi.zmin <= roi.zmax && roi.ymin <= roi.ymax && roi.xmin <= roi.xmax
  {
    Shape(roi.zmax - roi.zmin, roi.ymax - roi.ymin, roi.xmax - roi.xmin)
  }

  /** A zero volume of shape s with g written into the box of roi. */
  function Paste(s: Shape, roi: Roi, g: Vol<int>): (w: Vol<int>)
    requires Inside(roi, s) && HasShape(g, RoiShape(roi))
    ensures HasShape(w, s)
  {
    seq(s.nz, z requires 0 <= z < s.nz =>
      seq(s.ny, y requires 0 <= y < s.ny =>
        seq(s.nx, x requires 0 <= x < s.nx =>
          if InRoi(z, y, x, roi) then g[z - roi.zmin][y - roi.ymin][x - roi.xmin] else 0)))
  }

  /** The largest value of a volume with at least one element. */
  function MaxOf(g: Vol<int>, s: Shape): (m: int)
    requires HasShape(g, s) && Size(s) > 0
    ensures forall z, y, x :: InBox(z, y, x, s) ==> g[z][y][x] <= m
    ensures exists z, y, x :: InBox(z, y, x, s) && g[z][y][x] == m
  {
    FlattenEmpty(g, s);
    var m := VolMax(g);
    assert forall z, y, x :: InBox(z, y, x, s) ==> g[z][y][x] <= m;
    var z, y, x :| 0 <= z < |g| && 0 <= y < |g[z]| && 0 <= x < |g[z][y]| && g[z][y][x] == m;
    assert InBox(z, y, x, s);
    m
  }

  /** The inputs get_geodesics obtains from libraries: the iteration count
      dmax, the Dirichlet data, the rounded nucleus centroid and the
      natural logarithm. All voxels are in the coordinates of the crop. */
  datatype Given = Given(dmax: nat, bc: Boundary, centroid: Voxel, ln: real -> real)

  /** Some voxel of the mask is nucleus (the mean of no coordinate fails otherwise). */
  predicate NucleusPresent(mask: Vol<int>, s: Shape)
    requires HasShape(mask, s)
  {
    exists z, y, x | 0 <= z < s.nz && 0 <= y < s.ny && 0 <= x < s.nx :: mask[z][y][x] == 2
  }

  /** The log of the relaxed field inside the cell, 0 outside. */
  function Field(mask: Vol<int>, s: Shape, gv: Given): Vol<real>
    requires HasShape(mask, s)
  {
    FieldAt(mask, s, gv, 1)
  }

  /** The field. Every stage gives the same field; a positive stage only
      keeps the relaxation out of proofs that do not look at it. */
  function FieldAt(mask: Vol<int>, s: Shape, gv: Given, stage: nat): (f: Vol<real>)
    requires HasShape(mask, s)
    ensures HasShape(f, s)
    decreases mask, stage
  {
    if stage > 0 then FieldAt(mask, s, gv, stage - 1)
    else LogField(Iterate(Constant(s, gv.bc.tmid), s, gv.bc, 50 * gv.dmax), mask, s, gv.ln)
  }

  /** geodists[geodists == 0] = 1 + geodists.max(), in uint8 arithmetic. */
  function WithSentinel(g: Vol<int>, s: Shape): (w: Vol<int>)
    requires HasShape(g, s) && Size(s) > 0
    ensures HasShape(w, s)
  {
    FillZeros(g, s, (1 + MaxOf(g, s)) % 256)
  }

  /** Everything after the crop, as values, on the cropped shape s. */
  function BandImage(c: Cropped, s: Shape, edges: seq<real>, gv: Given): Result<Vol<int>>
    requires HasShape(c.mem, s) && HasShape(c.dna, s)
  {
    BandImageAt(c, s, edges, gv, 1)
  }

  /** The band image. Every stage gives the same image; a positive stage
      only keeps the voxel arithmetic out of proofs that do not look at it. */
  function BandImageAt(c: Cropped, s: Shape, edges: seq<real>, gv: Given, stage: nat): (r: Result<Vol<int>>)
    requires HasShape(c.mem, s) && HasShape(c.dna, s)
    ensures r.Ok? ==> HasShape(r.value, s) && Size(s) > 0
    ensures Size(s) == 0 ==> r == Err(EmptyVolume)
    ensures Size(s) > 0 ==> (r.Ok? <==> NucleusPresent(Mask(c.mem, c.dna, s), s))
    ensures r.Err? ==> r.error in {EmptyVolume, NoNucleus}
    decreases c, stage
  {
    if stage > 0 then BandImageAt(c, s, edges, gv, stage - 1)
    else if Size(s) == 0 then Err(EmptyVolume)
    else
      var mask := Mask(c.mem, c.dna, s);
      if !NucleusPresent(mask, s) then Err(NoNucleus)
      else Ok(WithSentinel(Wrap(SetOne(Bands(mask, Field(mask, s, gv), s, edges), s, gv.centroid), s), s))
  }

  /** get_geodesics as values: the error the code raises or the full-size
      image of bands. */
  function GeodesicsSpec(mem: Vol<int>, dna: Vol<int>, edges: seq<real>, gv: Given): (r: Result<Vol<int>>)
    requires Regular(mem) && HasShape(dna, ShapeOf(mem))
    ensures r.Ok? ==> HasShape(r.value, ShapeOf(mem))
    ensures Crop(mem, dna).Err? ==> r == Err(EmptyMembrane)
  {
    match Crop(mem, dna)
    case Err(e) => Err(e)
    case Ok(c) =>
      var s := RoiShape(c.roi);
      match BandImage(c, s, edges, gv)
      case Err(e) => Err(e)
      case Ok(g) => Ok(FullImage(ShapeOf(mem), c.roi, g))
  }

  /** The band image pasted into a zero volume of the full shape, whose zeros
      then take the band image's maximum. */
  function FullImage(full: Shape, roi: Roi, g: Vol<int>): (r: Vol<int>)
    requires Inside(roi, full) && HasShape(g, RoiShape(roi)) && Size(RoiShape(roi)) > 0
    ensures HasShape(r, full)
  {
    FillZeros(Paste(full, roi, g), full, MaxOf(g, RoiShape(roi)))
  }

  /** omega[mask == 0] = 0; omega[omega > 0] = log(omega[omega > 0]). */
  method ApplyLog(omega: array3<real>, mask: Vol<int>, ln: real -> real)
    requires HasShape(mask, Shape(omega.Length0, omega.Length1, omega.Length2))
    modifies omega
    ensures Snapshot(omega) == LogField(old(Snapshot(omega)), mask, Shape(omega.Length0, omega.Length1, omega.Length2), ln)
  {
    var s := Shape(omega.Length0, omega.Length1, omega.Length2);
    ghost var before := Snapshot(omega);
    forall z, y, x | 0 <= z < s.nz && 0 <= y < s.ny && 0 <= x < s.nx && mask[z][y][x] == 0 {
      omega[z, y, x] := 0.0;
    }
    assert forall z, y, x :: InBox(z, y, x, s) ==>
      omega[z, y, x] == if mask[z][y][x] == 0 then 0.0 else before[z][y][x];
    forall z, y, x | 0 <= z < s.nz && 0 <= y < s.ny && 0 <= x < s.nx && omega[z, y, x] > 0.0 {
      omega[z, y, x] := ln(omega[z, y, x]);
    }
    ghost var after := Snapshot(omega);
    forall z, y, x | InBox(z, y, x, s) ensures after[z][y][x] == LogField(before, mask, s, ln)[z][y][x] {
      assert after[z][y][x] == omega[z, y, x];
    }
    VolumesEqual(after, LogField(before, mask, s, ln), s);
  }

  /** geodists = zeros, then the nucleus and the cytoplasm assignments. */
  method BandsInto(mask: Vol<int>, field: Vol<real>, s: Shape, edges: seq<real>) returns (g: array3<int>)
    requires HasShape(mask, s) && HasShape(field, s)
    ensures fresh(g)
    ensures g.Length0 == s.nz && g.Length1 == s.ny && g.Length2 == s.nx
    ensures Snapshot(g) == Bands(mask, field, s, edges)
  {
    g := new int[s.nz, s.ny, s.nx]((z, y, x) => 0);
    forall z, y, x | 0 <= z < s.nz && 0 <= y < s.ny && 0 <= x < s.nx && mask[z][y][x] == 2 {
      g[z, y, x] := 1 + Digitize(field[z][y][x], edges);
    }
    forall z, y, x | 0 <= z < s.nz && 0 <= y < s.ny && 0 <= x < s.nx && mask[z][y][x] == 1 {
      g[z, y, x] := |edges| + 1 + Digitize(field[z][y][x] - 1.0, edges);
    }
    forall z, y, x | InBox(z, y, x, s) ensures g[z, y, x] == Band(mask[z][y][x], field[z][y][x], edges) {
      if mask[z][y][x] != 1 && mask[z][y][x] != 2 {
        assert g[z, y, x] == 0;
      }
    }
    VolumesEqual(Snapshot(g), Bands(mask, field, s, edges), s);
  }

  /** geodists[centroid] = 1. */
  method SetCentroid(g: array3<int>, c: Voxel)
    modifies g
    ensures Snapshot(g) == SetOne(old(Snapshot(g)), Shape(g.Length0, g.Length1, g.Length2), c)
  {
    var s := Shape(g.Length0, g.Length1, g.Length2);
    ghost var before := Snapshot(g);
    if 0 <= c.z < s.nz && 0 <= c.y < s.ny && 0 <= c.x < s.nx {
      g[c.z, c.y, c.x] := 1;
    }
    VolumesEqual(Snapshot(g), SetOne(before, s, c), s);
  }

  /** geodists.astype(np.uint8). */
  method CastToByte(g: array3<int>)
    modifies g
    ensures Snapshot(g) == Wrap(old(Snapshot(g)), Shape(g.Length0, g.Length1, g.Length2))
  {
    var s := Shape(g.Length0, g.Length1, g.Length2);
    ghost var before := Snapshot(g);
    forall z, y, x | 0 <= z < s.nz && 0 <= y < s.ny && 0 <= x < s.nx {
      g[z, y, x] := g[z, y, x] % 256;
    }
    VolumesEqual(Snapshot(g), Wrap(before, s), s);
  }

  /** a[a == 0] = val on an array. */
  method FillZerosIn(a: array3<int>, val: int)
    modifies a
    ensures Snapshot(a) == FillZeros(old(Snapshot(a)), Shape(a.Length0, a.Length1, a.Length2), val)
  {
    var s := Shape(a.Length0, a.Length1, a.Length2);
    ghost var before := Snapshot(a);
    forall z, y, x | 0 <= z < s.nz && 0 <= y < s.ny && 0 <= x < s.nx && a[z, y, x] == 0 {
      a[z, y, x] := val;
    }
    VolumesEqual(Snapshot(a), FillZeros(before, s, val), s);
  }

  /** geodesics = zeros_like(seg_mem); geodesics[roi box] = geodists. */
  method PasteInto(s: Shape, roi: Roi, g: Vol<int>) returns (a: array3<int>)
    requires Inside(roi, s) && HasShape(g, RoiShape(roi))
    ensures fresh(a)
    ensures a.Length0 == s.nz && a.Length1 == s.ny && a.Length2 == s.nx
    ensures Snapshot(a) == Paste(s, roi, g)
  {
    a := new int[s.nz, s.ny, s.nx]((z, y, x) => 0);
    forall z, y, x | roi.zmin <= z < roi.zmax && roi.ymin <= y < roi.ymax && roi.xmin <= x < roi.xmax {
      a[z, y, x] := g[z - roi.zmin][y - roi.ymin][x - roi.xmin];
    }
    forall z, y, x | InBox(z, y, x, s) ensures a[z, y, x] == Paste(s, roi, g)[z][y][x] {
      if !InRoi(z, y, x, roi) {
        assert a[z, y, x] == 0;
      }
    }
    VolumesEqual(Snapshot(a), Paste(s, roi, g), s);
  }

  /** The band image from the mask and the field, on arrays: the bands,
      the centroid set to 1, the cast to uint8 and the sentinel for zeros. */
  method BandsOf(mask: Vol<int>, field: Vol<real>, s: Shape, edges: seq<real>, centroid: Voxel) returns (out: Vol<int>)
    requires HasShape(mask, s) && HasShape(field, s) && Size(s) > 0
    ensures out == WithSentinel(Wrap(SetOne(Bands(mask, field, s, edges), s, centroid), s), s)
  {
    var g := BandsInto(mask, field, s, edges);
    ghost var g0 := Snapshot(g);
    SetCentroid(g, centroid);
    ghost var g1 := Snapshot(g);
    assert g1 == SetOne(g0, s, centroid);
    CastToByte(g);
    var wrapped := Snapshot(g);
    assert wrapped == Wrap(g1, s);
    var m := MaxOf(wrapped, s);
    FillZerosIn(g, (1 + m) % 256);
    out := Snapshot(g);
    assert Shape(g.Length0, g.Length1, g.Length2) == s;
    assert out == FillZeros(wrapped, s, (1 + m) % 256);
    SentinelIs(wrapped, s, m);
  }

  lemma SentinelIs(w: Vol<int>, s: Shape, m: int)
    requires HasShape(w, s) && Size(s) > 0 && m == MaxOf(w, s)
    ensures WithSentinel(w, s) == FillZeros(w, s, (1 + m) % 256)
  {
  }

  /** Lines 88-118 of get_geodesics on the cropped images, on arrays. */
  method BandImageOf(c: Cropped, s: Shape, edges: seq<real>, gv: Given) returns (res: Result<Vol<int>>)
    requires HasShape(c.mem, s) && HasShape(c.dna, s)
    ensures res == BandImage(c, s, edges, gv)
  {
    assert BandImage(c, s, edges, gv) == BandImageAt(c, s, edges, gv, 0);
    if Size(s) == 0 {
      return Err(EmptyVolume);
    }
    var mask := Mask(c.mem, c.dna, s);
    if !NucleusPresent(mask, s) {
      return Err(NoNucleus);
    }
    var omega := Relax(s, gv.bc, 50 * gv.dmax);
    ApplyLog(omega, mask, gv.ln);
    var field := Snapshot(omega);
    assert Field(mask, s, gv) == FieldAt(mask, s, gv, 0);
    assert field == Field(mask, s, gv);
    var out := BandsOf(mask, field, s, edges, gv.centroid);
    res := Ok(out);
  }

  /** get_geodesics: crop, band image, paste, fill the outside. */
  method Geodesics(mem: Vol<int>, dna: Vol<int>, edges: seq<real>, gv: Given) returns (res: Result<Vol<int>>)
    requires Regular(mem) && HasShape(dna, ShapeOf(mem))
    ensures res == GeodesicsSpec(mem, dna, edges, gv)
  {
    var cropped := Crop(mem, dna);
    if cropped.Err? {
      return Err(cropped.error);
    }
    var c := cropped.value;
    var s := RoiShape(c.roi);
    var bands := BandImageOf(c, s, edges, gv);
    if bands.Err? {
      return Err(bands.error);
    }
    var geodists := bands.value;
    var geodesics := PasteInto(ShapeOf(mem), c.roi, geodists);
    FillZerosIn(geodesics, MaxOf(geodists, s));
    res := Ok(Snapshot(geodesics));
  }

  /** Inside the cell the field is the logarithm of a relaxed value, and
      that value lies in [tmin, tmax], so the logarithm is taken of a
      positive number whenever tmin is positive. */
  lemma FieldIsLog(mask: Vol<int>, s: Shape, gv: Given, z: int, y: int, x: int)
    requires HasShape(mask, s) && InBox(z, y, x, s) && mask[z][y][x] != 0
    requires 0.0 < gv.bc.tmin <= gv.bc.tmid <= gv.bc.tmax
    ensures var v := Iterate(Constant(s, gv.bc.tmid), s, gv.bc, 50 * gv.dmax)[z][y][x];
      gv.bc.tmin <= v <= gv.bc.tmax && Field(mask, s, gv)[z][y][x] == gv.ln(v)
  {
    IterateInRange(s, gv.bc, 50 * gv.dmax);
    assert Field(mask, s, gv) == FieldAt(mask, s, gv, 0);
  }

  /** Every value of g lies in [lo, hi]. */
  ghost predicate Bounded(g: Vol<int>, s: Shape, lo: int, hi: int)
    requires HasShape(g, s)
  {
    forall z, y, x :: InBox(z, y, x, s) ==> lo <= g[z][y][x] <= hi
  }

  /** The labels never exceed 2 * nisos + 1. */
  lemma LabelsBounded(mask: Vol<int>, field: Vol<real>, s: Shape, edges: seq<real>, c: Voxel)
    requires HasShape(mask, s) && HasShape(field, s)
    ensures Bounded(SetOne(Bands(mask, field, s, edges), s, c), s, 0, 2 * |edges| + 1)
  {
    var labels := SetOne(Bands(mask, field, s, edges), s, c);
    forall z, y, x | InBox(z, y, x, s) ensures 0 <= labels[z][y][x] <= 2 * |edges| + 1 {
      BandRange(mask[z][y][x], field[z][y][x], edges);
    }
  }

  /** The uint8 cast is the identity on values below 256. */
  lemma WrapSmall(g: Vol<int>, s: Shape)
    requires HasShape(g, s) && Bounded(g, s, 0, 255)
    ensures Wrap(g, s) == g
  {
    VolumesEqual(Wrap(g, s), g, s);
  }

  /** The maximum of a volume bounded by [lo, hi] is within [lo, hi]. */
  lemma MaxBounded(g: Vol<int>, s: Shape, lo: int, hi: int)
    requires HasShape(g, s) && Size(s) > 0 && Bounded(g, s, lo, hi)
    ensures lo <= MaxOf(g, s) <= hi
  {
    var z, y, x :| InBox(z, y, x, s) && g[z][y][x] == MaxOf(g, s);
  }

  /** The sentinel stays in byte range: with labels in [0, 254] every voxel
      ends in [1, 255] and nonzero labels are kept. */
  lemma SentinelFacts(g: Vol<int>, s: Shape)
    requires HasShape(g, s) && Size(s) > 0 && Bounded(g, s, 0, 254)
    ensures Bounded(WithSentinel(g, s), s, 1, 255)
    ensures forall z, y, x :: InBox(z, y, x, s) && g[z][y][x] != 0 ==> WithSentinel(g, s)[z][y][x] == g[z][y][x]
  {
    var m := MaxOf(g, s);
    MaxBounded(g, s, 0, 254);
  }

  /** Filling the zeros with a value no voxel exceeds makes that value the
      maximum wherever a zero was. */
  lemma FillIsMax(g: Vol<int>, s: Shape, val: int)
    requires HasShape(g, s) && Size(s) > 0
    requires forall z, y, x :: InBox(z, y, x, s) ==> g[z][y][x] <= val
    ensures forall z, y, x :: InBox(z, y, x, s) && g[z][y][x] == 0 ==>
      FillZeros(g, s, val)[z][y][x] == MaxOf(FillZeros(g, s, val), s)
  {
    var w := FillZeros(g, s, val);
    var mw := MaxOf(w, s);
    var k, j, i :| InBox(k, j, i, s) && w[k][j][i] == mw;
    assert mw <= val;
  }

  /** The voxels that were 0 carry the largest value of the result. */
  lemma SentinelIsMax(g: Vol<int>, s: Shape)
    requires HasShape(g, s) && Size(s) > 0 && Bounded(g, s, 0, 254)
    ensures forall z, y, x :: InBox(z, y, x, s) && g[z][y][x] == 0 ==>
      WithSentinel(g, s)[z][y][x] == MaxOf(WithSentinel(g, s), s)
  {
    var m := MaxOf(g, s);
    MaxBounded(g, s, 0, 254);
    assert (1 + m) % 256 == 1 + m;
    assert WithSentinel(g, s) == FillZeros(g, s, 1 + m);
    FillIsMax(g, s, 1 + m);
  }

  /** With at most 126 bins no band reaches 256, so the uint8 cast changes
      nothing and the sentinel does not wrap to 0. The band image then holds
      the labels wherever they are nonzero (the centroid's 1, the nucleus
      bands 1 + digitize, the cytoplasm bands nisos + 1 + digitize), and the
      sentinel elsewhere, which is the largest value; no 0 remains. */
  lemma BandImageFacts(c: Cropped, s: Shape, edges: seq<real>, gv: Given)
    requires HasShape(c.mem, s) && HasShape(c.dna, s)
    requires BandImage(c, s, edges, gv).Ok? && |edges| <= 126
    ensures var g := BandImage(c, s, edges, gv).value;
      var mask := Mask(c.mem, c.dna, s);
      var labels := SetOne(Bands(mask, Field(mask, s, gv), s, edges), s, gv.centroid);
      && HasShape(g, s)
      && Bounded(g, s, 1, 255)
      && (forall z, y, x :: InBox(z, y, x, s) && labels[z][y][x] != 0 ==> g[z][y][x] == labels[z][y][x])
      && (forall z, y, x :: InBox(z, y, x, s) && labels[z][y][x] == 0 ==> g[z][y][x] == MaxOf(g, s))
  {
    var mask := Mask(c.mem, c.dna, s);
    var labels := SetOne(Bands(mask, Field(mask, s, gv), s, edges), s, gv.centroid);
    LabelsBounded(mask, Field(mask, s, gv), s, edges, gv.centroid);
    WrapSmall(labels, s);
    SentinelFacts(labels, s);
    SentinelIsMax(labels, s);
    assert BandImage(c, s, edges, gv) == BandImageAt(c, s, edges, gv, 0);
    assert BandImage(c, s, edges, gv).value == WithSentinel(labels, s);
  }

  /** Which label each voxel of the cropped image receives: 1 at the
      centroid, 1 + digitize in [1, nisos + 1] in the nucleus, nisos + 1 +
      digitize in [nisos + 1, 2 nisos + 1] in the cytoplasm, 0 outside. */
  lemma LabelAt(mask: Vol<int>, field: Vol<real>, s: Shape, edges: seq<real>, c: Voxel, z: int, y: int, x: int)
    requires HasShape(mask, s) && HasShape(field, s) && InBox(z, y, x, s)
    ensures var l := SetOne(Bands(mask, field, s, edges), s, c)[z][y][x];
      && (Voxel(z, y, x) == c ==> l == 1)
      && (Voxel(z, y, x) != c && mask[z][y][x] == 2 ==> l == 1 + Digitize(field[z][y][x], edges) && 1 <= l <= |edges| + 1)
      && (Voxel(z, y, x) != c && mask[z][y][x] == 1 ==>
            l == |edges| + 1 + Digitize(field[z][y][x] - 1.0, edges) && |edges| + 1 <= l <= 2 * |edges| + 1)
      && (Voxel(z, y, x) != c && mask[z][y][x] == 0 ==> l == 0)
  {
    var b := Bands(mask, field, s, edges);
    SetOneElem(b, s, c, z, y, x);
    BandsElem(mask, field, s, edges, z, y, x);
    BandRange(mask[z][y][x], field[z][y][x], edges);
  }

  /** The full image holds g where g is nonzero, g's maximum everywhere
      else (outside the box and on g's zeros), and nowhere anything larger. */
  lemma FullImageFacts(full: Shape, roi: Roi, g: Vol<int>)
    requires Inside(roi, full) && HasShape(g, RoiShape(roi)) && Size(RoiShape(roi)) > 0
    ensures var m := MaxOf(g, RoiShape(roi));
      var r := FullImage(full, roi, g);
      && (forall z, y, x :: InBox(z, y, x, full) && InRoi(z, y, x, roi) && g[z - roi.zmin][y - roi.ymin][x - roi.xmin] != 0 ==>
            r[z][y][x] == g[z - roi.zmin][y - roi.ymin][x - roi.xmin])
      && (forall z, y, x :: InBox(z, y, x, full) && !InRoi(z, y, x, roi) ==> r[z][y][x] == m)
      && (forall z, y, x :: InBox(z, y, x, full) ==> r[z][y][x] <= m)
  {
    var s := RoiShape(roi);
    var m := MaxOf(g, s);
    var r := FullImage(full, roi, g);
    forall z, y, x | InBox(z, y, x, full) ensures r[z][y][x] <= m {
      if InRoi(z, y, x, roi) {
        assert InBox(z - roi.zmin, y - roi.ymin, x - roi.xmin, s);
      }
    }
  }

  /** A band image in [lo, hi] with lo >= 1 gives a full image in [lo, hi]. */
  lemma FullImageBounded(full: Shape, roi: Roi, g: Vol<int>, lo: int, hi: int)
    requires Inside(roi, full) && HasShape(g, RoiShape(roi)) && Size(RoiShape(roi)) > 0
    requires 1 <= lo && Bounded(g, RoiShape(roi), lo, hi)
    ensures Bounded(FullImage(full, roi, g), full, lo, hi)
  {
    var s := RoiShape(roi);
    var r := FullImage(full, roi, g);
    MaxBounded(g, s, lo, hi);
    forall z, y, x | InBox(z, y, x, full) ensures lo <= r[z][y][x] <= hi {
      if InRoi(z, y, x, roi) {
        assert InBox(z - roi.zmin, y - roi.ymin, x - roi.xmin, s);
      }
    }
  }

  /** v has a voxel (z, y, x) and it holds val. */
  predicate HoldsAt(v: Vol<int>, z: int, y: int, x: int, val: int)
  {
    0 <= z < |v| && 0 <= y < |v[z]| && 0 <= x < |v[z][y]| && v[z][y][x] == val
  }

  /** A nonzero voxel of g reappears in the full image at its offset in the box. */
  lemma FullImageAt(full: Shape, roi: Roi, g: Vol<int>, k: int, j: int, i: int)
    requires Inside(roi, full) && HasShape(g, RoiShape(roi)) && Size(RoiShape(roi)) > 0
    requires InBox(k, j, i, RoiShape(roi)) && g[k][j][i] != 0
    ensures HoldsAt(FullImage(full, roi, g), roi.zmin + k, roi.ymin + j, roi.xmin + i, g[k][j][i])
  {
    assert InRoi(roi.zmin + k, roi.ymin + j, roi.xmin + i, roi);
  }

  /** When get_geodesics returns, the crop and the band image both succeeded
      and the result is their full image. */
  lemma GeodesicsUnfold(mem: Vol<int>, dna: Vol<int>, edges: seq<real>, gv: Given)
    requires Regular(mem) && HasShape(dna, ShapeOf(mem)) && GeodesicsSpec(mem, dna, edges, gv).Ok?
    ensures Crop(mem, dna).Ok?
    ensures var c := Crop(mem, dna).value;
      && BandImage(c, RoiShape(c.roi), edges, gv).Ok?
      && GeodesicsSpec(mem, dna, edges, gv).value == FullImage(ShapeOf(mem), c.roi, BandImage(c, RoiShape(c.roi), edges, gv).value)
  {
  }

  /** With at most 126 bins no voxel of the full image is 0 and none exceeds 255. */
  lemma GeodesicsBounded(mem: Vol<int>, dna: Vol<int>, edges: seq<real>, gv: Given)
    requires Regular(mem) && HasShape(dna, ShapeOf(mem)) && GeodesicsSpec(mem, dna, edges, gv).Ok?
    requires |edges| <= 126
    ensures HasShape(GeodesicsSpec(mem, dna, edges, gv).value, ShapeOf(mem))
    ensures Bounded(GeodesicsSpec(mem, dna, edges, gv).value, ShapeOf(mem), 1, 255)
  {
    GeodesicsUnfold(mem, dna, edges, gv);
    var c := Crop(mem, dna).value;
    var s := RoiShape(c.roi);
    var g := BandImage(c, s, edges, gv).value;
    BandImageFacts(c, s, edges, gv);
    assert Bounded(g, s, 1, 255);
    FullImageBounded(ShapeOf(mem), c.roi, g, 1, 255);
    var r := FullImage(ShapeOf(mem), c.roi, g);
    assert Bounded(r, ShapeOf(mem), 1, 255);
    assert GeodesicsSpec(mem, dna, edges, gv).value == r;
  }

  /** The centroid keeps its 1 through the cast and the sentinel, whatever nisos is. */
  lemma CentroidIsOne(c: Cropped, s: Shape, edges: seq<real>, gv: Given)
    requires HasShape(c.mem, s) && HasShape(c.dna, s) && BandImage(c, s, edges, gv).Ok?
    requires InBox(gv.centroid.z, gv.centroid.y, gv.centroid.x, s)
    ensures BandImage(c, s, edges, gv).value[gv.centroid.z][gv.centroid.y][gv.centroid.x] == 1
  {
    var mask := Mask(c.mem, c.dna, s);
    var labels := SetOne(Bands(mask, Field(mask, s, gv), s, edges), s, gv.centroid);
    var cz := gv.centroid;
    BandImageValue(c, s, edges, gv);
    SetOneAt(Bands(mask, Field(mask, s, gv), s, edges), s, cz);
    var w := Wrap(labels, s);
    assert w[cz.z][cz.y][cz.x] == 1;
    FillZerosAt(w, s, (1 + MaxOf(w, s)) % 256, cz.z, cz.y, cz.x);
  }

  /** The band image, when there is one, is the sentinel-filled cast of the labels. */
  lemma BandImageValue(c: Cropped, s: Shape, edges: seq<real>, gv: Given)
    requires HasShape(c.mem, s) && HasShape(c.dna, s) && BandImage(c, s, edges, gv).Ok?
    ensures var mask := Mask(c.mem, c.dna, s);
      BandImage(c, s, edges, gv).value == WithSentinel(Wrap(SetOne(Bands(mask, Field(mask, s, gv), s, edges), s, gv.centroid), s), s)
  {
    assert BandImage(c, s, edges, gv) == BandImageAt(c, s, edges, gv, 0);
  }

  /** One voxel of the bands. */
  lemma BandsElem(mask: Vol<int>, field: Vol<real>, s: Shape, edges: seq<real>, z: int, y: int, x: int)
    requires HasShape(mask, s) && HasShape(field, s) && InBox(z, y, x, s)
    ensures Bands(mask, field, s, edges)[z][y][x] == Band(mask[z][y][x], field[z][y][x], edges)
  {
  }

  /** One voxel after SetOne: 1 at c, unchanged elsewhere. */
  lemma SetOneElem(g: Vol<int>, s: Shape, c: Voxel, z: int, y: int, x: int)
    requires HasShape(g, s) && InBox(z, y, x, s)
    ensures SetOne(g, s, c)[z][y][x] == if Voxel(z, y, x) == c then 1 else g[z][y][x]
  {
  }

  /** SetOne writes 1 at a voxel inside the volume. */
  lemma SetOneAt(g: Vol<int>, s: Shape, c: Voxel)
    requires HasShape(g, s) && InBox(c.z, c.y, c.x, s)
    ensures SetOne(g, s, c)[c.z][c.y][c.x] == 1
  {
  }

  /** FillZeros leaves a nonzero voxel as it is. */
  lemma FillZerosAt(g: Vol<int>, s: Shape, val: int, z: int, y: int, x: int)
    requires HasShape(g, s) && InBox(z, y, x, s) && g[z][y][x] != 0
    ensures FillZeros(g, s, val)[z][y][x] == g[z][y][x]
  {
  }
}
