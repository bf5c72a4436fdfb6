/** The mesh side of the parameterisation: a polydata object whose points,
    polylines and named point arrays the code reads and changes in place,
    the probe that samples images at the mesh points (prob_image), and the
    rigid translation of a mesh (translate_mesh). */
module Meshes {
  import opened Common

  /** vtkPolyData reduced to what the code touches: the point coordinates,
      the polylines as lists of point ids, and the named point arrays. */
  class PolyData {
    var points: seq<Point>
    var lines: seq<seq<nat>>
    var arrays: map<string, seq<real>>

    constructor (points: seq<Point>, lines: seq<seq<nat>>)
      ensures this.points == points && this.lines == lines && arrays == map[]
    {
      this.points := points;
      this.lines := lines;
      arrays := map[];
    }
  }

  /** An image to probe and the name its array gets, one entry of images_to_probe. */
  datatype Probe = Probe(img: Vol<real>, name: string)

  /** numpy indexing along one axis of length n: an index in [-n, n) selects
      i mod n, any other raises IndexError. */
  function AxisIndex(i: int, n: nat): (r: Option<nat>)
    ensures r.Some? <==> -(n as int) <= i < n
    ensures r.Some? ==> r.value < n && (r.value == i || r.value == i + n)
  {
    if 0 <= i < n then Some(i)
    else if -(n as int) <= i < 0 then Some(i + n)
    else None
  }

  /** The voxel img[int(z), int(y), int(x)] selects, if indexing succeeds. */
  function VoxelOf(p: Point, s: Shape): (v: Option<Voxel>)
    ensures v.Some? ==> InBounds(v.value, s)
    ensures v.Some? <==> -(s.nz as int) <= Trunc(p.z) < s.nz && -(s.ny as int) <= Trunc(p.y) < s.ny && -(s.nx as int) <= Trunc(p.x) < s.nx
  {
    match (AxisIndex(Trunc(p.z), s.nz), AxisIndex(Trunc(p.y), s.ny), AxisIndex(Trunc(p.x), s.nx))
    case (Some(z), Some(y), Some(x)) => Some(Voxel(z, y, x))
    case _ => None
  }

  /** The value prob_image stores for one point: the indexed voxel, or the
      fallback when the index raises. */
  function Lookup(img: Vol<real>, p: Point, fallback: real): real
    requires Regular(img)
  {
    match VoxelOf(p, ShapeOf(img))
    case Some(v) => img[v.z][v.y][v.x]
    case None => fallback
  }

  /** A zero-size image, on which img.min() raises. */
  predicate EmptyImg(img: Vol<real>)
  {
    Size(ShapeOf(img)) == 0
  }

  /** The minimum of a nonempty image. */
  function ImgMin(img: Vol<real>): (m: real)
    requires Regular(img) && !EmptyImg(img)
    ensures forall z, y, x :: InBox(z, y, x, ShapeOf(img)) ==> m <= img[z][y][x]
    ensures m in Flatten(img)
  {
    FlattenEmpty(img, ShapeOf(img));
    VolMin(img)
  }

  /** The array prob_image builds for one image: one value per point. */
  function Sampled(points: seq<Point>, img: Vol<real>): (vals: seq<real>)
    requires Regular(img) && !EmptyImg(img)
    ensures |vals| == |points|
  {
    seq(|points|, i requires 0 <= i < |points| => Lookup(img, points[i], ImgMin(img)))
  }

  /** Every probed value is a value of the image and at least its minimum:
      the truncated voxel where indexing succeeds, the minimum elsewhere. */
  lemma SampledFacts(points: seq<Point>, img: Vol<real>, i: int)
    requires Regular(img) && !EmptyImg(img) && 0 <= i < |points|
    ensures ImgMin(img) <= Sampled(points, img)[i]
    ensures Sampled(points, img)[i] in Flatten(img)
    ensures VoxelOf(points[i], ShapeOf(img)).None? ==> Sampled(points, img)[i] == ImgMin(img)
    ensures VoxelOf(points[i], ShapeOf(img)).Some? ==>
      var v := VoxelOf(points[i], ShapeOf(img)).value; Sampled(points, img)[i] == img[v.z][v.y][v.x]
  {
    match VoxelOf(points[i], ShapeOf(img))
    case Some(v) => FlattenHas(img, v.z, v.y, v.x);
    case None =>
  }

  /** A point with non-negative coordinates inside the image box samples the
      voxel its coordinates truncate to. */
  lemma SampledInside(points: seq<Point>, img: Vol<real>, i: int)
    requires Regular(img) && !EmptyImg(img) && 0 <= i < |points|
    requires var p := points[i]; var s := ShapeOf(img);
      0.0 <= p.z < s.nz as real && 0.0 <= p.y < s.ny as real && 0.0 <= p.x < s.nx as real
    ensures var p := points[i];
      Sampled(points, img)[i] == img[Trunc(p.z)][Trunc(p.y)][Trunc(p.x)]
  {
  }

  /** The per-point loop of prob_image, writing a fixed-size float array. */
  method SampleInto(points: seq<Point>, img: Vol<real>) returns (vals: seq<real>)
    requires Regular(img) && !EmptyImg(img)
    ensures vals == Sampled(points, img)
  {
    var n := |points|;
    var vmin := ImgMin(img);
    var scalars := new real[n];
    var i := 0;
    while i < n
      invariant 0 <= i <= n
      invariant forall j :: 0 <= j < i ==> scalars[j] == Lookup(img, points[j], vmin)
    {
      var v := vmin;
      match VoxelOf(points[i], ShapeOf(img)) {
        case Some(p) => v := img[p.z][p.y][p.x];
        case None =>
      }
      scalars[i] := v;
      i := i + 1;
    }
    vals := scalars[..];
  }

  /** The arrays after probing the images in order; probing stops at the
      first empty image, whose img.min() raises. A later array of the same
      name replaces an earlier one, as AddArray does. */
  function Probed(points: seq<Point>, arrays: map<string, seq<real>>, images: seq<Probe>): map<string, seq<real>>
    requires forall k :: 0 <= k < |images| ==> Regular(images[k].img)
    decreases |images|
  {
    if |images| == 0 || EmptyImg(images[0].img) then arrays
    else Probed(points, arrays[images[0].name := Sampled(points, images[0].img)], images[1..])
  }

  /** prob_image fails exactly when some image is empty. */
  function ProbeOutcome(images: seq<Probe>): (out: Outcome)
    ensures out.Fail? ==> out.error == EmptyImage
  {
    if exists k :: 0 <= k < |images| && EmptyImg(images[k].img) then Fail(EmptyImage) else Pass
  }

  /** prob_image: one array per image, added to the mesh in place. */
  method ProbeImages(mesh: PolyData, images: seq<Probe>) returns (out: Outcome)
    requires forall k :: 0 <= k < |images| ==> Regular(images[k].img)
    modifies mesh
    ensures mesh.points == old(mesh.points) && mesh.lines == old(mesh.lines)
    ensures mesh.arrays == Probed(old(mesh.points), old(mesh.arrays), images)
    ensures out == ProbeOutcome(images)
  {
    var k := 0;
    while k < |images|
      invariant 0 <= k <= |images|
      invariant mesh.points == old(mesh.points) && mesh.lines == old(mesh.lines)
      invariant forall j :: 0 <= j < k ==> !EmptyImg(images[j].img)
      invariant Probed(mesh.points, mesh.arrays, images[k..]) == Probed(old(mesh.points), old(mesh.arrays), images)
    {
      var img := images[k].img;
      if Size(ShapeOf(img)) == 0 {
        return Fail(EmptyImage);
      }
      var scalars := SampleInto(mesh.points, img);
      assert images[k..][1..] == images[k + 1..];
      mesh.arrays := mesh.arrays[images[k].name := scalars];
      k := k + 1;
    }
    return Pass;
  }

  /** After a probe that passes, every image's name holds an array of one
      value per point; it is that image's samples when no later image has the
      same name. Arrays of other names are kept. */
  lemma {:induction false} ProbedArrays(points: seq<Point>, arrays: map<string, seq<real>>, images: seq<Probe>)
    requires forall k :: 0 <= k < |images| ==> Regular(images[k].img)
    requires ProbeOutcome(images) == Pass
    ensures var r := Probed(points, arrays, images);
      && (forall k :: 0 <= k < |images| ==> images[k].name in r && |r[images[k].name]| == |points|)
      && (forall k :: 0 <= k < |images| && (forall j :: k < j < |images| ==> images[j].name != images[k].name) ==>
            r[images[k].name] == Sampled(points, images[k].img))
      && (forall name :: name in arrays && (forall k :: 0 <= k < |images| ==> images[k].name != name) ==>
            name in r && r[name] == arrays[name])
    decreases |images|
  {
    if |images| > 0 {
      var a := arrays[images[0].name := Sampled(points, images[0].img)];
      assert ProbeOutcome(images[1..]) == Pass by {
        forall k | 0 <= k < |images[1..]| ensures !EmptyImg(images[1..][k].img) {
          assert images[1..][k] == images[k + 1];
        }
      }
      ProbedArrays(points, a, images[1..]);
      var r := Probed(points, arrays, images);
      assert r == Probed(points, a, images[1..]);
      forall k | 0 <= k < |images| ensures images[k].name in r && |r[images[k].name]| == |points| {
        if k > 0 {
          assert images[1..][k - 1] == images[k];
        }
      }
      forall k | 0 <= k < |images| && (forall j :: k < j < |images| ==> images[j].name != images[k].name)
        ensures r[images[k].name] == Sampled(points, images[k].img)
      {
        if k > 0 {
          assert images[1..][k - 1] == images[k];
          assert forall j :: k - 1 < j < |images[1..]| ==> images[1..][j].name != images[1..][k - 1].name by {
            forall j | k - 1 < j < |images[1..]| ensures images[1..][j].name != images[1..][k - 1].name {
              assert images[1..][j] == images[j + 1];
            }
          }
        } else {
          assert forall j :: 0 <= j < |images[1..]| ==> images[1..][j].name != images[0].name by {
            forall j | 0 <= j < |images[1..]| ensures images[1..][j].name != images[0].name {
              assert images[1..][j] == images[j + 1];
            }
          }
        }
      }
      forall name | name in arrays && (forall k :: 0 <= k < |images| ==> images[k].name != name)
        ensures name in r && r[name] == arrays[name]
      {
        assert images[0].name != name;
        assert forall k :: 0 <= k < |images[1..]| ==> images[1..][k].name != name by {
          forall k | 0 <= k < |images[1..]| ensures images[1..][k].name != name {
            assert images[1..][k] == images[k + 1];
          }
        }
      }
    }
  }

  /** coords + dr for every point. */
  function Translated(points: seq<Point>, d: Point): (r: seq<Point>)
    ensures |r| == |points|
  {
    seq(|points|, i requires 0 <= i < |points| => Add(points[i], d))
  }

  /** Translating by d and then by -d gives the points back. */
  lemma TranslateRoundTrip(points: seq<Point>, d: Point)
    ensures Translated(Translated(points, d), Neg(d)) == points
  {
    var back := Translated(Translated(points, d), Neg(d));
    forall i | 0 <= i < |points| ensures back[i] == points[i] {
    }
  }

  /** A translation is rigid: the difference between any two points is kept. */
  lemma TranslateRigid(points: seq<Point>, d: Point, i: int, j: int)
    requires 0 <= i < |points| && 0 <= j < |points|
    ensures Sub(Translated(points, d)[i], Translated(points, d)[j]) == Sub(points[i], points[j])
  {
  }

  /** translate_mesh: dr must have shape (1, 3); every point moves by it, in
      place. On a bad shape the mesh is left untouched. */
  method TranslateMesh(mesh: PolyData, dr: seq<seq<real>>) returns (out: Outcome)
    modifies mesh
    ensures out.Pass? <==> |dr| == 1 && |dr[0]| == 3
    ensures out.Fail? ==> out.error == BadDisplacementShape && mesh.points == old(mesh.points)
    ensures out.Pass? ==> mesh.points == Translated(old(mesh.points), AsPoint(dr[0]))
    ensures mesh.lines == old(mesh.lines) && mesh.arrays == old(mesh.arrays)
  {
    if |dr| != 1 || |dr[0]| != 3 {
      return Fail(BadDisplacementShape);
    }
    var d := AsPoint(dr[0]);
    mesh.points := seq(|mesh.points|, i requires 0 <= i < |mesh.points| reads mesh => Add(mesh.points[i], d));
    return Pass;
  }
}
