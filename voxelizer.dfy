/** voxelize_meshes: the image grid is fitted around the first (outermost)
    mesh, and the 0/1 stencil of every mesh on that grid is added into one
    uint8 image, so each voxel counts the meshes that cover it. */
module Voxelizer {
  import opened Common

  /** An integer corner of the grid, in the (x, y, z) order of mesh points. */
  datatype Corner = Corner(x: int, y: int, z: int)

  /** The image grid: its origin rmin and its (d, h, w) shape. */
  datatype Grid = Grid(origin: Corner, shape: Shape)

  /** What voxelize_meshes returns: the accumulated image and its origin. */
  datatype Voxelized = Voxelized(img: Vol<int>, origin: Corner)

  function XsOf(pts: seq<Point>): (cs: seq<real>)
    ensures |cs| == |pts| && forall i :: 0 <= i < |pts| ==> cs[i] == pts[i].x
  {
    seq(|pts|, i requires 0 <= i < |pts| => pts[i].x)
  }

  function YsOf(pts: seq<Point>): (cs: seq<real>)
    ensures |cs| == |pts| && forall i :: 0 <= i < |pts| ==> cs[i] == pts[i].y
  {
    seq(|pts|, i requires 0 <= i < |pts| => pts[i].y)
  }

  function ZsOf(pts: seq<Point>): (cs: seq<real>)
    ensures |cs| == |pts| && forall i :: 0 <= i < |pts| ==> cs[i] == pts[i].z
  {
    seq(|pts|, i requires 0 <= i < |pts| => pts[i].z)
  }

  /** rmin = (coords.min(axis=0) - 0.5).astype(int) on one axis. */
  function LowerOf(cs: seq<real>): (lo: int)
    requires |cs| > 0
    ensures forall i :: 0 <= i < |cs| ==> lo as real - 0.5 < cs[i]
  {
    var m := MinReal(cs);
    var t := Trunc(m - 0.5);
    assert t as real - 0.5 < m;
    t
  }

  /** rmax = (coords.max(axis=0) + 0.5).astype(int) on one axis. */
  function UpperOf(cs: seq<real>): (hi: int)
    requires |cs| > 0
    ensures LowerOf(cs) <= hi
    ensures forall i :: 0 <= i < |cs| ==> cs[i] < hi as real + 0.5
  {
    var m := MaxReal(cs);
    var t := Trunc(m + 0.5);
    assert m < t as real + 0.5;
    assert MinReal(cs) <= m;
    TruncMonotone(MinReal(cs) - 0.5, m + 0.5);
    t
  }

  /** One side of the grid: int(2 + (rmax - rmin)). */
  function Extent(cs: seq<real>): (n: nat)
    requires |cs| > 0
    ensures n >= 2
  {
    2 + (UpperOf(cs) - LowerOf(cs))
  }

  /** The grid voxelize_meshes allocates. It fails with IndexError on an
      empty mesh list and with ValueError when the first mesh has no
      points, whose coordinate array cannot be reduced. Otherwise the grid
      has w, h, d at least 2, and every point of the first mesh lies inside
      the voxel cells, within half a voxel of [rmin, rmax]. */
  function GridOf(meshes: seq<seq<Point>>): (r: Result<Grid>)
    ensures |meshes| == 0 ==> r == Err(NoMeshes)
    ensures |meshes| > 0 && |meshes[0]| == 0 ==> r == Err(EmptyMesh)
    ensures r.Ok? <==> |meshes| > 0 && |meshes[0]| > 0
    ensures r.Ok? ==> r.value.shape.nz >= 2 && r.value.shape.ny >= 2 && r.value.shape.nx >= 2
    ensures r.Ok? ==> forall i :: 0 <= i < |meshes[0]| ==>
      Covered(meshes[0][i], r.value)
  {
    if |meshes| == 0 then Err(NoMeshes)
    else if |meshes[0]| == 0 then Err(EmptyMesh)
    else
      var pts := meshes[0];
      var xs, ys, zs := XsOf(pts), YsOf(pts), ZsOf(pts);
      var g := Grid(Corner(LowerOf(xs), LowerOf(ys), LowerOf(zs)), Shape(Extent(zs), Extent(ys), Extent(xs)));
      assert forall i :: 0 <= i < |pts| ==> Covered(pts[i], g) by {
        forall i | 0 <= i < |pts| ensures Covered(pts[i], g) {
          assert xs[i] == pts[i].x && ys[i] == pts[i].y && zs[i] == pts[i].z;
        }
      }
      Ok(g)
  }

  /** A point lies in the voxel cells of the grid: with unit spacing from
      the origin, cell k spans [origin + k - 0.5, origin + k + 0.5). */
  predicate Covered(p: Point, g: Grid)
  {
    && g.origin.x as real - 0.5 < p.x < (g.origin.x + g.shape.nx) as real - 1.5
    && g.origin.y as real - 0.5 < p.y < (g.origin.y + g.shape.ny) as real - 1.5
    && g.origin.z as real - 0.5 < p.z < (g.origin.z + g.shape.nz) as real - 1.5
  }

  /** Every stencil voxelize_mesh returns: an image of the grid's shape
      holding 0 or 1. */
  ghost predicate IsMask(m: Vol<int>, s: Shape)
  {
    HasShape(m, s) && forall z, y, x :: InBox(z, y, x, s) ==> m[z][y][x] == 0 || m[z][y][x] == 1
  }

  ghost predicate AreMasks(masks: seq<Vol<int>>, s: Shape)
  {
    forall k :: 0 <= k < |masks| ==> IsMask(masks[k], s)
  }

  /** The number of the first n stencils that cover a voxel. */
  function Coverage(masks: seq<Vol<int>>, s: Shape, n: nat, z: int, y: int, x: int): (c: int)
    requires n <= |masks| && AreMasks(masks, s) && InBox(z, y, x, s)
    ensures 0 <= c <= n
  {
    if n == 0 then 0 else Coverage(masks, s, n - 1, z, y, x) + masks[n - 1][z][y][x]
  }

  /** The image after the first n rounds of img += seg in uint8: every voxel
      holds its coverage modulo 256. */
  function Accumulated(masks: seq<Vol<int>>, s: Shape, n: nat): (img: Vol<int>)
    requires n <= |masks| && AreMasks(masks, s)
    ensures HasShape(img, s)
  {
    AccumulatedAt(masks, s, n, 1)
  }

  /** The accumulated image. Every stage gives the same image; a positive
      stage keeps the comprehension out of proofs that go through
      AccumulatedElem. */
  function AccumulatedAt(masks: seq<Vol<int>>, s: Shape, n: nat, stage: nat): (img: Vol<int>)
    requires n <= |masks| && AreMasks(masks, s)
    ensures HasShape(img, s)
    decreases masks, stage
  {
    if stage > 0 then AccumulatedAt(masks, s, n, stage - 1) else
    seq(s.nz, z requires 0 <= z < s.nz =>
      seq(s.ny, y requires 0 <= y < s.ny =>
        seq(s.nx, x requires 0 <= x < s.nx => Coverage(masks, s, n, z, y, x) % 256)))
  }

  lemma AccumulatedElem(masks: seq<Vol<int>>, s: Shape, n: nat, z: int, y: int, x: int)
    requires n <= |masks| && AreMasks(masks, s) && InBox(z, y, x, s)
    ensures Accumulated(masks, s, n)[z][y][x] == Coverage(masks, s, n, z, y, x) % 256
  {
    assert Accumulated(masks, s, n) == AccumulatedAt(masks, s, n, 0);
  }

  /** Adding to a residue modulo 256 is adding to the number itself. */
  lemma ModAdd(a: int, b: int)
    ensures (a % 256 + b) % 256 == (a + b) % 256
  {
    var q := a / 256;
    assert a == 256 * q + a % 256;
    assert a + b == (a % 256 + b) + 256 * q;
  }

  /** The loop `for mesh in meshes: img += seg` on a uint8 image: the image
      starts at zero and every stencil is added in place, wrapping at 256. */
  method Accumulate(masks: seq<Vol<int>>, s: Shape) returns (img: array3<int>)
    requires AreMasks(masks, s)
    ensures fresh(img)
    ensures img.Length0 == s.nz && img.Length1 == s.ny && img.Length2 == s.nx
    ensures Snapshot(img) == Accumulated(masks, s, |masks|)
  {
    img := new int[s.nz, s.ny, s.nx]((z, y, x) => 0);
    forall z, y, x | InBox(z, y, x, s) ensures Snapshot(img)[z][y][x] == Accumulated(masks, s, 0)[z][y][x] {
      AccumulatedElem(masks, s, 0, z, y, x);
    }
    VolumesEqual(Snapshot(img), Accumulated(masks, s, 0), s);
    for k := 0 to |masks|
      invariant img.Length0 == s.nz && img.Length1 == s.ny && img.Length2 == s.nx
      invariant Snapshot(img) == Accumulated(masks, s, k)
    {
      AddStencil(img, masks, s, k);
    }
  }

  /** One round `img += seg` with the k-th stencil, in place and in uint8. */
  method AddStencil(img: array3<int>, masks: seq<Vol<int>>, s: Shape, k: nat)
    requires AreMasks(masks, s) && k < |masks|
    requires img.Length0 == s.nz && img.Length1 == s.ny && img.Length2 == s.nx
    requires Snapshot(img) == Accumulated(masks, s, k)
    modifies img
    ensures Snapshot(img) == Accumulated(masks, s, k + 1)
  {
    var seg := masks[k];
    ghost var before := Snapshot(img);
    forall z, y, x | 0 <= z < s.nz && 0 <= y < s.ny && 0 <= x < s.nx {
      img[z, y, x] := (img[z, y, x] + seg[z][y][x]) % 256;
    }
    ghost var after := Snapshot(img);
    forall z, y, x | InBox(z, y, x, s) ensures after[z][y][x] == Accumulated(masks, s, k + 1)[z][y][x] {
      AccumulatedElem(masks, s, k, z, y, x);
      AccumulatedElem(masks, s, k + 1, z, y, x);
      assert after[z][y][x] == (before[z][y][x] + seg[z][y][x]) % 256;
      ModAdd(Coverage(masks, s, k, z, y, x), seg[z][y][x]);
    }
    VolumesEqual(after, Accumulated(masks, s, k + 1), s);
  }

  /** voxelize_meshes, with the stencil of every mesh on the grid given:
      the grid is fitted to the first mesh and the stencils are summed. */
  method VoxelizeMeshes(meshes: seq<seq<Point>>, masks: seq<Vol<int>>) returns (r: Result<Voxelized>)
    requires |masks| == |meshes|
    requires GridOf(meshes).Ok? ==> AreMasks(masks, GridOf(meshes).value.shape)
    ensures GridOf(meshes).Err? ==> r == Err(GridOf(meshes).error)
    ensures GridOf(meshes).Ok? ==>
      && r.Ok?
      && r.value.origin == GridOf(meshes).value.origin
      && r.value.img == Accumulated(masks, GridOf(meshes).value.shape, |masks|)
  {
    var g := GridOf(meshes);
    if g.Err? {
      return Err(g.error);
    }
    var img := Accumulate(masks, g.value.shape);
    return Ok(Voxelized(Snapshot(img), g.value.origin));
  }

  /** With fewer than 256 meshes nothing wraps: every voxel of the result
      counts the meshes whose stencil covers it, so it lies in
      [0, len(meshes)]. */
  lemma AccumulatedCounts(masks: seq<Vol<int>>, s: Shape, z: int, y: int, x: int)
    requires AreMasks(masks, s) && InBox(z, y, x, s) && |masks| < 256
    ensures Accumulated(masks, s, |masks|)[z][y][x] == Coverage(masks, s, |masks|, z, y, x)
    ensures 0 <= Accumulated(masks, s, |masks|)[z][y][x] <= |masks|
  {
    AccumulatedElem(masks, s, |masks|, z, y, x);
    ModSmall(Coverage(masks, s, |masks|, z, y, x));
  }

  /** A count below 256 is its own uint8 residue. */
  lemma ModSmall(c: int)
    requires 0 <= c < 256
    ensures c % 256 == c
  {
  }

  /** Coverage is monotone in the number of meshes added. */
  lemma {:induction false} CoverageMonotone(masks: seq<Vol<int>>, s: Shape, i: nat, j: nat, z: int, y: int, x: int)
    requires i <= j <= |masks| && AreMasks(masks, s) && InBox(z, y, x, s)
    ensures Coverage(masks, s, i, z, y, x) <= Coverage(masks, s, j, z, y, x)
    decreases j - i
  {
    if i < j {
      CoverageMonotone(masks, s, i, j - 1, z, y, x);
      assert IsMask(masks[j - 1], s);
    }
  }

  /** A voxel inside every stencil is counted once per mesh. */
  lemma {:induction false} CoverageFull(masks: seq<Vol<int>>, s: Shape, n: nat, z: int, y: int, x: int)
    requires n <= |masks| && AreMasks(masks, s) && InBox(z, y, x, s)
    requires forall k :: 0 <= k < n ==> masks[k][z][y][x] == 1
    ensures Coverage(masks, s, n, z, y, x) == n
  {
    if n > 0 {
      CoverageFull(masks, s, n - 1, z, y, x);
    }
  }
}
