/** Shared vocabulary of the cytoplasm parameterisation: results and errors,
    mesh points, voxel coordinates, 3-D volumes and the reductions numpy
    performs on them (min, max, flattening, truncating casts). */
module Common {

  datatype Option<+T> = None | Some(value: T)

  /** The exceptions the Python code raises, one constructor per cause. */
  datatype Error =
    | EmptyMembrane                              // numpy.where(mem) is empty, so x.min() raises
    | EmptyVolume                                // a reduction over a zero-size array raises
    | NoNucleus                                  // int(nan) of the mean of no nucleus voxel raises
    | CoefficientCountMismatch(nMem: nat, nNuc: nat)
    | CoefficientLayout(count: nat)              // reshape(2, lmax+1, lmax+1) fails
    | NoMeshes                                   // meshes[0] on an empty list
    | EmptyMesh                                  // coords.min() of a mesh without points
    | TooFewShells                               // interp1d needs at least two samples
    | MissingArray(name: string)
    | ShapeMismatch(got: nat, expected: nat)
    | EmptyImage                                 // img.min() of a zero-size image
    | BadDisplacementShape
    | EmptyArray(name: string)                   // scalars.max() of an array without values

  datatype Result<+T> = Ok(value: T) | Err(error: Error)

  /** Pass or fail of an operation that changes a mesh in place. */
  datatype Outcome = Pass | Fail(error: Error)

  /** A mesh point, in the (x, y, z) order the mesh stores it. */
  datatype Point = Point(x: real, y: real, z: real)

  const Origin := Point(0.0, 0.0, 0.0)

  /** A point as the row [x, y, z] of a coordinate array, and back. */
  function AsVector(p: Point): (v: seq<real>)
    ensures |v| == 3 && AsPoint(v) == p
  {
    [p.x, p.y, p.z]
  }

  function AsPoint(v: seq<real>): Point
    requires |v| == 3
  {
    Point(v[0], v[1], v[2])
  }

  function Add(p: Point, d: Point): Point { Point(p.x + d.x, p.y + d.y, p.z + d.z) }
  function Sub(p: Point, q: Point): Point { Point(p.x - q.x, p.y - q.y, p.z - q.z) }
  function Neg(p: Point): Point { Point(-p.x, -p.y, -p.z) }

  /** What the model assumes of the Euclidean distance it is given (the
      code computes it with numpy's sqrt): never negative, and 0 exactly
      between equal points. */
  ghost predicate IsDistance(dist: (Point, Point) -> real)
  {
    forall p, q :: 0.0 <= dist(p, q) && (dist(p, q) == 0.0 <==> p == q)
  }

  /** The running total of the first i terms: entry i - 1 of numpy.cumsum,
      or 0 for no terms. */
  function SumTo(xs: seq<real>, i: nat): real
    requires i <= |xs|
  {
    if i == 0 then 0.0 else SumTo(xs, i - 1) + xs[i - 1]
  }

  /** The sum of a sequence. */
  function Sum(xs: seq<real>): real
  {
    SumTo(xs, |xs|)
  }

  /** Running totals of non-negative terms never decrease. */
  lemma {:induction false} SumMonotone(xs: seq<real>, i: nat, j: nat)
    requires i <= j <= |xs|
    requires forall k :: 0 <= k < |xs| ==> 0.0 <= xs[k]
    ensures SumTo(xs, i) <= SumTo(xs, j)
    decreases j - i
  {
    if i < j {
      SumMonotone(xs, i, j - 1);
    }
  }

  /** Python's int() and numpy's astype(int) on a real: truncation toward zero. */
  function Trunc(r: real): (t: int)
    ensures r >= 0.0 ==> t as real <= r < t as real + 1.0
    ensures r < 0.0 ==> t as real - 1.0 < r <= t as real
  {
    if r >= 0.0 then r.Floor else -((-r).Floor)
  }

  lemma {:induction false} TruncMonotone(a: real, b: real)
    requires a <= b
    ensures Trunc(a) <= Trunc(b)
  {
    if a >= 0.0 {
      assert b >= 0.0;
      assert a.Floor <= b.Floor by {
        assert (a.Floor as real) <= b;
      }
    } else if b < 0.0 {
      assert (-b).Floor <= (-a).Floor by {
        assert ((-b).Floor as real) <= -a;
      }
    }
  }

  /** Voxel coordinates in numpy's (z, y, x) order. */
  datatype Voxel = Voxel(z: int, y: int, x: int)

  datatype Shape = Shape(nz: nat, ny: nat, nx: nat)

  /** A 3-D array indexed as v[z][y][x]. */
  type Vol<T> = seq<seq<seq<T>>>

  predicate HasShape<T>(v: Vol<T>, s: Shape)
  {
    && |v| == s.nz
    && (forall z :: 0 <= z < |v| ==> |v[z]| == s.ny)
    && (forall z, y :: 0 <= z < |v| && 0 <= y < |v[z]| ==> |v[z][y]| == s.nx)
  }

  function ShapeOf<T>(v: Vol<T>): Shape
  {
    Shape(|v|, if |v| > 0 then |v[0]| else 0, if |v| > 0 && |v[0]| > 0 then |v[0][0]| else 0)
  }

  /** A volume that is a proper box, like every numpy array. */
  predicate Regular<T>(v: Vol<T>)
  {
    HasShape(v, ShapeOf(v))
  }

  function Size(s: Shape): nat { s.nz * s.ny * s.nx }

  predicate InBounds(p: Voxel, s: Shape)
  {
    0 <= p.z < s.nz && 0 <= p.y < s.ny && 0 <= p.x < s.nx
  }

  function At<T>(v: Vol<T>, p: Voxel): T
    requires HasShape(v, ShapeOf(v)) && InBounds(p, ShapeOf(v))
  {
    v[p.z][p.y][p.x]
  }

  /** A volume of the given shape holding one value everywhere. */
  function Constant<T>(s: Shape, c: T): (v: Vol<T>)
    ensures HasShape(v, s)
    ensures forall z, y, x :: 0 <= z < s.nz && 0 <= y < s.ny && 0 <= x < s.nx ==> v[z][y][x] == c
  {
    seq(s.nz, z => seq(s.ny, y => seq(s.nx, x => c)))
  }

  lemma ShapeOfHasShape<T>(v: Vol<T>, s: Shape)
    requires HasShape(v, s) && Size(s) > 0
    ensures ShapeOf(v) == s
  {
    assert s.nz != 0 && s.ny != 0;
  }

  predicate InBox(z: int, y: int, x: int, s: Shape)
  {
    0 <= z < s.nz && 0 <= y < s.ny && 0 <= x < s.nx
  }

  /** The current contents of an array as a volume value. */
  function Snapshot<T>(a: array3<T>): (v: Vol<T>)
    reads a
    ensures HasShape(v, Shape(a.Length0, a.Length1, a.Length2))
    ensures forall z, y, x :: 0 <= z < a.Length0 && 0 <= y < a.Length1 && 0 <= x < a.Length2 ==>
      v[z][y][x] == a[z, y, x]
  {
    SnapshotAt(a, 1)
  }

  /** The snapshot. Every stage gives the same volume; a positive stage
      keeps the comprehension out of proofs, which use the ensures. */
  function SnapshotAt<T>(a: array3<T>, stage: nat): (v: Vol<T>)
    reads a
    ensures HasShape(v, Shape(a.Length0, a.Length1, a.Length2))
    ensures forall z, y, x :: 0 <= z < a.Length0 && 0 <= y < a.Length1 && 0 <= x < a.Length2 ==>
      v[z][y][x] == a[z, y, x]
    decreases a, stage
  {
    if stage > 0 then SnapshotAt(a, stage - 1) else
    seq(a.Length0, z requires 0 <= z < a.Length0 reads a =>
      seq(a.Length1, y requires 0 <= y < a.Length1 reads a =>
        seq(a.Length2, x requires 0 <= x < a.Length2 reads a => a[z, y, x])))
  }

  /** Two volumes of the same shape that agree everywhere are equal. */
  lemma VolumesEqual<T>(v: Vol<T>, w: Vol<T>, s: Shape)
    requires HasShape(v, s) && HasShape(w, s)
    requires forall z, y, x :: InBox(z, y, x, s) ==> v[z][y][x] == w[z][y][x]
    ensures v == w
  {
    forall z | 0 <= z < s.nz ensures v[z] == w[z] {
      forall y | 0 <= y < s.ny ensures v[z][y] == w[z][y] {
        assert forall x :: 0 <= x < s.nx ==> v[z][y][x] == w[z][y][x] by {
          forall x | 0 <= x < s.nx ensures v[z][y][x] == w[z][y][x] {
            assert InBox(z, y, x, s);
          }
        }
      }
    }
  }

  /** All elements of a volume in C order, as numpy's flatten gives them. */
  function Flatten<T>(v: Vol<T>): seq<T>
  {
    if |v| == 0 then [] else FlattenPlane(v[0]) + Flatten(v[1..])
  }

  function FlattenPlane<T>(p: seq<seq<T>>): seq<T>
  {
    if |p| == 0 then [] else p[0] + FlattenPlane(p[1..])
  }

  lemma {:induction false} FlattenPlaneHas<T>(p: seq<seq<T>>, y: int, x: int)
    requires 0 <= y < |p| && 0 <= x < |p[y]|
    ensures p[y][x] in FlattenPlane(p)
  {
    if y > 0 { FlattenPlaneHas(p[1..], y - 1, x); }
  }

  lemma {:induction false} FlattenHas<T>(v: Vol<T>, z: int, y: int, x: int)
    requires 0 <= z < |v| && 0 <= y < |v[z]| && 0 <= x < |v[z][y]|
    ensures v[z][y][x] in Flatten(v)
  {
    if z == 0 { FlattenPlaneHas(v[0], y, x); } else { FlattenHas(v[1..], z - 1, y, x); }
  }

  lemma {:induction false} FlattenPlaneFrom<T>(p: seq<seq<T>>, e: T)
    requires e in FlattenPlane(p)
    ensures exists y, x :: 0 <= y < |p| && 0 <= x < |p[y]| && p[y][x] == e
  {
    if e in p[0] {
      var x :| 0 <= x < |p[0]| && p[0][x] == e;
      assert p[0][x] == e;
    } else {
      FlattenPlaneFrom(p[1..], e);
      var y, x :| 0 <= y < |p[1..]| && 0 <= x < |p[1..][y]| && p[1..][y][x] == e;
      assert p[y + 1][x] == e;
    }
  }

  lemma {:induction false} FlattenFrom<T>(v: Vol<T>, e: T)
    requires e in Flatten(v)
    ensures exists z, y, x :: 0 <= z < |v| && 0 <= y < |v[z]| && 0 <= x < |v[z][y]| && v[z][y][x] == e
  {
    if e in FlattenPlane(v[0]) {
      FlattenPlaneFrom(v[0], e);
      var y, x :| 0 <= y < |v[0]| && 0 <= x < |v[0][y]| && v[0][y][x] == e;
      assert v[0][y][x] == e;
    } else {
      FlattenFrom(v[1..], e);
      var z, y, x :| 0 <= z < |v[1..]| && 0 <= y < |v[1..][z]| && 0 <= x < |v[1..][z][y]| && v[1..][z][y][x] == e;
      assert v[z + 1][y][x] == e;
    }
  }

  lemma {:induction false} FlattenPlaneEmpty<T>(p: seq<seq<T>>)
    requires forall y :: 0 <= y < |p| ==> |p[y]| == 0
    ensures FlattenPlane(p) == []
  {
    if |p| > 0 { FlattenPlaneEmpty(p[1..]); }
  }

  /** A volume flattens to nothing exactly when it has no element. */
  lemma {:induction false} FlattenEmpty<T>(v: Vol<T>, s: Shape)
    requires HasShape(v, s)
    ensures |Flatten(v)| == 0 <==> Size(s) == 0
  {
    if Size(s) == 0 {
      if |v| > 0 {
        forall z | 0 <= z < |v| ensures FlattenPlane(v[z]) == [] {
          if s.ny > 0 { assert s.nx == 0; }
          FlattenPlaneEmpty(v[z]);
        }
        assert forall z :: 0 <= z < |v[1..]| ==> v[1..][z] == v[z + 1];
        FlattenEmptyAll(v);
      }
    } else {
      assert s.nz != 0 && s.ny != 0 && s.nx != 0;
      FlattenHas(v, 0, 0, 0);
    }
  }

  lemma {:induction false} FlattenEmptyAll<T>(v: Vol<T>)
    requires forall z :: 0 <= z < |v| ==> FlattenPlane(v[z]) == []
    ensures Flatten(v) == []
  {
    if |v| > 0 {
      assert forall z :: 0 <= z < |v[1..]| ==> v[1..][z] == v[z + 1];
      FlattenEmptyAll(v[1..]);
    }
  }

  /** numpy's max over a non-empty integer array. */
  function MaxInt(s: seq<int>): (m: int)
    requires |s| > 0
    ensures m in s
    ensures forall i :: 0 <= i < |s| ==> s[i] <= m
  {
    MaxIntTo(s, |s|)
  }

  /** The largest of the first n values. */
  function MaxIntTo(s: seq<int>, n: nat): (m: int)
    requires 0 < n <= |s|
    ensures m in s
    ensures forall i :: 0 <= i < n ==> s[i] <= m
  {
    if n == 1 then s[0] else
      var t := MaxIntTo(s, n - 1);
      if s[n - 1] >= t then s[n - 1] else t
  }

  /** numpy's min over a non-empty integer array. */
  function MinInt(s: seq<int>): (m: int)
    requires |s| > 0
    ensures m in s
    ensures forall i :: 0 <= i < |s| ==> m <= s[i]
  {
    MinIntTo(s, |s|)
  }

  /** The smallest of the first n values. */
  function MinIntTo(s: seq<int>, n: nat): (m: int)
    requires 0 < n <= |s|
    ensures m in s
    ensures forall i :: 0 <= i < n ==> m <= s[i]
  {
    if n == 1 then s[0] else
      var t := MinIntTo(s, n - 1);
      if s[n - 1] <= t then s[n - 1] else t
  }

  /** numpy's max over a non-empty real array. */
  function MaxReal(s: seq<real>): (m: real)
    requires |s| > 0
    ensures m in s
    ensures forall i :: 0 <= i < |s| ==> s[i] <= m
  {
    if |s| == 1 then s[0] else
      var t := MaxReal(s[1..]);
      if s[0] >= t then s[0] else t
  }

  /** numpy's min over a non-empty real array. */
  function MinReal(s: seq<real>): (m: real)
    requires |s| > 0
    ensures m in s
    ensures forall i :: 0 <= i < |s| ==> m <= s[i]
  {
    if |s| == 1 then s[0] else
      var t := MinReal(s[1..]);
      if s[0] <= t then s[0] else t
  }

  /** The largest element of a non-empty integer volume, as ndarray.max(). */
  function VolMax(v: Vol<int>): (m: int)
    requires |Flatten(v)| > 0
    ensures forall z, y, x :: 0 <= z < |v| && 0 <= y < |v[z]| && 0 <= x < |v[z][y]| ==> v[z][y][x] <= m
    ensures exists z, y, x :: 0 <= z < |v| && 0 <= y < |v[z]| && 0 <= x < |v[z][y]| && v[z][y][x] == m
  {
    var m := MaxInt(Flatten(v));
    assert forall z, y, x :: 0 <= z < |v| && 0 <= y < |v[z]| && 0 <= x < |v[z][y]| ==> v[z][y][x] <= m by {
      forall z, y, x | 0 <= z < |v| && 0 <= y < |v[z]| && 0 <= x < |v[z][y]| ensures v[z][y][x] <= m {
        FlattenHas(v, z, y, x);
      }
    }
    FlattenFrom(v, m);
    m
  }

  /** The smallest element of a non-empty real volume, as ndarray.min(). */
  function VolMin(v: Vol<real>): (m: real)
    requires |Flatten(v)| > 0
    ensures forall z, y, x :: 0 <= z < |v| && 0 <= y < |v[z]| && 0 <= x < |v[z][y]| ==> m <= v[z][y][x]
    ensures m in Flatten(v)
  {
    var m := MinReal(Flatten(v));
    assert forall z, y, x :: 0 <= z < |v| && 0 <= y < |v[z]| && 0 <= x < |v[z][y]| ==> m <= v[z][y][x] by {
      forall z, y, x | 0 <= z < |v| && 0 <= y < |v[z]| && 0 <= x < |v[z][y]| ensures m <= v[z][y][x] {
        FlattenHas(v, z, y, x);
      }
    }
    m
  }

  /** Concatenation of a sequence of sequences, the layout of a point pool
      built by appending one polyline after another. */
  function Concat<T>(ss: seq<seq<T>>): seq<T>
  {
    if |ss| == 0 then [] else Concat(ss[..|ss| - 1]) + ss[|ss| - 1]
  }

  lemma ConcatSnoc<T>(ss: seq<seq<T>>, s: seq<T>)
    ensures Concat(ss + [s]) == Concat(ss) + s
  {
    assert (ss + [s])[..|ss|] == ss;
  }

  /** When every part has length k, element j of part i sits at i*k + j. */
  lemma {:induction false} ConcatIndex<T>(ss: seq<seq<T>>, k: nat, i: nat, j: nat)
    requires forall n :: 0 <= n < |ss| ==> |ss[n]| == k
    requires i < |ss| && j < k
    ensures |Concat(ss)| == |ss| * k
    ensures i * k + j < |Concat(ss)| && Concat(ss)[i * k + j] == ss[i][j]
  {
    var last := |ss| - 1;
    ConcatLength(ss[..last], k);
    if i < last {
      ConcatIndex(ss[..last], k, i, j);
      assert i * k + j < last * k by {
        assert i + 1 <= last;
        MulMonotone(i + 1, last, k);
      }
    } else {
      assert i * k + j == last * k + j;
    }
  }

  lemma {:induction false} ConcatLength<T>(ss: seq<seq<T>>, k: nat)
    requires forall n :: 0 <= n < |ss| ==> |ss[n]| == k
    ensures |Concat(ss)| == |ss| * k
  {
    if |ss| > 0 { ConcatLength(ss[..|ss| - 1], k); }
  }

  lemma MulMonotone(a: nat, b: nat, k: nat)
    requires a <= b
    ensures a * k <= b * k
  {}
}
