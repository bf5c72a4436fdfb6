/** The threshold list of get_geodesic_meshes: the distinct band values of
    the geodesic image in increasing order without the largest, and for each
    one the binary mask of the voxels at or below it, which the external
    spherical-harmonics fit turns into an isosurface. */
module IsoLevels {
  import opened Common

  /** Strictly increasing, as numpy.unique returns its values. */
  predicate Increasing(xs: seq<int>)
  {
    forall i, j :: 0 <= i < j < |xs| ==> xs[i] < xs[j]
  }

  /** v put into its place in an increasing list, unless it is there already. */
  function Insert(xs: seq<int>, v: int): (r: seq<int>)
    requires Increasing(xs)
    ensures Increasing(r)
    ensures forall e :: e in r <==> e in xs || e == v
  {
    if |xs| == 0 then [v]
    else if v < xs[0] then [v] + xs
    else if v == xs[0] then xs
    else
      var rest := Insert(xs[1..], v);
      assert forall e :: e in rest ==> xs[0] < e by {
        forall e | e in rest ensures xs[0] < e {
          if e in xs[1..] {
            var i :| 0 <= i < |xs[1..]| && xs[1..][i] == e;
            assert xs[i + 1] == e;
          }
        }
      }
      assert forall k :: 0 <= k < |rest| ==> xs[0] < rest[k] by {
        forall k | 0 <= k < |rest| ensures xs[0] < rest[k] {
          assert rest[k] in rest;
        }
      }
      [xs[0]] + rest
  }

  /** numpy.unique: the distinct values, increasing. */
  function Unique(vals: seq<int>): (r: seq<int>)
    ensures Increasing(r)
    ensures forall e :: e in r <==> e in vals
  {
    UniqueTo(vals, |vals|)
  }

  /** The distinct values among the first n, increasing. */
  function UniqueTo(vals: seq<int>, n: nat): (r: seq<int>)
    requires n <= |vals|
    ensures Increasing(r)
    ensures forall e :: e in r <==> exists i :: 0 <= i < n && vals[i] == e
  {
    if n == 0 then []
    else Insert(UniqueTo(vals, n - 1), vals[n - 1])
  }

  /** np.unique(geodists)[:-1]: every distinct value but the largest. */
  function IsoValues(g: Vol<int>): (isos: seq<int>)
    ensures Increasing(isos)
  {
    var u := Unique(Flatten(g));
    if |u| == 0 then [] else u[..|u| - 1]
  }

  /** The last distinct value is the maximum. */
  lemma UniqueLast(vals: seq<int>)
    requires |vals| > 0
    ensures |Unique(vals)| > 0 && Unique(vals)[|Unique(vals)| - 1] == MaxInt(vals)
  {
    var u := Unique(vals);
    var top := MaxInt(vals);
    assert vals[0] in u;
    forall e | e in u ensures e <= top {
      var l :| 0 <= l < |vals| && vals[l] == e;
    }
    LastIsMax(u, top);
  }

  /** In an increasing list whose values are all at most top, a top that
      occurs is the last value. */
  lemma LastIsMax(u: seq<int>, top: int)
    requires Increasing(u) && top in u
    requires forall e :: e in u ==> e <= top
    ensures u[|u| - 1] == top
  {
    var t :| 0 <= t < |u| && u[t] == top;
    assert u[|u| - 1] in u;
    assert u[t] <= u[|u| - 1];
  }

  /** The threshold values are exactly the values of the image below its
      largest one: each is a value of the image, each is below the maximum,
      and every smaller value of the image is one of them. */
  lemma IsoValuesExact(g: Vol<int>)
    requires |Flatten(g)| > 0
    ensures var isos := IsoValues(g); var top := MaxInt(Flatten(g));
      && (forall i :: 0 <= i < |isos| ==> isos[i] in Flatten(g) && isos[i] < top)
      && (forall e :: e in Flatten(g) && e < top ==> e in isos)
      && |isos| == |Unique(Flatten(g))| - 1
  {
    var u := Unique(Flatten(g));
    UniqueLast(Flatten(g));
    DropLast(u, IsoValues(g));
  }

  /** Dropping the last value of an increasing list keeps exactly the values
      below the last one. */
  lemma DropLast(u: seq<int>, p: seq<int>)
    requires |u| > 0 && Increasing(u) && p == u[..|u| - 1]
    ensures forall i :: 0 <= i < |p| ==> p[i] in u && p[i] < u[|u| - 1]
    ensures forall e :: e in u && e < u[|u| - 1] ==> e in p
  {
    forall e | e in u && e < u[|u| - 1] ensures e in p {
      var t :| 0 <= t < |u| && u[t] == e;
      assert p[t] == e;
    }
  }

  /** (geodists <= iso).astype(np.uint8). */
  function IsoMask(g: Vol<int>, s: Shape, iso: int): (m: Vol<int>)
    requires HasShape(g, s)
    ensures HasShape(m, s)
  {
    seq(s.nz, z requires 0 <= z < s.nz =>
      seq(s.ny, y requires 0 <= y < s.ny =>
        seq(s.nx, x requires 0 <= x < s.nx => if g[z][y][x] <= iso then 1 else 0)))
  }

  /** One mask per threshold, in the order of the thresholds. */
  function IsoMasks(g: Vol<int>, s: Shape): (ms: seq<Vol<int>>)
    requires HasShape(g, s)
    ensures |ms| == |IsoValues(g)|
    ensures forall i :: 0 <= i < |ms| ==> ms[i] == IsoMask(g, s, IsoValues(g)[i])
  {
    var isos := IsoValues(g);
    seq(|isos|, i requires 0 <= i < |isos| => IsoMask(g, s, isos[i]))
  }

  /** The masks are nested: a later mask contains every voxel of an earlier
      one, and no mask contains a voxel holding the largest value. */
  lemma IsoMasksNested(g: Vol<int>, s: Shape, i: int, j: int)
    requires HasShape(g, s) && 0 <= i <= j < |IsoValues(g)|
    ensures forall z, y, x :: InBox(z, y, x, s) ==>
      IsoMasks(g, s)[i][z][y][x] <= IsoMasks(g, s)[j][z][y][x]
    ensures forall z, y, x :: InBox(z, y, x, s) && g[z][y][x] == MaxInt(Flatten(g)) ==>
      IsoMasks(g, s)[j][z][y][x] == 0
  {
    var isos := IsoValues(g);
    assert |Flatten(g)| > 0 by {
      var u := Unique(Flatten(g));
      assert u[0] in Flatten(g);
    }
    IsoValuesExact(g);
    assert isos[i] <= isos[j] < MaxInt(Flatten(g));
    var ms := IsoMasks(g, s);
    assert ms[i] == IsoMask(g, s, isos[i]) && ms[j] == IsoMask(g, s, isos[j]);
    forall z, y, x | InBox(z, y, x, s)
      ensures ms[i][z][y][x] <= ms[j][z][y][x]
      ensures g[z][y][x] == MaxInt(Flatten(g)) ==> ms[j][z][y][x] == 0
    {
      IsoMaskElem(g, s, isos[i], z, y, x);
      IsoMaskElem(g, s, isos[j], z, y, x);
    }
  }

  /** One voxel of a mask: 1 at or below the threshold, 0 above it. */
  lemma IsoMaskElem(g: Vol<int>, s: Shape, iso: int, z: int, y: int, x: int)
    requires HasShape(g, s) && InBox(z, y, x, s)
    ensures IsoMask(g, s, iso)[z][y][x] == if g[z][y][x] <= iso then 1 else 0
  {
  }
}
