/** The coefficient schedule of get_equipotential_surfaces_from_sh_coeffs:
    spherical-harmonics coefficient vectors of the centre, the nucleus and
    the membrane are the controls of a piecewise-linear interpolation, and
    evenly spaced samples of it give one coefficient vector per shell. The
    reconstruction of a mesh from each vector belongs to the external
    spherical-harmonics library and is not part of this model. */
module ShellInterpolator {
  import opened Common
  import opened Interpolation

  /** The size 2*k*k of a coefficient array of shape (2, k, k). */
  function TwiceSquare(k: nat): nat { 2 * k * k }

  /** Search for the side k of the (2, k, k) layout from k = j on. */
  function SideFrom(nc: nat, j: nat): (r: Option<nat>)
    ensures r.Some? ==> TwiceSquare(r.value) == nc
    ensures r.None? ==> forall k :: j <= k <= nc ==> TwiceSquare(k) != nc
    decreases nc + 1 - j
  {
    if j > nc then None
    else if TwiceSquare(j) == nc then Some(j)
    else SideFrom(nc, j + 1)
  }

  /** The reshape to (2, lmax+1, lmax+1), with lmax = int(sqrt(nc/2) - 1),
      succeeds exactly when nc is twice a square k*k; the side is then
      k = lmax + 1. */
  function LayoutSide(nc: nat): (r: Option<nat>)
    ensures r.Some? ==> TwiceSquare(r.value) == nc
    ensures r.None? ==> forall k: nat :: TwiceSquare(k) != nc
  {
    var r := SideFrom(nc, 0);
    assert r.None? ==> forall k: nat :: TwiceSquare(k) != nc by {
      if r.None? {
        forall k: nat ensures TwiceSquare(k) != nc {
          if k > nc { assert k * k >= k; }
        }
      }
    }
    r
  }

  /** The coefficients of the centre shell: 1 for the first entry, 0 elsewhere. */
  function CentreCoeffs(nc: nat): (c: seq<real>)
    ensures |c| == nc
    ensures forall i :: 0 <= i < nc ==> c[i] == (if i == 0 then 1.0 else 0.0)
  {
    seq(nc, i requires 0 <= i < nc => if i == 0 then 1.0 else 0.0)
  }

  /** The knots cumsum([0, nNuc, nMem]) / (nNuc + nMem). */
  function Breakpoints(nNuc: nat, nMem: nat): (xs: seq<real>)
    requires nNuc + nMem > 0
    ensures |xs| == 3 && Sorted(xs)
    ensures xs[0] == 0.0 && xs[2] == 1.0
    ensures xs[0] < xs[1] <==> nNuc > 0
    ensures xs[1] < xs[2] <==> nMem > 0
    ensures xs[1] == (nNuc as real) / ((nNuc + nMem) as real)
  {
    var t := (nNuc + nMem) as real;
    var xs := [0.0 / t, (nNuc as real) / t, t / t];
    DivMonotone(0.0, nNuc as real, t);
    DivMonotone(nNuc as real, t, t);
    assert (nNuc as real) / t * t == nNuc as real;
    assert t / t * t == t;
    xs
  }

  datatype Knots = Knots(atCentre: Point, atNucleus: Point, atMembrane: Point)

  /** One shell of the schedule: its coefficient vector and, when centroids
      are given, the displacement its mesh is translated by. */
  datatype Shell = Shell(coeffs: seq<real>, centroid: Option<Point>)

  /** The shell at sample s. */
  function ShellAt(xs: seq<real>, controls: seq<seq<real>>, nc: nat, centroids: Option<Knots>, s: real): Shell
    requires |xs| == 3 && Evaluable(xs, s) && Controls(xs, controls, nc)
  {
    var coeffs := Interp(xs, controls, nc, s);
    match centroids
    case None => Shell(coeffs, None)
    case Some(k) =>
      Shell(coeffs, Some(AsPoint(Interp(xs, [AsVector(k.atCentre), AsVector(k.atNucleus), AsVector(k.atMembrane)], 3, s))))
  }

  /** get_equipotential_surfaces_from_sh_coeffs without the reconstruction:
      the list of shells, or the error the code raises. The code produces
      NaN coefficients for an empty nucleus count, which is excluded. */
  function ShellSchedule(mem: seq<real>, nuc: seq<real>, nNuc: nat, nMem: nat, centroids: Option<Knots>): (r: Result<seq<Shell>>)
    requires nNuc >= 1
    ensures |mem| != |nuc| ==> r == Err(CoefficientCountMismatch(|mem|, |nuc|))
    ensures |mem| == |nuc| && LayoutSide(|mem|).None? ==> r == Err(CoefficientLayout(|mem|))
    ensures r.Ok? <==> |mem| == |nuc| && LayoutSide(|mem|).Some?
    ensures r.Ok? ==> |r.value| == 1 + nNuc + nMem
    ensures r.Ok? ==> forall i :: 0 <= i < |r.value| ==> |r.value[i].coeffs| == |mem|
    ensures r.Ok? ==> forall i :: 0 <= i < |r.value| ==> (r.value[i].centroid.Some? <==> centroids.Some?)
  {
    if |mem| != |nuc| then Err(CoefficientCountMismatch(|mem|, |nuc|))
    else if LayoutSide(|mem|).None? then Err(CoefficientLayout(|mem|))
    else
      var nc := |mem|;
      var xs := Breakpoints(nNuc, nMem);
      var controls := [CentreCoeffs(nc), nuc, mem];
      var samples := Linspace01(1 + nNuc + nMem);
      Ok(seq(1 + nNuc + nMem, i requires 0 <= i < 1 + nNuc + nMem => ShellAt(xs, controls, nc, centroids, samples[i])))
  }

  /** Sample i of the schedule is i / (nNuc + nMem). */
  lemma SampleValue(nNuc: nat, nMem: nat, i: nat)
    requires nNuc >= 1 && i <= nNuc + nMem
    ensures Linspace01(1 + nNuc + nMem)[i] == Fraction(i, nNuc + nMem)
  {
  }

  /** The three knots of the schedule are hit exactly: shell 0 is the centre
      vector [1, 0, ..., 0], shell nNuc carries the nucleus coefficients, and
      the last shell the membrane coefficients (the nucleus ones when there
      are no membrane steps). The centroids follow the same pattern. */
  lemma {:induction false} ScheduleKnots(mem: seq<real>, nuc: seq<real>, nNuc: nat, nMem: nat, centroids: Option<Knots>)
    requires nNuc >= 1 && |mem| == |nuc| && LayoutSide(|mem|).Some?
    ensures var r := ShellSchedule(mem, nuc, nNuc, nMem, centroids);
      && r.Ok?
      && r.value[0].coeffs == CentreCoeffs(|mem|)
      && r.value[nNuc].coeffs == nuc
      && r.value[nNuc + nMem].coeffs == (if nMem > 0 then mem else nuc)
      && (centroids.Some? ==>
            && r.value[0].centroid == Some(centroids.value.atCentre)
            && r.value[nNuc].centroid == Some(centroids.value.atNucleus)
            && r.value[nNuc + nMem].centroid == Some(if nMem > 0 then centroids.value.atMembrane else centroids.value.atNucleus))
  {
    var nc := |mem|;
    var xs := Breakpoints(nNuc, nMem);
    var controls := [CentreCoeffs(nc), nuc, mem];
    var samples := Linspace01(1 + nNuc + nMem);
    var r := ShellSchedule(mem, nuc, nNuc, nMem, centroids);
    SampleValue(nNuc, nMem, nNuc);
    assert samples[0] == xs[0] && samples[nNuc] == xs[1];
    assert samples[nNuc + nMem] == 1.0;
    InterpAtKnot(xs, controls, nc, 0);
    InterpAtKnot(xs, controls, nc, 1);
    var last := if nMem > 0 then 2 else 1;
    InterpAtKnot(xs, controls, nc, last);
    assert r.value[0] == ShellAt(xs, controls, nc, centroids, xs[0]);
    assert r.value[nNuc] == ShellAt(xs, controls, nc, centroids, xs[1]);
    assert r.value[nNuc + nMem] == ShellAt(xs, controls, nc, centroids, xs[last]);
    if centroids.Some? {
      var k := centroids.value;
      var cs := [AsVector(k.atCentre), AsVector(k.atNucleus), AsVector(k.atMembrane)];
      InterpAtKnot(xs, cs, 3, 0);
      InterpAtKnot(xs, cs, 3, 1);
      InterpAtKnot(xs, cs, 3, last);
    }
  }

  /** Sample i falls in the first piece up to i = nNuc and in the second after. */
  lemma SamplePiece(nNuc: nat, nMem: nat, i: nat)
    requires nNuc >= 1 && i <= nNuc + nMem
    ensures Evaluable(Breakpoints(nNuc, nMem), Linspace01(1 + nNuc + nMem)[i])
    ensures Upper(Breakpoints(nNuc, nMem), Linspace01(1 + nNuc + nMem)[i]) == if i <= nNuc then 1 else 2
  {
    var xs := Breakpoints(nNuc, nMem);
    var t := nNuc + nMem;
    SampleValue(nNuc, nMem, i);
    assert xs[1] == Fraction(nNuc, t);
    FractionMonotone(0, i, t);
    if i <= nNuc {
      FractionMonotone(i, nNuc, t);
    } else {
      FractionStrict(nNuc, i, t);
    }
    if i > 0 {
      FractionStrict(0, i, t);
    }
  }

  /** Between the knots every coefficient moves monotonically: shells up to
      nNuc lie between the centre and the nucleus vectors, shells from nNuc
      on between the nucleus and the membrane vectors. */
  lemma ScheduleBetween(mem: seq<real>, nuc: seq<real>, nNuc: nat, nMem: nat, centroids: Option<Knots>, i: nat, c: nat)
    requires nNuc >= 1 && |mem| == |nuc| && LayoutSide(|mem|).Some?
    requires i <= nNuc + nMem && c < |mem|
    ensures ShellSchedule(mem, nuc, nNuc, nMem, centroids).Ok?
    ensures i <= nNuc ==> Within(ShellSchedule(mem, nuc, nNuc, nMem, centroids).value[i].coeffs[c], CentreCoeffs(|mem|)[c], nuc[c])
    ensures i >= nNuc ==> Within(ShellSchedule(mem, nuc, nNuc, nMem, centroids).value[i].coeffs[c], nuc[c], mem[c])
  {
    var nc := |mem|;
    var xs := Breakpoints(nNuc, nMem);
    var controls := [CentreCoeffs(nc), nuc, mem];
    var s := Linspace01(1 + nNuc + nMem)[i];
    SamplePiece(nNuc, nMem, i);
    InterpBetween(xs, controls, nc, s, c);
    var r := ShellSchedule(mem, nuc, nNuc, nMem, centroids);
    assert r.value[i] == ShellAt(xs, controls, nc, centroids, s);
    if i == nNuc {
      ScheduleKnots(mem, nuc, nNuc, nMem, centroids);
    }
  }

  /** v lies between a and b, in whichever order they come. */
  predicate Within(v: real, a: real, b: real)
  {
    (a <= b ==> a <= v <= b) && (b <= a ==> b <= v <= a)
  }
}
