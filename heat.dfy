/** The heat relaxation behind the geodesic distance estimate: a synchronous
    six-neighbour averaging step on the interior of a 3-D field, alternated
    with re-imposing the Dirichlet values on three boundary sets. */
module HeatSolver {
  import opened Common

  /** The Dirichlet data: three voxel sets (as numpy.where lists them) and
      the value each is held at. The code uses exp(0), exp(1) and exp(2). */
  datatype Boundary = Boundary(freez: set<Voxel>, colds: set<Voxel>, warms: set<Voxel>,
                               tmin: real, tmid: real, tmax: real)

  /** The cells the slice [1:-1, 1:-1, 1:-1] selects. */
  predicate Interior(z: int, y: int, x: int, s: Shape)
  {
    1 <= z < s.nz - 1 && 1 <= y < s.ny - 1 && 1 <= x < s.nx - 1
  }

  /** Mean of the six face neighbours of an interior cell. */
  function NeighbourMean(v: Vol<real>, s: Shape, z: int, y: int, x: int): real
    requires HasShape(v, s) && Interior(z, y, x, s)
  {
    (v[z][y][x - 1] + v[z][y][x + 1] + v[z][y - 1][x] + v[z][y + 1][x] + v[z + 1][y][x] + v[z - 1][y][x]) / 6.0
  }

  /** heat_eq_step on values: interior cells take the mean of their
      neighbours' previous values, cells on the outer faces keep theirs. */
  function HeatStepSpec(v: Vol<real>, s: Shape): (w: Vol<real>)
    requires HasShape(v, s)
    ensures HasShape(w, s)
  {
    HeatStepAt(v, s, 1)
  }

  /** The heat step. Every stage gives the same field; a positive stage only
      keeps the comprehension out of proofs that go through HeatStepElem. */
  function HeatStepAt(v: Vol<real>, s: Shape, stage: nat): (w: Vol<real>)
    requires HasShape(v, s)
    ensures HasShape(w, s)
    decreases v, stage
  {
    if stage > 0 then HeatStepAt(v, s, stage - 1) else
    seq(s.nz, z requires 0 <= z < s.nz =>
      seq(s.ny, y requires 0 <= y < s.ny =>
        seq(s.nx, x requires 0 <= x < s.nx =>
          if Interior(z, y, x, s) then NeighbourMean(v, s, z, y, x) else v[z][y][x])))
  }

  /** One voxel of the heat step. */
  lemma HeatStepElem(v: Vol<real>, s: Shape, z: int, y: int, x: int)
    requires HasShape(v, s) && InBox(z, y, x, s)
    ensures HeatStepSpec(v, s)[z][y][x] ==
      if Interior(z, y, x, s) then NeighbourMean(v, s, z, y, x) else v[z][y][x]
  {
    assert HeatStepSpec(v, s) == HeatStepAt(v, s, 0);
  }

  /** heat_eq_step: the whole right-hand side is read before the interior is
      overwritten, which a forall statement expresses directly. */
  method HeatStep(omega: array3<real>)
    modifies omega
    ensures Snapshot(omega) == HeatStepSpec(old(Snapshot(omega)), Shape(omega.Length0, omega.Length1, omega.Length2))
  {
    var s := Shape(omega.Length0, omega.Length1, omega.Length2);
    ghost var before := Snapshot(omega);
    forall z, y, x | 1 <= z < s.nz - 1 && 1 <= y < s.ny - 1 && 1 <= x < s.nx - 1 {
      omega[z, y, x] := omega[z, y, x] + (
        (omega[z, y, x - 1] + omega[z, y, x + 1] + omega[z, y - 1, x] +
         omega[z, y + 1, x] + omega[z + 1, y, x] + omega[z - 1, y, x]) / 6.0 - omega[z, y, x]);
    }
    ghost var after := Snapshot(omega);
    forall z, y, x | InBox(z, y, x, s) ensures after[z][y][x] == HeatStepSpec(before, s)[z][y][x] {
      HeatStepElem(before, s, z, y, x);
      assert after[z][y][x] == omega[z, y, x];
      if Interior(z, y, x, s) {
        assert omega[z, y, x] == NeighbourMean(before, s, z, y, x);
      }
    }
    VolumesEqual(after, HeatStepSpec(before, s), s);
  }

  /** omega[idx] = val for an index set idx. */
  function Assign(v: Vol<real>, s: Shape, idx: set<Voxel>, val: real): (w: Vol<real>)
    requires HasShape(v, s)
    ensures HasShape(w, s)
  {
    AssignAt(v, s, idx, val, 1)
  }

  /** The assignment, staged as HeatStepAt is. */
  function AssignAt(v: Vol<real>, s: Shape, idx: set<Voxel>, val: real, stage: nat): (w: Vol<real>)
    requires HasShape(v, s)
    ensures HasShape(w, s)
    decreases v, stage
  {
    if stage > 0 then AssignAt(v, s, idx, val, stage - 1) else
    seq(s.nz, z requires 0 <= z < s.nz =>
      seq(s.ny, y requires 0 <= y < s.ny =>
        seq(s.nx, x requires 0 <= x < s.nx =>
          if Voxel(z, y, x) in idx then val else v[z][y][x])))
  }

  /** One voxel of the assignment. */
  lemma AssignElem(v: Vol<real>, s: Shape, idx: set<Voxel>, val: real, z: int, y: int, x: int)
    requires HasShape(v, s) && InBox(z, y, x, s)
    ensures Assign(v, s, idx, val)[z][y][x] == if Voxel(z, y, x) in idx then val else v[z][y][x]
  {
    assert Assign(v, s, idx, val) == AssignAt(v, s, idx, val, 0);
  }

  /** The three resets in the order the code performs them. */
  function Clamp(v: Vol<real>, s: Shape, bc: Boundary): (w: Vol<real>)
    requires HasShape(v, s)
    ensures HasShape(w, s)
  {
    Assign(Assign(Assign(v, s, bc.freez, bc.tmin), s, bc.colds, bc.tmid), s, bc.warms, bc.tmax)
  }

  /** Where the sets overlap the later reset wins: warm over cold over frozen. */
  lemma ClampPriority(v: Vol<real>, s: Shape, bc: Boundary, z: int, y: int, x: int)
    requires HasShape(v, s) && InBox(z, y, x, s)
    ensures Clamp(v, s, bc)[z][y][x] ==
      if Voxel(z, y, x) in bc.warms then bc.tmax
      else if Voxel(z, y, x) in bc.colds then bc.tmid
      else if Voxel(z, y, x) in bc.freez then bc.tmin
      else v[z][y][x]
  {
    var a := Assign(v, s, bc.freez, bc.tmin);
    var b := Assign(a, s, bc.colds, bc.tmid);
    AssignElem(v, s, bc.freez, bc.tmin, z, y, x);
    AssignElem(a, s, bc.colds, bc.tmid, z, y, x);
    AssignElem(b, s, bc.warms, bc.tmax, z, y, x);
  }

  /** omega[idx] = val on the array. */
  method Impose(omega: array3<real>, idx: set<Voxel>, val: real)
    modifies omega
    ensures Snapshot(omega) == Assign(old(Snapshot(omega)), Shape(omega.Length0, omega.Length1, omega.Length2), idx, val)
  {
    var s := Shape(omega.Length0, omega.Length1, omega.Length2);
    ghost var before := Snapshot(omega);
    forall z, y, x | 0 <= z < s.nz && 0 <= y < s.ny && 0 <= x < s.nx && Voxel(z, y, x) in idx {
      omega[z, y, x] := val;
    }
    forall z, y, x | InBox(z, y, x, s) ensures omega[z, y, x] == Assign(before, s, idx, val)[z][y][x] {
      AssignElem(before, s, idx, val, z, y, x);
    }
    VolumesEqual(Snapshot(omega), Assign(before, s, idx, val), s);
  }

  /** The field after the initial resets and n step-and-reset rounds. */
  function Iterate(v: Vol<real>, s: Shape, bc: Boundary, n: nat): (w: Vol<real>)
    requires HasShape(v, s)
    ensures HasShape(w, s)
  {
    if n == 0 then Clamp(v, s, bc) else Clamp(HeatStepSpec(Iterate(v, s, bc, n - 1), s), s, bc)
  }

  /** The relaxation in get_geodesics: a field filled with tmid, the three
      resets, then `steps` rounds of one heat step followed by the resets.
      The code runs 50 * dmax rounds; the count is an input here. */
  method Relax(s: Shape, bc: Boundary, steps: nat) returns (omega: array3<real>)
    ensures fresh(omega)
    ensures omega.Length0 == s.nz && omega.Length1 == s.ny && omega.Length2 == s.nx
    ensures Snapshot(omega) == Iterate(Constant(s, bc.tmid), s, bc, steps)
  {
    omega := new real[s.nz, s.ny, s.nx]((z, y, x) => bc.tmid);
    VolumesEqual(Snapshot(omega), Constant(s, bc.tmid), s);
    Impose(omega, bc.freez, bc.tmin);
    Impose(omega, bc.colds, bc.tmid);
    Impose(omega, bc.warms, bc.tmax);
    var run := 0;
    while run < steps
      invariant 0 <= run <= steps
      invariant Snapshot(omega) == Iterate(Constant(s, bc.tmid), s, bc, run)
    {
      HeatStep(omega);
      Impose(omega, bc.freez, bc.tmin);
      Impose(omega, bc.colds, bc.tmid);
      Impose(omega, bc.warms, bc.tmax);
      run := run + 1;
    }
  }

  /** Every value of v lies in [lo, hi]. */
  ghost predicate InRange(v: Vol<real>, s: Shape, lo: real, hi: real)
    requires HasShape(v, s)
  {
    forall z, y, x :: InBox(z, y, x, s) ==> lo <= v[z][y][x] <= hi
  }

  /** Maximum principle: averaging never leaves the range of the values. */
  lemma HeatStepInRange(v: Vol<real>, s: Shape, lo: real, hi: real)
    requires HasShape(v, s) && InRange(v, s, lo, hi)
    ensures InRange(HeatStepSpec(v, s), s, lo, hi)
  {
    var w := HeatStepSpec(v, s);
    forall z, y, x | InBox(z, y, x, s) ensures lo <= w[z][y][x] <= hi {
      HeatStepElem(v, s, z, y, x);
      if Interior(z, y, x, s) {
        assert InBox(z, y, x - 1, s) && InBox(z, y, x + 1, s) && InBox(z, y - 1, x, s);
        assert InBox(z, y + 1, x, s) && InBox(z + 1, y, x, s) && InBox(z - 1, y, x, s);
      }
    }
  }

  /** The resets keep the range when the three boundary values are in it. */
  lemma ClampInRange(v: Vol<real>, s: Shape, bc: Boundary, lo: real, hi: real)
    requires HasShape(v, s) && InRange(v, s, lo, hi)
    requires lo <= bc.tmin <= hi && lo <= bc.tmid <= hi && lo <= bc.tmax <= hi
    ensures InRange(Clamp(v, s, bc), s, lo, hi)
  {
    forall z, y, x | InBox(z, y, x, s) ensures lo <= Clamp(v, s, bc)[z][y][x] <= hi {
      ClampPriority(v, s, bc, z, y, x);
    }
  }

  /** Starting from tmid with tmin <= tmid <= tmax, every relaxed value stays
      within [tmin, tmax]; in particular it is positive when tmin is, so the
      logarithm the code takes next is defined. */
  lemma IterateInRange(s: Shape, bc: Boundary, n: nat)
    requires bc.tmin <= bc.tmid <= bc.tmax
    ensures InRange(Iterate(Constant(s, bc.tmid), s, bc, n), s, bc.tmin, bc.tmax)
  {
    var v0 := Constant(s, bc.tmid);
    assert InRange(v0, s, bc.tmin, bc.tmax);
    IterateKeepsRange(v0, s, bc, n);
  }

  /** Any number of rounds keeps a field inside [tmin, tmax] when it starts
      there. */
  lemma {:induction false} IterateKeepsRange(v: Vol<real>, s: Shape, bc: Boundary, n: nat)
    requires HasShape(v, s) && InRange(v, s, bc.tmin, bc.tmax)
    requires bc.tmin <= bc.tmid <= bc.tmax
    ensures InRange(Iterate(v, s, bc, n), s, bc.tmin, bc.tmax)
  {
    if n == 0 {
      ClampInRange(v, s, bc, bc.tmin, bc.tmax);
    } else {
      IterateKeepsRange(v, s, bc, n - 1);
      RoundInRange(Iterate(v, s, bc, n - 1), s, bc);
    }
  }

  /** One heat step followed by the resets keeps [tmin, tmax]. */
  lemma RoundInRange(w: Vol<real>, s: Shape, bc: Boundary)
    requires HasShape(w, s) && InRange(w, s, bc.tmin, bc.tmax)
    requires bc.tmin <= bc.tmid <= bc.tmax
    ensures InRange(Clamp(HeatStepSpec(w, s), s, bc), s, bc.tmin, bc.tmax)
  {
    HeatStepInRange(w, s, bc.tmin, bc.tmax);
    ClampInRange(HeatStepSpec(w, s), s, bc, bc.tmin, bc.tmax);
  }

  /** After every round the Dirichlet values hold on their sets. */
  lemma BoundaryHeld(v: Vol<real>, s: Shape, bc: Boundary, n: nat, z: int, y: int, x: int)
    requires HasShape(v, s) && InBox(z, y, x, s)
    ensures Voxel(z, y, x) in bc.warms ==> Iterate(v, s, bc, n)[z][y][x] == bc.tmax
    ensures Voxel(z, y, x) in bc.colds - bc.warms ==> Iterate(v, s, bc, n)[z][y][x] == bc.tmid
    ensures Voxel(z, y, x) in bc.freez - bc.colds - bc.warms ==> Iterate(v, s, bc, n)[z][y][x] == bc.tmin
  {
    if n == 0 {
      ClampPriority(v, s, bc, z, y, x);
    } else {
      ClampPriority(HeatStepSpec(Iterate(v, s, bc, n - 1), s), s, bc, z, y, x);
    }
  }

  /** A uniform field is a fixed point of the heat step. */
  lemma HeatStepUniform(s: Shape, c: real)
    ensures HeatStepSpec(Constant(s, c), s) == Constant(s, c)
  {
    var v := Constant(s, c);
    forall z, y, x | InBox(z, y, x, s) ensures HeatStepSpec(v, s)[z][y][x] == c {
      HeatStepElem(v, s, z, y, x);
      if Interior(z, y, x, s) {
        assert InBox(z, y, x - 1, s) && InBox(z, y, x + 1, s) && InBox(z, y - 1, x, s);
        assert InBox(z, y + 1, x, s) && InBox(z + 1, y, x, s) && InBox(z - 1, y, x, s);
      }
    }
    VolumesEqual(HeatStepSpec(v, s), v, s);
  }
}
