/** copy_content: named point arrays are read from a list of mesh files,
    optionally scaled by their maximum, summed per name and divided by the
    number of files, and the averages are added to a destination mesh under
    the name with "_avg" appended. */
module SignalAverager {
  import opened Common
  import opened Meshes

  /** A source file: absent (os.path.exists is false, so it is skipped but
      still counted), or the named point arrays of the mesh it holds. */
  datatype Source = Missing | Present(arrays: map<string, seq<real>>)

  /** A present source supplies a name when it holds an array of that name
      with one value per destination point, and that array has a maximum. */
  predicate Supplies(src: Source, name: string, npts: nat)
  {
    src.Missing? || (name in src.arrays && |src.arrays[name]| == npts && npts > 0)
  }

  /** The exception copy_content raises for one source and one name, in the
      order it checks: a missing array, a shape that differs from (npts,),
      then the max() of an empty array. */
  function Check(src: Source, name: string, npts: nat): (e: Option<Error>)
    ensures e.None? <==> Supplies(src, name, npts)
  {
    if src.Missing? then None
    else if name !in src.arrays then Some(MissingArray(name))
    else if |src.arrays[name]| != npts then Some(ShapeMismatch(|src.arrays[name]|, npts))
    else if npts == 0 then Some(EmptyArray(name))
    else None
  }

  /** The first exception among the first a names of one source. */
  function SourceError(src: Source, names: seq<string>, npts: nat, a: nat): (e: Option<Error>)
    requires a <= |names|
    ensures e.None? <==> forall b :: 0 <= b < a ==> Supplies(src, names[b], npts)
  {
    if a == 0 then None
    else if SourceError(src, names, npts, a - 1).Some? then SourceError(src, names, npts, a - 1)
    else Check(src, names[a - 1], npts)
  }

  /** The first exception over the first n sources, each checked name by
      name, as the two nested loops meet them. */
  function FirstError(sources: seq<Source>, names: seq<string>, npts: nat, n: nat): (e: Option<Error>)
    requires n <= |sources|
    ensures e.None? <==> forall k, b :: 0 <= k < n && 0 <= b < |names| ==> Supplies(sources[k], names[b], npts)
  {
    if n == 0 then None
    else if FirstError(sources, names, npts, n - 1).Some? then FirstError(sources, names, npts, n - 1)
    else SourceError(sources[n - 1], names, npts, |names|)
  }

  /** Every source supplies a name. */
  ghost predicate AllSupply(sources: seq<Source>, name: string, npts: nat, n: nat)
    requires n <= |sources|
  {
    forall k :: 0 <= k < n ==> Supplies(sources[k], name, npts)
  }

  function Zeros(n: nat): (r: seq<real>)
    ensures |r| == n && forall i :: 0 <= i < n ==> r[i] == 0.0
  {
    seq(n, i requires 0 <= i < n => 0.0)
  }

  /** The scalars one present source contributes: its array, divided by its
      maximum when normalising and that maximum is positive. */
  function Contribution(scalars: seq<real>, normalize: bool): (r: seq<real>)
    requires |scalars| > 0
    ensures |r| == |scalars|
    ensures !normalize || MaxReal(scalars) <= 0.0 ==> r == scalars
    ensures normalize ==> forall i :: 0 <= i < |r| ==> r[i] <= 1.0
  {
    var smax := MaxReal(scalars);
    if normalize && smax > 0.0 then
      var r := seq(|scalars|, i requires 0 <= i < |scalars| => scalars[i] / smax);
      assert forall i :: 0 <= i < |r| ==> r[i] <= 1.0 by {
        forall i | 0 <= i < |r| ensures r[i] <= 1.0 {
          DivAtMostOne(scalars[i], smax);
        }
      }
      r
    else scalars
  }

  lemma DivAtMostOne(a: real, m: real)
    requires a <= m && m > 0.0
    ensures a / m <= 1.0
  {
    var q := a / m;
    assert q * m == a;
  }

  function Plus(u: seq<real>, v: seq<real>): (r: seq<real>)
    requires |u| == |v|
    ensures |r| == |u| && forall i :: 0 <= i < |u| ==> r[i] == u[i] + v[i]
  {
    seq(|u|, i requires 0 <= i < |u| => u[i] + v[i])
  }

  /** data[arr] after the first n sources: the sum of what the present ones
      contribute. */
  function Total(sources: seq<Source>, name: string, npts: nat, normalize: bool, n: nat): (t: seq<real>)
    requires n <= |sources| && AllSupply(sources, name, npts, n)
    ensures |t| == npts
  {
    if n == 0 then Zeros(npts)
    else
      var prev := Total(sources, name, npts, normalize, n - 1);
      match sources[n - 1]
      case Missing => prev
      case Present(arrays) => Plus(prev, Contribution(arrays[name], normalize))
  }

  /** The array stored as name_avg: the total divided by len(sources). */
  function Average(sources: seq<Source>, name: string, npts: nat, normalize: bool): (avg: seq<real>)
    requires |sources| > 0 && AllSupply(sources, name, npts, |sources|)
    ensures |avg| == npts
  {
    var t := Total(sources, name, npts, normalize, |sources|);
    seq(npts, i requires 0 <= i < npts => t[i] / (|sources| as real))
  }

  /** The name of the averaged array. */
  function AvgName(name: string): string
  {
    name + "_avg"
  }

  lemma AvgNameInjective(a: string, b: string)
    requires AvgName(a) == AvgName(b)
    ensures a == b
  {
    assert |a| == |b|;
    assert a == AvgName(a)[..|a|] && b == AvgName(b)[..|b|];
  }

  /** The destination's point arrays after the first a averages are added. */
  function Averaged(m: map<string, seq<real>>, sources: seq<Source>, names: seq<string>, npts: nat,
                    normalize: bool, a: nat): map<string, seq<real>>
    requires |sources| > 0 && a <= |names|
    requires forall b :: 0 <= b < |names| ==> AllSupply(sources, names[b], npts, |sources|)
  {
    if a == 0 then m
    else Averaged(m, sources, names, npts, normalize, a - 1)[AvgName(names[a - 1]) := Average(sources, names[a - 1], npts, normalize)]
  }

  /** After the averages of the first a names are added, each name_avg holds
      the average of its name; a repeated name stores the same average. */
  lemma {:induction false} AveragedStores(m: map<string, seq<real>>, sources: seq<Source>, names: seq<string>, npts: nat,
                                          normalize: bool, a: nat)
    requires |sources| > 0 && a <= |names|
    requires forall b :: 0 <= b < |names| ==> AllSupply(sources, names[b], npts, |sources|)
    ensures var r := Averaged(m, sources, names, npts, normalize, a);
      forall b :: 0 <= b < a ==>
        AvgName(names[b]) in r && r[AvgName(names[b])] == Average(sources, names[b], npts, normalize)
  {
    if a > 0 {
      AveragedStores(m, sources, names, npts, normalize, a - 1);
      var r := Averaged(m, sources, names, npts, normalize, a);
      forall b | 0 <= b < a - 1 ensures r[AvgName(names[b])] == Average(sources, names[b], npts, normalize) {
        if AvgName(names[b]) == AvgName(names[a - 1]) {
          AvgNameInjective(names[b], names[a - 1]);
        }
      }
    }
  }

  /** Adding the averages of the first a names creates exactly their
      name_avg keys beside the destination's existing arrays. */
  lemma {:induction false} AveragedKeys(m: map<string, seq<real>>, sources: seq<Source>, names: seq<string>, npts: nat,
                                        normalize: bool, a: nat)
    requires |sources| > 0 && a <= |names|
    requires forall b :: 0 <= b < |names| ==> AllSupply(sources, names[b], npts, |sources|)
    ensures forall key :: key in Averaged(m, sources, names, npts, normalize, a) <==>
                          key in m || exists b :: 0 <= b < a && key == AvgName(names[b])
  {
    if a > 0 {
      AveragedKeys(m, sources, names, npts, normalize, a - 1);
    }
  }

  /** Every array of the destination whose name is not one of the new
      name_avg keys keeps its values. */
  lemma {:induction false} AveragedKeeps(m: map<string, seq<real>>, sources: seq<Source>, names: seq<string>, npts: nat,
                                         normalize: bool, a: nat)
    requires |sources| > 0 && a <= |names|
    requires forall b :: 0 <= b < |names| ==> AllSupply(sources, names[b], npts, |sources|)
    ensures var r := Averaged(m, sources, names, npts, normalize, a);
      forall key :: key in m && (forall b :: 0 <= b < a ==> key != AvgName(names[b])) ==> key in r && r[key] == m[key]
  {
    if a > 0 {
      AveragedKeeps(m, sources, names, npts, normalize, a - 1);
    }
  }

  /** copy_content. The destination gains one array name_avg per name with
      the average over all sources; sources that do not exist add nothing
      but still count in the division. Any missing array, shape mismatch or
      empty array raises before the destination is touched. */
  method CopyContent(sources: seq<Source>, destination: PolyData, names: seq<string>, normalize: bool)
    returns (out: Outcome)
    requires |sources| > 0
    modifies destination
    ensures var npts := |old(destination.points)|;
      && (out.Fail? <==> FirstError(sources, names, npts, |sources|).Some?)
      && (out.Fail? ==> out.error == FirstError(sources, names, npts, |sources|).value &&
                        destination.arrays == old(destination.arrays))
      && (out.Pass? ==>
            (forall b :: 0 <= b < |names| ==> AllSupply(sources, names[b], npts, |sources|)) &&
            destination.arrays == Averaged(old(destination.arrays), sources, names, npts, normalize, |names|))
    ensures destination.points == old(destination.points) && destination.lines == old(destination.lines)
  {
    var npts := |destination.points|;
    var e, data := SumSources(sources, names, npts, normalize);
    if e.Some? {
      return Fail(e.value);
    }
    AddAverages(sources, destination, names, npts, normalize, data);
    return Pass;
  }

  /** The loop over the sources: the running sum of every name over the
      existing sources, or the first error raised on the way. */
  method SumSources(sources: seq<Source>, names: seq<string>, npts: nat, normalize: bool)
    returns (e: Option<Error>, data: seq<seq<real>>)
    ensures e == FirstError(sources, names, npts, |sources|)
    ensures e.None? ==> |data| == |names|
    ensures e.None? ==> forall b :: 0 <= b < |names| ==> AllSupply(sources, names[b], npts, |sources|)
    ensures e.None? ==> forall b :: 0 <= b < |names| ==> data[b] == Total(sources, names[b], npts, normalize, |sources|)
  {
    data := seq(|names|, a requires 0 <= a < |names| => Zeros(npts));
    for k := 0 to |sources|
      invariant |data| == |names|
      invariant FirstError(sources, names, npts, k).None?
      invariant forall b :: 0 <= b < |names| ==> AllSupply(sources, names[b], npts, k)
      invariant forall b :: 0 <= b < |names| ==> data[b] == Total(sources, names[b], npts, normalize, k)
    {
      if sources[k].Present? {
        var err;
        err, data := AddSource(sources[k].arrays, names, npts, normalize, data);
        if err.Some? {
          FirstErrorFrom(sources, names, npts, k, |sources|);
          return err, data;
        }
        SourceAdded(sources, names, npts, normalize, k, data);
      }
    }
    return None, data;
  }

  /** The sums after source k has been added hold the totals over k + 1
      sources. */
  lemma SourceAdded(sources: seq<Source>, names: seq<string>, npts: nat, normalize: bool, k: nat, data: seq<seq<real>>)
    requires k < |sources| && sources[k].Present?
    requires FirstError(sources, names, npts, k).None?
    requires SourceError(sources[k], names, npts, |names|).None?
    requires forall b :: 0 <= b < |names| ==> AllSupply(sources, names[b], npts, k)
    requires |data| == |names|
    requires forall b :: 0 <= b < |names| ==>
      data[b] == Plus(Total(sources, names[b], npts, normalize, k), Contribution(sources[k].arrays[names[b]], normalize))
    ensures FirstError(sources, names, npts, k + 1).None?
    ensures forall b :: 0 <= b < |names| ==> AllSupply(sources, names[b], npts, k + 1)
    ensures forall b :: 0 <= b < |names| ==> data[b] == Total(sources, names[b], npts, normalize, k + 1)
  {
  }

  /** The loop over the names for one existing source: each array is
      checked, scaled when normalising and added to its running sum. The
      first failing check raises, and the sums are then of no further use. */
  method AddSource(arrays: map<string, seq<real>>, names: seq<string>, npts: nat, normalize: bool, data: seq<seq<real>>)
    returns (e: Option<Error>, sums: seq<seq<real>>)
    requires |data| == |names| && forall b :: 0 <= b < |names| ==> |data[b]| == npts
    ensures e == SourceError(Present(arrays), names, npts, |names|)
    ensures e.None? ==> |sums| == |names| && forall b :: 0 <= b < |names| ==>
      names[b] in arrays && |arrays[names[b]]| == npts > 0 &&
      sums[b] == Plus(data[b], Contribution(arrays[names[b]], normalize))
  {
    sums := data;
    for a := 0 to |names|
      invariant |sums| == |names|
      invariant SourceError(Present(arrays), names, npts, a).None?
      invariant forall b :: 0 <= b < a ==>
        names[b] in arrays && |arrays[names[b]]| == npts > 0 &&
        sums[b] == Plus(data[b], Contribution(arrays[names[b]], normalize))
      invariant forall b :: a <= b < |names| ==> sums[b] == data[b]
    {
      e := Check(Present(arrays), names[a], npts);
      if e.Some? {
        SourceErrorFrom(Present(arrays), names, npts, a, |names|);
        return;
      }
      var scalars := arrays[names[a]];
      var smax := MaxReal(scalars);
      if normalize && smax > 0.0 {
        scalars := seq(|scalars|, i requires 0 <= i < |scalars| => scalars[i] / smax);
      }
      sums := sums[a := Plus(sums[a], scalars)];
    }
    e := None;
  }

  /** The closing loop of copy_content: every sum is divided by
      len(sources) and stored in the destination as name_avg. */
  method AddAverages(sources: seq<Source>, destination: PolyData, names: seq<string>, npts: nat,
                     normalize: bool, data: seq<seq<real>>)
    requires |sources| > 0 && |data| == |names|
    requires forall b :: 0 <= b < |names| ==> AllSupply(sources, names[b], npts, |sources|)
    requires forall b :: 0 <= b < |names| ==> data[b] == Total(sources, names[b], npts, normalize, |sources|)
    modifies destination
    ensures destination.arrays == Averaged(old(destination.arrays), sources, names, npts, normalize, |names|)
    ensures destination.points == old(destination.points) && destination.lines == old(destination.lines)
  {
    for a := 0 to |names|
      invariant destination.arrays == Averaged(old(destination.arrays), sources, names, npts, normalize, a)
      invariant destination.points == old(destination.points) && destination.lines == old(destination.lines)
    {
      var avg := seq(npts, i requires 0 <= i < npts => data[a][i] / (|sources| as real));
      assert avg == Average(sources, names[a], npts, normalize);
      destination.arrays := destination.arrays[AvgName(names[a]) := avg];
    }
  }

  /** Once the sources before k pass and source k fails, the failure of
      source k is the first exception over any longer prefix. */
  lemma {:induction false} FirstErrorFrom(sources: seq<Source>, names: seq<string>, npts: nat, k: nat, n: nat)
    requires k < n <= |sources| && FirstError(sources, names, npts, k).None?
    requires SourceError(sources[k], names, npts, |names|).Some?
    ensures FirstError(sources, names, npts, n) == SourceError(sources[k], names, npts, |names|)
    decreases n
  {
    if n > k + 1 {
      FirstErrorFrom(sources, names, npts, k, n - 1);
    }
  }

  /** Once the first a names of a source pass and name a fails, that failure
      is the first exception of the source. */
  lemma {:induction false} SourceErrorFrom(src: Source, names: seq<string>, npts: nat, a: nat, c: nat)
    requires a < c <= |names| && SourceError(src, names, npts, a).None? && Check(src, names[a], npts).Some?
    ensures SourceError(src, names, npts, c) == Check(src, names[a], npts)
    decreases c
  {
    if c > a + 1 {
      SourceErrorFrom(src, names, npts, a, c - 1);
    }
  }

  /** One existing source, not normalised: every average is that source's
      array itself. */
  lemma SingleSourceIdentity(arrays: map<string, seq<real>>, name: string, npts: nat)
    requires Supplies(Present(arrays), name, npts)
    ensures AllSupply([Present(arrays)], name, npts, 1)
    ensures Average([Present(arrays)], name, npts, false) == arrays[name]
  {
    var sources := [Present(arrays)];
    var t := Total(sources, name, npts, false, 1);
    assert t == Plus(Total(sources, name, npts, false, 0), Contribution(arrays[name], false));
    var avg := Average(sources, name, npts, false);
    forall i | 0 <= i < npts ensures avg[i] == arrays[name][i] {
      assert avg[i] == t[i] / 1.0;
    }
  }

  /** Sources that are all missing give arrays of zeros. */
  lemma AllMissingZero(sources: seq<Source>, name: string, npts: nat, normalize: bool)
    requires |sources| > 0 && forall k :: 0 <= k < |sources| ==> sources[k].Missing?
    ensures AllSupply(sources, name, npts, |sources|)
    ensures Average(sources, name, npts, normalize) == Zeros(npts)
  {
    TotalMissing(sources, name, npts, normalize, |sources|);
  }

  lemma {:induction false} TotalMissing(sources: seq<Source>, name: string, npts: nat, normalize: bool, n: nat)
    requires n <= |sources| && forall k :: 0 <= k < n ==> sources[k].Missing?
    ensures AllSupply(sources, name, npts, n)
    ensures Total(sources, name, npts, normalize, n) == Zeros(npts)
  {
    if n > 0 {
      TotalMissing(sources, name, npts, normalize, n - 1);
    }
  }

  /** With normalisation every summed value is at most the number of
      sources read so far. */
  lemma {:induction false} TotalAtMost(sources: seq<Source>, name: string, npts: nat, n: nat)
    requires n <= |sources| && AllSupply(sources, name, npts, n)
    ensures forall i :: 0 <= i < npts ==> Total(sources, name, npts, true, n)[i] <= n as real
  {
    if n > 0 {
      TotalAtMost(sources, name, npts, n - 1);
    }
  }

  /** With normalisation every averaged value is at most 1. */
  lemma NormalizedAtMostOne(sources: seq<Source>, name: string, npts: nat)
    requires |sources| > 0 && AllSupply(sources, name, npts, |sources|)
    ensures forall i :: 0 <= i < npts ==> Average(sources, name, npts, true)[i] <= 1.0
  {
    TotalAtMost(sources, name, npts, |sources|);
    var t := Total(sources, name, npts, true, |sources|);
    forall i | 0 <= i < npts ensures Average(sources, name, npts, true)[i] <= 1.0 {
      DivAtMostOne(t[i], |sources| as real);
    }
  }
}
