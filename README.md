# cytoparam core, modelled in Dafny

This project models the self-contained array and index logic of
`aicscytoparam/cytoparam.py`, the cytoplasm parameterisation of
aicscytoparam, and proves properties of it. A cell is given as a membrane
segmentation and a nucleus segmentation. The code:

1. crops both images to the box of the nonzero membrane voxels;
2. relaxes a heat equation between Dirichlet sets to get a field that grows
   from the nuclear centroid to the membrane;
3. cuts the log of that field into geodesic bands;
4. picks the iso-thresholds of the band image;
5. schedules the spherical-harmonics coefficient vectors of the shells
   between the centre, the nucleus and the membrane;
6. joins the shells into traces, either raw or resampled by chord length;
7. probes images at mesh points;
8. voxelizes a sequence of meshes;
9. averages point arrays over several meshes and translates meshes.

Numbers are exact: `int` for labels and indices, `real` for fields and
coordinates. Where the code depends on integer width (the uint8 cast of the
band image, the uint8 accumulation of stencils) the wrap-around modulo 256
is written out. Where the code changes arrays or objects in place, the model
does too:

- `array3` for the relaxed field and the band images (`HeatSolver.HeatStep`,
  `HeatSolver.Impose`, `GeodesicBinner.ApplyLog`, `GeodesicBinner.CastToByte`,
  `Voxelizer.AddStencil` and the others);
- the `Meshes.PolyData` class for `vtkPolyData` (points, polylines, named
  point arrays).

Each such method is proved against a function of the old state. The
properties are proved about those functions.

Library results become inputs:

- the distance transform's maximum, the three boundary sets and the rounded
  centroid of `get_geodesics` (`GeodesicBinner.Given`);
- the logarithm;
- the distance used for chord lengths;
- the 0/1 stencil of every mesh in `voxelize_meshes`;
- the contents of the source files in `copy_content`
  (`SignalAverager.Source`; a source that does not exist is `Missing`).

Modules, one per file:

| file | module | code |
|---|---|---|
| common.dfy | Common | errors, results, points, volumes, truncation, sums, extrema |
| crop.dfy | Cropper | `get_croppped_version` |
| heat.dfy | HeatSolver | `heat_eq_step`, the Dirichlet loop of `get_geodesics` |
| bands.dfy | GeodesicBinner | `get_geodesics` after the crop: log, digitize, centroid, uint8, sentinel, paste |
| isolevels.dfy | IsoLevels | the threshold list and masks of `get_geodesic_meshes` |
| interpolation.dfy | Interpolation | `numpy.linspace(0, 1, n)` and linear `interp1d` |
| shells.dfy | ShellInterpolator | the coefficient schedule of `get_equipotential_surfaces_from_sh_coeffs` |
| meshes.dfy | Meshes | `vtkPolyData`, `prob_image`, `translate_mesh` |
| traces.dfy | Traces | `get_traces`, `interpolate_this_trace`, `get_traces_` |
| voxelizer.dfy | Voxelizer | the box and the accumulation of `voxelize_meshes` |
| averager.dfy | SignalAverager | `copy_content` |

Several functions are written as `FAt(..., stage)` next to a plain `F`.
Every stage gives the same value; the stage only keeps a large body out of
proofs that do not need it. Their contracts are stated on the `...At`
member, which is the one named below.

On these points the model follows the code as written:

- The crop slices `mem[zmin:zmax, ...]` with the largest nonzero coordinate
  as an exclusive end, so the last nonzero plane, row and column are cut
  off. `Cropper.CropAt` states the slice as written.
- With `normalize`, `copy_content` divides each array by its maximum when
  that maximum is positive. So a single source is returned unchanged only
  without normalisation (`SignalAverager.SingleSourceIdentity`).
- Voxels outside the crop take `geodists.max()` after the sentinel was
  written. This is the sentinel itself only when the cropped image had a
  zero voxel.
- `voxelize_meshes` accumulates in uint8, so the count wraps at 256 meshes.
  `Voxelizer.AccumulatedCounts` states the count for fewer than 256 meshes.

## Model

| member | source | states |
|---|---|---|
| Common.Trunc | aicscytoparam/cytoparam.py:359-360 | `int()` / `astype(int)` truncates toward zero: t <= r < t + 1 for r >= 0 and t - 1 < r <= t for r < 0 |
| Common.MaxInt | aicscytoparam/cytoparam.py:16-20 | `.max()` of a nonempty list is one of its entries and bounds every entry |
| Common.MinInt | aicscytoparam/cytoparam.py:15-19 | `.min()` of a nonempty list is one of its entries and is below every entry |
| Common.MaxReal | aicscytoparam/cytoparam.py:360 | `coords.max()` is one of the coordinates and bounds every one |
| Common.MinReal | aicscytoparam/cytoparam.py:359 | `coords.min()` is one of the coordinates and is below every one |
| Common.SumMonotone | aicscytoparam/cytoparam.py:229-231 | a cumulative sum of nonnegative terms never decreases |
| Cropper.RowHitsSpec | aicscytoparam/cytoparam.py:14 | the nonzero positions listed for a row from column x on are exactly its nonzero cells at or after x |
| Cropper.PlaneHitsSpec | aicscytoparam/cytoparam.py:14 | the same for a plane from row y on |
| Cropper.VolHitsSpec | aicscytoparam/cytoparam.py:14 | the same for a volume from plane z on |
| Cropper.NonZero | aicscytoparam/cytoparam.py:14 | `numpy.where(mem)` lists exactly the nonzero voxels |
| Cropper.HitWithin | aicscytoparam/cytoparam.py:15-20 | every nonzero voxel lies between the minimum and maximum of each coordinate |
| Cropper.BoundsAttained | aicscytoparam/cytoparam.py:15-20 | each of the six bounds is the coordinate of some nonzero voxel |
| Cropper.BoundingBox | aicscytoparam/cytoparam.py:14-20 | the offsets span the nonzero voxels: all lie inside, and each bound is attained |
| Cropper.Slice | aicscytoparam/cytoparam.py:22-23 | `v[zmin:zmax, ymin:ymax, xmin:xmax]` has shape (zmax-zmin, ymax-ymin, xmax-xmin) and entry (i,j,k) is v at (zmin+i, ymin+j, xmin+k) |
| Cropper.SliceIsCrop | aicscytoparam/cytoparam.py:22-25 | slicing both images with the same offsets gives identically placed crops of that shape |
| Cropper.HitsInside | aicscytoparam/cytoparam.py:15-22 | offsets spanning the nonzero voxels are valid indices of the volume |
| Cropper.CropAt | aicscytoparam/cytoparam.py:12-25 | fails (empty membrane) exactly when `mem` is all zero; otherwise the offsets span the nonzero `mem` voxels, lie inside the volume, and both images are sliced identically with exclusive upper ends |
| HeatSolver.HeatStepElem | aicscytoparam/cytoparam.py:39-46 | after a step every interior cell is the mean of its six face neighbours' values before the step, and every face cell is unchanged |
| HeatSolver.HeatStep | aicscytoparam/cytoparam.py:27-48 | the in-place update of `omega` leaves the array equal to the simultaneous step applied to its old contents |
| HeatSolver.HeatStepUniform | aicscytoparam/cytoparam.py:39-46 | a constant field is a fixed point of the step |
| HeatSolver.HeatStepInRange | aicscytoparam/cytoparam.py:39-46 | a step keeps every value inside any interval that held the old values (maximum principle) |
| HeatSolver.AssignElem | aicscytoparam/cytoparam.py:89-91 | `omega[idx] = val` sets exactly the voxels of idx and keeps the rest |
| HeatSolver.Impose | aicscytoparam/cytoparam.py:98-100 | the in-place fancy-index assignment equals the value-level assignment of the old array |
| HeatSolver.ClampPriority | aicscytoparam/cytoparam.py:98-100 | after the three resets a voxel holds tmax if warm, else tmid if cold, else tmin if frozen, else its value: later sets win |
| HeatSolver.ClampInRange | aicscytoparam/cytoparam.py:98-100 | the resets keep values inside any interval containing the three temperatures |
| HeatSolver.Relax | aicscytoparam/cytoparam.py:74-100 | the array starts at tmid everywhere and after `steps` rounds of step-then-reset holds the iterated value-level field |
| HeatSolver.RoundInRange | aicscytoparam/cytoparam.py:96-100 | one round keeps the field within [tmin, tmax] |
| HeatSolver.IterateKeepsRange | aicscytoparam/cytoparam.py:94-100 | any number of rounds keeps a field within [tmin, tmax] |
| HeatSolver.IterateInRange | aicscytoparam/cytoparam.py:74-100 | the relaxed field lies within [tmin, tmax] when tmin <= tmid <= tmax |
| HeatSolver.BoundaryHeld | aicscytoparam/cytoparam.py:94-100 | after any number of rounds each boundary voxel holds its Dirichlet value, with warm over cold over frozen |
| GeodesicBinner.Digitize | aicscytoparam/cytoparam.py:111-113 | `numpy.digitize` returns a bin index between 0 and the number of edges |
| GeodesicBinner.DigitizeBracket | aicscytoparam/cytoparam.py:111-113 | for increasing edges the index counts the edges at or below x: those before it are <= x, those from it on are > x |
| GeodesicBinner.DigitizeNone | aicscytoparam/cytoparam.py:111-113 | a value below every edge gets bin 0 |
| GeodesicBinner.DigitizeMonotone | aicscytoparam/cytoparam.py:111-113 | the bin index is non-decreasing in the value |
| GeodesicBinner.Mask | aicscytoparam/cytoparam.py:62 | the mask has the image shape and values 0, 1 or 2 |
| GeodesicBinner.BandRange | aicscytoparam/cytoparam.py:111-113 | a nucleus band lies in [1, nisos+1], a cytoplasm band in [nisos+1, 2 nisos+1], other voxels 0 |
| GeodesicBinner.BandMonotone | aicscytoparam/cytoparam.py:111-113 | within one mask class the band is non-decreasing in the field value |
| GeodesicBinner.SetOneAt | aicscytoparam/cytoparam.py:115 | the centroid voxel holds 1 |
| GeodesicBinner.LabelAt | aicscytoparam/cytoparam.py:111-115 | each label: 1 at the centroid, 1 + digitize in the nucleus, nisos + 1 + digitize(v - 1) in the cytoplasm, 0 outside the cell |
| GeodesicBinner.LabelsBounded | aicscytoparam/cytoparam.py:111-115 | every label lies in [0, 2 nisos + 1] |
| GeodesicBinner.Wrap | aicscytoparam/cytoparam.py:117 | the uint8 cast gives values in [0, 256) |
| GeodesicBinner.WrapSmall | aicscytoparam/cytoparam.py:117 | the cast changes nothing on values in [0, 255] |
| GeodesicBinner.MaxOf | aicscytoparam/cytoparam.py:118 | `geodists.max()` bounds every voxel and is attained |
| GeodesicBinner.MaxBounded | aicscytoparam/cytoparam.py:118 | the maximum of values in [lo, hi] lies in [lo, hi] |
| GeodesicBinner.SentinelFacts | aicscytoparam/cytoparam.py:118 | for labels up to 254 no zero remains after the sentinel fill, values lie in [1, 255] and nonzero labels are kept |
| GeodesicBinner.FillIsMax | aicscytoparam/cytoparam.py:118 | a fill value above every voxel becomes the maximum where it is written |
| GeodesicBinner.SentinelIsMax | aicscytoparam/cytoparam.py:118 | the sentinel is the largest value of the filled image |
| GeodesicBinner.FillZerosAt | aicscytoparam/cytoparam.py:118 | the zero fill keeps every nonzero voxel |
| GeodesicBinner.ApplyLog | aicscytoparam/cytoparam.py:102-103 | in place: voxels outside the cell become 0, then every positive value is replaced by its logarithm |
| GeodesicBinner.FieldIsLog | aicscytoparam/cytoparam.py:88-103 | inside the cell the field is the logarithm of a relaxed value in [tmin, tmax], so it is taken of a positive number when tmin > 0 |
| GeodesicBinner.BandsInto | aicscytoparam/cytoparam.py:106-113 | the new array holds the band of every voxel |
| GeodesicBinner.SetCentroid | aicscytoparam/cytoparam.py:115 | in place: the centroid voxel becomes 1, nothing else changes |
| GeodesicBinner.CastToByte | aicscytoparam/cytoparam.py:117 | in place: every voxel is reduced modulo 256 |
| GeodesicBinner.FillZerosIn | aicscytoparam/cytoparam.py:118 | in place: every zero voxel takes the fill value, the others are kept |
| GeodesicBinner.PasteInto | aicscytoparam/cytoparam.py:120 | a zero volume of the full shape with the band image written into the crop box |
| GeodesicBinner.BandsOf | aicscytoparam/cytoparam.py:106-118 | the array steps (bands, centroid, cast, sentinel) give the value-level band image |
| GeodesicBinner.BandImageAt | aicscytoparam/cytoparam.py:57-118 | on the cropped images: fails on an empty crop or a mask without nucleus voxels (the centroid mean is undefined), and otherwise returns an image of the crop's shape |
| GeodesicBinner.BandImageOf | aicscytoparam/cytoparam.py:88-118 | the in-place pipeline (relax, log, bands, centroid, cast, sentinel) returns exactly the value-level band image or its error |
| GeodesicBinner.BandImageFacts | aicscytoparam/cytoparam.py:106-118 | with at most 126 edges the band image has values in [1, 255], keeps every nonzero label, and the voxels that were 0 hold the image maximum |
| GeodesicBinner.CentroidIsOne | aicscytoparam/cytoparam.py:115-118 | the nuclear centroid voxel of the band image is 1 |
| GeodesicBinner.FullImageFacts | aicscytoparam/cytoparam.py:120-122 | the full image holds the band image where it is nonzero, the band image's maximum outside the box, and nothing larger |
| GeodesicBinner.FullImageAt | aicscytoparam/cytoparam.py:120 | a nonzero band voxel appears at its offset position |
| GeodesicBinner.FullImageBounded | aicscytoparam/cytoparam.py:120-122 | bounds of a positive band image carry over to the full image |
| GeodesicBinner.GeodesicsSpec | aicscytoparam/cytoparam.py:50-124 | get_geodesics fails with the crop's error on an empty membrane and otherwise returns an image of the input shape |
| GeodesicBinner.GeodesicsBounded | aicscytoparam/cytoparam.py:117-122 | with at most 126 edges every voxel of the result lies in [1, 255]: no zero remains |
| GeodesicBinner.Geodesics | aicscytoparam/cytoparam.py:50-124 | the method (crop, in-place band image, paste, fill) returns exactly the value-level result |
| IsoLevels.Insert | aicscytoparam/cytoparam.py:156 | inserting into an increasing list keeps it increasing and adds exactly the value |
| IsoLevels.UniqueTo | aicscytoparam/cytoparam.py:156 | the distinct values of a prefix, in increasing order |
| IsoLevels.Unique | aicscytoparam/cytoparam.py:156 | `numpy.unique` is increasing and holds exactly the values of its input |
| IsoLevels.UniqueLast | aicscytoparam/cytoparam.py:156 | the last unique value is the maximum |
| IsoLevels.LastIsMax | aicscytoparam/cytoparam.py:156 | in an increasing list the last entry is its maximum |
| IsoLevels.IsoValues | aicscytoparam/cytoparam.py:156 | the thresholds are increasing |
| IsoLevels.DropLast | aicscytoparam/cytoparam.py:156 | dropping the last entry of an increasing list keeps exactly the entries below it |
| IsoLevels.IsoValuesExact | aicscytoparam/cytoparam.py:156 | the thresholds are exactly the distinct band values below the largest, one fewer than the distinct values |
| IsoLevels.IsoMask | aicscytoparam/cytoparam.py:162 | `(geodists <= iso)` has the image shape |
| IsoLevels.IsoMaskElem | aicscytoparam/cytoparam.py:162 | a mask voxel is 1 exactly when its band is at most the threshold |
| IsoLevels.IsoMasks | aicscytoparam/cytoparam.py:156-162 | one mask per threshold, in order |
| IsoLevels.IsoMasksNested | aicscytoparam/cytoparam.py:156-162 | the masks are nested (a later mask contains an earlier one), and the top band is in none |
| Interpolation.Linspace01 | aicscytoparam/cytoparam.py:206 | `linspace(0, 1, n)` has n values in [0, 1], starting at 0 and ending at 1 |
| Interpolation.LinspaceSorted | aicscytoparam/cytoparam.py:206 | its values are non-decreasing |
| Interpolation.LinspaceFacts | aicscytoparam/cytoparam.py:206 | the fractions i/d run from 0 to 1 and increase with i |
| Interpolation.FractionStrict | aicscytoparam/cytoparam.py:206 | the fractions increase strictly |
| Interpolation.FractionMonotone | aicscytoparam/cytoparam.py:206 | the fractions are monotone with ends 0 and 1 |
| Interpolation.SearchLeft | aicscytoparam/cytoparam.py:200 | the left search index splits the knots into those below s and the first at or above s |
| Interpolation.Upper | aicscytoparam/cytoparam.py:200 | for s in range, `interp1d` selects a strictly increasing knot pair that brackets s |
| Interpolation.Interp | aicscytoparam/cytoparam.py:200 | the interpolant returns one value per coordinate |
| Interpolation.LerpEnds | aicscytoparam/cytoparam.py:200 | the linear piece meets its two control values at its ends |
| Interpolation.LerpBetween | aicscytoparam/cytoparam.py:200 | the linear piece stays between its control values |
| Interpolation.InterpAtKnot | aicscytoparam/cytoparam.py:200 | at a knot the interpolant returns that knot's control vector |
| Interpolation.InterpBetween | aicscytoparam/cytoparam.py:200 | every coordinate lies between the coordinates of the bracketing controls |
| ShellInterpolator.SideFrom | aicscytoparam/cytoparam.py:208 | the search for k with 2 k² = nc finds one exactly when it exists |
| ShellInterpolator.LayoutSide | aicscytoparam/cytoparam.py:208 | `reshape(2, lmax+1, lmax+1)` succeeds exactly when nc = 2 k² for some k |
| ShellInterpolator.CentreCoeffs | aicscytoparam/cytoparam.py:190 | the centre control is [1, 0, ..., 0] of length nc |
| ShellInterpolator.Breakpoints | aicscytoparam/cytoparam.py:196-198 | the normalised cumulative sum [0, n_nuc, n_mem] runs from 0 to 1 through n_nuc / (n_nuc + n_mem), with strict steps exactly where the counts are positive |
| ShellInterpolator.ShellSchedule | aicscytoparam/cytoparam.py:184-220 | fails on a coefficient-count mismatch before anything else, and on a count that is not 2 k²; otherwise returns exactly 1 + n_nuc + n_mem shells of nc coefficients, each with a centroid exactly when centroids are given |
| ShellInterpolator.SampleValue | aicscytoparam/cytoparam.py:206 | sample i is i / (n_nuc + n_mem) |
| ShellInterpolator.SamplePiece | aicscytoparam/cytoparam.py:196-206 | samples up to n_nuc fall in the centre-to-nucleus piece, the rest in the nucleus-to-membrane piece |
| ShellInterpolator.ScheduleKnots | aicscytoparam/cytoparam.py:190-213 | shell 0 is the centre control, shell n_nuc the nucleus coefficients, the last shell the membrane coefficients, and likewise for the centroids |
| ShellInterpolator.ScheduleBetween | aicscytoparam/cytoparam.py:196-208 | every coefficient of an inner shell lies between centre and nucleus, and of an outer shell between nucleus and membrane |
| Meshes.AxisIndex | aicscytoparam/cytoparam.py:143 | a numpy index along an axis of length n is accepted exactly in [-n, n) and selects i or i + n |
| Meshes.VoxelOf | aicscytoparam/cytoparam.py:143 | the truncated point indexes the image exactly when each truncated coordinate is in [-dim, dim) |
| Meshes.ImgMin | aicscytoparam/cytoparam.py:134 | `img.min()` is an image value below every voxel |
| Meshes.Sampled | aicscytoparam/cytoparam.py:139-145 | one value per point |
| Meshes.SampledFacts | aicscytoparam/cytoparam.py:139-145 | each value is an image value at least `img.min()`: the minimum when indexing fails, otherwise the voxel at the truncated coordinates |
| Meshes.SampledInside | aicscytoparam/cytoparam.py:143 | a point inside the image reads the voxel at its truncated coordinates |
| Meshes.SampleInto | aicscytoparam/cytoparam.py:139-145 | the per-point loop produces exactly the sampled values |
| Meshes.ProbeOutcome | aicscytoparam/cytoparam.py:134 | probing fails only on an empty image, whose minimum raises |
| Meshes.ProbeImages | aicscytoparam/cytoparam.py:126-148 | in place: points and lines are kept, the arrays gain one named array per image in order until an empty image stops the loop |
| Meshes.ProbedArrays | aicscytoparam/cytoparam.py:133-146 | after a passing probe every image name holds one value per point, the last image of a name wins, and other arrays are kept |
| Meshes.Translated | aicscytoparam/cytoparam.py:497 | translation keeps the point count |
| Meshes.TranslateRoundTrip | aicscytoparam/cytoparam.py:497 | translating by d and then by -d restores the points |
| Meshes.TranslateRigid | aicscytoparam/cytoparam.py:497 | translation keeps every difference between two points |
| Meshes.TranslateMesh | aicscytoparam/cytoparam.py:490-501 | fails, changing nothing, unless dr has shape (1, 3); otherwise adds dr to every point in place and keeps lines and arrays |
| Traces.Column | aicscytoparam/cytoparam.py:297-301 | trace i holds point i of every mesh, in mesh order |
| Traces.GatherTrace | aicscytoparam/cytoparam.py:297-301 | the gathering loop builds exactly trace i |
| Traces.LineIds | aicscytoparam/cytoparam.py:303-309 | a line lists k consecutive point ids from its start |
| Traces.Lines | aicscytoparam/cytoparam.py:295-309 | line i lists the ids i K .. i K + K - 1 |
| Traces.LinesGrow | aicscytoparam/cytoparam.py:303-309 | each trace appends one line |
| Traces.Ramp | aicscytoparam/cytoparam.py:307-310 | the isoval of the k-th point of a line is k |
| Traces.Repeat | aicscytoparam/cytoparam.py:268 | a constant array of the given length |
| Traces.Steps | aicscytoparam/cytoparam.py:305-313 | one step per point |
| Traces.Running | aicscytoparam/cytoparam.py:305-313 | one running length per point |
| Traces.RunningStep | aicscytoparam/cytoparam.py:305-313 | the running length starts at the first point's distance from the origin and adds the distance from the previous point at each step |
| Traces.RunningMonotone | aicscytoparam/cytoparam.py:311-312 | the running length never decreases along a line |
| Traces.RunningStays | aicscytoparam/cytoparam.py:311-312 | it stays level exactly where two consecutive points coincide |
| Traces.RunningNext | aicscytoparam/cytoparam.py:311-313 | `dr` after iteration iso is the running length of point iso |
| Traces.PointBlocks | aicscytoparam/cytoparam.py:295-308 | the points of trace i form block i |
| Traces.IsovalBlocks | aicscytoparam/cytoparam.py:307-310 | the isovals of every trace are 0 .. K - 1 |
| Traces.LengthBlocks | aicscytoparam/cytoparam.py:305-312 | the lengths of trace i are its running lengths |
| Traces.RawPoints | aicscytoparam/cytoparam.py:295-308 | n traces give n K points |
| Traces.RawIsovals | aicscytoparam/cytoparam.py:307-310 | n traces give n K isovals |
| Traces.RawLengths | aicscytoparam/cytoparam.py:305-312 | n traces give n K lengths |
| Traces.RawGrow | aicscytoparam/cytoparam.py:295-313 | each trace appends its points, isovals and running lengths |
| Traces.AppendTrace | aicscytoparam/cytoparam.py:303-313 | the inner loop appends the trace's points, one line of their ids, the isovals 0 .. K - 1 and the running lengths |
| Traces.RawTraces | aicscytoparam/cytoparam.py:280-324 | get_traces: fails on no meshes or an empty probed image; otherwise the polydata holds n K points, n lines and the isoval and length arrays, plus the probed arrays |
| Traces.RawLayout | aicscytoparam/cytoparam.py:295-313 | position i K + k holds point i of mesh k, isoval k and the running length of that point, and line i lists it at k |
| Traces.Segments | aicscytoparam/cytoparam.py:230 | segment j is the distance from point j to point j + 1 |
| Traces.SegmentsFacts | aicscytoparam/cytoparam.py:230 | segments are nonnegative, and the first is positive when the first two points differ |
| Traces.Knots | aicscytoparam/cytoparam.py:229-234 | the normalised cumulative chord length has one knot per point |
| Traces.KnotsEnds | aicscytoparam/cytoparam.py:229-234 | the parameter starts at 0 and ends at 1 |
| Traces.KnotsSorted | aicscytoparam/cytoparam.py:229-234 | the parameter is non-decreasing |
| Traces.KnotStep | aicscytoparam/cytoparam.py:229-234 | it increases strictly exactly across a segment of positive length |
| Traces.KnotsFlat | aicscytoparam/cytoparam.py:229-234 | equal partial sums give equal knots |
| Traces.LastKnot | aicscytoparam/cytoparam.py:229-234 | the knot after the last positive segment is already 1 |
| Traces.KnotsEvaluable | aicscytoparam/cytoparam.py:238-239 | every s in [0, 1] can be interpolated |
| Traces.Coords | aicscytoparam/cytoparam.py:236 | the control vectors are the trace coordinates |
| Traces.ChordLength | aicscytoparam/cytoparam.py:229-233 | the total length is positive |
| Traces.ResamplePoints | aicscytoparam/cytoparam.py:236-239 | npts resampled points |
| Traces.InterpolateTraceAt | aicscytoparam/cytoparam.py:222-240 | fails exactly on a trace of fewer than two points; otherwise npts points and a positive total length |
| Traces.InterpolateFirst | aicscytoparam/cytoparam.py:238-239 | the first resampled point is the first point of the trace |
| Traces.InterpolateLast | aicscytoparam/cytoparam.py:238-239 | the last resampled point is the last point of the trace |
| Traces.LastSample | aicscytoparam/cytoparam.py:238-239 | the sample at parameter 1 is the last point of the trace, also after trailing zero-length chords |
| Traces.SampleAtKnot | aicscytoparam/cytoparam.py:238-239 | a sample taken at a knot that ends a chord of positive length is the trace point of that knot |
| Traces.LastPoint | aicscytoparam/cytoparam.py:229-239 | the point after the last positive segment is the last point |
| Traces.PointsFlat | aicscytoparam/cytoparam.py:230 | zero-length segments join equal points |
| Traces.SumFlat | aicscytoparam/cytoparam.py:229-231 | zero segments leave the cumulative sum unchanged |
| Traces.TotalMatchesRunning | aicscytoparam/cytoparam.py:229-233 | the total chord length is the last running length of get_traces minus the first point's distance from the origin |
| Traces.ResampledGrow | aicscytoparam/cytoparam.py:253-268 | appending the next resampling keeps the list in step with the traces |
| Traces.SampleBlocks | aicscytoparam/cytoparam.py:265-267 | block i holds the resampled points of trace i |
| Traces.TotalBlocks | aicscytoparam/cytoparam.py:268 | block i repeats the total length of trace i |
| Traces.SampledPoints | aicscytoparam/cytoparam.py:265-267 | n traces give n t points |
| Traces.SampledLengths | aicscytoparam/cytoparam.py:268 | n traces give n t lengths |
| Traces.SampledPointsGrow | aicscytoparam/cytoparam.py:265-267 | each trace appends its resampled points |
| Traces.SampledLengthsGrow | aicscytoparam/cytoparam.py:268 | each trace appends t copies of its total length |
| Traces.TraceAppended | aicscytoparam/cytoparam.py:261-268 | one iteration appends the trace's points, its total t times and one line of t ids |
| Traces.AppendSamples | aicscytoparam/cytoparam.py:263-268 | the inner loop appends the samples, one line of their ids and the total once per sample |
| Traces.ResampleNext | aicscytoparam/cytoparam.py:255-268 | one iteration of get_traces_: gathers trace i, resamples it and appends points, line and lengths |
| Traces.ResampleAll | aicscytoparam/cytoparam.py:253-268 | the loop succeeds exactly when there are two meshes or no points; then it holds the resampling of every trace and the concatenated points, lengths and lines |
| Traces.ResampledTraces | aicscytoparam/cytoparam.py:242-278 | get_traces_: no meshes, one mesh with points, or an empty probed image fail; otherwise the polydata holds the resampled points, one line per trace, the length array and the probed arrays |
| Traces.SampledIndex | aicscytoparam/cytoparam.py:263-267 | position i t + k holds sample k of trace i, and line i lists it |
| Traces.SampledTotal | aicscytoparam/cytoparam.py:268 | every sample of trace i carries the total length of trace i |
| Traces.SampledFirst | aicscytoparam/cytoparam.py:238-267 | the first sample of trace i is point i of the innermost mesh |
| Traces.SampledLast | aicscytoparam/cytoparam.py:238-267 | the last sample of trace i is point i of the outermost mesh |
| Traces.ResampledLast | aicscytoparam/cytoparam.py:238-239 | the last resampled point of trace i is point i of the outermost mesh |
| Traces.ResampledTotal | aicscytoparam/cytoparam.py:261-268 | the recorded total is the chord length of trace i |
| Traces.SampledLength | aicscytoparam/cytoparam.py:229-268 | the length array at i t + k is the chord length of trace i |
| Traces.SampledRunning | aicscytoparam/cytoparam.py:311 | that length equals get_traces' last running length minus the first point's distance from the origin |
| Voxelizer.XsOf | aicscytoparam/cytoparam.py:353-357 | the x column of the coordinates |
| Voxelizer.YsOf | aicscytoparam/cytoparam.py:353-357 | the y column of the coordinates |
| Voxelizer.ZsOf | aicscytoparam/cytoparam.py:353-357 | the z column of the coordinates |
| Voxelizer.LowerOf | aicscytoparam/cytoparam.py:359 | `rmin` is within half a voxel below every coordinate |
| Voxelizer.UpperOf | aicscytoparam/cytoparam.py:360 | `rmax` is at least `rmin` and within half a voxel above every coordinate |
| Voxelizer.Extent | aicscytoparam/cytoparam.py:362-364 | each dimension `2 + rmax - rmin` is at least 2 |
| Voxelizer.GridOf | aicscytoparam/cytoparam.py:347-371 | fails on no meshes or an empty first mesh, and otherwise gives a grid of dimensions >= 2 whose voxel centres cover every point of the first mesh |
| Voxelizer.Coverage | aicscytoparam/cytoparam.py:378-386 | the number of covering stencils among the first n lies in [0, n] |
| Voxelizer.AccumulatedElem | aicscytoparam/cytoparam.py:376-386 | after n rounds a voxel holds its coverage modulo 256 |
| Voxelizer.AddStencil | aicscytoparam/cytoparam.py:379-386 | in place: `img += seg` advances the image from n to n + 1 stencils |
| Voxelizer.Accumulate | aicscytoparam/cytoparam.py:376-386 | the zero image plus every stencil in order holds each voxel's coverage modulo 256 |
| Voxelizer.VoxelizeMeshes | aicscytoparam/cytoparam.py:347-391 | fails as the grid does; otherwise returns the accumulated image and `rmin` as origin |
| Voxelizer.AccumulatedCounts | aicscytoparam/cytoparam.py:376-386 | with fewer than 256 meshes every voxel counts the stencils covering it and lies in [0, len(meshes)] |
| Voxelizer.CoverageMonotone | aicscytoparam/cytoparam.py:378-386 | the count never decreases as stencils are added |
| Voxelizer.CoverageFull | aicscytoparam/cytoparam.py:378-386 | a voxel inside every stencil counts every mesh |
| SignalAverager.Check | aicscytoparam/cytoparam.py:452-464 | a source raises nothing for a name exactly when it is missing (skipped) or holds an array of that name with npts values, npts > 0 (the max of an empty array raises) |
| SignalAverager.SourceError | aicscytoparam/cytoparam.py:450-464 | no error exactly when the source supplies every name so far |
| SignalAverager.FirstError | aicscytoparam/cytoparam.py:436-464 | no error exactly when every source so far supplies every name |
| SignalAverager.FirstErrorFrom | aicscytoparam/cytoparam.py:436-464 | the first failing source's error is the error of the whole call |
| SignalAverager.SourceErrorFrom | aicscytoparam/cytoparam.py:450-464 | the first failing name's error is the error of its source |
| SignalAverager.Zeros | aicscytoparam/cytoparam.py:433-434 | the accumulators start at zero |
| SignalAverager.Contribution | aicscytoparam/cytoparam.py:462-465 | without normalisation or with a nonpositive maximum the array is added as is; with normalisation every value is at most 1 |
| SignalAverager.Plus | aicscytoparam/cytoparam.py:466 | `data[arr] += scalars` adds element by element |
| SignalAverager.Total | aicscytoparam/cytoparam.py:436-466 | the sum over the present sources has npts entries |
| SignalAverager.Average | aicscytoparam/cytoparam.py:474-477 | the average has npts entries |
| SignalAverager.AvgNameInjective | aicscytoparam/cytoparam.py:480 | different names give different `_avg` names |
| SignalAverager.AveragedStores | aicscytoparam/cytoparam.py:474-486 | every `name_avg` holds the average of its name |
| SignalAverager.AveragedKeys | aicscytoparam/cytoparam.py:474-486 | exactly the `name_avg` arrays are added |
| SignalAverager.AveragedKeeps | aicscytoparam/cytoparam.py:474-486 | every other array of the destination is kept |
| SignalAverager.SumSources | aicscytoparam/cytoparam.py:436-466 | the loop over the sources reports the first error of any existing source, or gives for every name the running sum over all sources, each of which supplies it |
| SignalAverager.AddSource | aicscytoparam/cytoparam.py:450-466 | the loop over names of one source reports its first error or adds each (normalised) array to its accumulator |
| SignalAverager.SourceAdded | aicscytoparam/cytoparam.py:436-466 | after a present source passes, the accumulators hold the totals over one more source |
| SignalAverager.AddAverages | aicscytoparam/cytoparam.py:474-486 | in place: each accumulator divided by the source count is added as `name_avg`, points and lines kept |
| SignalAverager.CopyContent | aicscytoparam/cytoparam.py:428-488 | fails exactly when some present source lacks a name, has the wrong length or an empty array, with the first such error and the destination untouched; otherwise the destination gains the averages and keeps points and lines |
| SignalAverager.SingleSourceIdentity | aicscytoparam/cytoparam.py:459-477 | one present source without normalisation is returned unchanged |
| SignalAverager.TotalMissing | aicscytoparam/cytoparam.py:436-438 | missing sources add nothing |
| SignalAverager.AllMissingZero | aicscytoparam/cytoparam.py:477 | when no source exists the averages are zero |
| SignalAverager.TotalAtMost | aicscytoparam/cytoparam.py:462-466 | with normalisation the total over n sources is at most n |
| SignalAverager.NormalizedAtMostOne | aicscytoparam/cytoparam.py:462-477 | with normalisation every average is at most 1 |

## Left out

- VTK objects and file I/O are not modelled. This covers `vtkPolyDataReader`, `vtkPoints`, `vtkCellArray`, `vtkFloatArray` and `numpy_to_vtk` / `vtk_to_numpy`, and `os.path.exists`. A polydata is `Meshes.PolyData` (points, lines, named arrays). A source file is a `SignalAverager.Source` that is either missing or carries its arrays.
- `voxelize_mesh` (the polygon-to-stencil rasterisation) is not part of this model. Its 0/1 stencil per mesh is an input of `Voxelizer.VoxelizeMeshes`.
- The spherical-harmonics library (`shparam.get_shcoeffs`, the `shtools` reconstructions) and `parametrize` are not part of this model. The schedule stops at the coefficient vectors and centroids of each shell.
- `get_geodesic_meshes` itself is not modelled: its loop only calls the library per threshold. The thresholds and masks are modelled.
- The distance transform, `find_boundaries`, `binary_dilation`, the centroid mean and its rounding are library work, and their results are inputs (`GeodesicBinner.Given`). The iteration count is `50 * dmax` with `dmax` given.
- `exp`, `log` and `sqrt` are not computed. The logarithm is a given function, and chord lengths use a given distance (`IsDistance`: nonnegative, zero only on equal points). The bin edges `exp(linspace^4)` are any given increasing list.
- Floating point is not modelled: all arithmetic is exact over `real`. This includes float32 accumulation in `copy_content` and NaN results.
- `GeodesicBinner.BandImageFacts`, `GeodesicBinner.GeodesicsBounded`: require at most 126 edges, so that no band reaches 256 before the uint8 cast. Above that the cast is still modelled (`GeodesicBinner.Wrap`), but no bound is stated.
- `Voxelizer.AccumulatedCounts`: the count is stated for fewer than 256 meshes; above that the uint8 sum wraps, which `Voxelizer.AccumulatedElem` states.
- `ShellInterpolator.ShellSchedule`: requires at least one nucleus shell. With none, the breakpoints repeat 0 (or divide 0 by 0), and `interp1d` produces NaN coefficients there.
- `Traces.InterpolateTraceAt`, `Traces.ResampleAll`, `Traces.ResampledTraces`: require the first two points of every trace to differ. Otherwise the first knot repeats 0, or the total is 0, and the code produces NaN samples.
- `SignalAverager.CopyContent`: requires at least one source. With none, the code divides the zero accumulators by 0 and stores NaN arrays.
- `SignalAverager.CopyContent`: source arrays are single-component; multi-component arrays give numpy shapes that the model does not represent.
- `GeodesicBinner.PasteInto`, `GeodesicBinner.Geodesics`: the output is `np.zeros_like(seg_mem)`, so the pasted labels and the outside fill are cast to the type of `seg_mem`. The model assumes `seg_mem` has an integer type that holds 0..255. A bool `seg_mem` would turn every label into True, and an int8 one would wrap labels above 127 to negative values; neither is modelled.
- `SignalAverager.AddSource`, `SignalAverager.CopyContent`: `scalars /= smax` divides the array in place, so the model assumes floating-point source arrays. With an integer-typed array, `normalize` and a positive maximum, numpy raises a casting error, which the model does not represent; it returns the normalised average instead.
- `HeatSolver.Relax`: takes the number of rounds as a parameter, not the distance transform that yields it.
- `Voxelizer.GridOf`: the VTK image setup (`SetDimensions`, `SetExtent`, filling the scalars with 1) is not modelled. Only the origin and the dimensions `(d, h, w)` of the grid are.
- The `__main__` block only prints and is not modelled.
