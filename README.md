# Wafer map contour: the boundary extension, modelled in Dafny

`WaferMapContour.draw_map_contour` draws a colour map of a measurement taken
at scattered points of a wafer. Before it interpolates, it checks that the
lists `x`, `y`, `v` have equal length. Then it extends copies of them with four
synthetic samples on the wafer's rim, at (0,R), (0,-R), (R,0) and (-R,0) with
`R = wafer_size / 2`. Each synthetic sample takes the mean value of the
samples nearest to its reference point. Samples tied at the nearest distance
all count. A sample counts only if it lies no farther than `R` from the
reference point, because the running minimum starts at `R`. The routine then
takes the bounding box of the extended samples, fits a thin-plate
radial-basis interpolator to them, and takes the default display range
`[vc.min(), vc.max()]`.

The model has three modules:

- `Numeric` (numeric.dfy) holds the float values numpy produces (`Value = Num(real) | NaN`),
  the mean over a list of indices (NaN for an empty list, as `np.mean([])`),
  and `min`/`max`. The `Value` versions return NaN as soon as one entry is NaN,
  as numpy's do.
- `Boundary` (boundary.dfy) holds the boundary step. The inner scan is the method
  `ScanNearest`, a `for` loop that keeps the running minimum and the list of
  tied indices. It resets the list on a strict improvement and appends on an
  exact tie. It is proved equal to `NearestIndices`, a declarative reference
  definition: every sample within reach that no other sample beats, in index
  order. The outer loop over the four reference points is the method
  `ExtendBoundary`. It appends each reference point and its mean to the copies.
- `Contour` (contour.dfy) holds the routine up to the hand-off to the
  renderer: the length check as a `Failure` result, the extent, the fit's
  refusal of a NaN value as a second `Failure`, and the `vmin`/`vmax`
  defaults. The keyword arguments `vmin` and `vmax` are
  `Option<real>` parameters that default to `None`, and `wafer_size`
  defaults to 300 as in the source.

The model compares squared distances, so it needs no square root. The starting
minimum `R` becomes the threshold `R*R`, or -1 when `R` is negative; a negative
radius admits no sample. `ThresholdMatchesRadius` and `SquaringKeepsOrder`
prove that every `<` and `==` decision on squares is the same decision on
distances.

Because ties are all kept and averaged, the synthetic values do not depend on
the order of the samples (`BoundaryValueReordered`). A sample set that is
symmetric about an axis, with mirrored samples carrying equal values,
therefore gets equal values at the two reference points that axis swaps
(`SymmetricLeftRight`, `SymmetricTopBottom`).

A synthetic value is NaN when its reference point has no sample within `R`,
because `np.mean([])` of an empty list is NaN. This happens for every point
when the input is empty or `wafer_size` is negative. It also happens with
ordinary input: a lone sample at (0,-10) on a 300 wafer is 160 from (0,150).
The routine has no check of its own for any of these cases. It fails late, at
line 70: the thin-plate fit solves a linear system, and the solver raises
`ValueError` on a NaN entry. The model returns the `NonFiniteValue` failure at
that point (`NaNValueIffUnreached`, `DrawMapContour`). The display range is
therefore only ever taken over numbers.

With `wafer_size` 0 all four reference points are the centre
(`ReferencePointsOnRim`). The fit then faces coincident points and fails as
well; that failure is not modelled (see "Left out").

## Model

| member | source | states |
|---|---|---|
| `Contour.DrawMapContour` | wafer_map_contour.py:15-77 | `wafer_size` defaults to 300 and `vmin`/`vmax` to absent. Fails exactly when `len(x)`, `len(y)`, `len(v)` are not all equal (the input size error) or some reference point has no sample within R (the fit's NaN error). Otherwise it returns the extended lists (`ExtendedFrom`), which hold no NaN, and their extent. A given `vmin`/`vmax` is kept; each one left out is, on its own, the smallest or the largest extended value. |
| `Boundary.ExtendBoundary` | wafer_map_contour.py:36-59 | The outputs have length `len(x)+4`. Their first `len(x)` entries are `x`, `y`, `v` unchanged. Then come (0,R), (0,-R), (R,0), (-R,0) in that order, each with `BoundaryValue` for its reference point. |
| `Boundary.ScanNearest` | wafer_map_contour.py:45-54 | The tie list the scan leaves equals `NearestIndices`: every sample within distance R that no sample beats, in increasing index order. |
| `Boundary.NearestIndices` | wafer_map_contour.py:48-54 | Strictly increasing (sorted, no duplicates). Index k is in it if and only if sample k is within R and no sample is strictly nearer. |
| `Boundary.NoNearestIffOutOfReach` | wafer_map_contour.py:45-54 | The tie list is empty if and only if every sample is strictly farther than R from the reference point. |
| `Boundary.UniqueNearest` | wafer_map_contour.py:48-54 | A sample within reach that is strictly nearer than every other sample is the whole tie list. |
| `Boundary.BoundaryValueNaNIff` | wafer_map_contour.py:45-56 | A synthetic value is NaN if and only if no sample lies within R of its reference point. This includes empty input. |
| `Boundary.BoundaryValueInRange` | wafer_map_contour.py:55-56 | A synthetic value that is a number lies between `min(v)` and `max(v)`. |
| `Numeric.MeanWithinBounds` | wafer_map_contour.py:55-56 | The mean is NaN exactly for an empty index list. Otherwise it lies within any bounds of the averaged values. |
| `Boundary.ThresholdMatchesRadius` | wafer_map_contour.py:45-53 | For a distance d, comparing d*d with the squared threshold decides `d < R` and `d == R` as the unsquared comparison does, also for negative R. |
| `Boundary.SquaringKeepsOrder` | wafer_map_contour.py:49-53 | For two non-negative distances, `<` and `==` on their squares agree with `<` and `==` on the distances. |
| `Boundary.MirrorLeftRight` | wafer_map_contour.py:37-56 | Negating every x swaps the values synthesized at (R,0) and (-R,0). The values at (0,R) and (0,-R) stay the same. |
| `Boundary.MirrorTopBottom` | wafer_map_contour.py:37-56 | Negating every y swaps the values synthesized at (0,R) and (0,-R). The values at (R,0) and (-R,0) stay the same. |
| `Boundary.NearestPermuted` | wafer_map_contour.py:48-54 | When the samples are reordered by a permutation p, sample k is among the nearest after the reordering exactly when sample p[k] was before it. |
| `Boundary.BoundaryValueReordered` | wafer_map_contour.py:45-56 | Reordering `x`, `y` and `v` together by any permutation leaves every synthetic value unchanged. |
| `Boundary.SymmetricLeftRight` | wafer_map_contour.py:37-56 | If a permutation pairs every sample with its left-right mirror image of equal value, the values at (R,0) and (-R,0) are equal. |
| `Boundary.SymmetricTopBottom` | wafer_map_contour.py:37-56 | If a permutation pairs every sample with its top-bottom mirror image of equal value, the values at (0,R) and (0,-R) are equal. |
| `Numeric.SumAtReorder` | wafer_map_contour.py:55-56 | The sum behind `np.mean(min_value)` is the same for any two orderings of the same positions. |
| `Numeric.DistinctSameElements` | wafer_map_contour.py:48-54 | Two lists of indices without repetitions and with the same elements are reorderings of each other. |
| `Boundary.FourSampleScenario` | wafer_map_contour.py:37-59 | Take samples (-50,0,1), (50,0,2), (0,-50,3), (0,50,4) on a 300 wafer. The four synthetic values are 4, 3, 2, 1: each is the single in-reach sample on its own axis. |
| `Contour.ExtentOf` | wafer_map_contour.py:77 | The extent is the bounding box of the extended samples. Each bound is attained, and x and y are bounded separately. |
| `Contour.ExtentSpansWafer` | wafer_map_contour.py:66 | Both R and -R lie within `[xc.min(), xc.max()]` and within `[yc.min(), yc.max()]`. |
| `Contour.DisplayRange` | wafer_map_contour.py:73-74 | A given `vmin`/`vmax` is used as is. Each default, taken on its own, is NaN exactly when some value is NaN; otherwise the default `vmin` is an extended value at most every extended value, and the default `vmax` one at least every extended value. |
| `Contour.NaNValueIffUnreached` | wafer_map_contour.py:42-70 | The extended values contain NaN, which makes the fit on line 70 fail, if and only if some reference point has no sample within R. |
| `Boundary.Radius` | wafer_map_contour.py:37-38 | Twice the radius is `wafer_size`, and the radius is non-negative exactly when `wafer_size` is. |
| `Boundary.ReferenceX` | wafer_map_contour.py:37 | Four x coordinates; negating them swaps the last two points and keeps the first two. |
| `Boundary.ReferenceY` | wafer_map_contour.py:38 | Four y coordinates; negating them swaps the first two points and keeps the last two. |
| `Boundary.ReferencePointsOnRim` | wafer_map_contour.py:37-38 | Every reference point lies at distance R from the centre. For R other than 0 the four points are distinct; for R equal to 0 all four are the centre. |
| `Boundary.SqDist` | wafer_map_contour.py:49 | The squared distance is non-negative and is 0 from a point to itself. |
| `Boundary.Dists` | wafer_map_contour.py:48-49 | One squared distance per sample, each non-negative. |
| `Boundary.Threshold` | wafer_map_contour.py:45 | The squared starting minimum is non-negative exactly when R is; a negative R admits no sample. |
| `Boundary.BoundaryValue` | wafer_map_contour.py:45-56 | A synthetic value that is a number comes from at least one sample within R of its reference point. |
| `Boundary.NegatedInvolution` | wafer_map_contour.py:37-38 | Mirroring the coordinates twice gives them back, so each mirror lemma also holds in the other direction. |
| `Numeric.Lift` | wafer_map_contour.py:41 | The input values as a float array: same length, same numbers, no NaN. |
| `Numeric.Mean` | wafer_map_contour.py:56 | `np.mean`: NaN exactly for an empty list; the mean of one value is that value. |
| `Numeric.Min` | wafer_map_contour.py:77 | `xc.min()`: an element of the list, at most every element. |
| `Numeric.Max` | wafer_map_contour.py:77 | `xc.max()`: an element of the list, at least every element. |
| `Numeric.ValueMin` | wafer_map_contour.py:73 | `vc.min()`: NaN if and only if some entry is NaN. Otherwise an entry that is at most every entry. |
| `Numeric.ValueMax` | wafer_map_contour.py:74 | `vc.max()`: NaN if and only if some entry is NaN. Otherwise an entry that is at least every entry. |

## Left out

- The thin-plate radial-basis fit and its evaluation (`scipy.interpolate.Rbf`, lines 70-71): a foreign numerical library doing a dense floating-point solve. Only its refusal of NaN values is modelled.
- Contour.DrawMapContour: does not fail for the fit's other errors, such as a singular system when sample points coincide (for example all four reference points at the centre when `wafer_size` is 0), because deciding singularity needs the fit's floating-point linear algebra.
- The 100-point `np.linspace` axes and `np.meshgrid` (lines 66-67): floating-point spacing. Only their end points, the extent, are modelled.
- Floating-point rounding: coordinates, distances and means are exact reals. The square root on line 49 is replaced by comparing squares. A tie that exists between the float square roots but not between the exact squares, or the reverse, is not modelled.
- NaN or infinite input coordinates and values: the inputs are real numbers.
- All matplotlib work (lines 34, 76-92): figure, `imshow`, clip circle, colour bar, markers and the two-decimal labels. This is presentation.
- The output path keyword and the file output (lines 95-97): I/O. `pic_name` is therefore not a parameter.
- Python lists copied and then appended in place: the model uses immutable sequences. The inputs therefore cannot change, which is what the copies on lines 39-41 ensure.
