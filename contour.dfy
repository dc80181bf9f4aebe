/** The numeric part of `WaferMapContour.draw_map_contour`: the input check,
    the boundary extension, the image extent, the interpolator's refusal of
    NaN values and the default display range. The interpolation itself, the
    drawing and the file output are not modelled. */
module Contour {
  import opened Numeric
  import opened Boundary

  /** `Exception('Input data size error!')` from the length check, and the
      `ValueError` the thin-plate fit raises when a value handed to it is NaN
      (its linear solve checks that every entry is finite). */
  datatype Error = InputSizeError | NonFiniteValue

  /** The image extent `[xc.min(), xc.max(), yc.min(), yc.max()]`, which is also
      the span of the interpolation grid. */
  datatype Extent = Extent(xMin: real, xMax: real, yMin: real, yMax: real)

  /** Everything the routine computes before it hands over to the interpolator
      and the renderer. */
  datatype ContourData = ContourData(xc: seq<real>, yc: seq<real>, vc: seq<Value>,
                                     extent: Extent, vmin: Value, vmax: Value)

  /** The bounding box of the extended samples, each axis on its own. */
  function ExtentOf(xc: seq<real>, yc: seq<real>): (e: Extent)
    requires |xc| > 0 && |yc| > 0
    ensures e.xMin in xc && e.xMax in xc && e.yMin in yc && e.yMax in yc
    ensures forall k :: 0 <= k < |xc| ==> e.xMin <= xc[k] <= e.xMax
    ensures forall k :: 0 <= k < |yc| ==> e.yMin <= yc[k] <= e.yMax
  {
    Extent(Min(xc), Max(xc), Min(yc), Max(yc))
  }

  /** The extent of the extended samples always reaches the four reference
      points: both R and -R lie inside its x range and inside its y range. */
  lemma ExtentSpansWafer(x: seq<real>, y: seq<real>, v: seq<real>, r: real,
                         xc: seq<real>, yc: seq<real>, vc: seq<Value>)
    requires |x| == |y| == |v| && ExtendedFrom(x, y, v, r, xc, yc, vc)
    ensures ExtentOf(xc, yc).xMin <= -r && ExtentOf(xc, yc).xMin <= r
    ensures -r <= ExtentOf(xc, yc).xMax && r <= ExtentOf(xc, yc).xMax
    ensures ExtentOf(xc, yc).yMin <= -r && ExtentOf(xc, yc).yMin <= r
    ensures -r <= ExtentOf(xc, yc).yMax && r <= ExtentOf(xc, yc).yMax
  {
    var n := |x|;
    assert xc[n + 2] == xc[n..][2] == r && xc[n + 3] == xc[n..][3] == -r;
    assert yc[n] == yc[n..][0] == r && yc[n + 1] == yc[n..][1] == -r;
  }

  /** `vmin = kwargs['vmin'] if 'vmin' in kwargs else vc.min()` and the same for
      `vmax`. Left to their defaults, the range is NaN as soon as one value is
      NaN, and otherwise it is attained and covers every value. */
  function DisplayRange(vc: seq<Value>, vminArg: Option<real>, vmaxArg: Option<real>): (range: (Value, Value))
    requires |vc| > 0
    ensures vminArg.Some? ==> range.0 == Num(vminArg.value)
    ensures vmaxArg.Some? ==> range.1 == Num(vmaxArg.value)
    ensures vminArg.None? ==> (range.0.NaN? <==> NaN in vc) && (range.0.Num? ==> range.0 in vc)
    ensures vmaxArg.None? ==> (range.1.NaN? <==> NaN in vc) && (range.1.Num? ==> range.1 in vc)
    ensures vminArg.None? && range.0.Num? ==>
              forall k :: 0 <= k < |vc| ==> vc[k].Num? && range.0.val <= vc[k].val
    ensures vmaxArg.None? && range.1.Num? ==>
              forall k :: 0 <= k < |vc| ==> vc[k].Num? && vc[k].val <= range.1.val
    ensures vminArg.None? && vmaxArg.None? && range.0.Num? ==>
              forall k :: 0 <= k < |vc| ==> vc[k].Num? && range.0.val <= vc[k].val <= range.1.val
  {
    (if vminArg.Some? then Num(vminArg.value) else ValueMin(vc),
     if vmaxArg.Some? then Num(vmaxArg.value) else ValueMax(vc))
  }

  /** Reference point i has no sample within distance R. */
  predicate Unreached(x: seq<real>, y: seq<real>, r: real, i: nat)
    requires |x| == |y| && i < 4
  {
    forall k :: 0 <= k < |x| ==> !InReach(x, y, r, i, k)
  }

  /** The extended values hold a NaN exactly when some reference point has no
      sample within the wafer radius (in particular, for empty input or a
      negative wafer size). */
  lemma NaNValueIffUnreached(x: seq<real>, y: seq<real>, v: seq<real>, r: real,
                             xc: seq<real>, yc: seq<real>, vc: seq<Value>)
    requires |x| == |y| == |v| && ExtendedFrom(x, y, v, r, xc, yc, vc)
    ensures NaN in vc <==> exists i :: 0 <= i < 4 && Unreached(x, y, r, i)
  {
    var n := |x|;
    forall i | 0 <= i < 4
      ensures vc[n + i].NaN? <==> Unreached(x, y, r, i)
    {
      BoundaryValueNaNIff(x, y, v, r, i);
    }
    forall k | 0 <= k < n
      ensures vc[k].Num?
    {
      assert vc[k] == vc[..n][k] == Lift(v)[k];
    }
    if NaN in vc {
      var j :| 0 <= j < |vc| && vc[j] == NaN;
      var i := j - n;
      assert vc[n + i].NaN?;
      assert 0 <= i < 4 && Unreached(x, y, r, i);
    } else {
      forall i | 0 <= i < 4
        ensures !Unreached(x, y, r, i)
      {
        assert vc[n + i] in vc;
      }
    }
  }

  /** `draw_map_contour` up to the point where the renderer takes over, with
      the same defaults: a 300 wafer, and `vmin`/`vmax` left out. It fails
      on lists of unequal length before doing anything else. Otherwise it
      extends the samples and takes their extent. It then fails in the
      thin-plate fit when an extended value is NaN, and otherwise fixes the
      display range. */
  method DrawMapContour(x: seq<real>, y: seq<real>, v: seq<real>, waferSize: int := 300,
                        vminArg: Option<real> := None, vmaxArg: Option<real> := None)
    returns (res: Result<ContourData, Error>)
    ensures res.Failure? <==>
              !(|x| == |y| == |v|) || exists i :: 0 <= i < 4 && Unreached(x, y, Radius(waferSize), i)
    ensures res.Failure? ==> (res.error == InputSizeError <==> !(|x| == |y| == |v|))
    ensures res.Success? ==>
              && ExtendedFrom(x, y, v, Radius(waferSize), res.value.xc, res.value.yc, res.value.vc)
              && NaN !in res.value.vc
              && res.value.extent == ExtentOf(res.value.xc, res.value.yc)
              && (res.value.vmin, res.value.vmax) == DisplayRange(res.value.vc, vminArg, vmaxArg)
    ensures res.Success? && vminArg.Some? ==> res.value.vmin == Num(vminArg.value)
    ensures res.Success? && vmaxArg.Some? ==> res.value.vmax == Num(vmaxArg.value)
    ensures res.Success? && vminArg.None? ==>
              && res.value.vmin.Num? && res.value.vmin in res.value.vc
              && forall k :: 0 <= k < |res.value.vc| ==> res.value.vc[k].Num? && res.value.vmin.val <= res.value.vc[k].val
    ensures res.Success? && vmaxArg.None? ==>
              && res.value.vmax.Num? && res.value.vmax in res.value.vc
              && forall k :: 0 <= k < |res.value.vc| ==> res.value.vc[k].Num? && res.value.vc[k].val <= res.value.vmax.val
  {
    if !(|x| == |y| == |v|) {
      return Failure(InputSizeError);
    }
    var xc, yc, vc := ExtendBoundary(x, y, v, waferSize);
    var extent := ExtentOf(xc, yc);
    NaNValueIffUnreached(x, y, v, Radius(waferSize), xc, yc, vc);
    if NaN in vc {
      return Failure(NonFiniteValue);
    }
    var range := DisplayRange(vc, vminArg, vmaxArg);
    return Success(ContourData(xc, yc, vc, extent, range.0, range.1));
  }
}
