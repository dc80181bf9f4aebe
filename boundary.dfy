/** The boundary-extension step of the wafer map: for each of four reference
    points on the wafer's rim, find every sample nearest to it (ties included,
    and only samples no farther than the wafer radius), and append the
    reference point with the mean value of those samples.

    Distances are compared squared: the square root is monotone on
    non-negative numbers, so every `<` and `==` decision between two distances
    is the same decision between their squares (ThresholdMatchesRadius,
    SquaringKeepsOrder). */
module Boundary {
  import opened Numeric

  /** The wafer radius `wafer_size / 2` (true division). */
  function Radius(waferSize: int): (r: real)
    ensures r + r == waferSize as real
    ensures r >= 0.0 <==> waferSize >= 0
  {
    waferSize as real / 2.0
  }

  /** `boundary_x`, the x coordinates of the reference points (0,R), (0,-R),
      (R,0), (-R,0). Mirroring left to right maps the list onto itself with the
      last two points swapped. */
  function ReferenceX(r: real): (s: seq<real>)
    ensures |s| == 4
    ensures Negated(s) == [s[0], s[1], s[3], s[2]]
  {
    [0.0, 0.0, r, -r]
  }

  /** `boundary_y`, the y coordinates of the reference points (0,R), (0,-R),
      (R,0), (-R,0). Mirroring top to bottom maps the list onto itself with the
      first two points swapped. */
  function ReferenceY(r: real): (s: seq<real>)
    ensures |s| == 4
    ensures Negated(s) == [s[1], s[0], s[2], s[3]]
  {
    [r, -r, 0.0, 0.0]
  }

  /** The four reference points lie on the circle of radius R around the
      wafer's centre; they are distinct unless R is 0, when all four are the
      centre itself. */
  lemma ReferencePointsOnRim(r: real)
    ensures forall i :: 0 <= i < 4 ==> SqDist(0.0, 0.0, ReferenceX(r)[i], ReferenceY(r)[i]) == r * r
    ensures r != 0.0 ==> forall i, j :: 0 <= i < j < 4 ==>
              ReferenceX(r)[i] != ReferenceX(r)[j] || ReferenceY(r)[i] != ReferenceY(r)[j]
    ensures r == 0.0 ==> forall i :: 0 <= i < 4 ==> ReferenceX(r)[i] == 0.0 && ReferenceY(r)[i] == 0.0
  {
    var xs, ys := ReferenceX(r), ReferenceY(r);
    SquareOfNegation(r);
    assert (0.0 - r) * (0.0 - r) == r * r && (0.0 - -r) * (0.0 - -r) == r * r;
    assert SqDist(0.0, 0.0, xs[0], ys[0]) == r * r;
    assert SqDist(0.0, 0.0, xs[1], ys[1]) == r * r;
    assert SqDist(0.0, 0.0, xs[2], ys[2]) == r * r;
    assert SqDist(0.0, 0.0, xs[3], ys[3]) == r * r;
  }

  /** The squared Euclidean distance between (xb, yb) and (px, py). */
  function SqDist(xb: real, yb: real, px: real, py: real): (d: real)
    ensures d >= 0.0
    ensures xb == px && yb == py ==> d == 0.0
  {
    (xb - px) * (xb - px) + (yb - py) * (yb - py)
  }

  /** The starting minimum `distance = R`, squared. A negative radius admits no
      sample at all (no distance is below or equal to it), and neither does a
      threshold of -1. */
  function Threshold(r: real): (t: real)
    ensures t >= 0.0 <==> r >= 0.0
  {
    if r >= 0.0 then r * r else -1.0
  }

  /** For a distance d, comparing d*d against the squared threshold decides
      `d < R` and `d == R` exactly as the unsquared comparison does. */
  lemma ThresholdMatchesRadius(d: real, r: real)
    requires d >= 0.0
    ensures d * d < Threshold(r) <==> d < r
    ensures d * d == Threshold(r) <==> d == r
  {
    if r >= 0.0 {
      SquaringKeepsOrder(d, r);
    }
  }

  /** Squaring keeps the order of two non-negative distances. */
  lemma SquaringKeepsOrder(d: real, e: real)
    requires d >= 0.0 && e >= 0.0
    ensures d * d < e * e <==> d < e
    ensures d * d == e * e <==> d == e
  {
    if d < e {
      PositiveProduct(e - d, e + d);
      assert e * e - d * d == (e - d) * (e + d);
    } else if e < d {
      PositiveProduct(d - e, d + e);
      assert d * d - e * e == (d - e) * (d + e);
    }
  }

  lemma PositiveProduct(a: real, b: real)
    requires a > 0.0 && b > 0.0
    ensures a * b > 0.0
  {
  }

  /** The squared distances from (xb, yb) to every sample, in sample order. */
  function Dists(x: seq<real>, y: seq<real>, xb: real, yb: real): (ds: seq<real>)
    requires |x| == |y|
    ensures |ds| == |x|
    ensures forall k :: 0 <= k < |x| ==> ds[k] == SqDist(xb, yb, x[k], y[k])
    ensures forall k :: 0 <= k < |ds| ==> ds[k] >= 0.0
  {
    seq(|x|, k requires 0 <= k < |x| => SqDist(xb, yb, x[k], y[k]))
  }

  /** Sample k is within reach (distance at most the threshold) and no sample is
      strictly nearer. */
  predicate IsNearest(ds: seq<real>, t: real, k: int)
  {
    0 <= k < |ds| && ds[k] <= t && forall m :: 0 <= m < |ds| ==> ds[k] <= ds[m]
  }

  /** The nearest samples among the first n, in index order. */
  function NearestUpTo(ds: seq<real>, t: real, n: nat): (ties: seq<nat>)
    requires n <= |ds|
    ensures Increasing(ties)
    ensures forall k :: k in ties <==> k < n && IsNearest(ds, t, k)
  {
    if n == 0 then []
    else
      var prefix := NearestUpTo(ds, t, n - 1);
      assert forall i :: 0 <= i < |prefix| ==> prefix[i] in prefix;
      if IsNearest(ds, t, n - 1) then prefix + [n - 1] else prefix
  }

  /** Every sample index nearest to the reference point, in increasing order:
      the reference definition the scan is proved against. */
  function NearestIndices(ds: seq<real>, t: real): (ties: seq<nat>)
    ensures Increasing(ties)
    ensures forall k :: k in ties <==> IsNearest(ds, t, k)
  {
    NearestUpTo(ds, t, |ds|)
  }

  /** Among samples within reach there is always one that is nearest. */
  lemma {:induction false} SomeNearest(ds: seq<real>, t: real, n: nat, j: nat)
    requires n <= |ds| && j < n && ds[j] <= t
    ensures exists k :: 0 <= k < n && ds[k] <= t && forall m :: 0 <= m < n ==> ds[k] <= ds[m]
  {
    if n > 1 {
      if j == n - 1 {
        if exists i :: 0 <= i < n - 1 && ds[i] <= ds[j] {
          var i :| 0 <= i < n - 1 && ds[i] <= ds[j];
          SomeNearest(ds, t, n - 1, i);
          var k :| 0 <= k < n - 1 && ds[k] <= t && forall m :: 0 <= m < n - 1 ==> ds[k] <= ds[m];
          assert forall m :: 0 <= m < n ==> ds[k] <= ds[m];
        } else {
          assert forall m :: 0 <= m < n ==> ds[j] <= ds[m];
        }
      } else {
        SomeNearest(ds, t, n - 1, j);
        var k :| 0 <= k < n - 1 && ds[k] <= t && forall m :: 0 <= m < n - 1 ==> ds[k] <= ds[m];
        if ds[n - 1] < ds[k] {
          assert forall m :: 0 <= m < n ==> ds[n - 1] <= ds[m];
        } else {
          assert forall m :: 0 <= m < n ==> ds[k] <= ds[m];
        }
      }
    } else {
      assert forall m :: 0 <= m < n ==> ds[j] <= ds[m];
    }
  }

  /** No nearest sample exists exactly when every sample lies beyond the threshold. */
  lemma NoNearestIffOutOfReach(ds: seq<real>, t: real)
    ensures NearestIndices(ds, t) == [] <==> forall k :: 0 <= k < |ds| ==> ds[k] > t
  {
    if exists j :: 0 <= j < |ds| && ds[j] <= t {
      var j :| 0 <= j < |ds| && ds[j] <= t;
      SomeNearest(ds, t, |ds|, j);
      var k :| 0 <= k < |ds| && ds[k] <= t && forall m :: 0 <= m < |ds| ==> ds[k] <= ds[m];
      assert IsNearest(ds, t, k);
      assert k in NearestIndices(ds, t);
    } else {
      var ties := NearestIndices(ds, t);
      assert |ties| > 0 ==> ties[0] in ties;
    }
  }

  /** The inner scan of the boundary step (`for j in range(len(x))`): keeps a
      running minimum `distance`, starting at the radius, and the list of the
      indices that reach it, reset on a strict improvement and extended on an
      exact tie. */
  method ScanNearest(x: seq<real>, y: seq<real>, xb: real, yb: real, r: real) returns (ties: seq<nat>)
    requires |x| == |y|
    ensures ties == NearestIndices(Dists(x, y, xb, yb), Threshold(r))
  {
    ghost var ds := Dists(x, y, xb, yb);
    var distance := Threshold(r);
    ties := [];
    for j := 0 to |x|
      invariant distance <= Threshold(r)
      invariant forall k :: 0 <= k < j ==> distance <= ds[k]
      invariant ties == [] ==> distance == Threshold(r)
      invariant forall k :: k in ties <==> 0 <= k < j && ds[k] == distance
      invariant Increasing(ties)
    {
      var d := SqDist(xb, yb, x[j], y[j]);
      assert forall i :: 0 <= i < |ties| ==> ties[i] in ties;
      if d < distance {
        ties := [j];
        distance := d;
      } else if d == distance {
        ties := ties + [j];
      }
    }
    forall k
      ensures k in ties <==> IsNearest(ds, Threshold(r), k)
    {
      if IsNearest(ds, Threshold(r), k) && ties != [] {
        assert ds[ties[0]] == distance;
      }
    }
    IncreasingUnique(ties, NearestIndices(ds, Threshold(r)));
  }

  /** The value synthesized for reference point i: the mean of the values of
      the nearest samples, NaN when no sample is within reach. */
  function BoundaryValue(x: seq<real>, y: seq<real>, v: seq<real>, r: real, i: nat): (b: Value)
    requires |x| == |y| == |v| && i < 4
    ensures b.Num? ==> exists k :: 0 <= k < |x| && SqDist(ReferenceX(r)[i], ReferenceY(r)[i], x[k], y[k]) <= Threshold(r)
  {
    var ties := NearestIndices(Dists(x, y, ReferenceX(r)[i], ReferenceY(r)[i]), Threshold(r));
    assert forall j :: 0 <= j < |ties| ==> ties[j] in ties;
    assert |ties| > 0 ==> IsNearest(Dists(x, y, ReferenceX(r)[i], ReferenceY(r)[i]), Threshold(r), ties[0]);
    Mean(v, ties)
  }

  /** Sample k lies within distance r of reference point i (squared form). */
  predicate InReach(x: seq<real>, y: seq<real>, r: real, i: nat, k: nat)
    requires |x| == |y| && i < 4 && k < |x|
  {
    SqDist(ReferenceX(r)[i], ReferenceY(r)[i], x[k], y[k]) <= Threshold(r)
  }

  /** The synthesized value is NaN exactly when no sample is within reach of the
      reference point. */
  lemma BoundaryValueNaNIff(x: seq<real>, y: seq<real>, v: seq<real>, r: real, i: nat)
    requires |x| == |y| == |v| && i < 4
    ensures BoundaryValue(x, y, v, r, i).NaN? <==> forall k :: 0 <= k < |x| ==> !InReach(x, y, r, i, k)
  {
    var ds := Dists(x, y, ReferenceX(r)[i], ReferenceY(r)[i]);
    NoNearestIffOutOfReach(ds, Threshold(r));
    assert forall k :: 0 <= k < |x| ==> (InReach(x, y, r, i, k) <==> ds[k] <= Threshold(r));
  }

  /** A synthesized value that is a number lies between the smallest and the
      largest input value: the boundary step never creates a new extreme. */
  lemma BoundaryValueInRange(x: seq<real>, y: seq<real>, v: seq<real>, r: real, i: nat)
    requires |x| == |y| == |v| && i < 4
    ensures BoundaryValue(x, y, v, r, i).Num? ==>
              |v| > 0 && Min(v) <= BoundaryValue(x, y, v, r, i).val <= Max(v)
  {
    var ds := Dists(x, y, ReferenceX(r)[i], ReferenceY(r)[i]);
    var ties := NearestIndices(ds, Threshold(r));
    if ties != [] {
      assert ties[0] in ties;
      var lo, hi := Min(v), Max(v);
      assert forall j :: 0 <= j < |ties| ==> ties[j] < |v| && lo <= v[ties[j]] <= hi by {
        forall j | 0 <= j < |ties|
          ensures ties[j] < |v| && lo <= v[ties[j]] <= hi
        {
          assert ties[j] in ties;
        }
      }
      MeanWithinBounds(v, ties, lo, hi);
    }
  }

  /** A sample strictly nearer than every other one, and within reach, is the
      only nearest sample. */
  lemma UniqueNearest(ds: seq<real>, t: real, k: nat)
    requires k < |ds| && ds[k] <= t
    requires forall m :: 0 <= m < |ds| && m != k ==> ds[k] < ds[m]
    ensures NearestIndices(ds, t) == [k]
  {
    var ties := NearestIndices(ds, t);
    assert IsNearest(ds, t, k);
    forall m
      ensures m in ties <==> m in [k]
    {
      if m in ties {
        assert IsNearest(ds, t, m);
      }
    }
    IncreasingUnique(ties, [k]);
  }

  /** Four samples at (-50,0), (50,0), (0,-50), (0,50) with values 1, 2, 3, 4 on
      a 300 wafer: each reference point's only sample within reach is the one on
      its own axis, so the extension reproduces that sample's value. */
  lemma FourSampleScenario(i: nat)
    requires i < 4
    ensures BoundaryValue([-50.0, 50.0, 0.0, 0.0], [0.0, 0.0, -50.0, 50.0], [1.0, 2.0, 3.0, 4.0],
                          Radius(300), i) == Num([4.0, 3.0, 2.0, 1.0][i])
  {
    var x, y, v := [-50.0, 50.0, 0.0, 0.0], [0.0, 0.0, -50.0, 50.0], [1.0, 2.0, 3.0, 4.0];
    var r := Radius(300);
    assert r == 150.0 && Threshold(r) == 22500.0;
    var ds := Dists(x, y, ReferenceX(r)[i], ReferenceY(r)[i]);
    var own := 3 - i;
    if i == 0 {
      assert ds[0] == 25000.0 && ds[1] == 25000.0 && ds[2] == 40000.0 && ds[3] == 10000.0;
    } else if i == 1 {
      assert ds[0] == 25000.0 && ds[1] == 25000.0 && ds[2] == 10000.0 && ds[3] == 40000.0;
    } else if i == 2 {
      assert ds[0] == 40000.0 && ds[1] == 10000.0 && ds[2] == 25000.0 && ds[3] == 25000.0;
    } else {
      assert ds[0] == 10000.0 && ds[1] == 40000.0 && ds[2] == 25000.0 && ds[3] == 25000.0;
    }
    UniqueNearest(ds, Threshold(r), own);
    assert SumAt(v, [own]) == v[own];
  }

  /** The samples mirrored across an axis: every coordinate negated. */
  function Negated(s: seq<real>): (n: seq<real>)
    ensures |n| == |s|
    ensures forall k :: 0 <= k < |s| ==> n[k] == -s[k]
  {
    seq(|s|, k requires 0 <= k < |s| => -s[k])
  }

  lemma SquareOfNegation(a: real)
    ensures (-a) * (-a) == a * a
  {
  }

  /** Mirroring twice gives the samples back. */
  lemma NegatedInvolution(s: seq<real>)
    ensures Negated(Negated(s)) == s
  {
    assert forall k :: 0 <= k < |s| ==> Negated(Negated(s))[k] == s[k];
  }

  /** Mirroring the samples left to right swaps the values synthesized at
      (R,0) and (-R,0) and keeps those at (0,R) and (0,-R). */
  lemma MirrorLeftRight(x: seq<real>, y: seq<real>, v: seq<real>, r: real)
    requires |x| == |y| == |v|
    ensures BoundaryValue(Negated(x), y, v, r, 0) == BoundaryValue(x, y, v, r, 0)
    ensures BoundaryValue(Negated(x), y, v, r, 1) == BoundaryValue(x, y, v, r, 1)
    ensures BoundaryValue(Negated(x), y, v, r, 2) == BoundaryValue(x, y, v, r, 3)
    ensures BoundaryValue(Negated(x), y, v, r, 3) == BoundaryValue(x, y, v, r, 2)
  {
    var nx := Negated(x);
    forall k | 0 <= k < |x|
      ensures SqDist(0.0, r, nx[k], y[k]) == SqDist(0.0, r, x[k], y[k])
      ensures SqDist(0.0, -r, nx[k], y[k]) == SqDist(0.0, -r, x[k], y[k])
      ensures SqDist(r, 0.0, nx[k], y[k]) == SqDist(-r, 0.0, x[k], y[k])
      ensures SqDist(-r, 0.0, nx[k], y[k]) == SqDist(r, 0.0, x[k], y[k])
    {
      SquareOfNegation(r + x[k]);
      SquareOfNegation(r - x[k]);
      SquareOfNegation(x[k]);
    }
    assert Dists(nx, y, 0.0, r) == Dists(x, y, 0.0, r);
    assert Dists(nx, y, 0.0, -r) == Dists(x, y, 0.0, -r);
    assert Dists(nx, y, r, 0.0) == Dists(x, y, -r, 0.0);
    assert Dists(nx, y, -r, 0.0) == Dists(x, y, r, 0.0);
  }

  /** Mirroring the samples top to bottom swaps the values synthesized at
      (0,R) and (0,-R) and keeps those at (R,0) and (-R,0). */
  lemma MirrorTopBottom(x: seq<real>, y: seq<real>, v: seq<real>, r: real)
    requires |x| == |y| == |v|
    ensures BoundaryValue(x, Negated(y), v, r, 0) == BoundaryValue(x, y, v, r, 1)
    ensures BoundaryValue(x, Negated(y), v, r, 1) == BoundaryValue(x, y, v, r, 0)
    ensures BoundaryValue(x, Negated(y), v, r, 2) == BoundaryValue(x, y, v, r, 2)
    ensures BoundaryValue(x, Negated(y), v, r, 3) == BoundaryValue(x, y, v, r, 3)
  {
    var ny := Negated(y);
    forall k | 0 <= k < |x|
      ensures SqDist(0.0, r, x[k], ny[k]) == SqDist(0.0, -r, x[k], y[k])
      ensures SqDist(0.0, -r, x[k], ny[k]) == SqDist(0.0, r, x[k], y[k])
      ensures SqDist(r, 0.0, x[k], ny[k]) == SqDist(r, 0.0, x[k], y[k])
      ensures SqDist(-r, 0.0, x[k], ny[k]) == SqDist(-r, 0.0, x[k], y[k])
    {
      SquareOfNegation(r + y[k]);
      SquareOfNegation(r - y[k]);
      SquareOfNegation(y[k]);
    }
    assert Dists(x, ny, 0.0, r) == Dists(x, y, 0.0, -r);
    assert Dists(x, ny, 0.0, -r) == Dists(x, y, 0.0, r);
    assert Dists(x, ny, r, 0.0) == Dists(x, y, r, 0.0);
    assert Dists(x, ny, -r, 0.0) == Dists(x, y, -r, 0.0);
  }

  /** Reordering the distances by a permutation p reorders the nearest
      samples with them: k is nearest after the reordering exactly when p[k]
      was nearest before it. */
  lemma NearestPermuted(ds: seq<real>, t: real, p: seq<nat>)
    requires |p| == |ds| && IsPermutation(p)
    ensures forall k :: 0 <= k < |p| ==>
              (k in NearestIndices(Permuted(ds, p), t) <==> p[k] in NearestIndices(ds, t))
  {
    var pds := Permuted(ds, p);
    forall k | 0 <= k < |p|
      ensures IsNearest(pds, t, k) <==> IsNearest(ds, t, p[k])
    {
      if IsNearest(pds, t, k) {
        forall m | 0 <= m < |ds|
          ensures ds[p[k]] <= ds[m]
        {
          assert m in p;
          var k' :| 0 <= k' < |p| && p[k'] == m;
          assert pds[k] <= pds[k'];
        }
      }
      if IsNearest(ds, t, p[k]) {
        assert forall m :: 0 <= m < |pds| ==> pds[k] <= pds[m];
      }
    }
  }

  /** The synthesized value does not depend on the order of the samples: the
      scan gathers every tied sample, whatever its index, and their mean does
      not depend on the order in which they are gathered. */
  lemma BoundaryValueReordered(x: seq<real>, y: seq<real>, v: seq<real>, r: real, i: nat, p: seq<nat>)
    requires |x| == |y| == |v| == |p| && i < 4 && IsPermutation(p)
    ensures BoundaryValue(Permuted(x, p), Permuted(y, p), Permuted(v, p), r, i) == BoundaryValue(x, y, v, r, i)
  {
    var xb, yb, t := ReferenceX(r)[i], ReferenceY(r)[i], Threshold(r);
    var ds := Dists(x, y, xb, yb);
    var pds := Dists(Permuted(x, p), Permuted(y, p), xb, yb);
    assert pds == Permuted(ds, p);
    var ties := NearestIndices(ds, t);
    var pties := NearestIndices(pds, t);
    NearestPermuted(ds, t, p);
    assert forall j :: 0 <= j < |pties| ==> pties[j] in pties;
    assert forall j :: 0 <= j < |ties| ==> ties[j] in ties;
    var moved := Permuted(p, pties);
    assert Distinct(moved);
    forall e
      ensures e in moved <==> e in ties
    {
      if e in ties {
        assert e in p;
        var k :| 0 <= k < |p| && p[k] == e;
        assert k in pties;
        var j :| 0 <= j < |pties| && pties[j] == k;
        assert moved[j] == e;
      }
    }
    DistinctSameElements(moved, ties);
    assert |pties| == |moved| == |multiset(moved)| == |ties|;
    SumAtPermuted(v, p, pties);
    SumAtReorder(v, moved, ties);
  }

  /** Samples symmetric about the vertical axis, each sample paired by the
      permutation p with its left-right mirror image of equal value, get the
      same synthesized value at (R,0) and at (-R,0). */
  lemma SymmetricLeftRight(x: seq<real>, y: seq<real>, v: seq<real>, r: real, p: seq<nat>)
    requires |x| == |y| == |v| == |p| && IsPermutation(p)
    requires forall k :: 0 <= k < |p| ==> x[p[k]] == -x[k] && y[p[k]] == y[k] && v[p[k]] == v[k]
    ensures BoundaryValue(x, y, v, r, 2) == BoundaryValue(x, y, v, r, 3)
  {
    var px, py, pv := Permuted(x, p), Permuted(y, p), Permuted(v, p);
    forall k | 0 <= k < |p|
      ensures px[k] == Negated(x)[k]
    {
      assert x[p[k]] == -x[k];
    }
    assert px == Negated(x);
    assert py == y;
    assert pv == v;
    BoundaryValueReordered(x, y, v, r, 3, p);
    MirrorLeftRight(x, y, v, r);
  }

  /** Samples symmetric about the horizontal axis, each sample paired by the
      permutation p with its top-bottom mirror image of equal value, get the
      same synthesized value at (0,R) and at (0,-R). */
  lemma SymmetricTopBottom(x: seq<real>, y: seq<real>, v: seq<real>, r: real, p: seq<nat>)
    requires |x| == |y| == |v| == |p| && IsPermutation(p)
    requires forall k :: 0 <= k < |p| ==> x[p[k]] == x[k] && y[p[k]] == -y[k] && v[p[k]] == v[k]
    ensures BoundaryValue(x, y, v, r, 0) == BoundaryValue(x, y, v, r, 1)
  {
    var px, py, pv := Permuted(x, p), Permuted(y, p), Permuted(v, p);
    assert px == x;
    forall k | 0 <= k < |p|
      ensures py[k] == Negated(y)[k]
    {
      assert y[p[k]] == -y[k];
    }
    assert py == Negated(y);
    assert pv == v;
    BoundaryValueReordered(x, y, v, r, 1, p);
    MirrorTopBottom(x, y, v, r);
  }

  /** The list of extended samples after the boundary step: the inputs
      unchanged, then the four reference points with their synthesized values. */
  ghost predicate ExtendedFrom(x: seq<real>, y: seq<real>, v: seq<real>, r: real,
                               xc: seq<real>, yc: seq<real>, vc: seq<Value>)
    requires |x| == |y| == |v|
  {
    && |xc| == |yc| == |vc| == |x| + 4
    && xc[..|x|] == x && yc[..|x|] == y && vc[..|x|] == Lift(v)
    && xc[|x|..] == ReferenceX(r) && yc[|x|..] == ReferenceY(r)
    && forall i :: 0 <= i < 4 ==> vc[|x| + i] == BoundaryValue(x, y, v, r, i)
  }

  /** The boundary step of the drawing routine: copies of x, y and v, each
      extended by the four reference points. */
  method ExtendBoundary(x: seq<real>, y: seq<real>, v: seq<real>, waferSize: int)
    returns (xc: seq<real>, yc: seq<real>, vc: seq<Value>)
    requires |x| == |y| == |v|
    ensures ExtendedFrom(x, y, v, Radius(waferSize), xc, yc, vc)
  {
    var r := Radius(waferSize);
    var boundaryX := ReferenceX(r);
    var boundaryY := ReferenceY(r);
    xc, yc, vc := x, y, Lift(v);
    for i := 0 to |boundaryX|
      invariant |xc| == |yc| == |vc| == |x| + i
      invariant xc[..|x|] == x && yc[..|x|] == y && vc[..|x|] == Lift(v)
      invariant xc[|x|..] == boundaryX[..i] && yc[|x|..] == boundaryY[..i]
      invariant forall k :: 0 <= k < i ==> vc[|x| + k] == BoundaryValue(x, y, v, r, k)
    {
      var xb := boundaryX[i];
      var yb := boundaryY[i];
      var ties := ScanNearest(x, y, xb, yb, r);
      assert forall j :: 0 <= j < |ties| ==> ties[j] in ties;
      var value := Mean(v, ties);
      assert boundaryX[..i + 1] == boundaryX[..i] + [xb];
      assert boundaryY[..i + 1] == boundaryY[..i] + [yb];
      assert (xc + [xb])[|x|..] == xc[|x|..] + [xb];
      assert (yc + [yb])[|x|..] == yc[|x|..] + [yb];
      xc := xc + [xb];
      yc := yc + [yb];
      vc := vc + [value];
    }
  }
}
