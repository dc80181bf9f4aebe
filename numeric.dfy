/** Numeric building blocks shared by the wafer map model: the float values numpy
    produces (a number or NaN), the mean over a list of indices, and the
    minimum and maximum that `ndarray.min()` and `ndarray.max()` return. */
module Numeric {

  datatype Option<+T> = None | Some(value: T)

  datatype Result<+T, +E> = Success(value: T) | Failure(error: E)

  /** A floating-point value as numpy hands it back: a number, or NaN
      (the mean of an empty list). */
  datatype Value = Num(val: real) | NaN

  /** Every element is smaller than every element after it: sorted, no duplicates. */
  predicate Increasing(s: seq<nat>)
  {
    forall i, j :: 0 <= i < j < |s| ==> s[i] < s[j]
  }

  /** Two strictly increasing sequences with the same elements are equal. */
  lemma {:induction false} IncreasingUnique(a: seq<nat>, b: seq<nat>)
    requires Increasing(a) && Increasing(b)
    requires forall k :: k in a <==> k in b
    ensures a == b
  {
    if a == [] {
      assert forall i :: 0 <= i < |b| ==> b[i] in a;
    } else {
      assert b != [] by { assert a[0] in b; }
      assert a[0] == b[0] by {
        assert a[0] in b;
        assert b[0] in a;
      }
      forall k
        ensures k in a[1..] <==> k in b[1..]
      {
        if k in a[1..] {
          assert k in b;
          var i :| 0 <= i < |b| && b[i] == k;
          assert i != 0;
        }
        if k in b[1..] {
          assert k in a;
          var i :| 0 <= i < |a| && a[i] == k;
          assert i != 0;
        }
      }
      IncreasingUnique(a[1..], b[1..]);
    }
  }

  /** The values `v` lifted into numpy floats, as `np.array(v)` holds them. */
  function Lift(v: seq<real>): (vs: seq<Value>)
    ensures |vs| == |v|
    ensures forall k :: 0 <= k < |v| ==> vs[k] == Num(v[k])
    ensures NaN !in vs
  {
    seq(|v|, k requires 0 <= k < |v| => Num(v[k]))
  }

  /** The sum of `v` over the positions listed in `idx`. */
  function SumAt(v: seq<real>, idx: seq<nat>): real
    requires forall i :: 0 <= i < |idx| ==> idx[i] < |v|
  {
    if idx == [] then 0.0 else v[idx[0]] + SumAt(v, idx[1..])
  }

  /** `np.mean([v[i] for i in idx])`: NaN for an empty list. */
  function Mean(v: seq<real>, idx: seq<nat>): (m: Value)
    requires forall i :: 0 <= i < |idx| ==> idx[i] < |v|
    ensures m.NaN? <==> idx == []
    ensures |idx| == 1 ==> m == Num(v[idx[0]])
  {
    assert |idx| == 1 ==> SumAt(v, idx) == v[idx[0]] + SumAt(v, []);
    if idx == [] then NaN else Num(SumAt(v, idx) / |idx| as real)
  }

  lemma {:induction false} SumAtBounds(v: seq<real>, idx: seq<nat>, lo: real, hi: real)
    requires forall i :: 0 <= i < |idx| ==> idx[i] < |v| && lo <= v[idx[i]] <= hi
    ensures |idx| as real * lo <= SumAt(v, idx) <= |idx| as real * hi
  {
    if idx != [] {
      SumAtBounds(v, idx[1..], lo, hi);
    }
  }

  /** A mean is NaN exactly when nothing is averaged; otherwise it lies between
      any bounds of the averaged values. */
  lemma MeanWithinBounds(v: seq<real>, idx: seq<nat>, lo: real, hi: real)
    requires forall i :: 0 <= i < |idx| ==> idx[i] < |v| && lo <= v[idx[i]] <= hi
    ensures Mean(v, idx).NaN? <==> idx == []
    ensures Mean(v, idx).Num? ==> lo <= Mean(v, idx).val <= hi
  {
    if idx != [] {
      SumAtBounds(v, idx, lo, hi);
      var n := |idx| as real;
      var m := SumAt(v, idx) / n;
      assert m * n == SumAt(v, idx);
    }
  }

  /** No index occurs twice. */
  predicate Distinct(s: seq<nat>)
  {
    forall i, j :: 0 <= i < j < |s| ==> s[i] != s[j]
  }

  /** `p` reorders the positions 0 .. |p|-1: a bijection of that range onto itself. */
  predicate IsPermutation(p: seq<nat>)
  {
    && (forall k :: 0 <= k < |p| ==> p[k] < |p|)
    && Distinct(p)
    && (forall j :: 0 <= j < |p| ==> j in p)
  }

  /** The entries of `s` taken at the positions `p` lists, in that order. */
  function Permuted<T>(s: seq<T>, p: seq<nat>): (t: seq<T>)
    requires forall k :: 0 <= k < |p| ==> p[k] < |s|
    ensures |t| == |p|
    ensures forall k :: 0 <= k < |p| ==> t[k] == s[p[k]]
  {
    seq(|p|, k requires 0 <= k < |p| => s[p[k]])
  }

  /** A sequence without repetitions holds each of its elements exactly once. */
  lemma {:induction false} DistinctOnce(s: seq<nat>, e: nat)
    requires Distinct(s)
    ensures multiset(s)[e] == if e in s then 1 else 0
  {
    if s != [] {
      assert s == [s[0]] + s[1..];
      assert Distinct(s[1..]);
      DistinctOnce(s[1..], e);
      assert s[0] !in s[1..];
    }
  }

  /** Two sequences without repetitions and with the same elements are
      reorderings of each other. */
  lemma DistinctSameElements(a: seq<nat>, b: seq<nat>)
    requires Distinct(a) && Distinct(b)
    requires forall e :: e in a <==> e in b
    ensures multiset(a) == multiset(b)
  {
    forall e
      ensures multiset(a)[e] == multiset(b)[e]
    {
      DistinctOnce(a, e);
      DistinctOnce(b, e);
    }
  }

  lemma {:induction false} SumAtAppend(v: seq<real>, a: seq<nat>, b: seq<nat>)
    requires forall i :: 0 <= i < |a| ==> a[i] < |v|
    requires forall i :: 0 <= i < |b| ==> b[i] < |v|
    ensures SumAt(v, a + b) == SumAt(v, a) + SumAt(v, b)
  {
    if a == [] {
      assert a + b == b;
    } else {
      assert (a + b)[1..] == a[1..] + b;
      SumAtAppend(v, a[1..], b);
    }
  }

  /** Taking position j out of a list of positions takes `v[b[j]]` out of the sum. */
  lemma SumAtRemove(v: seq<real>, b: seq<nat>, j: nat)
    requires forall i :: 0 <= i < |b| ==> b[i] < |v|
    requires j < |b|
    ensures SumAt(v, b) == v[b[j]] + SumAt(v, b[..j] + b[j + 1..])
    ensures multiset(b) == multiset{b[j]} + multiset(b[..j] + b[j + 1..])
  {
    assert b == b[..j] + ([b[j]] + b[j + 1..]);
    SumAtAppend(v, b[..j], [b[j]] + b[j + 1..]);
    assert ([b[j]] + b[j + 1..])[1..] == b[j + 1..];
    SumAtAppend(v, b[..j], b[j + 1..]);
  }

  /** A sum does not depend on the order in which the positions are listed. */
  lemma {:induction false} SumAtReorder(v: seq<real>, a: seq<nat>, b: seq<nat>)
    requires forall i :: 0 <= i < |a| ==> a[i] < |v|
    requires forall i :: 0 <= i < |b| ==> b[i] < |v|
    requires multiset(a) == multiset(b)
    ensures SumAt(v, a) == SumAt(v, b)
  {
    if a == [] {
      assert |b| == |multiset(b)| == 0;
    } else {
      assert a == [a[0]] + a[1..];
      assert a[0] in multiset(b);
      var j :| 0 <= j < |b| && b[j] == a[0];
      var rest := b[..j] + b[j + 1..];
      SumAtRemove(v, b, j);
      forall e
        ensures multiset(a[1..])[e] == multiset(rest)[e]
      {
        assert multiset(a)[e] == multiset(b)[e];
      }
      assert multiset(a[1..]) == multiset(rest);
      SumAtReorder(v, a[1..], rest);
    }
  }

  /** Summing a reordered array at positions `a` is summing the original array
      at the positions those map to. */
  lemma {:induction false} SumAtPermuted(v: seq<real>, p: seq<nat>, a: seq<nat>)
    requires |p| == |v| && forall k :: 0 <= k < |p| ==> p[k] < |v|
    requires forall i :: 0 <= i < |a| ==> a[i] < |p|
    ensures SumAt(Permuted(v, p), a) == SumAt(v, Permuted(p, a))
  {
    if a != [] {
      assert Permuted(p, a)[1..] == Permuted(p, a[1..]);
      SumAtPermuted(v, p, a[1..]);
    }
  }

  /** `ndarray.min()` of a non-empty array of numbers. */
  function Min(s: seq<real>): (m: real)
    requires |s| > 0
    ensures m in s
    ensures forall k :: 0 <= k < |s| ==> m <= s[k]
  {
    if |s| == 1 then s[0]
    else
      var rest := Min(s[1..]);
      if s[0] <= rest then s[0] else rest
  }

  /** `ndarray.max()` of a non-empty array of numbers. */
  function Max(s: seq<real>): (m: real)
    requires |s| > 0
    ensures m in s
    ensures forall k :: 0 <= k < |s| ==> s[k] <= m
  {
    if |s| == 1 then s[0]
    else
      var rest := Max(s[1..]);
      if rest <= s[0] then s[0] else rest
  }

  /** `ndarray.min()` of a non-empty float array: NaN as soon as one entry is NaN,
      otherwise the smallest number. */
  function ValueMin(s: seq<Value>): (m: Value)
    requires |s| > 0
    ensures m.NaN? <==> NaN in s
    ensures m.Num? ==> m in s && forall k :: 0 <= k < |s| ==> s[k].Num? && m.val <= s[k].val
  {
    if |s| == 1 then s[0]
    else
      var rest := ValueMin(s[1..]);
      if s[0].NaN? || rest.NaN? then NaN
      else if s[0].val <= rest.val then s[0] else rest
  }

  /** `ndarray.max()` of a non-empty float array: NaN as soon as one entry is NaN,
      otherwise the largest number. */
  function ValueMax(s: seq<Value>): (m: Value)
    requires |s| > 0
    ensures m.NaN? <==> NaN in s
    ensures m.Num? ==> m in s && forall k :: 0 <= k < |s| ==> s[k].Num? && s[k].val <= m.val
  {
    if |s| == 1 then s[0]
    else
      var rest := ValueMax(s[1..]);
      if s[0].NaN? || rest.NaN? then NaN
      else if rest.val <= s[0].val then s[0] else rest
  }
}
