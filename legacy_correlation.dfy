/**
 * `correlation` of the older covariance.py: the normalised correlation of
 * two series of equal length for the lags `0 … ⌊N/2⌋ - 1`, computed in a
 * loop that re-centres both series at every lag, and the symmetric
 * confidence bounds.
 */
module LegacyCorrelation {
  import opened Wrappers
  import opened Floats
  import opened Series
  import Correlation

  /**
   * A product of two series whose shapes numpy cannot broadcast together
   * raises ValueError; with fewer than two samples `ryu` is empty and
   * `ryu[0] = …` raises IndexError.
   */
  datatype LegacyError = ShapeMismatch | IndexOutOfRange

  /** numpy broadcasts two one-dimensional series of equal length, or one of length 1 against any other. */
  predicate Broadcastable(n: nat, m: nat)
  {
    n == m || n == 1 || m == 1
  }

  /** `(ryu, limit_superior, limit_inferior)`, in the order returned. */
  datatype Output = Output(ryu: seq<Float>, upper: real, lower: real)

  /**
   * The value the source means at lag `k`: Pearson's coefficient between
   * `y[k']` and `u[k' + k]` over the `N - k` overlapping samples.
   */
  function LagCoefficient(y: seq<real>, u: seq<real>, k: nat, sqrt: real -> real): Float
    requires |y| == |u| && k < |y|
  {
    Correlation.NormalizedCovariance(y[..|y| - k], u[k..], sqrt).value
  }

  /** `c` lists the coefficients at the lags `0 … |c| - 1`, in order. */
  predicate Coefficients(y: seq<real>, u: seq<real>, c: seq<Float>, sqrt: real -> real)
    requires |y| == |u| && |c| <= |y|
  {
    forall k {:trigger LagCoefficient(y, u, k, sqrt)} :: 0 <= k < |c| ==> c[k] == LagCoefficient(y, u, k, sqrt)
  }

  /** What line 76 and lines 81-82 compute from the current `y` and `u`. */
  function Ratio(ys: seq<real>, us: seq<real>, sqrt: real -> real): Float
    requires |ys| == |us|
  {
    Quotient(Dot(ys, us), Correlation.Times(sqrt(SumSq(ys)), sqrt(SumSq(us))))
  }

  /**
   * `correlation(y, u, confidence_level)`. When `u` has a single sample
   * (and `y` more), line 76 broadcasts it: `u - mean(u)` is `[0]`, so the
   * first coefficient is 0/0; the first pass of the loop then multiplies
   * `y[:-1]` by the empty `u[1:]` and raises, so only `N ∈ {2, 3}`, where
   * the loop does not run, returns.
   */
  method Correlate(y: seq<real>, u: seq<real>, z: real, sqrt: real -> real) returns (r: Result<Output, LegacyError>)
    requires |y| > 0 ==> sqrt(|y| as real) > 0.0
    requires sqrt(0.0) == 0.0
    ensures r.Failure? <==> !Broadcastable(|y|, |u|) || |y| < 2 || (|u| != |y| && |y| >= 4)
    ensures r.Failure? ==> (r.error == IndexOutOfRange <==> Broadcastable(|y|, |u|) && |y| < 2)
    ensures r.Success? ==> |r.value.ryu| == |y| / 2
    ensures r.Success? && |u| == |y| ==> forall k :: 0 <= k < |y| / 2 ==> r.value.ryu[k] == LagCoefficient(y, u, k, sqrt)
    ensures r.Success? && |u| != |y| ==> r.value.ryu == [NaN]
    ensures r.Success? ==> r.value.upper == z / sqrt(|y| as real) && r.value.lower == -r.value.upper
  {
    if !Broadcastable(|y|, |u|) {
      return Failure(ShapeMismatch);
    }
    var n := |y|;
    var tMax := n / 2;
    if tMax == 0 {
      return Failure(IndexOutOfRange);
    }
    var ryu := new Float[tMax](_ => Num(0.0));
    if |u| != |y| {
      var coefficient := BroadcastLag(y, u, sqrt);
      ryu[0] := coefficient;
      if tMax > 1 {
        // line 81 at t = 1: `y[:-1]` has n - 1 >= 3 samples, `u[1:]` none
        return Failure(ShapeMismatch);
      }
      assert ryu[..] == [coefficient];
    } else {
      var ys, us, coefficient := FirstLag(y, u, sqrt);
      ryu[0] := coefficient;
      assert ryu[..1] == [coefficient];
      FillLags(y, u, ys, us, ryu, sqrt);
    }
    var upper := z / sqrt(n as real);
    return Success(Output(ryu[..], upper, upper * -1.0));
  }

  /** `u` of length 1 broadcast over `n` samples. */
  function Repeat(c: real, n: nat): (r: seq<real>)
    ensures |r| == n && forall i :: 0 <= i < n ==> r[i] == c
  {
    seq(n, _ => c)
  }

  /**
   * Lines 73-76 with a single sample in `u`: `u - mean(u)` is `[0]`, the
   * broadcast product sums to 0 and so does `np.sum(u*u)`, so the stored
   * value is 0/0.
   */
  method BroadcastLag(y: seq<real>, u: seq<real>, sqrt: real -> real) returns (coefficient: Float)
    requires |y| > 0 && |u| == 1 && sqrt(0.0) == 0.0
    ensures coefficient == NaN
  {
    var ys := Shift(y, Mean(y));
    var us := Shift(u, Mean(u));
    assert u[..0] == [];
    assert Sum(u) == u[0];
    assert Mean(u) == u[0];
    assert us[0] == 0.0;
    assert us[..0] == [];
    assert SumSq(us) == 0.0;
    DotWithZero(ys, Repeat(us[0], |ys|));
    coefficient := Quotient(Dot(ys, Repeat(us[0], |ys|)), Correlation.Times(sqrt(SumSq(ys)), sqrt(SumSq(us))));
  }

  /** The series minus the mean of its first `m` samples. */
  function HeadCentred(y: seq<real>, m: nat): (r: seq<real>)
    requires 0 < m <= |y|
    ensures |r| == |y|
  {
    Shift(y, Mean(y[..m]))
  }

  /** The series minus the mean of its samples from index `i` on. */
  function TailCentred(u: seq<real>, i: nat): (r: seq<real>)
    requires i < |u|
    ensures |r| == |u|
  {
    Shift(u, Mean(u[i..]))
  }

  /**
   * Lines 78-83: fill the rest of `ryu`, one lag after the other,
   * re-centring both series at every lag.
   */
  method FillLags(y: seq<real>, u: seq<real>, ys: seq<real>, us: seq<real>, ryu: array<Float>, sqrt: real -> real)
    requires |y| == |u| && 0 < ryu.Length == |y| / 2
    requires ys == HeadCentred(y, |y|) && us == TailCentred(u, 0)
    requires Coefficients(y, u, ryu[..1], sqrt)
    modifies ryu
    ensures Coefficients(y, u, ryu[..], sqrt)
  {
    var n, tMax := |y|, ryu.Length;
    var ys, us := ys, us;
    var t := 1;
    while t < tMax
      invariant 1 <= t <= tMax
      invariant ys == HeadCentred(y, n - (t - 1)) && us == TailCentred(u, t - 1)
      invariant Coefficients(y, u, ryu[..t], sqrt)
    {
      ghost var done := ryu[..t];
      var coefficient;
      ys, us, coefficient := NextLag(y, u, ys, us, done, t, sqrt);
      ryu[t] := coefficient;
      assert ryu[..t + 1] == done + [coefficient];
      t := t + 1;
    }
    assert ryu[..] == ryu[..tMax];
  }

  /**
   * Lines 73-76: centre both series on their full means and take their
   * coefficient, which is the coefficient at lag 0.
   */
  method FirstLag(y: seq<real>, u: seq<real>, sqrt: real -> real) returns (ys: seq<real>, us: seq<real>, coefficient: Float)
    requires 0 < |y| == |u|
    ensures ys == HeadCentred(y, |y|) && us == TailCentred(u, 0)
    ensures coefficient == LagCoefficient(y, u, 0, sqrt)
  {
    ys := Shift(y, Mean(y));
    us := Shift(u, Mean(u));
    coefficient := Ratio(ys, us, sqrt);
    assert y[..|y| - 0] == y && u[0..] == u;
  }

  /**
   * Lines 79-82, one iteration of the loop: re-centre `y` on the mean of
   * `y[:-t]` and `u` on the mean of `u[t:]`, then take the coefficient of
   * the overlapping windows. Whatever lag the series were last centred
   * for, the result is the coefficient at lag `t` of the original series.
   */
  method NextLag(y: seq<real>, u: seq<real>, ys: seq<real>, us: seq<real>, ghost done: seq<Float>, t: nat, sqrt: real -> real)
    returns (ys': seq<real>, us': seq<real>, coefficient: Float)
    requires 1 <= t < |y| == |u| && |done| == t
    requires ys == HeadCentred(y, |y| - (t - 1)) && us == TailCentred(u, t - 1)
    requires Coefficients(y, u, done, sqrt)
    ensures ys' == HeadCentred(y, |y| - t) && us' == TailCentred(u, t)
    ensures Coefficients(y, u, done + [coefficient], sqrt)
  {
    var n := |y|;
    LagStep(y, u, ys, us, t, sqrt);
    ys' := Shift(ys, Mean(ys[..n - t]));
    us' := Shift(us, Mean(us[t..]));
    coefficient := Ratio(ys'[..n - t], us'[t..], sqrt);
    CoefficientsSnoc(y, u, done, coefficient, sqrt);
  }

  /** Appending the coefficient at the next lag keeps the list of coefficients complete. */
  lemma CoefficientsSnoc(y: seq<real>, u: seq<real>, done: seq<Float>, c: Float, sqrt: real -> real)
    requires |y| == |u| && |done| < |y|
    requires Coefficients(y, u, done, sqrt) && c == LagCoefficient(y, u, |done|, sqrt)
    ensures Coefficients(y, u, done + [c], sqrt)
  {
    var all := done + [c];
    forall k | 0 <= k < |all| ensures all[k] == LagCoefficient(y, u, k, sqrt) {
      if k < |done| {
        assert all[k] == done[k];
      }
    }
  }

  /**
   * Lines 79-80 at lag `t`: re-centring the series of the previous lag on
   * the means of `y[:-t]` and `u[t:]` leaves the original series minus the
   * means of those windows, and lines 81-82 then compute the coefficient at
   * lag `t`.
   */
  lemma LagStep(y: seq<real>, u: seq<real>, ys: seq<real>, us: seq<real>, t: nat, sqrt: real -> real)
    requires 1 <= t < |y| == |u|
    requires ys == HeadCentred(y, |y| - (t - 1)) && us == TailCentred(u, t - 1)
    ensures Shift(ys, Mean(ys[..|y| - t])) == HeadCentred(y, |y| - t)
    ensures Shift(us, Mean(us[t..])) == TailCentred(u, t)
    ensures Ratio(HeadCentred(y, |y| - t)[..|y| - t], TailCentred(u, t)[t..], sqrt) == LagCoefficient(y, u, t, sqrt)
  {
    var n := |y|;
    RecentreWindow(y, Mean(y[..n - (t - 1)]), 0, n - t);
    assert ys[..n - t] == ys[0..n - t];
    assert y[..n - t] == y[0..n - t];
    RecentreWindow(u, Mean(u[t - 1..]), t, n);
    assert us[t..] == us[t..n];
    assert u[t..] == u[t..n];
    WindowsCentred(y, u, t);
  }

  /**
   * After the update at lag `t`, `y[:-t]` and `u[t:]` are the centred
   * windows of the original series, so each has zero mean.
   */
  lemma WindowsCentred(y: seq<real>, u: seq<real>, t: nat)
    requires 1 <= t < |y| == |u|
    ensures HeadCentred(y, |y| - t)[..|y| - t] == Centre(y[..|y| - t]) && Sum(HeadCentred(y, |y| - t)[..|y| - t]) == 0.0
    ensures TailCentred(u, t)[t..] == Centre(u[t..]) && Sum(TailCentred(u, t)[t..]) == 0.0
  {
    var n := |y|;
    ShiftSlice(y, Mean(y[..n - t]), 0, n - t);
    assert y[..n - t] == y[0..n - t];
    ShiftSlice(u, Mean(u[t..]), t, n);
    assert u[t..] == u[t..n];
    CentreSumsToZero(y[..n - t]);
    CentreSumsToZero(u[t..]);
  }

  /**
   * Line 76 with `u == y`: a non-constant series has coefficient 1 at
   * lag 0.
   */
  lemma AutoZeroLagIsOne(y: seq<real>, sqrt: real -> real)
    requires IsSqrt(sqrt) && |y| >= 2 && Var(y) != 0.0
    ensures LagCoefficient(y, y, 0, sqrt) == Num(1.0)
  {
    assert y[..|y| - 0] == y && y[0..] == y;
    Correlation.NormalizedCovarianceSelf(y, sqrt);
  }

  /** A stored NaN is numpy's 0/0: the covariance of the two windows is 0 as well. */
  lemma LagCoefficientNaNIsZeroOverZero(y: seq<real>, u: seq<real>, k: nat, sqrt: real -> real)
    requires IsSqrt(sqrt) && |y| == |u| && k < |y|
    ensures LagCoefficient(y, u, k, sqrt).NaN? ==> Dot(Centre(y[..|y| - k]), Centre(u[k..])) == 0.0
  {
    Correlation.NormalizedCovarianceNaNIsZeroOverZero(y[..|y| - k], u[k..], sqrt);
  }

  /** Every coefficient the loop stores lies in `[-1, 1]` (or is NaN for a constant window). */
  lemma LagCoefficientBounded(y: seq<real>, u: seq<real>, k: nat, sqrt: real -> real)
    requires IsSqrt(sqrt) && |y| == |u| && k < |y|
    ensures LagCoefficient(y, u, k, sqrt).Num? ==> -1.0 <= LagCoefficient(y, u, k, sqrt).x <= 1.0
  {
    Correlation.NormalizedCovarianceBounded(y[..|y| - k], u[k..], sqrt);
  }
}
