/**
 * `correlation` and `normalized_covariance` of
 * system_identification/covariance.py: the normalised correlogram of one
 * or two time series with its confidence band, and Pearson's coefficient.
 *
 * numpy's square root enters as a parameter `sqrt` (any function meeting
 * `Series.IsSqrt`), and the normal quantile as the number `z` with
 * `norm.interval(c) == (-z, z)`.
 */
module Correlation {
  import opened Wrappers
  import opened Floats
  import opened Series

  /** The optional second argument `u`, by what `np.array(u)` makes of it. */
  datatype SecondArg = Omitted | Scalar(value: real) | Samples(s: seq<real>)

  /** `np.array(u).ndim`: `None` and a number give 0-dimensional arrays. */
  function Ndim(u: SecondArg): nat
  {
    if u.Samples? then 1 else 0
  }

  /** `np.correlate` raises ValueError on an empty operand. */
  datatype CorrError = EmptyOperand

  /** What `correlation` returns: values, lags, lower and upper bound. */
  datatype Correlogram = Correlogram(values: seq<Float>, lags: seq<int>, lower: real, upper: real)

  /** `np.arange(lo, hi)`. */
  function Arange(lo: int, hi: int): seq<int>
  {
    if lo < hi then seq(hi - lo, i => lo + i) else []
  }

  /** The lag axis `t = np.arange(-(N - 1), N)`. */
  function LagAxis(n: nat): seq<int>
  {
    Arange(-(n - 1), n)
  }

  function Min(a: int, b: int): int
  {
    if a <= b then a else b
  }

  /** `Σ_n a[n + k] · v[n]` over every `n` at which both samples exist. */
  function Lagged(a: seq<real>, v: seq<real>, k: int): real
  {
    if k >= 0 then
      var m := Min(|a| - k, |v|);
      if m <= 0 then 0.0 else Dot(a[k..k + m], v[..m])
    else
      var m := Min(|a|, |v| + k);
      if m <= 0 then 0.0 else Dot(a[..m], v[-k..-k + m])
  }

  /** `np.correlate(a, v, mode='full')`: entry `i` is the lagged sum at lag `i - (|v| - 1)`. */
  function FullCorrelate(a: seq<real>, v: seq<real>): (r: seq<real>)
    requires |a| > 0 && |v| > 0
    ensures |r| == |a| + |v| - 1
  {
    seq(|a| + |v| - 1, i => Lagged(a, v, i - (|v| - 1)))
  }

  /** Element-wise division of a series by one number. */
  function Divide(c: seq<real>, d: real): (r: seq<Float>)
    ensures |r| == |c|
  {
    seq(|c|, i requires 0 <= i < |c| => Quotient(c[i], d))
  }

  /** The series `u` stands for: `y` itself in autocorrelation mode. */
  function Partner(y: seq<real>, u: SecondArg): seq<real>
  {
    if Ndim(u) < 1 then y else u.s
  }

  /** The common divisor `sqrt(var(y) · var(u)) · N`. */
  function Denominator(y: seq<real>, u: SecondArg, sqrt: real -> real): real
  {
    Spread(Var(y), Var(Partner(y, u)), |y| as real, sqrt)
  }

  /** `sqrt(vy · vu) · n`. */
  function Spread(vy: real, vu: real, n: real, sqrt: real -> real): real
  {
    Times(sqrt(Times(vy, vu)), n)
  }

  /**
   * Multiplication, named so that equal factors give equal products by
   * congruence (the solver does not always see `a · b == a · c` from `b == c`).
   */
  function Times(a: real, b: real): real
  {
    a * b
  }

  /** `correlation(y, u, confidence_level)`. */
  function Correlate(y: seq<real>, u: SecondArg, z: real, sqrt: real -> real): (r: Result<Correlogram, CorrError>)
    requires IsSqrt(sqrt)
    ensures r.Failure? <==> |y| == 0 || |Partner(y, u)| == 0
    ensures r.Success? ==> r.value.lower == -r.value.upper && r.value.upper == z / sqrt(|y| as real)
  {
    if |y| == 0 || (Ndim(u) >= 1 && |u.s| == 0) then Failure(EmptyOperand)
    else
      var n := |y|;
      var t := LagAxis(n);
      var yTemp := Centre(y);
      var uTemp := if Ndim(u) < 1 then yTemp else Centre(u.s);
      var t0 := if Ndim(u) < 1 then |t| / 2 else 0;
      var ryu := Divide(FullCorrelate(yTemp, uTemp), Denominator(y, u, sqrt));
      RootPositive(sqrt, n as real);
      var bound := z / sqrt(n as real);
      Success(Correlogram(ryu[t0..], t[t0..], -bound, bound))
  }

  lemma RootPositive(sqrt: real -> real, x: real)
    requires IsSqrt(sqrt) && x > 0.0
    ensures sqrt(x) > 0.0
  {
    assert sqrt(x) * sqrt(x) == x;
  }

  // ---------------------------------------------------------------------
  // The lag axis and the cut

  /** `t` has `2N - 1` entries, from `-(N - 1)` up to `N - 1` in steps of one. */
  lemma LagAxisShape(n: nat)
    requires n > 0
    ensures |LagAxis(n)| == 2 * n - 1
    ensures LagAxis(n)[0] == -(n - 1) && LagAxis(n)[2 * n - 2] == n - 1
    ensures forall i :: 0 <= i < 2 * n - 2 ==> LagAxis(n)[i + 1] == LagAxis(n)[i] + 1
  {
  }

  /**
   * In autocorrelation mode (`u` absent or a scalar) the cut index is
   * `N - 1`: exactly the lags `0 … N - 1` and `N` values are returned.
   */
  lemma AutoModeShape(y: seq<real>, u: SecondArg, z: real, sqrt: real -> real)
    requires IsSqrt(sqrt) && |y| > 0 && Ndim(u) < 1
    ensures Correlate(y, u, z, sqrt).Success?
    ensures |Correlate(y, u, z, sqrt).value.values| == |y|
    ensures Correlate(y, u, z, sqrt).value.lags == Arange(0, |y|)
  {
    var t := LagAxis(|y|);
    assert |t| / 2 == |y| - 1;
    assert t[|y| - 1..] == Arange(0, |y|);
  }

  /**
   * In cross mode nothing is cut: all `N + M - 1` values and all `2N - 1`
   * lags are returned, and the two have the same length only when `M == N`.
   */
  lemma CrossModeShape(y: seq<real>, u: seq<real>, z: real, sqrt: real -> real)
    requires IsSqrt(sqrt) && |y| > 0 && |u| > 0
    ensures Correlate(y, Samples(u), z, sqrt).Success?
    ensures |Correlate(y, Samples(u), z, sqrt).value.values| == |y| + |u| - 1
    ensures Correlate(y, Samples(u), z, sqrt).value.lags == LagAxis(|y|)
    ensures |Correlate(y, Samples(u), z, sqrt).value.values| == |Correlate(y, Samples(u), z, sqrt).value.lags| <==> |u| == |y|
  {
  }

  // ---------------------------------------------------------------------
  // Normalisation

  /**
   * Every returned value is the lagged sum of the centred series at its
   * lag divided by the one common denominator; in autocorrelation mode
   * value `i` sits at lag `i`, in cross mode at lag `i - (M - 1)`.
   */
  lemma ValuesAreNormalisedLaggedSums(y: seq<real>, u: SecondArg, z: real, sqrt: real -> real)
    requires IsSqrt(sqrt) && Correlate(y, u, z, sqrt).Success?
    ensures var c := Correlate(y, u, z, sqrt).value;
      var first := if Ndim(u) < 1 then 0 else -(|Partner(y, u)| - 1);
      forall i :: 0 <= i < |c.values| ==>
        c.values[i] == Quotient(Lagged(Centre(y), Centre(Partner(y, u)), first + i), Denominator(y, u, sqrt))
  {
    var n := |y|;
    if Ndim(u) < 1 {
      assert |LagAxis(n)| / 2 == n - 1;
    }
  }

  /** With the lag reversed, the lagged sum of a series with itself is unchanged. */
  lemma LaggedSymmetric(a: seq<real>, k: int)
    ensures Lagged(a, a, -k) == Lagged(a, a, k)
  {
    if k > 0 && k < |a| {
      DotComm(a[k..|a|], a[..|a| - k]);
    } else if k < 0 && -k < |a| {
      DotComm(a[-k..|a|], a[..|a| + k]);
    }
  }

  /**
   * The full autocorrelation is symmetric about its middle entry, which is
   * why only its right half is kept.
   */
  lemma FullAutoCorrelateSymmetric(a: seq<real>)
    requires |a| > 0
    ensures var r := FullCorrelate(a, a);
      forall i, j :: 0 <= i < |r| && 0 <= j < |r| && i + j == |r| - 1 ==> r[i] == r[j]
  {
    var r := FullCorrelate(a, a);
    forall i, j | 0 <= i < |r| && 0 <= j < |r| && i + j == |r| - 1
      ensures r[i] == r[j]
    {
      LaggedSymmetric(a, j - (|a| - 1));
    }
  }

  lemma LaggedZeroLag(a: seq<real>, v: seq<real>)
    requires |a| == |v|
    ensures Lagged(a, v, 0) == Dot(a, v)
  {
    assert a[0..|a|] == a && v[..|v|] == v;
  }

  /** For a non-constant `y` the autocorrelation at lag 0 is exactly 1. */
  lemma AutoZeroLagIsOne(y: seq<real>, u: SecondArg, z: real, sqrt: real -> real)
    requires IsSqrt(sqrt)
    requires |y| > 0 && Ndim(u) < 1 && Var(y) != 0.0
    ensures Correlate(y, u, z, sqrt).value.values[0] == Num(1.0)
  {
    AutoFirstValue(y, u, z, sqrt);
    AutoVarianceRatio(y, u, sqrt);
  }

  lemma AutoFirstValue(y: seq<real>, u: SecondArg, z: real, sqrt: real -> real)
    requires IsSqrt(sqrt) && |y| > 0 && Ndim(u) < 1
    ensures Correlate(y, u, z, sqrt).value.values[0] == Quotient(SumSq(Centre(y)), Denominator(y, u, sqrt))
  {
    var c := Centre(y);
    ValuesAreNormalisedLaggedSums(y, u, z, sqrt);
    LaggedZeroLag(c, c);
    DotSelf(c);
  }

  /** `Σ y′² / (sqrt(var(y)²) · N) == 1` for a non-constant `y`. */
  lemma AutoVarianceRatio(y: seq<real>, u: SecondArg, sqrt: real -> real)
    requires IsSqrt(sqrt) && |y| > 0 && Ndim(u) < 1 && Var(y) != 0.0
    ensures Quotient(SumSq(Centre(y)), Denominator(y, u, sqrt)) == Num(1.0)
  {
    VarNonNegative(y);
    assert Partner(y, u) == y;
    SqrtOfSquare(sqrt, Var(y));
    assert Times(Var(y), |y| as real) == SumSq(Centre(y));
    QuotientSelf(SumSq(Centre(y)), Denominator(y, u, sqrt));
  }

  /** The square root of `v · v` is `v` for a non-negative `v`. */
  lemma SqrtOfSquare(sqrt: real -> real, v: real)
    requires IsSqrt(sqrt) && v >= 0.0
    ensures sqrt(Times(v, v)) == v
  {
    var w := Times(v, v);
    SquareNonNegative(v);
    assert sqrt(w) >= 0.0 && sqrt(w) * sqrt(w) == w;
    RootUnique(sqrt(w), v);
  }

  /**
   * A zero denominator (one series constant) comes with an all-zero
   * lagged sum, so every NaN the division produces is numpy's 0/0.
   */
  lemma ZeroDenominatorZeroSums(y: seq<real>, u: SecondArg, sqrt: real -> real, k: int)
    requires IsSqrt(sqrt)
    requires |y| > 0 && |Partner(y, u)| > 0
    requires Denominator(y, u, sqrt) == 0.0
    ensures Var(y) == 0.0 || Var(Partner(y, u)) == 0.0
    ensures Lagged(Centre(y), Centre(Partner(y, u)), k) == 0.0
  {
    var p := Partner(y, u);
    VarNonNegative(y);
    VarNonNegative(p);
    var w := Var(y) * Var(p);
    ZeroProduct(sqrt(w), |y| as real);
    SquareZero(sqrt(w));
    ZeroProduct(Var(y), Var(p));
    VarZero(y);
    VarZero(p);
    LaggedWithZero(Centre(y), Centre(p), k);
  }

  lemma LaggedWithZero(a: seq<real>, v: seq<real>, k: int)
    requires AllZero(a) || AllZero(v)
    ensures Lagged(a, v, k) == 0.0
  {
    if k >= 0 {
      var m := Min(|a| - k, |v|);
      if m > 0 {
        DotWithZero(a[k..k + m], v[..m]);
      }
    } else {
      var m := Min(|a|, |v| + k);
      if m > 0 {
        DotWithZero(a[..m], v[-k..-k + m]);
      }
    }
  }

  // ---------------------------------------------------------------------
  // Pearson's coefficient

  /** `normalized_covariance(x, y)`: `np.corrcoef` raises on series of different lengths. */
  datatype CovError = LengthMismatch

  /** `np.corrcoef(x, y)[0, 1]`: the covariance of the two series over the product of their spreads. */
  function NormalizedCovariance(x: seq<real>, y: seq<real>, sqrt: real -> real): (r: Result<Float, CovError>)
    ensures r.Failure? <==> |x| != |y|
  {
    if |x| != |y| then Failure(LengthMismatch)
    else
      var cx, cy := Centre(x), Centre(y);
      Success(Quotient(Dot(cx, cy), Times(sqrt(SumSq(cx)), sqrt(SumSq(cy)))))
  }

  lemma NormalizedCovarianceSymmetric(x: seq<real>, y: seq<real>, sqrt: real -> real)
    ensures NormalizedCovariance(x, y, sqrt) == NormalizedCovariance(y, x, sqrt)
  {
    if |x| == |y| {
      DotComm(Centre(x), Centre(y));
      assert Times(sqrt(SumSq(Centre(x))), sqrt(SumSq(Centre(y)))) == Times(sqrt(SumSq(Centre(y))), sqrt(SumSq(Centre(x))));
    }
  }

  /**
   * The coefficient is NaN only as numpy's 0/0: a zero divisor means one
   * series is constant, and then the covariance in the numerator is 0 too.
   */
  lemma NormalizedCovarianceNaNIsZeroOverZero(x: seq<real>, y: seq<real>, sqrt: real -> real)
    requires IsSqrt(sqrt) && |x| == |y|
    ensures NormalizedCovariance(x, y, sqrt).value.NaN? ==> Dot(Centre(x), Centre(y)) == 0.0
  {
    var cx, cy := Centre(x), Centre(y);
    if NormalizedCovariance(x, y, sqrt).value.NaN? {
      SumSqNonNegative(cx);
      SumSqNonNegative(cy);
      ZeroProduct(sqrt(SumSq(cx)), sqrt(SumSq(cy)));
      if sqrt(SumSq(cx)) == 0.0 {
        SumSqZero(cx);
      } else {
        SumSqZero(cy);
      }
      DotWithZero(cx, cy);
    }
  }

  /** A non-constant series is perfectly correlated with itself. */
  lemma NormalizedCovarianceSelf(x: seq<real>, sqrt: real -> real)
    requires IsSqrt(sqrt) && Var(x) != 0.0
    ensures NormalizedCovariance(x, x, sqrt) == Success(Num(1.0))
  {
    var c := Centre(x);
    DotSelf(c);
    SumSqNonNegative(c);
    assert SumSq(c) != 0.0;
    assert Times(sqrt(SumSq(c)), sqrt(SumSq(c))) == SumSq(c);
    QuotientSelf(SumSq(c), Times(sqrt(SumSq(c)), sqrt(SumSq(c))));
  }

  /**
   * The coefficient lies in `[-1, 1]` (Cauchy–Schwarz), so the clipping
   * `np.corrcoef` applies last never changes it.
   */
  lemma NormalizedCovarianceBounded(x: seq<real>, y: seq<real>, sqrt: real -> real)
    requires IsSqrt(sqrt) && |x| == |y|
    ensures NormalizedCovariance(x, y, sqrt).value.Num? ==> -1.0 <= NormalizedCovariance(x, y, sqrt).value.x <= 1.0
  {
    var cx, cy := Centre(x), Centre(y);
    SumSqNonNegative(cx);
    SumSqNonNegative(cy);
    CauchySchwarz(cx, cy);
    BoundedRatio(Dot(cx, cy), SumSq(cx), SumSq(cy), sqrt(SumSq(cx)), sqrt(SumSq(cy)));
  }

  /** `|n| / (√A · √B) ≤ 1` whenever `n² ≤ A · B`. */
  lemma BoundedRatio(n: real, a: real, b: real, sa: real, sb: real)
    requires sa >= 0.0 && sb >= 0.0 && sa * sa == a && sb * sb == b
    requires n * n <= a * b
    ensures Quotient(n, Times(sa, sb)).Num? ==> -1.0 <= Quotient(n, Times(sa, sb)).x <= 1.0
  {
    var d := sa * sb;
    if d != 0.0 {
      MulNonNegative(sa, sb);
      assert a * b == d * d;
      SquareBound(n, d);
      QuotientBound(n, d);
    }
  }

  lemma MulNonNegative(a: real, b: real)
    requires a >= 0.0 && b >= 0.0
    ensures a * b >= 0.0
  {
  }

}
