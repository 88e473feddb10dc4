/**
 * Real-valued sample series and the reductions numpy performs on them:
 * sum, mean, broadcast subtraction of a constant, centring, the sum of
 * element-wise products, the sum of squares and the population variance.
 */
module Series {

  /** `np.sum(s)`, accumulated from the first sample to the last. */
  function Sum(s: seq<real>): real
  {
    if |s| == 0 then 0.0 else Sum(s[..|s| - 1]) + s[|s| - 1]
  }

  /** `np.mean(s)` of a non-empty series. */
  function Mean(s: seq<real>): real
    requires |s| > 0
  {
    Sum(s) / (|s| as real)
  }

  /** `s - c`: the constant broadcast over the series. */
  function Shift(s: seq<real>, c: real): (r: seq<real>)
    ensures |r| == |s|
  {
    seq(|s|, i requires 0 <= i < |s| => s[i] - c)
  }

  /** `s - np.mean(s)`; the empty series stays empty. */
  function Centre(s: seq<real>): (r: seq<real>)
    ensures |r| == |s|
  {
    if |s| == 0 then [] else Shift(s, Mean(s))
  }

  /** `np.sum(a * b)` for two series of the same length. */
  function Dot(a: seq<real>, b: seq<real>): real
    requires |a| == |b|
  {
    if |a| == 0 then 0.0 else Dot(a[..|a| - 1], b[..|b| - 1]) + a[|a| - 1] * b[|b| - 1]
  }

  /** `np.sum(s * s)`, equivalently the sum of `s[i] ** 2`. */
  function SumSq(s: seq<real>): real
  {
    if |s| == 0 then 0.0 else SumSq(s[..|s| - 1]) + s[|s| - 1] * s[|s| - 1]
  }

  /** `np.var(s)`: the population variance (mean squared deviation). */
  function Var(s: seq<real>): real
  {
    if |s| == 0 then 0.0 else SumSq(Centre(s)) / (|s| as real)
  }

  predicate AllZero(s: seq<real>)
  {
    forall i :: 0 <= i < |s| ==> s[i] == 0.0
  }

  /** `f` is a square root: it maps every non-negative real to its non-negative root. */
  ghost predicate IsSqrt(f: real -> real)
  {
    forall x :: 0.0 <= x ==> 0.0 <= f(x) && f(x) * f(x) == x
  }

  // ---------------------------------------------------------------------
  // Sums and shifts

  lemma {:induction false} SumShift(s: seq<real>, c: real)
    ensures Sum(Shift(s, c)) == Sum(s) - (|s| as real) * c
  {
    if |s| > 0 {
      var n := |s|;
      assert Shift(s, c)[..n - 1] == Shift(s[..n - 1], c);
      SumShift(s[..n - 1], c);
    }
  }

  /** Subtracting a constant lowers the mean by that constant. */
  lemma MeanShift(s: seq<real>, c: real)
    requires |s| > 0
    ensures Mean(Shift(s, c)) == Mean(s) - c
  {
    SumShift(s, c);
    var n := |s| as real;
    assert Sum(Shift(s, c)) == Sum(s) - n * c;
    assert (Sum(s) - n * c) / n == Sum(s) / n - c;
  }

  /** A centred series sums to zero (hence has zero mean). */
  lemma CentreSumsToZero(s: seq<real>)
    ensures Sum(Centre(s)) == 0.0
  {
    if |s| > 0 {
      SumShift(s, Mean(s));
      var n := |s| as real;
      assert (Sum(s) / n) * n == Sum(s);
    }
  }

  lemma ShiftShift(s: seq<real>, a: real, b: real)
    ensures Shift(Shift(s, a), b) == Shift(s, a + b)
  {
  }

  lemma ShiftSlice(s: seq<real>, c: real, i: nat, j: nat)
    requires i <= j <= |s|
    ensures Shift(s, c)[i..j] == Shift(s[i..j], c)
  {
  }

  /**
   * Re-centring a shifted series on the mean of one of its windows gives
   * the original series centred on the mean of that window.
   */
  lemma RecentreWindow(s: seq<real>, c: real, i: nat, j: nat)
    requires i < j <= |s|
    ensures Shift(Shift(s, c), Mean(Shift(s, c)[i..j])) == Shift(s, Mean(s[i..j]))
    ensures Shift(Shift(s, c), Mean(Shift(s, c)[i..j]))[i..j] == Centre(s[i..j])
  {
    ShiftSlice(s, c, i, j);
    MeanShift(s[i..j], c);
    ShiftShift(s, c, Mean(s[i..j]) - c);
    ShiftSlice(s, Mean(s[i..j]), i, j);
  }

  // ---------------------------------------------------------------------
  // Products and squares

  lemma {:induction false} DotComm(a: seq<real>, b: seq<real>)
    requires |a| == |b|
    ensures Dot(a, b) == Dot(b, a)
  {
    if |a| > 0 {
      DotComm(a[..|a| - 1], b[..|b| - 1]);
    }
  }

  lemma {:induction false} DotSelf(s: seq<real>)
    ensures Dot(s, s) == SumSq(s)
  {
    if |s| > 0 {
      DotSelf(s[..|s| - 1]);
    }
  }

  lemma {:induction false} DotWithZero(a: seq<real>, b: seq<real>)
    requires |a| == |b|
    requires AllZero(a) || AllZero(b)
    ensures Dot(a, b) == 0.0
  {
    if |a| > 0 {
      DotWithZero(a[..|a| - 1], b[..|b| - 1]);
    }
  }

  lemma {:induction false} SumSqNonNegative(s: seq<real>)
    ensures SumSq(s) >= 0.0
  {
    if |s| > 0 {
      SumSqNonNegative(s[..|s| - 1]);
    }
  }

  /** A sum of squares vanishes exactly when every term does. */
  lemma {:induction false} SumSqZero(s: seq<real>)
    ensures SumSq(s) == 0.0 <==> AllZero(s)
  {
    if |s| > 0 {
      var p := s[..|s| - 1];
      var x := s[|s| - 1];
      SumSqNonNegative(p);
      SumSqZero(p);
      assert AllZero(s) <==> AllZero(p) && x == 0.0 by {
        assert forall i :: 0 <= i < |p| ==> p[i] == s[i];
      }
      if SumSq(s) == 0.0 {
        SquareZero(x);
      }
    }
  }

  lemma ZeroProduct(a: real, b: real)
    requires a * b == 0.0
    ensures a == 0.0 || b == 0.0
  {
  }

  lemma SquareZero(x: real)
    requires x * x == 0.0
    ensures x == 0.0
  {
    ZeroProduct(x, x);
  }

  /** Two non-negative reals with the same square are equal. */
  lemma RootUnique(r: real, v: real)
    requires r >= 0.0 && v >= 0.0 && r * r == v * v
    ensures r == v
  {
    assert (r - v) * (r + v) == r * r - v * v;
    ZeroProduct(r - v, r + v);
  }

  /** `n² ≤ d²` with `d > 0` bounds `n` by `d` on both sides. */
  lemma SquareBound(n: real, d: real)
    requires d > 0.0 && n * n <= d * d
    ensures -d <= n <= d
  {
    assert (n - d) * (n + d) == n * n - d * d;
    if n > d {
      MulPositive(n - d, n + d);
    } else if n < -d {
      MulPositive(d - n, -d - n);
    }
  }

  lemma SquareNonNegative(x: real)
    ensures x * x >= 0.0
  {
  }

  lemma MulPositive(a: real, b: real)
    requires a > 0.0 && b > 0.0
    ensures a * b > 0.0
  {
  }

  lemma VarNonNegative(s: seq<real>)
    ensures Var(s) >= 0.0
  {
    SumSqNonNegative(Centre(s));
  }

  /** A series has zero variance exactly when its centred series is all zero. */
  lemma VarZero(s: seq<real>)
    ensures Var(s) == 0.0 <==> AllZero(Centre(s))
  {
    SumSqZero(Centre(s));
    SumSqNonNegative(Centre(s));
  }

  /** `p * a[i] - q * b[i]` for every index. */
  function Combine(a: seq<real>, b: seq<real>, p: real, q: real): (r: seq<real>)
    requires |a| == |b|
    ensures |r| == |a|
  {
    seq(|a|, i requires 0 <= i < |a| => p * a[i] - q * b[i])
  }

  lemma CombinePrefix(a: seq<real>, b: seq<real>, p: real, q: real)
    requires 0 < |a| == |b|
    ensures Combine(a, b, p, q)[..|a| - 1] == Combine(a[..|a| - 1], b[..|b| - 1], p, q)
    ensures Combine(a, b, p, q)[|a| - 1] == p * a[|a| - 1] - q * b[|b| - 1]
  {
    var c, c' := Combine(a, b, p, q), Combine(a[..|a| - 1], b[..|b| - 1], p, q);
    forall i | 0 <= i < |a| - 1 ensures c[..|a| - 1][i] == c'[i] {
      assert a[..|a| - 1][i] == a[i] && b[..|b| - 1][i] == b[i];
    }
  }

  /** The quadratic form `p²·A - 2pq·D + q²·B`. */
  function Quad(p: real, q: real, a: real, d: real, b: real): real
  {
    p * p * a - 2.0 * p * q * d + q * q * b
  }

  lemma {:induction false} CombineSumSq(a: seq<real>, b: seq<real>, p: real, q: real)
    requires |a| == |b|
    ensures SumSq(Combine(a, b, p, q)) == Quad(p, q, SumSq(a), Dot(a, b), SumSq(b))
  {
    if |a| > 0 {
      var n := |a|;
      CombinePrefix(a, b, p, q);
      CombineSumSq(a[..n - 1], b[..n - 1], p, q);
      Regroup(p, q, a[n - 1], b[n - 1], Combine(a, b, p, q)[n - 1],
              SumSq(Combine(a, b, p, q)), SumSq(Combine(a[..n - 1], b[..n - 1], p, q)),
              SumSq(a), SumSq(a[..n - 1]), Dot(a, b), Dot(a[..n - 1], b[..n - 1]), SumSq(b), SumSq(b[..n - 1]));
    }
  }

  /** The step of CombineSumSq: one more sample on each side adds one more square. */
  lemma Regroup(p: real, q: real, x: real, y: real, z: real, c: real, c': real,
                a: real, a': real, d: real, d': real, b: real, b': real)
    requires z == p * x - q * y
    requires a == a' + x * x && d == d' + x * y && b == b' + y * y && c == c' + z * z
    requires c' == Quad(p, q, a', d', b')
    ensures c == Quad(p, q, a, d, b)
  {
  }

  lemma PositiveFactor(k: real, x: real)
    requires k > 0.0 && k * x >= 0.0
    ensures x >= 0.0
  {
  }

  /** Cauchy–Schwarz: `(Σ a·b)² ≤ Σ a² · Σ b²`. */
  lemma CauchySchwarz(a: seq<real>, b: seq<real>)
    requires |a| == |b|
    ensures Dot(a, b) * Dot(a, b) <= SumSq(a) * SumSq(b)
  {
    var A, B, D := SumSq(a), SumSq(b), Dot(a, b);
    SumSqNonNegative(a);
    SumSqNonNegative(b);
    SumSqZero(b);
    if B == 0.0 {
      DotWithZero(a, b);
    } else {
      CombineSumSq(a, b, B, D);
      SumSqNonNegative(Combine(a, b, B, D));
      QuadFactor(SumSq(a), SumSq(b), Dot(a, b));
    }
  }

  /** `B²·A - 2B·D² + D²·B = B·(A·B - D²)`, so a non-negative form with `B > 0` gives `D² ≤ A·B`. */
  lemma QuadFactor(a: real, b: real, d: real)
    requires b > 0.0 && Quad(b, d, a, d, b) >= 0.0
    ensures d * d <= a * b
  {
    assert b * b * a - 2.0 * b * d * d + d * d * b == b * (a * b - d * d);
    PositiveFactor(b, a * b - d * d);
  }
}
