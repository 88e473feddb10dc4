/**
 * Test functions for optimisation algorithms: each sums a per-coordinate
 * term in a loop. Floating-point values are modelled as reals; the NaN of
 * `nan_sphere` is `Floats.NaN`.
 */
module BenchmarkFunctions {
  import opened Floats
  import opened Series

  predicate NoNegative(x: seq<real>)
  {
    forall i :: 0 <= i < |x| ==> x[i] >= 0.0
  }

  /** `sphere(x)`: the sum of the squares, which vanishes exactly at the origin. */
  method Sphere(x: seq<real>) returns (total: real)
    ensures total == SumSq(x)
    ensures total >= 0.0
    ensures total == 0.0 <==> AllZero(x)
  {
    total := 0.0;
    for i := 0 to |x|
      invariant total == SumSq(x[..i])
    {
      assert x[..i + 1][..i] == x[..i];
      total := total + x[i] * x[i];
    }
    assert x[..|x|] == x;
    SumSqNonNegative(x);
    SumSqZero(x);
  }

  /**
   * `nan_sphere(x)`: a negative coordinate turns the running total into
   * NaN, which every later addition keeps; otherwise the sum of squares.
   */
  method NanSphere(x: seq<real>) returns (total: Float)
    ensures total.NaN? <==> !NoNegative(x)
    ensures total.Num? ==> total.x == SumSq(x)
  {
    total := Num(0.0);
    for i := 0 to |x|
      invariant total.NaN? <==> !NoNegative(x[..i])
      invariant total.Num? ==> total.x == SumSq(x[..i])
    {
      assert x[..i + 1][..i] == x[..i];
      assert x[..i + 1][i] == x[i];
      if x[i] < 0.0 {
        total := NaN;
      } else {
        total := Plus(total, x[i] * x[i]);
      }
    }
    assert x[..|x|] == x;
  }

  /** `constant(x)`: the flat plane at height -1, whatever the point. */
  function Constant(x: seq<real>): (r: int)
    ensures r == -1
  {
    -1
  }

  /** One term of `rosenbrock`: `100·(a² - b)² + (1 - a)²`. */
  function RosenbrockTerm(a: real, b: real): real
  {
    100.0 * ((a * a - b) * (a * a - b)) + (1.0 - a) * (1.0 - a)
  }

  /** The sum of the first `k` terms, for `k < |x|`. */
  function RosenbrockSum(x: seq<real>, k: nat): real
    requires k < |x|
  {
    if k == 0 then 0.0 else RosenbrockSum(x, k - 1) + RosenbrockTerm(x[k - 1], x[k])
  }

  /** `range(len(x) - 1)` is empty for fewer than two coordinates. */
  function RosenbrockValue(x: seq<real>): real
  {
    if |x| <= 1 then 0.0 else RosenbrockSum(x, |x| - 1)
  }

  /** `rosenbrock(x)`. */
  method Rosenbrock(x: seq<real>) returns (total: real)
    ensures total == RosenbrockValue(x)
  {
    total := 0.0;
    if |x| <= 1 {
      return;
    }
    for i := 0 to |x| - 1
      invariant total == RosenbrockSum(x, i)
    {
      total := total + (100.0 * ((x[i] * x[i] - x[i + 1]) * (x[i] * x[i] - x[i + 1])) + (1.0 - x[i]) * (1.0 - x[i]));
    }
  }

  lemma TermNonNegative(a: real, b: real)
    ensures RosenbrockTerm(a, b) >= 0.0
  {
    SquareNonNegative(a * a - b);
    SquareNonNegative(1.0 - a);
  }

  /** A term vanishes only at `a = b = 1`. */
  lemma TermZero(a: real, b: real)
    ensures RosenbrockTerm(a, b) == 0.0 <==> a == 1.0 && b == 1.0
  {
    SquareNonNegative(a * a - b);
    SquareNonNegative(1.0 - a);
    if RosenbrockTerm(a, b) == 0.0 {
      SquareZero(a * a - b);
      SquareZero(1.0 - a);
    }
  }

  predicate AllOnes(x: seq<real>)
  {
    forall i :: 0 <= i < |x| ==> x[i] == 1.0
  }

  lemma {:induction false} RosenbrockSumNonNegative(x: seq<real>, k: nat)
    requires k < |x|
    ensures RosenbrockSum(x, k) >= 0.0
    ensures k > 0 ==> (RosenbrockSum(x, k) == 0.0 <==> forall i :: 0 <= i <= k ==> x[i] == 1.0)
  {
    if k > 0 {
      RosenbrockSumNonNegative(x, k - 1);
      assert RosenbrockSum(x, k) == RosenbrockSum(x, k - 1) + RosenbrockTerm(x[k - 1], x[k]);
      TermNonNegative(x[k - 1], x[k]);
      TermZero(x[k - 1], x[k]);
    }
  }

  /**
   * The Rosenbrock function is non-negative and, with at least two
   * coordinates, reaches 0 exactly at the point of all ones.
   */
  lemma RosenbrockMinimum(x: seq<real>)
    ensures RosenbrockValue(x) >= 0.0
    ensures |x| <= 1 ==> RosenbrockValue(x) == 0.0
    ensures |x| >= 2 ==> (RosenbrockValue(x) == 0.0 <==> AllOnes(x))
  {
    if |x| >= 2 {
      RosenbrockSumNonNegative(x, |x| - 1);
    }
  }

  /** One term of `styblinski_tang`: `a⁴ - 16·a² + 5·a`. */
  function StyblinskiTerm(a: real): real
  {
    a * a * a * a - 16.0 * (a * a) + 5.0 * a
  }

  function StyblinskiSum(x: seq<real>): real
  {
    if |x| == 0 then 0.0 else StyblinskiSum(x[..|x| - 1]) + StyblinskiTerm(x[|x| - 1])
  }

  /** `styblinski_tang(x)`: half the sum of the terms. */
  method StyblinskiTang(x: seq<real>) returns (value: real)
    ensures value == StyblinskiSum(x) / 2.0
  {
    var total := 0.0;
    for i := 0 to |x|
      invariant total == StyblinskiSum(x[..i])
    {
      assert x[..i + 1][..i] == x[..i];
      total := total + (x[i] * x[i] * x[i] * x[i] - 16.0 * (x[i] * x[i]) + 5.0 * x[i]);
    }
    assert x[..|x|] == x;
    value := total / 2.0;
  }

  /** Every term is at least -80 (the true minimum is about -78.33 at a ≈ -2.9035). */
  lemma StyblinskiTermBound(a: real)
    ensures StyblinskiTerm(a) >= -80.0
  {
    var s := a * a - 8.0;
    assert StyblinskiTerm(a) + 80.0 == s * s + 5.0 * a + 16.0;
    SquareNonNegative(s);
    if a < -3.2 {
      assert a * a == (-a) * (-a);
      FarLeftBound(-a);
    }
  }

  /** For `b > 3.2`: `(b² - 8)² ≥ 5·b - 16`, the case `a = -b` of the bound above. */
  lemma FarLeftBound(b: real)
    requires b > 3.2
    ensures (b * b - 8.0) * (b * b - 8.0) >= 5.0 * b - 16.0
  {
    MulNonNegativeOrdered(b, b, 3.2);
    var s := b * b - 8.0;
    assert s >= 3.2 * b - 8.0 >= 2.24;
    MulNonNegativeOrdered(s, s, 2.24);
    assert s * s >= s * 2.24;
    assert s * 2.24 >= (3.2 * b - 8.0) * 2.24;
  }

  lemma MulNonNegativeOrdered(k: real, x: real, c: real)
    requires k >= 0.0 && x >= c
    ensures k * x >= k * c
  {
    assert k * x - k * c == k * (x - c);
  }

  /** `styblinski_tang` is at least `-40` per coordinate, and 0 with no coordinates. */
  lemma {:induction false} StyblinskiBound(x: seq<real>)
    ensures StyblinskiSum(x) / 2.0 >= -40.0 * (|x| as real)
    ensures |x| == 0 ==> StyblinskiSum(x) / 2.0 == 0.0
  {
    if |x| > 0 {
      StyblinskiBound(x[..|x| - 1]);
      StyblinskiTermBound(x[|x| - 1]);
    }
  }
}
