/** The optional value and the value-or-error outcome shared by the modules of this model. */
module Wrappers {

  datatype Option<+T> = None | Some(value: T)

  /** The outcome of an operation that either returns a value or raises. */
  datatype Result<+R, +E> = Success(value: R) | Failure(error: E)
}

/**
 * A double-precision value restricted to what the modelled code can
 * produce: a finite number or NaN (the result of 0/0 and the value that
 * absorbs every later addition).
 */
module Floats {
  import Series

  datatype Float = Num(x: real) | NaN

  /** numpy's `n / d` where a zero denominator only ever meets a zero numerator. */
  function Quotient(n: real, d: real): (r: Float)
    ensures r.NaN? <==> d == 0.0
  {
    if d == 0.0 then NaN else Num(n / d)
  }

  /** A number quotient times its denominator gives back the numerator. */
  lemma QuotientTimes(n: real, d: real)
    requires d != 0.0
    ensures Quotient(n, d).x * d == n
  {
  }

  /** A non-zero number divided by itself is one. */
  lemma QuotientSelf(a: real, b: real)
    requires a == b && a != 0.0
    ensures Quotient(a, b) == Num(1.0)
  {
    var q := Quotient(a, b).x;
    QuotientTimes(a, b);
    assert (q - 1.0) * b == 0.0;
    Series.ZeroProduct(q - 1.0, b);
  }

  /** A numerator no larger in size than a positive denominator gives a quotient in `[-1, 1]`. */
  lemma QuotientBound(n: real, d: real)
    requires d > 0.0 && -d <= n <= d
    ensures -1.0 <= Quotient(n, d).x <= 1.0
  {
    var q := Quotient(n, d).x;
    QuotientTimes(n, d);
    if q > 1.0 {
      Series.MulPositive(q - 1.0, d);
    } else if q < -1.0 {
      Series.MulPositive(-1.0 - q, d);
    }
  }

  /** Addition in which NaN absorbs. */
  function Plus(a: Float, b: real): (r: Float)
    ensures r.NaN? <==> a.NaN?
    ensures a.Num? ==> r.x - a.x == b
  {
    match a
    case NaN => NaN
    case Num(x) => Num(x + b)
  }
}
