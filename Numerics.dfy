/**
 * Arithmetic shared by the library: `double` is modelled as `real`, the C math library's
 * transcendental functions are a parameter (`Libm`), and the fixed-width integer
 * arithmetic the regression model relies on is written out.
 */
module Numerics {

  /** The parts of <cmath> the library calls and the model cannot interpret. */
  datatype Libm = Libm(log: real -> real, exp: real -> real, sqrt: real -> real)

  /** The decimal text of the M_PI macro. */
  const Pi: real := 3.14159265358979323846
  /** The decimal text of the M_E macro. */
  const E: real := 2.71828182845904523536
  /** std::numeric_limits<double>::epsilon(), which is exactly 2^-52. */
  const Epsilon: real := 1.0 / 4503599627370496.0
  /** Decimal renderings of std::numeric_limits<double>::max() and ::min(); ::min() is the
      smallest POSITIVE normal double, not the most negative one. */
  const DoubleMax: real := 1.7976931348623157e308
  const DoubleMinNormal: real := 2.2250738585072014e-308

  /** Sum of a vector, the value std::accumulate(v.begin(), v.end(), 0.0) denotes. */
  function Sum(s: seq<real>): real
    decreases |s|
  {
    if s == [] then 0.0 else s[0] + Sum(s[1..])
  }

  lemma {:induction false} SumAppend(a: seq<real>, b: seq<real>)
    ensures Sum(a + b) == Sum(a) + Sum(b)
    decreases |a|
  {
    if a == [] {
      assert a + b == b;
    } else {
      assert (a + b)[1..] == a[1..] + b;
      SumAppend(a[1..], b);
    }
  }

  /** One step of a left-to-right accumulation loop. */
  lemma SumPrefixStep(s: seq<real>, i: nat)
    requires i < |s|
    ensures Sum(s[..i + 1]) == Sum(s[..i]) + s[i]
  {
    assert s[..i + 1] == s[..i] + [s[i]];
    SumAppend(s[..i], [s[i]]);
    assert Sum([s[i]]) == s[i] + Sum([]);
  }

  /** n copies of b added up, n * b without a product the solver must reason about. */
  function Times(n: nat, b: real): real
  {
    if n == 0 then 0.0 else b + Times(n - 1, b)
  }

  lemma {:induction false} TimesIsProduct(n: nat, b: real)
    ensures Times(n, b) == n as real * b
  {
    if n > 0 {
      TimesIsProduct(n - 1, b);
    }
  }

  /** Summing terms that are an affine image of another vector. */
  lemma {:induction false} SumAffine(s: seq<real>, t: seq<real>, a: real, b: real)
    requires |s| == |t|
    requires forall i :: 0 <= i < |s| ==> t[i] == a * s[i] + b
    ensures Sum(t) == a * Sum(s) + Times(|s|, b)
    decreases |s|
  {
    if s != [] {
      SumAffine(s[1..], t[1..], a, b);
    }
  }

  /** A sum of zero terms is zero. */
  lemma {:induction false} SumOfZeros(s: seq<real>)
    requires forall i :: 0 <= i < |s| ==> s[i] == 0.0
    ensures Sum(s) == 0.0
    decreases |s|
  {
    if s != [] {
      SumOfZeros(s[1..]);
    }
  }

  /** A sum of non-negative terms is non-negative. */
  lemma {:induction false} SumNonNegative(s: seq<real>)
    requires forall i :: 0 <= i < |s| ==> s[i] >= 0.0
    ensures Sum(s) >= 0.0
    decreases |s|
  {
    if s != [] {
      SumNonNegative(s[1..]);
    }
  }

  /** The inner product of the first |x| coefficients with x. */
  function Dot(c: seq<real>, x: seq<real>): real
    requires |x| <= |c|
  {
    Sum(seq(|x|, i requires 0 <= i < |x| => c[i] * x[i]))
  }

  /** The squared residuals (r[i] - f[i])^2 of a response against fitted values. */
  function SquaredResiduals(r: seq<real>, f: seq<real>): (e: seq<real>)
    requires |r| == |f|
    ensures |e| == |r|
  {
    seq(|r|, i requires 0 <= i < |r| => (r[i] - f[i]) * (r[i] - f[i]))
  }

  /** No element is zero, so it may be a divisor. */
  predicate ZeroFree(x: seq<real>)
  {
    forall i :: 0 <= i < |x| ==> x[i] != 0.0
  }

  function Abs(x: real): real
  {
    if x < 0.0 then -x else x
  }

  /** Equal arguments give equal logarithms (stated once so that the solver need not find
      the equality of two products inside an application). */
  lemma LogOfEqual(libm: Libm, a: real, b: real)
    requires a == b
    ensures libm.log(a) == libm.log(b)
  {
  }

  lemma NonZeroProduct(d: real, v: real)
    requires d != 0.0 && v != 0.0
    ensures d * d * v != 0.0
  {
  }

  /** The arithmetic mean of a non-empty vector: accumulate divided by size. */
  function Mean(r: seq<real>): real
    requires |r| > 0
  {
    Sum(r) / |r| as real
  }

  /** Each element moved halfway towards c. */
  function MovedHalfway(r: seq<real>, c: real): (m: seq<real>)
    ensures |m| == |r|
  {
    seq(|r|, i requires 0 <= i < |r| => 0.5 * (r[i] + c))
  }

  lemma SumMovedHalfway(r: seq<real>, c: real)
    ensures Sum(MovedHalfway(r, c)) == 0.5 * Sum(r) + Times(|r|, 0.5 * c)
  {
    var m := MovedHalfway(r, c);
    assert forall i :: 0 <= i < |r| ==> m[i] == 0.5 * r[i] + 0.5 * c;
    SumAffine(r, m, 0.5, 0.5 * c);
  }

  /**
   * The IRLS warm start both distributions compute: each response moved halfway towards
   * the sample mean.
   */
  function Midpoints(r: seq<real>): (m: seq<real>)
    requires |r| > 0
    ensures |m| == |r|
  {
    MovedHalfway(r, Mean(r))
  }

  /** The warm start keeps the total of the responses. */
  lemma MidpointsPreserveSum(r: seq<real>)
    requires |r| > 0
    ensures Sum(Midpoints(r)) == Sum(r)
  {
    var c := Mean(r);
    SumMovedHalfway(r, c);
    MeanTimesCount(r);
    HalfwayToMean(|r|, Sum(r), c, Sum(MovedHalfway(r, c)));
  }

  lemma MeanTimesCount(r: seq<real>)
    requires |r| > 0
    ensures Times(|r|, Mean(r)) == Sum(r)
  {
    TimesIsProduct(|r|, Mean(r));
  }

  lemma HalfwayToMean(n: nat, total: real, c: real, moved: real)
    requires Times(n, c) == total
    requires moved == 0.5 * total + Times(n, 0.5 * c)
    ensures moved == total
  {
    TimesIsProduct(n, c);
    TimesIsProduct(n, 0.5 * c);
    HalfOfProduct(n as real, c);
  }

  lemma HalfOfProduct(k: real, c: real)
    ensures k * (0.5 * c) == 0.5 * (k * c)
  {
  }

  /** A constant response is its own warm start. */
  lemma MidpointsOfConstant(r: seq<real>, c: real)
    requires |r| > 0
    requires forall i :: 0 <= i < |r| ==> r[i] == c
    ensures Midpoints(r) == r
  {
    SumAffine(r, r, 0.0, c);
    assert Sum(r) == Times(|r|, c);
    MeanOfRepeated(|r|, c, Sum(r));
  }

  lemma MeanOfRepeated(n: nat, c: real, total: real)
    requires n > 0 && total == Times(n, c)
    ensures total / n as real == c
  {
    TimesIsProduct(n, c);
  }

  /** Width of C++ `unsigned long` on the LP64 platforms the library targets. */
  const ULongModulus: int := 0x1_0000_0000_0000_0000
  /** Sizes of std::vector stay below 2^63 (its max_size()). */
  const LongLimit: int := 0x8000_0000_0000_0000

  /** `a - b` evaluated in `unsigned long`: wraps around modulo 2^64. */
  function ULongSub(a: nat, b: nat): (u: nat)
    ensures u < ULongModulus
  {
    (a - b) % ULongModulus
  }

  /** Conversion of an `unsigned long` to `long` (two's complement). */
  function ULongToLong(u: nat): (v: int)
    requires u < ULongModulus
    ensures -LongLimit <= v < LongLimit
  {
    if u < LongLimit then u else u - ULongModulus
  }

  /** The wrapped difference of two vector sizes, read back as `long`, is the true difference,
      negative when b exceeds a. */
  lemma ULongDifference(a: nat, b: nat)
    requires a < LongLimit && b < LongLimit
    ensures ULongToLong(ULongSub(a, b)) == a - b
  {
    if a < b {
      assert ULongSub(a, b) == a - b + ULongModulus;
    } else {
      assert ULongSub(a, b) == a - b;
    }
  }
}
