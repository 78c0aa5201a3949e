/**
 * LogLinkFunction: a link holding a slope and an intercept, with element-wise transforms
 * log, exp, 1/y and -1/y^2.
 */
module LogLinkFunction {
  import opened Wrappers
  import opened Numerics

  /** The constructor's arguments, defaulting to slope 1.0 and intercept 0.0; no transform
      reads them. */
  datatype LogLink = LogLink(slope: real := 1.0, intercept: real := 0.0)
  {
    /** Evaluate: std::transform with log. */
    function Evaluate(libm: Libm, x: seq<real>): (r: seq<real>)
      ensures |r| == |x|
    {
      seq(|x|, i requires 0 <= i < |x| => libm.log(x[i]))
    }

    /** Inverse: std::transform with exp. */
    function Inverse(libm: Libm, x: seq<real>): (r: seq<real>)
      ensures |r| == |x|
    {
      seq(|x|, i requires 0 <= i < |x| => libm.exp(x[i]))
    }

    /** FirstDerivative: y -> 1.0 / y. */
    function FirstDerivative(x: seq<real>): (r: seq<real>)
      requires ZeroFree(x)
      ensures |r| == |x|
    {
      seq(|x|, i requires 0 <= i < |x| => 1.0 / x[i])
    }

    /** SecondDerivative: y -> -1.0 / pow(y, 2). */
    function SecondDerivative(x: seq<real>): (r: seq<real>)
      requires ZeroFree(x)
      ensures |r| == |x|
    {
      seq(|x|, i requires 0 <= i < |x| => -1.0 / (x[i] * x[i]))
    }
  }

  /** A default-constructed link reports slope 1 and intercept 0, and the parameters change no
      transform. */
  lemma Parameters(a: LogLink, b: LogLink, libm: Libm, x: seq<real>)
    ensures LogLink().slope == 1.0 && LogLink().intercept == 0.0
    ensures a.Evaluate(libm, x) == b.Evaluate(libm, x) && a.Inverse(libm, x) == b.Inverse(libm, x)
    ensures ZeroFree(x) ==> a.FirstDerivative(x) == b.FirstDerivative(x) && a.SecondDerivative(x) == b.SecondDerivative(x)
  {
  }

  /** The first derivative of a zero-free vector is zero-free, and the second derivative is
      minus its square, element by element. */
  lemma Derivatives(link: LogLink, x: seq<real>)
    requires ZeroFree(x)
    ensures ZeroFree(link.FirstDerivative(x))
    ensures forall i :: 0 <= i < |x| ==>
      link.SecondDerivative(x)[i] == -(link.FirstDerivative(x)[i] * link.FirstDerivative(x)[i])
  {
    forall i | 0 <= i < |x|
      ensures link.FirstDerivative(x)[i] != 0.0
      ensures link.SecondDerivative(x)[i] == -(link.FirstDerivative(x)[i] * link.FirstDerivative(x)[i])
    {
      ReciprocalSquare(x[i]);
    }
  }

  lemma ReciprocalSquare(y: real)
    requires y != 0.0
    ensures 1.0 / y != 0.0 && -1.0 / (y * y) == -((1.0 / y) * (1.0 / y))
  {
  }

  /** Inverse undoes Evaluate on every element where exp undoes log. */
  lemma RoundTrip(link: LogLink, libm: Libm, x: seq<real>)
    requires forall i :: 0 <= i < |x| ==> libm.exp(libm.log(x[i])) == x[i]
    ensures link.Inverse(libm, link.Evaluate(libm, x)) == x
  {
  }

  /** The contribution -0.5 * w * ((r - f)^2 / scale + common) of one observation. */
  function Contribution(weight: real, response: real, fitted: real, scale: real, common: real): real
    requires scale != 0.0
  {
    -0.5 * weight * ((response - fitted) * (response - fitted) / scale + common)
  }

  /** The contributions of all observations, with common = log(2 pi scale). */
  function LogLikelihoodTerms(libm: Libm, response: seq<real>, fitted: seq<real>, weights: seq<real>, scale: real): (t: seq<real>)
    requires |response| == |fitted| == |weights| && (scale != 0.0 || |response| == 0)
    ensures |t| == |response|
  {
    var common := libm.log(Pi * 2.0 * scale);
    seq(|response|, i requires 0 <= i < |response| =>
      Contribution(weights[i], response[i], fitted[i], scale, common))
  }

  /**
   * LogLikelihood: rejects vectors of different lengths, then accumulates the weighted
   * contributions in a loop. The scale divides only when there is an observation.
   */
  method LogLikelihood(libm: Libm, response: seq<real>, fitted: seq<real>, weights: seq<real>, scale: real)
    returns (r: Result<real>)
    requires |response| == |fitted| == |weights| && |response| > 0 ==> scale != 0.0
    ensures !(|response| == |fitted| == |weights|) <==> r.Err?
    ensures r.Err? ==> r.error == OutOfRange(LengthMismatch)
    ensures r.Ok? ==> r.value == Sum(LogLikelihoodTerms(libm, response, fitted, weights, scale))
  {
    if |response| != |fitted| || |response| != |weights| {
      return Err(OutOfRange(LengthMismatch));
    }
    ghost var t := LogLikelihoodTerms(libm, response, fitted, weights, scale);
    var result := 0.0;
    var common := libm.log(Pi * 2.0 * scale);
    var i := 0;
    while i < |response|
      invariant 0 <= i <= |response|
      invariant result == Sum(t[..i])
    {
      var term := Contribution(weights[i], response[i], fitted[i], scale, common);
      assert term == t[i];
      SumPrefixStep(t, i);
      result := result + term;
      i := i + 1;
    }
    assert t[..|response|] == t;
    r := Ok(result);
  }

  /** Observations of weight zero contribute nothing, so all-zero weights give 0. */
  lemma ZeroWeights(libm: Libm, response: seq<real>, fitted: seq<real>, weights: seq<real>, scale: real)
    requires |response| == |fitted| == |weights| && scale != 0.0
    requires forall i :: 0 <= i < |weights| ==> weights[i] == 0.0
    ensures Sum(LogLikelihoodTerms(libm, response, fitted, weights, scale)) == 0.0
  {
    SumOfZeros(LogLikelihoodTerms(libm, response, fitted, weights, scale));
  }

  /** With unit weights the sum is the Gaussian log-likelihood -0.5 * (SSE / scale + n log(2 pi scale)). */
  lemma UnitWeights(libm: Libm, response: seq<real>, fitted: seq<real>, weights: seq<real>, scale: real)
    requires |response| == |fitted| == |weights| && scale != 0.0
    requires forall i :: 0 <= i < |weights| ==> weights[i] == 1.0
    ensures Sum(LogLikelihoodTerms(libm, response, fitted, weights, scale))
         == -0.5 * (Sum(SquaredResiduals(response, fitted)) / scale
                    + |response| as real * libm.log(Pi * 2.0 * scale))
  {
    UnitWeightTerms(libm, response, fitted, weights, scale);
    SumOfHalvedShift(SquaredResiduals(response, fitted),
      LogLikelihoodTerms(libm, response, fitted, weights, scale), |response|, scale, libm.log(Pi * 2.0 * scale));
  }

  /** With unit weight an observation contributes -0.5 * (e / scale + log(2 pi scale)) for its squared residual e. */
  lemma UnitWeightTerms(libm: Libm, response: seq<real>, fitted: seq<real>, weights: seq<real>, scale: real)
    requires |response| == |fitted| == |weights| && scale != 0.0
    requires forall i :: 0 <= i < |weights| ==> weights[i] == 1.0
    ensures HalvedShift(SquaredResiduals(response, fitted),
      LogLikelihoodTerms(libm, response, fitted, weights, scale), scale, libm.log(Pi * 2.0 * scale))
  {
  }

  /** Every t[i] is -0.5 * (e[i] / scale + common). */
  predicate HalvedShift(e: seq<real>, t: seq<real>, scale: real, common: real)
    requires |e| == |t| && scale != 0.0
  {
    forall i :: 0 <= i < |e| ==> t[i] == -0.5 * (e[i] / scale + common)
  }

  /** Terms -0.5 * (e / scale + common) add up to -0.5 * (sum e / scale + n common). */
  lemma {:induction false} SumOfHalvedShift(e: seq<real>, t: seq<real>, n: nat, scale: real, common: real)
    requires |e| == |t| == n && scale != 0.0
    requires HalvedShift(e, t, scale, common)
    ensures Sum(t) == -0.5 * (Sum(e) / scale + n as real * common)
    decreases n
  {
    if n > 0 {
      HalvedShiftTail(e, t, scale, common);
      SumOfHalvedShift(e[1..], t[1..], n - 1, scale, common);
      HalvedShiftStep(e[0], Sum(e[1..]), Sum(e), t[0], Sum(t[1..]), Sum(t), n - 1, n, scale, common);
    }
  }

  lemma HalvedShiftTail(e: seq<real>, t: seq<real>, scale: real, common: real)
    requires |e| == |t| > 0 && scale != 0.0
    requires HalvedShift(e, t, scale, common)
    ensures HalvedShift(e[1..], t[1..], scale, common)
    ensures t[0] == -0.5 * (e[0] / scale + common)
  {
    assert forall i :: 0 <= i < |e| - 1 ==> t[1..][i] == t[i + 1] && e[1..][i] == e[i + 1];
  }

  lemma HalvedShiftStep(e0: real, se: real, total: real, t0: real, st: real, sumT: real, m: nat, n: nat, scale: real, common: real)
    requires scale != 0.0 && total == e0 + se && sumT == t0 + st && n == m + 1
    requires t0 == -0.5 * (e0 / scale + common)
    requires st == -0.5 * (se / scale + m as real * common)
    ensures sumT == -0.5 * (total / scale + n as real * common)
  {
  }
}
