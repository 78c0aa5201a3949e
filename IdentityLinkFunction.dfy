/** IdentityLinkFunction: a stateless link whose transforms work element by element. */
module IdentityLinkFunction {
  import opened Wrappers
  import opened Numerics

  /** Evaluate: a copy of the input. */
  function Evaluate(x: seq<real>): seq<real>
  {
    x
  }

  /** Inverse: std::transform with y -> 1.0 / y, the reciprocal rather than the identity. */
  function Inverse(x: seq<real>): (r: seq<real>)
    requires ZeroFree(x)
    ensures |r| == |x|
  {
    seq(|x|, i requires 0 <= i < |x| => 1.0 / x[i])
  }

  /** FirstDerivative: a vector of 1.0 of the input's length. */
  function FirstDerivative(x: seq<real>): (r: seq<real>)
    ensures |r| == |x|
  {
    seq(|x|, _ => 1.0)
  }

  /** SecondDerivative: a vector of 0.0 of the input's length. */
  function SecondDerivative(x: seq<real>): (r: seq<real>)
    ensures |r| == |x|
  {
    seq(|x|, _ => 0.0)
  }

  /** Evaluate returns its input; the derivatives are the constants 1 and 0, one per element. */
  lemma Transforms(x: seq<real>)
    ensures Evaluate(x) == x
    ensures forall i :: 0 <= i < |x| ==> FirstDerivative(x)[i] == 1.0 && SecondDerivative(x)[i] == 0.0
  {
  }

  /** Inverse keeps lengths, maps zero-free vectors to zero-free vectors and undoes itself. */
  lemma InverseInvolution(x: seq<real>)
    requires ZeroFree(x)
    ensures ZeroFree(Inverse(x)) && Inverse(Inverse(x)) == x
  {
    var y := Inverse(x);
    forall i | 0 <= i < |x| ensures y[i] != 0.0 && 1.0 / y[i] == x[i] {
      Reciprocal(x[i]);
    }
  }

  lemma Reciprocal(a: real)
    requires a != 0.0
    ensures 1.0 / a != 0.0 && 1.0 / (1.0 / a) == a
  {
  }

  /** As written, Inverse does not undo Evaluate: [2.0] comes back as [0.5]. */
  lemma InverseDoesNotUndoEvaluate()
    ensures Inverse(Evaluate([2.0])) == [0.5] != [2.0]
  {
    assert Inverse([2.0])[0] == 0.5;
  }

  /** The inverse an identity link calls for: the input itself. */
  function InverseIntended(x: seq<real>): seq<real>
  {
    x
  }

  /** The intended inverse and Evaluate undo each other on every vector. */
  lemma InverseIntendedRoundTrip(x: seq<real>)
    ensures InverseIntended(Evaluate(x)) == x && Evaluate(InverseIntended(x)) == x
  {
  }

  /**
   * The log-likelihood for the sum of squared errors `sse` of n observations; weights and
   * scale do not take part.
   */
  function LogLikelihoodOf(libm: Libm, sse: real, n: nat): real
    requires n > 0
  {
    var halfObs := 0.5 * n as real;
    -halfObs * (libm.log(sse) + (1.0 + libm.log(Pi / halfObs)))
  }

  /**
   * Where log turns the product of sse and pi / (n / 2) into a sum, the value is the Gaussian
   * log-likelihood at the maximum-likelihood variance sse / n: -n/2 * (1 + log(2 pi sse / n)).
   */
  lemma ConcentratedLikelihood(libm: Libm, sse: real, n: nat)
    requires n > 0
    requires libm.log(sse * (Pi / (0.5 * n as real))) == libm.log(sse) + libm.log(Pi / (0.5 * n as real))
    ensures LogLikelihoodOf(libm, sse, n) == -0.5 * n as real * (1.0 + libm.log(2.0 * Pi * (sse / n as real)))
  {
    var ratio := Pi / (0.5 * n as real);
    HalfCountRatio(sse, n);
    LogOfEqual(libm, sse * ratio, 2.0 * Pi * (sse / n as real));
    Regroup(n, libm.log(sse), libm.log(ratio), libm.log(2.0 * Pi * (sse / n as real)));
  }

  lemma Regroup(n: nat, logSse: real, logRatio: real, logProduct: real)
    requires logProduct == logSse + logRatio
    ensures -(0.5 * n as real) * (logSse + (1.0 + logRatio)) == -0.5 * n as real * (1.0 + logProduct)
  {
  }

  lemma HalfCountRatio(sse: real, n: nat)
    requires n > 0
    ensures sse * (Pi / (0.5 * n as real)) == 2.0 * Pi * (sse / n as real)
  {
  }

  /**
   * LogLikelihood: rejects vectors of different lengths, then accumulates the squared
   * residuals in a loop. Its value depends on the response and fitted values only through
   * their squared-error sum and count.
   */
  method LogLikelihood(libm: Libm, response: seq<real>, fitted: seq<real>, weights: seq<real>, scale: real)
    returns (r: Result<real>)
    requires |response| == |fitted| == |weights| ==> |response| > 0
    ensures !(|response| == |fitted| == |weights|) <==> r.Err?
    ensures r.Err? ==> r.error == OutOfRange(LengthMismatch)
    ensures r.Ok? ==> r.value == LogLikelihoodOf(libm, Sum(SquaredResiduals(response, fitted)), |response|)
  {
    if |response| != |fitted| || |response| != |weights| {
      return Err(OutOfRange(LengthMismatch));
    }
    ghost var e := SquaredResiduals(response, fitted);
    var sumSquaredErrors := 0.0;
    var i := 0;
    while i < |response|
      invariant 0 <= i <= |response|
      invariant sumSquaredErrors == Sum(e[..i])
    {
      SumPrefixStep(e, i);
      sumSquaredErrors := sumSquaredErrors + (response[i] - fitted[i]) * (response[i] - fitted[i]);
      i := i + 1;
    }
    assert e[..|response|] == e;
    r := Ok(LogLikelihoodOf(libm, sumSquaredErrors, |response|));
  }
}
