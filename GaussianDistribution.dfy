/**
 * GaussianDistribution: moments fixed at construction, an owned link (identity by default),
 * and the IRLS ingredients deviance, warm start and working weight.
 */
module GaussianDistribution {
  import opened Wrappers
  import opened Numerics
  import opened LinkFunctions

  /** The fields the constructor fills in. */
  datatype Gaussian = Gaussian(
    link: LinkFunction,
    entropy: real,
    kurtosis: real,
    maximum: real,
    mean: real,
    median: real,
    minimum: real,
    mode: real,
    skewness: real,
    standardDeviation: real,
    variance: real)

  /** GaussianDistribution(mean = 0.0, standardDeviation = 1.0, link = nullptr); the entropy
      is computed with the C library's log. */
  function Make(libm: Libm, mean: real := 0.0, standardDeviation: real := 1.0, link: Option<LinkFunction> := None): Gaussian
  {
    Gaussian(
      link := if link.None? then Identity else link.value,
      entropy := 0.5 * (1.0 + libm.log(2.0 * Pi * standardDeviation * standardDeviation)),
      kurtosis := 0.0,
      maximum := DoubleMax,
      mean := mean,
      median := mean,
      minimum := DoubleMinNormal,
      mode := mean,
      skewness := 0.0,
      standardDeviation := standardDeviation,
      variance := standardDeviation * standardDeviation)
  }

  /**
   * The constructor's moments: variance is the squared standard deviation, median and mode
   * are the mean, skewness and (excess) kurtosis vanish, and a missing link becomes the
   * identity link.
   */
  lemma Moments(libm: Libm, mean: real, standardDeviation: real, link: Option<LinkFunction>)
    ensures var d := Make(libm, mean, standardDeviation, link);
      && d.variance == d.standardDeviation * d.standardDeviation >= 0.0
      && d.median == d.mode == d.mean == mean
      && d.skewness == d.kurtosis == 0.0
      && d.link == (if link.None? then Identity else link.value)
  {
  }

  /** The entropy is the normal entropy 1/2 (1 + log(2 pi variance)), the same whatever the
      mean. */
  lemma EntropyOfVariance(libm: Libm, mean: real, standardDeviation: real, link: Option<LinkFunction>)
    ensures var d := Make(libm, mean, standardDeviation, link);
      && d.entropy == 0.5 * (1.0 + libm.log(2.0 * Pi * d.variance))
      && d.entropy == Make(libm, 0.0, standardDeviation, link).entropy
  {
    var s := standardDeviation;
    var d := Make(libm, mean, standardDeviation, link);
    var d0 := Make(libm, 0.0, standardDeviation, link);
    assert d.entropy == 0.5 * (1.0 + libm.log(2.0 * Pi * s * s)) == d0.entropy;
    LogOfEqual(libm, 2.0 * Pi * s * s, 2.0 * Pi * d.variance);
  }

  /** numeric_limits<double>::min() is positive, so the reported minimum of the support lies
      above the mean of any Gaussian whose mean is not positive. */
  lemma MinimumAboveMean(libm: Libm, mean: real, standardDeviation: real, link: Option<LinkFunction>)
    requires mean <= 0.0
    ensures Make(libm, mean, standardDeviation, link).minimum > Make(libm, mean, standardDeviation, link).mean
  {
  }

  /** The term r * (r - m)^2 the deviance loop adds: the response multiplies, not the weight. */
  function DevianceTerms(response: seq<real>, meanResponse: seq<real>): (t: seq<real>)
    requires |response| == |meanResponse|
    ensures |t| == |response|
  {
    seq(|response|, i requires 0 <= i < |response| =>
      response[i] * (response[i] - meanResponse[i]) * (response[i] - meanResponse[i]))
  }

  /**
   * Deviance: rejects vectors of different lengths, then accumulates the terms and divides by
   * the scale. The weights are checked for length and otherwise unused.
   */
  method Deviance(response: seq<real>, meanResponse: seq<real>, weights: seq<real>, scale: real)
    returns (r: Result<real>)
    requires |response| == |meanResponse| == |weights| ==> scale != 0.0
    ensures !(|response| == |meanResponse| == |weights|) <==> r.Err?
    ensures r.Err? ==> r.error == OutOfRange(LengthMismatch)
    ensures r.Ok? ==> r.value == Sum(DevianceTerms(response, meanResponse)) / scale
  {
    if |response| != |meanResponse| || |response| != |weights| {
      return Err(OutOfRange(LengthMismatch));
    }
    ghost var t := DevianceTerms(response, meanResponse);
    var result := 0.0;
    var i := 0;
    while i < |response|
      invariant 0 <= i <= |response|
      invariant result == Sum(t[..i])
    {
      var error := response[i] - meanResponse[i];
      assert t[i] == response[i] * error * error;
      SumPrefixStep(t, i);
      result := result + response[i] * error * error;
      i := i + 1;
    }
    assert t[..|response|] == t;
    r := Ok(result / scale);
  }

  /** A perfect fit has deviance zero, whatever the weights. */
  lemma DevianceOfExactFit(response: seq<real>, scale: real)
    requires scale != 0.0
    ensures Sum(DevianceTerms(response, response)) / scale == 0.0
  {
    SumOfZeros(DevianceTerms(response, response));
  }

  /** As written the deviance can be negative: response -1 against mean 0 gives -1. */
  lemma DevianceCanBeNegative()
    ensures Sum(DevianceTerms([-1.0], [0.0])) / 1.0 == -1.0
  {
    var t := DevianceTerms([-1.0], [0.0]);
    assert t == [-1.0];
    assert t[1..] == [];
  }

  /** The deviance the documentation describes: sum of w * (r - m)^2, divided by the scale. */
  function IntendedDeviance(response: seq<real>, meanResponse: seq<real>, weights: seq<real>, scale: real): real
    requires |response| == |meanResponse| == |weights| && scale != 0.0
  {
    Sum(IntendedDevianceTerms(response, meanResponse, weights)) / scale
  }

  /** The terms w * (r - m)^2 of the intended deviance. */
  function IntendedDevianceTerms(response: seq<real>, meanResponse: seq<real>, weights: seq<real>): (t: seq<real>)
    requires |response| == |meanResponse| == |weights|
    ensures |t| == |response|
  {
    seq(|response|, i requires 0 <= i < |response| =>
      weights[i] * (response[i] - meanResponse[i]) * (response[i] - meanResponse[i]))
  }

  /** The intended deviance is never negative for non-negative weights and a positive scale,
      and is 0 at a perfect fit. */
  lemma IntendedDevianceBounds(response: seq<real>, meanResponse: seq<real>, weights: seq<real>, scale: real)
    requires |response| == |meanResponse| == |weights| && scale != 0.0
    ensures (forall i :: 0 <= i < |weights| ==> weights[i] >= 0.0) && scale > 0.0 ==>
      IntendedDeviance(response, meanResponse, weights, scale) >= 0.0
    ensures IntendedDeviance(response, response, weights, scale) == 0.0
  {
    var t := IntendedDevianceTerms(response, meanResponse, weights);
    if forall i :: 0 <= i < |weights| ==> weights[i] >= 0.0 {
      forall i | 0 <= i < |t| ensures t[i] >= 0.0 {
        NonNegativeTerm(weights[i], response[i] - meanResponse[i]);
      }
      SumNonNegative(t);
    }
    SumOfZeros(IntendedDevianceTerms(response, response, weights));
  }

  lemma NonNegativeTerm(w: real, e: real)
    requires w >= 0.0
    ensures w * e * e >= 0.0
  {
    assert e * e >= 0.0;
  }

  /**
   * InitialMean: rejects an empty response, otherwise fills a vector of the same length with
   * each response averaged with the sample mean.
   */
  method InitialMean(response: seq<real>) returns (r: Result<seq<real>>)
    ensures response == [] <==> r.Err?
    ensures r.Err? ==> r.error == OutOfRange(EmptyVector)
    ensures r.Ok? ==> r.value == Midpoints(response)
  {
    if |response| == 0 {
      return Err(OutOfRange(EmptyVector));
    }
    var mean := Sum(response) / |response| as real;
    var initialMean := new real[|response|];
    for i := 0 to |response|
      invariant forall k :: 0 <= k < i ==> initialMean[k] == 0.5 * (response[k] + mean)
    {
      initialMean[i] := 0.5 * (response[i] + mean);
    }
    r := Ok(initialMean[..]);
  }

  /** The working weight 1 / (d^2 * variance), d the link's first derivative at the mean. */
  function WeightFormula(dist: Gaussian, meanResponse: seq<real>): (w: seq<real>)
    requires dist.variance != 0.0
    requires dist.link.Log? ==> ZeroFree(meanResponse)
    ensures |w| == |meanResponse|
  {
    var derivative := dist.link.FirstDerivative(meanResponse);
    seq(|meanResponse|, i requires 0 <= i < |meanResponse| =>
      NonZeroProduct(derivative[i], dist.variance);
      1.0 / (derivative[i] * derivative[i] * dist.variance))
  }

  /** Weight: a vector of the mean response's length filled element by element. */
  method Weight(dist: Gaussian, meanResponse: seq<real>) returns (w: seq<real>)
    requires dist.variance != 0.0
    requires dist.link.Log? ==> ZeroFree(meanResponse)
    ensures w == WeightFormula(dist, meanResponse)
  {
    var derivative := dist.link.FirstDerivative(meanResponse);
    var weight := new real[|meanResponse|];
    for i := 0 to |meanResponse|
      invariant forall k :: 0 <= k < i ==> weight[k] == WeightFormula(dist, meanResponse)[k]
    {
      NonZeroProduct(derivative[i], dist.variance);
      weight[i] := 1.0 / (derivative[i] * derivative[i] * dist.variance);
    }
    w := weight[..];
  }

  /** Under the identity link every weight is 1 / variance; for the default-constructed
      distribution, 1 / sigma^2 = 1. Weights are positive when the variance is. */
  lemma IdentityLinkWeights(libm: Libm, dist: Gaussian, meanResponse: seq<real>)
    requires dist.variance != 0.0 && dist.link == Identity
    ensures forall i :: 0 <= i < |meanResponse| ==> WeightFormula(dist, meanResponse)[i] == 1.0 / dist.variance
    ensures dist.variance > 0.0 ==> forall i :: 0 <= i < |meanResponse| ==> WeightFormula(dist, meanResponse)[i] > 0.0
    ensures Make(libm).variance == 1.0 && Make(libm).link == Identity
  {
  }

  /** Predict: the link's Evaluate. */
  function Predict(dist: Gaussian, libm: Libm, meanResponse: seq<real>): (eta: seq<real>)
    ensures |eta| == |meanResponse|
  {
    dist.link.Evaluate(libm, meanResponse)
  }

  /** Fit: the link's Inverse. */
  function Fit(dist: Gaussian, libm: Libm, linearPrediction: seq<real>): (mu: seq<real>)
    requires dist.link.Identity? ==> ZeroFree(linearPrediction)
    ensures |mu| == |linearPrediction|
  {
    dist.link.Inverse(libm, linearPrediction)
  }

  /** With the default identity link, Predict returns the mean response and Fit returns the
      reciprocals of the linear prediction. */
  lemma DefaultLinkDelegation(libm: Libm, meanResponse: seq<real>, linearPrediction: seq<real>)
    requires ZeroFree(linearPrediction)
    ensures Predict(Make(libm), libm, meanResponse) == meanResponse
    ensures forall i :: 0 <= i < |linearPrediction| ==>
      Fit(Make(libm), libm, linearPrediction)[i] == 1.0 / linearPrediction[i]
  {
  }

  /**
   * Probability: the standard normal density exp(-x^2 / 2) / sqrt(2 pi). The distribution's
   * mean and standard deviation are not read.
   */
  function Probability(dist: Gaussian, libm: Libm, x: real): real
    requires libm.sqrt(Pi * 2.0) != 0.0
  {
    1.0 / libm.sqrt(Pi * 2.0) * Kernel(libm, x)
  }

  /** LogProbability: log of Probability. */
  function LogProbability(dist: Gaussian, libm: Libm, x: real): real
    requires libm.sqrt(Pi * 2.0) != 0.0
  {
    libm.log(Probability(dist, libm, x))
  }

  /** Probability and LogProbability are the same for every Gaussian and symmetric about 0,
      so a distribution of mean 5 reports its mode 5 as likely as -5. */
  lemma ProbabilityIgnoresMoments(a: Gaussian, b: Gaussian, libm: Libm, x: real)
    requires libm.sqrt(Pi * 2.0) != 0.0
    ensures Probability(a, libm, x) == Probability(b, libm, x) == Probability(a, libm, -x)
    ensures LogProbability(a, libm, x) == LogProbability(b, libm, x) == LogProbability(a, libm, -x)
  {
    KernelEven(libm, x);
  }

  /** The density of N(mean, standardDeviation^2) at x. */
  function IntendedProbability(dist: Gaussian, libm: Libm, x: real): real
    requires dist.standardDeviation > 0.0 && libm.sqrt(Pi * 2.0) != 0.0
  {
    1.0 / (dist.standardDeviation * libm.sqrt(Pi * 2.0)) * Kernel(libm, (x - dist.mean) / dist.standardDeviation)
  }

  /** exp(-z^2 / 2). */
  function Kernel(libm: Libm, z: real): real
  {
    libm.exp(-0.5 * z * z)
  }

  lemma KernelEven(libm: Libm, z: real)
    ensures Kernel(libm, -z) == Kernel(libm, z)
  {
    assert -0.5 * -z * -z == -0.5 * z * z;
  }

  /** The intended density is symmetric about the mean rather than about 0. */
  lemma IntendedProbabilitySymmetric(dist: Gaussian, libm: Libm, h: real)
    requires dist.standardDeviation > 0.0 && libm.sqrt(Pi * 2.0) != 0.0
    ensures IntendedProbability(dist, libm, dist.mean + h) == IntendedProbability(dist, libm, dist.mean - h)
  {
    var s := dist.standardDeviation;
    assert (dist.mean + h - dist.mean) / s == h / s;
    assert (dist.mean - h - dist.mean) / s == -(h / s);
    KernelEven(libm, h / s);
  }
}
