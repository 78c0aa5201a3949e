/**
 * PoissonDistribution: moments fixed at construction from the mean, an owned link (log by
 * default), the IRLS ingredients, and a probability mass read from the factorial cache.
 */
module PoissonDistribution {
  import opened Wrappers
  import opened Numerics
  import opened LinkFunctions
  import LogLinkFunction
  import opened FactorialTemplate
  import Factorial

  /** The fields the constructor fills in. */
  datatype Poisson = Poisson(
    link: LinkFunction,
    entropy: real,
    kurtosis: real,
    maximum: real,
    mean: real,
    median: real,
    minimum: real,
    mode: real,
    skewness: real,
    standardDeviation: real,
    variance: real)

  /**
   * PoissonDistribution(mean = 1.0, link = nullptr). The mean divides (kurtosis, median,
   * entropy) and its square root divides (skewness), so both must be nonzero.
   */
  function Make(libm: Libm, mean: real := 1.0, link: Option<LinkFunction> := None): Poisson
    requires mean != 0.0 && libm.sqrt(mean) != 0.0
  {
    NonZeroProduct(mean, mean);
    Poisson(
      link := if link.None? then Log(LogLinkFunction.LogLink()) else link.value,
      entropy := 0.5 * libm.log(2.0 * Pi * E * mean)
                 - 1.0 / (12.0 * mean)
                 - 1.0 / (24.0 * mean * mean)
                 - 19.0 / (360.0 * mean * mean * mean),
      kurtosis := 1.0 / mean,
      maximum := DoubleMax,
      mean := mean,
      median := (mean + 1.0 / 3.0 - 0.02 / mean).Floor as real,
      minimum := 0.0,
      mode := mean.Floor as real,
      skewness := 1.0 / libm.sqrt(mean),
      standardDeviation := libm.sqrt(mean),
      variance := mean)
  }

  /**
   * The constructor's moments: the variance is the mean, kurtosis and skewness are the
   * reciprocals of the variance and of the standard deviation, the minimum is 0, the mode is
   * the mean rounded down, and a missing link becomes the log link.
   */
  lemma Moments(libm: Libm, mean: real, link: Option<LinkFunction>)
    requires mean != 0.0 && libm.sqrt(mean) != 0.0
    ensures var d := Make(libm, mean, link);
      && d.variance == d.mean == mean
      && d.kurtosis * d.variance == 1.0
      && d.skewness * d.standardDeviation == 1.0
      && d.minimum == 0.0
      && d.mode == d.mode.Floor as real && d.mode <= mean < d.mode + 1.0
      && d.link == (if link.None? then Log(LogLinkFunction.LogLink()) else link.value)
  {
  }

  /** For a mean of at least 0.06 the median approximation lies between the mode and the
      mode plus one. */
  lemma MedianNearMode(libm: Libm, mean: real, link: Option<LinkFunction>)
    requires mean >= 0.06 && libm.sqrt(mean) != 0.0
    ensures var d := Make(libm, mean, link);
      d.mode <= d.median <= d.mode + 1.0
  {
    var x := mean + 1.0 / 3.0 - 0.02 / mean;
    assert 0.02 / mean <= 1.0 / 3.0 by {
      assert 0.02 <= mean / 3.0;
      DivideBelow(0.02, mean, 1.0 / 3.0);
    }
    assert 0.02 / mean > 0.0;
    assert mean <= x < mean + 1.0;
    FloorMonotone(mean, x);
    FloorMonotone(x, mean + 1.0);
    assert (mean + 1.0).Floor == mean.Floor + 1;
  }

  lemma DivideBelow(a: real, m: real, b: real)
    requires m > 0.0 && a <= b * m
    ensures a / m <= b
  {
  }

  lemma FloorMonotone(a: real, b: real)
    requires a <= b
    ensures a.Floor <= b.Floor
  {
  }

  /** For a small mean the median approximation falls below the support: mean 0.01 gives
      median -2, under the minimum 0. */
  lemma MedianBelowMinimum(libm: Libm)
    requires libm.sqrt(0.01) != 0.0
    ensures Make(libm, 0.01).median == -2.0 < Make(libm, 0.01).minimum
  {
    assert 0.01 + 1.0 / 3.0 - 0.02 / 0.01 == -497.0 / 300.0;
  }

  /** Ratios r / m the deviance takes a logarithm of: a positive response needs a nonzero mean. */
  predicate RatiosDefined(response: seq<real>, meanResponse: seq<real>)
  {
    forall i :: 0 <= i < |response| && i < |meanResponse| && response[i] > 0.0 ==> meanResponse[i] != 0.0
  }

  /** log(r / m), or log(epsilon) for a response that is not positive. */
  function Discrepancy(libm: Libm, r: real, m: real): real
    requires r > 0.0 ==> m != 0.0
  {
    libm.log(if r <= 0.0 then Epsilon else r / m)
  }

  /** The term w * (r * d - r - m) the deviance loop adds. */
  function DevianceTerms(libm: Libm, response: seq<real>, meanResponse: seq<real>, weights: seq<real>): (t: seq<real>)
    requires |response| == |meanResponse| == |weights| && RatiosDefined(response, meanResponse)
    ensures |t| == |response|
  {
    seq(|response|, i requires 0 <= i < |response| =>
      weights[i] * (response[i] * Discrepancy(libm, response[i], meanResponse[i]) - response[i] - meanResponse[i]))
  }

  /** Deviance: rejects vectors of different lengths, then returns twice the accumulated terms
      divided by the scale. */
  method Deviance(libm: Libm, response: seq<real>, meanResponse: seq<real>, weights: seq<real>, scale: real)
    returns (r: Result<real>)
    requires |response| == |meanResponse| == |weights| ==> scale != 0.0 && RatiosDefined(response, meanResponse)
    ensures !(|response| == |meanResponse| == |weights|) <==> r.Err?
    ensures r.Err? ==> r.error == OutOfRange(LengthMismatch)
    ensures r.Ok? ==> r.value == 2.0 * Sum(DevianceTerms(libm, response, meanResponse, weights)) / scale
  {
    if |response| != |meanResponse| || |response| != |weights| {
      return Err(OutOfRange(LengthMismatch));
    }
    ghost var t := DevianceTerms(libm, response, meanResponse, weights);
    var result := 0.0;
    var i := 0;
    while i < |weights|
      invariant 0 <= i <= |weights|
      invariant result == Sum(t[..i])
    {
      var d := Discrepancy(libm, response[i], meanResponse[i]);
      var term := weights[i] * (response[i] * d - response[i] - meanResponse[i]);
      assert term == t[i];
      SumPrefixStep(t, i);
      result := result + term;
      i := i + 1;
    }
    assert t[..|response|] == t;
    r := Ok(2.0 * result / scale);
  }

  /** The products w * m of weight and mean response. */
  function WeightedMeans(weights: seq<real>, meanResponse: seq<real>): (p: seq<real>)
    requires |weights| == |meanResponse|
    ensures |p| == |weights|
  {
    seq(|weights|, i requires 0 <= i < |weights| => weights[i] * meanResponse[i])
  }

  /**
   * As written a perfect fit of positive responses does not have deviance 0 but
   * -4 * sum(w * r) / scale (for r = m = w = [1] and scale 1: -4).
   */
  lemma DevianceOfExactFit(libm: Libm, response: seq<real>, weights: seq<real>, scale: real)
    requires |response| == |weights| && scale != 0.0
    requires forall i :: 0 <= i < |response| ==> response[i] > 0.0
    requires libm.log(1.0) == 0.0
    ensures 2.0 * Sum(DevianceTerms(libm, response, response, weights)) / scale
         == -4.0 * Sum(WeightedMeans(weights, response)) / scale
  {
    var t := DevianceTerms(libm, response, response, weights);
    var p := WeightedMeans(weights, response);
    ExactFitTerms(libm, response, weights);
    assert forall i :: 0 <= i < |p| ==> t[i] == -2.0 * p[i] + 0.0;
    SumAffine(p, t, -2.0, 0.0);
    TimesIsProduct(|p|, 0.0);
    DoubledOverScale(Sum(t), Sum(p), scale);
  }

  /** At a perfect fit each term as written is -2 * w * r. */
  lemma ExactFitTerms(libm: Libm, response: seq<real>, weights: seq<real>)
    requires |response| == |weights|
    requires forall i :: 0 <= i < |response| ==> response[i] > 0.0
    requires libm.log(1.0) == 0.0
    ensures forall i :: 0 <= i < |response| ==>
      DevianceTerms(libm, response, response, weights)[i] == -2.0 * WeightedMeans(weights, response)[i]
  {
    forall i | 0 <= i < |response|
      ensures DevianceTerms(libm, response, response, weights)[i] == -2.0 * WeightedMeans(weights, response)[i]
    {
      LogOfEqual(libm, response[i] / response[i], 1.0);
    }
  }

  lemma DoubledOverScale(st: real, sp: real, scale: real)
    requires scale != 0.0 && st == -2.0 * sp
    ensures 2.0 * st / scale == -4.0 * sp / scale
  {
  }

  /** The Poisson unit deviance: w * (r * d - (r - m)), the mean added rather than subtracted. */
  function IntendedDevianceTerms(libm: Libm, response: seq<real>, meanResponse: seq<real>, weights: seq<real>): (t: seq<real>)
    requires |response| == |meanResponse| == |weights| && RatiosDefined(response, meanResponse)
    ensures |t| == |response|
  {
    seq(|response|, i requires 0 <= i < |response| =>
      weights[i] * (response[i] * Discrepancy(libm, response[i], meanResponse[i]) - response[i] + meanResponse[i]))
  }

  /** The intended deviance vanishes at a perfect fit of positive responses. */
  lemma IntendedDevianceOfExactFit(libm: Libm, response: seq<real>, weights: seq<real>, scale: real)
    requires |response| == |weights| && scale != 0.0
    requires forall i :: 0 <= i < |response| ==> response[i] > 0.0
    requires libm.log(1.0) == 0.0
    ensures 2.0 * Sum(IntendedDevianceTerms(libm, response, response, weights)) / scale == 0.0
  {
    var t := IntendedDevianceTerms(libm, response, response, weights);
    forall i | 0 <= i < |t| ensures t[i] == 0.0 {
      LogOfEqual(libm, response[i] / response[i], 1.0);
    }
    SumOfZeros(t);
  }

  /** The two deviances differ by 4 * sum(w * m) / scale. */
  lemma DevianceCorrection(libm: Libm, response: seq<real>, meanResponse: seq<real>, weights: seq<real>, scale: real)
    requires |response| == |meanResponse| == |weights| && RatiosDefined(response, meanResponse)
    requires scale != 0.0
    ensures 2.0 * Sum(IntendedDevianceTerms(libm, response, meanResponse, weights)) / scale
         == 2.0 * Sum(DevianceTerms(libm, response, meanResponse, weights)) / scale
            + 4.0 * Sum(WeightedMeans(weights, meanResponse)) / scale
  {
    CorrectionTerms(libm, response, meanResponse, weights);
    SumCorrection(IntendedDevianceTerms(libm, response, meanResponse, weights),
      DevianceTerms(libm, response, meanResponse, weights), WeightedMeans(weights, meanResponse));
    ScaledSum(Sum(IntendedDevianceTerms(libm, response, meanResponse, weights)),
      Sum(DevianceTerms(libm, response, meanResponse, weights)), Sum(WeightedMeans(weights, meanResponse)), scale);
  }

  /** Each intended term exceeds the term as written by 2 * w * m. */
  lemma CorrectionTerms(libm: Libm, response: seq<real>, meanResponse: seq<real>, weights: seq<real>)
    requires |response| == |meanResponse| == |weights| && RatiosDefined(response, meanResponse)
    ensures forall i :: 0 <= i < |response| ==>
      IntendedDevianceTerms(libm, response, meanResponse, weights)[i]
        == DevianceTerms(libm, response, meanResponse, weights)[i] + 2.0 * WeightedMeans(weights, meanResponse)[i]
  {
    forall i | 0 <= i < |response|
      ensures IntendedDevianceTerms(libm, response, meanResponse, weights)[i]
        == DevianceTerms(libm, response, meanResponse, weights)[i] + 2.0 * WeightedMeans(weights, meanResponse)[i]
    {
      CorrectionTerm(weights[i], response[i] * Discrepancy(libm, response[i], meanResponse[i]),
        response[i], meanResponse[i]);
    }
  }

  lemma {:induction false} SumCorrection(a: seq<real>, b: seq<real>, p: seq<real>)
    requires |a| == |b| == |p|
    requires forall i :: 0 <= i < |a| ==> a[i] == b[i] + 2.0 * p[i]
    ensures Sum(a) == Sum(b) + 2.0 * Sum(p)
    decreases |a|
  {
    if a != [] {
      SumCorrection(a[1..], b[1..], p[1..]);
    }
  }

  lemma CorrectionTerm(w: real, x: real, r: real, m: real)
    ensures w * (x - r + m) == w * (x - r - m) + 2.0 * (w * m)
  {
  }

  lemma ScaledSum(sa: real, sb: real, sp: real, scale: real)
    requires scale != 0.0 && sa == sb + 2.0 * sp
    ensures 2.0 * sa / scale == 2.0 * sb / scale + 4.0 * sp / scale
  {
  }

  /**
   * InitialMean: rejects an empty response, otherwise fills a vector of the same length with
   * each response averaged with the sample mean.
   */
  method InitialMean(response: seq<real>) returns (r: Result<seq<real>>)
    ensures response == [] <==> r.Err?
    ensures r.Err? ==> r.error == OutOfRange(EmptyVector)
    ensures r.Ok? ==> r.value == Midpoints(response)
  {
    if |response| == 0 {
      return Err(OutOfRange(EmptyVector));
    }
    var mean := Sum(response) / |response| as real;
    var initialMean := new real[|response|];
    for i := 0 to |response|
      invariant forall k :: 0 <= k < i ==> initialMean[k] == 0.5 * (response[k] + mean)
    {
      initialMean[i] := 0.5 * (response[i] + mean);
    }
    r := Ok(initialMean[..]);
  }

  /** The absolute values, element by element. */
  function Magnitudes(x: seq<real>): (r: seq<real>)
    ensures |r| == |x|
    ensures ZeroFree(x) ==> ZeroFree(r)
  {
    seq(|x|, i requires 0 <= i < |x| => Abs(x[i]))
  }

  /** The working weight 1 / (d^2 * |mu|), d the link's first derivative at |mu|. */
  function WeightFormula(dist: Poisson, meanResponse: seq<real>): (w: seq<real>)
    requires ZeroFree(meanResponse)
    ensures |w| == |meanResponse|
  {
    var a := Magnitudes(meanResponse);
    var derivative := dist.link.FirstDerivative(a);
    seq(|meanResponse|, i requires 0 <= i < |meanResponse| =>
      NonZeroProduct(derivative[i], a[i]);
      1.0 / (derivative[i] * derivative[i] * a[i]))
  }

  /**
   * Weight: a vector first filled with |mu|, whose derivative is taken, then overwritten
   * element by element with the weight.
   */
  method Weight(dist: Poisson, meanResponse: seq<real>) returns (w: seq<real>)
    requires ZeroFree(meanResponse)
    ensures w == WeightFormula(dist, meanResponse)
  {
    var weight := new real[|meanResponse|];
    for i := 0 to |meanResponse|
      invariant forall k :: 0 <= k < i ==> weight[k] == Abs(meanResponse[k])
    {
      weight[i] := Abs(meanResponse[i]);
    }
    ghost var a := weight[..];
    assert a == Magnitudes(meanResponse);
    var derivative := dist.link.FirstDerivative(weight[..]);
    for i := 0 to |meanResponse|
      invariant forall k :: 0 <= k < i ==> weight[k] == WeightFormula(dist, meanResponse)[k]
      invariant forall k :: i <= k < |meanResponse| ==> weight[k] == a[k]
    {
      NonZeroProduct(derivative[i], weight[i]);
      weight[i] := 1.0 / (derivative[i] * derivative[i] * weight[i]);
    }
    w := weight[..];
  }

  /** Under the log link the weight is |mu|; under the identity link it is 1 / |mu|. Either
      way every weight is positive. */
  lemma LinkWeights(dist: Poisson, meanResponse: seq<real>)
    requires ZeroFree(meanResponse)
    ensures dist.link.Log? ==> forall i :: 0 <= i < |meanResponse| ==>
      WeightFormula(dist, meanResponse)[i] == Abs(meanResponse[i])
    ensures dist.link.Identity? ==> forall i :: 0 <= i < |meanResponse| ==>
      WeightFormula(dist, meanResponse)[i] == 1.0 / Abs(meanResponse[i])
    ensures forall i :: 0 <= i < |meanResponse| ==> WeightFormula(dist, meanResponse)[i] > 0.0
  {
    var w := WeightFormula(dist, meanResponse);
    forall i | 0 <= i < |meanResponse|
      ensures dist.link.Log? ==> w[i] == Abs(meanResponse[i])
      ensures dist.link.Identity? ==> w[i] == 1.0 / Abs(meanResponse[i])
      ensures w[i] > 0.0
    {
      var a := Abs(meanResponse[i]);
      if dist.link.Log? {
        ReciprocalSquaredTimes(a);
      }
    }
  }

  lemma ReciprocalSquaredTimes(a: real)
    requires a > 0.0
    ensures 1.0 / ((1.0 / a) * (1.0 / a) * a) == a
  {
    assert (1.0 / a) * (1.0 / a) * a == 1.0 / a;
  }

  /**
   * LogProbability: x * log(mean) - GetLog(x) - mean after a range check on [0, 170]; the
   * argument is truncated to an integer for the lookup. x == 170 reaches the cache read one
   * past its end and is excluded.
   */
  function LogProbability(dist: Poisson, libm: Libm, x: real): (r: Result<real>)
    requires x != Factorial.Limit as real
    ensures r.Err? <==> x < 1.0 || x > Factorial.Limit as real
    ensures (x < 0.0 || x > Factorial.Limit as real) ==> r == Err(OutOfRange(ClosedRange))
    ensures 0.0 <= x < 1.0 ==> r == Err(OutOfRange(HalfOpenRange))
    ensures r.Ok? ==> r.value == x * libm.log(dist.mean) - Product(1, x.Floor) as real - dist.mean
  {
    if x < 0.0 || x > 170.0 then Err(OutOfRange(ClosedRange))
    else
      match Factorial.GetLog(x.Floor)
      case Err(e) => Err(e)
      case Ok(f) => Ok(x * libm.log(dist.mean) - f as real - dist.mean)
  }

  /** Probability: exp of LogProbability after the same range check. */
  function Probability(dist: Poisson, libm: Libm, x: real): (r: Result<real>)
    requires x != Factorial.Limit as real
    ensures r.Err? <==> LogProbability(dist, libm, x).Err?
    ensures r.Err? ==> r == LogProbability(dist, libm, x)
    ensures r.Ok? ==> r.value == libm.exp(x * libm.log(dist.mean) - Product(1, x.Floor) as real - dist.mean)
  {
    if x < 0.0 || x > 170.0 then Err(OutOfRange(ClosedRange))
    else
      match LogProbability(dist, libm, x)
      case Err(e) => Err(e)
      case Ok(l) => Ok(libm.exp(l))
  }

  /**
   * As written, the count 0 is refused although it passes the range check, and the count 1
   * subtracts 1! = 1 where ln(1!) = 0 belongs.
   */
  lemma LogProbabilityAtSmallCounts(dist: Poisson, libm: Libm)
    ensures LogProbability(dist, libm, 0.0) == Err(OutOfRange(HalfOpenRange))
    ensures LogProbability(dist, libm, 1.0) == Ok(libm.log(dist.mean) - 1.0 - dist.mean)
  {
    assert Product(1, 1) == 1 by {
      assert Product(2, 1) == 1;
    }
  }

  /** The log mass x log(mean) - ln(floor(x)!) - mean over the whole range [0, 170], read
      from a table of logarithms. */
  function IntendedLogProbability(dist: Poisson, libm: Libm, x: real): (r: Result<real>)
    ensures r.Err? <==> x < 0.0 || x > Factorial.Limit as real
    ensures r.Ok? ==> r.value == x * libm.log(dist.mean) - libm.log(Product(1, x.Floor) as real) - dist.mean
  {
    if x < 0.0 || x > 170.0 then Err(OutOfRange(ClosedRange))
    else
      ValueIsFactorial(x.Floor);
      Ok(x * libm.log(dist.mean) - Factorial.LogCache(libm)[x.Floor] - dist.mean)
  }

  /** With ln 1 = 0 the intended log mass is -mean at 0 and log(mean) - mean at 1. */
  lemma IntendedLogProbabilityAtSmallCounts(dist: Poisson, libm: Libm)
    requires libm.log(1.0) == 0.0
    ensures IntendedLogProbability(dist, libm, 0.0) == Ok(-dist.mean)
    ensures IntendedLogProbability(dist, libm, 1.0) == Ok(libm.log(dist.mean) - dist.mean)
  {
    assert Product(1, 0) == 1;
    assert Product(1, 1) == 1 by {
      assert Product(2, 1) == 1;
    }
  }

  /** Predict: the link's Evaluate. */
  function Predict(dist: Poisson, libm: Libm, meanResponse: seq<real>): (eta: seq<real>)
    ensures |eta| == |meanResponse|
  {
    dist.link.Evaluate(libm, meanResponse)
  }

  /** Fit: the link's Inverse. */
  function Fit(dist: Poisson, libm: Libm, linearPrediction: seq<real>): (mu: seq<real>)
    requires dist.link.Identity? ==> ZeroFree(linearPrediction)
    ensures |mu| == |linearPrediction|
  {
    dist.link.Inverse(libm, linearPrediction)
  }

  /** With the default log link, Fit undoes Predict wherever exp undoes log. */
  lemma DefaultLinkRoundTrip(libm: Libm, mean: real, meanResponse: seq<real>)
    requires mean != 0.0 && libm.sqrt(mean) != 0.0
    requires forall i :: 0 <= i < |meanResponse| ==> libm.exp(libm.log(meanResponse[i])) == meanResponse[i]
    ensures Fit(Make(libm, mean), libm, Predict(Make(libm, mean), libm, meanResponse)) == meanResponse
  {
    LogLinkFunction.RoundTrip(LogLinkFunction.LogLink(), libm, meanResponse);
  }
}
