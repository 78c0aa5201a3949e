/**
 * GeneralizedLinearModel: a regression model whose constructor validates the design,
 * records its dimensions and leaves the fit empty, with accessors over those fields and a
 * linear predictor.
 */
module RegressionModels {
  import opened Wrappers
  import opened Numerics
  import MatrixPrepend
  import Distributions

  class GeneralizedLinearModel {
    var distribution: Distributions.Distribution
    var observationCount: nat
    var variableCount: nat
    var coefficients: seq<real>
    var sumSquaredErrors: real

    /** Both counts are sizes of vectors, so they stay below 2^63. */
    ghost predicate Valid()
      reads this
    {
      observationCount < LongLimit && variableCount < LongLimit
    }

    /**
     * The constructor's field setup once its validation has passed: counts from the design
     * (observations from the length of the first row, variables from the number of rows), no
     * coefficients, a zero error sum and a default Gaussian for a missing distribution. The
     * design with a prepended constant is computed and then dropped.
     */
    constructor (libm: Libm, design: seq<seq<real>>, response: seq<real>, weights: seq<real>,
                 distribution: Option<Distributions.Distribution> := None, addConstant: bool := false)
      requires |design| == |response| && |design| > 0
      requires |design| < LongLimit && |design[0]| < LongLimit
      ensures Valid()
      ensures this.distribution == (if distribution.None? then Distributions.Default(libm) else distribution.value)
      ensures observationCount == |design[0]| && variableCount == |design|
      ensures coefficients == [] && sumSquaredErrors == 0.0
    {
      this.distribution := if distribution.None? then Distributions.Default(libm) else distribution.value;
      observationCount := |design[0]|;
      variableCount := |design|;
      sumSquaredErrors := 0.0;
      var designArray := design;
      if addConstant {
        designArray := MatrixPrepend.Prepend(design, 1.0);
      }
      coefficients := [];
    }

    /**
     * The constructor with its validation: a design whose number of rows differs from the
     * response's length, or an empty design, is rejected. The weights are not checked.
     */
    static method Create(libm: Libm, design: seq<seq<real>>, response: seq<real>, weights: seq<real>,
                         distribution: Option<Distributions.Distribution> := None, addConstant: bool := false)
      returns (r: Result<GeneralizedLinearModel>)
      requires |design| < LongLimit && (|design| > 0 ==> |design[0]| < LongLimit)
      ensures r.Err? <==> |design| != |response| || |design| == 0
      ensures r.Err? ==> r.error == OutOfRange(LengthMismatch)
      ensures r.Ok? ==> fresh(r.value) && r.value.Valid()
      ensures r.Ok? ==> r.value.observationCount == |design[0]| && r.value.variableCount == |design|
      ensures r.Ok? ==> r.value.coefficients == [] && r.value.sumSquaredErrors == 0.0
      ensures r.Ok? ==> r.value.distribution == (if distribution.None? then Distributions.Default(libm) else distribution.value)
    {
      if |design| != |response| || |design| == 0 {
        return Err(OutOfRange(LengthMismatch));
      }
      var model := new GeneralizedLinearModel(libm, design, response, weights, distribution, addConstant);
      r := Ok(model);
    }

    function ObservationCount(): nat
      reads this
    {
      observationCount
    }

    function VariableCount(): nat
      reads this
    {
      variableCount
    }

    function Coefficients(): seq<real>
      reads this
    {
      coefficients
    }

    function SumSquaredErrors(): real
      reads this
    {
      sumSquaredErrors
    }

    /**
     * ObservationCount - VariableCount, subtracted in `unsigned long` and returned as `long`:
     * the wrap-around cancels, so the result is the signed difference, negative when there
     * are more variables than observations.
     */
    function DegreesOfFreedom(): (dof: int)
      reads this
      requires Valid()
      ensures dof == observationCount - variableCount
      ensures dof < 0 <==> variableCount > observationCount
    {
      ULongDifference(observationCount, variableCount);
      ULongToLong(ULongSub(observationCount, variableCount))
    }

    /**
     * SumSquaredErrors / DegreesOfFreedom. With no degrees of freedom the quotient is not a
     * number (0 / 0 for an unfitted model), modelled as None.
     */
    function MeanSquaredError(): (r: Option<real>)
      reads this
      requires Valid()
      ensures r.None? <==> observationCount == variableCount
      ensures r.Some? ==> r.value * (observationCount - variableCount) as real == sumSquaredErrors
    {
      var dof := DegreesOfFreedom();
      if dof == 0 then None else Some(sumSquaredErrors / dof as real)
    }

    /** sqrt(MeanSquaredError()). */
    function RootMeanSquaredError(libm: Libm): (r: Option<real>)
      reads this
      requires Valid()
      ensures r.None? <==> observationCount == variableCount
    {
      match MeanSquaredError()
      case None => None
      case Some(mse) => Some(libm.sqrt(mse))
    }

    function StandardErrorsOls(): seq<real> { [] }
    function StandardErrorsHC0(): seq<real> { [] }
    function StandardErrorsHC1(): seq<real> { [] }
    function VarianceOls(): seq<real> { [] }
    function VarianceHC0(): seq<real> { [] }
    function VarianceHC1(): seq<real> { [] }

    /**
     * Evaluate: the inner product of the observation with the first |observation|
     * coefficients. The source checks no bound; an observation longer than the coefficients
     * would read past them.
     */
    method Evaluate(observation: seq<real>) returns (result: real)
      requires |observation| <= |coefficients|
      ensures result == Dot(coefficients, observation)
    {
      var c := coefficients;
      ghost var products := seq(|observation|, i requires 0 <= i < |observation| => c[i] * observation[i]);
      result := 0.0;
      var i := 0;
      while i < |observation|
        invariant 0 <= i <= |observation|
        invariant result == Sum(products[..i])
      {
        SumPrefixStep(products, i);
        result := result + c[i] * observation[i];
        i := i + 1;
      }
      assert products[..|observation|] == products;
    }
  }

  /**
   * A model fresh from the constructor: its accessors return the stored fields, its mean
   * squared error is 0 when there are degrees of freedom (and not a number otherwise), it has
   * no standard errors or variances, and only the empty observation can be evaluated, to 0.
   */
  lemma UnfittedModel(m: GeneralizedLinearModel)
    requires m.Valid() && m.coefficients == [] && m.sumSquaredErrors == 0.0
    ensures m.ObservationCount() == m.observationCount && m.VariableCount() == m.variableCount
    ensures m.Coefficients() == [] && m.SumSquaredErrors() == 0.0
    ensures m.MeanSquaredError() == (if m.observationCount == m.variableCount then None else Some(0.0))
    ensures m.StandardErrorsOls() == m.StandardErrorsHC0() == m.StandardErrorsHC1() == []
    ensures m.VarianceOls() == m.VarianceHC0() == m.VarianceHC1() == []
    ensures Dot(m.Coefficients(), []) == 0.0
  {
  }

  /** The root mean squared error squares back to the mean squared error wherever sqrt is a
      square root and the latter is not negative. */
  lemma RootMeanSquaredErrorSquares(m: GeneralizedLinearModel, libm: Libm)
    requires m.Valid() && m.observationCount > m.variableCount && m.sumSquaredErrors >= 0.0
    requires forall y :: y >= 0.0 ==> libm.sqrt(y) >= 0.0 && libm.sqrt(y) * libm.sqrt(y) == y
    ensures m.RootMeanSquaredError(libm).Some?
    ensures m.RootMeanSquaredError(libm).value >= 0.0
    ensures m.RootMeanSquaredError(libm).value * m.RootMeanSquaredError(libm).value == m.MeanSquaredError().value
  {
    var mse := m.MeanSquaredError().value;
    var dof := (m.observationCount - m.variableCount) as real;
    assert mse == m.sumSquaredErrors / dof;
    assert mse >= 0.0;
  }

  /** Evaluate reads only the first |observation| coefficients. */
  lemma DotReadsPrefix(c: seq<real>, d: seq<real>, x: seq<real>)
    requires |x| <= |c| && |x| <= |d| && c[..|x|] == d[..|x|]
    ensures Dot(c, x) == Dot(d, x)
  {
    var p := seq(|x|, i requires 0 <= i < |x| => c[i] * x[i]);
    var q := seq(|x|, i requires 0 <= i < |x| => d[i] * x[i]);
    forall i | 0 <= i < |x| ensures p[i] == q[i] {
      assert c[i] == c[..|x|][i] == d[..|x|][i] == d[i];
    }
    assert p == q;
  }

  /**
   * As written, the validation reads the design's outer length as the number of
   * observations (it must equal the response's length), while the counts read it as the
   * number of variables. For an accepted design the degrees of freedom are therefore the row
   * length minus the number of observations: three observations of two variables,
   * [[1, 2], [3, 4], [5, 6]], give -1.
   */
  lemma AcceptedDesignCounts(m: GeneralizedLinearModel, design: seq<seq<real>>, response: seq<real>)
    requires m.Valid() && |design| == |response| && |design| > 0
    requires m.observationCount == |design[0]| && m.variableCount == |design|
    ensures m.DegreesOfFreedom() == |design[0]| - |response|
    ensures design == [[1.0, 2.0], [3.0, 4.0], [5.0, 6.0]] ==> m.DegreesOfFreedom() == -1
  {
  }

  /** The dimensions of a design with one row per observation. */
  datatype Dimensions = Dimensions(observations: nat, variables: nat)

  /**
   * The validation and counts read consistently: one row per observation, so the number of
   * rows must be the response's length and the row length is the number of variables.
   */
  function IntendedDimensions(design: seq<seq<real>>, response: seq<real>): (r: Result<Dimensions>)
    ensures r.Err? <==> |design| != |response| || |design| == 0
    ensures r.Ok? ==> r.value.observations == |response| && r.value.variables == |design[0]|
    ensures r.Ok? && design == [[1.0, 2.0], [3.0, 4.0], [5.0, 6.0]] ==>
      r.value.observations - r.value.variables == 1
  {
    if |design| != |response| || |design| == 0 then Err(OutOfRange(LengthMismatch))
    else Ok(Dimensions(|design|, |design[0]|))
  }
}
