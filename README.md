# AD.Mathematics core, modelled in Dafny

This project models the C++ core of AD.Mathematics, a small statistics library built around generalized linear models. It covers:

- **Factorial table.** `FactorialTemplate<T>` computes factorials by template recursion. `Factorial` holds two 170-entry caches built from it and reads them through the range-checked lookups `Get` and `GetLog`.
- **Matrix functors.** `prepend` and `append` are meant to add a value at the front or the back of every row of a matrix.
- **Link functions.** The identity link and the log link each provide `Evaluate`, `Inverse`, `FirstDerivative`, `SecondDerivative` and `LogLikelihood`.
- **Distributions.** The Gaussian and Poisson distributions each have:
  - moments fixed by their constructors;
  - the ingredients of iteratively reweighted least squares: `Deviance`, the warm start `InitialMean` and the working `Weight`;
  - `Predict`/`Fit`, which delegate to the owned link;
  - `Probability` and `LogProbability`.
- **Regression model.** `GeneralizedLinearModel` validates its design in the constructor and records its dimensions. It exposes degrees of freedom, mean squared error and the linear predictor `Evaluate`.

How the C++ maps to Dafny:

- `double` is modelled as `real` and factorials as `nat`.
- `log`, `exp` and `sqrt` from `<cmath>` are an uninterpreted parameter, `Numerics.Libm`. Properties that need a law of these functions, such as `log(1) = 0`, take it as a precondition.
- A thrown `std::out_of_range` is the `Err` case of `Wrappers.Result`.
- Code that works in place becomes imperative Dafny, with loop invariants tying it to a specification function:
  - the accumulating loops of `Deviance`, `LogLikelihood` and `Evaluate`;
  - the pre-sized vectors that `InitialMean` and `Weight` fill.
- The row loops of the matrix functors are methods too. As written they change only a copy of each row, so `Prepend` and `Append` need no invariant and return their input. The row-by-reference variants carry invariants tying them to the intended result.
- The regression model is a class whose constructor assigns its fields.
- Where the header and the implementation file of `GeneralizedLinearModel` disagree, the model follows the header. The `.cpp` assigns members that do not exist and defines again the accessors that the header defines inline.
- The code is followed where it departs from its documentation. Where the code is evidently at fault, the departure is modelled as written and also as intended; see "## Findings".
- In one place the comments are at fault instead. `FactorialTemplate.h` describes both arrays as running "from this value to zero", but the code builds them upward from 0!. Only the code's behaviour is modelled, and `FactorialTemplate.CreateValuesAscending` states the actual order.

## Model

| member | source | states |
|---|---|---|
| FactorialTemplate.Value | cpp/SpecialFunctions/FactorialTemplate.h:14 | every factorial value is at least 1 |
| FactorialTemplate.ValueIsFactorial | cpp/SpecialFunctions/FactorialTemplate.h:14 | Value<T> is T!, the product 1 * 2 * ... * T (1 for T = 0) |
| FactorialTemplate.ValueMonotone | cpp/SpecialFunctions/FactorialTemplate.h:14 | Value never decreases, and strictly increases from T = 1 on |
| FactorialTemplate.CreateValues | cpp/SpecialFunctions/FactorialTemplate.h:19-22 | create_values() has exactly T entries |
| FactorialTemplate.CreateLogs | cpp/SpecialFunctions/FactorialTemplate.h:27-30 | create_logs() has exactly T entries |
| FactorialTemplate.CreateValuesAreFactorials | cpp/SpecialFunctions/FactorialTemplate.h:36-40 | entry N of create_values() is N! |
| FactorialTemplate.CreateValuesAscending | cpp/SpecialFunctions/FactorialTemplate.h:19-22 | the array ascends (strictly from index 1) and, for T >= 2, stays below T!, so it does not run from T! down to zero |
| FactorialTemplate.CreateLogsAreValues | cpp/SpecialFunctions/FactorialTemplate.h:45-49 | create_logs() holds N! at index N, equal to create_values(); no logarithm is taken |
| FactorialTemplate.EmptySpecialisation | cpp/SpecialFunctions/FactorialTemplate.h:55-77 | Value<0> is 1 and the <0> builders return empty arrays |
| Factorial.Caches | cpp/SpecialFunctions/Factorial.cpp:5-7 | both caches have Limit = 170 entries, are equal entry for entry and start with 1 |
| Factorial.CacheFactorial | cpp/SpecialFunctions/Factorial.cpp:5 | create_values() for 170: entries 0! to 169!, const; its length, contents and first entry are stated by Factorial.Caches and FactorialTemplate.CreateValuesAreFactorials |
| Factorial.CacheLogFactorial | cpp/SpecialFunctions/Factorial.cpp:7 | create_logs() for 170, equal to CacheFactorial entry for entry, as Factorial.Caches states |
| Factorial.Get | cpp/SpecialFunctions/Factorial.h:28-38 | out_of_range exactly when x < 0 or x > 170; otherwise x! |
| Factorial.GetLog | cpp/SpecialFunctions/Factorial.h:49-59 | out_of_range exactly when x <= 0 or x > 170; otherwise x! itself, not ln(x!) |
| Factorial.Examples | cpp/SpecialFunctions/Factorial.h:33-58 | Get(0) = 1, Get(5) = 120, GetLog(5) = 120 and GetLog(0) fails |
| Factorial.CacheEndsBeforeLimit | cpp/SpecialFunctions/Factorial.h:33-37 | the range checks of Get and GetLog both accept 170, yet neither cache has an index 170 |
| Factorial.GetFull | cpp/SpecialFunctions/Factorial.h:19-38 | the documented Get over a 171-entry table: total on the documented range and equal to Get below 170 |
| Factorial.GetLogFull | cpp/SpecialFunctions/Factorial.h:40-59 | the documented GetLog: ln(x!) on (0, 170], out_of_range elsewhere |
| Factorial.GetLogFullIsLogOfGet | cpp/SpecialFunctions/Factorial.h:40-59 | the corrected GetLog is the logarithm of Get, and is 0 at 1 where the cache as written holds 1 |
| MatrixPrepend.Insert | cpp/Matrix/Prepend.h:11 | insert adds the value at the position and shifts the later elements by one |
| MatrixPrepend.Prepend | cpp/Matrix/Prepend.h:8-15 | the loop inserts into copies of the rows, so the result equals the source |
| MatrixPrepend.PrependByReference | cpp/Matrix/Prepend.h:8-15 | with rows taken by reference, each row gains the value in front and keeps its elements in order |
| MatrixPrepend.PrependedRowsDiffer | cpp/Matrix/Prepend.h:10-14 | for any non-empty matrix the intended result differs from what the functor returns |
| MatrixAppend.PushBack | cpp/Matrix/Append.h:11 | push_back adds the value at the end and keeps the prefix |
| MatrixAppend.Append | cpp/Matrix/Append.h:8-15 | the loop pushes onto copies of the rows, so the result equals the source |
| MatrixAppend.AppendByReference | cpp/Matrix/Append.h:8-15 | with rows taken by reference, each row gains the value at the end and keeps its prefix |
| MatrixAppend.AppendedRowsDiffer | cpp/Matrix/Append.h:10-14 | for any non-empty matrix the intended result differs from what the functor returns |
| IdentityLinkFunction.Transforms | cpp/LinkFunctions/IdentityLinkFunction.h:11-37 | Evaluate returns its input; the derivatives are all 1.0 and all 0.0, with one entry per element |
| IdentityLinkFunction.Evaluate | cpp/LinkFunctions/IdentityLinkFunction.h:11-14 | a copy of the input, as IdentityLinkFunction.Transforms states |
| IdentityLinkFunction.FirstDerivative | cpp/LinkFunctions/IdentityLinkFunction.h:29-32 | keeps the length; every entry is 1.0, as IdentityLinkFunction.Transforms states |
| IdentityLinkFunction.SecondDerivative | cpp/LinkFunctions/IdentityLinkFunction.h:34-37 | keeps the length; every entry is 0.0, as IdentityLinkFunction.Transforms states |
| IdentityLinkFunction.Inverse | cpp/LinkFunctions/IdentityLinkFunction.h:16-27 | the reciprocal map keeps the length |
| IdentityLinkFunction.InverseInvolution | cpp/LinkFunctions/IdentityLinkFunction.h:16-27 | Inverse maps zero-free vectors to zero-free vectors and undoes itself |
| IdentityLinkFunction.InverseDoesNotUndoEvaluate | cpp/LinkFunctions/IdentityLinkFunction.h:11-27 | Inverse(Evaluate([2])) is [0.5], not [2] |
| IdentityLinkFunction.InverseIntendedRoundTrip | cpp/LinkFunctions/IdentityLinkFunction.h:11-27 | the identity inverse and Evaluate undo each other on every vector |
| IdentityLinkFunction.LogLikelihood | cpp/LinkFunctions/IdentityLinkFunction.h:39-54 | out_of_range exactly on a length mismatch; otherwise a value depending only on the sum of squared residuals and the count, never on weights or scale |
| IdentityLinkFunction.ConcentratedLikelihood | cpp/LinkFunctions/IdentityLinkFunction.h:51-53 | where log splits the product, the value is the Gaussian log-likelihood at the maximum-likelihood variance, -n/2 (1 + log(2 pi SSE / n)) |
| LogLinkFunction.Parameters | cpp/LinkFunctions/LogLinkFunction.h:11-21 | Slope and Intercept default to 1 and 0, and no transform depends on them |
| LogLinkFunction.LogLink.Evaluate | cpp/LinkFunctions/LogLinkFunction.h:23-34 | keeps the length |
| LogLinkFunction.LogLink.Inverse | cpp/LinkFunctions/LogLinkFunction.h:36-47 | keeps the length |
| LogLinkFunction.LogLink.FirstDerivative | cpp/LinkFunctions/LogLinkFunction.h:49-60 | keeps the length |
| LogLinkFunction.LogLink.SecondDerivative | cpp/LinkFunctions/LogLinkFunction.h:62-73 | keeps the length |
| LogLinkFunction.Derivatives | cpp/LinkFunctions/LogLinkFunction.h:49-73 | the first derivative of a zero-free vector is zero-free, and the second derivative is minus its square, element by element |
| LogLinkFunction.RoundTrip | cpp/LinkFunctions/LogLinkFunction.h:23-47 | Inverse undoes Evaluate wherever exp undoes log |
| LogLinkFunction.LogLikelihood | cpp/LinkFunctions/LogLinkFunction.h:75-90 | out_of_range exactly on a length mismatch; otherwise the sum of -0.5 w ((r - f)^2 / scale + log(2 pi scale)) |
| LogLinkFunction.ZeroWeights | cpp/LinkFunctions/LogLinkFunction.h:83-89 | all-zero weights give a log-likelihood of 0 |
| LogLinkFunction.UnitWeights | cpp/LinkFunctions/LogLinkFunction.h:83-89 | with unit weights the sum is the Gaussian log-likelihood -0.5 (SSE / scale + n log(2 pi scale)) |
| LogLinkFunction.SumOfHalvedShift | cpp/LinkFunctions/LogLinkFunction.h:85-87 | terms -0.5 (e / scale + c) add up to -0.5 (sum e / scale + n c) |
| LinkFunctions.LinkFunction.Evaluate | cpp/ILinkFunction.h:7-15 | either link keeps the length |
| LinkFunctions.LinkFunction.Inverse | cpp/ILinkFunction.h:7-15 | either link keeps the length |
| LinkFunctions.LinkFunction.FirstDerivative | cpp/ILinkFunction.h:7-15 | either link keeps the length and has no zero derivative, so the distributions may divide by it |
| LinkFunctions.LinkFunction.SecondDerivative | cpp/ILinkFunction.h:7-15 | either link keeps the length |
| GaussianDistribution.Moments | cpp/Distributions/GaussianDistribution.cpp:7-20 | variance = sd^2 >= 0, median = mode = mean, skewness = kurtosis = 0, and a missing link becomes the identity |
| GaussianDistribution.Make | cpp/Distributions/GaussianDistribution.cpp:7-20 | the constructor's fields; its moments are stated by GaussianDistribution.Moments, its entropy by GaussianDistribution.EntropyOfVariance and its minimum by GaussianDistribution.MinimumAboveMean |
| GaussianDistribution.EntropyOfVariance | cpp/Distributions/GaussianDistribution.cpp:8 | the entropy is 1/2 (1 + log(2 pi variance)), independent of the mean |
| GaussianDistribution.MinimumAboveMean | cpp/Distributions/GaussianDistribution.cpp:13 | the reported minimum (the smallest positive double) lies above any non-positive mean |
| GaussianDistribution.Deviance | cpp/Distributions/GaussianDistribution.cpp:22-36 | out_of_range exactly on a length mismatch; otherwise the sum of r (r - m)^2 divided by the scale |
| GaussianDistribution.DevianceOfExactFit | cpp/Distributions/GaussianDistribution.cpp:30-35 | a perfect fit has deviance 0, whatever the weights |
| GaussianDistribution.DevianceCanBeNegative | cpp/Distributions/GaussianDistribution.cpp:30-35 | as written, response -1 against mean 0 gives deviance -1 |
| GaussianDistribution.IntendedDevianceBounds | cpp/Distributions/GaussianDistribution.cpp:22-36 | the weighted deviance is non-negative for non-negative weights and a positive scale, and 0 at a perfect fit |
| GaussianDistribution.InitialMean | cpp/Distributions/GaussianDistribution.cpp:43-58 | out_of_range exactly on empty input; otherwise each response averaged with the sample mean |
| Numerics.MidpointsPreserveSum | cpp/Distributions/GaussianDistribution.cpp:49-55 | the warm start has the same total as the response |
| Numerics.MidpointsOfConstant | cpp/Distributions/GaussianDistribution.cpp:49-55 | a constant response is its own warm start |
| GaussianDistribution.Weight | cpp/Distributions/GaussianDistribution.cpp:75-86 | the filled vector is 1 / (d^2 variance), element by element, with d the link's first derivative |
| GaussianDistribution.IdentityLinkWeights | cpp/Distributions/GaussianDistribution.cpp:75-86 | under the identity link every weight is 1 / variance, positive when the variance is; the default distribution has variance 1 |
| GaussianDistribution.Predict | cpp/Distributions/GaussianDistribution.cpp:65-68 | keeps the length |
| GaussianDistribution.Fit | cpp/Distributions/GaussianDistribution.cpp:38-41 | keeps the length |
| GaussianDistribution.DefaultLinkDelegation | cpp/Distributions/GaussianDistribution.cpp:38-68 | with the default link, Predict returns the mean response and Fit returns reciprocals |
| GaussianDistribution.ProbabilityIgnoresMoments | cpp/Distributions/GaussianDistribution.cpp:60-73 | Probability and LogProbability are the same for every Gaussian and symmetric about 0 |
| GaussianDistribution.Probability | cpp/Distributions/GaussianDistribution.cpp:70-73 | the standard normal density at x; GaussianDistribution.ProbabilityIgnoresMoments states that no moment is read and that it is even in x |
| GaussianDistribution.LogProbability | cpp/Distributions/GaussianDistribution.cpp:60-63 | log of Probability; GaussianDistribution.ProbabilityIgnoresMoments states the same independence and symmetry |
| GaussianDistribution.IntendedProbabilitySymmetric | cpp/Distributions/GaussianDistribution.cpp:70-73 | the N(mean, sd^2) density is symmetric about the mean |
| PoissonDistribution.Moments | cpp/Distributions/PoissonDistribution.cpp:10-26 | variance = mean, kurtosis * variance = 1, skewness * sd = 1, minimum 0, mode = floor(mean), and a missing link becomes the log link |
| PoissonDistribution.Make | cpp/Distributions/PoissonDistribution.cpp:10-26 | the constructor's fields; its moments are stated by PoissonDistribution.Moments and its median by PoissonDistribution.MedianNearMode and PoissonDistribution.MedianBelowMinimum |
| PoissonDistribution.MedianNearMode | cpp/Distributions/PoissonDistribution.cpp:18-20 | for mean >= 0.06 the median approximation lies between the mode and the mode plus one |
| PoissonDistribution.MedianBelowMinimum | cpp/Distributions/PoissonDistribution.cpp:18-19 | for mean 0.01 the median approximation is -2, below the minimum 0 |
| PoissonDistribution.Deviance | cpp/Distributions/PoissonDistribution.cpp:28-43 | out_of_range exactly on a length mismatch; otherwise 2 sum w (r d - r - m) / scale, with d = log(epsilon) for r <= 0 and log(r / m) otherwise |
| PoissonDistribution.DevianceOfExactFit | cpp/Distributions/PoissonDistribution.cpp:36-42 | as written a perfect fit of positive responses gives -4 sum(w r) / scale, not 0 |
| PoissonDistribution.IntendedDevianceOfExactFit | cpp/Distributions/PoissonDistribution.cpp:36-42 | the unit deviance with +m vanishes at a perfect fit |
| PoissonDistribution.DevianceCorrection | cpp/Distributions/PoissonDistribution.cpp:39-42 | the intended deviance exceeds the one as written by exactly 4 sum(w m) / scale |
| PoissonDistribution.InitialMean | cpp/Distributions/PoissonDistribution.cpp:50-65 | out_of_range exactly on empty input; otherwise each response averaged with the sample mean |
| PoissonDistribution.Weight | cpp/Distributions/PoissonDistribution.cpp:90-103 | abs(mu) is written first, then overwritten with 1 / (d^2 abs(mu)), where d is the link's derivative at abs(mu) |
| PoissonDistribution.LinkWeights | cpp/Distributions/PoissonDistribution.cpp:90-103 | the weight is abs(mu) under the log link and 1 / abs(mu) under the identity link, positive either way |
| PoissonDistribution.LogProbability | cpp/Distributions/PoissonDistribution.cpp:67-74 | out_of_range outside [0, 170] and, through GetLog, on [0, 1); otherwise x log(mean) - floor(x)! - mean |
| PoissonDistribution.Probability | cpp/Distributions/PoissonDistribution.cpp:81-88 | fails exactly where LogProbability does, with the same error; otherwise exp of it |
| PoissonDistribution.LogProbabilityAtSmallCounts | cpp/Distributions/PoissonDistribution.cpp:67-74 | the count 0 is refused, and the count 1 subtracts 1! = 1 where ln 1! = 0 belongs |
| PoissonDistribution.IntendedLogProbability | cpp/Distributions/PoissonDistribution.cpp:67-74 | x log(mean) - ln(floor(x)!) - mean on all of [0, 170] |
| PoissonDistribution.IntendedLogProbabilityAtSmallCounts | cpp/Distributions/PoissonDistribution.cpp:67-74 | the intended log mass is -mean at 0 and log(mean) - mean at 1 |
| PoissonDistribution.Predict | cpp/Distributions/PoissonDistribution.cpp:76-79 | keeps the length |
| PoissonDistribution.Fit | cpp/Distributions/PoissonDistribution.cpp:45-48 | keeps the length |
| PoissonDistribution.DefaultLinkRoundTrip | cpp/Distributions/PoissonDistribution.cpp:45-79 | with the default log link, Fit undoes Predict wherever exp undoes log |
| Distributions.Default | cpp/RegressionModels/GeneralizedLinearModel.cpp:15 | a missing distribution becomes the standard normal with the identity link |
| RegressionModels.GeneralizedLinearModel.constructor | cpp/RegressionModels/GeneralizedLinearModel.cpp:8-27 | observations from the length of the first row, variables from the number of rows, no coefficients, zero SSE, and a default Gaussian for a missing distribution |
| RegressionModels.GeneralizedLinearModel.Create | cpp/RegressionModels/GeneralizedLinearModel.cpp:8-27 | out_of_range exactly when the design's number of rows differs from the response's length or is 0; the weights are not checked |
| RegressionModels.GeneralizedLinearModel.DegreesOfFreedom | cpp/RegressionModels/GeneralizedLinearModel.h:26-27 | the difference of the counts, negative exactly when variables outnumber observations |
| Numerics.ULongDifference | cpp/RegressionModels/GeneralizedLinearModel.h:26-27 | the unsigned subtraction read back as long is the true signed difference |
| RegressionModels.GeneralizedLinearModel.MeanSquaredError | cpp/RegressionModels/GeneralizedLinearModel.h:35-36 | undefined exactly when there are no degrees of freedom; otherwise MSE * dof = SSE |
| RegressionModels.GeneralizedLinearModel.RootMeanSquaredError | cpp/RegressionModels/GeneralizedLinearModel.h:38-39 | undefined exactly when the mean squared error is |
| RegressionModels.RootMeanSquaredErrorSquares | cpp/RegressionModels/GeneralizedLinearModel.h:35-39 | where sqrt is a square root, the root mean squared error is non-negative and squares to the mean squared error |
| RegressionModels.GeneralizedLinearModel.Evaluate | cpp/RegressionModels/GeneralizedLinearModel.cpp:94-103 | the loop accumulates the inner product of the observation with the leading coefficients |
| RegressionModels.DotReadsPrefix | cpp/RegressionModels/GeneralizedLinearModel.cpp:94-103 | Evaluate reads only as many leading coefficients as the observation has entries |
| RegressionModels.AcceptedDesignCounts | cpp/RegressionModels/GeneralizedLinearModel.cpp:10-17 | for every design the constructor accepts, the degrees of freedom are the row length minus the number of observations; a 3 x 2 design gets -1 |
| RegressionModels.IntendedDimensions | cpp/RegressionModels/GeneralizedLinearModel.cpp:10-17 | the same validation, with one row per observation: the observations are the response's length and the variables the row length, so a 3 x 2 design gets 1 degree of freedom |
| RegressionModels.UnfittedModel | cpp/RegressionModels/GeneralizedLinearModel.cpp:64-92 | a fresh model returns its stored fields, has MSE 0 (or none without degrees of freedom), and has empty standard errors and variances |
| RegressionModels.GeneralizedLinearModel.ObservationCount | cpp/RegressionModels/GeneralizedLinearModel.h:20-21 | the stored observation count, as RegressionModels.UnfittedModel states |
| RegressionModels.GeneralizedLinearModel.VariableCount | cpp/RegressionModels/GeneralizedLinearModel.h:23-24 | the stored variable count, as RegressionModels.UnfittedModel states |
| RegressionModels.GeneralizedLinearModel.Coefficients | cpp/RegressionModels/GeneralizedLinearModel.h:29-30 | the stored coefficients, empty after construction, as RegressionModels.UnfittedModel states |
| RegressionModels.GeneralizedLinearModel.SumSquaredErrors | cpp/RegressionModels/GeneralizedLinearModel.h:32-33 | the stored error sum, 0 after construction, as RegressionModels.UnfittedModel states |
| RegressionModels.GeneralizedLinearModel.StandardErrorsOls | cpp/RegressionModels/GeneralizedLinearModel.cpp:64-67 | empty, as RegressionModels.UnfittedModel states |
| RegressionModels.GeneralizedLinearModel.StandardErrorsHC0 | cpp/RegressionModels/GeneralizedLinearModel.cpp:69-72 | empty, as RegressionModels.UnfittedModel states |
| RegressionModels.GeneralizedLinearModel.StandardErrorsHC1 | cpp/RegressionModels/GeneralizedLinearModel.cpp:74-77 | empty, as RegressionModels.UnfittedModel states |
| RegressionModels.GeneralizedLinearModel.VarianceOls | cpp/RegressionModels/GeneralizedLinearModel.cpp:79-82 | empty, as RegressionModels.UnfittedModel states |
| RegressionModels.GeneralizedLinearModel.VarianceHC0 | cpp/RegressionModels/GeneralizedLinearModel.cpp:84-87 | empty, as RegressionModels.UnfittedModel states |
| RegressionModels.GeneralizedLinearModel.VarianceHC1 | cpp/RegressionModels/GeneralizedLinearModel.cpp:89-92 | empty, as RegressionModels.UnfittedModel states |

## Left out

- Floating point: `double` is `real`, so rounding, overflow to infinity, NaN and the inexactness of factorials above 22! are not modelled.
- The C library's `log`, `exp` and `sqrt` are uninterpreted. Properties that need one of their laws take it as a hypothesis.
- Iteratively reweighted least squares, weighted least squares and the OLS/HC0/HC1 covariances do not exist in the library. The constructor never fits, and the standard-error and variance accessors return empty vectors; the model has exactly that.
- `cpp/main.cpp` is console input and output and is not part of this model.
- The `.cpp` of `GeneralizedLinearModel` assigns undeclared members and redefines the header's inline accessors. Only the header's definitions are modelled.
- `PoissonDistribution.cpp:73` calls an undeclared `StaticFactorial`; it is read as `Factorial::GetLog`.
- In both `InitialMean`s the response is read through an iterator into a temporary copy, which dangles. The model reads `response` directly.
- Factorial.Get: the argument 170 is excluded by a precondition. The C++ reads one element past the cache there, and that value cannot be modelled; see Findings.
- Factorial.GetLog: excludes the argument 170 for the same reason.
- Factorial.Get: takes an integer argument. The C++ template accepts any arithmetic type and truncates a fractional argument at the index, so Get(2.5) returns 2!. The library's only caller passes an `unsigned int`.
- Factorial.GetLog: takes an integer argument. The C++ truncates a fractional one at the index, so GetLog(0.5) passes the check and returns the entry for 0, although GetLog(0) fails. `PoissonDistribution.LogProbability` models the truncation its own caller performs.
- PoissonDistribution.LogProbability: excludes x = 170 for the same reason.
- PoissonDistribution.Probability: excludes x = 170 for the same reason.
- PoissonDistribution.Make: requires a mean and a square root of the mean that are nonzero, because the constructor divides by both. With IEEE arithmetic, a zero gives infinities.
- PoissonDistribution.Deviance: requires a nonzero scale, and a nonzero mean wherever the response is positive. The C++ then divides by zero and continues with an infinity or a NaN.
- PoissonDistribution.Weight: requires a zero-free mean response for the same reason.
- GaussianDistribution.Deviance: requires a nonzero scale for the same reason.
- GaussianDistribution.Weight: requires a nonzero variance, and a zero-free mean response under the log link, for the same reason.
- IdentityLinkFunction.Inverse: requires a zero-free input for the same reason.
- LogLinkFunction.LogLink.FirstDerivative: requires a zero-free input for the same reason.
- LogLinkFunction.LogLink.SecondDerivative: requires a zero-free input for the same reason.
- LinkFunctions.LinkFunction.Inverse: requires a zero-free input under the identity link, inherited from IdentityLinkFunction.Inverse; the C++ yields an infinity.
- LinkFunctions.LinkFunction.FirstDerivative: requires a zero-free input under the log link, inherited from LogLinkFunction.LogLink.FirstDerivative; the C++ yields an infinity.
- LinkFunctions.LinkFunction.SecondDerivative: requires a zero-free input under the log link, inherited from LogLinkFunction.LogLink.SecondDerivative; the C++ yields an infinity.
- GaussianDistribution.Fit: requires a zero-free linear prediction under the identity link, inherited from IdentityLinkFunction.Inverse; the C++ yields an infinity.
- PoissonDistribution.Fit: requires a zero-free linear prediction under the identity link, inherited from IdentityLinkFunction.Inverse; the C++ yields an infinity.
- LogLinkFunction.LogLikelihood: requires a nonzero scale when there is an observation, because the scale divides.
- IdentityLinkFunction.LogLikelihood: requires at least one observation when the lengths agree. The C++ divides by n / 2 and yields a NaN.
- RegressionModels.GeneralizedLinearModel.constructor: requires vector sizes below 2^63 (`std::vector`'s `max_size`), which every real vector meets.
- RegressionModels.GeneralizedLinearModel.Create: requires vector sizes below 2^63, as for the constructor.
- RegressionModels.GeneralizedLinearModel.Evaluate: requires no more entries in the observation than there are coefficients. The C++ reads past the coefficients otherwise.
- RegressionModels.GeneralizedLinearModel.MeanSquaredError: the NaN or infinity of a division by zero degrees of freedom is modelled as None.
- Behind `unique_ptr`, the distributions and links are values; ownership is not modelled.
- `LinkFunctions.LinkFunction` dispatches the link transforms to the two links the library has.
- `Distributions.Distribution` only names the two distributions, so the regression model can hold either. It dispatches none of `IDistribution`'s operations, because nothing in the library calls them through the interface. Each distribution's operations are modelled in its own module.
- The entropies, Gaussian `Probability`/`LogProbability` and Poisson skewness and standard deviation are computed through the uninterpreted `Libm`. Nothing is proved about their numeric values beyond the algebra around those calls.

## Findings

| source | as written | input that shows it | evidently intended | confidence | as-written member | corrected member |
|---|---|---|---|---|---|---|
| cpp/SpecialFunctions/Factorial.h:33-37 | the range check admits 170, but the cache has indices 0 to 169 | Get(170), GetLog(170) | a table of 171 entries, 0! to 170! | not executed | Factorial.CacheEndsBeforeLimit | Factorial.GetFull |
| cpp/SpecialFunctions/Factorial.h:58 | the "log" cache holds factorials | GetLog(5) = 120 | ln(5!) | not executed | Factorial.Examples | Factorial.GetLogFull |
| cpp/Distributions/PoissonDistribution.cpp:73 | the count 0 is rejected by GetLog, and x! is subtracted instead of ln(x!) | LogProbability(0) fails; LogProbability(1) = log(mean) - 1 - mean | -mean at 0 and log(mean) - mean at 1 | not executed | PoissonDistribution.LogProbabilityAtSmallCounts | PoissonDistribution.IntendedLogProbabilityAtSmallCounts |
| cpp/Matrix/Prepend.h:10-12 | the loop variable is a copy, so no row changes | prepend of 1 to [[2]] returns [[2]] | [[1, 2]] | not executed | MatrixPrepend.Prepend | MatrixPrepend.PrependByReference |
| cpp/Matrix/Append.h:10-12 | the loop variable is a copy, so no row changes | append of 1 to [[2]] returns [[2]] | [[2, 1]] | not executed | MatrixAppend.Append | MatrixAppend.AppendByReference |
| cpp/LinkFunctions/IdentityLinkFunction.h:16-27 | the inverse of the identity link returns reciprocals | Inverse([2]) = [0.5] | [2] | not executed | IdentityLinkFunction.InverseDoesNotUndoEvaluate | IdentityLinkFunction.InverseIntendedRoundTrip |
| cpp/Distributions/GaussianDistribution.cpp:32 | each squared error is multiplied by the response, not the weight | response [-1], mean [0], scale 1 gives -1 | a weighted, non-negative deviance | not executed | GaussianDistribution.DevianceCanBeNegative | GaussianDistribution.IntendedDevianceBounds |
| cpp/Distributions/PoissonDistribution.cpp:39 | the mean is subtracted instead of added in the unit deviance | r = m = w = [1], scale 1 gives -4 | 0 at a perfect fit | not executed | PoissonDistribution.DevianceOfExactFit | PoissonDistribution.IntendedDevianceOfExactFit |
| cpp/Distributions/GaussianDistribution.cpp:72 | the density is the standard normal's, whatever the mean and standard deviation | a Gaussian of mean 5 gives x = 5 and x = -5 the same density | the N(mean, sd^2) density | not executed | GaussianDistribution.ProbabilityIgnoresMoments | GaussianDistribution.IntendedProbabilitySymmetric |
| cpp/RegressionModels/GeneralizedLinearModel.cpp:10-17 | the check compares the number of rows with the response's length, but the counts take the rows as variables and the row length as observations | design [[1, 2], [3, 4], [5, 6]] with response [7, 8, 9] gives 2 observations, 3 variables and -1 degrees of freedom | 3 observations of 2 variables, 1 degree of freedom | not executed | RegressionModels.AcceptedDesignCounts | RegressionModels.IntendedDimensions |
