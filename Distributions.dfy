/** IDistribution: the two distribution families behind one closed variant. */
module Distributions {
  import opened Numerics
  import LinkFunctions
  import GaussianDistribution
  import PoissonDistribution

  datatype Distribution =
    | Gaussian(gaussian: GaussianDistribution.Gaussian)
    | Poisson(poisson: PoissonDistribution.Poisson)

  /** The distribution a model falls back on: a default-constructed Gaussian, the standard
      normal with the identity link. */
  function Default(libm: Libm): (d: Distribution)
    ensures d.Gaussian?
    ensures d.gaussian.mean == 0.0 && d.gaussian.variance == 1.0
    ensures d.gaussian.link == LinkFunctions.Identity
  {
    Gaussian(GaussianDistribution.Make(libm))
  }
}
