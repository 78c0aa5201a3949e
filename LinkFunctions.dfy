/**
 * ILinkFunction: the two links behind one closed variant, as a distribution owns one.
 * Every transform keeps the length of its input. (LogLikelihood is called on the links
 * directly; nothing in the library dispatches it.)
 */
module LinkFunctions {
  import opened Numerics
  import IdentityLinkFunction
  import LogLinkFunction

  datatype LinkFunction = Identity | Log(log: LogLinkFunction.LogLink)
  {
    function Evaluate(libm: Libm, x: seq<real>): (r: seq<real>)
      ensures |r| == |x|
    {
      match this
      case Identity => IdentityLinkFunction.Evaluate(x)
      case Log(l) => l.Evaluate(libm, x)
    }

    function Inverse(libm: Libm, x: seq<real>): (r: seq<real>)
      requires Identity? ==> ZeroFree(x)
      ensures |r| == |x|
    {
      match this
      case Identity => IdentityLinkFunction.Inverse(x)
      case Log(l) => l.Inverse(libm, x)
    }

    /** The link's first derivative; for both links it has no zero element. */
    function FirstDerivative(x: seq<real>): (r: seq<real>)
      requires Log? ==> ZeroFree(x)
      ensures |r| == |x| && ZeroFree(r)
    {
      match this
      case Identity => IdentityLinkFunction.FirstDerivative(x)
      case Log(l) =>
        LogLinkFunction.Derivatives(l, x);
        l.FirstDerivative(x)
    }

    function SecondDerivative(x: seq<real>): (r: seq<real>)
      requires Log? ==> ZeroFree(x)
      ensures |r| == |x|
    {
      match this
      case Identity => IdentityLinkFunction.SecondDerivative(x)
      case Log(l) => l.SecondDerivative(x)
    }
  }
}
