/**
 * Factorial: a static cache of factorials built at start-up from FactorialTemplate<170>,
 * read through range-checked lookups.
 */
module Factorial {
  import opened Wrappers
  import opened Numerics
  import opened FactorialTemplate

  /** The recommended limit for factorial calculation; also the length of both caches. */
  const Limit: nat := 170

  /** _cacheFactorial, FactorialTemplate<Limit>::create_values(); const, so never changed. */
  const CacheFactorial: seq<nat> := CreateValues(Limit)

  /** _cacheLogFactorial, FactorialTemplate<Limit>::create_logs(); const, so never changed. */
  const CacheLogFactorial: seq<nat> := CreateLogs(Limit)

  /** Both caches have Limit entries, agree entry for entry, and start with 0! = 1. */
  lemma Caches()
    ensures |CacheFactorial| == |CacheLogFactorial| == Limit
    ensures CacheFactorial == CacheLogFactorial
    ensures CacheFactorial[0] == CacheLogFactorial[0] == 1
  {
    forall n | 0 <= n < Limit ensures CacheFactorial[n] == CacheLogFactorial[n] {
      CreateLogsAreValues(Limit, n);
    }
  }

  /** The range check of Get: the closed range [0, Limit]. */
  predicate GetAccepts(x: int)
  {
    !(x < 0 || x > Limit)
  }

  /** The range check of GetLog: the half-open range (0, Limit]. */
  predicate GetLogAccepts(x: int)
  {
    !(x <= 0 || x > Limit)
  }

  /**
   * Factorial::Get, for an integral argument. The range check admits x == Limit, where the
   * C++ code reads one past the end of the cache; that read has no value to model, so the
   * argument Limit is excluded here (see CacheEndsBeforeLimit).
   */
  function Get(x: int): (r: Result<nat>)
    requires x != Limit
    ensures r.Err? <==> !GetAccepts(x)
    ensures r.Err? <==> x < 0 || x > Limit
    ensures r.Err? ==> r.error == OutOfRange(ClosedRange)
    ensures r.Ok? ==> r.value == Product(1, x)
  {
    if !GetAccepts(x) then Err(OutOfRange(ClosedRange))
    else
      ValueIsFactorial(x);
      Ok(CacheFactorial[x])
  }

  /**
   * Factorial::GetLog, for an integral argument: rejects 0 as well, and returns the entry of
   * the "log" cache, which is x! itself. x == Limit is excluded for the reason given at Get.
   */
  function GetLog(x: int): (r: Result<nat>)
    requires x != Limit
    ensures r.Err? <==> !GetLogAccepts(x)
    ensures r.Err? <==> x <= 0 || x > Limit
    ensures r.Err? ==> r.error == OutOfRange(HalfOpenRange)
    ensures r.Ok? ==> r.value == Product(1, x)
  {
    if !GetLogAccepts(x) then Err(OutOfRange(HalfOpenRange))
    else
      CreateLogsAreValues(Limit, x);
      Ok(CacheLogFactorial[x])
  }

  /** Get(0) = 1 and Get(5) = 120, and GetLog(5) is also 120 rather than ln 120. */
  lemma Examples()
    ensures Get(0) == Ok(1) && Get(5) == Ok(120)
    ensures GetLog(5) == Ok(120)
    ensures GetLog(0).Err?
  {
    assert Product(1, 5) == 120 by {
      assert Product(6, 5) == 1;
    }
  }

  /** As written: both range checks let Limit through, yet neither cache has an index Limit. */
  lemma CacheEndsBeforeLimit()
    ensures GetAccepts(Limit) && GetLogAccepts(Limit)
    ensures !(Limit < |CacheFactorial|) && !(Limit < |CacheLogFactorial|)
  {
  }

  /** The table the documented range [0, 170] needs: 171 entries, 0! to 170!. */
  const FullCache: seq<nat> := CreateValues(Limit + 1)

  /** Get as its documentation describes it, over the 171-entry table: total on int. */
  function GetFull(x: int): (r: Result<nat>)
    ensures r.Err? <==> x < 0 || x > Limit
    ensures r.Ok? ==> r.value == Product(1, x)
    ensures 0 <= x < Limit ==> r == Get(x)
  {
    if !GetAccepts(x) then Err(OutOfRange(ClosedRange))
    else
      ValueIsFactorial(x);
      Ok(FullCache[x])
  }

  /** A log-factorial table as documented: entry n is ln(n!), for 0 <= n <= Limit. */
  function LogCache(libm: Libm): (t: seq<real>)
    ensures |t| == Limit + 1
  {
    seq(Limit + 1, n requires 0 <= n <= Limit => libm.log(Value(n) as real))
  }

  /** GetLog as its documentation describes it: ln(x!) for x in (0, 170]. */
  function GetLogFull(libm: Libm, x: int): (r: Result<real>)
    ensures r.Err? <==> x <= 0 || x > Limit
    ensures r.Ok? ==> r.value == libm.log(Product(1, x) as real)
  {
    if !GetLogAccepts(x) then Err(OutOfRange(HalfOpenRange))
    else
      ValueIsFactorial(x);
      Ok(LogCache(libm)[x])
  }

  /** The corrected lookup is the logarithm of Get, and ln(1!) = 0 where the cache holds 1. */
  lemma GetLogFullIsLogOfGet(libm: Libm, x: int)
    requires 0 < x < Limit
    requires libm.log(1.0) == 0.0
    ensures GetLogFull(libm, x) == Ok(libm.log(Get(x).value as real))
    ensures GetLogFull(libm, 1) == Ok(0.0) && GetLog(1) == Ok(1)
  {
    assert Product(1, 1) == 1 by {
      assert Product(2, 1) == 1;
    }
  }
}
