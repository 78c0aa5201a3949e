/**
 * FactorialTemplate<T>: a factorial computed by template recursion and the arrays of
 * factorials built from it by expanding an index sequence.
 */
module FactorialTemplate {

  /** FactorialTemplate<T>::Value, T * Value<T - 1>, with the <0> specialisation giving 1. */
  function Value(t: nat): (v: nat)
    ensures v >= 1
  {
    if t == 0 then 1 else t * Value(t - 1)
  }

  /** The product lo * (lo + 1) * ... * hi, empty (1) when lo > hi: the textbook n! is Product(1, n). */
  function Product(lo: nat, hi: nat): nat
    decreases hi + 1 - lo
  {
    if lo > hi then 1 else lo * Product(lo + 1, hi)
  }

  lemma {:induction false} ProductExtend(lo: nat, hi: nat)
    requires lo <= hi + 1
    ensures Product(lo, hi + 1) == Product(lo, hi) * (hi + 1)
    decreases hi + 1 - lo
  {
    if lo <= hi {
      ProductExtend(lo + 1, hi);
      Associate(lo, Product(lo + 1, hi), hi + 1);
    }
  }

  lemma Associate(a: nat, b: nat, c: nat)
    ensures a * (b * c) == (a * b) * c
  {
  }

  /** Value<T> is T!. */
  lemma {:induction false} ValueIsFactorial(t: nat)
    ensures Value(t) == Product(1, t)
  {
    if t > 0 {
      ValueIsFactorial(t - 1);
      ProductExtend(1, t - 1);
    }
  }

  /** Value never decreases, and strictly grows from 1 on. */
  lemma {:induction false} ValueMonotone(i: nat, j: nat)
    requires i <= j
    ensures Value(i) <= Value(j)
    ensures 1 <= i < j ==> Value(i) < Value(j)
    decreases j - i
  {
    if i < j {
      ValueMonotone(i, j - 1);
      Growth(j, Value(j - 1));
    }
  }

  lemma Growth(j: nat, v: nat)
    requires j >= 1
    ensures j * v >= v
    ensures j >= 2 && v >= 1 ==> j * v > v
  {
    assert j * v == v + (j - 1) * v;
  }

  /**
   * create_values(): one entry per index of std::make_index_sequence<T>, that is
   * Value<0>, ..., Value<T - 1>; the <0> specialisation returns an empty array.
   */
  function CreateValues(t: nat): (r: seq<nat>)
    ensures |r| == t
  {
    if t == 0 then [] else seq(t, n requires 0 <= n < t => Value(n))
  }

  /** create_logs(): built by log_array, which expands the same Value<N> pack as value_array. */
  function CreateLogs(t: nat): (r: seq<nat>)
    ensures |r| == t
  {
    if t == 0 then [] else seq(t, n requires 0 <= n < t => Value(n))
  }

  /** Entry N of create_values() is N!: the array runs upward from 0! and stops at (T - 1)!. */
  lemma CreateValuesAreFactorials(t: nat, n: nat)
    requires n < t
    ensures CreateValues(t)[n] == Product(1, n)
  {
    ValueIsFactorial(n);
  }

  /**
   * The array ascends (strictly from index 1), so it does not run "from this value to zero";
   * T! itself is never stored.
   */
  lemma CreateValuesAscending(t: nat, i: nat, j: nat)
    requires i <= j < t
    ensures CreateValues(t)[i] <= CreateValues(t)[j]
    ensures 1 <= i < j ==> CreateValues(t)[i] < CreateValues(t)[j]
    ensures t >= 2 ==> CreateValues(t)[j] < Value(t)
  {
    ValueMonotone(i, j);
    if t >= 2 {
      ValueMonotone(if j == 0 then 1 else j, t);
    }
  }

  /** No logarithm is taken: create_logs() holds the very factorials create_values() holds. */
  lemma CreateLogsAreValues(t: nat, n: nat)
    requires n < t
    ensures CreateLogs(t)[n] == CreateValues(t)[n] == Product(1, n)
  {
    ValueIsFactorial(n);
  }

  /** The <0> specialisation yields two empty arrays. */
  lemma EmptySpecialisation()
    ensures Value(0) == 1 && CreateValues(0) == [] && CreateLogs(0) == []
  {
  }
}
