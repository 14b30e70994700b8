/**
 * The IsOdd helper that selects each generator's branch.
 *
 * main.cpp computes `number % 2 == 1` for any integral type. C++'s `%`
 * truncates toward zero, so for a signed, negative, odd operand the remainder
 * is -1 and the helper answers false. The generators only ever pass the
 * unsigned point count, where both readings agree.
 */
module Parity {

  /** C++'s remainder by 2: it takes the sign of the dividend. */
  function TruncatedRem2(n: int): (r: int)
    ensures n >= 0 ==> 0 <= r < 2
    ensures n < 0 ==> -2 < r <= 0
    ensures (n - r) % 2 == 0
  {
    if n >= 0 then n % 2 else -((-n) % 2)
  }

  /**
   * The helper exactly as written, for a signed operand: it recognises the
   * odd numbers that are non-negative, and only those.
   */
  function IsOddAsWritten(n: int): (r: bool)
    ensures r <==> n >= 0 && n == 2 * (n / 2) + 1
  {
    TruncatedRem2(n) == 1
  }

  /** -3 is odd, but the helper as written says it is not. */
  lemma AsWrittenMissesNegativeOdd()
    ensures IsOdd(-3) && !IsOddAsWritten(-3)
  {
  }

  /** The same holds of every negative odd number. */
  lemma AsWrittenMissesAllNegativeOdd(n: int)
    requires n < 0 && IsOdd(n)
    ensures !IsOddAsWritten(n)
  {
  }

  /** An odd number minus an even number is odd. */
  lemma OddStepsDown(s: int, k: int)
    requires s % 2 == 1
    ensures (s - 2 * k) % 2 == 1
  {
  }

  /** Subtracting an odd number flips parity. */
  lemma OddDifference(w: int, p: int)
    requires w % 2 == 1
    ensures (p - w) % 2 == 0 <==> p % 2 == 1
  {
  }

  /**
   * Oddness: n is one more than an even number. Dafny's `%` is Euclidean, so
   * this holds for negative n too, and on the non-negative numbers the
   * generators pass it answers what the C++ helper answers.
   */
  function IsOdd(n: int): (r: bool)
    ensures r <==> n == 2 * (n / 2) + 1
    ensures !r <==> n == 2 * (n / 2)
    ensures n >= 0 ==> r == IsOddAsWritten(n)
  {
    n % 2 == 1
  }
}
