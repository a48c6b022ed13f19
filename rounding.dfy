/**
 * roundUp1 on integers. Its argument is first scaled by 100000 and rounded
 * to the nearest integer; the model starts from that integer `n` (hundred-
 * thousandths of the input) and gives the result in tenths.
 */
module Rounding {

  /** JavaScript's `%`: the remainder takes the sign of the dividend. */
  function JsRemainder(n: int, d: int): int
    requires d > 0
  {
    if n >= 0 then n % d else -((-n) % d)
  }

  /** `Math.floor(n / d)` for a positive divisor; Dafny's `/` already rounds down there. */
  function FloorDiv(n: int, d: int): (q: int)
    requires d > 0
    ensures q * d <= n < q * d + d
  {
    n / d
  }

  /**
   * roundUp1 in tenths: a multiple of 10000 is returned as it is, anything
   * else goes up to the next multiple of 10000.
   * The result is the ceiling of n / 10000.
   */
  function RoundUp1(n: int): (r: int)
    ensures r * 10000 >= n
    ensures r * 10000 - n < 10000
  {
    if JsRemainder(n, 10000) == 0 then n / 10000 else FloorDiv(n, 10000) + 1
  }

  /** The remainder test in the source is a divisibility test, also for negative n. */
  lemma JsRemainderZero(n: int)
    ensures JsRemainder(n, 10000) == 0 <==> n % 10000 == 0
  {
    if n < 0 {
      var q := n / 10000;
      if n % 10000 == 0 {
        assert -n == (-q) * 10000;
      } else {
        assert -n == (-q - 1) * 10000 + (10000 - n % 10000);
      }
    }
  }

  /** The result is exact, n / 10000, precisely when n is a multiple of 10000. */
  lemma RoundUp1Exact(n: int)
    ensures RoundUp1(n) * 10000 == n <==> n % 10000 == 0
  {
    JsRemainderZero(n);
  }

  /** No smaller number of tenths covers n: the result is the least upper bound. */
  lemma RoundUp1Least(n: int, t: int)
    requires t * 10000 >= n
    ensures RoundUp1(n) <= t
  {
  }

  lemma RoundUp1Monotone(n: int, m: int)
    requires n <= m
    ensures RoundUp1(n) <= RoundUp1(m)
  {
    RoundUp1Least(n, RoundUp1(m));
  }

  /** Rounding a value that is already a whole number of tenths changes nothing. */
  lemma RoundUp1Idempotent(n: int)
    ensures RoundUp1(RoundUp1(n) * 10000) == RoundUp1(n)
  {
    RoundUp1Exact(RoundUp1(n) * 10000);
  }

  /**
   * The documented cases: 0.000001 scales to 0 and gives 0.0, 0.000009 scales
   * to 1 and gives 0.1, and 0.42 gives 0.5 while 0.4 stays 0.4.
   */
  lemma RoundUp1Examples()
    ensures RoundUp1(0) == 0
    ensures RoundUp1(1) == 1
    ensures RoundUp1(42000) == 5
    ensures RoundUp1(40000) == 4
  {
  }
}
