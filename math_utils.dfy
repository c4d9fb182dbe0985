/** utils::ipow from MathUtils.h: integer power by recursion on an unsigned exponent.
    The template parameter T is modelled as `int` (unbounded, so no overflow). */
module MathUtils {

  /** `base` raised to `exponent`: 1 for exponent 0, otherwise base * ipow(base, e - 1).
      The exponent is unsigned, so the recursion always reaches 0. */
  function IPow(base: int, exponent: nat): int
    decreases exponent
  {
    if exponent == 0 then 1 else base * IPow(base, exponent - 1)
  }

  /** ipow(1, e) == 1 for every exponent. */
  lemma {:induction false} IPowOfOne(exponent: nat)
    ensures IPow(1, exponent) == 1
  {
    if exponent > 0 {
      IPowOfOne(exponent - 1);
    }
  }

  /** "base raised to the exponent power": exponents add under multiplication. */
  lemma {:induction false} IPowAdd(base: int, m: nat, n: nat)
    ensures IPow(base, m + n) == IPow(base, m) * IPow(base, n)
  {
    if m > 0 {
      IPowAdd(base, m - 1, n);
      assert IPow(base, m + n) == base * IPow(base, m - 1 + n);
    }
  }

  /** Powers multiply: (b^m)^n == b^(m*n). */
  lemma {:induction false} IPowMul(base: int, m: nat, n: nat)
    ensures IPow(IPow(base, m), n) == IPow(base, m * n)
  {
    if n > 0 {
      IPowMul(base, m, n - 1);
      IPowAdd(base, m, m * (n - 1));
      assert m * n == m + m * (n - 1);
    }
  }

  /** A positive base stays positive; zero to a positive power is zero. */
  lemma {:induction false} IPowSign(base: int, exponent: nat)
    ensures base > 0 ==> IPow(base, exponent) > 0
    ensures base == 0 && exponent > 0 ==> IPow(base, exponent) == 0
  {
    if exponent > 0 {
      IPowSign(base, exponent - 1);
    }
  }
}
