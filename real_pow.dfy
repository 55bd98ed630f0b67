/** Python's `**` on a float base with an integer exponent, over the reals. */
module RealPow {

  /** `x ** n` for a natural exponent: the n-fold product, with `x ** 0 == 1`. */
  function NatPower(x: real, n: nat): (r: real)
    ensures x != 0.0 ==> r != 0.0
  {
    if n == 0 then 1.0 else x * NatPower(x, n - 1)
  }

  /** `x ** k` for an integer exponent. A negative exponent takes the reciprocal,
      so it needs a nonzero base (Python raises ZeroDivisionError on `0.0 ** -1`). */
  function Power(x: real, k: int): (r: real)
    requires k >= 0 || x != 0.0
    ensures x != 0.0 ==> r != 0.0
    ensures k < 0 ==> r * NatPower(x, -k) == 1.0
  {
    if k >= 0 then NatPower(x, k) else 1.0 / NatPower(x, -k)
  }

  /** One more factor of the base: `x ** k == x * x ** (k - 1)` wherever both sides are defined. */
  lemma {:induction false} PowerStep(x: real, k: int)
    requires k >= 1 || x != 0.0
    ensures Power(x, k) == x * Power(x, k - 1)
  {
    if k <= 0 {
      var p := NatPower(x, -k);
      assert NatPower(x, 1 - k) == x * p;
      assert p != 0.0;
      calc {
        x * Power(x, k - 1);
        x * (1.0 / (x * p));
        1.0 / p;
        Power(x, k);
      }
    }
  }
}
