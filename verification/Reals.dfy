/** Facts about products and quotients of reals. */
module Reals {

  function Pow(x: real, n: nat): real {
    if n == 0 then 1.0 else x * Pow(x, n - 1)
  }

  lemma Times(k: real, a: real, b: real)
    requires 0.0 <= k && a <= b
    ensures k * a <= k * b
  {
    assert k * b - k * a == k * (b - a);
  }

  lemma TimesStrictly(k: real, a: real, b: real)
    requires 0.0 < k && a < b
    ensures k * a < k * b
  {
    assert k * b - k * a == k * (b - a);
  }

  lemma ProductsKeepOrder(k: real, x: real, y: real)
    requires 0.0 < k
    ensures k * x <= k * y <==> x <= y
  {
    if x <= y { Times(k, x, y); } else { TimesStrictly(k, y, x); }
  }

  lemma TimesQuotient(k: real, x: real)
    requires k != 0.0
    ensures k * (x / k) == x
  {}

  lemma DivideSum(a: real, b: real, k: real)
    requires k != 0.0
    ensures a / k + b / k == (a + b) / k
  {}

  lemma QuotientIsNonNegative(x: real, k: real)
    requires 0.0 <= x && 0.0 < k
    ensures 0.0 <= x / k
  {}

  lemma WholeOfItself(x: real)
    requires x != 0.0
    ensures x / x == 1.0
  {}
}
