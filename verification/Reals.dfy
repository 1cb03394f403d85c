/** The little real arithmetic the rate limiter and the pacer share. */
module Reals {

  function MinR(a: real, b: real): real {
    if a <= b then a else b
  }

  lemma NonNegative(a: real, b: real)
    requires a >= 0.0 && b >= 0.0
    ensures a * b >= 0.0
  {
  }

  lemma SameOrder(a: real, b: real, r: real)
    requires r > 0.0
    ensures a <= b <==> a * r <= b * r
  {
    if a <= b {
      NonNegative(b - a, r);
    } else {
      assert (a - b) * r > 0.0;
    }
  }
}
