/** Facts about real division that the solver does not find on its own. */
module Reals {

  /** `q = a / b` written as a product, for a nonzero `b`. */
  lemma DivAsProduct(a: real, b: real, q: real)
    requires b != 0.0
    ensures q == a / b <==> q * b == a
  {
  }

  lemma DivSelf(x: real)
    requires x != 0.0
    ensures x / x == 1.0 && (-x) / x == -1.0
  {
  }

  /** Multiplying by `1 / d` and then by `d` gives back the value. */
  lemma ScaleByInverse(d: real, v: real)
    requires d != 0.0
    ensures d * (1.0 / d * v) == v
  {
    assert d * (1.0 / d) == 1.0;
  }

  /** A nonzero value scaled by anything but one changes. */
  lemma NotUnit(t: real, m: real)
    requires t != 0.0 && m != 1.0
    ensures t * m != t
  {
  }
}
