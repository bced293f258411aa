/** Sign and cancellation facts about products and quotients of reals, stated
    one step at a time so that the solver never has to search for them. */
module RealArith {

  lemma ProductPositive(x: real, y: real)
    requires x > 0.0 && y > 0.0
    ensures x * y > 0.0
  {
  }

  lemma ProductNonNegative(x: real, y: real)
    requires x >= 0.0 && y >= 0.0
    ensures x * y >= 0.0
  {
    if x > 0.0 && y > 0.0 {
      ProductPositive(x, y);
    }
  }

  /** Dividing by a non-zero `d` and multiplying back gives the dividend. */
  lemma DivisionCancels(a: real, d: real)
    requires d != 0.0
    ensures (a / d) * d == a
  {
  }

  /** A product with a positive factor has the sign of the other factor. */
  lemma SignOfProduct(x: real, p: real)
    requires p > 0.0
    ensures x >= 0.0 <==> x * p >= 0.0
    ensures x > 0.0 <==> x * p > 0.0
  {
    if x > 0.0 {
      ProductPositive(x, p);
    } else if x < 0.0 {
      ProductPositive(-x, p);
      assert (-x) * p == -(x * p);
    }
  }

  /** Two reals with equal products by a non-zero factor are equal. */
  lemma ProductCancels(x: real, y: real, p: real)
    requires p != 0.0
    requires x * p == y * p
    ensures x == y
  {
    assert (x - y) * p == x * p - y * p;
    if x != y {
      if x - y > 0.0 {
        if p > 0.0 { ProductPositive(x - y, p); } else { ProductPositive(x - y, -p); }
      } else {
        if p > 0.0 { ProductPositive(y - x, p); } else { ProductPositive(y - x, -p); }
      }
    }
  }
}
