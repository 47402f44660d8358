/** Small facts about products and quotients, kept apart so that the solver meets each product
    on its own. */
module Arith {

  lemma MulLe(x: int, y: int, w: int)
    requires x <= y && 0 <= w
    ensures x * w <= y * w
  {
    assert (y - x) * w >= 0;
  }

  lemma MulLt(x: int, y: int, w: int)
    requires x < y && 0 < w
    ensures x * w + w <= y * w
  {
    MulLe(x + 1, y, w);
  }

  lemma CancelLt(x: int, y: int, w: int)
    requires x * w < y * w && 0 < w
    ensures x < y
  {
    if y <= x {
      MulLe(y, x, w);
      assert false;
    }
  }

  lemma MulNonneg(x: int, w: int)
    requires 0 <= x && 0 <= w
    ensures 0 <= x * w
  {
  }

  /** A number below p with one below q on top of it is below their product. */
  lemma FillBound(w: int, x: int, p: int, q: int)
    requires 0 <= w < p && 0 <= x < q
    ensures 0 <= x * p && w + x * p < p * q && x <= x * p
  {
    MulNonneg(x, p);
    MulLt(x, q, p);
    MulLe(1, p, x);
  }

  lemma Assoc(x: int, y: int, z: int)
    ensures (x * y) * z == x * (y * z)
  {
  }

  lemma MoveFactor(x: int, y: int, z: int)
    ensures x * (y * z) == y * (x * z)
  {
  }

  lemma Distrib(x: int, y: int, z: int)
    ensures x * (y + z) == x * y + x * z
    ensures (y + z) * x == y * x + z * x
    ensures x * (y - z) == x * y - x * z
    ensures (y - z) * x == y * x - z * x
  {
  }

  /** A remainder in range identifies the quotient. */
  lemma DivModUnique(x: int, d: int, q: int, r: int)
    requires d > 0 && 0 <= r < d && x == d * q + r
    ensures x / d == q && x % d == r
  {
    var q', r' := x / d, x % d;
    DivMod(x, d);
    if q' < q {
      MulLt(q', q, d);
      assert false;
    }
    if q' > q {
      MulLt(q, q', d);
      assert false;
    }
  }

  lemma DivMod(x: int, d: int)
    requires d > 0
    ensures x == d * (x / d) + x % d && 0 <= x % d < d
  {
  }

  /** x / d is below q when x is below d * q. */
  lemma DivLt(x: int, d: int, q: int)
    requires d > 0 && x < d * q
    ensures x / d < q
  {
    DivMod(x, d);
    if q <= x / d {
      MulLe(q, x / d, d);
      assert false;
    }
  }

  lemma DivGe(x: int, d: int, q: int)
    requires d > 0 && d * q <= x
    ensures q <= x / d
  {
    DivMod(x, d);
    if x / d < q {
      MulLt(x / d, q, d);
      assert false;
    }
  }
}
