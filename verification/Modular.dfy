/** Residues modulo m, and the BigInteger operations that reduce by division. */
module Modular {
  import opened Arith
  import opened BigIntegers
  import opened Division

  /** x and y leave the same remainder on division by m. */
  ghost predicate Congruent(x: int, y: int, m: int)
    requires m > 0
  {
    x % m == y % m
  }

  /** Congruence as a multiple of m between the two. */
  lemma CongruentByMultiple(x: int, y: int, m: int, k: int)
    requires m > 0 && x == y + m * k
    ensures Congruent(x, y, m)
  {
    DivMod(y, m);
    Distrib(m, y / m, k);
    DivModUnique(x, m, y / m + k, y % m);
  }

  lemma CongruentMultiple(x: int, y: int, m: int) returns (k: int)
    requires m > 0 && Congruent(x, y, m)
    ensures x == y + m * k
  {
    DivMod(x, m);
    DivMod(y, m);
    k := x / m - y / m;
    Distrib(m, x / m, y / m);
  }

  lemma CongruentProducts(x: int, x': int, y: int, y': int, m: int)
    requires m > 0 && Congruent(x, x', m) && Congruent(y, y', m)
    ensures Congruent(x * y, x' * y', m)
  {
    var k := CongruentMultiple(x, x', m);
    var l := CongruentMultiple(y, y', m);
    ProductOfSums(x', y', m, k, l);
    CongruentByMultiple(x * y, x' * y', m, x' * l + k * y' + m * k * l);
  }

  lemma ProductOfSums(x: int, y: int, m: int, k: int, l: int)
    ensures (x + m * k) * (y + m * l) == x * y + m * (x * l + k * y + m * k * l)
  {
    Distrib(x + m * k, y, m * l);
    assert (x + m * k) * y == x * y + m * (k * y);
    assert (x + m * k) * (m * l) == m * (x * l) + m * (m * k * l);
    Distrib(m, x * l + k * y, m * k * l);
  }

  lemma RemainderIsCongruent(x: int, m: int)
    requires m > 0
    ensures 0 <= x % m < m && Congruent(x % m, x, m)
  {
    DivMod(x, m);
    DivModUnique(x % m, m, 0, x % m);
  }

  /** The remainder of self by a, never negative when a is positive. */
  method Mod(self: BigInteger, a: BigInteger) returns (r: BigInteger)
    requires self.Valid() && a.Valid() && a.Value() > 0
    ensures fresh(r) && r.Valid() && r.Value() == self.Value() % a.Value()
  {
    hide BigInteger.Value, TruncDiv, TruncRem;
    r := new BigInteger();
    self.SignOfValue();
    var x := self.Abs();
    RemainderOfAbs(self.Value(), a.Value());
    DivRemTo(x, a, null, r);
    var zero := new BigInteger();
    r.SignOfValue();
    var c := r.CompareTo(zero);
    if self.s < 0 && c > 0 {
      a.SubTo(r, r);
    }
  }

  lemma RemainderOfAbs(x: int, m: int)
    requires m > 0
    ensures var r := TruncRem(AbsInt(x), m);
            0 <= r < m && x % m == if x < 0 && r > 0 then m - r else r
  {
    var a := AbsInt(x);
    DivMod(a, m);
    if x < 0 {
      Distrib(m, -(a / m), 1);
      assert m * -(a / m) == -(m * (a / m));
      if a % m > 0 {
        DivModUnique(x, m, -(a / m) - 1, m - a % m);
      } else {
        DivModUnique(x, m, -(a / m), 0);
      }
    }
  }
}
