/** The binary greatest common divisor and the modular inverse of the Crypto benchmark. */
module GcdAndInverse {
  import opened Arith
  import opened JsNumber
  import opened Digits
  import opened BigIntegers
  import opened Division
  import opened Modular

  // ----- divisors

  ghost predicate Divides(d: int, x: int)
    requires d > 0
  {
    x % d == 0
  }

  /** g divides both numbers, and every common divisor divides g. */
  ghost predicate IsGcd(g: int, x: int, y: int) {
    && g > 0 && Divides(g, x) && Divides(g, y)
    && forall d :: d > 0 && Divides(d, x) && Divides(d, y) ==> Divides(d, g)
  }

  /** Euclid's greatest common divisor. */
  function Gcd(x: nat, y: nat): nat
    decreases y
  {
    if y == 0 then x else
      DivMod(x, y);
      Gcd(y, x % y)
  }

  lemma Factor(d: int, x: int) returns (k: int)
    requires d > 0 && Divides(d, x)
    ensures x == d * k
  {
    DivMod(x, d);
    k := x / d;
  }

  lemma Multiple(d: int, k: int)
    requires d > 0
    ensures Divides(d, d * k)
  {
    DivModUnique(d * k, d, k, 0);
  }

  lemma DividesSum(d: int, x: int, y: int, k: int)
    requires d > 0 && Divides(d, x) && Divides(d, y)
    ensures Divides(d, x + y * k)
  {
    var a := Factor(d, x);
    var b := Factor(d, y);
    assert x + y * k == d * (a + b * k) by {
      Distrib(d, a, b * k);
      Assoc(d, b, k);
    }
    Multiple(d, a + b * k);
  }

  /** Every number divides 0 and itself; a divisor of a positive number is no larger. */
  lemma TrivialDivisors(d: int, x: int)
    requires d > 0
    ensures Divides(d, 0) && Divides(d, d)
    ensures x > 0 && Divides(d, x) ==> d <= x
  {
    Multiple(d, 0);
    Multiple(d, 1);
    if x > 0 && Divides(d, x) {
      DivModUnique0(x, d);
    }
  }

  lemma DivModUnique0(x: int, d: int)
    requires 0 < x && 0 < d && Divides(d, x)
    ensures d <= x
  {
    if x < d {
      DivModUnique(x, d, 0, x);
      assert false;
    }
  }

  /** An odd divisor of 2 x divides x. */
  lemma OddDivisor(d: int, x: int)
    requires d > 0 && d % 2 == 1 && Divides(d, 2 * x)
    ensures Divides(d, x)
  {
    var k := Factor(d, 2 * x);
    var e := d / 2;
    assert d == 2 * e + 1;
    assert d * k == 2 * (e * k) + k;
    var h := x - e * k;
    assert k == 2 * h;
    assert x == d * h by {
      assert 2 * x == d * (2 * h);
      assert d * (2 * h) == 2 * (d * h);
    }
    Multiple(d, h);
  }

  lemma EvenDivisor(d: int, x: int)
    requires d > 0 && d % 2 == 0 && Divides(d, x)
    ensures x % 2 == 0
  {
    var k := Factor(d, x);
    assert d == 2 * (d / 2);
    assert x == 2 * ((d / 2) * k);
  }

  // ----- the greatest common divisor as a function

  lemma {:induction false} GcdIsGreatest(x: nat, y: nat)
    requires x > 0 || y > 0
    ensures IsGcd(Gcd(x, y), x, y)
    decreases y
  {
    if y == 0 {
      TrivialDivisors(x, x);
    } else {
      DivMod(x, y);
      var q, r := x / y, x % y;
      GcdIsGreatest(y, r);
      var g := Gcd(y, r);
      DividesSum(g, r, y, q);
      forall d | d > 0 && Divides(d, x) && Divides(d, y)
        ensures Divides(d, g)
      {
        DividesSum(d, x, y, -q);
        assert y * -q == -(y * q);
      }
    }
  }

  lemma UniqueGcd(g: int, x: nat, y: nat)
    requires (x > 0 || y > 0) && IsGcd(g, x, y)
    ensures g == Gcd(x, y)
  {
    GcdIsGreatest(x, y);
    TrivialDivisors(g, Gcd(x, y));
    TrivialDivisors(Gcd(x, y), g);
  }

  lemma GcdZero(y: nat)
    ensures Gcd(0, y) == y && Gcd(y, 0) == y
  {
    if y > 0 {
      TrivialDivisors(y, y);
      UniqueGcd(y, 0, y);
    }
  }

  lemma GcdSymmetric(x: nat, y: nat)
    ensures Gcd(x, y) == Gcd(y, x)
  {
    GcdZero(0);
    if x > 0 || y > 0 {
      GcdIsGreatest(x, y);
      UniqueGcd(Gcd(x, y), y, x);
    }
  }

  /** Subtracting one number from the other. */
  lemma GcdSubtract(x: nat, y: nat)
    requires x >= y > 0
    ensures Gcd(x - y, y) == Gcd(x, y)
  {
    GcdIsGreatest(x - y, y);
    var g := Gcd(x - y, y);
    DividesSum(g, x - y, y, 1);
    forall d | d > 0 && Divides(d, x) && Divides(d, y)
      ensures Divides(d, g)
    {
      DividesSum(d, x, y, -1);
    }
    UniqueGcd(g, x, y);
  }

  /** A factor 2 of one number does not matter when the other is odd. */
  lemma GcdHalve(x: nat, y: nat)
    requires x % 2 == 0 && y % 2 == 1
    ensures Gcd(x / 2, y) == Gcd(x, y)
  {
    var h := x / 2;
    GcdIsGreatest(h, y);
    var g := Gcd(h, y);
    DividesSum(g, 0 + h, h, 1);
    forall d | d > 0 && Divides(d, x) && Divides(d, y)
      ensures Divides(d, g)
    {
      if d % 2 == 0 {
        EvenDivisor(d, y);
        assert false;
      }
      OddDivisor(d, h);
    }
    UniqueGcd(g, x, y);
  }

  lemma {:induction false} GcdHalvings(x: nat, y: nat, n: nat)
    requires y % 2 == 1 && x % Pow2(n) == 0
    ensures Gcd(x / Pow2(n), y) == Gcd(x, y)
  {
    if n > 0 {
      var p := Pow2(n - 1);
      assert Pow2(n) == 2 * p;
      DivMod(x, 2 * p);
      DivModUnique(x, p, 2 * (x / (2 * p)), 0);
      GcdHalvings(x, y, n - 1);
      DivGe(x, 2 * p, 0);
      GcdHalve(2 * (x / (2 * p)), y);
    } else {
      assert Pow2(0) == 1;
    }
  }

  lemma GcdDouble(x: nat, y: nat)
    ensures Gcd(2 * x, 2 * y) == 2 * Gcd(x, y)
  {
    if x == 0 && y == 0 {
      GcdZero(0);
    } else {
      GcdIsGreatest(x, y);
      var g := Gcd(x, y);
      var a := Factor(g, x);
    var b := Factor(g, y);
      assert 2 * x == (2 * g) * a && 2 * y == (2 * g) * b;
      Multiple(2 * g, a);
      Multiple(2 * g, b);
      forall d | d > 0 && Divides(d, 2 * x) && Divides(d, 2 * y)
        ensures Divides(d, 2 * g)
      {
        DoubleDivisor(d, x, y, g);
      }
      UniqueGcd(2 * g, 2 * x, 2 * y);
    }
  }

  lemma DoubleDivisor(d: int, x: int, y: int, g: int)
    requires d > 0 && IsGcd(g, x, y) && Divides(d, 2 * x) && Divides(d, 2 * y)
    ensures Divides(d, 2 * g)
  {
    if d % 2 == 1 {
      OddDivisor(d, x);
      OddDivisor(d, y);
      DividesSum(d, g, g, 1);
    } else {
      var e := d / 2;
      HalfDivides(e, x);
      HalfDivides(e, y);
      DoubleDivides(e, g);
    }
  }

  lemma HalfDivides(e: int, x: int)
    requires e > 0 && Divides(2 * e, 2 * x)
    ensures Divides(e, x)
  {
    var k := Factor(2 * e, 2 * x);
    Assoc(2, e, k);
    Multiple(e, k);
  }

  lemma DoubleDivides(e: int, x: int)
    requires e > 0 && Divides(e, x)
    ensures Divides(2 * e, 2 * x)
  {
    var k := Factor(e, x);
    Assoc(2, e, k);
    Multiple(2 * e, k);
  }

  lemma {:induction false} GcdScale(x: nat, y: nat, n: nat)
    ensures x * Pow2(n) >= 0 && y * Pow2(n) >= 0
    ensures Gcd(x * Pow2(n), y * Pow2(n)) == Gcd(x, y) * Pow2(n)
  {
    MulNonneg(x, Pow2(n));
    MulNonneg(y, Pow2(n));
    if n > 0 {
      var p := Pow2(n - 1);
      assert Pow2(n) == 2 * p;
      hide Pow2, Gcd;
      GcdScale(x, y, n - 1);
      GcdDouble(x * p, y * p);
      TimesTwice(x, p);
      TimesTwice(y, p);
      TimesTwice(Gcd(x, y), p);
    } else {
      assert Pow2(0) == 1;
    }
  }

  lemma TimesTwice(x: int, p: int)
    ensures x * (2 * p) == 2 * (x * p)
  {
  }

  // ----- the lowest set bit

  /** The exact power of two in x. */
  ghost predicate TwosIn(x: int, r: int) {
    r >= 0 && x % Pow2(r) == 0 && (x / Pow2(r)) % 2 == 1
  }

  method LBit(x0: int) returns (r: int)
    requires 0 <= x0 < 0x8000_0000
    ensures if x0 == 0 then r == -1 else TwosIn(x0, r)
  {
    hide Pow2, TwosIn, TwosOut;
    var x := x0;
    if x == 0 {
      return -1;
    }
    r := 0;
    TwosStart(x);
    if x % 0x1_0000 == 0 {
      TwosStep(x0, x, r, 16);
      x := x / 0x1_0000;
      r := r + 16;
    }
    assert x % 0x1_0000 != 0;
    if x % 0x100 == 0 {
      TwosStep(x0, x, r, 8);
      NextStage(x, 0x100, 0x100);
      x := x / 0x100;
      r := r + 8;
    }
    assert x % 0x100 != 0;
    if x % 0x10 == 0 {
      TwosStep(x0, x, r, 4);
      NextStage(x, 0x10, 0x10);
      x := x / 0x10;
      r := r + 4;
    }
    assert x % 0x10 != 0;
    if x % 4 == 0 {
      TwosStep(x0, x, r, 2);
      NextStage(x, 4, 4);
      x := x / 4;
      r := r + 2;
    }
    assert x % 4 != 0;
    if x % 2 == 0 {
      TwosStep(x0, x, r, 1);
      NextStage(x, 2, 2);
      r := r + 1;
      TwosEnd(x0, x / 2, r);
    } else {
      TwosEnd(x0, x, r);
    }
  }

  lemma NextStage(x: int, a: int, b: int)
    requires a > 0 && b > 0 && a * b > 0 && x % (a * b) != 0 && x % a == 0
    ensures (x / a) % b != 0
  {
    if (x / a) % b == 0 {
      DivMod(x, a);
      DivMod(x / a, b);
      Assoc(a, b, x / a / b);
      DivModUnique(x, a * b, x / a / b, 0);
      assert false;
    }
  }

  ghost predicate TwosOut(x0: int, x: int, r: int) {
    r >= 0 && x0 == x * Pow2(r)
  }

  lemma TwosStart(x: int)
    ensures TwosOut(x, x, 0)
    ensures Pow2(16) == 0x1_0000 && Pow2(8) == 0x100 && Pow2(4) == 0x10 && Pow2(2) == 4 && Pow2(1) == 2
  {
    Pow2Add(8, 8);
  }

  lemma TwosStep(x0: int, x: int, r: int, k: nat)
    requires TwosOut(x0, x, r) && x % Pow2(k) == 0
    ensures TwosOut(x0, x / Pow2(k), r + k)
  {
    hide Pow2;
    Pow2Add(r, k);
    DivMod(x, Pow2(k));
    assert (Pow2(k) * (x / Pow2(k))) * Pow2(r) == (x / Pow2(k)) * (Pow2(r) * Pow2(k));
  }

  lemma TwosEnd(x0: int, x: int, r: int)
    requires TwosOut(x0, x, r) && x % 2 == 1
    ensures TwosIn(x0, r)
  {
    hide Pow2;
    Swap(x, Pow2(r));
    DivModUnique(x0, Pow2(r), x, 0);
  }

  /** The position of the lowest set bit, of a number of either sign; -1 for 0. */
  method GetLowestSetBit(x: BigInteger) returns (r: int)
    requires x.Valid()
    ensures if x.Value() == 0 then r == -1 else TwosIn(x.Value(), r)
  {
    hide Seg, B, Pow2, TwosIn, BigInteger.Value;
    x.ValueIsDigitsAndSign();
    x.SignOfValue();
    for i := 0 to x.t
      invariant forall k :: 0 <= k < i ==> x.arr[k] == 0
    {
      if x.arr[i] != 0 {
        var b := LBit(x.arr[i]);
        LowZeros(x.arr, x.t, x.s, i, b);
        return i * DB + b;
      }
    }
    SegZero(x.arr, 0, x.t);
    if x.s < 0 {
      NegativePower(x.t);
      return x.t * DB;
    }
    return -1;
  }

  lemma NegativePower(t: nat)
    ensures TwosIn(-B(t), t * DB)
  {
    BIsPow2(t);
    DivModUnique(-B(t), Pow2(28 * t), -1, 0);
  }

  lemma LowZeros(a: Array, t: nat, s: int, i: nat, b: int)
    requires AreDigits(a, 0, t) && i < t && (s == 0 || s == -1)
    requires forall k :: 0 <= k < i ==> a[k] == 0
    requires a[i] != 0 && TwosIn(a[i], b)
    ensures TwosIn(Seg(a, 0, t) + SignPart(s, B(t)), i * DB + b)
    ensures Seg(a, 0, t) + SignPart(s, B(t)) != 0
  {
    hide Seg;
    SegZero(a, 0, i);
    SegSplit(a, 0, i, t - i);
    SegLow(a, i, t - i);
    BAdd(i, t - i);
    assert B(t - i) == DV * B(t - i - 1);
    hide B;
    BIsPow2(i);
    var d, h := a[i], Seg(a, i + 1, t - i - 1) + SignPart(s, B(t - i - 1));
    var v := Seg(a, 0, t) + SignPart(s, B(t));
    assert v == B(i) * (d + DV * h) by {
      Distrib(B(i), Seg(a, i, t - i), DV * B(t - i - 1));
    }
    BitBelow28(d, b);
    Pow2Add(b, DB - b);
    Pow2Constants();
    Pow2Add(28 * i, b);
    assert DB - b >= 1 ==> Pow2(DB - b) == 2 * Pow2(DB - b - 1);
    hide Pow2;
    DivMod(d, Pow2(b));
    OddCofactor(v, B(i), Pow2(b), d / Pow2(b), Pow2(DB - b - 1), h, d, d + DV * h);
    assert i * DB + b == 28 * i + b;
  }

  lemma BitBelow28(d: int, b: int)
    requires 0 < d < DV && TwosIn(d, b)
    ensures 0 <= b < DB
  {
    Pow2Constants();
    if b >= DB {
      Pow2Monotone(DB, b);
      DivModUnique(d, Pow2(b), 0, d);
      assert false;
    }
  }

  lemma OddCofactor(v: int, w: int, p: int, c: int, g: int, h: int, d: int, x: int)
    requires w > 0 && p > 0 && d == p * c && c % 2 == 1 && DV == p * (2 * g)
    requires x == d + DV * h && v == w * x
    ensures w * p > 0 && v % (w * p) == 0 && (v / (w * p)) % 2 == 1 && v != 0
  {
    var q := c + 2 * (g * h);
    assert x == p * q by {
      OddFactor(p, c, g, h, d);
    }
    assert q % 2 == 1 by {
      DivModUnique(q, 2, c / 2 + g * h, 1);
    }
    OddQuotient(v, w, p, q, x);
  }

  lemma OddFactor(p: int, c: int, g: int, h: int, d: int)
    requires d == p * c && DV == p * (2 * g)
    ensures d + DV * h == p * (c + 2 * (g * h))
  {
    Assoc(p, 2 * g, h);
    Assoc(2, g, h);
    Distrib(p, c, 2 * (g * h));
  }

  lemma OddQuotient(v: int, w: int, p: int, q: int, x: int)
    requires w > 0 && p > 0 && v == w * x && x == p * q && q % 2 == 1
    ensures w * p > 0 && v % (w * p) == 0 && (v / (w * p)) % 2 == 1 && v != 0
  {
    MulLt(0, w, p);
    Assoc(w, p, q);
    DivModUnique(v, w * p, q, 0);
    NonZeroProduct(w * p, q);
  }

  lemma NonZeroProduct(y: int, q: int)
    requires y > 0 && q % 2 == 1
    ensures y * q != 0
  {
    if q > 0 {
      MulLt(0, q, y);
    } else {
      MulLt(0, -q, y);
    }
  }

  // ----- the binary algorithm

  method Clone(x: BigInteger) returns (r: BigInteger)
    requires x.Valid()
    ensures fresh(r) && r.Valid() && r.Value() == x.Value()
  {
    r := new BigInteger();
    x.CopyTo(r);
  }

  method Magnitude(a: BigInteger) returns (x: BigInteger)
    requires a.Valid()
    ensures fresh(x) && x.Valid() && x.s == 0 && x.Value() == AbsInt(a.Value()) >= 0
  {
    hide BigInteger.Value, Seg, B;
    a.SignOfValue();
    if a.s < 0 {
      x := a.Negate();
    } else {
      x := Clone(a);
    }
    x.SignOfValue();
  }

  /** Takes out of x all its factors 2. */
  method MakeOdd(x: BigInteger)
    requires x.Valid() && x.s == 0 && x.Value() > 0
    modifies x
    ensures x.Valid() && x.s == 0 && 0 < x.Value() <= old(x.Value()) && x.Value() % 2 == 1
    ensures old(x.Value()) % 2 == 1 ==> x.Value() == old(x.Value())
    ensures forall y: nat :: y % 2 == 1 ==> Gcd(x.Value(), y) == Gcd(old(x.Value()), y)
  {
    hide BigInteger.Value, Seg, B, Pow2;
    ghost var v := x.Value();
    var i := GetLowestSetBit(x);
    OddPart(v, i);
    if i > 0 {
      x.RShiftTo(i, x);
    }
  }

  lemma OddPart(v: nat, i: int)
    requires v > 0 && TwosIn(v, i)
    ensures (i == 0 <==> v % 2 == 1) && 0 < v / Pow2(i) <= v && (v / Pow2(i)) % 2 == 1
    ensures i == 0 ==> v / Pow2(i) == v
    ensures forall y: nat :: y % 2 == 1 ==> Gcd(v / Pow2(i), y) == Gcd(v, y)
  {
    assert Pow2(0) == 1;
    assert i > 0 ==> Pow2(i) == 2 * Pow2(i - 1);
    hide Pow2;
    DivMod(v, Pow2(i));
    DivGe(v, Pow2(i), 0);
    if i > 0 {
      assert (2 * Pow2(i - 1)) * (v / Pow2(i)) == 2 * (Pow2(i - 1) * (v / Pow2(i)));
    }
    MulLe(1, Pow2(i), v / Pow2(i));
    Swap(Pow2(i), v / Pow2(i));
    forall y: nat | y % 2 == 1
      ensures Gcd(v / Pow2(i), y) == Gcd(v, y)
    {
      GcdHalvings(v, y, i);
    }
  }

  /** The loop of the binary algorithm, on numbers that are not both even; y becomes their
      greatest common divisor. */
  method SubtractAndHalve(x: BigInteger, y: BigInteger)
    requires x != y && x.Valid() && x.s == 0 && y.Valid() && y.s == 0
    requires 0 <= x.Value() && 0 < y.Value() && (x.Value() % 2 == 1 || y.Value() % 2 == 1)
    modifies x, y
    ensures y.Valid() && y.s == 0 && y.Value() == Gcd(old(x.Value()), old(y.Value()))
  {
    hide BigInteger.Value, Seg, B, Pow2, Gcd;
    ghost var G := Gcd(x.Value(), y.Value());
    var c := x.SigNum();
    while c > 0
      invariant x.Valid() && x.s == 0 && y.Valid() && y.s == 0
      invariant 0 <= x.Value() && 0 < y.Value() && (x.Value() % 2 == 1 || y.Value() % 2 == 1)
      invariant Gcd(x.Value(), y.Value()) == G
      invariant c > 0 <==> x.Value() > 0
      decreases x.Value() + y.Value()
    {
      ghost var X, Y := x.Value(), y.Value();
      MakeOdd(x);
      MakeOdd(y);
      BothOdd(X, Y, x.Value(), y.Value());
      HalvedDifference(x.Value(), y.Value());
      c := x.CompareTo(y);
      if c >= 0 {
        x.SubTo(y, x);
        x.RShiftTo(1, x);
        x.SignOfValue();
      } else {
        y.SubTo(x, y);
        y.RShiftTo(1, y);
        y.SignOfValue();
      }
      c := x.SigNum();
    }
    GcdZero(y.Value());
  }

  lemma BothOdd(X: nat, Y: nat, x: nat, y: nat)
    requires X % 2 == 1 || Y % 2 == 1
    requires x % 2 == 1 && y % 2 == 1
    requires X % 2 == 1 ==> x == X
    requires Y % 2 == 1 ==> y == Y
    requires forall z: nat :: z % 2 == 1 ==> Gcd(x, z) == Gcd(X, z)
    requires forall z: nat :: z % 2 == 1 ==> Gcd(y, z) == Gcd(Y, z)
    ensures Gcd(x, y) == Gcd(X, Y)
  {
    GcdSymmetric(x, y);
    GcdSymmetric(X, Y);
    GcdSymmetric(x, Y);
  }

  /** Subtracting the smaller odd number from the larger and halving. */
  lemma HalvedDifference(x: nat, y: nat)
    requires x > 0 && y > 0 && x % 2 == 1 && y % 2 == 1
    ensures Pow2(1) == 2
    ensures x >= y ==> 0 <= (x - y) / 2 < x && Gcd((x - y) / 2, y) == Gcd(x, y)
    ensures x < y ==> 0 < (y - x) / 2 < y && Gcd(x, (y - x) / 2) == Gcd(x, y)
  {
    assert Pow2(1) == 2 * Pow2(0);
    if x >= y {
      GcdSubtract(x, y);
      GcdHalve(x - y, y);
    } else {
      GcdSubtract(y, x);
      GcdHalve(y - x, x);
      GcdSymmetric(x, y);
      GcdSymmetric(x, (y - x) / 2);
    }
  }

  /** The common factors 2 of two numbers. */
  lemma CommonTwos(X: nat, Y: nat, i: int, j: int, g: int)
    requires X > 0 && Y > 0 && TwosIn(X, i) && TwosIn(Y, j) && g == if i < j then i else j
    ensures g >= 0 && 0 < X / Pow2(g) && 0 < Y / Pow2(g) && (g == 0 ==> X / Pow2(g) == X && Y / Pow2(g) == Y)
    ensures (X / Pow2(g)) % 2 == 1 || (Y / Pow2(g)) % 2 == 1
    ensures Gcd(X, Y) == Gcd(X / Pow2(g), Y / Pow2(g)) * Pow2(g)
  {
    assert Pow2(0) == 1;
    hide Pow2;
    LowerTwos(X, i, g);
    LowerTwos(Y, j, g);
    GcdScale(X / Pow2(g), Y / Pow2(g), g);
    Swap(X / Pow2(g), Pow2(g));
    Swap(Y / Pow2(g), Pow2(g));
  }

  lemma LowerTwos(X: nat, i: int, g: nat)
    requires X > 0 && g <= i && TwosIn(X, i)
    ensures X == Pow2(g) * (X / Pow2(g)) && X / Pow2(g) > 0
  {
    Pow2Add(g, i - g);
    hide Pow2;
    DivMod(X, Pow2(i));
    Assoc(Pow2(g), Pow2(i - g), X / Pow2(i));
    DivModUnique(X, Pow2(g), Pow2(i - g) * (X / Pow2(i)), 0);
    DivGe(X, Pow2(g), 0);
  }

  /** The greatest common divisor of the magnitudes. */
  method BinaryGcd(self: BigInteger, a: BigInteger) returns (r: BigInteger)
    requires self.Valid() && a.Valid()
    ensures fresh(r) && r.Valid()
    ensures r.Value() == Gcd(AbsInt(self.Value()), AbsInt(a.Value()))
  {
    hide BigInteger.Value, Seg, B, Pow2, Gcd, TwosIn;
    GcdSymmetric(AbsInt(self.Value()), AbsInt(a.Value()));
    var x := Magnitude(self);
    var y := Magnitude(a);
    var c := x.CompareTo(y);
    if c < 0 {
      x, y := y, x;
    }
    var i := GetLowestSetBit(x);
    var g := GetLowestSetBit(y);
    ghost var X, Y := x.Value(), y.Value();
    NoLowestBit(Y, g);
    if g < 0 {
      GcdZero(X);
      return x;
    }
    NoLowestBit(X, i);
    ghost var j := g;
    if i < g {
      g := i;
    }
    CommonTwos(X, Y, i, j, g);
    if g > 0 {
      x.RShiftTo(g, x);
      y.RShiftTo(g, y);
    }
    SubtractAndHalve(x, y);
    if g > 0 {
      y.LShiftTo(g, y);
    }
    TimesOne(g, y.Value());
    r := y;
  }

  lemma NoLowestBit(x: int, r: int)
    requires if x == 0 then r == -1 else TwosIn(x, r)
    ensures r < 0 <==> x == 0
  {
  }

  lemma TimesOne(g: int, y: int)
    ensures g == 0 ==> y * Pow2(0) == y
  {
    assert Pow2(0) == 1;
  }

  // ----- the modular inverse

  /** u is the combination a m + b v of the modulus and the number, as far as it is tracked: for
      an odd modulus only b is, and the combination holds modulo m. */
  ghost predicate Tracks(even: bool, m: int, v: int, u: int, a: int, b: int)
    requires m > 0
  {
    if even then u == a * m + b * v else Congruent(u, b * v, m)
  }

  lemma TracksStart(even: bool, m: int, v: int)
    requires m > 0
    ensures Tracks(even, m, v, m, 1, 0) && Tracks(even, m, v, v, 0, 1)
  {
    if !even {
      CongruentByMultiple(m, 0, m, 1);
    }
  }

  /** Subtraction of one tracked number from the other. */
  lemma TracksDifference(even: bool, m: int, v: int, u: int, a: int, b: int, w: int, c: int, d: int)
    requires m > 0 && Tracks(even, m, v, u, a, b) && Tracks(even, m, v, w, c, d)
    ensures Tracks(even, m, v, u - w, a - c, b - d)
  {
    Distrib(m, a, c);
    Distrib(v, b, d);
    if !even {
      var k := CongruentMultiple(u, b * v, m);
      var l := CongruentMultiple(w, d * v, m);
      Distrib(m, k, l);
      CongruentByMultiple(u - w, (b - d) * v, m, k - l);
    }
  }

  /** The coefficients as the code adjusts them before halving. */
  function Adjusted(even: bool, m: int, v: int, a: int, b: int): (int, int) {
    if even then
      if a % 2 != 0 || b % 2 != 0 then (a + v, b - m) else (a, b)
    else (a, if b % 2 != 0 then b - m else b)
  }

  /** The six numbers that the extended algorithm works on. */
  datatype Pairs = Pairs(u: int, v: int, a: int, b: int, c: int, d: int)

  /** A number and its coefficients when no factor 2 is left. */
  function HalvedOut(even: bool, m: int, v: int, u: int, a: int, b: int): (r: (int, int, int))
    requires u > 0
    ensures 0 < r.0 <= u
    decreases u
  {
    if u % 2 != 0 then (u, a, b)
    else
      var (a', b') := Adjusted(even, m, v, a, b);
      HalvedOut(even, m, v, u / 2, if even then a' / 2 else a', b' / 2)
  }

  /** One round: both numbers made odd, and the smaller taken from the larger. */
  function Turn(even: bool, m: int, x: int, p: Pairs): (p': Pairs)
    requires p.u > 0 && p.v > 0
    ensures p'.u >= 0 && p'.v > 0 && p'.u + p'.v < p.u + p.v
  {
    var (u, a, b) := HalvedOut(even, m, x, p.u, p.a, p.b);
    var (v, c, d) := HalvedOut(even, m, x, p.v, p.c, p.d);
    if u >= v then Pairs(u - v, v, if even then a - c else a, b - d, c, d)
    else Pairs(u, v - u, a, b, if even then c - a else c, d - b)
  }

  /** All rounds. */
  function Turned(even: bool, m: int, x: int, p: Pairs): Pairs
    requires p.u >= 0 && p.v > 0
    decreases p.u + p.v
  {
    if p.u == 0 then p else Turned(even, m, x, Turn(even, m, x, p))
  }

  /** The coefficient of x that the rounds end with. */
  function Coefficient(x: int, m: int): int
    requires x > 0 && m > 0
  {
    Turned(m % 2 == 0, m, x, Pairs(m, x, 1, 0, 0, 1)).d
  }

  ghost function Numbers(u: BigInteger, v: BigInteger, a: BigInteger, b: BigInteger, c: BigInteger, d: BigInteger): Pairs
    reads u, v, a, b, c, d
  {
    Pairs(u.Value(), v.Value(), a.Value(), b.Value(), c.Value(), d.Value())
  }

  /** After the adjustment both coefficients in use are even and half of them track half. */
  lemma TracksHalf(even: bool, m: int, v: int, u: int, a: int, b: int)
    requires m > 0 && Tracks(even, m, v, u, a, b) && u % 2 == 0
    requires even <==> m % 2 == 0
    requires even ==> v % 2 == 1
    ensures var (a', b') := Adjusted(even, m, v, a, b);
            && b' % 2 == 0 && (even ==> a' % 2 == 0)
            && Tracks(even, m, v, u / 2, if even then a' / 2 else a, b' / 2)
  {
    var (a', b') := Adjusted(even, m, v, a, b);
    if even {
      EvenCoefficient(m, v, u, a, b);
      assert (a + v) * m + (b - m) * v == a * m + b * v by {
        Distrib(m, a, v);
        Distrib(v, b, m);
      }
      HalfCombination(u, a', b', m, v);
    } else {
      var k := CongruentMultiple(u, b * v, m);
      Distrib(v, b, m);
      var l := if b % 2 != 0 then k + v else k;
      Distrib(m, k, v);
      assert u == b' * v + m * l;
      OddModulusHalf(u, b', v, m, l);
    }
  }

  lemma EvenCoefficient(m: int, v: int, u: int, a: int, b: int)
    requires m % 2 == 0 && v % 2 == 1 && u % 2 == 0 && u == a * m + b * v
    ensures b % 2 == 0
  {
    assert a * m == 2 * (a * (m / 2));
    assert b * v == 2 * (b * (v / 2)) + b by {
      assert v == 2 * (v / 2) + 1;
    }
  }

  lemma HalfCombination(u: int, a: int, b: int, m: int, v: int)
    requires u == a * m + b * v && a % 2 == 0 && b % 2 == 0
    ensures u / 2 == (a / 2) * m + (b / 2) * v
  {
    assert a * m == 2 * ((a / 2) * m) && b * v == 2 * ((b / 2) * v);
  }

  lemma OddModulusHalf(u: int, b: int, v: int, m: int, l: int)
    requires m > 0 && m % 2 == 1 && u % 2 == 0 && b % 2 == 0 && u == b * v + m * l
    ensures Congruent(u / 2, (b / 2) * v, m)
  {
    var h, g := b / 2, m / 2;
    HalfProducts(b, h, v, m, g, l);
    var n := l / 2;
    assert l == 2 * n;
    TimesTwice(m, n);
    CongruentByMultiple(u / 2, h * v, m, n);
  }

  lemma HalfProducts(b: int, h: int, v: int, m: int, g: int, l: int)
    requires b == 2 * h && m == 2 * g + 1
    ensures b * v == 2 * (h * v) && m * l == 2 * (g * l) + l
  {
  }

  /** The inner loop: halves u while it is even and keeps its coefficients in step. */
  method HalveWhileEven(u: BigInteger, a: BigInteger, b: BigInteger, even: bool, self: BigInteger, m: BigInteger)
    requires u.Valid() && u.s == 0 && u.Value() > 0 && a.Valid() && b.Valid() && self.Valid() && m.Valid()
    requires m.Value() > 0 && (even <==> m.Value() % 2 == 0) && (even ==> self.Value() % 2 == 1)
    requires u != a && u != b && a != b && {u, a, b} !! {self, m}
    requires Tracks(even, m.Value(), self.Value(), u.Value(), a.Value(), b.Value())
    modifies u, a, b
    ensures u.Valid() && u.s == 0 && 0 < u.Value() <= old(u.Value()) && a.Valid() && b.Valid()
    ensures u.Value() % 2 == 1 && (old(u.Value()) % 2 == 1 ==> u.Value() == old(u.Value()))
    ensures Tracks(even, m.Value(), self.Value(), u.Value(), a.Value(), b.Value())
    ensures forall y: nat :: y % 2 == 1 ==> Gcd(u.Value(), y) == Gcd(old(u.Value()), y)
    ensures (u.Value(), a.Value(), b.Value()) ==
            HalvedOut(even, m.Value(), self.Value(), old(u.Value()), old(a.Value()), old(b.Value()))
  {
    hide BigInteger.Value, Seg, B, Pow2, Gcd, Tracks;
    HalfIsShift();
    var isEven := u.IsEven();
    while isEven
      invariant u.Valid() && u.s == 0 && 0 < u.Value() <= old(u.Value()) && a.Valid() && b.Valid()
      invariant isEven <==> u.Value() % 2 == 0
      invariant old(u.Value()) % 2 == 1 ==> u.Value() == old(u.Value())
      invariant Tracks(even, m.Value(), self.Value(), u.Value(), a.Value(), b.Value())
      invariant forall y: nat :: y % 2 == 1 ==> Gcd(u.Value(), y) == Gcd(old(u.Value()), y)
      invariant HalvedOut(even, m.Value(), self.Value(), u.Value(), a.Value(), b.Value()) ==
                HalvedOut(even, m.Value(), self.Value(), old(u.Value()), old(a.Value()), old(b.Value()))
      decreases u.Value()
    {
      TracksHalf(even, m.Value(), self.Value(), u.Value(), a.Value(), b.Value());
      forall y: nat | y % 2 == 1
        ensures Gcd(u.Value() / 2, y) == Gcd(u.Value(), y)
      {
        GcdHalve(u.Value(), y);
      }
      u.RShiftTo(1, u);
      u.SignOfValue();
      AdjustAndHalve(a, b, even, self, m);
      isEven := u.IsEven();
    }
  }

  lemma HalfIsShift()
    ensures Pow2(1) == 2
  {
    assert Pow2(1) == 2 * Pow2(0);
  }

  method AdjustAndHalve(a: BigInteger, b: BigInteger, even: bool, self: BigInteger, m: BigInteger)
    requires a.Valid() && b.Valid() && self.Valid() && m.Valid() && a != b && {a, b} !! {self, m}
    modifies a, b
    ensures a.Valid() && b.Valid()
    ensures var (a', b') := Adjusted(even, m.Value(), self.Value(), old(a.Value()), old(b.Value()));
            a.Value() == (if even then a' / 2 else a') && b.Value() == b' / 2
  {
    hide BigInteger.Value, Seg, B, Pow2;
    HalfIsShift();
    var aEven := a.IsEven();
    var bEven := b.IsEven();
    if even {
      if !aEven || !bEven {
        a.AddTo(self, a);
        b.SubTo(m, b);
      }
      a.RShiftTo(1, a);
    } else if !bEven {
      b.SubTo(m, b);
    }
    b.RShiftTo(1, b);
  }

  lemma BothEven(v: nat, m: nat)
    requires m > 0
    ensures v % 2 == 0 && m % 2 == 0 ==> Gcd(v, m) != 1
  {
    if v % 2 == 0 && m % 2 == 0 {
      GcdIsGreatest(v, m);
      assert Divides(2, v) && Divides(2, m);
      TrivialDivisors(2, 1);
    }
  }

  lemma TracksOne(even: bool, m: int, v: int, w: int, c: int, d: int)
    requires m > 0 && Tracks(even, m, v, w, c, d)
    ensures w == 1 ==> Congruent(d * v, 1, m)
  {
    if even && w == 1 {
      CongruentByMultiple(d * v, 1, m, -c);
      assert m * -c == -(c * m);
    }
  }

  /** The loop of the inverse; v becomes the greatest common divisor. */
  method EuclidLoop(u: BigInteger, v: BigInteger, a: BigInteger, b: BigInteger, c: BigInteger, d: BigInteger,
                    even: bool, self: BigInteger, m: BigInteger)
    requires u.Valid() && u.s == 0 && u.Value() > 0 && v.Valid() && v.s == 0 && v.Value() > 0
    requires a.Valid() && b.Valid() && c.Valid() && d.Valid() && self.Valid() && m.Valid()
    requires self !in {u, v, a, b, c, d} && m !in {u, v, a, b, c, d}
    requires u != v && u != a && u != b && u != c && u != d && v != a && v != b && v != c && v != d
    requires a != b && a != c && a != d && b != c && b != d && c != d
    requires m.Value() > 0 && (even <==> m.Value() % 2 == 0) && (even ==> self.Value() % 2 == 1)
    requires u.Value() % 2 == 1 || v.Value() % 2 == 1
    requires Tracks(even, m.Value(), self.Value(), u.Value(), a.Value(), b.Value())
    requires Tracks(even, m.Value(), self.Value(), v.Value(), c.Value(), d.Value())
    modifies u, v, a, b, c, d
    ensures v.Valid() && v.s == 0 && c.Valid() && d.Valid()
    ensures v.Value() == Gcd(old(u.Value()), old(v.Value()))
    ensures Tracks(even, m.Value(), self.Value(), v.Value(), c.Value(), d.Value())
    ensures Numbers(u, v, a, b, c, d) == Turned(even, m.Value(), self.Value(), old(Numbers(u, v, a, b, c, d)))
  {
    hide BigInteger.Value, Seg, B, Pow2, Gcd, Tracks, Turn;
    ghost var G := Gcd(u.Value(), v.Value());
    var sign := u.SigNum();
    while sign != 0
      invariant u.Valid() && u.s == 0 && u.Value() >= 0 && v.Valid() && v.s == 0 && v.Value() > 0
      invariant a.Valid() && b.Valid() && c.Valid() && d.Valid()
      invariant sign == 0 <==> u.Value() == 0
      invariant u.Value() % 2 == 1 || v.Value() % 2 == 1
      invariant Gcd(u.Value(), v.Value()) == G
      invariant Tracks(even, m.Value(), self.Value(), u.Value(), a.Value(), b.Value())
      invariant Tracks(even, m.Value(), self.Value(), v.Value(), c.Value(), d.Value())
      invariant Turned(even, m.Value(), self.Value(), Numbers(u, v, a, b, c, d)) ==
                Turned(even, m.Value(), self.Value(), old(Numbers(u, v, a, b, c, d)))
      decreases u.Value() + v.Value()
    {
      EuclidStep(u, v, a, b, c, d, even, self, m);
      sign := u.SigNum();
    }
    GcdZero(v.Value());
  }

  method EuclidStep(u: BigInteger, v: BigInteger, a: BigInteger, b: BigInteger, c: BigInteger, d: BigInteger,
                    even: bool, self: BigInteger, m: BigInteger)
    requires u.Valid() && u.s == 0 && u.Value() > 0 && v.Valid() && v.s == 0 && v.Value() > 0
    requires a.Valid() && b.Valid() && c.Valid() && d.Valid() && self.Valid() && m.Valid()
    requires self !in {u, v, a, b, c, d} && m !in {u, v, a, b, c, d}
    requires u != v && u != a && u != b && u != c && u != d && v != a && v != b && v != c && v != d
    requires a != b && a != c && a != d && b != c && b != d && c != d
    requires m.Value() > 0 && (even <==> m.Value() % 2 == 0) && (even ==> self.Value() % 2 == 1)
    requires u.Value() % 2 == 1 || v.Value() % 2 == 1
    requires Tracks(even, m.Value(), self.Value(), u.Value(), a.Value(), b.Value())
    requires Tracks(even, m.Value(), self.Value(), v.Value(), c.Value(), d.Value())
    modifies u, v, a, b, c, d
    ensures u.Valid() && u.s == 0 && u.Value() >= 0 && v.Valid() && v.s == 0 && v.Value() > 0
    ensures a.Valid() && b.Valid() && c.Valid() && d.Valid()
    ensures u.Value() % 2 == 1 || v.Value() % 2 == 1
    ensures Gcd(u.Value(), v.Value()) == Gcd(old(u.Value()), old(v.Value()))
    ensures u.Value() + v.Value() < old(u.Value()) + old(v.Value())
    ensures Tracks(even, m.Value(), self.Value(), u.Value(), a.Value(), b.Value())
    ensures Tracks(even, m.Value(), self.Value(), v.Value(), c.Value(), d.Value())
    ensures Numbers(u, v, a, b, c, d) == Turn(even, m.Value(), self.Value(), old(Numbers(u, v, a, b, c, d)))
  {
    hide BigInteger.Value, Seg, B, Pow2, Gcd, Tracks, HalvedOut;
    ghost var U, W := u.Value(), v.Value();
    HalveWhileEven(u, a, b, even, self, m);
    HalveWhileEven(v, c, d, even, self, m);
    BothOdd(U, W, u.Value(), v.Value());
    Difference(u.Value(), v.Value());
    ghost var M, V := m.Value(), self.Value();
    var cmp := u.CompareTo(v);
    if cmp >= 0 {
      SubtractTracked(u, v, a, c, b, d, even, self, m);
    } else {
      SubtractTracked(v, u, c, a, d, b, even, self, m);
    }
  }

  /** u - v with its coefficients, in place. */
  method SubtractTracked(u: BigInteger, v: BigInteger, a: BigInteger, c: BigInteger, b: BigInteger, d: BigInteger,
                         even: bool, self: BigInteger, m: BigInteger)
    requires u.Valid() && v.Valid() && a.Valid() && b.Valid() && c.Valid() && d.Valid() && self.Valid() && m.Valid()
    requires u.Value() >= v.Value() && m.Value() > 0
    requires self !in {u, a, b} && m !in {u, a, b} && v !in {u, a, b} && c !in {u, a, b} && d !in {u, a, b}
    requires u != a && u != b && a != b
    requires Tracks(even, m.Value(), self.Value(), u.Value(), a.Value(), b.Value())
    requires Tracks(even, m.Value(), self.Value(), v.Value(), c.Value(), d.Value())
    modifies u, a, b
    ensures u.Valid() && u.s == 0 && a.Valid() && b.Valid() && u.Value() == old(u.Value()) - v.Value()
    ensures a.Value() == (if even then old(a.Value()) - c.Value() else old(a.Value()))
    ensures b.Value() == old(b.Value()) - d.Value()
    ensures Tracks(even, m.Value(), self.Value(), u.Value(), a.Value(), b.Value())
  {
    hide BigInteger.Value, Seg, B, Pow2, Gcd, Tracks;
    ghost var M, V := m.Value(), self.Value();
    TracksDifference(even, M, V, u.Value(), a.Value(), b.Value(), v.Value(), c.Value(), d.Value());
    ghost var a0 := a.Value() - c.Value();
    u.SubTo(v, u);
    u.SignOfValue();
    if even {
      a.SubTo(c, a);
    }
    b.SubTo(d, b);
    OddIgnoresFirst(even, M, V, u.Value(), a0, a.Value(), b.Value());
  }

  lemma OddIgnoresFirst(even: bool, m: int, v: int, u: int, a: int, a': int, b: int)
    requires m > 0 && Tracks(even, m, v, u, a, b) && (even ==> a == a')
    ensures Tracks(even, m, v, u, a', b)
  {
  }

  lemma Difference(u: nat, v: nat)
    requires u > 0 && v > 0
    ensures u >= v ==> Gcd(u - v, v) == Gcd(u, v)
    ensures u < v ==> Gcd(u, v - u) == Gcd(u, v)
  {
    if u >= v {
      GcdSubtract(u, v);
    } else {
      GcdSubtract(v, u);
      GcdSymmetric(u, v);
      GcdSymmetric(u, v - u);
    }
  }

  /** The corrections at the end of the inverse. */
  function Corrected(d: int, m: int): int {
    if d >= m then d - m else if d >= 0 then d else if d + m >= 0 then d + m else d + m + m
  }

  method IntoRange(d: BigInteger, m: BigInteger, ghost V: int) returns (r: BigInteger)
    requires d.Valid() && m.Valid() && m.s == 0 && m.Value() > 0 && d != m
    requires Congruent(d.Value() * V, 1, m.Value())
    modifies d
    ensures (r == d || fresh(r)) && r.Valid() && Congruent(r.Value() * V, 1, m.Value())
    ensures r.Value() == Corrected(old(d.Value()), m.Value())
    ensures 0 <= r.Value() < m.Value() <==> -2 * m.Value() <= old(d.Value()) < 2 * m.Value()
  {
    hide BigInteger.Value, Seg, B, Congruent;
    ghost var M := m.Value();
    ShiftedInverse(d.Value(), V, M);
    var c := d.CompareTo(m);
    if c >= 0 {
      r := new BigInteger();
      d.SubTo(m, r);
      return;
    }
    var sign := d.SigNum();
    if sign < 0 {
      d.AddTo(m, d);
    } else {
      return d;
    }
    ShiftedInverse(d.Value(), V, M);
    sign := d.SigNum();
    if sign < 0 {
      r := new BigInteger();
      d.AddTo(m, r);
    } else {
      r := d;
    }
  }

  lemma ShiftedInverse(d: int, v: int, m: int)
    requires m > 0 && Congruent(d * v, 1, m)
    ensures Congruent((d - m) * v, 1, m) && Congruent((d + m) * v, 1, m)
  {
    Distrib(v, d, m);
    assert m * -v == -(m * v);
    CongruentByMultiple((d - m) * v, d * v, m, -v);
    CongruentByMultiple((d + m) * v, d * v, m, v);
  }

  /** 1 / self modulo m: a number whose product with self is congruent to 1 when the two are
      coprime, and 0 otherwise, also for the modulus 0. */
  method ModInverse(self: BigInteger, m: BigInteger) returns (r: BigInteger)
    requires self.Valid() && m.Valid() && self.Value() > 0 && m.Value() >= 0
    ensures fresh(r) && r.Valid()
    ensures m.Value() > 0 && Gcd(self.Value(), m.Value()) == 1 ==> Congruent(r.Value() * self.Value(), 1, m.Value())
    ensures m.Value() == 0 || Gcd(self.Value(), m.Value()) != 1 ==> r.Value() == 0
    ensures m.Value() > 0 && Gcd(self.Value(), m.Value()) == 1 ==>
              && r.Value() == Corrected(Coefficient(self.Value(), m.Value()), m.Value())
              && (0 <= r.Value() < m.Value() <==>
                  -2 * m.Value() <= Coefficient(self.Value(), m.Value()) < 2 * m.Value())
  {
    hide BigInteger.Value, Seg, B, Gcd, Congruent, Coefficient, Corrected;
    ghost var V, M := self.Value(), m.Value();
    var even := m.IsEven();
    var selfEven := self.IsEven();
    var ms := m.SigNum();
    m.SignOfValue();
    if (selfEven && even) || ms == 0 {
      if M > 0 {
        BothEven(V, M);
      }
      r := new BigInteger();
      return;
    }
    GcdSymmetric(V, M);
    var v, d := ExtendedGcd(self, m, even);
    var one := new BigInteger();
    one.FromInt(1);
    var cmp := v.CompareTo(one);
    if cmp != 0 {
      r := new BigInteger();
    } else {
      r := IntoRange(d, m, V);
    }
  }

  /** The loop with its initial values; only v and its coefficient d matter afterwards. */
  method ExtendedGcd(self: BigInteger, m: BigInteger, even: bool) returns (v: BigInteger, d: BigInteger)
    requires self.Valid() && m.Valid() && self.Value() > 0 && m.Value() > 0
    requires (even <==> m.Value() % 2 == 0) && (even ==> self.Value() % 2 == 1)
    ensures fresh(v) && fresh(d) && v != d && v.Valid() && v.s == 0 && d.Valid()
    ensures v.Value() == Gcd(m.Value(), self.Value())
    ensures v.Value() == 1 ==> Congruent(d.Value() * self.Value(), 1, m.Value())
    ensures d.Value() == Coefficient(self.Value(), m.Value())
  {
    hide BigInteger.Value, Seg, B, Pow2, Gcd, Tracks, Congruent, Turned;
    ghost var V, M := self.Value(), m.Value();
    TracksStart(even, M, V);
    NotBothEven(even, M, V);
    var u, a, b, c;
    u, v, a, b, c, d := StartingPoint(self, m);
    EuclidLoop(u, v, a, b, c, d, even, self, m);
    TracksOne(even, M, V, v.Value(), c.Value(), d.Value());
  }

  method StartingPoint(self: BigInteger, m: BigInteger)
    returns (u: BigInteger, v: BigInteger, a: BigInteger, b: BigInteger, c: BigInteger, d: BigInteger)
    requires self.Valid() && m.Valid() && self.Value() > 0 && m.Value() > 0
    ensures fresh({u, v, a, b, c, d}) && u.Valid() && u.s == 0 && v.Valid() && v.s == 0
    ensures a.Valid() && b.Valid() && c.Valid() && d.Valid()
    ensures u != v && u != a && u != b && u != c && u != d && v != a && v != b && v != c && v != d
    ensures a != b && a != c && a != d && b != c && b != d && c != d
    ensures u.Value() == m.Value() && v.Value() == self.Value()
    ensures a.Value() == 1 && b.Value() == 0 && c.Value() == 0 && d.Value() == 1
  {
    hide BigInteger.Value, Seg, B, Pow2;
    u := Clone(m);
    v := Clone(self);
    u.SignOfValue();
    v.SignOfValue();
    a := new BigInteger();
    a.FromInt(1);
    b := new BigInteger();
    c := new BigInteger();
    d := new BigInteger();
    d.FromInt(1);
  }

  lemma NotBothEven(even: bool, m: int, v: int)
    requires (even <==> m % 2 == 0) && (even ==> v % 2 == 1)
    ensures m % 2 == 1 || v % 2 == 1
  {
  }

  /** The coefficients can leave the range that the corrections allow for: for 1748 modulo 3659 the
      rounds end with one beyond twice the modulus. */
  lemma FarCoefficient()
    ensures Coefficient(1748, 3659) == -7969
  {
    FirstTurn();
    hide Turn, Turned, HalvedOut;
    HalveU(Pairs(3222, 437, 1, 2744, 0, -2744), Pairs(1174, 437, 1, 4116, 0, -2744));
    HalveU(Pairs(1174, 437, 1, 4116, 0, -2744), Pairs(150, 437, 1, 4802, 0, -2744));
    HalveU(Pairs(150, 437, 1, 4802, 0, -2744), Pairs(75, 362, 1, 2401, 0, -5145));
    HalveV(Pairs(75, 362, 1, 2401, 0, -5145), Pairs(75, 106, 1, 2401, 0, -6803));
    HalveV(Pairs(75, 106, 1, 2401, 0, -6803), Pairs(22, 53, 1, 7632, 0, -5231));
    HalveU(Pairs(22, 53, 1, 7632, 0, -5231), Pairs(11, 42, 1, 3816, 0, -9047));
    HalveV(Pairs(11, 42, 1, 3816, 0, -9047), Pairs(11, 10, 1, 3816, 0, -10169));
    HalveV(Pairs(11, 10, 1, 3816, 0, -10169), Pairs(6, 5, 1, 10730, 0, -6914));
    HalveU(Pairs(6, 5, 1, 10730, 0, -6914), Pairs(3, 2, 1, 5365, 0, -12279));
    HalveV(Pairs(3, 2, 1, 5365, 0, -12279), Pairs(2, 1, 1, 13334, 0, -7969));
    HalveU(Pairs(2, 1, 1, 13334, 0, -7969), Pairs(0, 1, 1, 14636, 0, -7969));
    NoMoreTurns(Pairs(0, 1, 1, 14636, 0, -7969));
    CoefficientIs(1748, 3659);
  }

  lemma CoefficientIs(x: int, m: int)
    requires x > 0 && m > 0 && m % 2 == 1
    ensures Coefficient(x, m) == Turned(false, m, x, Pairs(m, x, 1, 0, 0, 1)).d
  {
  }

  lemma NoMoreTurns(p: Pairs)
    requires p.u == 0 && p.v > 0
    ensures Turned(false, 3659, 1748, p) == p
  {
  }

  lemma FirstTurn()
    ensures Turned(false, 3659, 1748, Pairs(3659, 1748, 1, 0, 0, 1)) ==
            Turned(false, 3659, 1748, Pairs(3222, 437, 1, 2744, 0, -2744))
  {
    hide HalvedOut, Turned;
    Halving(3659, 1, 0);
    Halving(1748, 0, 1);
    Halving(874, 0, -1829);
    Halving(437, 0, -2744);
    assert Turn(false, 3659, 1748, Pairs(3659, 1748, 1, 0, 0, 1)) == Pairs(3222, 437, 1, 2744, 0, -2744);
    TurnOnce(Pairs(3659, 1748, 1, 0, 0, 1));
  }

  lemma TurnOnce(p: Pairs)
    requires p.u > 0 && p.v > 0
    ensures Turned(false, 3659, 1748, p) == Turned(false, 3659, 1748, Turn(false, 3659, 1748, p))
  {
    hide Turn;
  }

  lemma Halving(u: int, a: int, b: int)
    requires u > 0
    ensures u % 2 != 0 ==> HalvedOut(false, 3659, 1748, u, a, b) == (u, a, b)
    ensures u % 2 == 0 ==> HalvedOut(false, 3659, 1748, u, a, b) ==
                           HalvedOut(false, 3659, 1748, u / 2, a, (if b % 2 != 0 then b - 3659 else b) / 2)
  {
  }

  /** One round that halves u once. */
  lemma HalveU(p: Pairs, p': Pairs)
    requires p.u > 0 && p.v > 0 && p.u % 2 == 0 && (p.u / 2) % 2 != 0 && p.v % 2 != 0
    requires var u, b := p.u / 2, (if p.b % 2 != 0 then p.b - 3659 else p.b) / 2;
             p' == if u >= p.v then p.(u := u - p.v, b := b - p.d) else p.(u := u, v := p.v - u, b := b, d := p.d - b)
    ensures Turned(false, 3659, 1748, p) == Turned(false, 3659, 1748, p')
  {
    hide HalvedOut, Turned;
    Halving(p.u, p.a, p.b);
    Halving(p.u / 2, p.a, (if p.b % 2 != 0 then p.b - 3659 else p.b) / 2);
    Halving(p.v, p.c, p.d);
    TurnOnce(p);
  }

  /** One round that halves v once. */
  lemma HalveV(p: Pairs, p': Pairs)
    requires p.u > 0 && p.v > 0 && p.v % 2 == 0 && (p.v / 2) % 2 != 0 && p.u % 2 != 0
    requires var v, d := p.v / 2, (if p.d % 2 != 0 then p.d - 3659 else p.d) / 2;
             p' == if p.u >= v then p.(u := p.u - v, v := v, b := p.b - d, d := d) else p.(v := v - p.u, d := d - p.b)
    ensures Turned(false, 3659, 1748, p) == Turned(false, 3659, 1748, p')
  {
    hide HalvedOut, Turned;
    Halving(p.u, p.a, p.b);
    Halving(p.v, p.c, p.d);
    Halving(p.v / 2, p.c, (if p.d % 2 != 0 then p.d - 3659 else p.d) / 2);
    TurnOnce(p);
  }

  /** So the inverse of 1748 modulo 3659 comes out negative. */
  method NegativeInverse() returns (r: BigInteger)
    ensures r.Valid() && r.Value() == -651
  {
    FarCoefficient();
    assert Gcd(1748, 3659) == 1;
    hide *;
    var x := new BigInteger();
    x.FromInt(1748);
    var m := new BigInteger();
    m.FromInt(3659);
    r := ModInverse(x, m);
  }
}
