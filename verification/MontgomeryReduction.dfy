/** Montgomery reduction: numbers are kept multiplied by R = B(m.t), and a product is brought
    back below the modulus by adding multiples of it that clear the low digits. */
module MontgomeryReduction {
  import opened Arith
  import opened JsNumber
  import opened Digits
  import opened BigIntegers
  import opened Modular

  /** JavaScript's % : the remainder has the sign of the dividend. */
  function JsRem(x: int, y: int): int
    requires y > 0
  {
    if x < 0 then -((-x) % y) else x % y
  }

  lemma JsRemCongruent(x: int, y: int)
    requires y > 0
    ensures -y < JsRem(x, y) < y && Congruent(JsRem(x, y), x, y)
  {
    if x < 0 {
      DivMod(-x, y);
      assert y * -((-x) / y) == -(y * ((-x) / y));
      CongruentByMultiple(x, JsRem(x, y), y, -((-x) / y));
    } else {
      RemainderIsCongruent(x, y);
    }
  }

  // ----- the inverse of a digit

  /** One Newton step doubles the number of correct bits: from x y = 1 modulo e to
      x y (2 - x y) = 1 modulo e^2.  The factor x may be taken modulo any multiple d of e^2. */
  lemma NewtonStep(x: int, x': int, y: int, y': int, e: int, d: int)
    requires e > 0 && d > 0 && Congruent(x * y, 1, e) && d % (e * e) == 0
    requires Congruent(x', x, d) && Congruent(y', y * (2 - x' * y), d)
    ensures e * e > 0 && Congruent(x * y', 1, e * e)
  {
    var k := CongruentMultiple(x * y, 1, e);
    var g := d / (e * e);
    MulLt(0, e, e);
    DivMod(d, e * e);
    var a := CongruentMultiple(x', x, d);
    var b := CongruentMultiple(y', y * (2 - x' * y), d);
    NewtonProducts(x, y, y', e, k, d, a, b);
    var c := b * x - a * (x * (y * y));
    Assoc(e * e, g, c);
    Distrib(e * e, -(k * k), g * c);
    CongruentByMultiple(x * y', 1, e * e, -(k * k) + g * c);
  }

  lemma NewtonProducts(x: int, y: int, y': int, e: int, k: int, d: int, a: int, b: int)
    requires x * y == 1 + e * k && y' == y * (2 - (x + d * a) * y) + d * b
    ensures x * y' == 1 + (e * e) * -(k * k) + d * (b * x - a * (x * (y * y)))
  {
    var p := x * y;
    assert (x + d * a) * y == p + d * (a * y);
    assert y * (2 - (p + d * (a * y))) == y * (2 - p) - d * (a * (y * y));
    assert x * (y * (2 - p) - d * (a * (y * y)) + d * b) ==
           p * (2 - p) + d * (b * x - a * (x * (y * y)));
    assert p * (2 - p) == 1 - (e * k) * (e * k);
    assert (e * k) * (e * k) == (e * e) * (k * k);
  }

  /** -1 / m modulo 2^28 for odd m; 0 for even m, and for -1, which has no digits.  All products
      stay below 2^53. */
  method InvDigit(m: BigInteger) returns (d: int)
    requires m.Valid()
    ensures 0 <= d < DV
    ensures m.Value() % 2 == 1 && m.Value() != -1 ==> Congruent(d * m.Value(), -1, DV)
    ensures m.Value() % 2 == 0 || m.Value() == -1 ==> d == 0
  {
    hide Seg, B, BigInteger.Value, Congruent;
    m.SignOfValue();
    if m.t < 1 {
      NoDigits(m.t);
      return 0;
    }
    ghost var rest := FromLowDigit(m);
    ParityOfLowDigit(m.Value(), m.arr[0], rest);
    var x := m.arr[0];
    if x % 2 == 0 {
      return 0;
    }
    d := InverseOfDigit(x);
    LowDigitDecides(d, x, m.Value(), rest);
  }

  lemma NoDigits(t: int)
    ensures t == 0 ==> B(t) == 1
  {
  }

  /** A number of either sign is its low digit and a multiple of 2^28; -1 has no digit. */
  lemma FromLowDigit(m: BigInteger) returns (rest: int)
    requires m.Valid() && m.t > 0
    ensures m.Value() == m.arr[0] + DV * rest && m.Value() != -1
  {
    SegLow(m.arr, 0, m.t);
    rest := Seg(m.arr, 1, m.t - 1) + m.s * B(m.t - 1);
    hide Seg;
    m.SignOfValue();
    BMonotone(0, m.t - 1);
  }

  lemma ParityOfLowDigit(v: int, x: int, rest: int)
    requires v == x + DV * rest
    ensures v % 2 == x % 2
  {
    assert v == x + 2 * (0x800_0000 * rest);
  }

  lemma LowDigitDecides(d: int, x: int, v: int, rest: int)
    requires Congruent(d * x, -1, DV) && v == x + DV * rest
    ensures Congruent(d * v, -1, DV)
  {
    Distrib(d, x, DV * rest);
    assert d * (DV * rest) == DV * (d * rest);
    CongruentByMultiple(d * v, d * x, DV, d * rest);
  }

  method InverseOfDigit(x: int) returns (d: int)
    requires 0 < x < DV && x % 2 == 1
    ensures 0 <= d < DV && Congruent(d * x, -1, DV)
  {
    hide Congruent, JsRem;
    InverseModFour(x);
    var y := x % 4;
    ghost var y0 := y;
    var x' := x % 16;
    ReducedFactors(x, y, 4, 16);
    y := (y * (2 - x' * y)) % 16;
    NewtonStep(x, x', y0, y, 4, 16);
    y0 := y;
    x' := x % 0x100;
    ReducedFactors(x, y, 16, 0x100);
    y := (y * (2 - x' * y)) % 0x100;
    NewtonStep(x, x', y0, y, 16, 0x100);
    y0 := y;
    ReducedProduct(x, y);
    y := (y * (2 - (((x % 0x1_0000) * y) % 0x1_0000))) % 0x1_0000;
    NewtonStep(x, x, y0, y, 0x100, 0x1_0000);
    y0 := y;
    y := JsRem(y * (2 - JsRem(x * y, DV)), DV);
    LastStep(x, y0);
    NewtonStepToDigit(x, y0, y);
    d := if y > 0 then DV - y else -y;
    NegatedInverse(x, y, d);
  }

  lemma InverseModFour(x: int)
    requires x % 2 == 1
    ensures Congruent(x * (x % 4), 1, 4)
  {
    var q := x / 4;
    assert x == 4 * q + x % 4;
    if x % 4 == 1 {
      CongruentByMultiple(x * 1, 1, 4, q);
    } else {
      CongruentByMultiple(x * 3, 1, 4, 3 * q + 2);
    }
  }

  lemma ReducedFactors(x: int, y: int, e: int, d: int)
    requires d > 0
    ensures Congruent(x % d, x, d)
    ensures Congruent((y * (2 - (x % d) * y)) % d, y * (2 - (x % d) * y), d)
  {
    RemainderIsCongruent(x, d);
    RemainderIsCongruent(y * (2 - (x % d) * y), d);
  }

  lemma ReducedProduct(x: int, y: int)
    ensures var d := 0x1_0000;
            Congruent((y * (2 - (((x % d) * y) % d))) % d, y * (2 - x * y), d) && Congruent(x, x, d)
  {
    var d := 0x1_0000;
    var p := ((x % d) * y) % d;
    RemainderIsCongruent(x, d);
    RemainderIsCongruent((x % d) * y, d);
    CongruentProducts(x % d, x, y, y, d);
    CorrectionCongruent(p, x * y, y, d);
    RemainderIsCongruent(y * (2 - p), d);
  }

  lemma CorrectionCongruent(p: int, q: int, y: int, d: int)
    requires d > 0 && Congruent(p, q, d)
    ensures Congruent(y * (2 - p), y * (2 - q), d)
  {
    var k := CongruentMultiple(p, q, d);
    assert y * (2 - p) == y * (2 - q) - d * (k * y);
    assert d * -(k * y) == -(d * (k * y));
    CongruentByMultiple(y * (2 - p), y * (2 - q), d, -(k * y));
  }

  lemma LastStep(x: int, y: int)
    ensures Congruent(JsRem(y * (2 - JsRem(x * y, DV)), DV), y * (2 - x * y), DV)
    ensures -DV < JsRem(y * (2 - JsRem(x * y, DV)), DV) < DV
  {
    hide JsRem;
    JsRemCongruent(x * y, DV);
    CorrectionCongruent(JsRem(x * y, DV), x * y, y, DV);
    JsRemCongruent(y * (2 - JsRem(x * y, DV)), DV);
  }

  /** The last step goes from 16 bits to 28, which divides 32. */
  lemma NewtonStepToDigit(x: int, y: int, y': int)
    requires Congruent(x * y, 1, 0x1_0000) && Congruent(y', y * (2 - x * y), DV)
    ensures Congruent(x * y', 1, DV)
  {
    var k := CongruentMultiple(x * y, 1, 0x1_0000);
    var b := CongruentMultiple(y', y * (2 - x * y), DV);
    NewtonProducts(x, y, y', 0x1_0000, k, DV, 0, b);
    CongruentByMultiple(x * y', 1, DV, 16 * -(k * k) + b * x);
  }

  lemma NegatedInverse(x: int, y: int, d: int)
    requires Congruent(x * y, 1, DV) && -DV < y < DV && d == (if y > 0 then DV - y else -y)
    ensures 0 <= d < DV && Congruent(d * x, -1, DV)
  {
    var k := CongruentMultiple(x * y, 1, DV);
    assert (-y) * x == -(x * y);
    if y > 0 {
      Distrib(x, DV, y);
      CongruentByMultiple(d * x, -1, DV, x - k);
    } else {
      CongruentByMultiple(d * x, -1, DV, -k);
    }
  }

  // ----- the multiplier of one round

  /** The product of two digits modulo 2^28 from their 15-bit halves, all below 2^31. */
  lemma SplitMultiplier(x: int, mp: int)
    requires 0 <= x < DV && 0 <= mp < DV
    ensures var j, mpl, mph := Low(x, 15), Low(mp, 15), Shr(mp, 15);
            var mid := j * mph + Shr(x, 15) * mpl;
            var sum := j * mpl + Shl(Low(mid, 13), 15);
            0 <= mid < 0x8000_0000 && 0 <= sum < 0x8000_0000 && Low(sum, DB) == (x * mp) % DV
  {
    hide Pow2;
    Pow2Constants();
    ToInt32Small(x);
    ToInt32Small(mp);
    var j, h, l, g := x % 0x8000, x / 0x8000, mp % 0x8000, mp / 0x8000;
    HalvesBounds(j, h, l, g);
    var mid := j * g + h * l;
    ToInt32Small(mid);
    ToInt32Small(mid % 0x2000);
    ToInt32Small((mid % 0x2000) * 0x8000);
    var sum := j * l + (mid % 0x2000) * 0x8000;
    ToInt32Small(sum);
    DivMod(mid, 0x2000);
    var k := 4 * (h * g) + mid / 0x2000;
    assert x * mp == sum + DV * k;
    CongruentByMultiple(x * mp, sum, DV, k);
  }

  lemma HalvesBounds(j: int, h: int, l: int, g: int)
    requires 0 <= j < 0x8000 && 0 <= h < 0x2000 && 0 <= l < 0x8000 && 0 <= g < 0x2000
    ensures 0 <= j * l <= 0x7FFF * 0x7FFF && 0 <= j * g <= 0x7FFF * 0x1FFF && 0 <= h * l <= 0x1FFF * 0x7FFF
    ensures (j + 0x8000 * h) * (l + 0x8000 * g) == j * l + 0x8000 * (j * g + h * l) + DV * (4 * (h * g))
  {
    MulLe(0, j, l);
    MulLe(j, 0x7FFF, l);
    MulLe(0, j, g);
    MulLe(j, 0x7FFF, g);
    MulLe(0, h, l);
    MulLe(h, 0x1FFF, l);
    Distrib(j + 0x8000 * h, l, 0x8000 * g);
    assert (j + 0x8000 * h) * l == j * l + 0x8000 * (h * l);
    assert (j + 0x8000 * h) * (0x8000 * g) == 0x8000 * (j * g) + DV * (4 * (h * g));
  }

  /** Adding (x mp mod 2^28) times m to a number whose low digit is x clears that digit. */
  lemma ClearsLowDigit(y: int, x: int, mp: int, m: int, u: int)
    requires Congruent(mp * m, -1, DV) && Congruent(y, x, DV) && u == (x * mp) % DV
    ensures (y + u * m) % DV == 0
  {
    RemainderIsCongruent(x * mp, DV);
    CongruentProducts(u, x * mp, m, m, DV);
    CongruentProducts(x, x, mp * m, -1, DV);
    Assoc(x, mp, m);
    var k := CongruentMultiple(u * m, x * -1, DV);
    var l := CongruentMultiple(y, x, DV);
    CongruentByMultiple(y + u * m, 0, DV, k + l);
  }

  // ----- one round on the digits

  /** After i rounds the number is X0 plus K times the modulus, with K below B(i), and its i
      low digits are gone. */
  ghost predicate RoundInv(a: Array, t: nat, M: int, X0: int, K: int, i: nat) {
    && AreDigits(a, 0, 2 * t + 1)
    && 0 <= K < B(i) && Seg(a, 0, 2 * t + 1) == X0 + M * K
    && Seg(a, 0, i) == 0
  }

  /** The number of a round before and after the multiply-accumulate. */
  lemma RoundAdds(A: Array, W: Array, Mn: Array, t: nat, i: nat, M: int, X0: int, K: int, u: int, c: int)
    requires i < t && RoundInv(A, t, M, X0, K, i) && 0 <= u < DV
    requires M == Seg(Mn, 0, t) && 0 < M < B(t) && 0 <= X0 < M * B(t)
    requires SameOutside(W, A, i, i + t) && RowSum(W, A, Mn, 0, i, t, u, 0, c)
    ensures 0 <= K + u * B(i) < B(i + 1)
    ensures Seg(W[i + t := Digit(W, i + t) + c], 0, 2 * t + 1) == X0 + M * (K + u * B(i)) < B(2 * t + 1)
  {
    hide Seg;
    AddRow(A, W, i, t, c, u * M, 2 * t + 1);
    MulLe(u, DM, B(i));
    MulNonneg(u, B(i));
    assert B(i + 1) == DV * B(i) && B(2 * t + 1) == DV * B(2 * t);
    BMonotone(i + 1, t);
    BAdd(t, t);
    hide B;
    Distrib(M, K, u * B(i));
    assert (u * M) * B(i) == M * (u * B(i));
    TwiceBelow(M, B(t), X0, K + u * B(i));
  }

  lemma TwiceBelow(m: int, r: int, x: int, k: int)
    requires 0 < m < r && 0 <= x < m * r && 0 <= k < r
    ensures x + m * k < 2 * (m * r) && m * r < r * r
  {
    MulLe(k, r, m);
    MulLt(m, r, r);
  }

  /** A digit of 2^28 or more is never the last one of a number that fits. */
  lemma CarryFits(a: Array, j: nat, n: nat)
    requires j < n && forall k :: 0 <= k < n ==> k in a && 0 <= a[k] && (k != j ==> a[k] < DV)
    requires Seg(a, 0, n) < B(n) && a[j] >= DV
    ensures j + 1 < n
  {
    if j == n - 1 {
      SegBound(a, 0, j);
      SegTop(a, 0, j);
      assert B(n) == DV * B(j);
      MulLe(DV, a[j], B(j));
      assert false;
    }
  }

  /** The digit the round is for has become 0. */
  lemma RoundClears(A: Array, a: Array, t: nat, M: int, mp: int, X0: int, K: int, i: nat, u: int)
    requires i < t && RoundInv(A, t, M, X0, K, i) && AreDigits(a, 0, 2 * t + 1)
    requires Congruent(mp * M, -1, DV) && u == (A[i] * mp) % DV
    requires Seg(a, 0, 2 * t + 1) == X0 + M * (K + u * B(i)) && 0 <= K + u * B(i) < B(i + 1)
    ensures RoundInv(a, t, M, X0, K + u * B(i), i + 1)
  {
    var n := 2 * t + 1;
    assert B(i + 1) == DV * B(i);
    hide Seg, B, Congruent;
    var y := Seg(A, i, n - i);
    SegSplit(A, 0, i, n - i);
    SegLow(A, i, n - i);
    LowDigitCongruent(y, A[i], Seg(A, i + 1, n - i - 1));
    ClearsLowDigit(y, A[i], mp, M, u);
    DivMod(y + u * M, DV);
    var z := (y + u * M) / DV;
    hide RoundInv;
    RoundProducts(X0, M, K, u, B(i), y, z);
    LowDigitsVanish(a, n, i + 1, z);
  }

  lemma RoundProducts(x: int, m: int, k: int, u: int, b: int, y: int, z: int)
    requires x + m * k == b * y && y + u * m == DV * z
    ensures x + m * (k + u * b) == (DV * b) * z
  {
    Distrib(m, k, u * b);
    assert m * (u * b) == b * (u * m);
    Distrib(b, y, u * m);
    assert b * (DV * z) == (DV * b) * z;
  }

  lemma LowDigitsVanish(a: Array, n: nat, k: nat, z: int)
    requires k <= n && AreDigits(a, 0, n) && Seg(a, 0, n) == B(k) * z
    ensures Seg(a, 0, k) == 0
  {
    hide Seg, B;
    SegDivMod(a, 0, k, n - k);
    DivModUnique(Seg(a, 0, n), B(k), z, 0);
  }

  lemma LowDigitCongruent(y: int, x: int, rest: int)
    requires y == x + DV * rest
    ensures Congruent(y, x, DV)
  {
    CongruentByMultiple(y, x, DV, rest);
  }

  // ----- cancelling R

  /** An odd modulus: powers of two can be cancelled. */
  lemma {:induction false} CancelPow2(x: int, y: int, n: nat, m: int)
    requires m > 0 && m % 2 == 1 && Congruent(x * Pow2(n), y * Pow2(n), m)
    ensures Congruent(x, y, m)
  {
    if n == 0 {
    } else {
      var p := Pow2(n - 1);
      var k := CongruentMultiple(x * Pow2(n), y * Pow2(n), m);
      assert x * (2 * p) == 2 * (x * p) && y * (2 * p) == 2 * (y * p);
      assert m == 2 * (m / 2) + 1;
      assert m * k == 2 * ((m / 2) * k) + k;
      var h := x * p - y * p - (m / 2) * k;
      assert k == 2 * h;
      assert m * k == 2 * (m * h);
      CongruentByMultiple(x * p, y * p, m, h);
      CancelPow2(x, y, n - 1, m);
    }
  }

  lemma CancelR(x: int, y: int, t: nat, m: int)
    requires m > 0 && m % 2 == 1 && Congruent(x * B(t), y * B(t), m)
    ensures Congruent(x, y, m)
  {
    BIsPow2(t);
    CancelPow2(x, y, 28 * t, m);
  }

  // ----- the reducer

  class Montgomery {
    const m: BigInteger
    const mp: int
    const mpl: int
    const mph: int
    const mt2: nat

    constructor (m: BigInteger)
      requires m.Valid() && m.Value() > 1 && m.Value() % 2 == 1
      ensures Ready() && this.m == m
    {
      hide Seg, B, BigInteger.Value, Congruent;
      m.SignOfValue();
      var d := InvDigit(m);
      this.m := m;
      mp := d;
      mpl := Low(d, 15);
      mph := Shr(d, 15);
      mt2 := 2 * m.t;
    }

    ghost predicate Ready()
      reads m
    {
      && m.Valid() && m.s == 0 && m.Value() > 1 && m.Value() % 2 == 1
      && 0 <= mp < DV && Congruent(mp * m.Value(), -1, DV)
      && mpl == Low(mp, 15) && mph == Shr(mp, 15) && mt2 == 2 * m.t
    }

    /** One round: digit i becomes 0, and a multiple of m goes to the digits from i on. */
    method Round(x: BigInteger, i: nat, ghost X0: int, ghost K: int) returns (ghost K': int)
      requires Ready() && x != m && i < m.t
      requires 0 <= X0 < m.Value() * B(m.t) && RoundInv(x.arr, m.t, m.Value(), X0, K, i)
      modifies x`arr
      ensures RoundInv(x.arr, m.t, m.Value(), X0, K', i + 1)
    {
      hide Seg, B, BigInteger.Value, Congruent, RowSum, Low, Shl, Shr, RoundInv;
      ghost var A, M, N := x.arr, m.Value(), 2 * m.t + 1;
      m.NonNegativeValue();
      m.SignOfValue();
      RoundDigits(A, m.t, M, X0, K, i);
      SplitMultiplier(x.arr[i], mp);
      RemainderIsCongruent(A[i] * mp, DV);
      var j := Low(x.arr[i], 15);
      var u0 := Low(j * mpl + Shl(Low(j * mph + Shr(x.arr[i], 15) * mpl, 13), 15), DB);
      j := i + m.t;
      var c := m.Am3(0, u0, x, i, 0, m.t);
      RoundAdds(A, x.arr, m.arr, m.t, i, M, X0, K, u0, c);
      x.arr := x.arr[j := x.arr[j] + c];
      PropagateCarry(x, j, N);
      K' := K + u0 * B(i);
      RoundClears(A, x.arr, m.t, M, mp, X0, K, i, u0);
    }

    /** The carry loop of a round; it ends before the padding runs out. */
    static method PropagateCarry(x: BigInteger, j0: nat, ghost N: nat)
      requires j0 < N && forall k :: 0 <= k < N ==> k in x.arr && 0 <= x.arr[k] && (k != j0 ==> x.arr[k] < DV)
      requires x.arr[j0] < 2 * DV && Seg(x.arr, 0, N) < B(N)
      modifies x`arr
      ensures AreDigits(x.arr, 0, N) && Seg(x.arr, 0, N) == Seg(old(x.arr), 0, N)
    {
      hide Seg, B;
      var j := j0;
      while x.arr[j] >= DV
        invariant 0 <= j < N
        invariant forall k :: 0 <= k < N ==> k in x.arr && 0 <= x.arr[k] && (k != j ==> x.arr[k] < DV)
        invariant x.arr[j] < 2 * DV
        invariant Seg(x.arr, 0, N) == Seg(old(x.arr), 0, N)
        decreases N - j
      {
        CarryFits(x.arr, j, N);
        CarryUp(x.arr, j, N);
        x.arr := x.arr[j := x.arr[j] - DV];
        j := j + 1;
        x.arr := x.arr[j := x.arr[j] + 1];
      }
    }

    /** x becomes x / R modulo m: its product with R is congruent to the old x. */
    method Reduce(x: BigInteger)
      requires Ready() && x != m
      requires x.Valid() && 0 <= x.Value() < m.Value() * B(m.t)
      modifies x
      ensures x.Valid() && 0 <= x.Value() < m.Value()
      ensures Congruent(x.Value() * B(m.t), old(x.Value()), m.Value())
    {
      hide Seg, B, BigInteger.Value, Congruent, RoundInv;
      ghost var X0, M := x.Value(), m.Value();
      m.SignOfValue();
      PadForRounds(x);
      RoundStart(x.arr, m.t, M, X0);
      ghost var K := 0;
      var i := 0;
      while i < m.t
        modifies x`arr
        invariant 0 <= i <= m.t && RoundInv(x.arr, m.t, M, X0, K, i)
      {
        K := Round(x, i, X0, K);
        i := i + 1;
      }
      RoundEnd(x.arr, m.t, M, X0, K);
      x.NonNegativeValue();
      x.Clamp();
      x.DrShiftTo(m.t, x);
      ghost var Q := x.Value();
      var c := x.CompareTo(m);
      if c >= 0 {
        x.SubTo(m, x);
        DropModulus(Q, M, B(m.t), X0);
      }
    }

    /** Zero digits up to digit 2 m.t, so that a round has room for its carry. */
    method PadForRounds(x: BigInteger)
      requires Ready() && x != m
      requires x.Valid() && 0 <= x.Value() < m.Value() * B(m.t)
      modifies x
      ensures x.Wf() && x.s == 0 && x.t == 2 * m.t + 1 && Seg(x.arr, 0, x.t) == old(x.Value())
    {
      hide Seg, B, BigInteger.Value;
      m.SignOfValue();
      x.SignOfValue();
      x.NonNegativeValue();
      MulLt(m.Value(), B(m.t), B(m.t));
      BAdd(m.t, m.t);
      if x.t > mt2 {
        BMonotone(mt2, x.t - 1);
        assert false;
      }
      while x.t <= mt2
        invariant x.Wf() && x.s == 0 && x.t <= mt2 + 1 && Seg(x.arr, 0, x.t) == old(x.Value())
      {
        SegUpdate(x.arr, x.t, 0, 0, x.t);
        SegTop(x.arr[x.t := 0], 0, x.t);
        x.arr := x.arr[x.t := 0];
        x.t := x.t + 1;
      }
    }
  }

  lemma RoundDigits(a: Array, t: nat, M: int, X0: int, K: int, i: nat)
    requires RoundInv(a, t, M, X0, K, i)
    ensures AreDigits(a, 0, 2 * t + 1)
  {
  }

  lemma RoundStart(a: Array, t: nat, M: int, X0: int)
    requires AreDigits(a, 0, 2 * t + 1) && Seg(a, 0, 2 * t + 1) == X0
    ensures RoundInv(a, t, M, X0, 0, 0)
  {
  }

  /** After the last round the number is a multiple of R, and its quotient is below 2 m. */
  lemma RoundEnd(a: Array, t: nat, M: int, X0: int, K: int)
    requires M > 0 && 0 <= X0 < M * B(t) && RoundInv(a, t, M, X0, K, t)
    ensures AreDigits(a, 0, 2 * t + 1)
    ensures var q := Seg(a, 0, 2 * t + 1) / B(t);
            0 <= q < 2 * M && Congruent(q * B(t), X0, M)
  {
    hide Seg, B, Congruent;
    var r, s := B(t), Seg(a, 0, 2 * t + 1);
    SegBound(a, 0, 2 * t + 1);
    SegDivMod(a, 0, t, t + 1);
    DivMod(s, r);
    var q := s / r;
    CongruentByMultiple(r * q, X0, M, K);
    assert r * q == q * r;
    DivGe(s, r, 0);
    MulLe(K, r, M);
    DivLt(s, r, 2 * M);
  }

  lemma DropModulus(q: int, m: int, r: int, x: int)
    requires m > 0 && Congruent(q * r, x, m)
    ensures Congruent((q - m) * r, x, m)
  {
    Distrib(r, q, m);
    assert m * r == m * r && m * -r == -(m * r);
    CongruentByMultiple((q - m) * r, q * r, m, -r);
  }
}
