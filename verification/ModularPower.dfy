/** Sliding-window modular exponentiation over any of the three reducers. */
module ModularPower {
  import opened Arith
  import opened JsNumber
  import opened Digits
  import opened BigIntegers
  import opened Division
  import opened MontgomeryReduction
  import opened BarrettReduction
  import opened Reducers

  function Pow(b: int, e: nat): int {
    if e == 0 then 1 else b * Pow(b, e - 1)
  }

  lemma {:induction false} PowAdd(b: int, m: nat, n: nat)
    ensures Pow(b, m + n) == Pow(b, m) * Pow(b, n)
  {
    if m == 0 {
    } else {
      PowAdd(b, m - 1, n);
      Assoc(b, Pow(b, m - 1), Pow(b, n));
    }
  }

  // ----- bits of an exponent

  /** The length in bits, not counting the sign: that of e, or of the complement -e - 1 of a negative e. */
  method BitLength(e: BigInteger) returns (n: nat)
    requires e.Valid()
    ensures var w := if e.Value() < 0 then -e.Value() - 1 else e.Value();
            if n == 0 then w == 0 else Pow2(n - 1) <= w < Pow2(n)
    ensures e.s == 0 && n > 0 ==>
              && 1 <= n - DB * (e.t - 1) <= DB && e.t > 0
              && Pow2(n - DB * (e.t - 1) - 1) <= e.arr[e.t - 1] < Pow2(n - DB * (e.t - 1))
  {
    hide Seg, B, BigInteger.Value, Pow2;
    e.SignOfValue();
    BZero();
    if e.t <= 0 {
      return 0;
    }
    var top := if e.s == 0 then e.arr[e.t - 1] else DM - e.arr[e.t - 1];
    var b := NBits(top);
    BitsOfTop(top, b);
    n := DB * (e.t - 1) + b;
    TopAndRest(e, top);
    BIsPow2(e.t - 1);
    Pow2Add(DB * (e.t - 1), b);
    Pow2Add(DB * (e.t - 1), b - 1);
    TopBounds(if e.s == 0 then e.Value() else -e.Value() - 1, top, B(e.t - 1), Pow2(b - 1), Pow2(b));
  }

  /** The number, or its complement, without its top digit is below the weight of that digit. */
  lemma TopAndRest(e: BigInteger, top: int)
    requires e.Valid() && e.t > 0 && top == if e.s == 0 then e.arr[e.t - 1] else DM - e.arr[e.t - 1]
    ensures 0 <= (if e.s == 0 then e.Value() else -e.Value() - 1) - top * B(e.t - 1) < B(e.t - 1)
  {
    SegBound(e.arr, 0, e.t - 1);
    assert Seg(e.arr, 0, e.t) == Seg(e.arr, 0, e.t - 1) + e.arr[e.t - 1] * B(e.t - 1);
    Distrib(B(e.t - 1), DM, -e.arr[e.t - 1]);
  }

  lemma TopBounds(w: int, top: int, b: int, lo: int, hi: int)
    requires 0 <= w - top * b < b && lo <= top < hi
    ensures b * lo <= w < b * hi
  {
    MulLe(lo, top, b);
    MulLe(top + 1, hi, b);
  }

  /** Bit i of digit j. */
  function BitAt(a: Array, j: int, i: nat): int
    requires j in a
  {
    (ToInt32(a[j]) / Pow2(i)) % 2
  }

  /** Shifting the whole number right is shifting from one digit on. */
  lemma ShiftFromDigit(a: Array, t: nat, j: nat, q: nat)
    requires AreDigits(a, 0, t) && j <= t
    ensures Seg(a, 0, t) / Pow2(28 * j + q) == Seg(a, j, t - j) / Pow2(q)
  {
    hide Seg, B, Pow2;
    SegDivMod(a, 0, j, t - j);
    BIsPow2(j);
    Pow2Add(28 * j, q);
    DivTwice(Seg(a, 0, t), B(j), Pow2(q));
  }

  /** The low digit of a shifted number. */
  lemma DigitQuotient(d: int, h: int, q: nat)
    requires q <= DB
    ensures (d + DV * h) / Pow2(q) == d / Pow2(q) + h * Pow2(DB - q)
    ensures (d + DV * h) % Pow2(q) == d % Pow2(q)
  {
    Pow2Add(q, DB - q);
    Pow2Constants();
    hide Pow2;
    var p, r := Pow2(q), Pow2(DB - q);
    DivMod(d, p);
    assert DV * h == p * (h * r);
    Distrib(p, d / p, h * r);
    DivModUnique(d + DV * h, p, d / p + h * r, d % p);
  }

  /** Shifting further by k bits splits off a k-bit remainder. */
  lemma ShiftMore(x: int, m: nat, k: nat)
    ensures x / Pow2(m) == (x / Pow2(m + k)) * Pow2(k) + (x / Pow2(m)) % Pow2(k)
  {
    hide Pow2;
    Pow2Add(m, k);
    DivTwice(x, Pow2(m), Pow2(k));
    DivMod(x / Pow2(m), Pow2(k));
  }

  /** One more bit. */
  lemma NextBit(a: Array, t: nat, j: nat, i: nat)
    requires AreDigits(a, 0, t) && j < t && i < DB
    ensures Seg(a, 0, t) / Pow2(28 * j + i) == 2 * (Seg(a, 0, t) / Pow2(28 * j + i + 1)) + BitAt(a, j, i)
    ensures 0 <= BitAt(a, j, i) <= 1
  {
    hide Seg, Pow2;
    ShiftMore(Seg(a, 0, t), 28 * j + i, 1);
    PowTwoOne();
    ShiftFromDigit(a, t, j, i);
    SegLow(a, j, t - j);
    ToInt32Small(a[j]);
    var h := Seg(a, j + 1, t - j - 1);
    DigitQuotient(a[j], h, i);
    Pow2Add(1, DB - i - 1);
    EvenPart(a[j] / Pow2(i), h * Pow2(DB - i - 1));
    assert h * (2 * Pow2(DB - i - 1)) == 2 * (h * Pow2(DB - i - 1));
  }

  lemma PowTwoOne()
    ensures Pow2(1) == 2 && Pow2(0) == 1
  {
  }

  lemma EvenPart(x: int, y: int)
    ensures (x + 2 * y) % 2 == x % 2
  {
  }

  // ----- windows

  /** Z is the exponent from bit p - k + 1 on, with zeros below bit 0; w0 are its k low bits. */
  ghost predicate WindowOf(E: int, p: nat, k: nat, w0: int)
    requires k > 0
  {
    && 0 <= w0 < Pow2(k)
    && (p >= k - 1 ==> E / Pow2(p - (k - 1)) == (E / Pow2(p + 1)) * Pow2(k) + w0)
    && (p < k - 1 ==> E * Pow2(k - 1 - p) == (E / Pow2(p + 1)) * Pow2(k) + w0)
  }

  /** The window lies within digit j. */
  lemma WindowInDigit(a: Array, t: nat, j: nat, i: nat, k: nat)
    requires AreDigits(a, 0, t) && j < t && i < DB && 1 <= k <= i + 1
    ensures WindowOf(Seg(a, 0, t), 28 * j + i, k, Low(Shr(a[j], i - (k - 1)), k))
  {
    hide Seg, Pow2;
    var q, p, E := i - (k - 1), 28 * j + i, Seg(a, 0, t);
    ShiftMore(E, p - (k - 1), k);
    assert p - (k - 1) == 28 * j + q && p - (k - 1) + k == p + 1;
    BitsInDigit(a, t, j, q, k);
    DivMod(E / Pow2(28 * j + q), Pow2(k));
  }

  lemma BitsInDigit(a: Array, t: nat, j: nat, q: nat, k: nat)
    requires AreDigits(a, 0, t) && j < t && 1 <= k && q + k <= DB
    ensures Low(Shr(a[j], q), k) == (Seg(a, 0, t) / Pow2(28 * j + q)) % Pow2(k)
  {
    hide Seg, Pow2;
    ShiftFromDigit(a, t, j, q);
    SegLow(a, j, t - j);
    var h := Seg(a, j + 1, t - j - 1);
    DigitQuotient(a[j], h, q);
    Pow2Add(k, DB - q - k);
    MoveFactor(h, Pow2(k), Pow2(DB - q - k));
    DropMultiple(a[j] / Pow2(q), Pow2(k), h * Pow2(DB - q - k));
    BitsOfDigit0(a[j], q, k);
  }

  lemma DropMultiple(x: int, m: int, y: int)
    requires m > 0
    ensures (x + m * y) % m == x % m
  {
    DivMod(x, m);
    Distrib(m, x / m, y);
    DivModUnique(x + m * y, m, x / m + y, x % m);
  }

  lemma BitsOfDigit0(d: int, q: nat, k: nat)
    requires 0 <= d < DV
    ensures 0 <= d / Pow2(q) < DV && Low(Shr(d, q), k) == (d / Pow2(q)) % Pow2(k)
  {
    hide Pow2;
    ToInt32Small(d);
    DivGe(d, Pow2(q), 0);
    MulLe(1, Pow2(q), DV);
    DivLt(d, Pow2(q), DV);
    ToInt32Small(d / Pow2(q));
  }

  /** The low i + 1 bits of a digit, moved up to make room for b more bits. */
  lemma RaisedBits(d: int, i: nat, b: nat)
    requires 0 <= d < DV && i + 1 + b <= DB
    ensures 0 <= d % Pow2(i + 1) < Pow2(i + 1)
    ensures Shl(Low(d, i + 1), b) == (d % Pow2(i + 1)) * Pow2(b)
    ensures 0 <= (d % Pow2(i + 1)) * Pow2(b) <= Pow2(i + 1 + b) - Pow2(b)
  {
    hide Pow2;
    ToInt32Small(d);
    DivMod(d, Pow2(i + 1));
    Pow2Add(i + 1, b);
    Pow2Monotone(i + 1 + b, DB);
    Pow2Constants();
    var x := d % Pow2(i + 1);
    MulNonneg(x, Pow2(b));
    MulLt(x, Pow2(i + 1), Pow2(b));
    MulLe(1, Pow2(b), Pow2(i + 1));
    ToInt32Small(x);
    ToInt32Small(x * Pow2(b));
  }

  /** The window takes its low b bits from the digit below. */
  lemma WindowAcross(a: Array, t: nat, j: nat, i: nat, k: nat)
    requires AreDigits(a, 0, t) && 0 < j < t && i < DB && i + 1 < k <= 6
    ensures var b := k - 1 - i;
            var hi, lo := Shl(Low(a[j], i + 1), b), Shr(a[j - 1], DB - b);
            0 <= hi && 0 <= lo && WindowOf(Seg(a, 0, t), 28 * j + i, k, Or(hi, lo))
  {
    hide Seg, Pow2, Or;
    var b, E := k - 1 - i, Seg(a, 0, t);
    RaisedBits(a[j], i, b);
    var x := a[j] % Pow2(i + 1);
    ToInt32Small(a[j - 1]);
    Pow2Add(DB - b, b);
    Pow2Constants();
    DivLt(a[j - 1], Pow2(DB - b), Pow2(b));
    DivGe(a[j - 1], Pow2(DB - b), 0);
    var lo := a[j - 1] / Pow2(DB - b);
    OrDisjoint(x, lo, b);
    // the number from the digit below on
    assert 28 * j + i - (k - 1) == 28 * (j - 1) + (DB - b);
    ShiftFromDigit(a, t, j - 1, DB - b);
    SegLow(a, j - 1, t - (j - 1));
    var X := Seg(a, j, t - j);
    DigitQuotient(a[j - 1], X, DB - b);
    HighPart(a, t, j, i);
    Pow2Add(i + 1, b);
    SplitHigh(X, E / Pow2(28 * j + i + 1), x, Pow2(i + 1), Pow2(b), lo);
  }

  /** What digit j on leaves above and below bit i. */
  lemma HighPart(a: Array, t: nat, j: nat, i: nat)
    requires AreDigits(a, 0, t) && j < t && i < DB
    ensures Seg(a, j, t - j) == (Seg(a, 0, t) / Pow2(28 * j + i + 1)) * Pow2(i + 1) + a[j] % Pow2(i + 1)
  {
    hide Seg, Pow2;
    ShiftFromDigit(a, t, j, i + 1);
    var X := Seg(a, j, t - j);
    SegLow(a, j, t - j);
    DigitQuotient(a[j], Seg(a, j + 1, t - j - 1), i + 1);
    DivMod(X, Pow2(i + 1));
    Swap(Pow2(i + 1), X / Pow2(i + 1));
  }

  lemma SplitHigh(X: int, u: int, x: int, p: int, b: int, lo: int)
    requires X == u * p + x
    ensures lo + X * b == u * (p * b) + (x * b + lo)
  {
    Distrib(b, u * p, x);
    Assoc(u, p, b);
  }

  /** Below digit 0 the code supplies zeros. */
  lemma WindowAtEnd(a: Array, t: nat, i: nat, k: nat)
    requires AreDigits(a, 0, t) && 0 < t && i < DB && i + 1 < k <= 6
    ensures WindowOf(Seg(a, 0, t), i, k, Shl(Low(a[0], i + 1), k - 1 - i))
  {
    hide Seg, Pow2;
    var b, E := k - 1 - i, Seg(a, 0, t);
    RaisedBits(a[0], i, b);
    HighPart(a, t, 0, i);
    Pow2Add(i + 1, b);
    SplitHigh(E, E / Pow2(i + 1), a[0] % Pow2(i + 1), Pow2(i + 1), Pow2(b), 0);
  }

  /** With bit p set, the window's top bit is set. */
  lemma WindowTopBit(E: int, p: nat, k: nat, w0: int)
    requires E >= 0 && k > 0 && WindowOf(E, p, k, w0)
    requires E / Pow2(p) == 2 * (E / Pow2(p + 1)) + 1
    ensures Pow2(k - 1) <= w0
  {
    var u, h := E / Pow2(p + 1), Pow2(k - 1);
    assert Pow2(k) == 2 * h;
    hide Pow2;
    if p >= k - 1 {
      var z := E / Pow2(p - (k - 1));
      ShiftMore(E, p - (k - 1), k - 1);
      DivMod(z, h);
      OddLeads(u, h, w0, z);
    } else {
      var z := E * Pow2(k - 1 - p);
      Pow2Add(p, k - 1 - p);
      ScaledFloor(E, Pow2(p), Pow2(k - 1 - p));
      OddLeads(u, h, w0, z);
    }
  }

  lemma ScaledFloor(x: int, d: int, c: int)
    requires d > 0 && c > 0
    ensures (x / d) * (d * c) <= x * c
  {
    DivMod(x, d);
    MulLe(d * (x / d), x, c);
    Assoc(x / d, d, c);
  }

  lemma OddLeads(u: int, h: int, w0: int, z: int)
    requires (2 * u + 1) * h <= z && z == u * (2 * h) + w0
    ensures h <= w0
  {
    Assoc(u, 2, h);
    Distrib(h, 2 * u, 1);
  }

  /** w is the window without its k - n low zero bits. */
  ghost predicate Stripped(w0: int, w: int, n: nat, k: nat) {
    && 1 <= n <= k && Pow2(n - 1) <= w < Pow2(n) && w * Pow2(k - n) == w0
  }

  lemma StripStart(w0: int, k: nat)
    requires k > 0 && Pow2(k - 1) <= w0 < Pow2(k)
    ensures Stripped(w0, w0, k, k)
  {
    PowTwoOne();
  }

  lemma StripStep(w0: int, w: int, n: nat, k: nat)
    requires Stripped(w0, w, n, k) && w % 2 == 0
    ensures n > 1 && Stripped(w0, w / 2, n - 1, k)
  {
    PowTwoOne();
    if n > 1 {
      assert Pow2(n) == 2 * Pow2(n - 1) && Pow2(n - 1) == 2 * Pow2(n - 2);
      assert Pow2(k - n + 1) == 2 * Pow2(k - n);
      assert w == 2 * (w / 2);
      hide Pow2;
      assert (w / 2) * (2 * Pow2(k - n)) == (2 * (w / 2)) * Pow2(k - n);
    }
  }

  /** The stripped window is the next n bits of the exponent. */
  lemma StrippedBits(E: int, p: nat, k: nat, w0: int, w: int, n: nat)
    requires E >= 0 && k > 0 && WindowOf(E, p, k, w0) && Stripped(w0, w, n, k) && w % 2 == 1
    ensures n <= p + 1
    ensures E / Pow2(p + 1 - n) == (E / Pow2(p + 1)) * Pow2(n) + w
  {
    var u := E / Pow2(p + 1);
    Pow2Add(n, k - n);
    hide Pow2;
    WindowProduct(u, Pow2(n), w, Pow2(k - n));
    if p >= k - 1 {
      LongWindow(E, p, k, u * Pow2(n) + w, n);
    } else {
      ShortWindow(E, p, k, u, w, n);
    }
  }

  lemma WindowProduct(u: int, p: int, w: int, g: int)
    ensures (u * p + w) * g == u * (p * g) + w * g
  {
    Distrib(g, u * p, w);
    Assoc(u, p, g);
  }

  lemma LongWindow(E: int, p: nat, k: nat, z: int, n: nat)
    requires 1 <= n <= k <= p + 1 && E / Pow2(p - (k - 1)) == z * Pow2(k - n)
    ensures E / Pow2(p + 1 - n) == z
  {
    Pow2Add(p - (k - 1), k - n);
    assert p - (k - 1) + (k - n) == p + 1 - n;
    hide Pow2;
    DivTwice(E, Pow2(p - (k - 1)), Pow2(k - n));
    Swap(z, Pow2(k - n));
    DivModUnique(E / Pow2(p - (k - 1)), Pow2(k - n), z, 0);
  }

  lemma ShortWindow(E: int, p: nat, k: nat, u: int, w: int, n: nat)
    requires p < k - 1 && 1 <= n <= k && w % 2 == 1
    requires E * Pow2(k - 1 - p) == (u * Pow2(n) + w) * Pow2(k - n)
    ensures n <= p + 1 && E / Pow2(p + 1 - n) == u * Pow2(n) + w
  {
    if n > p + 1 {
      Pow2Add(n - p - 1, k - n);
      var c := Pow2(n - p - 2);
      assert Pow2(n - p - 1) == 2 * c && Pow2(n) == 2 * Pow2(n - 1);
      hide Pow2;
      Assoc(E, 2 * c, Pow2(k - n));
      CancelFactor(E * (2 * c), u * (2 * Pow2(n - 1)) + w, Pow2(k - n));
      EvenSum(E, c, u, Pow2(n - 1), w);
      assert false;
    }
    Pow2Add(k - 1 - p, p + 1 - n);
    hide Pow2;
    var f, e, z := Pow2(k - 1 - p), Pow2(p + 1 - n), u * Pow2(n) + w;
    Swap(f, e);
    Assoc(z, e, f);
    CancelFactor(E, z * e, f);
    Swap(z, e);
    DivModUnique(E, e, z, 0);
  }

  lemma EvenSum(x: int, c: int, u: int, d: int, w: int)
    requires x * (2 * c) == u * (2 * d) + w
    ensures w % 2 == 0
  {
    assert x * (2 * c) == 2 * (x * c) && u * (2 * d) == 2 * (u * d);
  }

  lemma CancelFactor(x: int, y: int, f: int)
    requires f > 0 && x * f == y * f
    ensures x == y
  {
    if x < y {
      MulLt(x, y, f);
      assert false;
    }
    if y < x {
      MulLt(y, x, f);
      assert false;
    }
  }

  /** Reads the next window from bit i of digit j down: an odd number w of n bits. */
  method ReadWindow(e: BigInteger, j: nat, i: nat, k: nat) returns (w: int, n: nat)
    requires e.Wf() && e.s == 0 && j < e.t && i < DB && 1 <= k <= 6
    requires BitAt(e.arr, j, i) == 1
    ensures 1 <= n <= k && n <= 28 * j + i + 1 && w % 2 == 1 && 0 < w < Pow2(n)
    ensures e.Value() / Pow2(28 * j + i + 1 - n) == (e.Value() / Pow2(28 * j + i + 1)) * Pow2(n) + w
  {
    hide Seg, B, BigInteger.Value, Pow2, Low, Shr, Shl, Or, WindowOf, Stripped, BitAt;
    ghost var E, p := e.Value(), 28 * j + i;
    e.NonNegativeValue();
    SegBound(e.arr, 0, e.t);
    NextBit(e.arr, e.t, j, i);
    var k1 := k - 1;
    if i >= k1 {
      WindowInDigit(e.arr, e.t, j, i, k);
      w := Low(Shr(e.arr[j], i - k1), k);
    } else {
      w := Shl(Low(e.arr[j], i + 1), k1 - i);
      if j > 0 {
        WindowAcross(e.arr, e.t, j, i, k);
        w := Or(w, Shr(e.arr[j - 1], DB + i - k1));
      } else {
        WindowAtEnd(e.arr, e.t, i, k);
      }
    }
    WindowTopBit(E, p, k, w);
    n := k;
    ghost var w0 := w;
    WindowRange(E, p, k, w0);
    StripStart(w0, k);
    while w % 2 == 0
      invariant Stripped(w0, w, n, k)
      decreases n
    {
      StripStep(w0, w, n, k);
      w := w / 2;
      n := n - 1;
    }
    StrippedBits(E, p, k, w0, w, n);
    StrippedRange(w0, w, n, k);
  }

  lemma WindowRange(E: int, p: nat, k: nat, w0: int)
    requires k > 0 && WindowOf(E, p, k, w0)
    ensures w0 < Pow2(k)
  {
  }

  lemma StrippedRange(w0: int, w: int, n: nat, k: nat)
    requires Stripped(w0, w, n, k)
    ensures 1 <= n <= k && 0 < w < Pow2(n)
  {
  }

  // ----- the table of odd powers

  /** Entry n of the table holds base^n for every odd n below 2^k. */
  ghost predicate Table(z: Reducer, g: map<int, BigInteger>, base: int, top: int)
    requires z.Modulus().Value() > 0
    reads z.Modulus(), g.Values
  {
    forall n: int :: 0 < n < top && n % 2 == 1 ==>
      n in g && g[n].Valid() && z.Holds(g[n].Value(), Pow(base, n))
  }

  lemma PowOne(b: int)
    ensures Pow(b, 1) == b && Pow(b, 0) == 1
  {
  }

  lemma ReadyModulus(z: Reducer)
    requires z.Ready()
    ensures z.Modulus().Value() > 0 && z.Modulus() !in z.Scratch() && z.Modulus() in z.Constants()
  {
  }

  /** The table of the odd powers of base below 2^k. */
  method OddPowers(z: Reducer, base: BigInteger, k: nat, ghost avoid: set<object>) returns (g: map<int, BigInteger>)
    requires z.Ready() && z.Modulus().Value() > 0 && base.Valid() && base !in z.Scratch() && 1 <= k <= 6
    requires base !in avoid
    modifies z.Scratch()
    ensures z.Ready() && z.Modulus().Value() == old(z.Modulus().Value())
    ensures Table(z, g, old(base.Value()), Pow2(k))
    ensures forall n :: n in g ==> g[n] !in z.Scratch() && g[n] !in avoid
  {
    hide Seg, B, BigInteger.Value, Pow, Pow2, Reducer.Holds, Reducer.Ready, Table;
    var km := Pow2(k) - 1;
    OddEnd(k);
    ghost var V := base.Value();
    ReadyModulus(z);
    var first := z.Convert(base);
    ReadyModulus(z);
    PowOne(V);
    g := map[1 := first];
    FirstEntry(z, first, V);
    var n := 3;
    if k > 1 {
      var g2 := new BigInteger();
      z.SqrTo(first, g2, Pow(V, 1));
      ReadyModulus(z);
      FirstEntry(z, first, V);
      PowAdd(V, 1, 1);
      while n <= km
        modifies z.Scratch()
        invariant 3 <= n <= km + 2 && n % 2 == 1
        invariant z.Ready() && z.Modulus().Value() == old(z.Modulus().Value())
        invariant g2.Valid() && z.Holds(g2.Value(), Pow(V, 2)) && g2 !in z.Scratch()
        invariant Table(z, g, V, n)
        invariant forall i :: i in g ==> g[i] !in z.Scratch() && g[i] !in avoid
      {
        g := AddPower(z, g, g2, V, n, avoid);
        n := n + 2;
      }
    }
    SameTable(z, g, V, n, km + 1);
  }

  lemma OddEnd(k: nat)
    requires 1 <= k <= 6
    ensures Pow2(k) % 2 == 0 && Pow2(k) >= 2 && (k == 1 ==> Pow2(k) == 2) && (k > 1 ==> Pow2(k) >= 4)
  {
    assert Pow2(k) == 2 * Pow2(k - 1);
    if k > 1 {
      assert Pow2(k - 1) == 2 * Pow2(k - 2);
    }
  }

  lemma FirstEntry(z: Reducer, first: BigInteger, V: int)
    requires z.Modulus().Value() > 0 && first.Valid() && z.Holds(first.Value(), Pow(V, 1))
    ensures Table(z, map[1 := first], V, 3)
  {
  }

  /** No odd number lies between n - 1 and n. */
  lemma SameTable(z: Reducer, g: map<int, BigInteger>, V: int, n: int, m: int)
    requires z.Modulus().Value() > 0 && Table(z, g, V, n) && m <= n
    ensures Table(z, g, V, m)
  {
  }

  method AddPower(z: Reducer, g: map<int, BigInteger>, g2: BigInteger, ghost V: int, n: int, ghost avoid: set<object>)
    returns (g': map<int, BigInteger>)
    requires z.Ready() && z.Modulus().Value() > 0 && 3 <= n && n % 2 == 1
    requires g2.Valid() && g2 !in z.Scratch() && z.Holds(g2.Value(), Pow(V, 2))
    requires Table(z, g, V, n) && forall i :: i in g ==> g[i] !in z.Scratch() && g[i] !in avoid
    modifies z.Scratch()
    ensures z.Ready() && z.Modulus().Value() == old(z.Modulus().Value())
    ensures Table(z, g', V, n + 2) && forall i :: i in g' ==> g'[i] !in z.Scratch() && g'[i] !in avoid
    ensures g2.Valid() && z.Holds(g2.Value(), Pow(V, 2))
  {
    hide Seg, B, BigInteger.Value, Pow, Pow2, Reducer.Holds, Reducer.Ready;
    ReadyModulus(z);
    var next := new BigInteger();
    z.MulTo(g2, g[n - 2], next, Pow(V, 2), Pow(V, n - 2));
    PowAdd(V, 2, n - 2);
    g' := g[n := next];
  }

  // ----- the exponentiation

  lemma PowDouble(V: int, u: nat, c: nat)
    ensures u * Pow2(c) >= 0 && u * Pow2(c + 1) >= 0
    ensures Pow(V, u * Pow2(c)) * Pow(V, u * Pow2(c)) == Pow(V, u * Pow2(c + 1))
  {
    MulNonneg(u, Pow2(c));
    var x := u * Pow2(c);
    assert u * Pow2(c + 1) == x + x by {
      assert Pow2(c + 1) == 2 * Pow2(c);
    }
    PowAdd(V, x, x);
  }

  /** Squares n times; the result ends up in r2, whichever of the two objects that is. */
  method SquareMany(z: Reducer, a: BigInteger, b: BigInteger, n0: nat, ghost V: int, ghost u: nat)
    returns (r: BigInteger, r2: BigInteger)
    requires z.Ready() && z.Modulus().Value() > 0 && n0 >= 1
    requires a != b && {a, b} !! z.Scratch() && {a, b} !! z.Constants()
    requires a.Valid() && z.Holds(a.Value(), Pow(V, u))
    modifies a, b, z.Scratch()
    ensures (r == a && r2 == b) || (r == b && r2 == a)
    ensures z.Ready() && z.Modulus().Value() == old(z.Modulus().Value())
    ensures u * Pow2(n0) >= 0 && r2.Valid() && z.Holds(r2.Value(), Pow(V, u * Pow2(n0)))
  {
    hide Seg, B, BigInteger.Value, Pow, Pow2, Reducer.Holds, Reducer.Ready;
    r, r2 := a, b;
    PowTwoOne();
    var n := n0;
    ghost var c := 0;
    while n > 1
      invariant n >= 0 && c >= 0 && c + n == n0
      invariant z.Ready() && z.Modulus().Value() == old(z.Modulus().Value())
      invariant r.Valid() && u * Pow2(c) >= 0 && z.Holds(r.Value(), Pow(V, u * Pow2(c)))
    {
      ReadyModulus(z);
      z.SqrTo(r, r2, Pow(V, u * Pow2(c)));
      PowDouble(V, u, c);
      z.SqrTo(r2, r, Pow(V, u * Pow2(c + 1)));
      PowDouble(V, u, c + 1);
      n := n - 2;
      c := c + 2;
    }
    if n > 0 {
      ReadyModulus(z);
      z.SqrTo(r, r2, Pow(V, u * Pow2(c)));
      PowDouble(V, u, c);
    } else {
      r, r2 := r2, r;
    }
  }

  /** r stands for V to the power of the bits of E above position p. */
  ghost predicate Done(z: Reducer, r: BigInteger, V: int, E: int, p: nat)
    requires z.Modulus().Value() > 0
    reads z.Modulus(), r
  {
    E / Pow2(p) >= 0 && r.Valid() && z.Holds(r.Value(), Pow(V, E / Pow2(p)))
  }

  /** The zero bits below a window cost one squaring each. */
  method SkipZeros(z: Reducer, e: BigInteger, j0: int, i0: nat, a: BigInteger, b: BigInteger, ghost V: int)
    returns (j: int, i: nat, r: BigInteger, r2: BigInteger)
    requires z.Ready() && z.Modulus().Value() > 0 && e.Wf() && e.s == 0 && e != a && e != b && e !in z.Scratch()
    requires a != b && {a, b} !! z.Scratch() && {a, b} !! z.Constants()
    requires -1 <= j0 < e.t && i0 < DB && (j0 < 0 ==> i0 == DB - 1)
    requires Done(z, a, V, e.Value(), 28 * j0 + i0 + 1)
    modifies a, b, z.Scratch()
    ensures (r == a && r2 == b) || (r == b && r2 == a)
    ensures z.Ready() && z.Modulus().Value() == old(z.Modulus().Value())
    ensures -1 <= j <= j0 && i < DB && (j < 0 ==> i == DB - 1) && 28 * j + i <= 28 * j0 + i0
    ensures Done(z, r, V, e.Value(), 28 * j + i + 1)
    ensures j >= 0 ==> BitAt(e.arr, j, i) == 1
  {
    hide Seg, B, BigInteger.Value, Pow, Pow2, BitAt, Reducer.Holds, Reducer.Ready;
    j, i, r, r2 := j0, i0, a, b;
    e.NonNegativeValue();
    while j >= 0 && BitAt(e.arr, j, i) == 0
      invariant (r == a && r2 == b) || (r == b && r2 == a)
      invariant z.Ready() && z.Modulus().Value() == old(z.Modulus().Value())
      invariant -1 <= j <= j0 && i < DB && (j < 0 ==> i == DB - 1) && 28 * j + i <= 28 * j0 + i0
      invariant Done(z, r, V, e.Value(), 28 * j + i + 1)
      decreases 28 * j + i + 1
    {
      ReadyModulus(z);
      ghost var u := e.Value() / Pow2(28 * j + i + 1);
      z.SqrTo(r, r2, Pow(V, u));
      NextBit(e.arr, e.t, j, i);
      PowAdd(V, u, u);
      r, r2 := r2, r;
      if i > 0 {
        i := i - 1;
      } else {
        i := DB - 1;
        j := j - 1;
      }
    }
    if j >= 0 {
      NextBit(e.arr, e.t, j, i);
    }
  }

  /** Multiplies the power so far, squared n times, by entry w of the table. */
  method ApplyWindow(z: Reducer, g: map<int, BigInteger>, ghost k: nat, w: int, n: nat, is1: bool,
                     a: BigInteger, b: BigInteger, ghost V: int, ghost u: int)
    returns (r: BigInteger, r2: BigInteger)
    requires z.Ready() && z.Modulus().Value() > 0 && n >= 1 && u >= 0
    requires a != b && {a, b} !! z.Scratch() && {a, b} !! z.Constants()
    requires Table(z, g, V, Pow2(k)) && 0 < w < Pow2(k) && w % 2 == 1
    requires forall n :: n in g ==> g[n] !in z.Scratch() && g[n] != a && g[n] != b
    requires is1 ==> u == 0
    requires !is1 ==> a.Valid() && z.Holds(a.Value(), Pow(V, u))
    modifies a, b, z.Scratch()
    ensures (r == a && r2 == b) || (r == b && r2 == a)
    ensures z.Ready() && z.Modulus().Value() == old(z.Modulus().Value())
    ensures u * Pow2(n) + w >= 0 && r.Valid() && z.Holds(r.Value(), Pow(V, u * Pow2(n) + w))
  {
    hide Seg, B, BigInteger.Value, Pow, Pow2, Reducer.Holds, Reducer.Ready;
    ReadyModulus(z);
    r, r2 := a, b;
    if is1 {
      g[w].CopyTo(r);
    } else {
      r, r2 := SquareMany(z, a, b, n, V, u);
      ReadyModulus(z);
      PowAdd(V, u * Pow2(n), w);
      z.MulTo(r2, g[w], r, Pow(V, u * Pow2(n)), Pow(V, w));
    }
  }

  lemma TopBit(a: Array, t: nat, i: nat)
    requires AreDigits(a, 0, t) && t > 0 && i < DB && Pow2(i) <= a[t - 1] < Pow2(i + 1)
    ensures Seg(a, 0, t) / Pow2(28 * (t - 1) + i + 1) == 0 && BitAt(a, t - 1, i) == 1
  {
    hide Seg, Pow2;
    ShiftFromDigit(a, t, t - 1, i + 1);
    SegOne(a, t - 1);
    DivModUnique(a[t - 1], Pow2(i + 1), 0, a[t - 1]);
    ToInt32Small(a[t - 1]);
    Pow2Add(1, i);
    PowTwoOne();
    DivLt(a[t - 1], Pow2(i), 2);
    DivGe(a[t - 1], Pow2(i), 1);
  }

  lemma WindowInTable(k: nat, n: nat, w: int)
    requires n <= k && w < Pow2(n)
    ensures w < Pow2(k)
  {
    Pow2Monotone(n, k);
  }

  /** One window from the set bit i of digit j, and the zeros below it. */
  method OneWindow(z: Reducer, g: map<int, BigInteger>, e: BigInteger, k: nat, j0: nat, i0: nat, is1: bool,
                   a: BigInteger, b: BigInteger, ghost V: int)
    returns (j: int, i: nat, r: BigInteger, r2: BigInteger)
    requires z.Ready() && z.Modulus().Value() > 0 && e.Wf() && e.s == 0 && e != a && e != b
    requires e !in z.Scratch() && 1 <= k <= 6
    requires a != b && {a, b} !! z.Scratch() && {a, b} !! z.Constants()
    requires Table(z, g, V, Pow2(k)) && forall n :: n in g ==> g[n] !in z.Scratch() && g[n] != a && g[n] != b
    requires j0 < e.t && i0 < DB && BitAt(e.arr, j0, i0) == 1
    requires is1 ==> e.Value() / Pow2(28 * j0 + i0 + 1) == 0
    requires !is1 ==> Done(z, a, V, e.Value(), 28 * j0 + i0 + 1)
    modifies a, b, z.Scratch()
    ensures (r == a && r2 == b) || (r == b && r2 == a)
    ensures z.Ready() && z.Modulus().Value() == old(z.Modulus().Value())
    ensures -1 <= j < e.t && i < DB && (j < 0 ==> i == DB - 1) && 28 * j + i < 28 * j0 + i0
    ensures j >= 0 ==> BitAt(e.arr, j, i) == 1
    ensures Done(z, r, V, e.Value(), 28 * j + i + 1)
  {
    hide Seg, B, BigInteger.Value, Pow, Pow2, BitAt, Reducer.Holds, Reducer.Ready, Table;
    ReadyModulus(z);
    e.NonNegativeValue();
    ghost var u := e.Value() / Pow2(28 * j0 + i0 + 1);
    var w, n := ReadWindow(e, j0, i0, k);
    WindowInTable(k, n, w);
    var i1: int, j1: int := i0 - n, j0;
    if i1 < 0 {
      i1 := i1 + DB;
      j1 := j1 - 1;
    }
    r, r2 := ApplyWindow(z, g, k, w, n, is1, a, b, V, u);
    assert Done(z, r, V, e.Value(), 28 * j1 + i1 + 1);
    j, i, r, r2 := SkipZeros(z, e, j1, i1, r, r2, V);
  }

  lemma AllDone(z: Reducer, r: BigInteger, V: int, E: int)
    requires z.Modulus().Value() > 0 && Done(z, r, V, E, 0)
    ensures E >= 0 && r.Valid() && z.Holds(r.Value(), Pow(V, E))
  {
    hide BigInteger.Value, Pow, Reducer.Holds;
    PowTwoOne();
  }

  /** The main loop, from the top bit of the exponent down. */
  method Exponentiate(z: Reducer, g: map<int, BigInteger>, e: BigInteger, k: nat, i0: nat,
                      a: BigInteger, b: BigInteger, ghost V: int)
    returns (r: BigInteger)
    requires z.Ready() && z.Modulus().Value() > 0 && e.Wf() && e.s == 0 && e.t > 0 && e != a && e != b
    requires e !in z.Scratch() && 1 <= k <= 6
    requires a != b && {a, b} !! z.Scratch() && {a, b} !! z.Constants()
    requires Table(z, g, V, Pow2(k)) && forall n :: n in g ==> g[n] !in z.Scratch() && g[n] != a && g[n] != b
    requires i0 < DB && Pow2(i0) <= e.arr[e.t - 1] < Pow2(i0 + 1)
    modifies a, b, z.Scratch()
    ensures r == a || r == b
    ensures z.Ready() && z.Modulus().Value() == old(z.Modulus().Value())
    ensures r.Valid() && e.Value() >= 0 && z.Holds(r.Value(), Pow(V, e.Value()))
  {
    hide Seg, B, BigInteger.Value, Pow, Pow2, BitAt, Reducer.Holds, Reducer.Ready, Table, Done;
    e.NonNegativeValue();
    SegBound(e.arr, 0, e.t);
    TopBit(e.arr, e.t, i0);
    r := a;
    var r2 := b;
    var j, i, is1 := e.t - 1, i0, true;
    while j >= 0
      invariant (r == a && r2 == b) || (r == b && r2 == a)
      invariant z.Ready() && z.Modulus().Value() == old(z.Modulus().Value())
      invariant -1 <= j < e.t && 0 <= i < DB && (j < 0 ==> i == DB - 1 && !is1)
      invariant j >= 0 ==> BitAt(e.arr, j, i) == 1
      invariant is1 ==> e.Value() / Pow2(28 * j + i + 1) == 0
      invariant !is1 ==> Done(z, r, V, e.Value(), 28 * j + i + 1)
      invariant Table(z, g, V, Pow2(k))
      decreases 28 * j + i + 1
    {
      ReadyModulus(z);
      j, i, r, r2 := OneWindow(z, g, e, k, j, i, is1, r, r2, V);
      is1 := false;
    }
    AllDone(z, r, V, e.Value());
  }

  /** The reducer the original picks: by division for short exponents, Barrett's for even
      moduli and Montgomery's for odd ones. */
  method ChooseReducer(bits: nat, m: BigInteger) returns (z: Reducer)
    requires m.Valid() && m.Value() > 1 && (bits >= 8 && m.Value() % 2 == 0 ==> m.t + 4 <= DV)
    ensures z.Ready() && z.Modulus() == m && fresh(z.Scratch()) && fresh(z.Constants() - {m})
    ensures (z.Classic? <==> bits < 8) && (z.ByBarrett? <==> bits >= 8 && m.Value() % 2 == 0)
  {
    hide Seg, B, BigInteger.Value;
    m.SignOfValue();
    var even := m.IsEven();
    if bits < 8 {
      z := Classic(m);
    } else if even {
      var b := new Barrett(m);
      z := ByBarrett(b);
    } else {
      var g := new Montgomery(m);
      z := ByMontgomery(g);
    }
  }

  /** base to the power e modulo m, for any base, e >= 0 and m > 1. */
  method ModPow(base: BigInteger, e: BigInteger, m: BigInteger) returns (r: BigInteger)
    requires base.Valid() && e.Valid() && e.s == 0 && m.Valid() && m.Value() > 1
    requires e.Value() >= 128 && m.Value() % 2 == 0 ==> m.t + 4 <= DV
    ensures fresh(r) && r.Valid()
    ensures e.Value() >= 0 && r.Value() == Pow(base.Value(), e.Value()) % m.Value()
  {
    hide Seg, B, BigInteger.Value, Pow, Pow2, Reducer.Ready;
    e.SignOfValue();
    PowOne(base.Value());
    InRange(1, m.Value());
    var i := BitLength(e);
    r := new BigInteger();
    r.FromInt(1);
    if i <= 0 {
      return;
    }
    var k := if i < 18 then 1 else if i < 48 then 3 else if i < 144 then 4 else if i < 768 then 5 else 6;
    LongExponent(i, e.Value());
    var z := ChooseReducer(i, m);
    r := ModPowWith(z, base, e, k, i, r);
  }

  lemma LongExponent(n: nat, v: int)
    requires n > 0 && Pow2(n - 1) <= v
    ensures n >= 8 ==> v >= 128
  {
    if n >= 8 {
      assert Pow2(7) == 128;
      Pow2Monotone(7, n - 1);
    }
  }

  /** The precomputation, the main loop and the conversion back, for one reducer. */
  method ModPowWith(z: Reducer, base: BigInteger, e: BigInteger, k: nat, bits: nat, r0: BigInteger)
    returns (r: BigInteger)
    requires z.Ready() && z.Modulus().Value() > 0 && base.Valid() && e.Wf() && e.s == 0 && e.t > 0
    requires {base, e} !! z.Scratch() && r0 != base && r0 != e && r0 !in z.Scratch() && r0 !in z.Constants()
    requires 1 <= k <= 6 && 1 <= bits - DB * (e.t - 1) <= DB
    requires Pow2(bits - DB * (e.t - 1) - 1) <= e.arr[e.t - 1] < Pow2(bits - DB * (e.t - 1))
    modifies r0, z.Scratch()
    ensures (r == r0 || fresh(r)) && r.Valid() && old(e.Value()) >= 0
    ensures r.Value() == Pow(old(base.Value()), old(e.Value())) % old(z.Modulus().Value())
  {
    hide Seg, B, BigInteger.Value, Pow, Pow2, Reducer.Ready, Reducer.Holds, Table;
    ghost var V, E := base.Value(), e.Value();
    ReadyModulus(z);
    var r2 := new BigInteger();
    var g := OddPowers(z, base, k, {r0, r2});
    var nb := NBits(e.arr[e.t - 1]);
    ReadyModulus(z);
    SameBits(e.arr[e.t - 1], nb, bits - DB * (e.t - 1));
    var x := Exponentiate(z, g, e, k, nb - 1, r0, r2, V);
    r := z.Revert(x, Pow(V, E));
  }

  lemma SameBits(d: int, m: nat, n: nat)
    requires 0 < m && 1 <= n <= DB && Pow2(m - 1) <= d < Pow2(m) && Pow2(n - 1) <= d < Pow2(n)
    ensures m == n
  {
    if m < n {
      Pow2Monotone(m, n - 1);
      assert false;
    }
    if n < m {
      Pow2Monotone(n, m - 1);
      assert false;
    }
  }
}
