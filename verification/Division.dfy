/** Long division of the Crypto benchmark: an estimated quotient digit from the top digits of
    the operands, one multiply-accumulate with the "negative" divisor, and an add-back loop. */
module Division {
  import opened Arith
  import opened JsNumber
  import opened Digits
  import opened BigIntegers

  function AbsInt(x: int): int {
    if x < 0 then -x else x
  }

  /** Division truncating toward zero. */
  function TruncDiv(x: int, y: int): int
    requires y != 0
  {
    var q := AbsInt(x) / AbsInt(y);
    if (x < 0) == (y < 0) then q else -q
  }

  /** The remainder of truncating division; it has the sign of x. */
  function TruncRem(x: int, y: int): int
    requires y != 0
  {
    var r := AbsInt(x) % AbsInt(y);
    if x < 0 then -r else r
  }

  /** The quotient and the remainder are the only pair that division can mean. */
  lemma TruncatedDivision(x: int, y: int, q: int, r: int)
    requires y != 0
    ensures x == TruncDiv(x, y) * y + TruncRem(x, y)
    ensures IsRemainder(x, y, TruncRem(x, y))
    ensures x == q * y + r && IsRemainder(x, y, r) ==> q == TruncDiv(x, y) && r == TruncRem(x, y)
  {
    var a, b := AbsInt(x), AbsInt(y);
    DivMod(a, b);
    SignedProduct(a / b, b);
    if x == q * y + r && IsRemainder(x, y, r) {
      UniqueQuotient(x, y, q, r);
    }
  }

  /** A remainder of x by y: smaller than y in magnitude, with the sign of x. */
  ghost predicate IsRemainder(x: int, y: int, r: int) {
    AbsInt(r) < AbsInt(y) && (x >= 0 ==> r >= 0) && (x <= 0 ==> r <= 0)
  }

  lemma UniqueQuotient(x: int, y: int, q: int, r: int)
    requires y != 0 && x == q * y + r && IsRemainder(x, y, r)
    ensures q == TruncDiv(x, y) && r == TruncRem(x, y)
  {
    var a, b := AbsInt(x), AbsInt(y);
    var q' := if (x < 0) == (y < 0) then q else -q;
    SignedProduct(q, b);
    assert a == b * q' + AbsInt(r);
    DivModUnique(a, b, q', AbsInt(r));
  }

  lemma SignedProduct(q: int, b: int)
    ensures (-q) * b == -(q * b) && q * (-b) == -(q * b) && (-q) * (-b) == q * b && b * q == q * b
    ensures b * (-q) == -(q * b)
  {
  }

  // ----- the number of bits of a digit

  method NBits(x0: int) returns (r: nat)
    requires 0 <= x0 < 0x1_0000_0000
    ensures r > 0 && (x0 > 0 ==> Pow2(r - 1) <= x0 < Pow2(r)) && (x0 == 0 ==> r == 1)
  {
    hide HighBits, Pow2;
    var x := x0;
    r := 1;
    NBitsStart(x0);
    var t := x / 0x1_0000;
    BitStep(x0, x, r - 1, 16);
    if t != 0 {
      x := t;
      r := r + 16;
    }
    t := x / 0x100;
    BitStep(x0, x, r - 1, 8);
    if t != 0 {
      x := t;
      r := r + 8;
    }
    t := x / 0x10;
    BitStep(x0, x, r - 1, 4);
    if t != 0 {
      x := t;
      r := r + 4;
    }
    t := x / 4;
    BitStep(x0, x, r - 1, 2);
    if t != 0 {
      x := t;
      r := r + 2;
    }
    t := x / 2;
    BitStep(x0, x, r - 1, 1);
    if t != 0 {
      x := t;
      r := r + 1;
    }
    if x == 1 {
      NBitsEnd(x0, x, r);
    }
  }

  /** x is x0 without its e low bits. */
  ghost predicate HighBits(x0: int, x: int, e: nat) {
    x * Pow2(e) <= x0 < (x + 1) * Pow2(e)
  }

  lemma NBitsStart(x: int)
    ensures HighBits(x, x, 0)
    ensures Pow2(16) == 0x1_0000 && Pow2(8) == 0x100 && Pow2(4) == 0x10 && Pow2(2) == 4 && Pow2(1) == 2
  {
    Pow2Add(8, 8);
  }

  lemma NBitsEnd(x0: int, x: int, r: nat)
    requires r > 0 && HighBits(x0, x, r - 1) && x == 1
    ensures Pow2(r - 1) <= x0 < Pow2(r)
  {
  }

  /** Dropping k more low bits. */
  lemma BitStep(x0: int, x: int, e: nat, k: nat)
    requires 0 <= x && HighBits(x0, x, e)
    ensures HighBits(x0, x / Pow2(k), e + k)
  {
    hide Pow2;
    var p, b := Pow2(k), Pow2(e);
    var x' := x / p;
    DivMod(x, p);
    Pow2Add(e, k);
    MulLe(p * x', x, b);
    MulLe(x + 1, p * (x' + 1), b);
    assert (p * x') * b == x' * (b * p);
    assert (p * (x' + 1)) * b == (x' + 1) * (b * p);
  }

  // ----- one quotient digit

  const FV: int := 0x10_0000_0000_0000    // 2^52
  const F1: int := 0x100_0000             // 2^(52 - 28)
  const E: int := 16                      // 2^(2 * 28 - 52)

  /** The digit guessed from the two top digits of the remainder and the leading 52 bits yt of
      the divisor, over exact rationals. */
  function Estimate(ri: int, rbelow: int, y0: int, yt: int): int
    requires yt > 0
  {
    var d1, d2 := FV as real / yt as real, F1 as real / yt as real;
    if ri == y0 then DM else ((ri as real) * d1 + ((rbelow + E) as real) * d2).Floor
  }

  lemma EstimateIsQuotient(ri: int, rbelow: int, y0: int, yt: int)
    requires yt > 0 && ri != y0
    ensures Estimate(ri, rbelow, y0, yt) == (ri * FV + (rbelow + E) * F1) / yt
  {
    var a, b, w := ri as real, (rbelow + E) as real, yt as real;
    RationalSum(a, FV as real, b, F1 as real, w);
    FloorOfQuotient(ri * FV + (rbelow + E) * F1, yt);
    assert a * (FV as real) + b * (F1 as real) == (ri * FV + (rbelow + E) * F1) as real;
  }

  lemma RationalSum(a: real, f: real, b: real, g: real, w: real)
    requires w > 0.0
    ensures a * (f / w) + b * (g / w) == (a * f + b * g) / w
  {
    RationalProduct(a, f, w);
    RationalProduct(b, g, w);
    var x, y := a * f, b * g;
    var s := x / w + y / w;
    assert s * w == x / w * w + y / w * w;
    assert s == (s * w) / w;
  }

  lemma RationalProduct(a: real, f: real, w: real)
    requires w > 0.0
    ensures a * (f / w) == (a * f) / w
  {
    var q := f / w;
    assert q * w == f;
    assert a * f == (a * q) * w;
  }

  /** The estimate is never below the true digit R / u and at most 2^28.  Here u is the divisor
      moved to digit j, b the weight of digit i - 1, yt the leading 52 bits of the divisor. */
  lemma EstimateBounds(R: int, u: int, b: int, ri: int, rbelow: int, low: int, y0: int, yt: int)
    requires 0 < b && 0 < u && 0 <= R < DV * u
    requires R == ri * (DV * b) + rbelow * b + low && 0 <= low < b
    requires 0 <= ri < DV && 0 <= rbelow < DV
    requires 0x800_0000 <= y0 < DV && y0 * F1 <= yt
    requires yt * b <= F1 * u && u < (y0 + 1) * b
    ensures ri <= y0
    ensures R / u <= Estimate(ri, rbelow, y0, yt) <= DV
  {
    var qt := R / u;
    DivMod(R, u);
    DivLt(R, u, DV);
    DivGe(R, u, 0);
    TopDigitSmall(R, u, b, ri, rbelow, low, y0);
    if ri < y0 {
      EstimateIsQuotient(ri, rbelow, y0, yt);
      var n := ri * FV + (rbelow + E) * F1;
      EstimateHigh(R, u, b, ri, rbelow, low, yt, qt);
      DivGe(n, yt, qt);
      assert n < yt * (DV + 1);
      DivLt(n, yt, DV + 1);
    }
  }

  lemma TopDigitSmall(R: int, u: int, b: int, ri: int, rbelow: int, low: int, y0: int)
    requires 0 < b && R < DV * u && R == ri * (DV * b) + rbelow * b + low && 0 <= low && 0 <= rbelow
    requires u < (y0 + 1) * b
    ensures ri <= y0
  {
    MulNonneg(rbelow, b);
    assert (y0 + 1) * (DV * b) == DV * ((y0 + 1) * b);
    CancelLt(ri, y0 + 1, DV * b);
  }

  lemma EstimateHigh(R: int, u: int, b: int, ri: int, rbelow: int, low: int, yt: int, qt: int)
    requires 0 < b && 0 <= qt && R == ri * (DV * b) + rbelow * b + low && low < b
    requires qt * u <= R && yt * b <= F1 * u
    ensures yt * qt < ri * FV + (rbelow + E) * F1
  {
    var n := ri * FV + (rbelow + E) * F1;
    MulLe(yt * b, F1 * u, qt);
    assert (yt * b) * qt == (yt * qt) * b;
    assert (F1 * u) * qt == F1 * (qt * u);
    assert n * b == FV * (ri * b) + F1 * (rbelow * b) + E * F1 * b;
    assert ri * (DV * b) == DV * (ri * b);
    CancelLt(yt * qt, n, b);
  }

  /** The quotient digit that is due for the remainder R, and the remainder it leaves. */
  ghost function TrueDigit(R: int, u: int): int
    requires u > 0
  {
    R / u
  }

  ghost function TrueRest(R: int, u: int): int
    requires u > 0
  {
    R % u
  }

  /** The digit of weight b, and the digits below it, once R has been raised by k times b - u. */
  ghost function TrialDigit(R: int, u: int, b: int, k: int): int
    requires b > 0
  {
    (R + k * (b - u)) / b
  }

  ghost function TrialRest(R: int, u: int, b: int, k: int): int
    requires b > 0
  {
    (R + k * (b - u)) % b
  }

  /** Raising R < 2^28 u by k times b - u puts into the digit of weight b a number between the
      true digit and k, which is k only when k is the true digit. */
  lemma DigitAfter(R: int, u: int, b: int, k: int)
    requires 0 < u < b && 0 <= R < DV * u && TrueDigit(R, u) <= k
    ensures 0 <= TrueDigit(R, u) < DV && (R >= b ==> TrueDigit(R, u) >= 1)
    ensures TrueDigit(R, u) <= TrialDigit(R, u, b, k) <= k
    ensures TrialDigit(R, u, b, k) == k <==> k == TrueDigit(R, u)
    ensures k == TrueDigit(R, u) ==> TrialRest(R, u, b, k) == TrueRest(R, u)
  {
    var qt, x := R / u, R + k * (b - u);
    DivMod(R, u);
    DivLt(R, u, DV);
    DivGe(R, u, 0);
    if R >= b {
      DivGe(R, u, 1);
    }
    assert u * qt == qt * u;
    RaisedBetween(R, u, b, k, qt);
    DivGe(x, b, qt);
    DivLt(x, b, k + 1);
    if k == qt {
      DivModUnique(x, b, k, R % u);
    } else {
      DivLt(x, b, k);
    }
  }

  lemma RaisedBetween(R: int, u: int, b: int, k: int, qt: int)
    requires qt * u <= R < qt * u + u && 0 < u < b && qt <= k
    ensures b * qt <= R + k * (b - u) < b * (k + 1)
    ensures k == qt ==> R + k * (b - u) == b * k + (R - qt * u)
    ensures k > qt ==> R + k * (b - u) < b * k
  {
    MulLe(qt, k, b - u);
    MulLe(qt, k, u);
    RaisedProducts(u, b, k);
    RaisedProducts(u, b, qt);
    if k > qt {
      MulLt(qt, k, u);
    }
  }

  lemma RaisedProducts(u: int, b: int, k: int)
    ensures k * (b - u) == b * k - k * u && b * (k + 1) == b * k + b
  {
  }

  /** The divisor as the digit loop sees it: Y is normalised, y0 and yt are its leading digit
      and its leading 52 bits. */
  ghost predicate Divisor(Y: int, ys: nat, y0: int, yt: int) {
    && ys > 0 && 0 < Y < B(ys) <= 2 * Y
    && 0x800_0000 <= y0 < DV && y0 * F1 <= yt
    && yt * B(ys - 1) <= F1 * Y && Y < (y0 + 1) * B(ys - 1)
  }

  /** The divisor moved to digit j. */
  ghost function Moved(Y: int, j: nat): int {
    Y * B(j)
  }

  lemma MovedDivisor(Y: int, ys: nat, y0: int, yt: int, j: nat)
    requires Divisor(Y, ys, y0, yt)
    ensures 0 < Moved(Y, j) < B(ys + j) <= 2 * Moved(Y, j)
    ensures yt * B(ys + j - 1) <= F1 * Moved(Y, j) && Moved(Y, j) < (y0 + 1) * B(ys + j - 1)
    ensures Moved(Y, j + 1) == DV * Moved(Y, j)
  {
    var b, w := B(j), B(ys - 1);
    assert Y * B(j + 1) == DV * (Y * B(j)) by {
      assert B(j + 1) == DV * b;
    }
    hide B;
    BAdd(ys, j);
    BAdd(ys - 1, j);
    MulLt(0, Y, b);
    MulLt(Y, B(ys), b);
    MulLe(B(ys), 2 * Y, b);
    MulLe(yt * w, F1 * Y, b);
    MulLt(Y, (y0 + 1) * w, b);
    Assoc(yt, w, b);
    Assoc(y0 + 1, w, b);
    Assoc(2, Y, b);
    Assoc(F1, Y, b);
  }

  lemma MovedInRange(Y: int, ys: nat, y0: int, yt: int, j: nat)
    requires Divisor(Y, ys, y0, yt)
    ensures 0 < Moved(Y, j) < B(ys + j) && Moved(Y, j + 1) == DV * Moved(Y, j)
  {
    hide Divisor, Moved, B;
    MovedDivisor(Y, ys, y0, yt, j);
  }

  lemma MovedNegated(Y: int, ys: nat, j: nat)
    ensures (B(ys) - Y) * B(j) == B(ys + j) - Moved(Y, j)
  {
    hide B;
    BAdd(ys, j);
    Distrib(B(j), B(ys), Y);
  }

  /** One round: digit i = ys + j of r, counted from the remainder below it, becomes the true
      quotient digit and the digits below it the new remainder.  y holds B(ys) minus the divisor. */
  method QuotientDigit(r: BigInteger, y: BigInteger, t: BigInteger, j: nat, ys: nat, y0: int, yt: int,
                       ghost Y: int)
    requires r != y && r != t && y != t
    requires Divisor(Y, ys, y0, yt)
    requires y.Wf() && y.s == 0 && y.t == ys && y.Value() == B(ys) - Y
    requires r.Valid() && r.s == 0 && r.t > ys + j
    requires Seg(r.arr, 0, ys + j + 1) < Moved(Y, j + 1)
    modifies r, t
    ensures r.Valid() && r.s == 0 && r.t == old(r.t)
    ensures 0 < Moved(Y, j)
    ensures r.arr[ys + j] == TrueDigit(Seg(old(r.arr), 0, ys + j + 1), Moved(Y, j))
    ensures Seg(r.arr, 0, ys + j) == TrueRest(Seg(old(r.arr), 0, ys + j + 1), Moved(Y, j))
    ensures Seg(r.arr, ys + j + 1, r.t - (ys + j + 1)) ==
            Seg(old(r.arr), ys + j + 1, r.t - (ys + j + 1))
  {
    hide Seg, B, Moved, Divisor, BigInteger.Value, Estimate, RowSum, Raised;
    hide TrueDigit, TrueRest, TrialDigit, TrialRest;
    var i := ys + j;
    ghost var A, n := r.arr, r.t;
    ghost var R, u, b := Seg(A, 0, i + 1), Moved(Y, j), B(i);
    DivisorFacts(Y, ys, y0, yt);
    MovedInRange(Y, ys, y0, yt, j);
    EstimateInRange(A, Y, ys, y0, yt, j);
    SegBound(A, 0, i + 1);
    DigitAfter(R, u, b, DV);
    var qd := Estimate(r.arr[i], r.arr[i - 1], y0, yt);
    y.NonNegativeValue();
    var c := y.Am3(0, qd, r, j, 0, ys);
    FirstTry(A, r.arr, y.arr, Y, ys, j, qd, c, n);
    r.arr := r.arr[i := r.arr[i] + c];
    DigitAfter(R, u, b, qd);
    TopDigit(A, n, i);
    if r.arr[i] < qd {
      y.DlShiftTo(j, t);
      MovedNegated(Y, ys, j);
      r.NonNegativeValue();
      AddBack(A, n, i, R, u, b, qd);
      r.SubTo(t, r);
      qd := qd - 1;
      StoredDigits(A, r, n, i, R, u, b, qd);
      while r.arr[i] < qd
        modifies r
        invariant TrueDigit(R, u) <= qd < DV
        invariant r.Valid() && r.s == 0 && r.t == n
        invariant r.Value() == Raised(A, n, i, R, b - u, qd)
        invariant r.arr[i] == TrialDigit(R, u, b, qd) && Seg(r.arr, 0, i) == TrialRest(R, u, b, qd)
        invariant Seg(r.arr, i + 1, n - (i + 1)) == Seg(A, i + 1, n - (i + 1))
        decreases qd
      {
        DigitAfter(R, u, b, qd);
        AddBack(A, n, i, R, u, b, qd);
        r.SubTo(t, r);
        qd := qd - 1;
        StoredDigits(A, r, n, i, R, u, b, qd);
      }
      DigitAfter(R, u, b, qd);
    }
  }

  lemma TopDigit(A: Array, n: nat, i: nat)
    requires i < n && AreDigits(A, 0, n) && Digit(A, n - 1) != 0
    ensures n == i + 1 ==> Seg(A, 0, i + 1) >= B(i)
  {
    SegTop(A, 0, i);
    SegBound(A, 0, i);
    hide Seg, B;
    if n == i + 1 {
      MulLe(1, Digit(A, i), B(i));
    }
  }

  lemma EstimateInRange(A: Array, Y: int, ys: nat, y0: int, yt: int, j: nat)
    requires Divisor(Y, ys, y0, yt)
    requires AreDigits(A, 0, ys + j + 1) && Seg(A, 0, ys + j + 1) < Moved(Y, j + 1)
    ensures yt > 0
    ensures 0 < Moved(Y, j)
    ensures TrueDigit(Seg(A, 0, ys + j + 1), Moved(Y, j)) <= Estimate(A[ys + j], A[ys + j - 1], y0, yt) <= DV
  {
    hide Seg, Moved, Estimate;
    var i := ys + j;
    assert B(i) == DV * B(i - 1);
    hide B;
    MovedDivisor(Y, ys, y0, yt, j);
    SegTop(A, 0, i);
    SegTop(A, 0, i - 1);
    SegBound(A, 0, i - 1);
    SegBound(A, 0, i + 1);
    EstimateBounds(Seg(A, 0, i + 1), Moved(Y, j), B(i - 1), A[i], A[i - 1], Seg(A, 0, i - 1), y0, yt);
  }

  /** The number in r when the lower part of A, R, has been raised by k times z. */
  ghost function Raised(A: Array, n: nat, i: nat, R: int, z: int, k: int): int
    requires i < n
  {
    B(i + 1) * Seg(A, i + 1, n - (i + 1)) + (R + k * z)
  }

  /** The multiply-accumulate of the estimated digit. */
  lemma FirstTry(A: Array, W: Array, Yn: Array, Y: int, ys: nat, j: nat, qd: int, c: int, n: nat)
    requires ys > 0 && 0 < Moved(Y, j) < B(ys + j)
    requires n > ys + j && AreDigits(A, 0, n) && AreDigits(W, j, ys)
    requires SameOutside(W, A, j, j + ys) && RowSum(W, A, Yn, 0, j, ys, qd, 0, c)
    requires Seg(Yn, 0, ys) == B(ys) - Y && 0 <= c
    ensures var i := ys + j;
            var R, z := Seg(A, 0, i + 1), B(i) - Moved(Y, j);
            var W' := W[i := Digit(W, i) + c];
            && Digit(W, i) + c == TrialDigit(R, Moved(Y, j), B(i), qd)
            && Seg(W', 0, i) == TrialRest(R, Moved(Y, j), B(i), qd)
            && Seg(W', 0, n) == Raised(A, n, i, R, z, qd)
            && Seg(W', i + 1, n - (i + 1)) == Seg(A, i + 1, n - (i + 1))
            && AreDigits(W', 0, i)
  {
    hide Seg, B, Moved;
    var i := ys + j;
    var R, z := Seg(A, 0, i + 1), B(i) - Moved(Y, j);
    var W' := W[i := Digit(W, i) + c];
    MovedNegated(Y, ys, j);
    AddRow(A, W, j, ys, c, qd * (B(ys) - Y), i + 1);
    Assoc(qd, B(ys) - Y, B(j));
    assert Seg(W', 0, i + 1) == R + qd * z;
    SegTop(W', 0, i);
    assert AreDigits(W', 0, i);
    SegBound(W', 0, i);
    DivModUnique(R + qd * z, B(i), Digit(W', i), Seg(W', 0, i));
    SegSame(W', i + 1, A, i + 1, n - (i + 1));
    SegSplit(W', 0, i + 1, n - (i + 1));
  }

  lemma AddBack(A: Array, n: nat, i: nat, R: int, u: int, b: int, k: int)
    requires i < n
    ensures Raised(A, n, i, R, b - u, k) - (b - u) == Raised(A, n, i, R, b - u, k - 1)
  {
    hide Seg, B;
    Distrib(b - u, k, 1);
  }

  /** The digits of a number stored in shortest form are those of its value. */
  lemma StoredDigits(A: Array, r: BigInteger, n: nat, i: nat, R: int, u: int, b: int, k: int)
    requires i < n && AreDigits(A, 0, n) && Digit(A, n - 1) != 0
    requires R == Seg(A, 0, i + 1) && b == B(i) && 0 < u < b && R < DV * u
    requires TrueDigit(R, u) <= k <= DV && (k == DV ==> TrueDigit(R, u) < k)
    requires r.Valid() && r.Value() == Raised(A, n, i, R, b - u, k)
    ensures r.s == 0 && r.t == n
    ensures r.arr[i] == TrialDigit(R, u, b, k) && Seg(r.arr, 0, i) == TrialRest(R, u, b, k)
    ensures Seg(r.arr, i + 1, n - (i + 1)) == Seg(A, i + 1, n - (i + 1))
  {
    assert B(i + 1) == DV * b;
    hide Seg, B, BigInteger.Value, TrueDigit, TrialDigit, TrialRest;
    SegBound(A, 0, i + 1);
    DigitAfter(R, u, b, k);
    TopDigit(A, n, i);
    TrialBounds(R, u, b, k);
    var x := R + k * (b - u);
    RaisedIs(A, n, i, R, b - u, k, x);
    hide *;
    StoredParts(A, r, n, i, x);
    SplitTrial(r.arr, i, R, u, k, b, x);
  }

  /** The digits of a number that is A above digit i and x below. */
  lemma StoredParts(A: Array, r: BigInteger, n: nat, i: nat, x: int)
    requires i < n && AreDigits(A, 0, n) && Digit(A, n - 1) != 0
    requires 0 <= x < B(i + 1) && (n == i + 1 ==> x >= B(i))
    requires r.Valid() && r.Value() == B(i + 1) * Seg(A, i + 1, n - (i + 1)) + x
    ensures r.s == 0 && r.t == n && AreDigits(r.arr, 0, n) && Seg(r.arr, 0, i + 1) == x
    ensures Seg(r.arr, i + 1, n - (i + 1)) == Seg(A, i + 1, n - (i + 1))
  {
    var m := n - (i + 1);
    hide Seg, B, BigInteger.Value;
    SegBound(A, i + 1, m);
    RaisedBounds(A, n, i, x);
    r.SignOfValue();
    LengthOf(r, n);
    r.NonNegativeValue();
    SegDivMod(r.arr, 0, i + 1, m);
    DivModUnique(r.Value(), B(i + 1), Seg(A, i + 1, m), x);
  }

  lemma TrialBounds(R: int, u: int, b: int, k: int)
    requires b > 0 && 0 <= TrialDigit(R, u, b, k) < DV
    ensures 0 <= R + k * (b - u) < DV * b
    ensures TrialDigit(R, u, b, k) >= 1 ==> R + k * (b - u) >= b
  {
    DivMod(R + k * (b - u), b);
    MulLe((R + k * (b - u)) / b, DV - 1, b);
    MulLe(0, (R + k * (b - u)) / b, b);
    if TrialDigit(R, u, b, k) >= 1 {
      MulLe(1, (R + k * (b - u)) / b, b);
    }
  }

  lemma RaisedIs(A: Array, n: nat, i: nat, R: int, z: int, k: int, x: int)
    requires i < n && x == R + k * z
    ensures Raised(A, n, i, R, z, k) == B(i + 1) * Seg(A, i + 1, n - (i + 1)) + x
  {
  }

  lemma SplitTrial(a: Array, i: nat, R: int, u: int, k: int, b: int, x: int)
    requires AreDigits(a, 0, i + 1) && b == B(i) && x == R + k * (b - u) && Seg(a, 0, i + 1) == x
    ensures b > 0 && a[i] == TrialDigit(R, u, b, k) && Seg(a, 0, i) == TrialRest(R, u, b, k)
  {
    hide Seg, B;
    SegTop(a, 0, i);
    SegBound(a, 0, i);
    DivModUnique(Seg(a, 0, i + 1), B(i), a[i], Seg(a, 0, i));
  }

  /** Raising the lower part keeps the top digit non-zero. */
  lemma RaisedBounds(A: Array, n: nat, i: nat, x: int)
    requires i < n && AreDigits(A, 0, n) && Digit(A, n - 1) != 0
    requires 0 <= x < B(i + 1) && (n == i + 1 ==> x >= B(i))
    ensures B(n - 1) <= B(i + 1) * Seg(A, i + 1, n - (i + 1)) + x < B(n)
  {
    var m := n - (i + 1);
    if m == 0 {
      assert Seg(A, i + 1, 0) == 0;
    } else {
      hide Seg, B;
      SegBound(A, i + 1, m);
      SegBound(A, i + 1, m - 1);
      SegTop(A, i + 1, m - 1);
      BAdd(i + 1, m);
      BAdd(i + 1, m - 1);
      MulLe(1, Digit(A, n - 1), B(m - 1));
      BetweenMultiples(B(i + 1), B(m - 1), Seg(A, i + 1, m), B(m), x);
    }
  }

  lemma BetweenMultiples(w: int, e: int, s: int, f: int, x: int)
    requires 0 < w && e <= s < f && 0 <= x < w
    ensures w * e <= w * s + x < w * f
  {
    MulLe(e, s, w);
    MulLt(s, f, w);
  }

  // ----- all digits

  /** The rounds for j = j0 - 1 down to 0: the digits from ys on are the quotient, the digits
      below are the remainder. */
  method QuotientDigits(r: BigInteger, y: BigInteger, t: BigInteger, j0: nat, ys: nat, y0: int, yt: int,
                        ghost Y: int, ghost U: int)
    requires r != y && r != t && y != t
    requires Divisor(Y, ys, y0, yt)
    requires y.Wf() && y.s == 0 && y.t == ys && y.Value() == B(ys) - Y
    requires r.Valid() && r.s == 0 && r.t >= ys + j0
    requires 0 <= Seg(r.arr, 0, ys + j0) < Moved(Y, j0)
    requires U == Seg(r.arr, ys + j0, r.t - (ys + j0)) * Moved(Y, j0) + Seg(r.arr, 0, ys + j0)
    modifies r, t
    ensures r.Valid() && r.s == 0 && r.t == old(r.t)
    ensures Seg(r.arr, ys, r.t - ys) == U / Y && Seg(r.arr, 0, ys) == U % Y
  {
    hide Seg, B, Moved, Divisor, BigInteger.Value, TrueDigit, TrueRest;
    ghost var n := r.t;
    var j := j0;
    while j > 0
      modifies r, t
      invariant 0 <= j <= j0
      invariant r.Valid() && r.s == 0 && r.t == n
      invariant DivisionInv(r.arr, n, ys, j, Y, U)
    {
      j := j - 1;
      ghost var A := r.arr;
      DivisionRound(A, n, ys, j, Y, y0, yt, U);
      QuotientDigit(r, y, t, j, ys, y0, yt, Y);
      DivisionStep(A, r.arr, n, ys, j, Y, y0, yt, U);
    }
    DivisionEnd(r.arr, n, ys, Y, U);
  }

  ghost predicate DivisionInv(A: Array, n: nat, ys: nat, j: nat, Y: int, U: int)
  {
    && n >= ys + j
    && 0 <= Seg(A, 0, ys + j) < Moved(Y, j)
    && U == Seg(A, ys + j, n - (ys + j)) * Moved(Y, j) + Seg(A, 0, ys + j)
  }

  lemma DivisionRound(A: Array, n: nat, ys: nat, j: nat, Y: int, y0: int, yt: int, U: int)
    requires DivisionInv(A, n, ys, j + 1, Y, U)
    ensures n > ys + j && Seg(A, 0, ys + j + 1) < Moved(Y, j + 1)
  {
  }

  lemma DivisionStep(A: Array, A': Array, n: nat, ys: nat, j: nat, Y: int, y0: int, yt: int, U: int)
    requires Divisor(Y, ys, y0, yt) && DivisionInv(A, n, ys, j + 1, Y, U)
    requires 0 < Moved(Y, j)
    requires Digit(A', ys + j) == TrueDigit(Seg(A, 0, ys + j + 1), Moved(Y, j))
    requires Seg(A', 0, ys + j) == TrueRest(Seg(A, 0, ys + j + 1), Moved(Y, j))
    requires Seg(A', ys + j + 1, n - (ys + j + 1)) == Seg(A, ys + j + 1, n - (ys + j + 1))
    ensures DivisionInv(A', n, ys, j, Y, U)
  {
    hide Seg, B, Moved, Divisor;
    MovedInRange(Y, ys, y0, yt, j);
    var u, R, Q := Moved(Y, j), Seg(A, 0, ys + j + 1), Seg(A, ys + j + 1, n - (ys + j + 1));
    SegLow(A', ys + j, n - (ys + j));
    DivMod(R, u);
    assert Q * (DV * u) == (DV * Q) * u;
    Distrib(u, R / u, DV * Q);
  }

  lemma DivisionEnd(A: Array, n: nat, ys: nat, Y: int, U: int)
    requires DivisionInv(A, n, ys, 0, Y, U)
    ensures Seg(A, ys, n - ys) == U / Y && Seg(A, 0, ys) == U % Y
  {
    assert Moved(Y, 0) == Y;
    DivModUnique(U, Y, Seg(A, ys, n - ys), Seg(A, 0, ys));
  }

  // ----- the whole division

  ghost predicate Shorter(x: int, y: int) {
    NDigits(AbsInt(x)) < NDigits(AbsInt(y))
  }

  lemma BZero()
    ensures B(0) == 1
  {
  }

  lemma ShorterQuotient(x: int, y: int, n: nat, k: nat)
    requires n < k && AbsInt(x) < B(n) && B(k - 1) <= AbsInt(y)
    ensures TruncDiv(x, y) == 0 && TruncRem(x, y) == x
  {
    BMonotone(n, k - 1);
    DivModUnique(AbsInt(x), AbsInt(y), 0, AbsInt(x));
  }

  /** Copies or shifts both operands so that the divisor's top digit has its top bit set. */
  method Normalise(pm: BigInteger, pt: BigInteger, y: BigInteger, r: BigInteger) returns (ys: nat, nsh: nat)
    requires pm.Valid() && pm.s == 0 && pm.t > 0
    requires pt.Valid() && pt.s == 0 && pt.t >= pm.t
    requires y != pm && y != pt && y != r
    modifies y, r
    ensures y.Valid() && y.s == 0 && y.t == ys == old(pm.t)
    ensures r.Valid() && r.s == 0 && r.t >= ys
    ensures y.Value() == old(pm.Value()) * Pow2(nsh) && r.Value() == old(pt.Value()) * Pow2(nsh)
    ensures 0x800_0000 <= y.arr[ys - 1] && (nsh == 0 ==> Pow2(nsh) == 1)
  {
    hide Seg, B, BigInteger.Value, Pow2;
    ghost var A, T := pm.arr, pm.t;
    pm.NonNegativeValue();
    pt.SignOfValue();
    var nb := NBits(pm.arr[pm.t - 1]);
    BitsOfTop(A[T - 1], nb);
    nsh := DB - nb;
    ScaledBounds(A, T, pt.Value(), nb);
    BMonotone(T - 1, pt.t - 1);
    ghost var Y, U := Seg(A, 0, T) * Pow2(nsh), pt.Value() * Pow2(nsh);
    ShiftBoth(pm, pt, y, r, nsh, Y, U);
    LengthOf(y, T);
    LengthAtLeast(r, T);
    y.NonNegativeValue();
    TopDigitOf(y.arr, T);
    ys := y.t;
  }

  method ShiftBoth(pm: BigInteger, pt: BigInteger, y: BigInteger, r: BigInteger, nsh: nat, ghost Y: int, ghost U: int)
    requires pm.Valid() && pm.s == 0 && pt.Valid() && pt.s == 0
    requires y != pm && y != pt && y != r
    requires Y == pm.Value() * Pow2(nsh) && U == pt.Value() * Pow2(nsh)
    requires nsh == 0 ==> Pow2(nsh) == 1
    modifies y, r
    ensures y.Valid() && y.s == 0 && r.Valid() && r.s == 0 && y.Value() == Y && r.Value() == U
  {
    hide Seg, B, BigInteger.Value, Pow2;
    if nsh > 0 {
      pm.LShiftTo(nsh, y);
      pt.LShiftTo(nsh, r);
    } else {
      pm.CopyTo(y);
      pt.CopyTo(r);
    }
  }

  lemma LengthOf(y: BigInteger, n: nat)
    requires y.Valid() && y.s == 0 && n > 0 && B(n - 1) <= y.Value() < B(n)
    ensures y.t == n
  {
    hide Seg, B, BigInteger.Value;
    y.SignOfValue();
    NDigitsBounds(y.Value(), n);
  }

  lemma LengthAtLeast(r: BigInteger, n: nat)
    requires r.Valid() && r.s == 0 && n > 0 && B(n - 1) <= r.Value()
    ensures r.t >= n
  {
    hide Seg, B, BigInteger.Value;
    r.SignOfValue();
    if r.t < n {
      BMonotone(r.t, n - 1);
      assert false;
    }
  }

  lemma TopDigitOf(a: Array, n: nat)
    requires n > 0 && AreDigits(a, 0, n) && 0x800_0000 * B(n - 1) <= Seg(a, 0, n)
    ensures 0x800_0000 <= a[n - 1]
  {
    hide Seg, B;
    SegTop(a, 0, n - 1);
    SegBound(a, 0, n - 1);
    DivModUnique(Seg(a, 0, n), B(n - 1), a[n - 1], Seg(a, 0, n - 1));
    DivGe(Seg(a, 0, n), B(n - 1), 0x800_0000);
  }

  lemma BitsOfTop(top: int, nb: nat)
    requires 0 < top < DV && nb > 0 && Pow2(nb - 1) <= top < Pow2(nb)
    ensures nb <= DB && Pow2(DB - nb) * Pow2(nb) == DV && Pow2(0) == 1
    ensures Pow2(DB - nb) * Pow2(nb - 1) == 0x800_0000
  {
    Pow2Constants();
    if nb > DB {
      Pow2Monotone(DB, nb - 1);
      assert false;
    }
    Pow2Add(DB - nb, nb);
    Pow2Add(DB - nb, nb - 1);
    Pow2Add(1, 27);
  }

  lemma ScaledBounds(A: Array, n: nat, vt: int, nb: nat)
    requires n > 0 && AreDigits(A, 0, n) && 0 < nb <= DB && Pow2(nb - 1) <= A[n - 1] < Pow2(nb)
    requires Pow2(DB - nb) * Pow2(nb) == DV && Pow2(DB - nb) * Pow2(nb - 1) == 0x800_0000
    ensures 0x800_0000 * B(n - 1) <= Seg(A, 0, n) * Pow2(DB - nb) < B(n)
    ensures B(n - 1) <= Seg(A, 0, n) * Pow2(DB - nb)
    ensures B(n - 1) <= vt ==> B(n - 1) <= vt * Pow2(DB - nb)
  {
    assert B(n) == DV * B(n - 1);
    hide Seg, Pow2, B;
    SegTop(A, 0, n - 1);
    SegBound(A, 0, n - 1);
    var p, b, v := Pow2(DB - nb), B(n - 1), Seg(A, 0, n);
    Distrib(b, A[n - 1], 1);
    ScaledLow(A[n - 1], Pow2(nb - 1), b, v, p);
    ScaledHigh(A[n - 1], Pow2(nb), b, v, p);
    if b <= vt {
      ScaledLow(1, 1, b, vt, p);
      MulLe(1, p, b);
    }
  }

  lemma ScaledLow(top: int, e: int, b: int, v: int, p: int)
    requires e <= top && 0 < b && 0 < p && top * b <= v
    ensures (p * e) * b <= v * p
  {
    MulLe(e, top, b);
    MulLe(e * b, v, p);
    assert (e * b) * p == (p * e) * b;
  }

  lemma ScaledHigh(top: int, f: int, b: int, v: int, p: int)
    requires top < f && 0 < b && 0 < p && v < (top + 1) * b
    ensures v * p < (p * f) * b
  {
    MulLe(top + 1, f, b);
    MulLt(v, f * b, p);
    assert (f * b) * p == (p * f) * b;
  }

  /** The leading digit and the leading 52 bits of a normalised divisor. */
  lemma LeadingBits(A: Array, ys: nat)
    requires ys > 0 && AreDigits(A, 0, ys) && 0x800_0000 <= A[ys - 1]
    ensures Divisor(Seg(A, 0, ys), ys, A[ys - 1],
                    A[ys - 1] * F1 + (if ys > 1 then Shr(A[ys - 2], 4) else 0))
  {
    var y0, b := A[ys - 1], B(ys - 1);
    assert B(ys) == DV * b;
    SegTop(A, 0, ys - 1);
    SegBound(A, 0, ys - 1);
    if ys > 1 {
      var y1 := A[ys - 2];
      SegTop(A, 0, ys - 2);
      SegBound(A, 0, ys - 2);
      assert b == DV * B(ys - 2);
      Pow2Constants();
      ToInt32Small(y1);
      hide Seg, B, Pow2;
      DivMod(y1, 16);
      LeadingProducts(y0, y1 / 16, y1, b, B(ys - 2));
    }
    hide Seg, B, Pow2;
    MulLe(0x800_0000, y0, b);
    MulLe(y0 + 1, DV, b);
    LeadingProducts(y0, 0, 0, b, 0);
  }

  lemma LeadingProducts(y0: int, h: int, y1: int, b: int, b2: int)
    requires 16 * h <= y1 && b >= 0 && b2 >= 0 && (b == DV * b2 || h == 0 == y1)
    ensures (y0 * F1 + h) * b <= F1 * (y0 * b + y1 * b2)
    ensures (y0 + 1) * b == y0 * b + b
  {
    MulLe(16 * h, y1, b2);
    assert (y0 * F1 + h) * b == F1 * (y0 * b) + h * b;
    assert F1 * (y0 * b + y1 * b2) == F1 * (y0 * b) + F1 * (y1 * b2);
    if b == DV * b2 {
      assert h * b == F1 * ((16 * h) * b2);
    }
  }

  /** The division of the normalised operands: the quotient ends up in the digits of r from ys
      on, the remainder below. */
  method DivideNormalised(r: BigInteger, y: BigInteger, t: BigInteger, ys: nat, y0: int, yt: int)
    requires r != y && r != t && y != t
    requires y.Valid() && y.s == 0 && y.t == ys && Divisor(y.Value(), ys, y0, yt)
    requires r.Valid() && r.s == 0 && r.t >= ys
    modifies r, y, t
    ensures r.Valid() && r.s == 0 && r.t >= ys
    ensures Seg(r.arr, ys, r.t - ys) == old(r.Value()) / old(y.Value())
    ensures Seg(r.arr, 0, ys) == old(r.Value()) % old(y.Value())
  {
    hide Seg, B, BigInteger.Value, Divisor, Moved;
    ghost var Y, U := y.Value(), r.Value();
    var j := r.t - ys;
    y.DlShiftTo(j, t);
    DivisorFacts(Y, ys, y0, yt);
    MovedDivisor(Y, ys, y0, yt, j);
    r.SignOfValue();
    r.NonNegativeValue();
    t.SignOfValue();
    ghost var n := r.t;
    MovedIsProduct(Y, j);
    var cmp := r.CompareTo(t);
    if cmp >= 0 {
      PushOne(r.arr, r.t);
      r.arr := r.arr[r.t := 1];
      r.t := r.t + 1;
      r.NonNegativeValue();
      r.SubTo(t, r);
      PushedDigits(r, n, U - Moved(Y, j));
      SegOne(r.arr, n);
    } else {
      SegEmpty(r.arr, n);
    }
    NegateDivisor(y, t, ys);
    QuotientDigits(r, y, t, j, ys, y0, yt, Y, U);
  }

  lemma DivisorFacts(Y: int, ys: nat, y0: int, yt: int)
    requires Divisor(Y, ys, y0, yt)
    ensures ys > 0 && 0 < Y < B(ys)
  {
  }

  lemma MovedIsProduct(Y: int, j: nat)
    ensures Y * B(j) == Moved(Y, j)
  {
  }

  lemma SegEmpty(a: Array, n: nat)
    ensures Seg(a, n, 0) == 0
  {
  }

  lemma PushOne(a: Array, n: nat)
    ensures Seg(a[n := 1], 0, n + 1) == Seg(a, 0, n) + B(n)
  {
    hide Seg, B;
    SegUpdate(a, n, 1, 0, n);
    SegTop(a[n := 1], 0, n);
  }

  lemma PushedDigits(r: BigInteger, n: nat, d: int)
    requires r.Valid() && r.Value() == B(n) + d && 0 <= d < B(n)
    ensures r.s == 0 && r.t == n + 1 && r.arr[n] == 1 && Seg(r.arr, 0, n) == d
  {
    assert B(n + 1) == DV * B(n);
    hide Seg, B, BigInteger.Value;
    r.SignOfValue();
    LengthOf(r, n + 1);
    r.NonNegativeValue();
    SplitTop(r.arr, n, d);
  }

  lemma SplitTop(a: Array, n: nat, d: int)
    requires AreDigits(a, 0, n + 1) && Seg(a, 0, n + 1) == B(n) + d && 0 <= d < B(n)
    ensures a[n] == 1 && Seg(a, 0, n) == d
  {
    hide Seg, B;
    SegTop(a, 0, n);
    SegBound(a, 0, n);
    DivModUnique(Seg(a, 0, n + 1), B(n), a[n], Seg(a, 0, n));
    DivModUnique(Seg(a, 0, n + 1), B(n), 1, d);
  }

  /** y := B(ys) - y, padded to ys digits, so that multiply-accumulate can subtract. */
  method NegateDivisor(y: BigInteger, t: BigInteger, ys: nat)
    requires y != t && y.Valid() && y.s == 0 && 0 < y.Value() < B(ys)
    modifies y, t
    ensures y.Wf() && y.s == 0 && y.t == ys && y.Value() == B(ys) - old(y.Value())
  {
    hide Seg, B, BigInteger.Value;
    var one := new BigInteger();
    one.FromInt(1);
    one.DlShiftTo(ys, t);
    t.SubTo(y, y);
    y.SignOfValue();
    if y.t > ys {
      BMonotone(ys, y.t - 1);
      assert false;
    }
    y.NonNegativeValue();
    while y.t < ys
      modifies y
      invariant y.Wf() && y.s == 0 && y.t <= ys && Seg(y.arr, 0, y.t) == B(ys) - old(y.Value())
    {
      SegUpdate(y.arr, y.t, 0, 0, y.t);
      SegTop(y.arr[y.t := 0], 0, y.t);
      y.arr := y.arr[y.t := 0];
      y.t := y.t + 1;
    }
    y.NonNegativeValue();
  }

  lemma UndoNormalisation(v: int, m: int, p: int)
    requires v >= 0 && m > 0 && p > 0
    ensures m * p > 0 && (v * p) / (m * p) == v / m && (v * p) % (m * p) == (v % m) * p
    ensures ((v % m) * p) / p == v % m
  {
    DivMod(v, m);
    MulLt(0, m, p);
    MulLt(v % m, m, p);
    MulNonneg(v % m, p);
    assert v * p == (m * p) * (v / m) + (v % m) * p by {
      assert (m * (v / m) + v % m) * p == (m * (v / m)) * p + (v % m) * p;
      assert (m * (v / m)) * p == (m * p) * (v / m);
    }
    DivModUnique(v * p, m * p, v / m, (v % m) * p);
    DivModUnique((v % m) * p, p, v % m, 0);
  }

  /** Divides self by m into q and r0, either of which may be absent.  The result objects may be
      the operands, with one exception the code does not survive: when q is self and self is
      the shorter operand, q is cleared before self is copied, so the remainder becomes 0. */
  method DivRemTo(self: BigInteger, m: BigInteger, q: BigInteger?, r0: BigInteger?)
    requires self.Valid() && m.Valid()
    requires q != null ==> q != r0
    modifies if q != null then {q} else {}, if r0 != null then {r0} else {}
    ensures old(m.Value()) == 0 ==> (q != null ==> unchanged(q)) && (r0 != null ==> unchanged(r0))
    ensures old(m.Value()) != 0 && q != null ==>
              q.Valid() && q.Value() == TruncDiv(old(self.Value()), old(m.Value()))
    ensures old(m.Value()) != 0 && r0 != null ==>
              r0.Valid() && r0.Value() == if q == self && Shorter(old(self.Value()), old(m.Value())) then 0
                                          else TruncRem(old(self.Value()), old(m.Value()))
  {
    hide Seg, B, BigInteger.Value, TruncDiv, TruncRem, NDigits;
    ghost var V, M := self.Value(), m.Value();
    self.SignOfValue();
    m.SignOfValue();
    var pm := m.Abs();
    pm.SignOfValue();
    BZero();
    if pm.t <= 0 {
      return;
    }
    var pt := self.Abs();
    pt.SignOfValue();
    if pt.t < pm.t {
      ShorterQuotient(V, M, pt.t, pm.t);
      if q != null {
        q.FromInt(0);
      }
      if r0 != null {
        self.CopyTo(r0);
      }
      return;
    }
    LongDivision(pm, pt, self.s, m.s, q, r0, V, M);
  }

  /** 1 by 2^28, with the quotient written over the dividend: the remainder left is 0, not 1. */
  method RemainderLost() returns (m: BigInteger, r: BigInteger)
    ensures m.Valid() && m.Value() == DV && r.Valid() && r.Value() == 0 && TruncRem(1, m.Value()) == 1
  {
    var x := new BigInteger();
    x.FromInt(1);
    m := new BigInteger();
    x.DlShiftTo(1, m);
    r := new BigInteger();
    assert Shorter(1, DV) by {
      assert NDigits(1 / DV) == 0 && NDigits(DV / DV) == 1;
    }
    BZero();
    DivRemTo(x, m, x, r);
  }

  /** Division of operands of which the divisor is not longer, both non-negative by now. */
  method LongDivision(pm: BigInteger, pt: BigInteger, ts: int, ms: int, q: BigInteger?, r0: BigInteger?,
                      ghost V: int, ghost M: int)
    requires pm.Valid() && pm.s == 0 && pm.t > 0 && pt.Valid() && pt.s == 0 && pt.t >= pm.t
    requires q != null ==> q != r0
    requires pt.Value() == AbsInt(V) && pm.Value() == AbsInt(M) && M != 0
    requires (ts == 0 || ts == -1) && (ms == 0 || ms == -1) && (ts < 0 <==> V < 0) && (ms < 0 <==> M < 0)
    modifies if q != null then {q} else {}, if r0 != null then {r0} else {}
    ensures q != null ==> q.Valid() && q.Value() == TruncDiv(V, M)
    ensures r0 != null ==> r0.Valid() && r0.Value() == TruncRem(V, M)
  {
    hide Seg, B, BigInteger.Value, Divisor, TruncDiv, TruncRem;
    var r: BigInteger;
    if r0 == null {
      r := new BigInteger();
    } else {
      r := r0;
    }
    var y := new BigInteger();
    var ys, nsh := Normalise(pm, pt, y, r);
    y.NonNegativeValue();
    LeadingBits(y.arr, ys);
    UndoNormalisation(AbsInt(V), AbsInt(M), Pow2(nsh));
    var y0 := y.arr[ys - 1];
    var yt := y0 * F1 + (if ys > 1 then Shr(y.arr[ys - 2], 4) else 0);
    var t: BigInteger;
    if q == null {
      t := new BigInteger();
    } else {
      t := q;
    }
    DivideNormalised(r, y, t, ys, y0, yt);
    Finish(r, q, ys, nsh, ts, ms, V, M);
  }

  /** Splits the digits into quotient and remainder, and gives them their signs. */
  method Finish(r: BigInteger, q: BigInteger?, ys: nat, nsh: nat, ts: int, ms: int, ghost V: int, ghost M: int)
    requires r.Valid() && r.s == 0 && r.t >= ys && q != r && M != 0
    requires (ts == 0 || ts == -1) && (ms == 0 || ms == -1) && (ts < 0 <==> V < 0) && (ms < 0 <==> M < 0)
    requires Seg(r.arr, ys, r.t - ys) == AbsInt(V) / AbsInt(M)
    requires Seg(r.arr, 0, ys) == (AbsInt(V) % AbsInt(M)) * Pow2(nsh)
    requires nsh == 0 ==> Pow2(nsh) == 1
    modifies r, if q != null then {q} else {}
    ensures q != null ==> q.Valid() && q.Value() == TruncDiv(V, M)
    ensures r.Valid() && r.Value() == TruncRem(V, M)
  {
    hide Seg, B, BigInteger.Value;
    r.NonNegativeValue();
    SegDivMod(r.arr, 0, ys, r.t - ys);
    UndoNormalisation(AbsInt(V), AbsInt(M), Pow2(nsh));
    if q != null {
      r.DrShiftTo(ys, q);
      if ts != ms {
        var zero := new BigInteger();
        zero.SubTo(q, q);
      }
    }
    r.t := ys;
    r.NonNegativeValue();
    r.Clamp();
    if nsh > 0 {
      r.RShiftTo(nsh, r);
    }
    if ts < 0 {
      var zero := new BigInteger();
      zero.SubTo(r, r);
    }
  }

  // ----- a dividend that is not in shortest form

  lemma {:induction false} ZeroDigits(a: Array, lo: int, n: nat)
    requires AreDigits(a, lo, n) && Seg(a, lo, n) == 0
    ensures forall k :: lo <= k < lo + n ==> a[k] == 0
  {
    if n == 0 {
    } else {
      SegBound(a, lo, n - 1);
      MulLe(0, a[lo + n - 1], B(n - 1));
      if a[lo + n - 1] > 0 {
        MulLe(1, a[lo + n - 1], B(n - 1));
      }
      ZeroDigits(a, lo, n - 1);
    }
  }

  /** divRemTo(m, null, r) on r itself when r is a zero written with as many digits as m, the
      one dividend in other than shortest form that the reducers produce.  After normalising,
      r has no digits and the shifts go to negative positions; the comparison then pushes a 1,
      which the final shift right removes again.  No digit round takes place. */
  method DivRemPaddedZero(r: BigInteger, m: BigInteger)
    requires r != m && m.Valid() && m.s == 0 && m.t > 0
    requires r.Wf() && r.s == 0 && r.t == m.t && r.Value() == 0
    modifies r
    ensures r.Valid() && r.Value() == 0
  {
    hide Seg, B, BigInteger.Value, Pow2;
    m.NonNegativeValue();
    m.SignOfValue();
    r.NonNegativeValue();
    BZero();
    var nb := NBits(m.arr[m.t - 1]);
    BitsOfTop(m.arr[m.t - 1], nb);
    var nsh := DB - nb;
    ScaledBounds(m.arr, m.t, 0, nb);
    var y := new BigInteger();
    var t := new BigInteger();
    if nsh > 0 {
      m.LShiftTo(nsh, y);
      r.LShiftTo(nsh, r);
      r.SignOfValue();
      ZeroDigits(r.arr, 0, m.t + 1);
    } else {
      m.CopyTo(y);
      r.CopyTo(r);
    }
    LengthOf(y, m.t);
    var ys := y.t;
    var j := r.t - ys;
    y.DlShiftTo(j, t);
    t.NonNegativeValue();
    r.NonNegativeValue();
    SegEmpty(t.arr, 0);
    var cmp := r.CompareTo(t);
    if cmp >= 0 {
      PaddedCompare(nsh, r, t, y.Value(), j);
      PushOnZero(r, t, ys);
    }
    y.SignOfValue();
    NegateDivisor(y, t, ys);
    r.t := ys;
    r.NonNegativeValue();
    r.Clamp();
    if nsh > 0 {
      AtLeastTwo(nsh);
      r.RShiftTo(nsh, r);
    }
  }

  /** The step that pushes a top digit and subtracts, on two numbers without digits. */
  method PushOnZero(r: BigInteger, t: BigInteger, ghost ys: nat)
    requires r != t && r.Wf() && r.s == 0 && r.t == 0 && t.Wf() && t.s == 0 && t.t == 0 && ys > 0
    requires forall k :: 0 <= k < ys ==> k in r.arr && r.arr[k] == 0
    modifies r
    ensures r.s == 0 && AreDigits(r.arr, 0, ys) && Seg(r.arr, 0, ys) == 1
  {
    hide Seg, B, BigInteger.Value;
    r.NonNegativeValue();
    t.NonNegativeValue();
    SegEmpty(t.arr, 0);
    SegEmpty(r.arr, 0);
    BOne();
    PushOne(r.arr, r.t);
    r.arr := r.arr[r.t := 1];
    r.t := r.t + 1;
    r.NonNegativeValue();
    r.SubTo(t, r);
    r.SignOfValue();
    LengthOf(r, 1);
    r.NonNegativeValue();
    SegOne(r.arr, 0);
    SegLow(r.arr, 0, ys);
    SegZero(r.arr, 1, ys - 1);
  }

  lemma AtLeastTwo(n: nat)
    requires n > 0
    ensures Pow2(n) >= 2 && 1 / Pow2(n) == 0 && 0 / Pow2(n) == 0
  {
    Pow2Monotone(1, n);
    DivModUnique(1, Pow2(n), 0, 1);
    DivModUnique(0, Pow2(n), 0, 0);
  }

  /** The comparison succeeds only when nothing is left of either side. */
  lemma PaddedCompare(nsh: nat, r: BigInteger, t: BigInteger, Y: int, j: int)
    requires r.Value() == 0 && Y > 0 && (j >= 0 ==> t.Value() == Y * B(j))
    requires r.Value() >= t.Value() && (nsh == 0 ==> j == 0)
    ensures nsh > 0 && j < 0
  {
    if j >= 0 {
      MulLt(0, Y, B(j));
      assert false;
    }
  }
}
