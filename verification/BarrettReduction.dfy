/** Barrett reduction: the quotient by m is estimated from two truncated products with a
    precomputed reciprocal, and the small error is repaired by subtractions. */
module BarrettReduction {
  import opened Arith
  import opened Digits
  import opened BigIntegers
  import opened Division
  import opened Modular

  // ----- the low half of a product

  /** r := self * a modulo B(n). */
  method MultiplyLowerTo(self: BigInteger, a: BigInteger, n: nat, r: BigInteger)
    requires self.Valid() && self.s == 0 && a.Valid() && a.s == 0 && a.t <= n
    requires r != self && r != a
    modifies r
    ensures r.Valid() && r.s == 0 && r.Value() == (self.Value() * a.Value()) % B(n)
  {
    hide Seg, B, BigInteger.Value, RowSum, Times, LowerInv;
    self.NonNegativeValue();
    a.NonNegativeValue();
    ghost var X, T, Y := self.arr, self.t, a.arr;
    var i := if self.t + a.t < n then self.t + a.t else n;
    r.s := 0;
    r.t := i;
    r.ClearDigits(i);
    i := 0;
    LowerStart(X, T, Y, r.arr, r.t);
    var j := r.t - self.t;
    while i < j
      modifies r`arr
      invariant 0 <= i && (i <= j || i == 0)
      invariant AreDigits(r.arr, 0, r.t) && LowerInv(X, T, Y, r.arr, r.t, i)
      invariant i + T < r.t ==> forall k :: i + T <= k < r.t ==> r.arr[k] == 0
    {
      FullRow(self, a, r, i);
      i := i + 1;
    }
    j := if a.t < n then a.t else n;
    assert j == a.t;
    while i < j
      modifies r`arr
      invariant 0 <= i <= j && (i < j ==> r.t == n && n - i <= T)
      invariant AreDigits(r.arr, 0, r.t) && LowerInv(X, T, Y, r.arr, r.t, i)
    {
      PartRow(self, a, n, r, i);
      i := i + 1;
    }
    LowerEnd(X, T, Y, r.arr, r.t, a.t, n);
    r.NonNegativeValue();
    r.Clamp();
    r.SignOfValue();
  }

  /** A row that fits below digit n, with its carry. */
  method FullRow(self: BigInteger, a: BigInteger, r: BigInteger, i: nat)
    requires self.Wf() && a.Wf() && i < a.t && r != self && r != a && i + self.t < r.t
    requires AreDigits(r.arr, 0, r.t) && LowerInv(self.arr, self.t, a.arr, r.arr, r.t, i)
    requires forall k :: i + self.t <= k < r.t ==> r.arr[k] == 0
    modifies r`arr
    ensures AreDigits(r.arr, 0, r.t) && LowerInv(self.arr, self.t, a.arr, r.arr, r.t, i + 1)
    ensures forall k :: i + self.t < k < r.t ==> r.arr[k] == 0
  {
    hide Seg, B, BigInteger.Value, RowSum, Times, LowerInv;
    ghost var W := r.arr;
    var c := self.Am3(0, a.arr[i], r, i, 0, self.t);
    LowerFullRow(self.arr, self.t, a.arr, W, r.arr, r.t, c, i);
    r.arr := r.arr[i + self.t := c];
  }

  /** A row of which only the digits below digit n are added. */
  method PartRow(self: BigInteger, a: BigInteger, n: nat, r: BigInteger, i: nat)
    requires self.Wf() && a.Wf() && i < a.t <= n && r != self && r != a && r.t == n && n - i <= self.t
    requires AreDigits(r.arr, 0, r.t) && LowerInv(self.arr, self.t, a.arr, r.arr, r.t, i)
    modifies r`arr
    ensures AreDigits(r.arr, 0, r.t) && LowerInv(self.arr, self.t, a.arr, r.arr, r.t, i + 1)
  {
    hide Seg, B, BigInteger.Value, RowSum, Times, LowerInv;
    ghost var W := r.arr;
    var c := self.Am3(0, a.arr[i], r, i, 0, n - i);
    LowerPartRow(self.arr, self.t, a.arr, W, r.arr, n, c, i);
  }

  /** The rows so far are exact up to a multiple of B(n). */
  ghost predicate LowerInv(X: Array, T: nat, Y: Array, w: Array, n: nat, i: nat) {
    Congruent(Seg(X, 0, T) * Seg(Y, 0, i), Seg(w, 0, n), B(n))
  }

  lemma LowerStart(X: Array, T: nat, Y: Array, w: Array, n: nat)
    requires forall k :: 0 <= k < n ==> k in w && w[k] == 0
    ensures LowerInv(X, T, Y, w, n, 0)
  {
    SegZero(w, 0, n);
  }

  lemma LowerFullRow(X: Array, T: nat, Y: Array, w: Array, w': Array, n: nat, c: int, i: nat)
    requires i + T < n && LowerInv(X, T, Y, w, n, i) && Digit(w, i + T) == 0
    requires SameOutside(w', w, i, i + T) && RowSum(w', w, X, 0, i, T, Digit(Y, i), 0, c)
    ensures LowerInv(X, T, Y, w'[i + T := c], n, i + 1)
  {
    hide Seg, B, Congruent;
    var x, y := Seg(X, 0, T), Digit(Y, i);
    AddRow(w, w', i, T, c, y * x, n);
    SegTop(Y, 0, i);
    RowOfProduct(x, y, Seg(Y, 0, i), B(i));
    AddBoth(x * Seg(Y, 0, i), Seg(w, 0, n), B(n), (y * x) * B(i));
  }

  lemma LowerPartRow(X: Array, T: nat, Y: Array, w: Array, w': Array, n: nat, c: int, i: nat)
    requires i < n && n - i <= T && LowerInv(X, T, Y, w, n, i)
    requires SameOutside(w', w, i, n) && RowSum(w', w, X, 0, i, n - i, Digit(Y, i), 0, c)
    ensures LowerInv(X, T, Y, w', n, i + 1)
  {
    hide Seg, B, Congruent;
    var x, y, m := Seg(X, 0, T), Digit(Y, i), n - i;
    var low, high := Seg(X, 0, m), Seg(X, m, T - m);
    AddAt(w, w', i, m, c, y * low);
    SegSplit(X, 0, m, T - m);
    SegTop(Y, 0, i);
    RowOfProduct(x, y, Seg(Y, 0, i), B(i));
    BAdd(i, m);
    AddBoth(x * Seg(Y, 0, i), Seg(w, 0, n), B(n), (y * x) * B(i));
    PartRowProducts(y, low, high, B(i), B(m), c);
    var v := Seg(w, 0, n) + (y * x) * B(i);
    CongruentByMultiple(v, Seg(w', 0, n), B(n), y * high + c);
    Chain(x * Seg(Y, 0, i + 1), v, Seg(w', 0, n), B(n));
  }

  lemma PartRowProducts(y: int, low: int, high: int, b: int, e: int, c: int)
    ensures (y * (low + e * high)) * b + c * (b * e) == (y * low) * b + (b * e) * (y * high + c)
  {
    Distrib(y, low, e * high);
    assert (y * (e * high)) * b == (b * e) * (y * high);
    Distrib(b, y * low, y * (e * high));
    Distrib(b * e, y * high, c);
  }

  lemma Chain(x: int, y: int, z: int, m: int)
    requires m > 0 && Congruent(x, y, m) && Congruent(y, z, m)
    ensures Congruent(x, z, m)
  {
  }

  lemma RowOfProduct(x: int, y: int, s: int, b: int)
    ensures x * (s + y * b) == x * s + (y * x) * b
  {
    Distrib(x, s, y * b);
    assert x * (y * b) == (y * x) * b;
  }

  lemma AddBoth(x: int, y: int, m: int, d: int)
    requires m > 0 && Congruent(x, y, m)
    ensures Congruent(x + d, y + d, m)
  {
    var k := CongruentMultiple(x, y, m);
    CongruentByMultiple(x + d, y + d, m, k);
  }

  lemma LowerEnd(X: Array, T: nat, Y: Array, w: Array, wt: nat, U: nat, n: nat)
    requires AreDigits(X, 0, T) && AreDigits(Y, 0, U) && AreDigits(w, 0, wt)
    requires wt == if T + U < n then T + U else n
    requires LowerInv(X, T, Y, w, wt, U)
    ensures Seg(w, 0, wt) == (Seg(X, 0, T) * Seg(Y, 0, U)) % B(n)
  {
    hide Seg, B;
    SegBound(w, 0, wt);
    SegBound(X, 0, T);
    SegBound(Y, 0, U);
    var p := Seg(X, 0, T) * Seg(Y, 0, U);
    DivModUnique(Seg(w, 0, wt), B(wt), 0, Seg(w, 0, wt));
    if T + U < n {
      ProductBound(Seg(X, 0, T), B(T), Seg(Y, 0, U), B(U));
      BAdd(T, U);
      DivModUnique(p, B(wt), 0, p);
      BMonotone(wt, n);
      DivModUnique(p, B(n), 0, p);
    }
  }

  lemma ProductBound(x: int, b: int, y: int, e: int)
    requires 0 <= x < b && 0 <= y < e
    ensures 0 <= x * y < b * e
  {
    MulLe(0, x, y);
    MulLe(x, b, y);
    MulLt(y, e, b);
  }

  // ----- the high half of a product

  /** The sum over the digits of a of the digit times what is left of X without its n - i low
      digits: the columns of the product from n on, counted from column n. */
  ghost function Upper(X: Array, T: nat, Y: Array, n: nat, i: nat): int
    requires i <= n + 1
  {
    if i == 0 then 0
    else Upper(X, T, Y, n, i - 1) + Digit(Y, i - 1) * (if n - (i - 1) < T then Seg(X, n - (i - 1), T - (n - (i - 1))) else 0)
  }

  /** Ignoring the columns below n costs less than one unit of 2^28 per digit of a. */
  lemma {:induction false} UpperError(X: Array, T: nat, Y: Array, n: nat, i: nat)
    requires i <= n + 1 && AreDigits(X, 0, T) && AreDigits(Y, 0, i)
    ensures 0 <= Seg(X, 0, T) * Seg(Y, 0, i) - B(n) * Upper(X, T, Y, n, i) <= B(n) * (DV * i)
  {
    if i == 0 {
      assert Seg(Y, 0, 0) == 0;
    } else {
      UpperError(X, T, Y, n, i - 1);
      UpperTerm(X, T, n, i - 1, Digit(Y, i - 1));
      SegTop(Y, 0, i - 1);
      var x, y, s, b, u := Seg(X, 0, T), Digit(Y, i - 1), Seg(Y, 0, i - 1), B(i - 1), Upper(X, T, Y, n, i - 1);
      var h := if n - (i - 1) < T then Seg(X, n - (i - 1), T - (n - (i - 1))) else 0;
      assert Upper(X, T, Y, n, i) == u + y * h;
      hide Seg, B, Upper;
      RowOfProduct(x, y, s, b);
      Distrib(B(n), u, y * h);
      Distrib(B(n), DV * (i - 1), DV);
    }
  }

  /** One term: the digit times the part of X that column n cuts off. */
  lemma UpperTerm(X: Array, T: nat, n: nat, i: nat, y: int)
    requires i <= n && AreDigits(X, 0, T) && 0 <= y < DV
    ensures var h := if n - i < T then Seg(X, n - i, T - (n - i)) else 0;
            0 <= (y * Seg(X, 0, T)) * B(i) - B(n) * (y * h) <= B(n) * DV
  {
    hide Seg, B;
    var m := n - i;
    var h := if m < T then Seg(X, m, T - m) else 0;
    var low := Seg(X, 0, T) - B(m) * h;
    BAdd(m, i);
    SegBound(X, 0, T);
    if m < T {
      SegSplit(X, 0, m, T - m);
      SegBound(X, 0, m);
    } else {
      BMonotone(T, m);
    }
    assert 0 <= low < B(m);
    TermProducts(y, B(m), h, low, B(i));
  }

  lemma TermProducts(y: int, bm: int, h: int, low: int, bi: int)
    requires 0 <= y < DV && 0 <= low < bm && 0 < bi
    ensures 0 <= (y * (low + bm * h)) * bi - (bm * bi) * (y * h) <= (bm * bi) * DV
  {
    assert (y * (low + bm * h)) * bi == (y * low) * bi + (bm * bi) * (y * h) by {
      Distrib(y, low, bm * h);
      Distrib(bi, y * low, y * (bm * h));
      assert (y * (bm * h)) * bi == (bm * bi) * (y * h);
    }
    MulNonneg(y, low);
    MulNonneg(y * low, bi);
    MulLe(y, DV, low);
    MulLe(low, bm, DV);
    MulLe(y * low, DV * bm, bi);
    assert (DV * bm) * bi == (bm * bi) * DV;
  }

  /** r := the columns of self * a from n0 on, dropping also the carries from the columns below
      n0 - 1. */
  method MultiplyUpperTo(self: BigInteger, a: BigInteger, n0: nat, r: BigInteger)
    requires self.Valid() && self.s == 0 && a.Valid() && a.s == 0
    requires 0 < n0 && a.t <= n0 <= self.t + a.t + 1
    requires r != self && r != a
    modifies r
    ensures r.Valid() && r.s == 0
    ensures r.Value() == Upper(self.arr, self.t, a.arr, n0 - 1, a.t) / DV
  {
    hide Seg, B, BigInteger.Value, Upper;
    var n := n0 - 1;
    r.t := self.t + a.t - n;
    r.s := 0;
    r.ClearDigits(r.t);
    UpperRows(self, a, n, r);
    r.NonNegativeValue();
    r.Clamp();
    r.DrShiftTo(1, r);
    BOne();
  }

  method UpperRows(self: BigInteger, a: BigInteger, n: nat, r: BigInteger)
    requires self.Wf() && a.Wf() && a.t <= n + 1 && n <= self.t + a.t
    requires r != self && r != a && forall k :: 0 <= k < self.t + a.t - n ==> k in r.arr && r.arr[k] == 0
    modifies r`arr
    ensures AreDigits(r.arr, 0, self.t + a.t - n)
    ensures Seg(r.arr, 0, self.t + a.t - n) == Upper(self.arr, self.t, a.arr, n, a.t)
  {
    hide Seg, B, RowSum, Upper;
    ghost var X, T, Y := self.arr, self.t, a.arr;
    var i := if n - self.t > 0 then n - self.t else 0;
    UpperStart(X, T, Y, n, i, r.arr);
    while i < a.t
      invariant 0 <= i <= a.t && 0 <= T + i - n
      invariant AreDigits(r.arr, 0, T + i - n) && Seg(r.arr, 0, T + i - n) == Upper(X, T, Y, n, i)
      invariant forall k :: T + i - n <= k < T + a.t - n ==> k in r.arr && r.arr[k] == 0
    {
      ghost var W := r.arr;
      var c := self.Am3(n - i, a.arr[i], r, 0, 0, self.t + i - n);
      UpperRow(X, T, Y, n, i, W, r.arr, c);
      r.arr := r.arr[self.t + i - n := c];
      i := i + 1;
    }
  }

  lemma UpperStart(X: Array, T: nat, Y: Array, n: nat, i: nat, w: Array)
    requires i <= n + 1 && i == (if n - T > 0 then n - T else 0)
    requires forall k :: 0 <= k < T + i - n ==> k in w && w[k] == 0
    ensures Seg(w, 0, T + i - n) == Upper(X, T, Y, n, i)
  {
    UpperOfFirst(X, T, Y, n, i);
    SegZero(w, 0, T + i - n);
  }

  lemma {:induction false} UpperOfFirst(X: Array, T: nat, Y: Array, n: nat, i: nat)
    requires i <= n + 1 && (i > 0 ==> T + i <= n)
    ensures Upper(X, T, Y, n, i) == 0
  {
    if i == 0 {
    } else {
      UpperOfFirst(X, T, Y, n, i - 1);
    }
  }

  lemma UpperRow(X: Array, T: nat, Y: Array, n: nat, i: nat, w: Array, w': Array, c: int)
    requires i <= n && 0 <= T + i - n
    requires SameOutside(w', w, 0, T + i - n)
    requires RowSum(w', w, X, n - i, 0, T + i - n, Digit(Y, i), 0, c)
    requires Seg(w, 0, T + i - n) == Upper(X, T, Y, n, i)
    ensures Seg(w'[T + i - n := c], 0, T + i - n + 1) == Upper(X, T, Y, n, i + 1)
  {
    var m := T + i - n;
    var h := if n - i < T then Seg(X, n - i, T - (n - i)) else 0;
    assert h == Seg(X, n - i, m);
    assert Upper(X, T, Y, n, i + 1) == Upper(X, T, Y, n, i) + Digit(Y, i) * h;
    hide Seg, B, Upper;
    SegUpdate(w', m, c, 0, m);
    SegTop(w'[m := c], 0, m);
  }

  // ----- the error of the estimated quotient

  /** With q3 the truncated product of the reciprocal mu and the high part xh of x, both
      truncated, q3 is at most the true quotient and short of it by less than 3 + xt. */
  lemma QuotientError(x: int, M: int, k: nat, mu: int, xh: int, up: int, xt: nat)
    requires k > 0 && B(k - 1) <= M < B(k) && 0 <= x < B(2 * k)
    requires mu == B(2 * k) / M && xh == x / B(k - 1)
    requires 0 <= mu * xh - B(k) * up <= B(k) * (DV * xt)
    ensures 0 <= x - (up / DV) * M < (3 + xt) * M
  {
    assert B(k + 1) == DV * B(k);
    BAdd(k + 1, k - 1);
    hide B;
    DivMod(B(2 * k), M);
    DivMod(x, B(k - 1));
    DivMod(up, DV);
    DivGe(x, B(k - 1), 0);
    QuotientBounds(x, M, B(2 * k), B(k), B(k - 1), mu, xh, up, up / DV, xt);
  }

  lemma QuotientBounds(x: int, M: int, W: int, b: int, e: int, mu: int, xh: int, up: int, q: int, xt: nat)
    requires 0 < b && 0 < e <= M && 0 <= x < W && (DV * b) * e == W && 0 <= xh
    requires W - M < M * mu <= W && x - e < e * xh <= x
    requires 0 <= mu * xh - b * up <= b * (DV * xt) && DV * q <= up < DV * q + DV
    ensures 0 <= x - q * M < (3 + xt) * M
  {
    var P, Q, z := M * mu, e * xh, mu * xh;
    MulNonneg(e, xh);
    QuotientLow(x, M, W, P, Q);
    assert b * (DV * xt) == (DV * b) * xt;
    BetweenProducts(b, up, q, z, xt);
    assert P * Q == (z * M) * e;
    ScaleBounds(DV * b, e, M, q, q + 1 + xt, z, W);
    FinishBounds(x, M, W, P * Q, q, xt);
  }

  /** P Q is below W x, and short of it by less than 2 W M. */
  lemma QuotientLow(x: int, M: int, W: int, P: int, Q: int)
    requires 0 < M && 0 <= x < W && W - M < P <= W && x - M < Q <= x && 0 <= Q
    ensures P * Q <= W * x < P * Q + 2 * (W * M)
  {
    var rho, sigma := W - P, x - Q;
    assert W * x == P * Q + W * sigma + rho * Q by {
      Distrib(Q, W, rho);
      Distrib(W, x, sigma);
    }
    MulNonneg(rho, Q);
    MulNonneg(W, sigma);
    MulLe(sigma, M - 1, W);
    MulLe(rho, M, Q);
    MulLt(Q, W, M);
    Distrib(W, M, 1);
    assert W * sigma == sigma * W && M * W == W * M && Q * M == M * Q;
  }

  lemma BetweenProducts(b: int, up: int, q: int, z: int, xt: int)
    requires 0 < b && DV * q <= up < DV * q + DV && 0 <= z - b * up <= (DV * b) * xt
    ensures (DV * b) * q <= z < (DV * b) * (q + 1 + xt)
  {
    MulLe(DV * q, up, b);
    MulLt(up, DV * (q + 1), b);
    Distrib(DV * b, q + 1, xt);
    assert (DV * q) * b == (DV * b) * q && (DV * (q + 1)) * b == (DV * b) * (q + 1);
  }

  lemma ScaleBounds(b: int, e: int, M: int, lo: int, hi: int, z: int, W: int)
    requires 0 < b && 0 < e && 0 < M && b * e == W && b * lo <= z < b * hi
    ensures W * (lo * M) <= (z * M) * e < W * (hi * M)
  {
    MulLt(0, M, e);
    MulLe(b * lo, z, M * e);
    MulLt(z, b * hi, M * e);
    assert (b * lo) * (M * e) == (b * e) * (lo * M);
    assert (b * hi) * (M * e) == (b * e) * (hi * M);
    Assoc(z, M, e);
  }

  lemma FinishBounds(x: int, M: int, W: int, pq: int, q: int, xt: int)
    requires 0 < W && W * (q * M) <= pq < W * ((q + 1 + xt) * M)
    requires pq <= W * x < pq + 2 * (W * M)
    ensures 0 <= x - q * M < (3 + xt) * M
  {
    assert W * ((q + 1 + xt) * M) + 2 * (W * M) == W * ((q + 3 + xt) * M);
    CancelLe(q * M, x, W);
    assert W * x == x * W && W * ((q + 3 + xt) * M) == ((q + 3 + xt) * M) * W;
    CancelLt(x, (q + 3 + xt) * M, W);
    Distrib(M, q, 3 + xt);
  }

  lemma CancelLe(x: int, y: int, w: int)
    requires w * x <= w * y && 0 < w
    ensures x <= y
  {
    assert w * x == x * w && w * y == y * w;
    if y < x {
      MulLt(y, x, w);
      assert false;
    }
  }

  // ----- adding to one digit

  /** x += n << w digits.  The value is exact; the result may be in other than shortest form
      when n is 0. */
  method DAddOffset(x: BigInteger, n: int, w0: nat)
    requires x.Wf() && x.s == 0 && 0 <= n < DV
    modifies x
    ensures x.Wf() && x.s == 0 && x.Value() == old(x.Value()) + n * B(w0)
    ensures n > 0 && old(x.Clamped()) ==> x.Clamped()
  {
    hide Seg, B, BigInteger.Value;
    x.NonNegativeValue();
    ghost var V := x.Value();
    while x.t <= w0
      modifies x
      invariant x.Wf() && x.s == 0 && Seg(x.arr, 0, x.t) == V
      invariant x.t <= old(x.t) || x.t <= w0 + 1
      invariant x.t == old(x.t) ==> x.arr == old(x.arr)
    {
      SegUpdate(x.arr, x.t, 0, 0, x.t);
      SegTop(x.arr[x.t := 0], 0, x.t);
      x.arr := x.arr[x.t := 0];
      x.t := x.t + 1;
    }
    var w := w0;
    SegUpdate(x.arr, w, x.arr[w] + n, 0, x.t);
    x.arr := x.arr[w := x.arr[w] + n];
    while x.arr[w] >= DV
      modifies x
      invariant 0 <= w < x.t && x.s == 0
      invariant forall k :: 0 <= k < x.t ==> k in x.arr && 0 <= x.arr[k] && (k != w ==> x.arr[k] < DV)
      invariant x.arr[w] < 2 * DV
      invariant Seg(x.arr, 0, x.t) == V + n * B(w0)
      invariant n > 0 && old(x.Clamped()) ==> x.arr[x.t - 1] > 0
      decreases x.t - w, x.arr[w]
    {
      ghost var A := x.arr;
      x.arr := x.arr[w := x.arr[w] - DV];
      w := w + 1;
      if w >= x.t {
        x.arr := x.arr[x.t := 0];
        x.t := x.t + 1;
        CarryOut(A, w - 1);
      } else {
        CarryUp(A, w - 1, x.t);
      }
      x.arr := x.arr[w := x.arr[w] + 1];
    }
    x.NonNegativeValue();
  }

  lemma CarryOut(a: Array, w: nat)
    requires w in a
    ensures Seg(a[w := a[w] - DV][w + 1 := 0][w + 1 := 1], 0, w + 2) == Seg(a, 0, w + 1)
  {
    hide Seg;
    var b := a[w := a[w] - DV];
    SegUpdate(a, w, a[w] - DV, 0, w + 1);
    assert b[w + 1 := 0][w + 1 := 1] == b[w + 1 := 1];
    SegUpdate(b, w + 1, 1, 0, w + 1);
    SegTop(b[w + 1 := 1], 0, w + 1);
    assert B(w + 1) == DV * B(w);
  }

  // ----- the pieces of a reduction

  lemma LengthAtMost(x: BigInteger, n: nat)
    requires x.Valid() && x.s == 0 && x.Value() < B(n)
    ensures x.t <= n
  {
    hide Seg, B, BigInteger.Value;
    x.SignOfValue();
    if x.t > n {
      BMonotone(n, x.t - 1);
      assert false;
    }
  }

  lemma ReciprocalLength(mu: BigInteger, M: int, k: nat)
    requires mu.Valid() && mu.s == 0 && 0 < M < B(k) && mu.Value() == B(2 * k) / M
    ensures mu.t > k
  {
    hide Seg, B, BigInteger.Value;
    BAdd(k, k);
    MulLe(M, B(k), B(k));
    assert M * B(k) <= B(2 * k);
    DivGe(B(2 * k), M, B(k));
    LengthAtLeast(mu, k + 1);
  }

  /** The truncation of x to its n low digits. */
  method KeepLowDigits(x: BigInteger, n: nat)
    requires x.Valid() && x.s == 0
    modifies x
    ensures x.Valid() && x.s == 0 && x.Value() == old(x.Value()) % B(n)
  {
    hide Seg, B, BigInteger.Value;
    x.NonNegativeValue();
    x.SignOfValue();
    if x.t > n {
      SegDivMod(x.arr, 0, n, x.t - n);
      x.t := n;
      x.NonNegativeValue();
      x.Clamp();
    } else {
      BMonotone(x.t, n);
      DivModUnique(x.Value(), B(n), 0, x.Value());
    }
  }

  lemma PositiveQuotient(x: int, y: int)
    requires 0 <= x && 0 < y
    ensures TruncDiv(x, y) == x / y && 0 <= x / y
  {
    DivGe(x, y, 0);
  }

  lemma Below(x: int, w: int)
    requires 0 < w
    ensures 0 <= x % w < w
  {
    DivMod(x, w);
  }

  /** What the three truncations leave is x - q M itself. */
  lemma AlmostReduced(v: int, X: int, M: int, w: int, q: int)
    requires 0 < M && 0 < w && 0 <= X - q * M < w
    requires v == X % w || v == X % w + w
    requires v >= (M * q) % w && (v == X % w + w ==> X % w < (M * q) % w)
    ensures v - (M * q) % w == X - q * M && Congruent(X - q * M, X, M)
  {
    DivMod(X, w);
    DivMod(M * q, w);
    Distrib(w, X / w, (M * q) / w);
    var d := X / w - (M * q) / w;
    var y, r := X - q * M, v - (M * q) % w;
    assert M * q == q * M;
    var e := if v == X % w then d else d - 1;
    Distrib(w, d, 1);
    assert y == w * e + r;
    DivModUnique(y, w, e, r);
    DivModUnique(y, w, 0, y);
    CongruentByMultiple(y, X, M, -q);
  }

  lemma SubtractOnce(v: int, X: int, M: int)
    requires 0 < M && Congruent(v, X, M)
    ensures Congruent(v - M, X, M)
  {
    CongruentByMultiple(v - M, v, M, -1);
  }

  lemma Reduced(v: int, X: int, M: int)
    requires 0 < M && Congruent(v, X, M) && 0 <= v < M
    ensures v == X % M
  {
    DivModUnique(v, M, 0, v);
  }

  /** The estimated quotient has at most k + 1 digits, and the remainder it leaves too. */
  lemma EstimateFits(X: int, M: int, k: nat, q: int, xt: nat)
    requires k > 0 && B(k - 1) <= M < B(k) && 0 <= X < B(2 * k)
    requires 0 <= X - q * M < (3 + xt) * M && 3 + xt <= DV
    ensures q < B(k + 1) && X - q * M < B(k + 1)
  {
    assert B(k + 1) == DV * B(k);
    BAdd(k + 1, k - 1);
    hide B;
    MulLe(3 + xt, DV, M);
    if q > 0 {
      MulLe(B(k - 1), M, q);
      assert M * q == q * M && B(k - 1) * q == q * B(k - 1);
      CancelLt(q, B(k + 1), B(k - 1));
    }
  }

  /** B(2 m.t) divided by m, with the power left in p. */
  method Reciprocal(m: BigInteger, p: BigInteger) returns (d: BigInteger)
    requires m.Valid() && m.Value() > 1 && p != m
    modifies p
    ensures fresh(d) && d.Valid() && d.s == 0 && d.Value() == B(2 * m.t) / m.Value()
  {
    hide Seg, B, BigInteger.Value, TruncDiv;
    var one := new BigInteger();
    one.FromInt(1);
    one.SignOfValue();
    BOne();
    one.DlShiftTo(2 * m.t, p);
    d := new BigInteger();
    PositiveQuotient(B(2 * m.t), m.Value());
    DivRemTo(p, m, d, null);
    d.SignOfValue();
  }

  // ----- the reducer

  class Barrett {
    const r2: BigInteger
    const q3: BigInteger
    const mu: BigInteger
    const m: BigInteger

    constructor (m: BigInteger)
      requires m.Valid() && m.Value() > 1 && m.t + 4 <= DV
      ensures Ready() && this.m == m && fresh(r2) && fresh(q3) && fresh(mu)
    {
      hide Seg, B, BigInteger.Value, TruncDiv;
      m.SignOfValue();
      var p := new BigInteger();
      var d := Reciprocal(m, p);
      this.m := m;
      r2 := p;
      q3 := new BigInteger();
      mu := d;
    }

    ghost predicate Ready()
      reads m, mu
    {
      && m.Valid() && m.s == 0 && m.Value() > 1 && m.t + 4 <= DV
      && mu.Valid() && mu.s == 0 && mu.Value() == B(2 * m.t) / m.Value()
      && mu != m && r2 != m && q3 != m && r2 != mu && q3 != mu && r2 != q3
    }

    /** The first half: x keeps its k + 1 low digits, r2 those of the estimated quotient times m. */
    method Estimate(x: BigInteger) returns (ghost q: int)
      requires Ready() && x != m && x != mu && x != r2 && x != q3
      requires x.Valid() && 0 <= x.Value() < B(2 * m.t)
      modifies x, r2, q3
      ensures x.Valid() && x.s == 0 && x.Value() == old(x.Value()) % B(m.t + 1)
      ensures r2.Valid() && r2.s == 0 && r2.Value() == (m.Value() * q) % B(m.t + 1)
      ensures 0 <= old(x.Value()) - q * m.Value() < B(m.t + 1)
    {
      hide Seg, B, BigInteger.Value, Upper;
      ghost var X, M, k := x.Value(), m.Value(), m.t;
      m.SignOfValue();
      x.SignOfValue();
      BOne();
      LengthAtMost(x, 2 * k);
      x.DrShiftTo(m.t - 1, r2);
      KeepLowDigits(x, m.t + 1);
      mu.SignOfValue();
      ReciprocalLength(mu, M, k);
      MultiplyUpperTo(mu, r2, m.t + 1, q3);
      q := q3.Value();
      UpperError(mu.arr, mu.t, r2.arr, k, r2.t);
      mu.NonNegativeValue();
      r2.NonNegativeValue();
      QuotientError(X, M, k, mu.Value(), r2.Value(), Upper(mu.arr, mu.t, r2.arr, k, r2.t), r2.t);
      EstimateFits(X, M, k, q, r2.t);
      q3.SignOfValue();
      LengthAtMost(q3, k + 1);
      MultiplyLowerTo(m, q3, m.t + 1, r2);
    }

    /** x := x modulo m, for x of at most twice the length of m. */
    method Reduce(x: BigInteger)
      requires Ready() && x != m && x != mu && x != r2 && x != q3
      requires x.Valid() && 0 <= x.Value() < B(2 * m.t)
      modifies x, r2, q3
      ensures x.Valid() && x.Value() == old(x.Value()) % m.Value()
    {
      hide Seg, B, BigInteger.Value, Congruent;
      ghost var X, M, k := x.Value(), m.Value(), m.t;
      ghost var q := Estimate(x);
      var c := x.CompareTo(r2);
      while c < 0
        modifies x
        invariant x.Valid() && x.s == 0
        invariant x.Value() == X % B(k + 1) || x.Value() == X % B(k + 1) + B(k + 1)
        invariant c < 0 <==> x.Value() < r2.Value()
        invariant x.Value() == X % B(k + 1) + B(k + 1) ==> X % B(k + 1) < r2.Value()
        decreases X % B(k + 1) + B(k + 1) - x.Value()
      {
        Below(X, B(k + 1));
        DAddOffset(x, 1, m.t + 1);
        c := x.CompareTo(r2);
        Below(r2.Value(), B(k + 1));
        x.SignOfValue();
      }
      AlmostReduced(x.Value(), X, M, B(k + 1), q);
      x.SubTo(r2, x);
      x.SignOfValue();
      m.SignOfValue();
      c := x.CompareTo(m);
      while c >= 0
        modifies x
        invariant x.Valid() && x.s == 0 && 0 <= x.Value() && Congruent(x.Value(), X, M)
        invariant c >= 0 <==> x.Value() >= M
        decreases x.Value()
      {
        SubtractOnce(x.Value(), X, M);
        x.SubTo(m, x);
        x.SignOfValue();
        c := x.CompareTo(m);
      }
      Reduced(x.Value(), X, M);
    }
  }
}
