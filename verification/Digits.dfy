/** Base-2^28 digit strings stored in a JavaScript array, and the number a stretch of one
    stands for.  A JavaScript array grows on assignment, so it is a finite map here: reading an
    element that was never written is an error that every method has to rule out. */
module Digits {
  import opened Arith
  import opened JsNumber

  const DB: nat := 28
  const DV: int := 0x1000_0000
  const DM: int := 0xFFF_FFFF

  type Array = map<int, int>

  /** The weight of digit n. */
  function B(n: nat): (b: int)
    ensures b > 0
  {
    if n == 0 then 1 else DV * B(n - 1)
  }

  function Digit(a: Array, i: int): int {
    if i in a then a[i] else 0
  }

  /** Elements lo .. lo+n of the array are written and are digits. */
  ghost predicate AreDigits(a: Array, lo: int, n: int) {
    forall k :: lo <= k < lo + n ==> k in a && 0 <= a[k] < DV
  }

  /** Every element of b at lo or beyond is the same in a. */
  ghost predicate SameFrom(a: Array, b: Array, lo: int) {
    forall k :: lo <= k && k in b ==> k in a && a[k] == b[k]
  }

  /** The number written in elements lo .. lo+n, least significant first. */
  ghost function Seg(a: Array, lo: int, n: nat): int {
    if n == 0 then 0 else Seg(a, lo, n - 1) + Digit(a, lo + n - 1) * B(n - 1)
  }

  /** The contribution of the sign word s at weight w. */
  ghost function SignPart(s: int, w: int): int {
    if s == 0 then 0 else -w
  }

  /** The number held in n digits and a carry c out of the last one. */
  ghost function Acc(w: Array, n: nat, c: int): int {
    Seg(w, 0, n) + c * B(n)
  }

  /** How many digits the number v needs. */
  ghost function NDigits(v: nat): nat {
    if v == 0 then 0 else 1 + NDigits(v / DV)
  }

  lemma BOne()
    ensures B(0) == 1 && B(1) == DV
  {
    assert B(1) == DV * B(0);
  }

  lemma {:induction false} BAdd(m: nat, n: nat)
    ensures B(m + n) == B(m) * B(n)
  {
    if m == 0 {
    } else {
      BAdd(m - 1, n);
      assert B(m + n) == DV * B(m - 1 + n);
      Assoc(DV, B(m - 1), B(n));
    }
  }

  lemma {:induction false} BMonotone(m: nat, n: nat)
    requires m <= n
    ensures B(m) <= B(n)
  {
    if m >= n {
    } else {
      BMonotone(m, n - 1);
    }
  }

  lemma {:induction false} BIsPow2(n: nat)
    ensures B(n) == Pow2(28 * n)
  {
    if n == 0 {
    } else {
      BIsPow2(n - 1);
      Pow2Add(28, 28 * (n - 1));
      Pow2Constants();
    }
  }

  lemma {:induction false} SegSame(a: Array, lo: int, b: Array, lo': int, n: nat)
    requires forall k :: lo <= k < lo + n ==> Digit(a, k) == Digit(b, k - lo + lo')
    ensures Seg(a, lo, n) == Seg(b, lo', n)
  {
    if n == 0 {
    } else {
      SegSame(a, lo, b, lo', n - 1);
    }
  }

  lemma {:induction false} SegBound(a: Array, lo: int, n: nat)
    requires AreDigits(a, lo, n)
    ensures 0 <= Seg(a, lo, n) < B(n)
  {
    if n == 0 {
    } else {
      SegBound(a, lo, n - 1);
      var d := Digit(a, lo + n - 1);
      MulLe(0, d, B(n - 1));
      MulLe(d, DV - 1, B(n - 1));
    }
  }

  lemma {:induction false} SegZero(a: Array, lo: int, n: nat)
    requires forall k :: lo <= k < lo + n ==> Digit(a, k) == 0
    ensures Seg(a, lo, n) == 0
  {
    if n == 0 {
    } else {
      SegZero(a, lo, n - 1);
    }
  }

  lemma {:induction false} SegSplit(a: Array, lo: int, m: nat, n: nat)
    ensures Seg(a, lo, m + n) == Seg(a, lo, m) + B(m) * Seg(a, lo + m, n)
  {
    if n == 0 {
    } else {
      var d, w, rest := Digit(a, lo + m + n - 1), B(m), Seg(a, lo + m, n - 1);
      SegSplit(a, lo, m, n - 1);
      BAdd(m, n - 1);
      assert Seg(a, lo, m + n) == Seg(a, lo, m + n - 1) + d * B(m + n - 1);
      assert Seg(a, lo + m, n) == rest + d * B(n - 1);
      SplitStep(d, w, B(n - 1), rest);
    }
  }

  lemma SplitStep(d: int, w: int, v: int, rest: int)
    ensures d * (w * v) + w * rest == w * (rest + d * v)
  {
  }

  lemma {:induction false} SegUpdate(a: Array, i: int, v: int, lo: int, n: nat)
    ensures Seg(a[i := v], lo, n) ==
            Seg(a, lo, n) + (if lo <= i < lo + n then (v - Digit(a, i)) * B(i - lo) else 0)
  {
    if n == 0 {
    } else {
      SegUpdate(a, i, v, lo, n - 1);
      if i == lo + n - 1 {
        Distrib(B(n - 1), v, Digit(a, i));
      }
    }
  }

  /** Taking DV from a digit and adding 1 to the next leaves the number. */
  lemma CarryUp(a: Array, w: nat, n: nat)
    requires w + 1 < n && w in a && w + 1 in a
    ensures Seg(a[w := a[w] - DV][w + 1 := a[w + 1] + 1], 0, n) == Seg(a, 0, n)
  {
    hide Seg;
    SegUpdate(a, w, a[w] - DV, 0, n);
    SegUpdate(a[w := a[w] - DV], w + 1, a[w + 1] + 1, 0, n);
    assert B(w + 1) == DV * B(w);
  }

  /** Two digit strings of one length with one value are the same string. */
  lemma {:induction false} SegUnique(a: Array, lo: int, b: Array, lo': int, n: nat, k: nat)
    requires AreDigits(a, lo, n) && AreDigits(b, lo', n)
    requires Seg(a, lo, n) == Seg(b, lo', n)
    requires k < n
    ensures Digit(a, lo + k) == Digit(b, lo' + k)
  {
    var x, y := Digit(a, lo + n - 1), Digit(b, lo' + n - 1);
    SegBound(a, lo, n - 1);
    SegBound(b, lo', n - 1);
    DivModUnique(Seg(a, lo, n), B(n - 1), x, Seg(a, lo, n - 1));
    DivModUnique(Seg(b, lo', n), B(n - 1), y, Seg(b, lo', n - 1));
    if k >= n - 1 {
    } else {
      SegUnique(a, lo, b, lo', n - 1, k);
    }
  }

  /** Cutting a digit string at position m divides the number by the weight of digit m. */
  lemma SegDivMod(a: Array, lo: int, m: nat, n: nat)
    requires AreDigits(a, lo, m + n)
    ensures Seg(a, lo, m + n) / B(m) == Seg(a, lo + m, n)
    ensures Seg(a, lo, m + n) % B(m) == Seg(a, lo, m)
  {
    SegSplit(a, lo, m, n);
    SegBound(a, lo, m);
    DivModUnique(Seg(a, lo, m + n), B(m), Seg(a, lo + m, n), Seg(a, lo, m));
  }

  lemma {:induction false} NDigitsBounds(v: nat, n: nat)
    requires n > 0 ==> B(n - 1) <= v
    requires v < B(n)
    ensures NDigits(v) == n
    decreases n
  {
    if n == 0 {
    } else {
      DivLt(v, DV, B(n - 1));
      if n > 1 {
        DivGe(v, DV, B(n - 2));
      }
      NDigitsBounds(v / DV, n - 1);
    }
  }

  lemma SegTop(a: Array, lo: int, n: nat)
    ensures Seg(a, lo, n + 1) == Seg(a, lo, n) + Digit(a, lo + n) * B(n)
  {
  }

  lemma SegOne(a: Array, lo: int)
    ensures Seg(a, lo, 1) == Digit(a, lo)
  {
    SegTop(a, lo, 0);
  }

  lemma SegLow(a: Array, lo: int, n: nat)
    requires n > 0
    ensures Seg(a, lo, n) == Digit(a, lo) + DV * Seg(a, lo + 1, n - 1)
  {
    hide Seg;
    SegSplit(a, lo, 1, n - 1);
    SegOne(a, lo);
    assert B(1) == DV * B(0);
  }

  /** The arrays agree except at elements lo .. hi. */
  ghost predicate SameOutside(a: Array, b: Array, lo: int, hi: int) {
    forall k :: !(lo <= k < hi) ==> (k in a <==> k in b) && (k in a ==> a[k] == b[k])
  }

  /** Adding v to the digits from j on, with carry c out of digit j+n. */
  lemma AddAt(w: Array, w': Array, j: nat, n: nat, c: int, v: int)
    requires SameOutside(w', w, j, j + n)
    requires Seg(w', j, n) + c * B(n) == Seg(w, j, n) + v
    ensures Acc(w', j + n, c) == Seg(w, 0, j + n) + v * B(j)
  {
    hide Seg, B;
    SegSplit(w, 0, j, n);
    SegSplit(w', 0, j, n);
    SegSame(w', 0, w, 0, j);
    BAdd(j, n);
    AddAtProducts(B(j), B(n), c, v, Seg(w, j, n), Seg(w', j, n));
  }

  lemma AddAtProducts(b: int, e: int, c: int, v: int, s: int, s': int)
    requires s' + c * e == s + v
    ensures b * s' + c * (b * e) == b * s + v * b
  {
    assert b * (s' + c * e) == b * s' + c * (b * e);
    Distrib(b, s, v);
  }

  /** The same with the carry added into digit j+n. */
  lemma AddRow(w: Array, w': Array, j: nat, n: nat, c: int, v: int, N: nat)
    requires SameOutside(w', w, j, j + n) && N > j + n
    requires Seg(w', j, n) + c * B(n) == Seg(w, j, n) + v
    ensures Seg(w'[j + n := Digit(w, j + n) + c], 0, N) == Seg(w, 0, N) + v * B(j)
  {
    hide Seg, B;
    AddAt(w, w', j, n, c, v);
    SegUpdate(w', j + n, Digit(w, j + n) + c, 0, N);
    var m := N - (j + n);
    SegSplit(w, 0, j + n, m);
    SegSplit(w', 0, j + n, m);
    SegSame(w', j + n, w, j + n, m);
  }

  // ----- carries

  /** Storing a number c at position i: its low 28 bits stay, the rest is carried. */
  lemma PutDigit(w: Array, i: nat, c: int)
    requires -0x8000_0000 <= c < 0x8000_0000
    ensures Low(c, DB) == c % DV && Shr(c, DB) == c / DV
    ensures Acc(w[i := Low(c, DB)], i + 1, Shr(c, DB)) == Acc(w, i, c)
  {
    hide Seg;
    Pow2Constants();
    ToInt32Small(c);
    var w' := w[i := c % DV];
    SegUpdate(w, i, c % DV, 0, i);
    SegTop(w', 0, i);
    PutProducts(c, B(i));
  }

  lemma PutProducts(c: int, b: int)
    ensures (c % DV) * b + (c / DV) * (DV * b) == c * b
  {
    DivMod(c, DV);
    var q, m := c / DV, c % DV;
    assert (DV * q + m) * b == q * (DV * b) + m * b;
  }

  lemma AccPlusDigit(w: Array, i: nat, c: int, a: Array)
    ensures Acc(w, i, c + Digit(a, i)) == Acc(w, i, c) + Seg(a, 0, i + 1) - Seg(a, 0, i)
  {
    SegTop(a, 0, i);
    hide Seg, B;
    Distrib(B(i), c, Digit(a, i));
  }

  lemma AccMinusDigit(w: Array, i: nat, c: int, a: Array)
    ensures Acc(w, i, c - Digit(a, i)) == Acc(w, i, c) - (Seg(a, 0, i + 1) - Seg(a, 0, i))
  {
    SegTop(a, 0, i);
    hide Seg, B;
    Distrib(B(i), c, Digit(a, i));
  }

  lemma AccSign(w: Array, i: nat, c: int, s: int)
    requires s == 0 || s == -1
    ensures Acc(w, i, c + s) == Acc(w, i, c) + SignPart(s, B(i))
    ensures Acc(w, i, c - s) == Acc(w, i, c) - SignPart(s, B(i))
  {
    hide Seg, B;
    Distrib(B(i), c, s);
  }

  lemma AccEmpty(w: Array)
    ensures Acc(w, 0, 0) == 0 && forall a: Array {:trigger Seg(a, 0, 0)} :: Seg(a, 0, 0) == 0
  {
  }

  /** A final carry from -2 to 1 becomes at most one more digit and the sign word. */
  lemma LastCarry(w: Array, i: nat, c: int)
    requires -2 <= c <= 1
    ensures Seg(w[i := DV + c], 0, i + 1) - B(i + 1) == Acc(w, i, c)
    ensures Seg(w[i := c], 0, i + 1) == Acc(w, i, c)
    ensures c == 0 ==> Seg(w, 0, i) == Acc(w, i, c)
    ensures c == -1 ==> Seg(w, 0, i) - B(i) == Acc(w, i, c)
  {
    SegUpdate(w, i, DV + c, 0, i);
    SegUpdate(w, i, c, 0, i);
    SegTop(w[i := DV + c], 0, i);
    SegTop(w[i := c], 0, i);
    assert B(i + 1) == DV * B(i);
    hide Seg, B;
    Distrib(B(i), DV, c);
  }

  /** Dropping n digits of a signed digit string is floor division. */
  lemma DropDigits(a: Array, t: nat, s: int, n: nat)
    requires AreDigits(a, 0, t) && (s == 0 || s == -1)
    ensures (Seg(a, 0, t) + SignPart(s, B(t))) / B(n) ==
            if t > n then Seg(a, n, t - n) + SignPart(s, B(t - n)) else s
  {
    hide Seg, B;
    SegBound(a, 0, t);
    var v := Seg(a, 0, t) + SignPart(s, B(t));
    if t > n {
      SegSplit(a, 0, n, t - n);
      BAdd(n, t - n);
      SegBound(a, 0, n);
      Distrib(B(n), Seg(a, n, t - n), B(t - n));
      DivModUnique(v, B(n), Seg(a, n, t - n) + SignPart(s, B(t - n)), Seg(a, 0, n));
    } else {
      BMonotone(t, n);
      DivModUnique(v, B(n), s, v - SignPart(s, B(n)));
    }
  }

  /** Of two digit strings, the higher digit where they differ decides. */
  lemma TopDigitDecides(a: Array, b: Array, n: nat, i: nat)
    requires AreDigits(a, 0, n) && AreDigits(b, 0, n) && i < n
    requires forall k :: i < k < n ==> a[k] == b[k]
    requires a[i] != b[i]
    ensures a[i] < b[i] <==> Seg(a, 0, n) < Seg(b, 0, n)
    ensures Seg(a, 0, n) != Seg(b, 0, n)
  {
    SegSplit(a, 0, i + 1, n - i - 1);
    SegSplit(b, 0, i + 1, n - i - 1);
    SegSame(a, i + 1, b, i + 1, n - i - 1);
    SegBound(a, 0, i);
    SegBound(b, 0, i);
    if a[i] < b[i] {
      MulLt(a[i], b[i], B(i));
    } else {
      MulLt(b[i], a[i], B(i));
    }
  }
}
