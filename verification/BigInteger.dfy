/** The BigInteger class of the Crypto benchmark: t digits of 28 bits and a sign word s.  The
    number is the digits read as an unsigned number plus s times the weight of digit t, so a
    negative number (s = -1) is stored in two's complement.  Results are written into an
    object r given by the caller, which may be one of the operands. */
module BigIntegers {
  import opened Arith
  import opened JsNumber
  import opened Digits

  class BigInteger {
    var arr: Array
    var t: nat
    var s: int

    ghost predicate Wf()
      reads this
    {
      (s == 0 || s == -1) && AreDigits(arr, 0, t)
    }

    ghost predicate Clamped()
      reads this
    {
      t > 0 ==> Digit(arr, t - 1) != (if s == 0 then 0 else DM)
    }

    /** A well-formed number in its shortest form. */
    ghost predicate Valid()
      reads this
    {
      Wf() && Clamped()
    }

    ghost function Value(): int
      reads this
    {
      Seg(arr, 0, t) + SignPart(s, B(t))
    }

    lemma NonNegativeValue()
      requires s == 0
      ensures Value() == Seg(arr, 0, t)
    {
    }

    lemma ValueIsDigitsAndSign()
      ensures Value() == Seg(arr, 0, t) + SignPart(s, B(t))
    {
    }

    constructor ()
      ensures Valid() && Value() == 0
    {
      arr, t, s := map[], 0, 0;
    }

    /** Set from a small integer.  The branch for x < -1 of the original names an unbound
        variable, so only x >= -1 can be used. */
    method FromInt(x: int)
      requires -1 <= x < DV
      modifies this
      ensures Valid() && Value() == x && t <= 1
    {
      t := 1;
      s := if x < 0 then -1 else 0;
      if x > 0 {
        arr := arr[0 := x];
      } else {
        t := 0;
      }
      SegOne(arr, 0);
    }

    method CopyTo(r: BigInteger)
      requires Wf()
      modifies r
      ensures r.Wf() && r.t == old(t) && r.s == old(s)
      ensures forall k :: 0 <= k < old(t) ==> k in r.arr && r.arr[k] == old(arr)[k]
      ensures r.Value() == old(Value())
      ensures old(Clamped()) ==> r.Clamped()
    {
      hide Seg, B;
      ghost var A := arr;
      var i := t - 1;
      while i >= 0
        modifies r`arr
        invariant -1 <= i < t
        invariant forall k :: 0 <= k < t ==> k in arr && arr[k] == A[k]
        invariant forall k :: i < k < t ==> k in r.arr && r.arr[k] == A[k]
      {
        r.arr := r.arr[i := arr[i]];
        i := i - 1;
      }
      r.t := t;
      r.s := s;
      SegSame(r.arr, 0, A, 0, r.t);
    }

    method Clamp()
      requires Wf()
      modifies this`t
      ensures Valid() && Value() == old(Value()) && t <= old(t)
    {
      var c := if s == 0 then 0 else DM;
      while t > 0 && arr[t - 1] == c
        invariant t <= old(t)
        invariant Wf() && Value() == old(Value())
      {
        SegTop(arr, 0, t - 1);
        ghost var w := B(t - 1);
        assert B(t) == DV * w;
        t := t - 1;
      }
    }

    // ----- shifts by whole digits

    /** A negative n only occurs with t + n = 0, in the division of a zero that is not in
        shortest form; the digits then go to negative indices and r has none. */
    method DlShiftTo(n: int, r: BigInteger)
      requires Wf() && (n >= 0 || t + n == 0)
      modifies r
      ensures r.Wf() && r.t == old(t) + n && r.s == old(s)
      ensures n >= 0 ==> r.Value() == old(Value()) * B(n)
      ensures old(t > 0 && Clamped()) ==> r.Clamped()
    {
      hide Seg, B, Value, SignPart;
      ValueIsDigitsAndSign();
      ghost var A, T := arr, t;
      var i := t - 1;
      while i >= 0
        modifies r`arr
        invariant -1 <= i < t
        invariant n >= 0 ==> forall k :: 0 <= k <= i ==> k in arr && arr[k] == A[k]
        invariant n < 0 ==> forall k :: 0 <= k < t ==> k in arr
        invariant n >= 0 ==> forall k :: i + n < k < t + n ==> k in r.arr && r.arr[k] == A[k - n]
      {
        r.arr := r.arr[i + n := arr[i]];
        i := i - 1;
      }
      if n >= 0 {
        r.ClearDigits(n);
        DigitsUp(A, r.arr, T, s, n);
      }
      r.t := t + n;
      r.s := s;
      r.ValueIsDigitsAndSign();
    }

    /** Drops n digits: the floor of the quotient by B(n), for either sign. */
    method DrShiftTo(n: nat, r: BigInteger)
      requires Wf()
      modifies r
      ensures r.Wf() && r.s == old(s)
      ensures r.t == if old(t) > n then old(t) - n else 0
      ensures r.Value() == old(Value()) / B(n)
      ensures old(Clamped()) ==> r.Clamped()
    {
      hide Seg, B, Value, SignPart;
      ValueIsDigitsAndSign();
      ghost var A, T := arr, t;
      var i := n;
      while i < t
        modifies r`arr
        invariant i == n || n < i <= t
        invariant forall k :: i <= k < t ==> k in arr && arr[k] == A[k]
        invariant forall k :: 0 <= k < i - n ==> k in r.arr && r.arr[k] == A[k + n]
      {
        r.arr := r.arr[i - n := arr[i]];
        i := i + 1;
      }
      DigitsDown(A, r.arr, T, s, n);
      r.t := if t - n > 0 then t - n else 0;
      r.s := s;
      r.ValueIsDigitsAndSign();
    }

    // ----- shifts by bits

    method LShiftTo(n: nat, r: BigInteger)
      requires Wf()
      modifies r
      ensures r.Valid() && r.s == old(s)
      ensures r.Value() == old(Value()) * Pow2(n)
      ensures var k := old(t) + n / DB + 1;
              AreDigits(r.arr, 0, k) && Seg(r.arr, 0, k) + SignPart(r.s, B(k)) == r.Value()
    {
      hide Seg, B, Pow2, SignPart, Value, LShiftInv, Low, Shl;
      ValueIsDigitsAndSign();
      ghost var A, T := arr, t;
      var bs := n % DB;
      var ds := n / DB;
      var c := Low(Shl(s, bs), DB);
      SignBits(s, bs);
      c := ShiftDigitsUp(ds, bs, c, r);
      ghost var w := r.arr;
      r.ClearDigits(ds);
      r.arr := r.arr[ds := c];
      LShiftEnd(A, w, r.arr, T, s, n, c);
      r.t := t + ds + 1;
      r.s := s;
      r.ValueIsDigitsAndSign();
      r.Clamp();
    }

    /** The digit loop of lShiftTo; returns what is left for digit ds. */
    method ShiftDigitsUp(ds: nat, bs: nat, c0: int, r: BigInteger) returns (c: int)
      requires Wf() && bs < DB && c0 == Low(Shl(s, bs), DB) && 0 <= c0 < DV && c0 % Pow2(bs) == 0
      modifies r`arr
      ensures AreDigits(r.arr, ds + 1, t) && 0 <= c < DV
      ensures LShiftInv(old(arr), r.arr, t, ds, s, Pow2(bs), 0, c)
    {
      hide Seg, B, Pow2, Shl, Shr, Low, Or, LShiftInv, Value;
      ghost var A, T, P := arr, t, Pow2(bs);
      var cbs := DB - bs;
      c := c0;
      LShiftStart(A, r.arr, T, ds, s, bs);
      var i := t - 1;
      while i >= 0
        invariant -1 <= i < t
        invariant forall k :: 0 <= k <= i ==> k in arr && arr[k] == A[k]
        invariant AreDigits(r.arr, i + 2 + ds, t - 1 - i)
        invariant 0 <= c < DV && c % P == 0
        invariant LShiftInv(A, r.arr, T, ds, s, P, i + 1, c)
      {
        ghost var w := r.arr;
        SplitDigit(arr[i], c, bs);
        LShiftStep(A, w, T, ds, s, bs, i, c);
        r.arr := r.arr[i + ds + 1 := Or(Shr(arr[i], cbs), c)];
        assert arr[i] == A[i];
        c := Shl(Low(arr[i], cbs), bs);
        i := i - 1;
      }
    }

    /** The floor of the quotient by 2^n, for either sign. */
    method RShiftTo(n: nat, r: BigInteger)
      requires Wf()
      modifies r
      ensures r.Valid() && r.s == old(s)
      ensures r.Value() == old(Value()) / Pow2(n)
    {
      hide Seg, B, Pow2, Shl, Shr, Low, Or, RShiftInv, SignPart, Value;
      ValueIsDigitsAndSign();
      ghost var A, T, V := arr, t, Value();
      r.s := s;
      var ds := n / DB;
      DropDigits(A, T, s, ds);
      ShiftSplit(n);
      var bs := n % DB;
      ghost var P := Pow2(bs);
      DivTwice(V, B(ds), P);
      if ds >= t {
        r.t := 0;
        SmallDiv(s, P);
        EmptyValue(r.arr, s);
        r.ValueIsDigitsAndSign();
        return;
      }
      ShiftDigitsDown(ds, bs, r);
      RShiftEnd(A, r.arr, ds, bs, T - ds, s);
      if bs > 0 {
        SignLow(s, bs);
        OrHighBits(r.arr[t - ds - 1], if s == 0 then 0 else P - 1, DB - bs, bs);
        r.arr := r.arr[t - ds - 1 := Or(r.arr[t - ds - 1], Shl(Low(s, bs), DB - bs))];
      }
      r.t := t - ds;
      r.ValueIsDigitsAndSign();
      r.Clamp();
    }

    /** The digit loop of rShiftTo. */
    method ShiftDigitsDown(ds: nat, bs: nat, r: BigInteger)
      requires AreDigits(arr, 0, t) && ds < t && bs < DB
      modifies r`arr
      ensures AreDigits(r.arr, 0, t - ds) && r.arr[t - ds - 1] < Pow2(DB - bs)
      ensures RShiftInv(old(arr), r.arr, ds, Pow2(bs), t - ds)
    {
      hide Seg, B, Pow2, Shl, Shr, Low, Or, RShiftInv;
      ghost var A, T, P := arr, t, Pow2(bs);
      var cbs := DB - bs;
      BitsOfDigit(A[ds], bs);
      RShiftStart(A, r.arr, ds, bs);
      r.arr := r.arr[0 := Shr(arr[ds], bs)];
      var i := ds + 1;
      while i < t
        invariant ds + 1 <= i <= t
        invariant forall k :: i <= k < t ==> k in arr && arr[k] == A[k]
        invariant AreDigits(r.arr, 0, i - ds) && r.arr[i - ds - 1] < Pow2(cbs)
        invariant RShiftInv(A, r.arr, ds, P, i - ds)
      {
        BitsOfDigit(A[i], bs);
        OrHighBits(r.arr[i - ds - 1], A[i] % P, cbs, bs);
        RShiftStep(A, r.arr, ds, bs, i - ds);
        ghost var d := arr[i];
        r.arr := r.arr[i - ds - 1 := Or(r.arr[i - ds - 1], Shl(Low(arr[i], bs), cbs))];
        assert arr[i] == d;
        r.arr := r.arr[i - ds := Shr(arr[i], bs)];
        i := i + 1;
      }
    }

    // ----- addition and subtraction

    /** The common end of subTo and addTo: a carry from -2 to 1 out of digit i becomes at most
        one more digit and the sign word. */
    method StoreCarry(i: nat, c: int)
      requires AreDigits(arr, 0, i) && -2 <= c <= 1
      modifies this
      ensures Valid() && Value() == Acc(old(arr), i, c)
      ensures -1 <= c <= 0 ==> arr == old(arr)
    {
      hide Seg, B, Acc;
      LastCarry(arr, i, c);
      s := if c < 0 then -1 else 0;
      t := i;
      if c < -1 {
        arr := arr[i := DV + c];
        t := i + 1;
      } else if c > 0 {
        arr := arr[i := c];
        t := i + 1;
      }
      Clamp();
    }

    method SubTo(a: BigInteger, r: BigInteger)
      requires Wf() && a.Wf()
      modifies r
      ensures r.Valid() && r.Value() == old(Value()) - old(a.Value())
      ensures old(a.t) <= old(t) && -B(old(t)) <= r.Value() < B(old(t)) ==> SameOutside(r.arr, old(r.arr), 0, old(t))
    {
      hide Seg, B, Acc, Value;
      var i, c := SubtractDigits(a, r);
      CarryRange(r.arr, i, c);
      r.StoreCarry(i, c);
    }

    /** The digit loops of subTo; returns the position reached and the carry out of it. */
    method SubtractDigits(a: BigInteger, r: BigInteger) returns (i: nat, c: int)
      requires Wf() && a.Wf()
      modifies r`arr
      ensures i == (if a.t < t then t else a.t) && -2 <= c <= 1 && AreDigits(r.arr, 0, i)
      ensures Acc(r.arr, i, c) == old(Value()) - old(a.Value())
      ensures SameOutside(r.arr, old(r.arr), 0, i)
    {
      hide Seg, B, Acc, Low, Shr;
      ghost var A, X, T, U := arr, a.arr, t, a.t;
      AccEmpty(r.arr);
      i, c := 0, 0;
      var m := if a.t < t then a.t else t;
      while i < m
        invariant 0 <= i <= m
        invariant SameFrom(arr, A, i) && SameFrom(a.arr, X, i)
        invariant SameOutside(r.arr, old(r.arr), 0, i)
        invariant AreDigits(r.arr, 0, i) && -1 <= c <= 0
        invariant Acc(r.arr, i, c) == Seg(A, 0, i) - Seg(X, 0, i)
      {
        AccPlusDigit(r.arr, i, c, A);
        AccMinusDigit(r.arr, i, c + A[i], X);
        c := c + (arr[i] - a.arr[i]);
        PutDigit(r.arr, i, c);
        r.arr := r.arr[i := Low(c, DB)];
        i := i + 1;
        c := Shr(c, DB);
      }
      if a.t < t {
        AccSign(r.arr, i, c, a.s);
        c := c - a.s;
        while i < t
            invariant U <= i <= t
          invariant SameFrom(arr, A, i) && SameOutside(r.arr, old(r.arr), 0, i)
          invariant AreDigits(r.arr, 0, i) && -1 <= c <= 1
          invariant Acc(r.arr, i, c) == Seg(A, 0, i) - old(a.Value())
        {
          AccPlusDigit(r.arr, i, c, A);
          c := c + arr[i];
          PutDigit(r.arr, i, c);
          r.arr := r.arr[i := Low(c, DB)];
          i := i + 1;
          c := Shr(c, DB);
        }
        AccSign(r.arr, i, c, s);
        c := c + s;
      } else {
        AccSign(r.arr, i, c, s);
        c := c + s;
        while i < a.t
            invariant T <= i <= a.t
          invariant SameFrom(a.arr, X, i) && SameOutside(r.arr, old(r.arr), 0, i)
          invariant AreDigits(r.arr, 0, i) && -2 <= c <= 0
          invariant Acc(r.arr, i, c) == old(Value()) - Seg(X, 0, i)
        {
          AccMinusDigit(r.arr, i, c, X);
          c := c - a.arr[i];
          PutDigit(r.arr, i, c);
          r.arr := r.arr[i := Low(c, DB)];
          i := i + 1;
          c := Shr(c, DB);
        }
        AccSign(r.arr, i, c, a.s);
        c := c - a.s;
      }
    }

    method AddTo(a: BigInteger, r: BigInteger)
      requires Wf() && a.Wf()
      modifies r
      ensures r.Valid() && r.Value() == old(Value()) + old(a.Value())
    {
      hide Seg, B, Acc, Value;
      var i, c := AddDigits(a, r);
      r.StoreCarry(i, c);
    }

    /** The digit loops of addTo. */
    method AddDigits(a: BigInteger, r: BigInteger) returns (i: nat, c: int)
      requires Wf() && a.Wf()
      modifies r`arr
      ensures -2 <= c <= 1 && AreDigits(r.arr, 0, i)
      ensures Acc(r.arr, i, c) == old(Value()) + old(a.Value())
    {
      hide Seg, B, Acc, Low, Shr;
      ghost var A, X, T, U := arr, a.arr, t, a.t;
      AccEmpty(r.arr);
      i, c := 0, 0;
      var m := if a.t < t then a.t else t;
      while i < m
        invariant 0 <= i <= m
        invariant SameFrom(arr, A, i) && SameFrom(a.arr, X, i)
        invariant AreDigits(r.arr, 0, i) && 0 <= c <= 1
        invariant Acc(r.arr, i, c) == Seg(A, 0, i) + Seg(X, 0, i)
      {
        AccPlusDigit(r.arr, i, c, A);
        AccPlusDigit(r.arr, i, c + A[i], X);
        c := c + (arr[i] + a.arr[i]);
        PutDigit(r.arr, i, c);
        r.arr := r.arr[i := Low(c, DB)];
        i := i + 1;
        c := Shr(c, DB);
      }
      if a.t < t {
        AccSign(r.arr, i, c, a.s);
        c := c + a.s;
        while i < t
            invariant U <= i <= t
          invariant SameFrom(arr, A, i)
          invariant AreDigits(r.arr, 0, i) && -1 <= c <= 1
          invariant Acc(r.arr, i, c) == Seg(A, 0, i) + old(a.Value())
        {
          AccPlusDigit(r.arr, i, c, A);
          c := c + arr[i];
          PutDigit(r.arr, i, c);
          r.arr := r.arr[i := Low(c, DB)];
          i := i + 1;
          c := Shr(c, DB);
        }
        AccSign(r.arr, i, c, s);
        c := c + s;
      } else {
        AccSign(r.arr, i, c, s);
        c := c + s;
        while i < a.t
            invariant T <= i <= a.t
          invariant SameFrom(a.arr, X, i)
          invariant AreDigits(r.arr, 0, i) && -1 <= c <= 1
          invariant Acc(r.arr, i, c) == old(Value()) + Seg(X, 0, i)
        {
          AccPlusDigit(r.arr, i, c, X);
          c := c + a.arr[i];
          PutDigit(r.arr, i, c);
          r.arr := r.arr[i := Low(c, DB)];
          i := i + 1;
          c := Shr(c, DB);
        }
        AccSign(r.arr, i, c, a.s);
        c := c + a.s;
      }
    }

    method Negate() returns (r: BigInteger)
      requires Wf()
      ensures fresh(r) && r.Valid() && r.Value() == -Value()
    {
      r := new BigInteger();
      var zero := new BigInteger();
      zero.SubTo(this, r);
    }

    method Abs() returns (x: BigInteger)
      requires Valid()
      ensures x == this || fresh(x)
      ensures x == this <==> s == 0
      ensures x.Valid() && x.s == 0 && x.Value() == if Value() < 0 then -Value() else Value()
    {
      SegBound(arr, 0, t);
      if s < 0 {
        x := Negate();
        x.SignOfValue();
      } else {
        x := this;
      }
    }

    // ----- comparison

    /** The sign word tells the sign, and the digit count brackets the magnitude. */
    lemma SignOfValue()
      requires Valid()
      ensures s == 0 ==> 0 <= Value() < B(t) && (t > 0 ==> B(t - 1) <= Value())
      ensures s == 0 ==> NDigits(Value()) == t
      ensures s == -1 ==> -B(t) <= Value() < 0 && (t > 0 ==> Value() < -B(t - 1))
    {
      SegBound(arr, 0, t);
      if t > 0 {
        SegBound(arr, 0, t - 1);
        var d := Digit(arr, t - 1);
        if s == 0 {
          MulLe(1, d, B(t - 1));
        } else {
          MulLe(d, DM - 1, B(t - 1));
        }
      }
      if s == 0 {
        NDigitsBounds(Value(), t);
      }
    }

    /** The sign of the result is the sign of this - a exactly when the operands are not two
        negative numbers of different lengths; in that case it is the opposite sign. */
    method CompareTo(a: BigInteger) returns (r: int)
      requires Wf() && a.Wf() && ((s == a.s && t == a.t) || (Clamped() && a.Clamped()))
      ensures !(s == -1 && a.s == -1 && t != a.t) ==>
                (r < 0 <==> Value() < a.Value()) && (r == 0 <==> Value() == a.Value())
      ensures s == -1 && a.s == -1 && t != a.t ==>
                (r < 0 <==> Value() > a.Value()) && r != 0 && Value() != a.Value()
    {
      if s != a.s || t != a.t {
        SignOfValue();
        a.SignOfValue();
      }
      r := s - a.s;
      if r != 0 {
        return;
      }
      var i := t;
      r := i - a.t;
      if r != 0 {
        if t < a.t {
          BMonotone(t, a.t - 1);
        } else {
          BMonotone(a.t, t - 1);
        }
        return;
      }
      while i > 0
        invariant 0 <= i <= t && r == 0
        invariant forall k :: i <= k < t ==> arr[k] == a.arr[k]
      {
        i := i - 1;
        r := arr[i] - a.arr[i];
        if r != 0 {
          TopDigitDecides(arr, a.arr, t, i);
          return;
        }
      }
      SegSame(arr, 0, a.arr, 0, t);
    }

    /** The representation is canonical: numbers of equal value have the same sign word, the same
        count and the same digits. */
    lemma SameValueSameDigits(a: BigInteger)
      requires Valid() && a.Valid() && Value() == a.Value()
      ensures s == a.s && t == a.t && forall k :: 0 <= k < t ==> arr[k] == a.arr[k]
    {
      hide Seg, B, NDigits;
      SignOfValue();
      a.SignOfValue();
      SegBound(arr, 0, t);
      SegBound(a.arr, 0, a.t);
      if t < a.t {
        BMonotone(t, a.t - 1);
      } else if a.t < t {
        BMonotone(a.t, t - 1);
      }
      forall k | 0 <= k < t ensures arr[k] == a.arr[k] {
        SegUnique(arr, 0, a.arr, 0, t, k);
      }
    }

    method SigNum() returns (r: int)
      requires Valid()
      ensures r == if Value() < 0 then -1 else if Value() == 0 then 0 else 1
    {
      SignOfValue();
      if s < 0 {
        return -1;
      } else if t <= 0 || (t == 1 && arr[0] <= 0) {
        return 0;
      } else {
        return 1;
      }
    }

    method IsEven() returns (even: bool)
      requires Wf()
      ensures even <==> Value() % 2 == 0
    {
      if t > 0 {
        SegLow(arr, 0, t);
        ghost var rest := Seg(arr, 1, t - 1) + s * B(t - 1);
        assert Value() == arr[0] + 2 * (0x800_0000 * rest);
      }
      even := (if t > 0 then arr[0] % 2 else s) == 0;
    }

    // ----- multiply and accumulate

    /** w[j..j+n] += x * this[i..i+n] + c0; returns the carry out of the top.  The 14-bit halves
        of the digits keep every intermediate below 2^31. */
    method Am3(i0: nat, x: int, w: BigInteger, j0: nat, c0: int, n0: nat) returns (c: int)
      requires 0 <= x < 2 * DV && 0 <= c0 < 3 * DV
      requires AreDigits(arr, i0, n0) && AreDigits(w.arr, j0, n0)
      requires w != this || i0 == j0
      modifies w`arr
      ensures AreDigits(w.arr, j0, n0)
      ensures 0 <= c < 3 * DV && (c0 <= x ==> c <= x)
      ensures RowSum(w.arr, old(w.arr), old(arr), i0, j0, n0, x, c0, c)
      ensures SameOutside(w.arr, old(w.arr), j0, j0 + n0)
    {
      hide Seg, B, RowSum, Low, Shr, Shl;
      ghost var A, W := arr, w.arr;
      RowStart(W, A, i0, j0, x, c0);
      var i, j, n := i0, j0, n0;
      c := c0;
      var xl, xh := Low(x, 14), Shr(x, 14);
      while n > 0
        modifies w`arr
        invariant 0 <= n <= n0 && i == i0 + n0 - n && j == j0 + n0 - n
        invariant SameFrom(arr, A, i) && SameFrom(w.arr, W, j)
        invariant SameOutside(w.arr, W, j0, j)
        invariant AreDigits(w.arr, j0, j - j0)
        invariant 0 <= c < 3 * DV && (c0 <= x ==> c <= x)
        invariant RowSum(w.arr, W, A, i0, j0, j - j0, x, c0, c)
      {
        n := n - 1;
        ghost var k := j - j0;
        Am3Digit(x, A[i], W[j], c);
        ghost var c' := c;
        var l := Low(arr[i], 14);
        var h := Shr(arr[i], 14);
        var m := xh * l + h * xl;
        l := xl * l + Shl(Low(m, 14), 14) + w.arr[j] + c;
        c := Shr(l, DB) + Shr(m, 14) + xh * h;
        Am3Carry(x, A[i], W[j], c', c, Low(l, DB));
        RowStep(w.arr, W, A, i0, j0, k, x, c0, c', Low(l, DB), c);
        w.arr := w.arr[j := Low(l, DB)];
        i, j := i + 1, j + 1;
      }
    }

    /** The loop that clears the low digits of a result. */
    method ClearDigits(n: nat)
      modifies this`arr
      ensures forall k :: 0 <= k < n ==> k in arr && arr[k] == 0
      ensures SameOutside(arr, old(arr), 0, n)
    {
      var i := n;
      while i > 0
        invariant 0 <= i <= n && SameOutside(arr, old(arr), 0, n)
        invariant forall k :: i <= k < n ==> k in arr && arr[k] == 0
      {
        i := i - 1;
        arr := arr[i := 0];
      }
    }

    method MultiplyTo(a: BigInteger, r: BigInteger)
      requires Valid() && a.Valid()
      requires r != this && r != a
      modifies r
      ensures r.Valid() && r.Value() == Value() * a.Value()
    {
      hide Seg, B, Times, Value;
      SignOfValue();
      a.SignOfValue();
      AbsTimes(Value(), a.Value());
      var x := Abs();
      var y := a.Abs();
      x.MultiplyMagnitudes(y, r);
      if s != a.s {
        var zero := new BigInteger();
        zero.SubTo(r, r);
      }
    }

    /** The row loop of multiplyTo, on the absolute values. */
    method MultiplyMagnitudes(y: BigInteger, r: BigInteger)
      requires Valid() && y.Valid() && s == 0 && y.s == 0
      requires r != this && r != y
      modifies r
      ensures r.Valid() && r.Value() == Times(Value(), y.Value())
    {
      hide Seg, B, Times, Value, RowSum;
      NonNegativeValue();
      y.NonNegativeValue();
      ghost var X, T, Y := arr, t, y.arr;
      var i := t;
      r.t := i + y.t;
      r.ClearDigits(i);
      i := 0;
      MultiplyStart(X, T, Y, r.arr);
      while i < y.t
        modifies r`arr
        invariant 0 <= i <= y.t
        invariant AreDigits(r.arr, 0, T + i)
        invariant Seg(r.arr, 0, T + i) == Times(Seg(X, 0, T), Seg(Y, 0, i))
      {
        ghost var W := r.arr;
        var c := Am3(0, y.arr[i], r, i, 0, t);
        MultiplyRow(X, T, Y, W, r.arr, c, i);
        r.arr := r.arr[i + t := c];
        i := i + 1;
      }
      r.s := 0;
      r.NonNegativeValue();
      r.Clamp();
    }

    /** Row i of a square: x_i^2 and twice x_i times the digits above it. */
    method AddSquareRow(i: nat, r: BigInteger)
      requires Wf() && r != this && i + 1 < t
      requires AreDigits(r.arr, 0, 2 * t) && SquareInv(arr, r.arr, t, i)
      requires r.arr[i + t] <= 1 && forall k :: i + t < k < 2 * t ==> r.arr[k] == 0
      modifies r`arr
      ensures AreDigits(r.arr, 0, 2 * t) && SquareInv(arr, r.arr, t, i + 1)
      ensures r.arr[i + 1 + t] <= 1 && forall k :: i + 1 + t < k < 2 * t ==> r.arr[k] == 0
    {
      hide Seg, B, RowSum, SquareInv;
      ghost var X, T := arr, t;
      ghost var W := r.arr;
      var c := Am3(i, arr[i], r, 2 * i, 0, 1);
      ghost var W1 := r.arr;
      var c2 := Am3(i + 1, 2 * arr[i], r, 2 * i + 1, c, t - i - 1);
      ghost var W2 := r.arr;
      r.arr := r.arr[i + t := r.arr[i + t] + c2];
      SquareRow(X, T, i, W, W1, W2, c, c2);
      if r.arr[i + t] >= DV {
        ghost var W3 := r.arr;
        r.arr := r.arr[i + t := r.arr[i + t] - DV];
        ghost var W4 := r.arr;
        r.arr := r.arr[i + t + 1 := 1];
        SquareOverflow(X, W3, W4, T, i);
      }
    }

    method SquareTo(r: BigInteger)
      requires Valid()
      requires r != this
      modifies r
      ensures r.Valid() && r.Value() == Value() * Value()
    {
      hide Seg, B, Square, Value;
      SignOfValue();
      SquareOfAbs(Value());
      var x := Abs();
      x.SquareMagnitude(r);
    }

    /** The rows of squareTo, on the absolute value. */
    method SquareMagnitude(r: BigInteger)
      requires Valid() && s == 0
      requires r != this
      modifies r
      ensures r.Valid() && r.Value() == Square(Value())
    {
      hide Seg, B, Square, SquareInv, Value;
      NonNegativeValue();
      r.t := 2 * t;
      r.ClearDigits(r.t);
      SquareStart(arr, r.arr, t);
      AddSquareRows(r);
      if r.t == 0 {
        SquareEmpty(arr, r.arr);
      }
      r.s := 0;
      r.NonNegativeValue();
      r.Clamp();
    }

    method AddSquareRows(r: BigInteger)
      requires Wf() && r != this && r.t == 2 * t
      requires SquareInv(arr, r.arr, t, 0) && forall k :: 0 <= k < 2 * t ==> k in r.arr && r.arr[k] == 0
      modifies r`arr
      ensures AreDigits(r.arr, 0, 2 * t)
      ensures t > 0 ==> Seg(r.arr, 0, 2 * t) == Square(Seg(arr, 0, t))
    {
      hide Seg, B, RowSum, Square, SquareInv;
      var i := 0;
      while i < t - 1
        invariant 0 <= i && (t > 0 ==> i <= t - 1) && (t == 0 ==> i == 0)
        invariant AreDigits(r.arr, 0, 2 * t) && SquareInv(arr, r.arr, t, i)
        invariant t > 0 ==> r.arr[i + t] <= 1
        invariant forall k :: i + t < k < 2 * t ==> r.arr[k] == 0
      {
        AddSquareRow(i, r);
        i := i + 1;
      }
      if r.t > 0 {
        ghost var W := r.arr;
        var c := Am3(i, arr[i], r, 2 * i, 0, 1);
        SquareLast(arr, t, W, r.arr, c);
        r.arr := r.arr[r.t - 1 := r.arr[r.t - 1] + c];
      }
    }
  }

  lemma EmptyValue(w: Array, s: int)
    requires s == 0 || s == -1
    ensures Seg(w, 0, 0) + SignPart(s, B(0)) == s
    ensures forall k :: Seg(w, k, 0) == 0
  {
  }

  lemma CarryRange(w: Array, n: nat, c: int)
    requires AreDigits(w, 0, n) && -2 <= c <= 1
    ensures -B(n) <= Acc(w, n, c) < B(n) ==> -1 <= c <= 0
  {
    hide B, Seg;
    SegBound(w, 0, n);
    assert c == -2 ==> c * B(n) == -2 * B(n);
  }

  // ----- shifting by digits

  lemma DigitsUp(A: Array, w: Array, T: nat, s: int, n: nat)
    requires forall k :: n <= k < T + n ==> k in w && k - n in A && w[k] == A[k - n]
    requires forall k :: 0 <= k < n ==> k in w && w[k] == 0
    ensures Seg(w, 0, T + n) + SignPart(s, B(T + n)) == (Seg(A, 0, T) + SignPart(s, B(T))) * B(n)
  {
    hide Seg, B;
    SegZero(w, 0, n);
    SegSame(w, n, A, 0, T);
    SegSplit(w, 0, n, T);
    BAdd(n, T);
    Distrib(B(n), Seg(A, 0, T), B(T));
  }

  lemma DigitsDown(A: Array, w: Array, T: nat, s: int, n: nat)
    requires AreDigits(A, 0, T) && (s == 0 || s == -1)
    requires forall k :: 0 <= k < T - n ==> k in w && w[k] == A[k + n]
    ensures var m := if T > n then T - n else 0;
            Seg(w, 0, m) + SignPart(s, B(m)) == (Seg(A, 0, T) + SignPart(s, B(T))) / B(n)
    ensures forall k :: 0 <= k < T - n ==> k in w && 0 <= w[k] < DV
    ensures T > n ==> Digit(w, T - n - 1) == Digit(A, T - 1)
  {
    hide Seg, B;
    DropDigits(A, T, s, n);
    if T > n {
      SegSame(w, 0, A, n, T - n);
    } else {
      EmptyValue(w, s);
    }
  }

  // ----- shifting left

  /** A shift by n bits is n / 28 digits and n % 28 bits. */
  lemma ShiftSplit(n: nat)
    ensures Pow2(n) == B(n / DB) * Pow2(n % DB)
    ensures Pow2(n % DB) * Pow2(DB - n % DB) == DV
    ensures 1 <= Pow2(n % DB) <= 0x800_0000 && 2 <= Pow2(DB - n % DB)
  {
    BIsPow2(n / DB);
    Pow2Add(28 * (n / DB), n % DB);
    Pow2Add(n % DB, DB - n % DB);
    Pow2Constants();
    Pow2Monotone(n % DB, 27);
    Pow2Add(27, 1);
    Pow2Monotone(1, DB - n % DB);
  }

  lemma SignBits(s: int, bs: nat)
    requires bs < DB && (s == 0 || s == -1)
    ensures Low(Shl(s, bs), DB) == if s == 0 then 0 else DV - Pow2(bs)
    ensures 0 <= Low(Shl(s, bs), DB) < DV && Low(Shl(s, bs), DB) % Pow2(bs) == 0
  {
    hide Pow2;
    ShiftSplit(bs);
    Pow2Constants();
    var p, q := Pow2(bs), Pow2(DB - bs);
    if s == -1 {
      ToInt32Small(-1);
      ToInt32Small(-p);
      assert Shl(s, bs) == -p;
      DivModUnique(-p, DV, -1, DV - p);
      Distrib(p, q, 1);
      DivModUnique(DV - p, p, q - 1, 0);
    } else {
      ToInt32Small(0);
      DivModUnique(0, p, 0, 0);
    }
  }

  /** Splitting a digit for a shift left by bs bits. */
  lemma SplitDigit(d: int, c: int, bs: nat)
    requires bs < DB && 0 <= d < DV && 0 <= c < DV && c % Pow2(bs) == 0
    ensures var p, q := Pow2(bs), Pow2(DB - bs);
            && Shr(d, DB - bs) == d / q && Low(d, DB - bs) == d % q && 0 <= d / q
            && Or(d / q, c) == d / q + c < DV
            && Shl(d % q, bs) == (d % q) * p && 0 <= (d % q) * p < DV && ((d % q) * p) % p == 0
  {
    hide Pow2, Or, Shl;
    ShiftSplit(bs);
    var p, q := Pow2(bs), Pow2(DB - bs);
    DivMod(d, q);
    DivLt(d, q, p);
    DivGe(d, q, 0);
    ToInt32Small(d);
    DivMod(c, p);
    DivLt(c, p, q);
    DivGe(c, p, 0);
    Swap(p, c / p);
    OrLowBits(d / q, c / p, bs);
    RaiseBits(d % q, bs);
  }

  /** Filling the low bits that a shift has freed. */
  lemma OrLowBits(x: nat, h: nat, bs: nat)
    requires bs < DB && x < Pow2(bs) && h < Pow2(DB - bs)
    ensures h * Pow2(bs) >= 0 && Or(x, h * Pow2(bs)) == x + h * Pow2(bs) < DV
  {
    hide Pow2, Or;
    ShiftSplit(bs);
    FillBound(x, h, Pow2(bs), Pow2(DB - bs));
    OrDisjoint(h, x, bs);
    OrSymmetric(h * Pow2(bs), x);
  }

  lemma RaiseBits(m: nat, bs: nat)
    requires bs < DB && m < Pow2(DB - bs)
    ensures Shl(m, bs) == m * Pow2(bs) && 0 <= m * Pow2(bs) < DV && (m * Pow2(bs)) % Pow2(bs) == 0
  {
    hide Pow2;
    ShiftSplit(bs);
    var p, q := Pow2(bs), Pow2(DB - bs);
    MulLt(m, q, p);
    MulNonneg(m, p);
    MulLe(1, p, q);
    ToInt32Small(m);
    ToInt32Small(m * p);
    DivModUnique(m * p, p, m, 0);
  }

  /** Digits k and up are shifted; c waits for the place just below them. */
  ghost predicate LShiftInv(A: Array, w: Array, T: nat, ds: nat, s: int, p: int, k: nat, c: int)
    requires k <= T
  {
    p * (Seg(A, k, T - k) + SignPart(s, B(T - k))) ==
    DV * (Seg(w, k + ds + 1, T - k) + SignPart(s, B(T - k))) + c
  }

  lemma LShiftStart(A: Array, w: Array, T: nat, ds: nat, s: int, bs: nat)
    requires bs < DB && (s == 0 || s == -1)
    ensures LShiftInv(A, w, T, ds, s, Pow2(bs), T, Low(Shl(s, bs), DB))
  {
    hide Pow2, Low, Shl, Seg, B;
    SignBits(s, bs);
    EmptyValue(A, s);
    EmptyValue(w, s);
    var p := Pow2(bs);
    assert s == -1 ==> p * s == -p;
  }

  lemma LShiftStep(A: Array, w: Array, T: nat, ds: nat, s: int, bs: nat, i: nat, c: int)
    requires i < T && bs < DB && i in A && 0 <= A[i] < DV
    requires LShiftInv(A, w, T, ds, s, Pow2(bs), i + 1, c)
    ensures var p, q := Pow2(bs), Pow2(DB - bs);
            LShiftInv(A, w[i + ds + 1 := A[i] / q + c], T, ds, s, p, i, (A[i] % q) * p)
  {
    hide Seg, Pow2;
    ShiftSplit(bs);
    var n := T - 1 - i;
    var w' := w[i + ds + 1 := A[i] / Pow2(DB - bs) + c];
    SegLow(A, i, n + 1);
    SegLow(w', i + ds + 1, n + 1);
    SegSame(w', i + ds + 2, w, i + ds + 2, n);
    assert SignPart(s, B(n + 1)) == DV * SignPart(s, B(n));
    LShiftProducts(Pow2(bs), Pow2(DB - bs), Seg(A, i + 1, n) + SignPart(s, B(n)),
                   Seg(w, i + ds + 2, n) + SignPart(s, B(n)), c, A[i]);
  }

  lemma LShiftProducts(p: int, q: int, h: int, r: int, c: int, d: int)
    requires q > 0 && p * q == DV && p * h == DV * r + c
    ensures p * (d + DV * h) == DV * (DV * r + c + d / q) + (d % q) * p
  {
    DivMod(d, q);
    Assoc(p, q, d / q);
    Distrib(p, q * (d / q), d % q);
    Distrib(p, d, DV * h);
    assert p * (DV * h) == DV * (p * h);
  }

  lemma LShiftEndProducts(b: int, p: int, v: int, hi: int, s': int)
    requires s' + hi == p * v
    ensures b * s' + b * hi == v * (b * p)
  {
    Distrib(b, s', hi);
    assert b * (p * v) == v * (b * p);
  }

  lemma LShiftEnd(A: Array, w: Array, w': Array, T: nat, s: int, n: nat, c: int)
    requires LShiftInv(A, w, T, n / DB, s, Pow2(n % DB), 0, c)
    requires forall k :: n / DB < k < T + n / DB + 1 ==> k in w && k in w' && w'[k] == w[k]
    requires forall k :: 0 <= k < n / DB ==> k in w' && w'[k] == 0
    requires n / DB in w' && w'[n / DB] == c
    ensures Seg(w', 0, T + n / DB + 1) + SignPart(s, B(T + n / DB + 1)) ==
            (Seg(A, 0, T) + SignPart(s, B(T))) * Pow2(n)
  {
    hide Seg, Pow2;
    var ds, p := n / DB, Pow2(n % DB);
    SegZero(w', 0, ds);
    SegSplit(w', 0, ds, T + 1);
    SegLow(w', ds, T + 1);
    SegSame(w', ds + 1, w, ds + 1, T);
    BAdd(ds, T + 1);
    assert B(T + 1) == DV * B(T);
    ShiftSplit(n);
    hide B;
    LShiftEndProducts(B(ds), p, Seg(A, 0, T) + SignPart(s, B(T)), SignPart(s, B(T + 1)), Seg(w', ds, T + 1));
    assert s != 0 ==> SignPart(s, B(ds + (T + 1))) == B(ds) * SignPart(s, B(T + 1)) by {
      Distrib(B(ds), 0, B(T + 1));
    }
  }

  // ----- shifting right

  lemma DivTwice(v: int, b: int, p: int)
    requires b > 0 && p > 0
    ensures b * p > 0 && v / (b * p) == (v / b) / p
  {
    var x := v / b;
    DivMod(v, b);
    DivMod(x, p);
    MulLe(x % p, p - 1, b);
    MulNonneg(x % p, b);
    MulLt(0, p, b);
    DivTwiceProducts(b, p, x / p, x % p);
    DivModUnique(v, b * p, x / p, b * (x % p) + v % b);
  }

  lemma DivTwiceProducts(b: int, p: int, y: int, m: int)
    ensures b * (p * y + m) == (b * p) * y + b * m
    ensures m * b == b * m && p * b == b * p && (p - 1) * b == b * p - b
  {
  }

  lemma SmallDiv(s: int, p: int)
    requires p > 0 && (s == 0 || s == -1)
    ensures s / p == s
  {
    DivModUnique(s, p, s, s - p * s);
  }

  lemma BitsOfDigit(d: int, bs: nat)
    requires bs < DB && 0 <= d < DV
    ensures Low(d, bs) == d % Pow2(bs) && Shr(d, bs) == d / Pow2(bs)
    ensures 0 <= d / Pow2(bs) < Pow2(DB - bs) <= DV
  {
    hide Pow2;
    ShiftSplit(bs);
    var p, q := Pow2(bs), Pow2(DB - bs);
    DivLt(d, p, q);
    DivGe(d, p, 0);
    MulLe(1, p, q);
    ToInt32Small(d);
  }

  /** Filling the free high bits of a digit. */
  lemma OrHighBits(x: int, y: int, cbs: nat, bs: nat)
    requires cbs + bs == DB && 0 <= x < Pow2(cbs) && 0 <= y < Pow2(bs) && 0 < cbs
    ensures 0 <= y * Pow2(cbs) == Shl(y, cbs)
    ensures 0 <= Or(x, Shl(y, cbs)) == x + y * Pow2(cbs) < DV
  {
    hide Pow2, Or;
    ShiftSplit(bs);
    var p, q := Pow2(bs), Pow2(cbs);
    MulNonneg(y, q);
    MulLt(y, p, q);
    ToInt32Small(y);
    ToInt32Small(y * q);
    OrDisjoint(y, x, cbs);
    OrSymmetric(x, y * q);
  }

  lemma SignLow(s: int, bs: nat)
    requires bs < DB && (s == 0 || s == -1)
    ensures Low(s, bs) == if s == 0 then 0 else Pow2(bs) - 1
  {
    hide Pow2;
    ToInt32Small(s);
    DivModUnique(s, Pow2(bs), s, if s == 0 then 0 else Pow2(bs) - 1);
  }

  /** n digits are shifted, the last of them still short of its high bits. */
  ghost predicate RShiftInv(A: Array, w: Array, ds: nat, p: int, n: nat)
    requires p > 0
  {
    p * Seg(w, 0, n) + Digit(A, ds) % p == Seg(A, ds, n)
  }

  lemma RShiftStart(A: Array, w: Array, ds: nat, bs: nat)
    requires bs < DB
    ensures RShiftInv(A, w[0 := Digit(A, ds) / Pow2(bs)], ds, Pow2(bs), 1)
  {
    hide Pow2;
    SegOne(w[0 := Digit(A, ds) / Pow2(bs)], 0);
    SegOne(A, ds);
    DivMod(Digit(A, ds), Pow2(bs));
  }

  lemma RShiftStep(A: Array, w: Array, ds: nat, bs: nat, n: nat)
    requires bs < DB && n > 0 && RShiftInv(A, w, ds, Pow2(bs), n)
    ensures var p, q, d := Pow2(bs), Pow2(DB - bs), Digit(A, ds + n);
            RShiftInv(A, w[n - 1 := Digit(w, n - 1) + (d % p) * q][n := d / p], ds, p, n + 1)
  {
    hide Seg, Pow2;
    var p, q, d := Pow2(bs), Pow2(DB - bs), Digit(A, ds + n);
    ShiftSplit(bs);
    var w1 := w[n - 1 := Digit(w, n - 1) + (d % p) * q];
    SegUpdate(w, n - 1, Digit(w, n - 1) + (d % p) * q, 0, n);
    SegUpdate(w1, n, d / p, 0, n);
    SegTop(w1[n := d / p], 0, n);
    SegTop(A, ds, n);
    assert B(n) == DV * B(n - 1);
    RShiftProducts(p, q, d, B(n - 1), Seg(w, 0, n));
  }

  lemma RShiftProducts(p: int, q: int, d: int, b: int, seg: int)
    requires p > 0 && p * q == DV
    ensures p * (seg + ((d % p) * q) * b + (d / p) * (DV * b)) == p * seg + d * (DV * b)
  {
    DivMod(d, p);
    var m, e := d % p, d / p;
    assert p * ((m * q) * b) == m * (DV * b) by {
      assert p * ((m * q) * b) == m * ((p * q) * b);
    }
    assert p * (e * (DV * b)) == (p * e) * (DV * b);
    assert (p * e + m) * (DV * b) == (p * e) * (DV * b) + m * (DV * b);
  }

  lemma RShiftEnd(A: Array, w: Array, ds: nat, bs: nat, n: nat, s: int)
    requires bs < DB && n > 0 && (s == 0 || s == -1) && RShiftInv(A, w, ds, Pow2(bs), n)
    ensures var p, q := Pow2(bs), Pow2(DB - bs);
            var y := if s == 0 then 0 else p - 1;
            var w' := if bs > 0 then w[n - 1 := Digit(w, n - 1) + y * q] else w;
            Seg(w', 0, n) + SignPart(s, B(n)) == (Seg(A, ds, n) + SignPart(s, B(n))) / p
  {
    hide Seg;
    var p, q := Pow2(bs), Pow2(DB - bs);
    ShiftSplit(bs);
    var y := if s == 0 then 0 else p - 1;
    var w' := if bs > 0 then w[n - 1 := Digit(w, n - 1) + y * q] else w;
    SegUpdate(w, n - 1, Digit(w, n - 1) + y * q, 0, n);
    assert B(n) == DV * B(n - 1);
    assert bs == 0 ==> p == 1;
    hide Pow2, B;
    RShiftSign(p, q, y, B(n - 1), Seg(w, 0, n));
    var low := Digit(A, ds) % p;
    assert p * (Seg(w', 0, n) + SignPart(s, B(n))) + low == Seg(A, ds, n) + SignPart(s, B(n)) by {
      Distrib(p, Seg(w', 0, n), B(n));
      Distrib(B(n), p, 1);
    }
    DivModUnique(Seg(A, ds, n) + SignPart(s, B(n)), p, Seg(w', 0, n) + SignPart(s, B(n)), low);
  }

  lemma RShiftSign(p: int, q: int, y: int, b: int, seg: int)
    requires p * q == DV
    ensures p * (seg + (y * q) * b) == p * seg + y * (DV * b)
  {
    assert p * ((y * q) * b) == y * ((p * q) * b);
  }

  // ----- multiply-accumulate

  /** With a multiplier below 2^29 and a carry below 3 * 2^28 the three partial results stay
      below 2^31, and the digit and the carry add up to the exact product sum. */
  lemma Am3Digit(x: int, a: int, w: int, c: int)
    requires 0 <= x < 2 * DV && 0 <= a < DV && 0 <= w < DV && 0 <= c < 3 * DV
    ensures var xl, xh, l, h := Low(x, 14), Shr(x, 14), Low(a, 14), Shr(a, 14);
            var m := xh * l + h * xl;
            var r := xl * l + Shl(Low(m, 14), 14) + w + c;
            && 0 <= m < 0x8000_0000 && 0 <= r < 0x8000_0000 && 0 <= Low(r, DB) < DV
            && Low(r, DB) + DV * (Shr(r, DB) + Shr(m, 14) + xh * h) == x * a + w + c
  {
    hide Pow2;
    Pow2Constants();
    ToInt32Small(x);
    ToInt32Small(a);
    var xl, xh, l, h := x % 0x4000, x / 0x4000, a % 0x4000, a / 0x4000;
    Halves(xl, xh, l, h);
    var m := xh * l + h * xl;
    ToInt32Small(m);
    ToInt32Small(m % 0x4000);
    ToInt32Small((m % 0x4000) * 0x4000);
    var r := xl * l + (m % 0x4000) * 0x4000 + w + c;
    ToInt32Small(r);
  }

  lemma Halves(xl: int, xh: int, l: int, h: int)
    requires 0 <= xl < 0x4000 && 0 <= xh < 0x8000 && 0 <= l < 0x4000 && 0 <= h < 0x4000
    ensures 0 <= xl * l <= 0x3FFF * 0x3FFF && 0 <= xh * l <= 0x7FFF * 0x3FFF && 0 <= h * xl <= 0x3FFF * 0x3FFF
    ensures 0 <= xh * h
    ensures (xl + 0x4000 * xh) * (l + 0x4000 * h) == xl * l + 0x4000 * (xh * l + h * xl) + DV * (xh * h)
  {
    MulLe(0, xl, l);
    MulLe(xl, 0x3FFF, l);
    MulLe(0, xh, l);
    MulLe(xh, 0x7FFF, l);
    MulLe(0, h, xl);
    MulLe(h, 0x3FFF, xl);
    MulLe(0, xh, h);
    HalvesProduct(xl, xh, l, h);
  }

  lemma HalvesProduct(xl: int, xh: int, l: int, h: int)
    ensures (xl + 0x4000 * xh) * (l + 0x4000 * h) == xl * l + 0x4000 * (xh * l + h * xl) + DV * (xh * h)
  {
    Distrib(xl + 0x4000 * xh, l, 0x4000 * h);
    assert (xl + 0x4000 * xh) * l == xl * l + 0x4000 * (xh * l);
    assert (xl + 0x4000 * xh) * (0x4000 * h) == 0x4000 * (xl * h) + DV * (xh * h);
  }

  /** The carry of one step never exceeds the multiplier once the carry in does not. */
  lemma Am3Carry(x: int, a: int, w: int, c: int, c1: int, d: int)
    requires 0 <= x < 2 * DV && 0 <= a < DV && 0 <= w < DV && 0 <= c < 3 * DV
    requires 0 <= d < DV && d + DV * c1 == x * a + w + c
    ensures 0 <= c1 < 3 * DV && (c <= x ==> c1 <= x)
  {
    MulNonneg(x, a);
    MulLe(a, DM, x);
  }

  /** n digits of w' hold those of w plus x times those of A, with carries c0 in and c out. */
  ghost predicate RowSum(w': Array, w: Array, A: Array, i: nat, j: nat, n: nat, x: int, c0: int, c: int) {
    Seg(w', j, n) + c * B(n) == Seg(w, j, n) + (x * Seg(A, i, n) + c0)
  }

  lemma RowStart(w: Array, A: Array, i: nat, j: nat, x: int, c0: int)
    ensures RowSum(w, w, A, i, j, 0, x, c0, c0)
  {
  }

  lemma RowStep(w': Array, w: Array, A: Array, i: nat, j: nat, n: nat, x: int, c0: int, c: int,
                d: int, c1: int)
    requires RowSum(w', w, A, i, j, n, x, c0, c)
    requires d + DV * c1 == x * Digit(A, i + n) + Digit(w, j + n) + c
    ensures RowSum(w'[j + n := d], w, A, i, j, n + 1, x, c0, c1)
  {
    hide Seg;
    SegUpdate(w', j + n, d, j, n);
    SegTop(w'[j + n := d], j, n);
    SegTop(w, j, n);
    SegTop(A, i, n);
    assert B(n + 1) == DV * B(n);
    RowProducts(x, Digit(A, i + n), Digit(w, j + n), c, c1, d, B(n), Seg(A, i, n));
  }

  lemma RowProducts(x: int, a: int, w: int, c: int, c1: int, d: int, b: int, seg: int)
    requires d + DV * c1 == x * a + w + c
    ensures d * b + c1 * (DV * b) == w * b + x * (seg + a * b) - x * seg + c * b
  {
    assert (d + DV * c1) * b == d * b + c1 * (DV * b);
    assert (x * a + w + c) * b == (x * a) * b + w * b + c * b;
    Assoc(x, a, b);
    Distrib(x, seg, a * b);
  }

  /** A product the solver does not look into. */
  ghost function Times(x: int, y: int): int {
    x * y
  }

  /** The product of two numbers from the product of their magnitudes. */
  lemma AbsTimes(v: int, u: int)
    ensures var m := Times(if v < 0 then -v else v, if u < 0 then -u else u);
            v * u == if (v < 0) == (u < 0) then m else -m
  {
  }

  lemma MultiplyStart(X: Array, T: nat, Y: Array, w: Array)
    requires forall k :: 0 <= k < T ==> k in w && w[k] == 0
    ensures Seg(w, 0, T) == Times(Seg(X, 0, T), Seg(Y, 0, 0))
  {
    SegZero(w, 0, T);
  }

  lemma MultiplyRow(X: Array, T: nat, Y: Array, W: Array, W': Array, c: int, i: nat)
    requires SameOutside(W', W, i, i + T)
    requires RowSum(W', W, X, 0, i, T, Digit(Y, i), 0, c)
    requires Seg(W, 0, T + i) == Times(Seg(X, 0, T), Seg(Y, 0, i))
    ensures Seg(W'[i + T := c], 0, T + i + 1) == Times(Seg(X, 0, T), Seg(Y, 0, i + 1))
  {
    hide Seg, B;
    var x, y := Seg(X, 0, T), Digit(Y, i);
    AddAt(W, W', i, T, c, y * x);
    SegUpdate(W', i + T, c, 0, i + T);
    SegTop(W'[i + T := c], 0, i + T);
    SegTop(Y, 0, i);
    Distrib(x, Seg(Y, 0, i), y * B(i));
    Assoc(x, y, B(i));
  }

  // ----- squaring

  function Square(x: int): int {
    x * x
  }

  lemma SquareOfAbs(v: int)
    ensures v * v == Square(if v < 0 then -v else v)
  {
  }

  /** What is left of the square after i rows is the square of the digits from i on. */
  ghost predicate SquareInv(X: Array, w: Array, T: nat, i: nat)
    requires i <= T
  {
    Seg(w, 0, 2 * T) + B(2 * i) * Square(Seg(X, i, T - i)) == Square(Seg(X, 0, T))
  }

  lemma SquareStart(X: Array, w: Array, T: nat)
    requires forall k :: 0 <= k < 2 * T ==> k in w && w[k] == 0
    ensures SquareInv(X, w, T, 0)
  {
    SegZero(w, 0, 2 * T);
  }

  lemma SquareEmpty(X: Array, w: Array)
    ensures Seg(w, 0, 0) == Square(Seg(X, 0, 0))
  {
  }

  /** Row i adds x_i^2 at digit 2i and 2 x_i times the higher digits at digit 2i+1. */
  lemma SquareRow(X: Array, T: nat, i: nat, W: Array, W1: Array, W2: Array, c: int, c2: int)
    requires i + 1 < T && SquareInv(X, W, T, i)
    requires SameOutside(W1, W, 2 * i, 2 * i + 1)
    requires SameOutside(W2, W1, 2 * i + 1, i + T)
    requires RowSum(W1, W, X, i, 2 * i, 1, Digit(X, i), 0, c)
    requires RowSum(W2, W1, X, i + 1, 2 * i + 1, T - i - 1, 2 * Digit(X, i), c, c2)
    ensures SquareInv(X, W2[i + T := Digit(W2, i + T) + c2], T, i + 1)
  {
    hide Seg;
    var x, R := Digit(X, i), Seg(X, i + 1, T - i - 1);
    SegOne(X, i);
    AddRowBelow(W, W1, 2 * i, 1, c, x * x, 2 * T);
    AddRow(W1, W2, 2 * i + 1, T - i - 1, c2, 2 * x * R + c, 2 * T);
    SegLow(X, i, T - i);
    var b := B(2 * i);
    assert B(2 * i + 1) == DV * b && B(2 * (i + 1)) == DV * (DV * b);
    hide B;
    SquareProducts(x, R, b, c);
  }

  /** A row whose carry is still to be added: the digits of W1 lack c at digit j+n. */
  lemma AddRowBelow(w: Array, w': Array, j: nat, n: nat, c: int, v: int, N: nat)
    requires SameOutside(w', w, j, j + n) && N >= j + n
    requires Seg(w', j, n) + c * B(n) == Seg(w, j, n) + v
    ensures Seg(w', 0, N) + c * B(j + n) == Seg(w, 0, N) + v * B(j)
  {
    hide Seg, B;
    AddAt(w, w', j, n, c, v);
    var m := N - (j + n);
    SegSplit(w, 0, j + n, m);
    SegSplit(w', 0, j + n, m);
    SegSame(w', j + n, w, j + n, m);
  }

  lemma SquareProducts(x: int, r: int, b: int, c: int)
    ensures b * Square(x + DV * r) == (x * x) * b + (2 * x * r + c) * (DV * b) - c * (DV * b) + (DV * (DV * b)) * Square(r)
  {
    assert Square(x + DV * r) == x * x + 2 * DV * (x * r) + DV * DV * (r * r);
    assert (2 * x * r + c) * (DV * b) == 2 * DV * ((x * r) * b) + c * (DV * b);
    assert b * (x * x + 2 * DV * (x * r) + DV * DV * (r * r)) ==
           (x * x) * b + 2 * DV * ((x * r) * b) + DV * DV * (b * (r * r));
    assert (DV * (DV * b)) * (r * r) == DV * DV * (b * (r * r));
  }

  /** One subtraction and a carry of 1 absorb the overflow of a row. */
  lemma SquareOverflow(X: Array, W3: Array, W4: Array, T: nat, i: nat)
    requires i + 1 < T && i + T in W3 && i + T + 1 in W3 && W3[i + T + 1] == 0
    requires W4 == W3[i + T := W3[i + T] - DV] && SquareInv(X, W3, T, i + 1)
    ensures SquareInv(X, W4[i + T + 1 := 1], T, i + 1)
  {
    hide Seg, Square;
    SegUpdate(W3, i + T, W3[i + T] - DV, 0, 2 * T);
    SegUpdate(W4, i + T + 1, 1, 0, 2 * T);
    assert B(i + T + 1) == DV * B(i + T);
  }

  lemma SquareLast(X: Array, T: nat, W: Array, W1: Array, c: int)
    requires 0 < T && AreDigits(X, 0, T) && AreDigits(W1, 0, 2 * T) && 0 <= c
    requires SquareInv(X, W, T, T - 1)
    requires SameOutside(W1, W, 2 * T - 2, 2 * T - 1)
    requires RowSum(W1, W, X, T - 1, 2 * T - 2, 1, Digit(X, T - 1), 0, c)
    ensures Seg(W1[2 * T - 1 := Digit(W1, 2 * T - 1) + c], 0, 2 * T) == Square(Seg(X, 0, T))
    ensures Digit(W1, 2 * T - 1) + c < DV
  {
    SquareLastSum(X, T, W, W1, c);
    assert B(2 * T) == DV * B(2 * T - 1);
    hide Seg, B, Square, SquareInv, RowSum;
    var top := Digit(W1, 2 * T - 1) + c;
    SegUpdate(W1, 2 * T - 1, top, 0, 2 * T - 1);
    SegTop(W1[2 * T - 1 := top], 0, 2 * T - 1);
    SegBound(W1, 0, 2 * T - 1);
    SegBound(X, 0, T);
    BAdd(T, T);
    SquareBound(Seg(X, 0, T), B(T));
    CancelLt(top, DV, B(2 * T - 1));
  }

  lemma SquareLastSum(X: Array, T: nat, W: Array, W1: Array, c: int)
    requires 0 < T && SquareInv(X, W, T, T - 1)
    requires SameOutside(W1, W, 2 * T - 2, 2 * T - 1)
    requires RowSum(W1, W, X, T - 1, 2 * T - 2, 1, Digit(X, T - 1), 0, c)
    ensures Seg(W1[2 * T - 1 := Digit(W1, 2 * T - 1) + c], 0, 2 * T) == Square(Seg(X, 0, T))
  {
    hide Seg, B;
    var x := Digit(X, T - 1);
    SegOne(X, T - 1);
    AddRow(W, W1, 2 * T - 2, 1, c, Square(x), 2 * T);
    assert 2 * (T - 1) == 2 * T - 2;
    hide Square;
    Swap(B(2 * T - 2), Square(x));
  }

  lemma Swap(x: int, y: int)
    ensures x * y == y * x
  {
  }

  lemma SquareBound(x: int, b: int)
    requires 0 <= x < b
    ensures Square(x) < b * b
  {
    MulLe(x, b, x);
    MulLt(x, b, b);
  }

  /** compareTo(-1, -2): -1 is stored without digits and -2 with one, so -1 comes out as the smaller. */
  method MinusOneToMinusTwo() returns (x: BigInteger, y: BigInteger, r: int)
    ensures x.Valid() && x.Value() == -1 && y.Valid() && y.Value() == -2 && r < 0
  {
    x := new BigInteger();
    x.FromInt(-1);
    var two := new BigInteger();
    two.FromInt(2);
    y := two.Negate();
    x.SignOfValue();
    y.SignOfValue();
    r := x.CompareTo(y);
  }
}
