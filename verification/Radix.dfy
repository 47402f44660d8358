/** Conversion to and from text in the radices 2, 4, 8, 16 and 32, whose digits are cut out of
    the 28-bit words without division.  The 3- and 5-bit digits straddle word boundaries. */
module Radix {
  import opened Arith
  import opened JsNumber
  import opened Digits
  import opened BigIntegers
  import opened ModularPower

  // ----- characters

  function IntAt(c: char): int {
    if '0' <= c <= '9' then c as int - '0' as int
    else if 'a' <= c <= 'z' then c as int - 'a' as int + 10
    else if 'A' <= c <= 'Z' then c as int - 'A' as int + 10
    else -1
  }

  function IntToChar(n: nat): (c: char)
    requires n < 36
    ensures IntAt(c) == n && c != '-'
  {
    if n < 10 then ('0' as int + n) as char else ('a' as int + n - 10) as char
  }

  const LOWER := "0123456789abcdefghijklmnopqrstuvwxyz"
  const UPPER := "0123456789ABCDEFGHIJKLMNOPQRSTUVWXYZ"

  /** The alphabet: digit n is written as character n of it. */
  lemma AlphabetWritten(n: nat)
    requires n < 36
    ensures LOWER == "0123456789abcdefghijklmnopqrstuvwxyz" && IntToChar(n) == LOWER[n]
  {
  }

  lemma UpperAt(n: nat)
    requires n < 36
    ensures UPPER[n] == if n < 10 then ('0' as int + n) as char else ('A' as int + n - 10) as char
  {
  }

  /** It is read in either case, and no other character is a digit. */
  lemma AlphabetRead(c: char, n: nat)
    requires n < 36
    ensures UPPER == "0123456789ABCDEFGHIJKLMNOPQRSTUVWXYZ"
    ensures (IntAt(c) == n <==> c == LOWER[n] || c == UPPER[n]) && -1 <= IntAt(c) < 36
  {
    AlphabetWritten(n);
    UpperAt(n);
    hide LOWER, UPPER;
  }

  predicate PowerRadix(b: int) {
    b == 2 || b == 4 || b == 8 || b == 16 || b == 32
  }

  /** The bits of one digit of radix b. */
  function BitsPerDigit(b: int): (k: nat)
    requires PowerRadix(b)
    ensures 1 <= k <= 5
  {
    if b == 16 then 4 else if b == 8 then 3 else if b == 2 then 1 else if b == 32 then 5 else 2
  }

  lemma RadixIsPower(b: int)
    requires PowerRadix(b)
    ensures Pow2(BitsPerDigit(b)) == b
  {
    Pow2Constants();
    assert Pow2(1) == 2 && Pow2(2) == 4 && Pow2(3) == 8;
    assert Pow2(5) == 2 * Pow2(4);
  }

  // ----- what a text means

  /** The number whose digits are the alphanumeric characters of s; others are skipped. */
  ghost function Magnitude(s: string, b: nat): (m: nat) {
    if s == "" then 0
    else
      var c := s[|s| - 1];
      if IntAt(c) < 0 then Magnitude(s[..|s| - 1], b)
      else
        var m := Magnitude(s[..|s| - 1], b);
        MulNonneg(m, b);
        m * b + IntAt(c)
  }

  /** A minus sign stands before the first digit. */
  predicate MinusFirst(s: string) {
    s != "" && IntAt(s[0]) < 0 && (s[0] == '-' || MinusFirst(s[1..]))
  }

  ghost function NumberOf(s: string, b: nat): int {
    var m: int := Magnitude(s, b);
    if MinusFirst(s) then -m else m
  }

  predicate DigitsBelow(s: string, b: int) {
    forall c :: c in s ==> IntAt(c) < b
  }

  /** The shortest text of v > 0 in radix b, and nothing for 0. */
  function Numeral(v: nat, b: nat): string
    requires 2 <= b <= 36
  {
    if v == 0 then "" else Numeral(v / b, b) + [IntToChar(v % b)]
  }

  function Text(v: int, b: nat): string
    requires 2 <= b <= 36
  {
    if v < 0 then "-" + Numeral(-v, b) else if v == 0 then "0" else Numeral(v, b)
  }

  lemma {:induction false} NumeralMeaning(v: nat, b: nat)
    requires 2 <= b <= 36
    ensures Magnitude(Numeral(v, b), b) == v && (forall c :: c in Numeral(v, b) ==> 0 <= IntAt(c) < b)
  {
    if v == 0 {
    } else {
      NumeralMeaning(v / b, b);
      DivMod(v, b);
      var s, c := Numeral(v / b, b), IntToChar(v % b);
      assert (s + [c])[..|s|] == s;
      assert Magnitude(s + [c], b) == Magnitude(s, b) * b + v % b;
    }
  }

  /** Character k from the right is that of the k-th digit of the number. */
  lemma {:induction false} NumeralAt(v: nat, b: nat, k: nat)
    requires 2 <= b <= 36 && k < |Numeral(v, b)|
    ensures Pow(b, k) > 0 && Numeral(v, b)[|Numeral(v, b)| - 1 - k] == LOWER[(v / Pow(b, k)) % b]
    decreases k
  {
    NumeralLast(v, b);
    PowNext(b, k);
    hide Numeral, Pow;
    if k == 0 {
      AlphabetWritten(v % b);
    } else {
      NumeralAt(v / b, b, k - 1);
      DivTwice(v, b, Pow(b, k - 1));
    }
  }

  lemma {:induction false} NumeralLast(v: nat, b: nat)
    requires 2 <= b <= 36
    ensures 0 <= v / b && v / 1 == v && 0 <= v % b < b
    ensures Numeral(0, b) == "" && (v > 0 ==> Numeral(v, b) == Numeral(v / b, b) + [IntToChar(v % b)])
  {
    DivMod(v, b);
    hide IntToChar;
  }

  lemma PowNext(b: int, k: nat)
    ensures Pow(b, 0) == 1 && (k > 0 ==> Pow(b, k) == b * Pow(b, k - 1))
  {
  }

  /** There is no leading zero. */
  lemma {:induction false} NumeralLength(v: nat, b: nat)
    requires 2 <= b <= 36 && v > 0
    ensures var n := |Numeral(v, b)|; n > 0 && Pow(b, n - 1) <= v < Pow(b, n)
  {
    NumeralLast(v, b);
    var q, n := v / b, |Numeral(v / b, b)|;
    DivMod(v, b);
    PowNext(b, n + 1);
    PowNext(b, n);
    hide Numeral, Pow;
    if q == 0 {
    } else {
      MulLe(2, b, v);
      DivLt(v, b, v);
      NumeralLength(q, b);
      TopBounds(v, q, b, Pow(b, n - 1), Pow(b, n));
    }
  }

  /** Zero is written as one character, and a negative number with a minus sign in front. */
  lemma TextSign(v: int, b: nat)
    requires 2 <= b <= 36
    ensures Text(0, b) == "0" && (v < 0 ==> Text(v, b) == "-" + Text(-v, b))
  {
  }

  /** The number is negative exactly if a minus sign stands before every digit. */
  lemma {:induction false} MinusMeans(s: string)
    ensures MinusFirst(s) <==> exists i :: 0 <= i < |s| && s[i] == '-' && forall j :: 0 <= j < i ==> IntAt(s[j]) < 0
  {
    if s == "" {
    } else {
      MinusMeans(s[1..]);
      if i :| 0 <= i < |s| && s[i] == '-' && forall j :: 0 <= j < i ==> IntAt(s[j]) < 0 {
        if i > 0 {
          assert s[1..][i - 1] == '-' && forall j :: 0 <= j < i - 1 ==> IntAt(s[1..][j]) < 0;
        }
      }
      if MinusFirst(s) && s[0] != '-' {
        var i :| 0 <= i < |s| - 1 && s[1..][i] == '-' && forall j :: 0 <= j < i ==> IntAt(s[1..][j]) < 0;
        assert s[i + 1] == '-';
        forall j | 0 <= j < i + 1 ensures IntAt(s[j]) < 0 {
          assert j > 0 ==> s[j] == s[1..][j - 1];
        }
      }
    }
  }

  lemma {:induction false} MagnitudeSkipsSign(s: string, b: nat)
    ensures Magnitude("-" + s, b) == Magnitude(s, b)
  {
    if s == "" {
      assert ("-" + s)[..0] == "";
    } else {
      MagnitudeSkipsSign(s[..|s| - 1], b);
      assert ("-" + s)[..|s|] == "-" + s[..|s| - 1];
    }
  }

  /** Reading back the text of any number gives the number. */
  lemma TextRoundTrip(v: int, b: nat)
    requires 2 <= b <= 36
    ensures NumberOf(Text(v, b), b) == v && DigitsBelow(Text(v, b), b)
  {
    NumeralMeaning(if v < 0 then -v else v, b);
    if v < 0 {
      MagnitudeSkipsSign(Numeral(-v, b), b);
    } else if v == 0 {
      assert Magnitude("0", b) == Magnitude("", b) * b;
    }
  }

  // ----- to text

  /** The code's next digit of w0 after the leading part v. */
  lemma NextNumeral(v: nat, w0: nat, b: nat)
    requires 2 <= b <= 36 && w0 < b
    ensures v * b + w0 >= 0
    ensures Numeral(v * b + w0, b) == if v * b + w0 == 0 then "" else Numeral(v, b) + [IntToChar(w0)]
    ensures v * b + w0 == 0 <==> v == 0 && w0 == 0
  {
    MulNonneg(v, b);
    DivModUnique(v * b + w0, b, v, w0);
    if v > 0 {
      MulLe(1, v, b);
    }
  }

  /** The bits above the first whole digit. */
  lemma TopPart(a: Array, t: nat, p: nat, k: nat)
    requires AreDigits(a, 0, t) && t > 0 && DB - k < p <= DB && k <= 5
    ensures 0 <= Seg(a, 0, t) / Pow2(28 * (t - 1) + p) == Shr(a[t - 1], p) < Pow2(k)
    ensures p == DB ==> Shr(a[t - 1], p) == 0
  {
    hide Seg, Pow2;
    ShiftFromDigit(a, t, t - 1, p);
    SegOne(a, t - 1);
    ToInt32Small(a[t - 1]);
    DivGe(a[t - 1], Pow2(p), 0);
    Pow2Add(p, DB - p);
    Pow2Constants();
    DivLt(a[t - 1], Pow2(p), Pow2(DB - p));
    Pow2Monotone(DB - p, k);
    if p == DB {
      DivModUnique(a[t - 1], DV, 0, a[t - 1]);
    }
  }

  /** One more digit of k bits, from the word at i and its p low bits. */
  lemma NextDigit(a: Array, t: nat, i: nat, p: nat, k: nat)
    requires AreDigits(a, 0, t) && i < t && 1 <= p <= DB && 1 <= k <= 5 && (p < k ==> i > 0)
    ensures p < k ==>
              var hi, lo := Shl(Low(a[i], p), k - p), Shr(a[i - 1], p + DB - k);
              0 <= hi && 0 <= lo && 0 <= Or(hi, lo) < Pow2(k) &&
              Seg(a, 0, t) / Pow2(28 * i + p - k) == (Seg(a, 0, t) / Pow2(28 * i + p)) * Pow2(k) + Or(hi, lo)
    ensures p >= k ==>
              0 <= Low(Shr(a[i], p - k), k) < Pow2(k) &&
              Seg(a, 0, t) / Pow2(28 * i + p - k) ==
              (Seg(a, 0, t) / Pow2(28 * i + p)) * Pow2(k) + Low(Shr(a[i], p - k), k)
  {
    hide Seg, Pow2, Or, Low, Shr, Shl;
    if p < k {
      WindowAcross(a, t, i, p - 1, k);
    } else {
      WindowInDigit(a, t, i, p - 1, k);
    }
  }

  lemma MultipleOfDigit(t: nat, k: nat)
    requires 1 <= k
    ensures (28 * t - (28 * t) % k) % k == 0
  {
    DivMod(28 * t, k);
    DivModUnique(28 * t - (28 * t) % k, k, (28 * t) / k, 0);
  }

  /** Going down a multiple of k by k. */
  lemma NextMultiple(n: nat, k: nat)
    requires 1 <= k && n % k == 0 && n > 0
    ensures n >= k && (n - k) % k == 0
  {
    DivMod(n, k);
    if n / k <= 0 {
      MulLe(n / k, 0, k);
      assert false;
    }
    MulLe(1, n / k, k);
    Distrib(k, n / k, 1);
    DivModUnique(n - k, k, n / k - 1, 0);
  }

  /** The text so far is that of the bits above position n. */
  ghost predicate TextSoFar(s: string, more: bool, V: int, n: nat, b: int) {
    && 2 <= b <= 36 && V / Pow2(n) >= 0
    && s == Numeral(V / Pow2(n), b)
    && (more <==> V / Pow2(n) > 0)
  }

  lemma TextStart(V: int, n: nat, d: int, b: int)
    requires 2 <= b <= 36 && 0 <= V / Pow2(n) == d < b
    ensures TextSoFar(if d > 0 then [IntToChar(d)] else "", d > 0, V, n, b)
  {
    hide Pow2;
    NextNumeral(0, d, b);
  }

  lemma TextStep(s: string, more: bool, V: int, n: nat, m: nat, d: int, b: int)
    requires TextSoFar(s, more, V, n, b) && 0 <= d < b
    requires V / Pow2(m) == (V / Pow2(n)) * b + d
    ensures TextSoFar(if more || d > 0 then s + [IntToChar(d)] else s, more || d > 0, V, m, b)
  {
    hide Pow2;
    NextNumeral(V / Pow2(n), d, b);
  }

  lemma TextEnd(s: string, more: bool, V: int, b: int)
    requires TextSoFar(s, more, V, 0, b)
    ensures (if more then s else "0") == Text(V, b)
  {
    PowTwoOne();
    assert V / Pow2(0) == V;
  }

  lemma NegativeSign(x: BigInteger)
    requires x.Wf() && x.s == -1
    ensures x.Value() < 0
  {
    hide Seg, B;
    SegBound(x.arr, 0, x.t);
  }

  /** The text of x in a radix that is a power of two. */
  method ToString(x: BigInteger, b: int) returns (r: string)
    requires x.Wf() && PowerRadix(b)
    ensures r == Text(x.Value(), b)
  {
    hide Seg, B, BigInteger.Value, Pow2;
    if x.s < 0 {
      NegativeSign(x);
      var y := x.Negate();
      y.SignOfValue();
      r := MagnitudeText(y, b);
      return "-" + r;
    }
    r := MagnitudeText(x, b);
  }

  /** The digit loop. */
  method MagnitudeText(x: BigInteger, b: int) returns (r: string)
    requires x.Wf() && x.s == 0 && PowerRadix(b)
    ensures x.Value() >= 0 && r == Text(x.Value(), b)
  {
    hide Seg, B, BigInteger.Value, Pow2, TextSoFar, Text, IntToChar, Shr, Shl, Low, Or;
    ghost var V := x.Value();
    var k := BitsPerDigit(b);
    RadixIsPower(b);
    x.NonNegativeValue();
    SegBound(x.arr, 0, x.t);
    var m := false;
    r := "";
    var i: int := x.t;
    var p := DB - (i * DB) % k;
    MultipleOfDigit(x.t, k);
    if i > 0 {
      i := i - 1;
      TopPart(x.arr, x.t, p, k);
      TextStart(V, 28 * i + p, Shr(x.arr[i], p), b);
      if p < DB && Shr(x.arr[i], p) > 0 {
        m := true;
        r := [IntToChar(Shr(x.arr[i], p))];
      }
      while i >= 0
        invariant -1 <= i < x.t && 1 <= p <= DB && (i < 0 ==> p == DB)
        invariant (28 * i + p) % k == 0
        invariant TextSoFar(r, m, V, 28 * i + p, b)
        decreases 28 * i + p
      {
        ghost var n, r0, m0 := 28 * i + p, r, m;
        NextMultiple(n, k);
        NextDigit(x.arr, x.t, i, p, k);
        var d;
        if p < k {
          d := Shl(Low(x.arr[i], p), k - p);
          i := i - 1;
          p := p + (DB - k);
          d := Or(d, Shr(x.arr[i], p));
        } else {
          p := p - k;
          d := Low(Shr(x.arr[i], p), k);
          if p <= 0 {
            p := p + DB;
            i := i - 1;
          }
        }
        TextStep(r, m, V, n, n - k, d, b);
        if d > 0 {
          m := true;
        }
        if m {
          r := r + [IntToChar(d)];
        }
      }
    } else {
      EmptyText(V, b, x.arr);
    }
    TextEnd(r, m, V, b);
    r := if m then r else "0";
  }

  lemma EmptyText(V: int, b: int, a: Array)
    requires V == Seg(a, 0, 0) && 2 <= b <= 36
    ensures TextSoFar("", false, V, 0, b)
  {
    PowTwoOne();
  }

  // ----- from text

  /** n bits are stored: t words, of which the last one holds sh bits unless it is full. */
  ghost predicate Packed(a: Array, t: nat, sh: nat, n: nat, V: int) {
    && sh < DB && AreDigits(a, 0, t) && Seg(a, 0, t) == V
    && (sh == 0 ==> n == 28 * t)
    && (sh > 0 ==> t > 0 && n == 28 * (t - 1) + sh && a[t - 1] < Pow2(sh))
  }

  lemma PackWord(a: Array, t: nat, n: nat, V: int, x: int, k: nat)
    requires Packed(a, t, 0, n, V) && 0 <= x < Pow2(k) && 1 <= k <= 5
    ensures Packed(a[t := x], t + 1, k, n + k, V + x * Pow2(n))
  {
    hide Seg, Pow2;
    Pow2Monotone(k, DB);
    Pow2Constants();
    SegUpdate(a, t, x, 0, t);
    SegTop(a[t := x], 0, t);
    BIsPow2(t);
  }

  lemma PackBits(a: Array, t: nat, sh: nat, n: nat, V: int, x: int, k: nat)
    requires Packed(a, t, sh, n, V) && 0 < sh && sh + k <= DB && 0 <= x < Pow2(k) && 0 < k
    ensures Shl(x, sh) >= 0
    ensures Packed(a[t - 1 := Or(a[t - 1], Shl(x, sh))], t, (sh + k) % DB, n + k, V + x * Pow2(n))
  {
    hide Seg, Or, Pow2;
    Pow2Monotone(k, DB - sh);
    FillWord(a[t - 1], x, sh, k);
    var d := a[t - 1] + x * Pow2(sh);
    SegUpdate(a, t - 1, d, 0, t);
    BIsPow2(t - 1);
    Pow2Add(28 * (t - 1), sh);
    Swap3(x, Pow2(sh), B(t - 1));
  }

  /** Or-ing k bits into a word above its sh low bits. */
  lemma FillWord(w: int, x: int, sh: nat, k: nat)
    requires 0 <= w < Pow2(sh) && 0 <= x < Pow2(k) && sh + k <= DB && 0 < sh && 0 < k
    ensures Shl(x, sh) == x * Pow2(sh) >= 0
    ensures Or(w, Shl(x, sh)) == w + x * Pow2(sh) < Pow2(sh + k) <= DV
  {
    hide Or, Pow2;
    Pow2Add(sh, k);
    Pow2Monotone(sh + k, DB);
    Pow2Monotone(k, DB - sh);
    Pow2Constants();
    FillBound(w, x, Pow2(sh), Pow2(k));
    OrLowBits(w, x, sh);
    FillShift(x, sh, x * Pow2(sh));
  }

  lemma FillShift(x: int, sh: nat, y: int)
    requires y == x * Pow2(sh) && 0 <= x <= y < DV
    ensures Shl(x, sh) == y
  {
    hide Pow2;
    ToInt32Small(x);
    ToInt32Small(y);
  }

  lemma Swap3(x: int, p: int, b: int)
    ensures (x * p) * b == x * (b * p)
  {
  }

  lemma PackAcross(a: Array, t: nat, sh: nat, n: nat, V: int, x: int, k: nat)
    requires Packed(a, t, sh, n, V) && 0 < sh && DB < sh + k && 0 <= x < Pow2(k) && k <= 5
    ensures Shl(Low(x, DB - sh), sh) >= 0
    ensures Packed(a[t - 1 := Or(a[t - 1], Shl(Low(x, DB - sh), sh))][t := Shr(x, DB - sh)],
                   t + 1, sh + k - DB, n + k, V + x * Pow2(n))
  {
    hide Seg, Or, Pow2;
    var c := DB - sh;
    var q := Pow2(c);
    Pow2Monotone(k, DB);
    Pow2Constants();
    ToInt32Small(x);
    DivMod(x, q);
    FillWord(a[t - 1], x % q, sh, c);
    Pow2Add(c, k - c);
    DivLt(x, q, Pow2(k - c));
    DivGe(x, q, 0);
    Pow2Monotone(k - c, DB);
    var d := a[t - 1] + (x % q) * Pow2(sh);
    var a1 := a[t - 1 := d];
    SegUpdate(a, t - 1, d, 0, t);
    SegUpdate(a1, t, x / q, 0, t);
    SegTop(a1[t := x / q], 0, t);
    BIsPow2(t - 1);
    BIsPow2(t);
    Pow2Add(28 * (t - 1), sh);
    Pow2Add(n, c);
    AcrossProducts(x % q, x / q, q, Pow2(sh), B(t - 1));
  }

  lemma AcrossProducts(l: int, h: int, q: int, p: int, b: int)
    ensures (l * p) * b + h * ((b * p) * q) == (q * h + l) * (b * p)
  {
    Swap3(l, p, b);
    var w := b * p;
    Distrib(w, q * h, l);
    Swap3(h, q, w);
    assert (h * q) * w == (q * h) * w;
  }

  /** The characters from i on are read into n bits. */
  ghost predicate ReadFrom(s: string, i: nat, b: nat, n: nat, V: int, mi: bool)
    requires i <= |s|
  {
    && (mi <==> MinusFirst(s[i..]))
    && forall u: string {:trigger Magnitude(u + s[i..], b)} ::
        Magnitude(u + s[i..], b) == Magnitude(u, b) * Pow2(n) + V
  }

  lemma ReadStart(s: string, b: nat)
    ensures ReadFrom(s, |s|, b, 0, 0, false)
  {
    forall u: string ensures Magnitude(u + s[|s|..], b) == Magnitude(u, b) * Pow2(0) + 0 {
      assert u + s[|s|..] == u;
    }
  }

  lemma ReadSkip(s: string, i: nat, b: nat, n: nat, V: int, mi: bool)
    requires i < |s| && ReadFrom(s, i + 1, b, n, V, mi) && IntAt(s[i]) < 0
    ensures ReadFrom(s, i, b, n, V, mi || s[i] == '-')
  {
    hide Pow2;
    assert s[i..][1..] == s[i + 1..];
    forall u: string ensures Magnitude(u + s[i..], b) == Magnitude(u, b) * Pow2(n) + V {
      var u' := u + [s[i]];
      assert u'[..|u'| - 1] == u;
      assert u + s[i..] == u' + s[i + 1..];
    }
  }

  lemma ReadDigit(s: string, i: nat, b: nat, k: nat, n: nat, V: int, mi: bool)
    requires i < |s| && ReadFrom(s, i + 1, b, n, V, mi) && IntAt(s[i]) >= 0 && Pow2(k) == b
    ensures ReadFrom(s, i, b, n + k, V + IntAt(s[i]) * Pow2(n), false)
  {
    hide Pow2;
    var x := IntAt(s[i]);
    Pow2Add(k, n);
    forall u: string ensures Magnitude(u + s[i..], b) == Magnitude(u, b) * Pow2(n + k) + (V + x * Pow2(n)) {
      var u' := u + [s[i]];
      assert u'[..|u'| - 1] == u;
      assert u + s[i..] == u' + s[i + 1..];
      Distrib(Pow2(n), Magnitude(u, b) * b, x);
      Assoc(Magnitude(u, b), b, Pow2(n));
    }
  }

  lemma ReadAll(s: string, b: nat, n: nat, V: int, mi: bool)
    requires ReadFrom(s, 0, b, n, V, mi)
    ensures V == Magnitude(s, b) && (mi <==> MinusFirst(s))
  {
    assert s[0..] == s && "" + s == s;
    assert Magnitude("" + s[0..], b) == Magnitude("", b) * Pow2(n) + V;
  }

  /** Sets r to the number that the text s stands for, whatever else stands between its digits. */
  method FromString(r: BigInteger, s: string, b: int)
    requires PowerRadix(b) && DigitsBelow(s, b)
    modifies r
    ensures r.Valid() && r.Value() == NumberOf(s, b)
  {
    hide Seg, B, BigInteger.Value, Pow2, Packed, ReadFrom;
    var mi, n, V := ReadDigits(r, s, b);
    ReadAll(s, b, n, V, mi);
    r.NonNegativeValue();
    r.Clamp();
    if mi {
      var zero := new BigInteger();
      zero.SubTo(r, r);
    }
  }

  /** The character loop, from the right. */
  method ReadDigits(r: BigInteger, s: string, b: int) returns (mi: bool, ghost n: nat, ghost V: int)
    requires PowerRadix(b) && DigitsBelow(s, b)
    modifies r
    ensures r.Wf() && r.s == 0 && Seg(r.arr, 0, r.t) == V
    ensures ReadFrom(s, 0, b, n, V, mi)
  {
    hide Seg, B, BigInteger.Value, Pow2, ReadFrom, Or, Shl, Shr, Low, IntAt;
    var k := BitsPerDigit(b);
    RadixIsPower(b);
    r.t := 0;
    r.s := 0;
    var i, sh := |s|, 0;
    mi, n, V := false, 0, 0;
    AccEmpty(r.arr);
    ReadStart(s, b);
    while i > 0
      invariant 0 <= i <= |s| && r.s == 0
      invariant Packed(r.arr, r.t, sh, n, V)
      invariant ReadFrom(s, i, b, n, V, mi)
    {
      i := i - 1;
      var x := IntAt(s[i]);
      if x < 0 {
        ReadSkip(s, i, b, n, V, mi);
        if s[i] == '-' {
          mi := true;
        }
      } else {
        ReadDigit(s, i, b, k, n, V, mi);
        mi := false;
        sh := StoreBits(r, sh, x, k, n, V);
        n, V := n + k, V + x * Pow2(n);
      }
    }
  }

  /** Appends k bits above the ones stored so far. */
  method StoreBits(r: BigInteger, sh0: nat, x: nat, k: nat, ghost n: nat, ghost V: int) returns (sh: nat)
    requires Packed(r.arr, r.t, sh0, n, V) && r.s == 0 && x < Pow2(k) && 1 <= k <= 5
    modifies r
    ensures Packed(r.arr, r.t, sh, n + k, V + x * Pow2(n)) && r.s == 0
  {
    hide Seg, B, Pow2, Or, Shl, Shr, Low;
    sh := sh0;
    if sh == 0 {
      PackWord(r.arr, r.t, n, V, x, k);
      r.arr := r.arr[r.t := x];
      r.t := r.t + 1;
    } else if sh + k > DB {
      PackAcross(r.arr, r.t, sh, n, V, x, k);
      r.arr := r.arr[r.t - 1 := Or(r.arr[r.t - 1], Shl(Low(x, DB - sh), sh))];
      r.arr := r.arr[r.t := Shr(x, DB - sh)];
      r.t := r.t + 1;
    } else {
      PackBits(r.arr, r.t, sh, n, V, x, k);
      r.arr := r.arr[r.t - 1 := Or(r.arr[r.t - 1], Shl(x, sh))];
    }
    sh := sh + k;
    if sh >= DB {
      sh := sh - DB;
    }
  }

  /** Writing any number in radix b and reading it back gives the number. */
  method RoundTrip(x: BigInteger, b: int) returns (y: BigInteger, text: string)
    requires x.Wf() && PowerRadix(b)
    ensures fresh(y) && y.Valid() && y.Value() == x.Value()
  {
    hide Seg, B, BigInteger.Value, Text, NumberOf;
    text := ToString(x, b);
    TextRoundTrip(x.Value(), b);
    y := new BigInteger();
    FromString(y, text, b);
  }
}
