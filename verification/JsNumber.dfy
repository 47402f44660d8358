/** JavaScript numbers as the benchmarks use them.  A number is an exact integer here; the
    bit operators wrap their operand to 32 bits first, as the language does, so a proof that
    nothing is lost has to show that the operand stays below 2^31. */
module JsNumber {

  function Pow2(k: nat): (p: int)
    ensures p > 0
  {
    if k == 0 then 1 else 2 * Pow2(k - 1)
  }

  /** The 32-bit signed reading of a number. */
  function ToInt32(x: int): int {
    (x + 0x8000_0000) % 0x1_0000_0000 - 0x8000_0000
  }

  /** x & ((1 << k) - 1) */
  function Low(x: int, k: nat): int {
    ToInt32(x) % Pow2(k)
  }

  /** x >> k */
  function Shr(x: int, k: nat): int {
    ToInt32(x) / Pow2(k)
  }

  /** x << k */
  function Shl(x: int, k: nat): int {
    ToInt32(ToInt32(x) * Pow2(k))
  }

  /** x | y on non-negative numbers, bit by bit. */
  function Or(x: nat, y: nat): nat
    decreases x + y
  {
    if x == 0 then y
    else if y == 0 then x
    else 2 * Or(x / 2, y / 2) + (if x % 2 == 1 || y % 2 == 1 then 1 else 0)
  }

  /** Math.floor of a quotient of integers, through exact rationals. */
  lemma FloorOfQuotient(n: int, d: int)
    requires d > 0
    ensures (n as real / d as real).Floor == n / d
  {
    var q, m, w := (n / d) as real, (n % d) as real, d as real;
    assert n == (n / d) * d + n % d;
    assert n as real == q * w + m;
    var x := n as real / w;
    assert x * w == n as real;
    assert (x - q) * w == m;
    RatioRange(x - q, m, w);
  }

  lemma RatioRange(y: real, m: real, w: real)
    requires w > 0.0 && 0.0 <= m < w && y * w == m
    ensures 0.0 <= y < 1.0
  {
    if y < 0.0 {
      NegativeProduct(y, w);
      assert false;
    }
    if y >= 1.0 {
      NegativeProduct(1.0 - y, w);
      assert false;
    }
  }

  lemma NegativeProduct(y: real, w: real)
    requires w > 0.0
    ensures y < 0.0 ==> y * w < 0.0
    ensures y <= 0.0 ==> y * w <= 0.0
    ensures (1.0 - y) * w == w - y * w
    ensures (1.0 - (1.0 - y)) == y
  {
  }

  lemma {:induction false} Pow2Add(m: nat, n: nat)
    ensures Pow2(m + n) == Pow2(m) * Pow2(n)
  {
    if m == 0 {
    } else {
      Pow2Add(m - 1, n);
      assert Pow2(m + n) == 2 * Pow2(m - 1 + n);
    }
  }

  lemma Pow2Constants()
    ensures Pow2(13) == 0x2000 && Pow2(14) == 0x4000 && Pow2(15) == 0x8000
    ensures Pow2(4) == 16 && Pow2(24) == 0x100_0000 && Pow2(28) == 0x1000_0000
  {
    assert Pow2(4) == 16;
    assert Pow2(7) == 128;
    Pow2Add(7, 6);
    Pow2Add(7, 7);
    Pow2Add(14, 1);
    Pow2Add(14, 14);
    Pow2Add(24, 4);
  }

  lemma {:induction false} Pow2Monotone(m: nat, n: nat)
    requires m <= n
    ensures Pow2(m) <= Pow2(n)
  {
    if m >= n {
    } else {
      Pow2Monotone(m, n - 1);
    }
  }

  lemma ToInt32Small(x: int)
    requires -0x8000_0000 <= x < 0x8000_0000
    ensures ToInt32(x) == x
  {
  }

  /** Disjoint bits: or-ing in a low part is adding it. */
  lemma {:induction false} OrDisjoint(hi: nat, low: nat, k: nat)
    requires low < Pow2(k)
    ensures Or(hi * Pow2(k), low) == hi * Pow2(k) + low
    decreases k
  {
    var x := hi * Pow2(k);
    if k > 0 && x != 0 && low != 0 {
      var h := hi * Pow2(k - 1);
      assert x == 2 * h;
      OrDisjoint(hi, low / 2, k - 1);
      assert x / 2 == h && x % 2 == 0;
    }
  }

  lemma {:induction false} OrSymmetric(x: nat, y: nat)
    ensures Or(x, y) == Or(y, x)
    decreases x + y
  {
    if x != 0 && y != 0 {
      OrSymmetric(x / 2, y / 2);
    }
  }
}
