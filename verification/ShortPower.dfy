/** Powers with an exponent that is an ordinary number: one squaring for every bit below the top. */
module ShortPower {
  import opened Arith
  import opened JsNumber
  import opened Digits
  import opened BigIntegers
  import opened Division
  import opened MontgomeryReduction
  import opened Reducers
  import opened ModularPower

  const LARGEST: int := 0xFFFF_FFFF

  /** The bits of e from position i on, one more than from i + 1 on. */
  lemma NextExponent(e: nat, i: nat)
    ensures e / Pow2(i) == 2 * (e / Pow2(i + 1)) + (e / Pow2(i)) % 2
    ensures e / Pow2(i) >= 0 && e / Pow2(i + 1) >= 0
  {
    ShiftMore(e, i, 1);
    PowTwoOne();
    DivMod(e, Pow2(i));
    DivMod(e, Pow2(i + 1));
  }

  lemma TopExponent(e: nat, n: nat)
    requires n > 0 && Pow2(n - 1) <= e < Pow2(n)
    ensures e / Pow2(n - 1) == 1
  {
    DivModUnique(e, Pow2(n - 1), 1, e - Pow2(n - 1));
  }

  lemma NoBitsBelow(e: nat)
    ensures e / Pow2(0) == e
  {
    DivModUnique(e, Pow2(0), e, 0);
  }

  lemma PowSquare(V: int, u: nat)
    ensures Pow(V, u) * Pow(V, u) == Pow(V, 2 * u) && Pow(V, 2 * u) * V == Pow(V, 2 * u + 1)
  {
    PowAdd(V, u, u);
  }

  /** base to the power e by the reducer, or 1 for an exponent below 1 or above 2^32 - 1. */
  method Exp(base: BigInteger, e: int, z: Reducer) returns (r: BigInteger)
    requires z.Ready() && z.Modulus().Value() > 1 && base.Valid() && base !in z.Scratch()
    modifies z.Scratch()
    ensures fresh(r) && r.Valid()
    ensures r.Value() == if 1 <= e <= LARGEST then Pow(old(base.Value()), e) % old(z.Modulus().Value()) else 1
  {
    hide Seg, B, BigInteger.Value, Pow, Pow2, Reducer.Holds, Reducer.Ready;
    if e > LARGEST || e < 1 {
      r := new BigInteger();
      r.FromInt(1);
      return;
    }
    ghost var V := base.Value();
    ReadyModulus(z);
    var a := new BigInteger();
    var b := new BigInteger();
    var g := z.Convert(base);
    var n := NBits(e);
    g.CopyTo(a);
    PowOne(V);
    TopExponent(e, n);
    var x := SquareAndMultiply(z, g, e, n - 1, a, b, V);
    NoBitsBelow(e);
    r := z.Revert(x, Pow(V, e));
  }

  /** The loop of Exp over the bits below the top one. */
  method SquareAndMultiply(z: Reducer, g: BigInteger, e: nat, n: nat, a: BigInteger, b: BigInteger, ghost V: int)
    returns (r: BigInteger)
    requires z.Ready() && z.Modulus().Value() > 0 && e <= LARGEST && e / Pow2(n) == 1
    requires a != b && {a, b} !! z.Scratch() && {a, b} !! z.Constants() && g != a && g != b && g !in z.Scratch()
    requires g.Valid() && z.Holds(g.Value(), V) && a.Valid() && z.Holds(a.Value(), Pow(V, 1))
    modifies a, b, z.Scratch()
    ensures r == a || r == b
    ensures z.Ready() && z.Modulus().Value() == old(z.Modulus().Value())
    ensures r.Valid() && e / Pow2(0) >= 0 && z.Holds(r.Value(), Pow(V, e / Pow2(0)))
  {
    hide Seg, B, BigInteger.Value, Pow, Pow2, Reducer.Holds, Reducer.Ready;
    r := a;
    var r2, i := b, n;
    while i > 0
      invariant 0 <= i <= n && ((r == a && r2 == b) || (r == b && r2 == a))
      invariant z.Ready() && z.Modulus().Value() == old(z.Modulus().Value())
      invariant r.Valid() && e / Pow2(i) >= 0 && z.Holds(r.Value(), Pow(V, e / Pow2(i)))
      invariant g.Valid() && z.Holds(g.Value(), V)
    {
      i := i - 1;
      ReadyModulus(z);
      NextExponent(e, i);
      ghost var u := e / Pow2(i + 1);
      PowSquare(V, u);
      z.SqrTo(r, r2, Pow(V, u));
      ReadyModulus(z);
      if e / Pow2(i) % 2 > 0 {
        z.MulTo(r2, g, r, Pow(V, 2 * u), V);
      } else {
        r, r2 := r2, r;
      }
    }
  }

  /** By division for short exponents and even moduli, else Montgomery's. */
  method ChooseShort(e: int, m: BigInteger) returns (z: Reducer)
    requires m.Valid() && m.Value() > 1
    ensures z.Ready() && z.Modulus() == m && z.Scratch() == {}
    ensures if e < 256 || m.Value() % 2 == 0 then z.Classic? else z.ByMontgomery?
  {
    hide Seg, B, BigInteger.Value;
    m.SignOfValue();
    var even := m.IsEven();
    if e < 256 || even {
      z := Classic(m);
    } else {
      var g := new Montgomery(m);
      z := ByMontgomery(g);
    }
  }

  /** base to the power e modulo m, for 0 <= e < 2^32. */
  method ModPowInt(base: BigInteger, e: int, m: BigInteger) returns (r: BigInteger)
    requires base.Valid() && m.Valid() && m.Value() > 1 && 0 <= e <= LARGEST
    ensures fresh(r) && r.Valid() && r.Value() == Pow(base.Value(), e) % m.Value()
  {
    hide Seg, B, BigInteger.Value, Pow, Reducer.Ready;
    m.SignOfValue();
    PowOne(base.Value());
    InRange(1, m.Value());
    var z := ChooseShort(e, m);
    r := Exp(base, e, z);
  }
}
