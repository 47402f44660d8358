/** The three modular reducers behind one contract: each keeps a residue in its own form, and
    multiplication, squaring and the conversions respect that form. */
module Reducers {
  import opened Arith
  import opened Digits
  import opened BigIntegers
  import opened Division
  import opened Modular
  import opened MontgomeryReduction
  import opened BarrettReduction

  datatype Reducer =
    | Classic(m: BigInteger)
    | ByBarrett(barrett: Barrett)
    | ByMontgomery(montgomery: Montgomery)
  {
    ghost function Modulus(): BigInteger {
      match this
      case Classic(m) => m
      case ByBarrett(b) => b.m
      case ByMontgomery(g) => g.m
    }

    /** Objects the reducer writes for its own use. */
    ghost function Scratch(): set<object> {
      if ByBarrett? then {barrett.r2, barrett.q3} else {}
    }

    /** Objects the reducer relies on. */
    ghost function Constants(): set<object> {
      if ByBarrett? then {barrett.m, barrett.mu} else {Modulus()}
    }

    ghost predicate Ready()
      reads Constants()
    {
      match this
      case Classic(m) => m.Valid() && m.s == 0 && m.Value() > 1
      case ByBarrett(b) => b.Ready()
      case ByMontgomery(g) => g.Ready()
    }

    /** The factor in front of a stored residue. */
    ghost function Factor(): int
      reads Modulus()
    {
      if ByMontgomery? then B(Modulus().t) else 1
    }

    /** The number x stands for the residue a. */
    ghost predicate Holds(x: int, a: int)
      requires Modulus().Value() > 0
      reads Modulus()
    {
      0 <= x < Modulus().Value() && Congruent(x, a * Factor(), Modulus().Value())
    }

    method Convert(x: BigInteger) returns (g: BigInteger)
      requires Ready() && x.Valid() && x !in Scratch()
      modifies Scratch()
      ensures Ready() && Modulus().Value() == old(Modulus().Value())
      ensures (g == x || fresh(g)) && g.Valid() && Holds(g.Value(), x.Value())
    {
      hide Seg, B, BigInteger.Value, Congruent;
      match this
      case Classic(m) =>
        g := ConvertClassic(x, m);
        InRange(x.Value(), m.Value());
      case ByBarrett(b) =>
        g := ConvertBarrett(x, b);
        InRange(x.Value(), b.m.Value());
      case ByMontgomery(h) =>
        g := ConvertByR(x, h.m);
        RemainderIsCongruent(x.Value() * B(h.m.t), h.m.Value());
    }

    /** (public residue) from the stored form. */
    method Revert(x: BigInteger, ghost a: int) returns (r: BigInteger)
      requires Ready() && x.Valid() && Holds(x.Value(), a)
      ensures (r == x || fresh(r)) && r.Valid() && r.Value() == a % Modulus().Value()
    {
      hide Seg, B, BigInteger.Value, Congruent;
      if ByMontgomery? {
        r := new BigInteger();
        x.CopyTo(r);
        RBound(x.Value(), Modulus().Value(), Modulus().t);
        montgomery.Reduce(r);
        RevertedResidue(r.Value(), x.Value(), a, Modulus().t, Modulus().Value());
      } else {
        r := x;
        ResidueInRange(x.Value(), a, Modulus().Value());
      }
    }

    method Reduce(r: BigInteger, ghost p: int)
      requires Ready() && r !in Scratch() && r !in Constants()
      requires r.Valid() && r.Value() == p && 0 <= p < Modulus().Value() * Modulus().Value()
      modifies r, Scratch()
      ensures Ready() && Modulus().Value() == old(Modulus().Value())
      ensures r.Valid() && 0 <= r.Value() < Modulus().Value()
      ensures Congruent(r.Value() * Factor(), p, Modulus().Value())
    {
      hide Seg, B, BigInteger.Value, Congruent;
      Modulus().SignOfValue();
      SquareFits(Modulus().Value(), Modulus().t);
      RemainderIsCongruent(p, Modulus().Value());
      match this
      case Classic(m) =>
        PositiveRemainder(p, m.Value());
        DivRemTo(r, m, null, r);
      case ByBarrett(b) =>
        b.Reduce(r);
      case ByMontgomery(h) =>
        h.Reduce(r);
    }

    method MulTo(x: BigInteger, y: BigInteger, r: BigInteger, ghost a: int, ghost b: int)
      requires Ready() && r != x && r != y && r !in Scratch() && r !in Constants()
      requires x.Valid() && y.Valid() && x !in Scratch() && y !in Scratch()
      requires Holds(x.Value(), a) && Holds(y.Value(), b)
      modifies r, Scratch()
      ensures Ready() && Modulus().Value() == old(Modulus().Value())
      ensures r.Valid() && Holds(r.Value(), a * b)
    {
      hide Seg, B, BigInteger.Value, Congruent;
      x.MultiplyTo(y, r);
      ResidueProduct(x.Value(), y.Value(), Modulus().Value());
      ghost var p := r.Value();
      Reduce(r, p);
      ghost var k := if ByMontgomery? then Modulus().t else 0;
      FactorIsPower(Factor(), k);
      HoldsProduct(x.Value(), a, y.Value(), b, r.Value(), k, Modulus().Value());
    }

    method SqrTo(x: BigInteger, r: BigInteger, ghost a: int)
      requires Ready() && r != x && r !in Scratch() && r !in Constants()
      requires x.Valid() && x !in Scratch()
      requires Holds(x.Value(), a)
      modifies r, Scratch()
      ensures Ready() && Modulus().Value() == old(Modulus().Value())
      ensures r.Valid() && Holds(r.Value(), a * a)
    {
      hide Seg, B, BigInteger.Value, Congruent;
      x.SquareTo(r);
      ResidueProduct(x.Value(), x.Value(), Modulus().Value());
      ghost var p := r.Value();
      Reduce(r, p);
      ghost var k := if ByMontgomery? then Modulus().t else 0;
      FactorIsPower(Factor(), k);
      HoldsProduct(x.Value(), a, x.Value(), a, r.Value(), k, Modulus().Value());
    }
  }

  lemma InRange(x: int, m: int)
    requires m > 0
    ensures 0 <= x < m ==> x % m == x
    ensures 0 <= x % m < m && Congruent(x % m, x * 1, m)
  {
    RemainderIsCongruent(x, m);
    if 0 <= x < m {
      DivModUnique(x, m, 0, x);
    }
  }

  method ConvertClassic(x: BigInteger, m: BigInteger) returns (g: BigInteger)
    requires x.Valid() && m.Valid() && m.s == 0 && m.Value() > 1
    ensures (g == x || fresh(g)) && g.Valid() && g.Value() == x.Value() % m.Value()
  {
    hide Seg, B, BigInteger.Value, Congruent;
    x.SignOfValue();
    InRange(x.Value(), m.Value());
    var c := x.CompareTo(m);
    if x.s < 0 || c >= 0 {
      g := Mod(x, m);
    } else {
      g := x;
    }
  }

  method ConvertBarrett(x: BigInteger, b: Barrett) returns (g: BigInteger)
    requires b.Ready() && x.Valid() && x != b.r2 && x != b.q3
    modifies b.r2, b.q3
    ensures b.Ready() && (g == x || fresh(g)) && g.Valid() && g.Value() == x.Value() % b.m.Value()
  {
    hide Seg, B, BigInteger.Value, Congruent;
    x.SignOfValue();
    InRange(x.Value(), b.m.Value());
    if x.s < 0 || x.t > 2 * b.m.t {
      g := Mod(x, b.m);
    } else {
      var c := x.CompareTo(b.m);
      if c < 0 {
        g := x;
      } else {
        g := new BigInteger();
        x.CopyTo(g);
        BMonotone(x.t, 2 * b.m.t);
        b.Reduce(g);
      }
    }
  }

  lemma PositiveRemainder(x: int, m: int)
    requires 0 < m
    ensures 0 <= x ==> TruncRem(x, m) == x % m
    ensures 0 <= x % m < m
  {
    DivMod(x, m);
  }

  /** xR modulo m, in range for either sign of x. */
  method ConvertByR(x: BigInteger, m: BigInteger) returns (r: BigInteger)
    requires x.Valid() && m.Valid() && m.s == 0 && m.Value() > 1
    ensures fresh(r) && r.Valid() && r.Value() == (x.Value() * B(m.t)) % m.Value()
  {
    hide Seg, B, BigInteger.Value, TruncDiv, TruncRem;
    r := new BigInteger();
    x.SignOfValue();
    var y := x.Abs();
    AbsTimesPower(x.Value(), B(m.t));
    RemainderOfAbs(x.Value() * B(m.t), m.Value());
    ShiftAndReduce(y, m, r);
    var zero := new BigInteger();
    r.SignOfValue();
    var c := r.CompareTo(zero);
    if x.s < 0 && c > 0 {
      m.SubTo(r, r);
    }
  }

  /** The magnitude of xR modulo m; for x = 0 the shifted number is a zero with m.t digits. */
  method ShiftAndReduce(y: BigInteger, m: BigInteger, r: BigInteger)
    requires y.Valid() && y.s == 0 && m.Valid() && m.s == 0 && m.Value() > 1 && r != y && r != m
    modifies r
    ensures r.Valid() && r.Value() == TruncRem(y.Value() * B(m.t), m.Value())
  {
    hide Seg, B, BigInteger.Value, TruncRem;
    m.SignOfValue();
    BZero();
    y.SignOfValue();
    y.DlShiftTo(m.t, r);
    PositiveRemainder(y.Value() * B(m.t), m.Value());
    if y.t == 0 {
      InRange(0, m.Value());
      DivRemPaddedZero(r, m);
    } else {
      DivRemTo(r, m, null, r);
    }
  }

  lemma AbsTimesPower(x: int, b: int)
    requires b > 0
    ensures AbsInt(x * b) == AbsInt(x) * b && (x * b < 0 <==> x < 0)
  {
    if x < 0 {
      MulLt(x, 0, b);
      assert (-x) * b == -(x * b);
    } else {
      MulNonneg(x, b);
    }
  }

  lemma RBound(x: int, m: int, k: nat)
    requires 0 <= x < m
    ensures x < m * B(k)
  {
    MulLe(1, B(k), m);
    assert m * B(k) == B(k) * m;
  }

  lemma RevertedResidue(r: int, x: int, a: int, k: nat, m: int)
    requires m > 0 && m % 2 == 1 && 0 <= r < m
    requires Congruent(r * B(k), x, m) && Congruent(x, a * B(k), m)
    ensures r == a % m
  {
    hide B;
    CancelR(r, a, k, m);
    DivModUnique(r, m, 0, r);
  }

  lemma ResidueInRange(x: int, a: int, m: int)
    requires m > 0 && 0 <= x < m && Congruent(x, a * 1, m)
    ensures x == a % m
  {
    DivModUnique(x, m, 0, x);
  }

  lemma SquareFits(m: int, k: nat)
    requires 0 < m < B(k)
    ensures m * m < B(2 * k) && m * m <= m * B(k)
  {
    BAdd(k, k);
    hide B;
    MulLe(m, B(k), m);
    MulLt(m, B(k), B(k));
    assert m * B(k) == B(k) * m;
  }

  lemma ResidueProduct(x: int, y: int, m: int)
    requires 0 <= x < m && 0 <= y < m
    ensures 0 <= x * y < m * m
  {
    MulNonneg(x, y);
    MulLe(x, m, y);
    MulLt(y, m, m);
    assert m * y == y * m;
  }

  lemma FactorIsPower(f: int, k: nat)
    requires f == B(k) || (f == 1 && k == 0)
    ensures f == B(k)
  {
  }

  /** The product of two stored residues, reduced once, stores the product. */
  lemma HoldsProduct(x: int, a: int, y: int, b: int, r: int, k: nat, m: int)
    requires m > 0 && (k > 0 ==> m % 2 == 1)
    requires Congruent(x, a * B(k), m) && Congruent(y, b * B(k), m) && Congruent(r * B(k), x * y, m)
    ensures Congruent(r, (a * b) * B(k), m)
  {
    var f := B(k);
    assert k == 0 ==> f == 1;
    hide B;
    CongruentProducts(x, a * f, y, b * f, m);
    assert (a * f) * (b * f) == ((a * b) * f) * f;
    if k > 0 {
      CancelR(r, (a * b) * f, k, m);
    }
  }
}
