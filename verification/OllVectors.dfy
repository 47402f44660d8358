/** The vectors of the online learner over exact reals: a feature vector lists ids with values
    and may repeat an id, a weight vector is dense and stands for zeros beyond its end. */
module OllVectors {

  type Features = seq<(nat, real)>

  /** The weight of feature id. */
  function At(v: seq<real>, id: nat): real {
    if id < |v| then v[id] else 0.0
  }

  /** The total value of feature id. */
  function Coeff(fv: Features, id: nat): real {
    if fv == [] then 0.0
    else Coeff(fv[..|fv| - 1], id) + (if fv[|fv| - 1].0 == id then fv[|fv| - 1].1 else 0.0)
  }

  /** The inner product of weights and features. */
  function Dot(v: seq<real>, fv: Features): real {
    if fv == [] then 0.0 else Dot(v, fv[..|fv| - 1]) + At(v, fv[|fv| - 1].0) * fv[|fv| - 1].1
  }

  /** The inner product of two feature vectors. */
  function Inp(fv: Features, gv: Features): real {
    if gv == [] then 0.0 else Inp(fv, gv[..|gv| - 1]) + Coeff(fv, gv[|gv| - 1].0) * gv[|gv| - 1].1
  }

  /** The inner product of two weight vectors, over the first n features. */
  function DotUpTo(u: seq<real>, v: seq<real>, n: nat): real {
    if n == 0 then 0.0 else DotUpTo(u, v, n - 1) + At(u, n - 1) * At(v, n - 1)
  }

  /** resize, which fills with zeros, and then one addition. */
  function AddAt(v: seq<real>, id: nat, c: real): (r: seq<real>)
    ensures |r| == (if |v| <= id then id + 1 else |v|)
    ensures forall k :: At(r, k) == At(v, k) + (if k == id then c else 0.0)
  {
    var v' := if |v| <= id then v + seq(id + 1 - |v|, _ => 0.0) else v;
    v'[id := v'[id] + c]
  }

  /** The weights after adding alpha times the features. */
  function Updated(v: seq<real>, fv: Features, alpha: real): seq<real> {
    if fv == [] then v
    else AddAt(Updated(v, fv[..|fv| - 1], alpha), fv[|fv| - 1].0, fv[|fv| - 1].1 * alpha)
  }

  // ----- an update, weight by weight

  lemma {:induction false} UpdatedAt(v: seq<real>, fv: Features, alpha: real, id: nat)
    ensures At(Updated(v, fv, alpha), id) == At(v, id) + alpha * Coeff(fv, id)
  {
    if fv == [] {
    } else {
      var last := fv[|fv| - 1];
      UpdatedAt(v, fv[..|fv| - 1], alpha, id);
      Spread(alpha, Coeff(fv[..|fv| - 1], id), if last.0 == id then last.1 else 0.0);
    }
  }

  lemma Spread(a: real, x: real, y: real)
    ensures a * (x + y) == a * x + y * a
  {
  }

  lemma DotLast(v: seq<real>, fv: Features)
    requires fv != []
    ensures Dot(v, fv) == Dot(v, fv[..|fv| - 1]) + At(v, fv[|fv| - 1].0) * fv[|fv| - 1].1
  {
  }

  lemma InpLast(fv: Features, gv: Features)
    requires gv != []
    ensures Inp(fv, gv) == Inp(fv, gv[..|gv| - 1]) + Coeff(fv, gv[|gv| - 1].0) * gv[|gv| - 1].1
  {
  }

  lemma NoFeatures(v: seq<real>)
    ensures Dot(v, []) == 0.0
  {
  }

  lemma NoProduct(fv: Features, alpha: real)
    ensures alpha * Inp(fv, []) == 0.0
  {
  }

  /** The margin of any features after an update. */
  lemma {:induction false} UpdatedDot(v: seq<real>, fv: Features, alpha: real, gv: Features)
    ensures Dot(Updated(v, fv, alpha), gv) == Dot(v, gv) + alpha * Inp(fv, gv)
  {
    hide *;
    if gv != [] {
      var rest, id, x := gv[..|gv| - 1], gv[|gv| - 1].0, gv[|gv| - 1].1;
      var v' := Updated(v, fv, alpha);
      UpdatedDot(v, fv, alpha, rest);
      UpdatedAt(v, fv, alpha, id);
      DotLast(v, gv);
      DotLast(v', gv);
      InpLast(fv, gv);
      DotStep(Dot(v', rest), Dot(v, rest), Inp(fv, rest), At(v', id), At(v, id), Coeff(fv, id), alpha, x);
    } else {
      NoFeatures(v);
      NoFeatures(Updated(v, fv, alpha));
      NoProduct(fv, alpha);
    }
  }

  lemma DotStep(dot': real, dot: real, inp: real, a': real, a: real, c: real, alpha: real, x: real)
    requires dot' == dot + alpha * inp && a' == a + alpha * c
    ensures dot' + a' * x == dot + a * x + alpha * (inp + c * x)
  {
    assert a' * x == a * x + (alpha * c) * x;
    Spread(alpha, inp, c * x);
    assert (alpha * c) * x == (c * x) * alpha;
  }

  // ----- norms

  lemma {:induction false} DotUpToPast(u: seq<real>, v: seq<real>, n: nat, m: nat)
    requires n <= m && (|u| <= n || |v| <= n)
    ensures DotUpTo(u, v, m) == DotUpTo(u, v, n)
  {
    if n >= m {
    } else {
      DotUpToPast(u, v, n, m - 1);
    }
  }

  /** One addition, seen from another weight vector. */
  lemma {:induction false} AddAtDot(u: seq<real>, v: seq<real>, id: nat, c: real, n: nat)
    ensures DotUpTo(u, AddAt(v, id, c), n) == DotUpTo(u, v, n) + (if id < n then At(u, id) * c else 0.0)
  {
    if n == 0 {
    } else {
      AddAtDot(u, v, id, c, n - 1);
      Product(At(u, n - 1), At(v, n - 1), c);
    }
  }

  lemma Product(a: real, b: real, c: real)
    ensures a * (b + c) == a * b + a * c
  {
  }

  lemma {:induction false} AddAtNorm(v: seq<real>, id: nat, c: real, n: nat)
    ensures DotUpTo(AddAt(v, id, c), AddAt(v, id, c), n) ==
            DotUpTo(v, v, n) + (if id < n then 2.0 * c * At(v, id) + c * c else 0.0)
  {
    if n == 0 {
    } else {
      AddAtNorm(v, id, c, n - 1);
      Square(At(v, n - 1), c);
    }
  }

  lemma Square(a: real, c: real)
    ensures (a + c) * (a + c) == a * a + (2.0 * c * a + c * c)
  {
    assert (a + c) * (a + c) == a * (a + c) + c * (a + c);
    Product(a, a, c);
    Product(c, a, c);
  }

  ghost predicate IdsBelow(fv: Features, n: nat) {
    forall k :: 0 <= k < |fv| ==> fv[k].0 < n
  }

  /** u . (v + alpha x) = u . v + alpha (u . x) */
  lemma {:induction false} UpdatedAlong(u: seq<real>, v: seq<real>, fv: Features, alpha: real, n: nat)
    requires IdsBelow(fv, n)
    ensures DotUpTo(u, Updated(v, fv, alpha), n) == DotUpTo(u, v, n) + alpha * Dot(u, fv)
  {
    hide *;
    if fv != [] {
      var rest, id, x := fv[..|fv| - 1], fv[|fv| - 1].0, fv[|fv| - 1].1;
      IdsBelowParts(fv, n);
      UpdatedAlong(u, v, rest, alpha, n);
      UpdatedLast(v, fv, id, x, alpha);
      AddAtDot(u, Updated(v, rest, alpha), id, x * alpha, n);
      DotLast(u, fv);
      AlongStep(At(u, id), x, alpha, Dot(u, rest), Dot(u, fv));
    } else {
      UpdatedNone(v, alpha);
      NoFeatures(u);
      assert alpha * 0.0 == 0.0;
    }
  }

  lemma AlongStep(a: real, x: real, alpha: real, rest: real, dot: real)
    requires dot == rest + a * x
    ensures alpha * rest + a * (x * alpha) == alpha * dot
  {
    assert alpha * dot == alpha * rest + alpha * (a * x);
  }

  /** |v + alpha x|^2 = |v|^2 + 2 alpha (v . x) + alpha^2 |x|^2 */
  lemma {:induction false} UpdatedNorm(v: seq<real>, fv: Features, alpha: real, n: nat)
    requires IdsBelow(fv, n)
    ensures DotUpTo(Updated(v, fv, alpha), Updated(v, fv, alpha), n) ==
            DotUpTo(v, v, n) + 2.0 * alpha * Dot(v, fv) + alpha * alpha * Inp(fv, fv)
  {
    hide *;
    if fv != [] {
      var rest, id, x := fv[..|fv| - 1], fv[|fv| - 1].0, fv[|fv| - 1].1;
      var v' := Updated(v, rest, alpha);
      IdsBelowParts(fv, n);
      UpdatedNorm(v, rest, alpha, n);
      UpdatedLast(v, fv, id, x, alpha);
      AddAtNorm(v', id, x * alpha, n);
      UpdatedAt(v, rest, alpha, id);
      DotLast(v, fv);
      InpExtended(rest, id, x);
      assert rest + [(id, x)] == fv;
      NormStep(DotUpTo(v', v', n), DotUpTo(v, v, n), At(v', id), At(v, id), x, alpha, Dot(v, rest), Dot(v, fv), Coeff(rest, id),
               Inp(rest, rest), Inp(fv, fv));
    } else {
      UpdatedNone(v, alpha);
      NoFeatures(v);
      NoProduct([], alpha * alpha);
      assert 2.0 * alpha * 0.0 == 0.0;
    }
  }

  lemma NormStep(norm': real, norm: real, a': real, a: real, x: real, alpha: real, dot: real, dot': real, c: real,
                 inp: real, inp': real)
    requires norm' == norm + 2.0 * alpha * dot + alpha * alpha * inp && a' == a + alpha * c
    requires dot' == dot + a * x && inp' == inp + 2.0 * x * c + x * x
    ensures norm' + (2.0 * (x * alpha) * a' + (x * alpha) * (x * alpha)) ==
            norm + 2.0 * alpha * dot' + alpha * alpha * inp'
  {
    assert 2.0 * (x * alpha) * a' == 2.0 * (x * alpha) * a + 2.0 * (x * alpha) * (alpha * c);
    assert 2.0 * alpha * dot' == 2.0 * alpha * dot + 2.0 * alpha * (a * x);
    var p := alpha * alpha;
    assert p * inp' == p * inp + p * (2.0 * x * c) + p * (x * x);
    assert 2.0 * (x * alpha) * (alpha * c) == p * (2.0 * x * c);
    assert (x * alpha) * (x * alpha) == p * (x * x);
  }

  lemma UpdatedLast(v: seq<real>, fv: Features, id: nat, x: real, alpha: real)
    requires fv != [] && fv[|fv| - 1] == (id, x)
    ensures Updated(v, fv, alpha) == AddAt(Updated(v, fv[..|fv| - 1], alpha), id, x * alpha)
  {
    var c, d := fv[|fv| - 1].1 * alpha, x * alpha;
    assert c == d;
    assert Updated(v, fv, alpha) == AddAt(Updated(v, fv[..|fv| - 1], alpha), fv[|fv| - 1].0, c);
    assert Updated(v, fv, alpha) == AddAt(Updated(v, fv[..|fv| - 1], alpha), id, d);
  }

  lemma UpdatedNone(v: seq<real>, alpha: real)
    ensures Updated(v, [], alpha) == v
  {
  }

  lemma IdsBelowParts(fv: Features, n: nat)
    requires IdsBelow(fv, n)
    ensures fv != [] ==> IdsBelow(fv[..|fv| - 1], n) && fv[|fv| - 1].0 < n
  {
  }

  /** The squared length of features with one more entry. */
  lemma InpExtended(fv: Features, id: nat, x: real)
    ensures Inp(fv + [(id, x)], fv + [(id, x)]) == Inp(fv, fv) + 2.0 * x * Coeff(fv, id) + x * x
  {
    hide *;
    var fv', c := fv + [(id, x)], Coeff(fv, id);
    InpLast(fv', fv');
    assert fv'[..|fv|] == fv;
    InpMore(fv, id, x, fv);
    CoeffMore(fv, id, x, id);
    assert (c + x) * x == c * x + x * x;
  }

  lemma CoeffMore(fv: Features, id: nat, x: real, k: nat)
    ensures Coeff(fv + [(id, x)], k) == Coeff(fv, k) + (if id == k then x else 0.0)
  {
    assert (fv + [(id, x)])[..|fv|] == fv;
  }

  lemma {:induction false} InpMore(fv: Features, id: nat, x: real, gv: Features)
    ensures Inp(fv + [(id, x)], gv) == Inp(fv, gv) + x * Coeff(gv, id)
  {
    hide *;
    if gv != [] {
      var rest, k, y := gv[..|gv| - 1], gv[|gv| - 1].0, gv[|gv| - 1].1;
      InpMore(fv, id, x, rest);
      InpLast(fv, gv);
      InpLast(fv + [(id, x)], gv);
      CoeffMore(fv, id, x, k);
      CoeffMore(rest, k, y, id);
      assert rest + [(k, y)] == gv;
      MoreStep(x, Coeff(rest, id), y, Coeff(fv, k), id == k);
    } else {
      NoProduct(fv, 1.0);
      NoProduct(fv + [(id, x)], 1.0);
      assert Coeff([], id) == 0.0 by {
        NoCoeff(id);
      }
    }
  }

  lemma NoCoeff(id: nat)
    ensures Coeff([], id) == 0.0
  {
  }

  lemma MoreStep(x: real, c: real, y: real, d: real, same: bool)
    ensures x * c + (d + (if same then x else 0.0)) * y == d * y + x * (c + (if same then y else 0.0))
  {
  }

  // ----- the Cauchy-Schwarz inequality

  lemma {:induction false} CauchySchwarz(u: seq<real>, v: seq<real>, n: nat)
    ensures DotUpTo(u, u, n) >= 0.0 && DotUpTo(v, v, n) >= 0.0
    ensures DotUpTo(u, v, n) * DotUpTo(u, v, n) <= DotUpTo(u, u, n) * DotUpTo(v, v, n)
  {
    if n == 0 {
    } else {
      CauchySchwarz(u, v, n - 1);
      SquareNonNegative(At(u, n - 1));
      SquareNonNegative(At(v, n - 1));
      SchwarzStep(DotUpTo(u, v, n - 1), DotUpTo(u, u, n - 1), DotUpTo(v, v, n - 1), At(u, n - 1), At(v, n - 1));
    }
  }

  lemma SquareNonNegative(x: real)
    ensures x * x >= 0.0
  {
    if x < 0.0 {
      assert (-x) * (-x) >= 0.0;
    }
  }

  lemma SchwarzStep(a: real, A: real, B: real, x: real, y: real)
    requires A >= 0.0 && B >= 0.0 && a * a <= A * B
    ensures (a + x * y) * (a + x * y) <= (A + x * x) * (B + y * y)
  {
    var e := A * (y * y) + B * (x * x) - 2.0 * a * (x * y);
    SchwarzExcess(a, A, B, x, y);
    var p := x * y;
    assert (a + p) * (a + p) == a * a + 2.0 * a * p + p * p;
    assert p * p == (x * x) * (y * y) by {
      Fours(x, y);
    }
    var s, t := x * x, y * y;
    assert (A + s) * (B + t) == A * B + A * t + B * s + s * t;
  }

  lemma Fours(x: real, y: real)
    ensures (x * y) * (x * y) == (x * x) * (y * y)
  {
  }

  lemma SchwarzExcess(a: real, A: real, B: real, x: real, y: real)
    requires A >= 0.0 && B >= 0.0 && a * a <= A * B
    ensures A * (y * y) + B * (x * x) - 2.0 * a * (x * y) >= 0.0
  {
    SquareNonNegative(x);
    SquareNonNegative(a);
    if A == 0.0 {
      if a != 0.0 {
        PositiveBound(a, A * B);
      }
      NonNegativeProduct(B, x * x);
      assert 2.0 * a * (x * y) == 0.0;
    } else {
      var e := A * (y * y) + B * (x * x) - 2.0 * a * (x * y);
      SquareNonNegative(A * y - a * x);
      NonNegativeProduct(A * B - a * a, x * x);
      Excess(a, A, B, x, y);
      PositiveFactor(A, e);
    }
  }

  lemma Excess(a: real, A: real, B: real, x: real, y: real)
    ensures A * (A * (y * y) + B * (x * x) - 2.0 * a * (x * y)) == (A * y - a * x) * (A * y - a * x) + (A * B - a * a) * (x * x)
  {
  }

  lemma NonNegativeProduct(a: real, b: real)
    requires a >= 0.0 && b >= 0.0
    ensures a * b >= 0.0
  {
  }

  lemma PositiveFactor(a: real, e: real)
    requires a > 0.0 && a * e >= 0.0
    ensures e >= 0.0
  {
    if e < 0.0 {
      NegativeProduct(a, e);
    }
  }

  lemma NegativeProduct(a: real, e: real)
    requires a > 0.0 && e < 0.0
    ensures a * e < 0.0
  {
  }

  lemma PositiveBound(a: real, p: real)
    requires a != 0.0 && a * a <= p
    ensures p > 0.0
  {
    var q := a * a;
    if a < 0.0 {
      PositiveProduct(-a, -a, q);
    } else {
      PositiveProduct(a, a, q);
    }
  }

  lemma PositiveProduct(a: real, e: real, q: real)
    requires a > 0.0 && e > 0.0 && q == a * e
    ensures q > 0.0
  {
  }
}
