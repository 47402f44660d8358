/** What the online learner computes, as functions of its state: four of its training rules, the
    margin it classifies with, and the guarantees that are the reason for each rule. */
module OllModel {
  import Arith
  import opened OllVectors

  datatype Example = Example(fv: Features, y: int)

  datatype Algorithm = Perceptron | AveragedPerceptron | PassiveAggressive | KernelPassiveAggressive

  /** A support vector with its dual weight. */
  datatype Support = Support(fv: Features, alpha: real)

  /** The state of the learner; the support vectors stand for the inverted index. */
  datatype Learner = Learner(exampleN: nat, updateN: nat, bias: real, w: seq<real>, b: real, w0: seq<real>, b0: real,
                             wa: seq<real>, ba: real, support: seq<Support>)

  function Fresh(bias: real): Learner {
    Learner(0, 0, bias, [], 0.0, [], 0.0, [], 0.0, [])
  }

  function Margin(v: seq<real>, b: real, fv: Features): real {
    b + Dot(v, fv)
  }

  /** One, for the bias, plus the squares of the values listed. */
  function Norm(fv: Features): (r: real)
    ensures r >= 1.0
  {
    if fv == [] then 1.0
    else SquareNonNegative(fv[|fv| - 1].1); Norm(fv[..|fv| - 1]) + fv[|fv| - 1].1 * fv[|fv| - 1].1
  }

  /** The dual form: a sum over the support vectors of alpha times the squared inner product. */
  function KernelSum(support: seq<Support>, fv: Features): real {
    if support == [] then 0.0
    else
      var last := support[|support| - 1];
      KernelSum(support[..|support| - 1], fv) + Inp(last.fv, fv) * Inp(last.fv, fv) * last.alpha
  }

  /** The margin a rule trains on. */
  function RuleMargin(alg: Algorithm, l: Learner, fv: Features): real {
    match alg
    case Perceptron => Margin(l.w, l.b, fv)
    case AveragedPerceptron => Margin(l.w0, l.b0, fv)
    case PassiveAggressive => Margin(l.w, l.b, fv)
    case KernelPassiveAggressive => KernelSum(l.support, fv)
  }

  function Score(alg: Algorithm, l: Learner, ex: Example): real {
    RuleMargin(alg, l, ex.fv) * (ex.y as real)
  }

  /** Every call of update moves b and counts, whichever vector it changes. */
  function Counted(l: Learner, alpha: real): Learner {
    l.(b := l.b + alpha * l.bias, updateN := l.updateN + 1)
  }

  /** The size of an aggressive step. */
  function Step(score: real, ex: Example): real {
    (ex.y as real) * (1.0 - score) / Norm(ex.fv)
  }

  /** The multiple of a mistaken example that goes into the accumulated weights. */
  function Accumulated(y: real, exampleN: nat): real {
    y * (exampleN as real + 1.0)
  }

  function Train(alg: Algorithm, l: Learner, ex: Example): Learner {
    var score, y := Score(alg, l, ex), ex.y as real;
    var l' := l.(exampleN := l.exampleN + 1);
    match alg
    case Perceptron =>
      if score <= 0.0 then Counted(l', y).(w := Updated(l.w, ex.fv, y)) else l'
    case AveragedPerceptron =>
      var a := Accumulated(y, l.exampleN);
      if score <= 0.0 then Counted(Counted(l', y), a).(w0 := Updated(l.w0, ex.fv, y), wa := Updated(l.wa, ex.fv, a))
      else l'
    case PassiveAggressive =>
      var alpha := Step(score, ex);
      if score <= 1.0 then Counted(l', alpha).(w := Updated(l.w, ex.fv, alpha)) else l'
    case KernelPassiveAggressive =>
      if score <= 1.0 then l'.(support := l.support + [Support(ex.fv, Step(score, ex))]) else l'
  }

  function Run(alg: Algorithm, l: Learner, exs: seq<Example>): Learner {
    if exs == [] then l else Train(alg, Run(alg, l, exs[..|exs| - 1]), exs[|exs| - 1])
  }

  function Repeat(exs: seq<Example>, n: nat): seq<Example> {
    if n == 0 then [] else Repeat(exs, n - 1) + exs
  }

  /** The examples in the order trainFile presents them: once while reading when iter is zero. */
  function Presented(exs: seq<Example>, iter: int): seq<Example> {
    if iter == 0 then exs else if iter < 0 then [] else Repeat(exs, iter)
  }

  /** What classify returns: which vectors are non-empty decides how. */
  function Classified(l: Learner, fv: Features): real {
    if |l.w| > 0 then Margin(l.w, l.b, fv)
    else if |l.w0| > 0 then Margin(l.w0, l.b0, fv) - Margin(l.wa, l.ba, fv) / (l.exampleN + 1) as real
    else KernelSum(l.support, fv)
  }

  lemma RunLast(alg: Algorithm, l: Learner, exs: seq<Example>)
    ensures exs == [] ==> Run(alg, l, exs) == l
    ensures exs != [] ==> Run(alg, l, exs) == Train(alg, Run(alg, l, exs[..|exs| - 1]), exs[|exs| - 1])
  {
  }

  lemma ScoreIs(alg: Algorithm, l: Learner, ex: Example, margin: real, y: real)
    requires margin == RuleMargin(alg, l, ex.fv) && y == ex.y as real
    ensures margin * y == Score(alg, l, ex)
  {
  }

  lemma StepIs(score: real, ex: Example, y: real, norm: real)
    requires norm == Norm(ex.fv) && y == ex.y as real
    ensures y * (1.0 - score) / norm == Step(score, ex)
  {
  }

  /** What one example does to the plain perceptron. */
  lemma PerceptronTurn(l: Learner, ex: Example)
    ensures var l' := Train(Perceptron, l, ex);
            if Score(Perceptron, l, ex) <= 0.0 then
              l' == l.(exampleN := l.exampleN + 1, updateN := l.updateN + 1, b := l'.b, w := Updated(l.w, ex.fv, ex.y as real))
            else l' == l.(exampleN := l.exampleN + 1)
    ensures l.bias == 0.0 ==> Train(Perceptron, l, ex).b == l.b
  {
    if l.bias == 0.0 {
      assert (ex.y as real) * l.bias == 0.0;
    }
  }

  lemma {:induction false} RunConcat(alg: Algorithm, l: Learner, exs: seq<Example>, more: seq<Example>)
    ensures Run(alg, l, exs + more) == Run(alg, Run(alg, l, exs), more)
  {
    if more == [] {
      assert exs + more == exs;
    } else {
      assert (exs + more)[..|exs + more| - 1] == exs + more[..|more| - 1];
      RunConcat(alg, l, exs, more[..|more| - 1]);
    }
  }

  lemma {:induction false} Repeated(exs: seq<Example>, n: nat, ex: Example)
    requires ex in Repeat(exs, n)
    ensures ex in exs
  {
    if n > 0 && ex !in exs {
      Repeated(exs, n - 1, ex);
    }
  }

  // ----- the perceptron's mistake bound

  /** Every example has at least the margin g under u, and none is longer than the root of r2. */
  ghost predicate Separable(exs: seq<Example>, u: seq<real>, g: real, r2: real) {
    forall ex :: ex in exs ==> (ex.y as real) * Dot(u, ex.fv) >= g && Length2(ex) <= r2
  }

  /** The squared length of an example, which is that of its features for a label of one or minus one. */
  function Length2(ex: Example): real {
    (ex.y as real) * (ex.y as real) * Inp(ex.fv, ex.fv)
  }

  function Norm2(u: seq<real>): real {
    DotUpTo(u, u, |u|)
  }

  ghost predicate AllIdsBelow(exs: seq<Example>, n: nat) {
    forall ex :: ex in exs ==> IdsBelow(ex.fv, n)
  }

  lemma {:induction false} SomeBound(fv: Features) returns (n: nat)
    ensures IdsBelow(fv, n)
  {
    n := 0;
    if fv == [] {
    } else {
      var m := SomeBound(fv[..|fv| - 1]);
      n := if m <= fv[|fv| - 1].0 then fv[|fv| - 1].0 + 1 else m;
    }
  }

  lemma {:induction false} SomeBoundForAll(exs: seq<Example>) returns (n: nat)
    ensures AllIdsBelow(exs, n)
  {
    n := 0;
    if exs == [] {
    } else {
      var m := SomeBoundForAll(exs[..|exs| - 1]);
      var k := SomeBound(exs[|exs| - 1].fv);
      n := if m <= k then k else m;
      forall ex | ex in exs ensures IdsBelow(ex.fv, n) {
        assert ex in exs[..|exs| - 1] || ex == exs[|exs| - 1];
      }
    }
  }

  /** With bias zero, the weights gain g along u and at most r2 in squared length per mistake. */
  ghost predicate Progress(l: Learner, u: seq<real>, g: real, r2: real, n: nat) {
    && l.bias == 0.0 && l.b == 0.0
    && DotUpTo(u, l.w, n) >= (l.updateN as real) * g
    && DotUpTo(l.w, l.w, n) <= (l.updateN as real) * r2
  }

  lemma MistakeProgress(l: Learner, ex: Example, u: seq<real>, g: real, r2: real, n: nat)
    requires Progress(l, u, g, r2, n)
    requires (ex.y as real) * Dot(u, ex.fv) >= g && Length2(ex) <= r2 && IdsBelow(ex.fv, n)
    ensures Progress(Train(Perceptron, l, ex), u, g, r2, n)
  {
    hide *;
    var y, k, l' := ex.y as real, l.updateN as real, Train(Perceptron, l, ex);
    ProgressParts(l, u, g, r2, n);
    PerceptronTurn(l, ex);
    if Score(Perceptron, l, ex) <= 0.0 {
      UpdatedAlong(u, l.w, ex.fv, y, n);
      UpdatedNorm(l.w, ex.fv, y, n);
      MistakeParts(l, ex);
      MistakeStep(k, y, g, r2, DotUpTo(u, l.w, n), Dot(u, ex.fv), DotUpTo(l.w, l.w, n), Dot(l.w, ex.fv), Inp(ex.fv, ex.fv));
      ProgressParts(l', u, g, r2, n);
    } else {
      ProgressParts(l', u, g, r2, n);
    }
  }

  lemma ProgressParts(l: Learner, u: seq<real>, g: real, r2: real, n: nat)
    ensures Progress(l, u, g, r2, n) <==>
            && l.bias == 0.0 && l.b == 0.0
            && DotUpTo(u, l.w, n) >= (l.updateN as real) * g
            && DotUpTo(l.w, l.w, n) <= (l.updateN as real) * r2
  {
  }

  lemma MistakeParts(l: Learner, ex: Example)
    requires Score(Perceptron, l, ex) <= 0.0
    ensures Length2(ex) == (ex.y as real) * (ex.y as real) * Inp(ex.fv, ex.fv)
    ensures l.b == 0.0 ==> Dot(l.w, ex.fv) * (ex.y as real) <= 0.0
  {
  }

  lemma MistakeStep(k: real, y: real, g: real, r2: real, uw: real, ux: real, ww: real, wx: real, xx: real)
    requires uw >= k * g && ww <= k * r2 && y * ux >= g && y * y * xx <= r2 && wx * y <= 0.0
    ensures uw + y * ux >= (k + 1.0) * g
    ensures ww + 2.0 * y * wx + y * y * xx <= (k + 1.0) * r2
  {
    assert (k + 1.0) * g == k * g + g;
    assert (k + 1.0) * r2 == k * r2 + r2;
    assert 2.0 * y * wx == 2.0 * (wx * y);
  }

  lemma {:induction false} RunProgress(l: Learner, exs: seq<Example>, u: seq<real>, g: real, r2: real, n: nat)
    requires Progress(l, u, g, r2, n) && Separable(exs, u, g, r2) && AllIdsBelow(exs, n)
    ensures Progress(Run(Perceptron, l, exs), u, g, r2, n)
  {
    if exs == [] {
    } else {
      var rest, ex := exs[..|exs| - 1], exs[|exs| - 1];
      assert ex in exs && forall e :: e in rest ==> e in exs;
      RunProgress(l, rest, u, g, r2, n);
      MistakeProgress(Run(Perceptron, l, rest), ex, u, g, r2, n);
    }
  }

  /** The mistake bound: with bias zero, however often the examples are presented. */
  lemma MistakeBound(exs: seq<Example>, iter: int, u: seq<real>, g: real, r2: real)
    requires g > 0.0 && r2 >= 0.0 && Separable(exs, u, g, r2)
    ensures (Run(Perceptron, Fresh(0.0), Presented(exs, iter)).updateN as real) * (g * g) <= r2 * Norm2(u)
  {
    hide Train, Score, Run, Progress, Dot, Inp;
    var seen := Presented(exs, iter);
    forall ex | ex in seen ensures ex in exs {
      if iter > 0 {
        Repeated(exs, iter, ex);
      }
    }
    var m := SomeBoundForAll(seen);
    var n := if m <= |u| then |u| else m;
    var l := Run(Perceptron, Fresh(0.0), seen);
    DotUpToZero(u, n);
    ProgressParts(Fresh(0.0), u, g, r2, n);
    RunProgress(Fresh(0.0), seen, u, g, r2, n);
    ProgressParts(l, u, g, r2, n);
    CauchySchwarz(u, l.w, n);
    DotUpToPast(u, u, |u|, n);
    BoundOfProgress(l.updateN as real, g, r2, DotUpTo(u, l.w, n), Norm2(u), DotUpTo(l.w, l.w, n));
  }

  lemma {:induction false} DotUpToZero(u: seq<real>, n: nat)
    ensures DotUpTo(u, [], n) == 0.0 && DotUpTo([], [], n) == 0.0
  {
    if n == 0 {
    } else {
      DotUpToZero(u, n - 1);
    }
  }

  lemma BoundOfProgress(k: real, g: real, r2: real, uw: real, uu: real, ww: real)
    requires k >= 0.0 && g > 0.0 && r2 >= 0.0 && uu >= 0.0 && ww >= 0.0
    requires uw >= k * g && ww <= k * r2 && uw * uw <= uu * ww
    ensures k * (g * g) <= r2 * uu
  {
    NonNegativeProduct(r2, uu);
    if k > 0.0 {
      var p := k * g;
      NonNegativeProduct(k, g);
      NonNegativeProduct(uw - p, uw + p);
      assert (uw - p) * (uw + p) == uw * uw - p * p;
      NonNegativeProduct(uu, k * r2 - ww);
      assert uu * (k * r2 - ww) == uu * (k * r2) - uu * ww;
      assert p * p == k * (k * (g * g));
      assert uu * (k * r2) == k * (r2 * uu);
      assert k * (r2 * uu - k * (g * g)) == k * (r2 * uu) - k * (k * (g * g));
      PositiveFactor(k, r2 * uu - k * (g * g));
    } else {
      assert 0.0 * (g * g) == 0.0;
    }
  }

  // ----- convergence: enough passes classify every example rightly

  /** A pass over these examples would change nothing but the example count. */
  ghost predicate Separates(l: Learner, exs: seq<Example>) {
    forall ex :: ex in exs ==> Score(Perceptron, l, ex) > 0.0
  }

  /** A pass makes a mistake, or it started with weights that separate the examples. */
  lemma {:induction false} QuietPass(l: Learner, exs: seq<Example>)
    ensures var l' := Run(Perceptron, l, exs);
            || l'.updateN > l.updateN
            || (Separates(l, exs) && l'.updateN == l.updateN && l'.w == l.w && l'.b == l.b)
  {
    hide Train, Score, Run;
    RunLast(Perceptron, l, exs);
    if exs == [] {
    } else {
      var rest, ex := exs[..|exs| - 1], exs[|exs| - 1];
      var l1 := Run(Perceptron, l, rest);
      QuietPass(l, rest);
      PerceptronTurn(l1, ex);
      if l1.w == l.w && l1.b == l.b {
        SameScore(l, l1, ex);
      }
      forall e | e in exs ensures e in rest || e == ex {
      }
    }
  }

  lemma SameScore(l: Learner, l1: Learner, ex: Example)
    requires l1.w == l.w && l1.b == l.b
    ensures Score(Perceptron, l1, ex) == Score(Perceptron, l, ex)
  {
  }

  lemma {:induction false} SeparatingStays(l: Learner, exs: seq<Example>)
    requires Separates(l, exs)
    ensures Run(Perceptron, l, exs).w == l.w && Run(Perceptron, l, exs).b == l.b
  {
    hide Train, Score, Run;
    RunLast(Perceptron, l, exs);
    if exs == [] {
    } else {
      var rest, ex := exs[..|exs| - 1], exs[|exs| - 1];
      assert ex in exs && forall e :: e in rest ==> e in exs;
      SeparatingStays(l, rest);
      PerceptronTurn(Run(Perceptron, l, rest), ex);
      SameScore(l, Run(Perceptron, l, rest), ex);
    }
  }

  lemma {:induction false} PassesOrSeparation(l: Learner, exs: seq<Example>, n: nat)
    ensures var l' := Run(Perceptron, l, Repeat(exs, n)); l'.updateN >= l.updateN + n || Separates(l', exs)
  {
    hide Train, Score, Run;
    RunLast(Perceptron, l, []);
    if n == 0 {
    } else {
      PassesOrSeparation(l, exs, n - 1);
      RunConcat(Perceptron, l, Repeat(exs, n - 1), exs);
      var l1 := Run(Perceptron, l, Repeat(exs, n - 1));
      QuietPass(l1, exs);
      if Separates(l1, exs) {
        SeparatingStays(l1, exs);
        forall ex | ex in exs ensures Score(Perceptron, Run(Perceptron, l1, exs), ex) > 0.0 {
          SameScore(l1, Run(Perceptron, l1, exs), ex);
        }
      }
    }
  }

  /** More passes than the mistake bound allows mistakes leave weights with every example on its side. */
  lemma Converges(exs: seq<Example>, iter: int, u: seq<real>, g: real, r2: real)
    requires g > 0.0 && r2 >= 0.0 && Separable(exs, u, g, r2)
    requires iter > 0 && (iter as real) * (g * g) > r2 * Norm2(u)
    ensures Separates(Run(Perceptron, Fresh(0.0), Presented(exs, iter)), exs)
  {
    hide *;
    var start, l := Fresh(0.0), Run(Perceptron, Fresh(0.0), Presented(exs, iter));
    MistakeBound(exs, iter, u, g, r2);
    PassesOrSeparation(start, exs, iter);
    assert Presented(exs, iter) == Repeat(exs, iter) && start.updateN == 0 by {
      Passes(exs, iter);
    }
    TooMany(iter, l.updateN, g, r2 * Norm2(u));
  }

  lemma Passes(exs: seq<Example>, iter: nat)
    requires iter > 0
    ensures Presented(exs, iter) == Repeat(exs, iter) && Fresh(0.0).updateN == 0
  {
  }

  lemma TooMany(i: nat, k: nat, g: real, bound: real)
    requires (k as real) * (g * g) <= bound < (i as real) * (g * g)
    ensures k < i
  {
    var d, s := (k - i) as real, g * g;
    SquareNonNegative(g);
    assert d * s == (k as real) * s - (i as real) * s;
    if i <= k {
      NonNegativeProduct(d, s);
    }
  }

  // ----- lazy averaging

  /** The weight vectors of the plain perceptron without bias after 0, 1, .. |exs| examples. */
  function Successive(exs: seq<Example>): (r: seq<seq<real>>)
    ensures |r| == |exs| + 1
  {
    (if exs == [] then [] else Successive(exs[..|exs| - 1])) + [Run(Perceptron, Fresh(0.0), exs).w]
  }

  function SumOfMargins(vs: seq<seq<real>>, fv: Features): real {
    if vs == [] then 0.0 else SumOfMargins(vs[..|vs| - 1], fv) + Dot(vs[|vs| - 1], fv)
  }

  lemma AveragedTurn(l: Learner, ex: Example)
    ensures var l' := Train(AveragedPerceptron, l, ex);
            if Score(AveragedPerceptron, l, ex) <= 0.0 then
              l' == l.(exampleN := l.exampleN + 1, updateN := l.updateN + 2,
                       b := l.b + (ex.y as real) * l.bias + Accumulated(ex.y as real, l.exampleN) * l.bias,
                       w0 := Updated(l.w0, ex.fv, ex.y as real),
                       wa := Updated(l.wa, ex.fv, Accumulated(ex.y as real, l.exampleN)))
            else l' == l.(exampleN := l.exampleN + 1)
  {
    hide Accumulated;
  }

  lemma BothScores(l: Learner, p: Learner, ex: Example)
    requires l.w0 == p.w && l.b0 == p.b
    ensures Score(AveragedPerceptron, l, ex) == Score(Perceptron, p, ex)
  {
  }

  /** The averaged learner's w0 is the plain perceptron without bias, and b0, ba and the rest never move. */
  lemma {:induction false} AveragedFollows(bias: real, exs: seq<Example>)
    ensures var l := Run(AveragedPerceptron, Fresh(bias), exs);
            var p := Run(Perceptron, Fresh(0.0), exs);
            && l.w0 == p.w && p.b == 0.0 && p.bias == 0.0 && l.b0 == 0.0 && l.ba == 0.0
            && l.w == [] && l.support == [] && l.exampleN == |exs| && (l.w0 == [] ==> l.wa == [])
  {
    hide Train, Score, Run;
    RunLast(AveragedPerceptron, Fresh(bias), exs);
    RunLast(Perceptron, Fresh(0.0), exs);
    if exs == [] {
    } else {
      var rest, ex := exs[..|exs| - 1], exs[|exs| - 1];
      AveragedFollows(bias, rest);
      var l, p := Run(AveragedPerceptron, Fresh(bias), rest), Run(Perceptron, Fresh(0.0), rest);
      PerceptronTurn(p, ex);
      AveragedTurn(l, ex);
      BothScores(l, p, ex);
      EmptyTogether(l.w0, l.wa, ex.fv, ex.y as real, Accumulated(ex.y as real, l.exampleN));
    }
  }

  /** With bias one, the first mistake moves b, and leaves b0 and ba, the biases classify uses, at 0. */
  lemma AveragedBiasUnused()
    ensures var l := Train(AveragedPerceptron, Fresh(1.0), Example([(0, 1.0)], 1));
            l.updateN == 2 && l.b == 2.0 && l.b0 == 0.0 && l.ba == 0.0
  {
    var ex := Example([(0, 1.0)], 1);
    EmptyDot(ex.fv);
    assert Score(AveragedPerceptron, Fresh(1.0), ex) == 0.0;
    assert Accumulated(1.0, 0) == 1.0;
  }

  lemma {:induction false} EmptyTogether(v: seq<real>, v': seq<real>, fv: Features, a: real, a': real)
    requires v == [] ==> v' == []
    ensures Updated(v, fv, a) == [] ==> Updated(v', fv, a') == []
  {
    if fv == [] {
    } else {
      var last := fv[|fv| - 1];
      assert |AddAt(Updated(v, fv[..|fv| - 1], a), last.0, last.1 * a)| > 0;
    }
  }

  /** N + 1 times the current margin less the accumulated one is the sum over all the successive vectors. */
  lemma {:induction false} LazySum(bias: real, exs: seq<Example>, fv: Features)
    ensures var l := Run(AveragedPerceptron, Fresh(bias), exs);
            SumOfMargins(Successive(exs), fv) == (|exs| + 1) as real * Dot(l.w0, fv) - Dot(l.wa, fv)
  {
    hide *;
    var l := Run(AveragedPerceptron, Fresh(bias), exs);
    AveragedFollows(bias, exs);
    RunLast(AveragedPerceptron, Fresh(bias), exs);
    EmptyDot(fv);
    if exs == [] {
      SumLast(exs, l.w0, fv);
      FreshVectors(bias);
    } else {
      var rest, ex := exs[..|exs| - 1], exs[|exs| - 1];
      var k, y := Run(AveragedPerceptron, Fresh(bias), rest), ex.y as real;
      LazySum(bias, rest, fv);
      AveragedFollows(bias, rest);
      AveragedTurn(k, ex);
      UpdatedDot(k.w0, ex.fv, y, fv);
      UpdatedDot(k.wa, ex.fv, Accumulated(ex.y as real, k.exampleN), fv);
      SumLast(exs, l.w0, fv);
      SumStep(|exs|, k, l, ex, fv);
    }
  }

  lemma SumLast(exs: seq<Example>, w: seq<real>, fv: Features)
    requires Run(Perceptron, Fresh(0.0), exs).w == w
    ensures SumOfMargins(Successive(exs), fv) ==
            (if exs == [] then 0.0 else SumOfMargins(Successive(exs[..|exs| - 1]), fv)) + Dot(w, fv)
  {
    hide Run, Dot;
    var vs := Successive(exs);
    assert vs[..|vs| - 1] == if exs == [] then [] else Successive(exs[..|exs| - 1]);
  }

  lemma FreshVectors(bias: real)
    ensures Fresh(bias).w0 == [] && Fresh(bias).wa == []
  {
  }

  /** One more example adds the current margin to the sum, whether or not it was a mistake. */
  lemma SumStep(n: nat, k: Learner, l: Learner, ex: Example, fv: Features)
    requires k.exampleN as real + 1.0 == n as real
    requires var a := if Score(AveragedPerceptron, k, ex) <= 0.0 then 1.0 else 0.0;
             && Dot(l.w0, fv) == Dot(k.w0, fv) + a * (ex.y as real * Inp(ex.fv, fv))
             && Dot(l.wa, fv) == Dot(k.wa, fv) + a * (Accumulated(ex.y as real, k.exampleN) * Inp(ex.fv, fv))
    ensures (n as real * Dot(k.w0, fv) - Dot(k.wa, fv)) + Dot(l.w0, fv) == (n + 1) as real * Dot(l.w0, fv) - Dot(l.wa, fv)
  {
    hide Score, Dot, Inp;
    SumArithmetic(n as real, Dot(k.w0, fv), Dot(k.wa, fv), Dot(l.w0, fv), Dot(l.wa, fv), ex.y as real, Inp(ex.fv, fv),
                  Accumulated(ex.y as real, k.exampleN), if Score(AveragedPerceptron, k, ex) <= 0.0 then 1.0 else 0.0);
  }

  lemma SumArithmetic(n: real, d: real, c: real, d': real, c': real, y: real, p: real, acc: real, a: real)
    requires d' == d + a * (y * p) && c' == c + a * (acc * p) && acc == y * n
    ensures (n * d - c) + d' == (n + 1.0) * d' - c'
  {
    assert n * d' == n * d + n * (a * (y * p));
    assert n * (a * (y * p)) == a * ((y * n) * p);
    assert (n + 1.0) * d' == n * d' + d';
  }

  lemma {:induction false} EmptyDot(fv: Features)
    ensures Dot([], fv) == 0.0
  {
    if fv == [] {
    } else {
      EmptyDot(fv[..|fv| - 1]);
    }
  }

  /** The averaged learner classifies with the mean margin of all |exs| + 1 successive weight vectors. */
  lemma AveragedMean(bias: real, exs: seq<Example>, iter: int, fv: Features)
    ensures var seen := Presented(exs, iter);
            Classified(Run(AveragedPerceptron, Fresh(bias), seen), fv) ==
            SumOfMargins(Successive(seen), fv) / (|seen| + 1) as real
  {
    hide Run, Dot, SumOfMargins, Successive;
    var seen := Presented(exs, iter);
    var l := Run(AveragedPerceptron, Fresh(bias), seen);
    AveragedFollows(bias, seen);
    LazySum(bias, seen, fv);
    var n, d, c := (|seen| + 1) as real, Dot(l.w0, fv), Dot(l.wa, fv);
    assert Classified(l, fv) == d - c / n by {
      if l.w0 == [] {
        EmptyDot(fv);
        RealQuotient(n, 0.0, c);
      }
    }
    assert SumOfMargins(Successive(seen), fv) == n * d - c;
    hide Classified, Presented, Fresh;
    Mean(n, d, c);
  }

  lemma Mean(n: real, d: real, c: real)
    requires n > 0.0
    ensures (n * d - c) / n == d - c / n
  {
    var r := c / n;
    assert n * r == c;
    assert n * (d - r) == n * d - n * r;
    RealQuotient(n, d - r, n * d - c);
  }

  lemma RealQuotient(n: real, q: real, x: real)
    requires n > 0.0 && n * q == x
    ensures x / n == q
  {
  }

  // ----- aggressive steps

  /** The score after an aggressive step, for a label of one or minus one. */
  lemma StepScore(l: Learner, ex: Example)
    requires ex.y == 1 || ex.y == -1
    requires Score(PassiveAggressive, l, ex) <= 1.0
    ensures var score := Score(PassiveAggressive, l, ex);
            Score(PassiveAggressive, Train(PassiveAggressive, l, ex), ex) ==
            score + (1.0 - score) / Norm(ex.fv) * (Inp(ex.fv, ex.fv) + l.bias)
  {
    hide Dot, Inp, Norm, Updated;
    var score, y := Score(PassiveAggressive, l, ex), ex.y as real;
    var alpha := Step(score, ex);
    UpdatedDot(l.w, ex.fv, alpha, ex.fv);
    StepArithmetic(l.b, l.bias, Dot(l.w, ex.fv), Inp(ex.fv, ex.fv), y, score, Norm(ex.fv), alpha);
  }

  lemma StepArithmetic(b: real, bias: real, d: real, p: real, y: real, score: real, norm: real, alpha: real)
    requires (y == 1.0 || y == -1.0) && norm >= 1.0 && score == (b + d) * y && alpha == y * (1.0 - score) / norm
    ensures ((b + alpha * bias) + (d + alpha * p)) * y == score + (1.0 - score) / norm * (p + bias)
  {
    var t := (1.0 - score) / norm;
    assert alpha == y * t;
    assert alpha * bias == y * (t * bias) && alpha * p == y * (t * p);
    assert t * (p + bias) == t * p + t * bias;
  }

  /** A step reaches the margin one exactly when there was none to take or the norm is the true one. */
  lemma StepReachesOne(l: Learner, ex: Example)
    requires ex.y == 1 || ex.y == -1
    requires Score(PassiveAggressive, l, ex) <= 1.0
    ensures Score(PassiveAggressive, Train(PassiveAggressive, l, ex), ex) == 1.0 <==>
            Score(PassiveAggressive, l, ex) == 1.0 || Norm(ex.fv) == Inp(ex.fv, ex.fv) + l.bias
  {
    hide Score, Train, Inp, Norm;
    StepScore(l, ex);
    assert Norm(ex.fv) >= 1.0;
    Whole(Score(PassiveAggressive, l, ex), Norm(ex.fv), Inp(ex.fv, ex.fv) + l.bias);
  }

  lemma Whole(score: real, norm: real, p: real)
    requires norm >= 1.0
    ensures score + (1.0 - score) / norm * p == 1.0 <==> score == 1.0 || norm == p
  {
    var t := (1.0 - score) / norm;
    assert t * norm == 1.0 - score;
    assert t * (norm - p) == t * norm - t * p;
    if t * (norm - p) == 0.0 {
      assert t == 0.0 || norm - p == 0.0;
    }
  }

  ghost predicate DistinctIds(fv: Features) {
    forall i, j :: 0 <= i < j < |fv| ==> fv[i].0 != fv[j].0
  }

  /** With distinct ids and bias one, the norm is the true one. */
  lemma {:induction false} TrueNorm(fv: Features)
    requires DistinctIds(fv)
    ensures Norm(fv) == Inp(fv, fv) + 1.0
  {
    if fv == [] {
    } else {
      var rest, id, x := fv[..|fv| - 1], fv[|fv| - 1].0, fv[|fv| - 1].1;
      TrueNorm(rest);
      InpExtended(rest, id, x);
      Absent(rest, id);
      assert rest + [(id, x)] == fv;
      assert 2.0 * x * 0.0 == 0.0;
    }
  }

  lemma {:induction false} Absent(fv: Features, id: nat)
    requires forall k :: 0 <= k < |fv| ==> fv[k].0 != id
    ensures Coeff(fv, id) == 0.0
  {
    if fv == [] {
    } else {
      Absent(fv[..|fv| - 1], id);
    }
  }

  /** With distinct ids that is exactly with a bias of one, which is not the default. */
  lemma StepNeedsBias(l: Learner, ex: Example)
    requires (ex.y == 1 || ex.y == -1) && DistinctIds(ex.fv)
    requires Score(PassiveAggressive, l, ex) <= 1.0
    ensures Score(PassiveAggressive, Train(PassiveAggressive, l, ex), ex) == 1.0 <==>
            Score(PassiveAggressive, l, ex) == 1.0 || l.bias == 1.0
  {
    StepReachesOne(l, ex);
    TrueNorm(ex.fv);
  }

  /** With the default bias the first step on a single feature misses the margin. */
  lemma FirstStepFallsShort()
    ensures var ex := Example([(0, 1.0)], 1);
            Score(PassiveAggressive, Train(PassiveAggressive, Fresh(0.0), ex), ex) != 1.0
  {
    var ex := Example([(0, 1.0)], 1);
    EmptyDot(ex.fv);
    assert Score(PassiveAggressive, Fresh(0.0), ex) == 0.0 && Fresh(0.0).bias == 0.0;
    assert DistinctIds(ex.fv);
    hide *;
    StepNeedsBias(Fresh(0.0), ex);
  }

  // ----- what classify says after training

  /** Once the perceptron has converged, classify has the sign of the label on every example. */
  lemma ClassifiesRightly(exs: seq<Example>, iter: int, u: seq<real>, g: real, r2: real, ex: Example)
    requires g > 0.0 && r2 >= 0.0 && Separable(exs, u, g, r2)
    requires iter > 0 && (iter as real) * (g * g) > r2 * Norm2(u) && ex in exs
    ensures Classified(Run(Perceptron, Fresh(0.0), Presented(exs, iter)), ex.fv) * (ex.y as real) > 0.0
  {
    var l := Run(Perceptron, Fresh(0.0), Presented(exs, iter));
    assert Score(Perceptron, l, ex) > 0.0 by {
      hide *;
      Converges(exs, iter, u, g, r2);
      SeparatesAt(l, exs, ex);
    }
    assert l.b == 0.0 by {
      hide *;
      AveragedFollows(0.0, Presented(exs, iter));
    }
    hide Run, Presented, Separable, Norm2, Dot;
    EmptyDot(ex.fv);
  }

  lemma SeparatesAt(l: Learner, exs: seq<Example>, ex: Example)
    requires Separates(l, exs) && ex in exs
    ensures Score(Perceptron, l, ex) > 0.0
  {
  }

  /** After an aggressive step with bias one, classify gives the margin one on the side of the label. */
  lemma ClassifiesWithMargin(l: Learner, ex: Example)
    requires (ex.y == 1 || ex.y == -1) && DistinctIds(ex.fv) && l.bias == 1.0
    requires Score(PassiveAggressive, l, ex) <= 1.0 && (l.w != [] || ex.fv != [])
    ensures Classified(Train(PassiveAggressive, l, ex), ex.fv) * (ex.y as real) == 1.0
  {
    StepNeedsBias(l, ex);
    var alpha := Step(Score(PassiveAggressive, l, ex), ex);
    assert Updated(l.w, ex.fv, alpha) != [] by {
      UpdatedNotEmpty(l.w, ex.fv, alpha);
    }
    hide Updated, Dot, Norm, Inp, DistinctIds, Step;
  }

  lemma {:induction false} UpdatedNotEmpty(v: seq<real>, fv: Features, a: real)
    requires v != [] || fv != []
    ensures Updated(v, fv, a) != []
  {
    if fv == [] {
    } else {
      var last := fv[|fv| - 1];
      assert |AddAt(Updated(v, fv[..|fv| - 1], a), last.0, last.1 * a)| > 0;
    }
  }

  /** A kernel run leaves the dense vectors empty, whatever the bias. */
  lemma {:induction false} KernelRun(bias: real, exs: seq<Example>)
    ensures var l := Run(KernelPassiveAggressive, Fresh(bias), exs);
            l == Fresh(bias).(exampleN := |exs|, support := l.support) && |l.support| <= |exs|
  {
    hide Score, Step;
    if exs == [] {
    } else {
      KernelRun(bias, exs[..|exs| - 1]);
    }
  }

  /** So classify is the sum over the support vectors of alpha times the squared inner product. */
  lemma KernelClassified(bias: real, exs: seq<Example>, fv: Features)
    ensures var l := Run(KernelPassiveAggressive, Fresh(bias), exs); Classified(l, fv) == KernelSum(l.support, fv)
  {
    KernelRun(bias, exs);
    hide Run, KernelSum;
  }

  /** The score after a kernel step: the step goes by the norm of the features, and the kernel is the
      square of the inner product. */
  lemma KernelStepScore(l: Learner, ex: Example)
    requires ex.y == 1 || ex.y == -1
    requires Score(KernelPassiveAggressive, l, ex) <= 1.0
    ensures var score := Score(KernelPassiveAggressive, l, ex);
            Score(KernelPassiveAggressive, Train(KernelPassiveAggressive, l, ex), ex) ==
            score + (1.0 - score) / Norm(ex.fv) * (Inp(ex.fv, ex.fv) * Inp(ex.fv, ex.fv))
  {
    var score, y := Score(KernelPassiveAggressive, l, ex), ex.y as real;
    var alpha, norm, p, k := Step(score, ex), Norm(ex.fv), Inp(ex.fv, ex.fv), KernelSum(l.support, ex.fv);
    var l' := Train(KernelPassiveAggressive, l, ex);
    hide *;
    KernelTrained(l, ex);
    ScoreIs(KernelPassiveAggressive, l, ex, RuleMargin(KernelPassiveAggressive, l, ex.fv), y);
    ScoreIs(KernelPassiveAggressive, l', ex, RuleMargin(KernelPassiveAggressive, l', ex.fv), y);
    KernelMargin(l, ex.fv);
    KernelMargin(l', ex.fv);
    KernelMore(l.support, ex.fv, alpha, p);
    StepIs(score, ex, y, norm);
    NormFromOne(ex.fv);
    KernelArithmetic(k, p, y, score, norm, alpha, KernelSum(l'.support, ex.fv));
  }

  lemma KernelTrained(l: Learner, ex: Example)
    requires Score(KernelPassiveAggressive, l, ex) <= 1.0
    ensures Train(KernelPassiveAggressive, l, ex).support ==
            l.support + [Support(ex.fv, Step(Score(KernelPassiveAggressive, l, ex), ex))]
  {
    hide Score, Step;
  }

  lemma KernelMargin(l: Learner, fv: Features)
    ensures RuleMargin(KernelPassiveAggressive, l, fv) == KernelSum(l.support, fv)
  {
  }

  lemma NormFromOne(fv: Features)
    ensures Norm(fv) >= 1.0
  {
  }

  lemma KernelMore(support: seq<Support>, fv: Features, alpha: real, p: real)
    requires p == Inp(fv, fv)
    ensures KernelSum(support + [Support(fv, alpha)], fv) == KernelSum(support, fv) + p * p * alpha
  {
    hide Inp;
    assert (support + [Support(fv, alpha)])[..|support|] == support;
  }

  lemma KernelArithmetic(k: real, p: real, y: real, score: real, norm: real, alpha: real, k': real)
    requires (y == 1.0 || y == -1.0) && norm >= 1.0 && score == k * y && alpha == y * (1.0 - score) / norm
    requires k' == k + p * p * alpha
    ensures k' * y == score + (1.0 - score) / norm * (p * p)
  {
    var t, q := (1.0 - score) / norm, p * p;
    assert alpha == y * t;
    assert q * alpha == y * (q * t);
  }

  /** An example with a margin above one only counts as seen. */
  lemma NothingToLearn(alg: Algorithm, l: Learner, ex: Example)
    requires alg == PassiveAggressive || alg == KernelPassiveAggressive
    requires Score(alg, l, ex) > 1.0
    ensures Train(alg, l, ex) == l.(exampleN := l.exampleN + 1)
  {
  }

  /** How many of the examples were within the margin that the rule asks for when they came. */
  ghost function Mistakes(alg: Algorithm, bias: real, exs: seq<Example>): nat {
    if exs == [] then 0
    else
      var before, ex := exs[..|exs| - 1], exs[|exs| - 1];
      var wanted := if alg == Perceptron || alg == AveragedPerceptron then 0.0 else 1.0;
      Mistakes(alg, bias, before) + if Score(alg, Run(alg, Fresh(bias), before), ex) <= wanted then 1 else 0
  }

  /** What the counters count: the examples; and the mistakes, twice if the rule has two vectors, or
      as support vectors if it has none. */
  lemma {:induction false} MistakesCounted(alg: Algorithm, bias: real, exs: seq<Example>)
    ensures var l, n := Run(alg, Fresh(bias), exs), Mistakes(alg, bias, exs);
            && l.exampleN == |exs|
            && l.updateN == (match alg case AveragedPerceptron => 2 * n case KernelPassiveAggressive => 0 case _ => n)
            && |l.support| == (if alg == KernelPassiveAggressive then n else 0)
  {
    hide Score, Step;
    if exs == [] {
    } else {
      MistakesCounted(alg, bias, exs[..|exs| - 1]);
    }
  }

  // ----- the order of the examples

  /** While reading the examples come once, else iter times over, each time in the order of the file. */
  lemma PresentedAt(exs: seq<Example>, iter: int)
    ensures |Presented(exs, iter)| == if iter == 0 then |exs| else if iter < 0 then 0 else iter * |exs|
    ensures forall k :: 0 <= k < |Presented(exs, iter)| ==> |exs| > 0 && Presented(exs, iter)[k] == exs[k % |exs|]
  {
    if iter > 0 {
      RepeatAt(exs, iter);
    } else {
      forall k | 0 <= k < |exs| ensures k % |exs| == k {
        Arith.DivModUnique(k, |exs|, 0, k);
      }
    }
  }

  lemma {:induction false} RepeatAt(exs: seq<Example>, n: nat)
    ensures |Repeat(exs, n)| == n * |exs|
    ensures forall k :: 0 <= k < |Repeat(exs, n)| ==> |exs| > 0 && Repeat(exs, n)[k] == exs[k % |exs|]
  {
    if n == 0 {
    } else {
      RepeatAt(exs, n - 1);
      var m := |exs|;
      assert n * m == (n - 1) * m + m;
      forall k | 0 <= k < |Repeat(exs, n)| ensures m > 0 && Repeat(exs, n)[k] == exs[k % m] {
        if k >= (n - 1) * m {
          Wrapped(k, n - 1, m);
        }
      }
    }
  }

  lemma Wrapped(k: int, n: nat, m: nat)
    requires n * m <= k < n * m + m
    ensures k % m == k - n * m
  {
    Arith.DivModUnique(k, m, n, k - n * m);
  }
}
