/** The online learner: vectors and counters that training changes in place, an inverted index of
    the support vectors, and the buffer that collects inner products. */
module Oll {
  import opened OllVectors
  import opened OllModel

  // ----- the inverted index

  /** The entries of feature id, each a support vector's number with its value. */
  function Entries(inv: seq<Features>, id: nat): Features {
    if id < |inv| then inv[id] else []
  }

  /** Entry lists hold, for every feature and support vector, exactly its value there. */
  ghost predicate Indexes(inv: seq<Features>, support: seq<Support>) {
    && (forall id :: 0 <= id < |inv| ==> IdsBelow(inv[id], |support|))
    && (forall id: nat, k: nat :: k < |support| ==> Coeff(Entries(inv, id), k) == Coeff(support[k].fv, id))
  }

  /** resize, which fills with empty lists, and then push_back. */
  function PushAt(inv: seq<Features>, id: nat, entry: (nat, real)): (r: seq<Features>)
    ensures |r| == (if |inv| <= id then id + 1 else |inv|)
    ensures forall k: nat :: Entries(r, k) == if k == id then Entries(inv, k) + [entry] else Entries(inv, k)
  {
    var inv' := if |inv| <= id then inv + seq(id + 1 - |inv|, _ => []) else inv;
    inv'[id := inv'[id] + [entry]]
  }

  /** The index while the new support vector n, of which fv has been entered, is being added. */
  ghost predicate Entering(inv: seq<Features>, support: seq<Support>, fv: Features) {
    && (forall id :: 0 <= id < |inv| ==> IdsBelow(inv[id], |support| + 1))
    && (forall id: nat, k: nat :: k < |support| ==> Coeff(Entries(inv, id), k) == Coeff(support[k].fv, id))
    && (forall id: nat :: Coeff(Entries(inv, id), |support|) == Coeff(fv, id))
  }

  lemma EnteringStarts(inv: seq<Features>, support: seq<Support>)
    requires Indexes(inv, support)
    ensures Entering(inv, support, [])
  {
    forall id: nat ensures Coeff(Entries(inv, id), |support|) == 0.0 {
      Absent(Entries(inv, id), |support|);
    }
  }

  lemma EnteringStep(inv: seq<Features>, support: seq<Support>, fv: Features, id: nat, x: real)
    requires Entering(inv, support, fv)
    ensures Entering(PushAt(inv, id, (|support|, x)), support, fv + [(id, x)])
  {
    var n, inv' := |support|, PushAt(inv, id, (|support|, x));
    forall i: nat, k: nat ensures Coeff(Entries(inv', i), k) == Coeff(Entries(inv, i), k) + (if i == id && n == k then x else 0.0) {
      CoeffMore(Entries(inv, i), n, x, k);
    }
    forall i: nat ensures Coeff(fv + [(id, x)], i) == Coeff(fv, i) + (if id == i then x else 0.0) {
      CoeffMore(fv, id, x, i);
    }
    forall i | 0 <= i < |inv'| ensures IdsBelow(inv'[i], n + 1) {
      assert inv'[i] == Entries(inv', i);
      assert i < |inv| ==> Entries(inv, i) == inv[i];
    }
  }

  lemma EnteringEnds(inv: seq<Features>, support: seq<Support>, fv: Features, alpha: real)
    requires Entering(inv, support, fv)
    ensures Indexes(inv, support + [Support(fv, alpha)])
  {
  }

  // ----- the margins buffer

  /** The buffer holds the inner product of every support vector with fv. */
  ghost predicate Collected(margins: seq<real>, support: seq<Support>, fv: Features) {
    && |margins| == |support|
    && forall k :: 0 <= k < |support| ==> margins[k] == Inp(support[k].fv, fv)
  }

  lemma CollectStep(margins: seq<real>, margins': seq<real>, inv: seq<Features>, support: seq<Support>, fv: Features, n: nat)
    requires Indexes(inv, support) && n < |fv|
    requires Collected(margins, support, fv[..n])
    requires |margins'| == |margins| && margins' == Updated(margins, Entries(inv, fv[n].0), fv[n].1)
    ensures Collected(margins', support, fv[..n + 1])
  {
    hide Inp, Coeff, Updated, At;
    var id, x := fv[n].0, fv[n].1;
    assert fv[..n + 1][..n] == fv[..n];
    forall k | 0 <= k < |support| ensures margins'[k] == Inp(support[k].fv, fv[..n + 1]) {
      UpdatedAt(margins, Entries(inv, id), x, k);
      assert At(margins, k) == margins[k] && At(margins', k) == margins'[k] by {
        AtInside(margins, k);
        AtInside(margins', k);
      }
      InpLast(support[k].fv, fv[..n + 1]);
      CollectArithmetic(margins[k], margins'[k], Coeff(Entries(inv, id), k), Coeff(support[k].fv, id), x);
    }
  }

  lemma CollectedNothing(margins: seq<real>, support: seq<Support>)
    requires |margins| == |support| && forall k :: 0 <= k < |margins| ==> margins[k] == 0.0
    ensures Collected(margins, support, [])
  {
  }

  lemma KernelNone(fv: Features)
    ensures KernelSum([], fv) == 0.0
  {
  }

  lemma AtInside(v: seq<real>, k: nat)
    requires k < |v|
    ensures At(v, k) == v[k]
  {
  }

  lemma CollectArithmetic(m: real, m': real, c: real, d: real, x: real)
    requires m' == m + x * c && c == d
    ensures m' == m + d * x
  {
  }

  lemma KernelLast(support: seq<Support>, fv: Features, m: real)
    requires support != [] && m == Inp(support[|support| - 1].fv, fv)
    ensures KernelSum(support, fv) ==
            KernelSum(support[..|support| - 1], fv) + m * m * support[|support| - 1].alpha
  {
    hide Inp;
    var last := support[|support| - 1];
    assert Inp(last.fv, fv) * Inp(last.fv, fv) == m * m;
  }

  class Oll {
    var exampleN: nat
    var updateN: nat
    var bias: real
    var w: seq<real>
    var b: real
    var w0: seq<real>
    var b0: real
    var wa: seq<real>
    var ba: real
    var alphas: seq<real>
    var inv_svs: seq<Features>
    var margins: seq<real>
    ghost var support: seq<Support>

    ghost predicate Valid()
      reads this
    {
      && |alphas| == |margins| == |support|
      && (forall k :: 0 <= k < |support| ==> alphas[k] == support[k].alpha)
      && Indexes(inv_svs, support)
    }

    ghost function State(): Learner
      reads this
    {
      Learner(exampleN, updateN, bias, w, b, w0, b0, wa, ba, support)
    }

    constructor ()
      ensures Valid() && State() == Fresh(0.0)
    {
      exampleN, updateN, bias := 0, 0, 0.0;
      w, b, w0, b0, wa, ba := [], 0.0, [], 0.0, [], 0.0;
      alphas, inv_svs, margins, support := [], [], [], [];
    }

    method SetBias(bias': real)
      requires Valid()
      modifies this`bias
      ensures Valid() && State() == old(State()).(bias := bias')
    {
      bias := bias';
    }

    method GetMargin(v: seq<real>, bias': real, fv: Features) returns (ret: real)
      ensures ret == Margin(v, bias', fv)
    {
      ret := bias';
      for i := 0 to |fv|
        invariant ret == Margin(v, bias', fv[..i])
      {
        DotLast(v, fv[..i + 1]);
        assert fv[..i + 1][..i] == fv[..i];
        if |v| <= fv[i].0 {
          continue;
        }
        ret := ret + v[fv[i].0] * fv[i].1;
      }
      assert fv[..|fv|] == fv;
    }

    method GetNorm(fv: Features) returns (ret: real)
      ensures ret == Norm(fv)
    {
      ret := 1.0;
      for i := 0 to |fv|
        invariant ret == Norm(fv[..i])
      {
        assert fv[..i + 1][..i] == fv[..i];
        ret := ret + fv[i].1 * fv[i].1;
      }
      assert fv[..|fv|] == fv;
    }

    /** The dual form, computed through the index; only the buffer changes. */
    method GetMarginK(fv: Features) returns (ret: real)
      requires Valid()
      modifies this`margins
      ensures Valid()
      ensures ret == KernelSum(support, fv)
    {
      hide Inp, Coeff, Updated, KernelSum, Dot, Indexes;
      for i := 0 to |margins|
        invariant |margins| == |support| && forall k :: 0 <= k < i ==> margins[k] == 0.0
      {
        margins := margins[i := 0.0];
      }
      CollectedNothing(margins, support);
      KernelNone(fv);
      for i := 0 to |fv|
        invariant Valid() && Collected(margins, support, fv[..i])
      {
        var id, val := fv[i].0, fv[i].1;
        if id >= |inv_svs| {
          UpdatedNone(margins, val);
          CollectStep(margins, margins, inv_svs, support, fv, i);
          continue;
        }
        AddEntries(inv_svs[id], val, fv, i);
      }
      assert fv[..|fv|] == fv;
      ret := 0.0;
      for i := 0 to |margins|
        invariant Valid() && Collected(margins, support, fv) && ret == KernelSum(support[..i], fv)
      {
        assert support[..i + 1][..i] == support[..i];
        KernelLast(support[..i + 1], fv, margins[i]);
        ret := ret + margins[i] * margins[i] * alphas[i];
      }
      assert support[..|support|] == support;
    }

    /** The inner loop of GetMarginK: one feature's entries, each into its support vector's margin. */
    method AddEntries(ifv: Features, val: real, ghost fv: Features, ghost i: nat)
      requires Valid() && i < |fv| && Collected(margins, support, fv[..i])
      requires fv[i].0 < |inv_svs| && ifv == inv_svs[fv[i].0] && val == fv[i].1
      modifies this`margins
      ensures Valid() && Collected(margins, support, fv[..i + 1])
    {
      hide Inp, Coeff, Updated, KernelSum, Dot;
      ghost var before := margins;
      UpdatedNone(before, val);
      for j := 0 to |ifv|
        invariant |margins| == |support| && margins == Updated(before, ifv[..j], val)
      {
        var k, x := ifv[j].0, ifv[j].1;
        assert ifv[..j + 1][..j] == ifv[..j];
        UpdatedLast(before, ifv[..j + 1], k, x, val);
        ghost var was := margins;
        margins := margins[k := margins[k] + x * val];
        assert margins == AddAt(was, k, x * val);
      }
      assert ifv[..|ifv|] == ifv;
      CollectStep(before, margins, inv_svs, support, fv, i);
    }

    /** Adds alpha times the features to v; b and the update count move whatever v is. */
    method Update(v: seq<real>, fv: Features, alpha: real) returns (v': seq<real>)
      modifies this`b, this`updateN
      ensures v' == Updated(v, fv, alpha)
      ensures b == old(b) + alpha * bias && updateN == old(updateN) + 1
    {
      hide Updated;
      UpdatedNone(v, alpha);
      v' := v;
      for i := 0 to |fv|
        invariant v' == Updated(v, fv[..i], alpha) && b == old(b) && updateN == old(updateN)
      {
        var id, x := fv[i].0, fv[i].1;
        assert fv[..i + 1][..i] == fv[..i];
        UpdatedLast(v, fv[..i + 1], id, x, alpha);
        ghost var was := v';
        if |v'| <= id {
          v' := v' + seq(id + 1 - |v'|, _ => 0.0);
        }
        v' := v'[id := v'[id] + x * alpha];
        assert v' == AddAt(was, id, x * alpha);
      }
      assert fv[..|fv|] == fv;
      b := b + alpha * bias;
      updateN := updateN + 1;
    }

    method UpdatePAK(fv: Features, alpha: real)
      requires Valid()
      modifies this`inv_svs, this`alphas, this`margins, this`support
      ensures Valid() && support == old(support) + [Support(fv, alpha)]
    {
      var svsId := |alphas|;
      EnteringStarts(inv_svs, support);
      for i := 0 to |fv|
        invariant support == old(support) && alphas == old(alphas) && margins == old(margins)
        invariant Entering(inv_svs, support, fv[..i])
      {
        assert fv[..i + 1] == fv[..i] + [(fv[i].0, fv[i].1)];
        EnteringStep(inv_svs, support, fv[..i], fv[i].0, fv[i].1);
        ghost var was := inv_svs;
        if |inv_svs| <= fv[i].0 {
          inv_svs := inv_svs + seq(fv[i].0 + 1 - |inv_svs|, _ => []);
        }
        inv_svs := inv_svs[fv[i].0 := inv_svs[fv[i].0] + [(svsId, fv[i].1)]];
        assert inv_svs == PushAt(was, fv[i].0, (svsId, fv[i].1));
      }
      assert fv[..|fv|] == fv;
      EnteringEnds(inv_svs, support, fv, alpha);
      alphas := alphas + [alpha];
      margins := margins + [0.0];
      support := support + [Support(fv, alpha)];
    }

    method TrainPerceptron(ex: Example)
      requires Valid()
      modifies this
      ensures Valid() && State() == Train(Perceptron, old(State()), ex)
    {
      hide Updated, Dot, Norm, Inp, KernelSum, Indexes, Score;
      var margin := GetMargin(w, b, ex.fv);
      var y := ex.y as real;
      ScoreIs(Perceptron, State(), ex, margin, y);
      if margin * y <= 0.0 {
        w := Update(w, ex.fv, y);
      }
      exampleN := exampleN + 1;
    }

    method TrainAveraged(ex: Example)
      requires Valid()
      modifies this
      ensures Valid() && State() == Train(AveragedPerceptron, old(State()), ex)
    {
      hide Train, Updated, Dot, Norm, Inp, KernelSum, Indexes, Score;
      var margin := GetMargin(w0, b0, ex.fv);
      var y := ex.y as real;
      ScoreIs(AveragedPerceptron, State(), ex, margin, y);
      AveragedTurn(State(), ex);
      if margin * y <= 0.0 {
        w0 := Update(w0, ex.fv, y);
        var a := y * (exampleN as real + 1.0);
        assert a == Accumulated(y, exampleN);
        wa := Update(wa, ex.fv, a);
      }
      exampleN := exampleN + 1;
    }

    method TrainAggressive(ex: Example)
      requires Valid()
      modifies this
      ensures Valid() && State() == Train(PassiveAggressive, old(State()), ex)
    {
      hide Updated, Dot, Norm, Inp, KernelSum, Indexes, Score, Step;
      var margin := GetMargin(w, b, ex.fv);
      var y := ex.y as real;
      var score := margin * y;
      ScoreIs(PassiveAggressive, State(), ex, margin, y);
      if score <= 1.0 {
        var norm := GetNorm(ex.fv);
        StepIs(score, ex, y, norm);
        w := Update(w, ex.fv, y * (1.0 - score) / norm);
      }
      exampleN := exampleN + 1;
    }

    method TrainKernel(ex: Example)
      requires Valid()
      modifies this
      ensures Valid() && State() == Train(KernelPassiveAggressive, old(State()), ex)
    {
      hide Updated, Dot, Norm, Inp, KernelSum, Indexes, Score, Step;
      var margin := GetMarginK(ex.fv);
      var y := ex.y as real;
      var score := margin * y;
      ScoreIs(KernelPassiveAggressive, State(), ex, margin, y);
      if score <= 1.0 {
        var norm := GetNorm(ex.fv);
        StepIs(score, ex, y, norm);
        UpdatePAK(ex.fv, y * (1.0 - score) / norm);
      }
      exampleN := exampleN + 1;
    }

    method TrainExample(alg: Algorithm, ex: Example)
      requires Valid()
      modifies this
      ensures Valid() && State() == Train(alg, old(State()), ex)
    {
      match alg
      case Perceptron => TrainPerceptron(ex);
      case AveragedPerceptron => TrainAveraged(ex);
      case PassiveAggressive => TrainAggressive(ex);
      case KernelPassiveAggressive => TrainKernel(ex);
    }

    /** Training on a file whose lines have been parsed: while reading when iter is zero, else in passes. */
    method TrainFile(alg: Algorithm, parsed: seq<Example>, iter: int)
      requires Valid()
      modifies this
      ensures Valid() && State() == Run(alg, old(State()), Presented(parsed, iter))
    {
      hide Train;
      ghost var start := State();
      var fvs: seq<Example> := [];
      for n := 0 to |parsed|
        invariant Valid()
        invariant iter == 0 ==> fvs == [] && State() == Run(alg, start, parsed[..n])
        invariant iter != 0 ==> fvs == parsed[..n] && State() == start
      {
        assert parsed[..n + 1][..n] == parsed[..n];
        if iter == 0 {
          TrainExample(alg, parsed[n]);
        } else {
          fvs := fvs + [parsed[n]];
        }
      }
      assert parsed[..|parsed|] == parsed;
      var i := 0;
      while i < iter
        invariant Valid() && 0 <= i && (iter > 0 ==> i <= iter)
        invariant iter > 0 ==> State() == Run(alg, start, Repeat(parsed, i))
        invariant iter <= 0 ==> i == 0 && State() == Run(alg, start, Presented(parsed, iter))
      {
        ghost var l := State();
        for j := 0 to |fvs|
          invariant Valid() && State() == Run(alg, l, fvs[..j])
        {
          assert fvs[..j + 1][..j] == fvs[..j];
          TrainExample(alg, fvs[j]);
        }
        assert fvs[..|fvs|] == fvs;
        RunConcat(alg, start, Repeat(parsed, i), parsed);
        i := i + 1;
      }
    }

    method Classify(fv: Features) returns (r: real)
      requires Valid()
      modifies this`margins
      ensures Valid() && r == Classified(State(), fv)
    {
      if |w| > 0 {
        r := GetMargin(w, b, fv);
      } else if |w0| > 0 {
        var m := GetMargin(w0, b0, fv);
        var a := GetMargin(wa, ba, fv);
        r := m - a / (exampleN + 1) as real;
      } else {
        r := GetMarginK(fv);
      }
    }
  }

  /** A new learner with the given bias, trained on the parsed lines. */
  method TrainModel(alg: Algorithm, bias: real, parsed: seq<Example>, iter: int) returns (ol: Oll)
    ensures fresh(ol) && ol.Valid() && ol.State() == Run(alg, Fresh(bias), Presented(parsed, iter))
  {
    hide Run, Presented, Indexes;
    ol := new Oll();
    ol.SetBias(bias);
    ol.TrainFile(alg, parsed, iter);
  }
}
