/** The chart of the Earley parser and the forward pass over all tokens. */
module EarleyChart {
  import opened EarleyGrammar
  import opened EarleyState
  import opened EarleyForward

  // ----- charts

  ghost predicate Chart(P: Problem, chart: seq<State>)
    reads chart, set k, o | 0 <= k < |chart| && o in chart[k].repr :: o
  {
    && |chart| == |P.toks| + 1
    && (forall k :: 0 <= k < |chart| ==> Ready(P, chart[k]) && chart[k].num == k)
    && (forall k, l :: 0 <= k < l < |chart| ==> Disjoint(chart[k], chart[l]))
  }

  ghost predicate Blank(st: State)
    reads st
  {
    |st.olds| == |st.news| && forall c :: 0 <= c < |st.olds| ==> st.olds[c] == [] && st.news[c] == []
  }

  /** No state has a conf set without an origin. */
  ghost predicate AllFilled(chart: seq<State>)
    reads chart
  {
    forall k :: 0 <= k < |chart| ==> chart[k].Filled()
  }

  lemma BlankIsReady(P: Problem, st: State)
    requires st.Valid() && st.sets.Length == |P.T.steps| && Blank(st) && |st.olds| == |P.T.steps|
    ensures Ready(P, st)
  {
    hide Item;
    forall c | 0 <= c < |st.olds| ensures SoundSet(P.G, P.toks, P.T, P.L, Join(st.olds, st.news)[c], c, st.num) {
      assert Join(st.olds, st.news)[c] == [];
    }
  }

  /** A chart with nothing in it. */
  method MakeStates(toks: nat, confs: nat, ghost P: Problem) returns (chart: seq<State>)
    requires toks == |P.toks| && confs == |P.T.steps|
    ensures Chart(P, chart) && forall k :: 0 <= k < |chart| ==> Blank(chart[k]) && fresh(chart[k]) && fresh(chart[k].repr)
    ensures AllFilled(chart)
  {
    hide Item, State.Filled, Ready;
    chart := [];
    for i := 0 to toks + 1
      invariant |chart| == i
      invariant forall k :: 0 <= k < i ==> Ready(P, chart[k]) && chart[k].num == k
      invariant forall k :: 0 <= k < i ==> Blank(chart[k]) && fresh(chart[k]) && fresh(chart[k].repr)
      invariant forall k, l :: 0 <= k < l < i ==> Disjoint(chart[k], chart[l])
      invariant AllFilled(chart)
    {
      var st := new State(i, confs);
      BlankIsReady(P, st);
      chart := chart + [st];
    }
  }

  /** conf-set-adjoin*: every configuration of the list gets the origin. */
  method AdjoinAll(st: State, l: seq<nat>, i: nat, ghost P: Problem)
    requires Ready(P, st) && i <= st.num
    requires forall c :: c in l ==> c < |P.T.steps| && Item(P.G, P.toks, P.T, P.L, c, i, st.num)
    modifies st, st.repr
    ensures Ready(P, st) && fresh(st.repr - old(st.repr))
    ensures Grown(old(st.olds), old(st.news), st.olds, st.news)
    ensures forall c :: c in l ==> c < |P.T.steps| && i in Join(st.olds, st.news)[c]
  {
    hide Item, Good, Sound;
    for k := 0 to |l|
      invariant Ready(P, st) && fresh(st.repr - old(st.repr))
      invariant Grown(old(st.olds), old(st.news), st.olds, st.news)
      invariant forall m :: 0 <= m < k ==> l[m] < |P.T.steps| && i in Join(st.olds, st.news)[l[m]]
    {
      ghost var olds, news := st.olds, st.news;
      assert l[k] in l;
      PutItem(st, l[k], i, P);
      JoinGrows(olds, news, st.news);
    }
  }

  // ----- the forward pass over all tokens

  /** The states before j are finished: nothing is new, and done holds their origins. */
  ghost predicate Finished(P: Problem, chart: seq<State>, done: seq<seq<seq<int>>>)
    reads chart
  {
    && |done| <= |chart|
    && (forall k :: 0 <= k < |done| ==> chart[k].olds == done[k] && chart[k].first < 0)
  }

  /** What the finished states hold is closed under prediction, scanning and completion. */
  ghost predicate ClosedSoFar(P: Problem, done: seq<seq<seq<int>>>) {
    && |P.T.starters| == P.T.nts && |done| <= |P.toks| + 1
    && (forall j :: 0 <= j < |done| ==> |done[j]| == |P.T.steps|)
    && (forall j :: 0 <= j < |done| ==> Predicted(P.T, done[j], j))
    && (forall j :: 0 <= j < |done| - 1 ==> Scanned(P.T, done, P.toks, j))
    && (forall k, j :: 0 <= k <= j < |done| ==> Completed(P.T, done[k], done[j], k))
  }

  /** With nothing new, what was worked off is closed. */
  lemma NowPredicted(T: Tables, olds: seq<seq<int>>, j: nat)
    requires |olds| == |T.steps| && |T.starters| == T.nts && PredictedOld(T, olds, olds, j)
    ensures Predicted(T, olds, j)
  {
  }

  lemma NowCompleted(T: Tables, prevs: seq<seq<seq<int>>>, olds: seq<seq<int>>, j: nat, k: nat)
    requires |olds| == |T.steps| && |prevs| == j && k <= j
    requires forall m :: 0 <= m < j ==> |prevs[m]| == |olds|
    requires CompletedOld(T, prevs, olds, olds, j)
    ensures Completed(T, if k < j then prevs[k] else olds, olds, k)
  {
    var stk := if k < j then prevs[k] else olds;
    forall e, c | 0 <= e < |T.steps| && 0 <= c && c + 1 < |T.steps| && 0 <= T.steps[c]
      ensures CompletedBy(T, stk, olds, k, e, c)
    {
      assert CompletedPair(T, prevs, olds, olds, j, k, e, c);
    }
  }

  /** One more finished state. */
  lemma OneMore(P: Problem, done: seq<seq<seq<int>>>, olds: seq<seq<int>>)
    requires ClosedSoFar(P, done) && |done| <= |P.toks| && |olds| == |P.T.steps|
    requires PredictedOld(P.T, olds, olds, |done|) && CompletedOld(P.T, done, olds, olds, |done|)
    requires |done| > 0 ==> forall nt :: nt in P.toks[|done| - 1] && nt < |olds| ==> |done| - 1 in olds[nt]
    ensures ClosedSoFar(P, done + [olds])
  {
    hide Predicted, Completed, PredictedOld, CompletedOld;
    NowPredicted(P.T, olds, |done|);
    var all := done + [olds];
    forall j | 0 <= j < |all| - 1 ensures Scanned(P.T, all, P.toks, j) {
      if j < |done| - 1 {
        assert Scanned(P.T, done, P.toks, j) && all[j + 1] == done[j + 1];
      }
    }
    forall k, j | 0 <= k <= j < |all| ensures Completed(P.T, all[k], all[j], k) {
      if j < |done| {
        assert Completed(P.T, done[k], done[j], k);
      } else {
        NowCompleted(P.T, done, olds, |done|, k);
      }
    }
  }

  lemma NothingNew(olds: seq<seq<int>>, news: seq<seq<int>>)
    requires |olds| == |news| && forall c :: 0 <= c < |news| ==> news[c] == []
    ensures Join(olds, news) == olds
  {
    forall c | 0 <= c < |olds| ensures Join(olds, news)[c] == olds[c] {
    }
  }

  lemma BlankIsWorked(P: Problem, chart: seq<State>, j: nat)
    requires j < |chart| && |P.T.starters| == P.T.nts && UpTo(P, chart, j)
    requires forall c :: 0 <= c < |chart[j].olds| ==> chart[j].olds[c] == []
    ensures Worked(P, chart, j)
  {
  }

  /** State j gets the given configurations at origin i and is worked off. */
  method WorkOff(chart: seq<State>, j: nat, l: seq<nat>, i: nat, T: Tables, ghost P: Problem)
    requires j < |chart| && i <= j && Posed(P, T) && UpTo(P, chart, j) && Blank(chart[j])
    requires forall c :: c in l ==> c < |T.steps| && Item(P.G, P.toks, T, P.L, c, i, j)
    modifies chart[j], chart[j].repr
    ensures UpTo(P, chart, j) && fresh(chart[j].repr - old(chart[j].repr)) && chart[j].first < 0
    ensures |chart[j].olds| == |T.steps|
    ensures PredictedOld(T, chart[j].olds, chart[j].olds, j)
    ensures CompletedOld(T, OldsBefore(chart, j), chart[j].olds, chart[j].olds, j)
    ensures forall c :: c in l ==> i in chart[j].olds[c]
  {
    hide Item, Good, Sound, PredictedOld, CompletedOld, Join, Larger, Grown, SymbolOk, ConfOk, RuleOk;
    var st := chart[j];
    AdjoinAll(st, l, i, P);
    ghost var all := Join(st.olds, st.news);
    GrownOlds(old(st.olds), old(st.news), st.olds, st.news);
    BlankIsWorked(P, chart, j);
    Forw(chart, j, T, P);
    st.Idle();
    NothingNew(st.olds, st.news);
    LargerHas(all, st.olds, l, i);
  }

  method FillState(chart: seq<State>, j: nat, l: seq<nat>, i: nat, T: Tables, ghost P: Problem, ghost done: seq<seq<seq<int>>>)
    returns (ghost done': seq<seq<seq<int>>>)
    requires j < |chart| && i <= j && Posed(P, T) && Chart(P, chart) && Blank(chart[j])
    requires Finished(P, chart, done) && |done| == j && ClosedSoFar(P, done)
    requires forall c :: c in l ==> c < |T.steps| && Item(P.G, P.toks, T, P.L, c, i, j)
    requires j > 0 ==> l == P.toks[j - 1] && i == j - 1
    modifies chart[j], chart[j].repr
    ensures Chart(P, chart) && fresh(chart[j].repr - old(chart[j].repr))
    ensures |done'| == j + 1 && done'[..j] == done && Finished(P, chart, done') && ClosedSoFar(P, done')
    ensures forall c :: c in l ==> c < |done'[j]| && i in done'[j][c]
    ensures forall k :: 0 <= k < |chart| && k != j ==> unchanged(chart[k])
  {
    hide Item, Good, Sound, PredictedOld, CompletedOld, Fits, Join, Ready, ClosedSoFar, State.Filled;
    WorkOff(chart, j, l, i, T, P);
    assert Chart(P, chart) && Finished(P, chart, done);
    hide *;
    done' := done + [chart[j].olds];
    OneMoreState(P, chart, done, j);
  }

  lemma OneMoreState(P: Problem, chart: seq<State>, done: seq<seq<seq<int>>>, j: nat)
    requires Chart(P, chart) && Finished(P, chart, done) && |done| == j < |chart| && ClosedSoFar(P, done)
    requires chart[j].first < 0 && |chart[j].olds| == |P.T.steps|
    requires PredictedOld(P.T, chart[j].olds, chart[j].olds, j)
    requires CompletedOld(P.T, OldsBefore(chart, j), chart[j].olds, chart[j].olds, j)
    requires j > 0 ==> forall nt :: nt in P.toks[j - 1] ==> nt < |chart[j].olds| && j - 1 in chart[j].olds[nt]
    ensures Finished(P, chart, done + [chart[j].olds]) && ClosedSoFar(P, done + [chart[j].olds])
  {
    hide Ready, Disjoint, ClosedSoFar, PredictedOld, CompletedOld;
    assert OldsBefore(chart, j) == done;
    OneMore(P, done, chart[j].olds);
  }

  lemma GrownOlds(olds0: seq<seq<int>>, news0: seq<seq<int>>, olds: seq<seq<int>>, news: seq<seq<int>>)
    requires Grown(olds0, news0, olds, news)
    ensures olds == olds0
  {
  }

  lemma LargerHas(all: seq<seq<int>>, all': seq<seq<int>>, l: seq<nat>, i: int)
    requires Larger(all, all') && forall c :: c in l ==> c < |all| && i in all[c]
    ensures |all'| == |all| && forall c :: c in l ==> i in all'[c]
  {
  }

  ghost predicate Tokens(P: Problem) {
    forall i, c :: 0 <= i < |P.toks| && c in P.toks[i] ==> c < P.T.nts
  }

  /** The forward chart: sound, and closed under all that Earley's rules ask for. */
  method ForwardPass(T: Tables, toks: seq<seq<nat>>, ghost P: Problem)
    returns (chart: seq<State>, ghost done: seq<seq<seq<int>>>)
    requires Posed(P, T) && P.toks == toks && Tokens(P) && T.nts > 0
    ensures Chart(P, chart) && Finished(P, chart, done) && ClosedSoFar(P, done) && |done| == |toks| + 1
    ensures forall s :: s in T.starters[0] ==> s < |done[0]| && 0 in done[0][s]
    ensures forall k :: 0 <= k < |chart| ==> fresh(chart[k]) && fresh(chart[k].repr)
  {
    hide Item, Good, Sound, ClosedSoFar, Ready, SymbolOk, ConfOk, RuleOk, AllFilled, State.Filled;
    chart := MakeStates(|toks|, |T.steps|, P);
    GoalItems(P);
    NothingClosed(P);
    done := FillState(chart, 0, T.starters[0], 0, T, P, []);
    for i := 0 to |toks|
      invariant Chart(P, chart) && |done| == i + 1 && Finished(P, chart, done) && ClosedSoFar(P, done)
      invariant forall k :: i < k < |chart| ==> Blank(chart[k])
      invariant forall s :: s in T.starters[0] ==> s < |done[0]| && 0 in done[0][s]
      invariant forall k :: 0 <= k < |chart| ==> fresh(chart[k]) && fresh(chart[k].repr)
    {
      TokenItems(P, i);
      ghost var before := done;
      hide Chart, Finished, Fits, Tokens;
      done := FillState(chart, i + 1, toks[i], i, T, P, done);
      assert done[0] == before[0] by {
        assert done[..i + 1][0] == done[0];
      }
    }
  }

  lemma NothingClosed(P: Problem)
    requires |P.T.starters| == P.T.nts
    ensures ClosedSoFar(P, [])
  {
  }

  lemma GoalItems(P: Problem)
    requires Fits(P.G, P.T, P.L) && P.T.nts > 0
    ensures forall c :: c in P.T.starters[0] ==> c < |P.T.steps| && Item(P.G, P.toks, P.T, P.L, c, 0, 0)
  {
    forall c | c in P.T.starters[0] ensures c < |P.T.steps| && Item(P.G, P.toks, P.T, P.L, c, 0, 0) {
      assert SymbolOk(P.G, P.T, P.L, 0);
      ItemStart(P.G, P.toks, P.T, P.L, 0, c, 0);
    }
  }

  lemma TokenItems(P: Problem, i: nat)
    requires Fits(P.G, P.T, P.L) && Tokens(P) && i < |P.toks|
    ensures forall c :: c in P.toks[i] ==> c < |P.T.steps| && Item(P.G, P.toks, P.T, P.L, c, i, i + 1)
  {
  }
}
