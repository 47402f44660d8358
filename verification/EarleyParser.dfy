/** The Earley parser: both passes, and the question whether a symbol was parsed. */
module EarleyParser {
  import opened Common
  import opened EarleyGrammar
  import opened EarleyState
  import opened EarleyForward
  import opened EarleyChart
  import opened EarleyContext
  import opened EarleyBackward

  // ----- the answers

  /** The number of a symbol, or -1 where the original answers false. */
  method Ind<S(==)>(nt: S, nts: seq<S>) returns (i: int)
    ensures -1 <= i < |nts| && (i >= 0 ==> nts[i] == nt) && (i == -1 ==> nt !in nts)
  {
    i := |nts| - 1;
    while i >= 0
      invariant -1 <= i < |nts| && forall k :: i < k < |nts| ==> nts[k] != nt
    {
      if nts[i] == nt {
        return;
      }
      i := i - 1;
    }
  }

  /** Whether the symbol nt was parsed from i to j.  For i <= j the answer true means that there
      is a derivation.  For i > j the original reads past the end of the vectors, and the answer is
      true exactly if state j has a conf set for a finished nt. */
  method IsParsed<S(==)>(nt: S, i: nat, j: nat, nts: seq<S>, T: Tables, B: seq<State>, ghost P: Problem) returns (b: bool)
    requires Chart(P, B) && Posed(P, T) && T.nts == |nts| && j < |B|
    requires NoDuplicates(nts)
    ensures nt !in nts ==> !b
    ensures forall k :: 0 <= k < |nts| && nts[k] == nt && i <= j ==>
              (b <==> Found(T, B[j], k, i)) && (b ==> Derives(P.G, P.toks, k, i, j))
    ensures forall k :: 0 <= k < |nts| && nts[k] == nt && i > j ==> (b <==> HasSetFor(T, B[j], k))
  {
    var k := Ind(nt, nts);
    if k < 0 {
      return false;
    }
    assert SymbolOk(P.G, T, P.L, k);
    var l := T.enders[k];
    ReadyParts(P, B[j]);
    forall m | 0 <= m < |l| ensures l[m] < |T.steps| && T.steps[l[m]] < 0 {
      assert l[m] in l;
    }
    if Found(T, B[j], k, i) && i <= j {
      FoundDerives(P, B[j], k, i);
    }
    hide Item, Ready, Fits, SymbolOk;
    b := AnyHas(B[j], l, i);
  }

  /** Whether one of the configurations has the origin. */
  method AnyHas(st: State, l: seq<nat>, i: nat) returns (b: bool)
    requires st.Valid() && |st.olds| == |st.news| == st.sets.Length && forall c :: c in l ==> c < st.sets.Length
    ensures i <= st.num ==> (b <==> exists e :: e in l && e < |st.olds| && i in st.All(e))
    ensures i > st.num ==> (b <==> exists e :: e in l && st.sets[e] != null)
  {
    forall q | 0 <= q < |l| ensures l[q] < |st.olds| {
      assert l[q] in l;
    }
    for m := 0 to |l|
      invariant i <= st.num ==> forall q :: 0 <= q < m ==> i !in st.All(l[q])
      invariant i > st.num ==> forall q :: 0 <= q < m ==> st.sets[l[q]] == null
    {
      assert l[m] in l;
      var present := st.Has(l[m], i);
      if present {
        return true;
      }
    }
    return false;
  }

  /** Some finished configuration of symbol k has the origin i. */
  ghost predicate Found(T: Tables, st: State, k: nat, i: int)
    requires k < |T.enders| && |st.olds| == |st.news|
    reads st
  {
    exists e :: e in T.enders[k] && e < |st.olds| && i in st.All(e)
  }

  /** Some finished configuration of symbol k has a conf set. */
  ghost predicate HasSetFor(T: Tables, st: State, k: nat)
    requires k < |T.enders|
    reads st, st.sets
  {
    exists e :: e in T.enders[k] && e < st.sets.Length && st.sets[e] != null
  }

  /** Where no conf set is without an origin, that is so exactly if the symbol is found from somewhere. */
  lemma SetsAreFound(P: Problem, st: State, k: nat)
    requires Ready(P, st) && st.Filled() && k < |P.T.enders|
    ensures |st.olds| == |st.news| && (HasSetFor(P.T, st, k) <==> exists i: nat :: Found(P.T, st, k, i))
  {
    hide Item, Good, Sound;
    if HasSetFor(P.T, st, k) {
      var e :| e in P.T.enders[k] && e < st.sets.Length && st.sets[e] != null;
      st.SetHasOrigin(e);
      st.InBounds(e);
      assert st.All(e)[0] in st.All(e) && Found(P.T, st, k, st.All(e)[0]);
    }
    if i: nat :| Found(P.T, st, k, i) {
      var e :| e in P.T.enders[k] && e < |st.olds| && i in st.All(e);
      st.SetHasOrigin(e);
    }
  }

  lemma FoundDerives(P: Problem, st: State, k: nat, i: nat)
    requires Fits(P.G, P.T, P.L) && Ready(P, st) && k < P.T.nts && Found(P.T, st, k, i)
    ensures Derives(P.G, P.toks, k, i, st.num)
  {
    var e :| e in P.T.enders[k] && e < |st.olds| && i in st.All(e);
    SoundAt(P, st, e, i);
    ItemEnd(P.G, P.toks, P.T, P.L, k, e, i, st.num);
  }

  // ----- the whole parse

  ghost function EntriesOf(all: seq<seq<seq<int>>>): set<Entry> {
    set j, c, i | 0 <= j < |all| && 0 <= c < |all[j]| && i in all[j][c] :: Entry(c, i, j)
  }

  /** The finished forward chart as a set of entries. */
  lemma ForwardEntries(P: Problem, F: seq<State>, done: seq<seq<seq<int>>>)
    requires Chart(P, F) && Finished(P, F, done) && |done| == |F|
    ensures Idle(F) && Lists(Sets(F, |F|), EntriesOf(done)) && Lists(done, EntriesOf(done))
  {
    hide Item, Good;
    forall k | 0 <= k < |F| ensures |F[k].olds| == |F[k].news| && AllOf(F[k]) == done[k] {
      ReadyParts(P, F[k]);
      F[k].Idle();
      NothingNew(F[k].olds, F[k].news);
    }
    forall k, c | 0 <= k < |F| && 0 <= c < |F[k].news| ensures F[k].news[c] == [] {
      F[k].Idle();
    }
    assert Sets(F, |F|) == done;
  }

  /** In the pruned chart a symbol is found exactly where a parse of all tokens has it. */
  lemma FoundExactly(P: Problem, B: seq<State>, done: seq<seq<seq<int>>>, forw: set<Entry>, kept: set<Entry>,
                     k: nat, i: nat, j: nat)
    requires Posed(P, P.T) && 0 < P.T.nts && k < P.T.nts && j < |B|
    requires ClosedSoFar(P, done) && |done| == |P.toks| + 1 && Lists(done, forw)
    requires Started(P.T, done[0], 0, 0)
    requires Chart(P, B) && Lists(Sets(B, |B|), kept) && AllUsed(P, kept) && AllTraced(P.T, forw, kept)
    requires GoalKept(forw, kept, P.T.enders[0], |P.toks|)
    ensures Found(P.T, B[j], k, i) <==> InSomeParse(P.G, P.toks, 0, k, i, j)
  {
    hide Item, Used, Traced, Completed, Predicted, Scanned, InSomeParse, AllTraced, SymbolOk, ConfOk, RuleOk, Good;
    ReadyParts(P, B[j]);
    if Found(P.T, B[j], k, i) {
      var e :| e in P.T.enders[k] && e < |B[j].olds| && i in B[j].All(e);
      SoundAt(P, B[j], e, i);
      JoinAt(B[j].olds, B[j].news, e);
      assert Entry(e, i, j) in kept;
      UsedOccurs(P.G, P.toks, P.T, P.L, k, e, i, j);
    }
    if InSomeParse(P.G, P.toks, 0, k, i, j) {
      KeepsGoal(P.G, P.toks, P.T, P.L, done, forw, kept, k, i, j);
      var e :| e in P.T.enders[k] && Entry(e, i, j) in kept;
      JoinAt(B[j].olds, B[j].news, e);
    }
  }

  /** The whole parse.  In the chart it returns, a symbol is found from i to j exactly if some
      parse of all tokens by the goal, symbol 0, has that symbol span i..j; and it has a conf set for
      the finished symbol in state j exactly if some parse has that symbol end at j. */
  method Parse(T: Tables, toks: seq<seq<nat>>, ghost P: Problem) returns (B: seq<State>)
    requires Posed(P, T) && P.toks == toks && Tokens(P) && T.nts > 0
    ensures Chart(P, B)
    ensures forall k: nat, i: nat, j: nat :: k < T.nts && j <= |toks| ==>
              (Found(T, B[j], k, i) <==> InSomeParse(P.G, toks, 0, k, i, j))
    ensures forall k: nat, j: nat :: k < T.nts && j <= |toks| ==>
              (HasSetFor(T, B[j], k) <==> exists i: nat :: InSomeParse(P.G, toks, 0, k, i, j))
  {
    ghost var done, kept;
    var F;
    F, done := ForwardPass(T, toks, P);
    ForwardEntries(P, F, done);
    ghost var forw := EntriesOf(done);
    hide *;
    B, kept := BackwardPass(F, T, |toks|, P, forw);
    BothExactly(P, B, done, forw, kept);
  }

  lemma BothExactly(P: Problem, B: seq<State>, done: seq<seq<seq<int>>>, forw: set<Entry>, kept: set<Entry>)
    requires Posed(P, P.T) && 0 < P.T.nts && ClosedSoFar(P, done) && |done| == |P.toks| + 1 && Lists(done, forw)
    requires forall s :: s in P.T.starters[0] ==> s < |done[0]| && 0 in done[0][s]
    requires Chart(P, B) && Lists(Sets(B, |B|), kept) && AllUsed(P, kept) && AllTraced(P.T, forw, kept) && AllFilled(B)
    requires GoalKept(forw, kept, P.T.enders[0], |P.toks|)
    ensures |B| == |P.toks| + 1 && |P.T.enders| == P.T.nts
    ensures forall k: nat, i: nat, j: nat :: k < P.T.nts && j <= |P.toks| ==>
              |B[j].olds| == |B[j].news| && (Found(P.T, B[j], k, i) <==> InSomeParse(P.G, P.toks, 0, k, i, j))
    ensures forall k: nat, j: nat :: k < P.T.nts && j <= |P.toks| ==>
              (HasSetFor(P.T, B[j], k) <==> exists i: nat :: InSomeParse(P.G, P.toks, 0, k, i, j))
  {
    assert |P.T.enders| == P.T.nts;
    hide *;
    AllExactly(P, B, done, forw, kept);
    SetsExactly(P, B);
  }

  lemma SetsExactly(P: Problem, B: seq<State>)
    requires Chart(P, B) && AllFilled(B) && |P.T.enders| == P.T.nts
    requires forall k: nat, i: nat, j: nat :: k < P.T.nts && j <= |P.toks| ==>
               |B[j].olds| == |B[j].news| && (Found(P.T, B[j], k, i) <==> InSomeParse(P.G, P.toks, 0, k, i, j))
    ensures forall k: nat, j: nat :: k < P.T.nts && j <= |P.toks| ==>
              (HasSetFor(P.T, B[j], k) <==> exists i: nat :: InSomeParse(P.G, P.toks, 0, k, i, j))
  {
    hide Found, InSomeParse, HasSetFor, Item, State.Filled;
    forall k: nat, j: nat | k < P.T.nts && j <= |P.toks|
      ensures HasSetFor(P.T, B[j], k) <==> exists i: nat :: InSomeParse(P.G, P.toks, 0, k, i, j)
    {
      SetsAreFound(P, B[j], k);
    }
  }

  lemma AllExactly(P: Problem, B: seq<State>, done: seq<seq<seq<int>>>, forw: set<Entry>, kept: set<Entry>)
    requires Posed(P, P.T) && 0 < P.T.nts && ClosedSoFar(P, done) && |done| == |P.toks| + 1 && Lists(done, forw)
    requires forall s :: s in P.T.starters[0] ==> s < |done[0]| && 0 in done[0][s]
    requires Chart(P, B) && Lists(Sets(B, |B|), kept) && AllUsed(P, kept) && AllTraced(P.T, forw, kept)
    requires GoalKept(forw, kept, P.T.enders[0], |P.toks|)
    ensures |B| == |P.toks| + 1
    ensures forall k: nat, i: nat, j: nat :: k < P.T.nts && j <= |P.toks| ==>
              |B[j].olds| == |B[j].news| && (Found(P.T, B[j], k, i) <==> InSomeParse(P.G, P.toks, 0, k, i, j))
  {
    hide Found, InSomeParse, AllTraced, AllUsed, Lists, ClosedSoFar, GoalKept, Item;
    assert Started(P.T, done[0], 0, 0) by {
      LikeDone(P, done);
    }
    forall k: nat, i: nat, j: nat | k < P.T.nts && j <= |P.toks|
      ensures |B[j].olds| == |B[j].news| && (Found(P.T, B[j], k, i) <==> InSomeParse(P.G, P.toks, 0, k, i, j))
    {
      ReadyParts(P, B[j]);
      FoundExactly(P, B, done, forw, kept, k, i, j);
    }
  }

  lemma LikeDone(P: Problem, done: seq<seq<seq<int>>>)
    requires ClosedSoFar(P, done) && |done| > 0
    ensures |done[0]| == |P.T.steps|
  {
  }
}
