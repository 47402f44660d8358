/** Context-free grammars, derivations of token ranges, and the tables the Earley parser works
    with.  Symbols are numbered; a token has a set of symbols, its categories. */
module EarleyGrammar {

  datatype Rule<S> = Rule(head: S, body: seq<S>)

  /** A derivation of a symbol: it is the category of one token, or a rule expands it. */
  datatype Deriv = Token | Expand(rule: nat, dotted: Dotted)

  /** A derivation of the symbols before the dot; mid is where the last one begins. */
  datatype Dotted = Start | Advance(prev: Dotted, mid: nat, last: Deriv)

  ghost predicate ValidDeriv<S>(G: seq<Rule<S>>, toks: seq<seq<S>>, d: Deriv, nt: S, i: nat, j: nat) {
    match d
    case Token => i < |toks| && nt in toks[i] && j == i + 1
    case Expand(r, x) => r < |G| && G[r].head == nt && ValidDotted(G, toks, x, r, |G[r].body|, i, j)
  }

  ghost predicate ValidDotted<S>(G: seq<Rule<S>>, toks: seq<seq<S>>, x: Dotted, r: nat, dot: nat, i: nat, j: nat) {
    r < |G| && dot <= |G[r].body| &&
    match x
    case Start => dot == 0 && i == j
    case Advance(prev, mid, last) =>
      dot > 0 && ValidDotted(G, toks, prev, r, dot - 1, i, mid) && ValidDeriv(G, toks, last, G[r].body[dot - 1], mid, j)
  }

  /** The symbol derives the tokens i..j. */
  ghost predicate Derives<S>(G: seq<Rule<S>>, toks: seq<seq<S>>, nt: S, i: nat, j: nat) {
    exists d :: ValidDeriv(G, toks, d, nt, i, j)
  }

  ghost predicate Prefix<S>(G: seq<Rule<S>>, toks: seq<seq<S>>, r: nat, dot: nat, i: nat, j: nat) {
    exists x :: ValidDotted(G, toks, x, r, dot, i, j)
  }

  /** Derivations go forward. */
  lemma {:induction false} DottedForward<S>(G: seq<Rule<S>>, toks: seq<seq<S>>, x: Dotted, r: nat, dot: nat, i: nat, j: nat)
    requires ValidDotted(G, toks, x, r, dot, i, j)
    ensures i <= j
    decreases x
  {
    if x.Start? {
    } else {
      DottedForward(G, toks, x.prev, r, dot - 1, i, x.mid);
      DerivForward(G, toks, x.last, G[r].body[dot - 1], x.mid, j);
    }
  }

  lemma {:induction false} DerivForward<S>(G: seq<Rule<S>>, toks: seq<seq<S>>, d: Deriv, nt: S, i: nat, j: nat)
    requires ValidDeriv(G, toks, d, nt, i, j)
    ensures i <= j
    decreases d
  {
    if d.Expand? {
      DottedForward(G, toks, d.dotted, d.rule, |G[d.rule].body|, i, j);
    }
  }

  // ----- the tables

  /** Configurations below nts stand for tokens; each rule has one for every place of its dot.
      A step is the symbol after the dot or, below zero, the head of the finished rule. */
  datatype Tables = Tables(nts: nat, starters: seq<seq<nat>>, enders: seq<seq<nat>>, predictors: seq<seq<nat>>,
                           steps: seq<int>)

  /** Which rule and which place of the dot a configuration stands for, and where a rule starts. */
  datatype Layout = Layout(rule: seq<nat>, dot: seq<nat>, start: seq<nat>)

  ghost predicate ConfOk(G: seq<Rule<nat>>, T: Tables, L: Layout, c: nat)
    requires T.nts <= c < |T.steps| == |L.rule| == |L.dot|
  {
    && L.rule[c] < |G| && L.dot[c] <= |G[L.rule[c]].body|
    && if L.dot[c] < |G[L.rule[c]].body| then
         T.steps[c] == G[L.rule[c]].body[L.dot[c]] && c + 1 < |T.steps| &&
         L.rule[c + 1] == L.rule[c] && L.dot[c + 1] == L.dot[c] + 1
       else T.steps[c] == G[L.rule[c]].head - T.nts
  }

  ghost predicate SymbolOk(G: seq<Rule<nat>>, T: Tables, L: Layout, nt: nat)
    requires nt < |T.starters| == |T.enders| == |T.predictors| && |T.steps| == |L.rule| == |L.dot|
  {
    && (forall c :: c in T.starters[nt] ==>
          T.nts <= c < |T.steps| && L.rule[c] < |G| && G[L.rule[c]].head == nt && L.dot[c] == 0)
    && (forall c :: c in T.enders[nt] <==> 0 <= c < |T.steps| && T.steps[c] == nt - T.nts)
    && (forall c :: c in T.predictors[nt] <==> 0 <= c < |T.steps| && T.steps[c] == nt)
  }

  ghost predicate RuleOk(G: seq<Rule<nat>>, T: Tables, L: Layout, r: nat)
    requires r < |G| == |L.start| && |T.starters| == T.nts && |T.steps| == |L.rule| == |L.dot|
  {
    && G[r].head < T.nts && (forall k :: 0 <= k < |G[r].body| ==> G[r].body[k] < T.nts)
    && L.start[r] in T.starters[G[r].head] && T.nts <= L.start[r] < |T.steps|
    && L.rule[L.start[r]] == r && L.dot[L.start[r]] == 0
  }

  /** The tables are those of the grammar. */
  ghost predicate Fits(G: seq<Rule<nat>>, T: Tables, L: Layout) {
    && |T.starters| == |T.enders| == |T.predictors| == T.nts <= |T.steps| == |L.rule| == |L.dot| && |L.start| == |G|
    && (forall c :: 0 <= c < T.nts ==> T.steps[c] == c - T.nts)
    && (forall c :: T.nts <= c < |T.steps| ==> ConfOk(G, T, L, c))
    && (forall nt :: 0 <= nt < T.nts ==> SymbolOk(G, T, L, nt))
    && (forall r :: 0 <= r < |G| ==> RuleOk(G, T, L, r))
  }

  /** What it means for i to be an origin of configuration c in state j. */
  ghost predicate Item(G: seq<Rule<nat>>, toks: seq<seq<nat>>, T: Tables, L: Layout, c: int, i: int, j: int) {
    && 0 <= c < |L.rule| == |L.dot| && 0 <= i && 0 <= j
    && if c < T.nts then i < |toks| && c in toks[i] && j == i + 1
       else Prefix(G, toks, L.rule[c], L.dot[c], i, j)
  }

  /** Prediction. */
  lemma ItemStart(G: seq<Rule<nat>>, toks: seq<seq<nat>>, T: Tables, L: Layout, nt: nat, c: nat, j: nat)
    requires Fits(G, T, L) && nt < T.nts && c in T.starters[nt]
    ensures Item(G, toks, T, L, c, j, j)
  {
    assert SymbolOk(G, T, L, nt);
    assert ValidDotted(G, toks, Start, L.rule[c], 0, j, j);
  }

  /** A finished configuration is a derivation of its head. */
  lemma ItemEnd(G: seq<Rule<nat>>, toks: seq<seq<nat>>, T: Tables, L: Layout, nt: nat, c: nat, i: nat, j: nat)
    requires Fits(G, T, L) && nt < T.nts && c in T.enders[nt] && Item(G, toks, T, L, c, i, j)
    ensures Derives(G, toks, nt, i, j)
  {
    assert SymbolOk(G, T, L, nt);
    if c < T.nts {
      assert ValidDeriv(G, toks, Token, nt, i, j);
    } else {
      assert ConfOk(G, T, L, c);
      assert RuleOk(G, T, L, L.rule[c]);
      var x :| ValidDotted(G, toks, x, L.rule[c], L.dot[c], i, j);
      assert ValidDeriv(G, toks, Expand(L.rule[c], x), nt, i, j);
    }
  }

  /** Completion: the dot moves over a symbol that is derived. */
  lemma ItemAdvance(G: seq<Rule<nat>>, toks: seq<seq<nat>>, T: Tables, L: Layout, nt: nat, c: nat, i: nat, k: nat, j: nat)
    requires Fits(G, T, L) && nt < T.nts && c < |T.steps| && T.steps[c] == nt
    requires Item(G, toks, T, L, c, i, k) && Derives(G, toks, nt, k, j)
    ensures Item(G, toks, T, L, c + 1, i, j)
  {
    assert ConfOk(G, T, L, c);
    assert RuleOk(G, T, L, L.rule[c]);
    var x :| ValidDotted(G, toks, x, L.rule[c], L.dot[c], i, k);
    var d :| ValidDeriv(G, toks, d, nt, k, j);
    assert ValidDotted(G, toks, Advance(x, k, d), L.rule[c + 1], L.dot[c + 1], i, j);
  }

  /** A step over a symbol leads to the next configuration of the rule, which is no token. */
  lemma StepInside(G: seq<Rule<nat>>, T: Tables, L: Layout, c: nat)
    requires Fits(G, T, L) && c < |T.steps| && T.steps[c] >= 0
    ensures T.nts <= c && c + 1 < |T.steps| && T.steps[c] < T.nts
  {
    if c >= T.nts {
      assert ConfOk(G, T, L, c) && RuleOk(G, T, L, L.rule[c]);
    }
  }

  lemma StepOutside(G: seq<Rule<nat>>, T: Tables, L: Layout, c: nat)
    requires Fits(G, T, L) && c < |T.steps| && T.steps[c] < 0
    ensures 0 <= T.steps[c] + T.nts < T.nts && c in T.enders[T.steps[c] + T.nts]
  {
    if c >= T.nts {
      assert ConfOk(G, T, L, c) && RuleOk(G, T, L, L.rule[c]);
    }
    assert SymbolOk(G, T, L, T.steps[c] + T.nts);
  }

  // ----- completeness

  /** all[j][c] are the origins of configuration c in state j.  The chart is closed: what can be
      predicted is there, the tokens are there, and so is what completion asks for. */
  ghost predicate Shaped(T: Tables, all: seq<seq<seq<int>>>, n: nat) {
    |all| == n + 1 && forall j :: 0 <= j <= n ==> |all[j]| == |T.steps|
  }

  ghost predicate Started(T: Tables, st: seq<seq<int>>, j: int, nt: nat)
    requires |st| == |T.steps| && nt < |T.starters|
  {
    forall s :: s in T.starters[nt] && s < |st| ==> j in st[s]
  }

  ghost predicate Predicted(T: Tables, st: seq<seq<int>>, j: int)
    requires |st| == |T.steps| && |T.starters| == T.nts
  {
    forall c :: 0 <= c < |st| && st[c] != [] && 0 <= T.steps[c] < T.nts ==> Started(T, st, j, T.steps[c])
  }

  ghost predicate Scanned(T: Tables, all: seq<seq<seq<int>>>, toks: seq<seq<nat>>, j: nat)
    requires j < |toks| && j + 1 < |all|
  {
    forall nt :: nt in toks[j] && nt < |all[j + 1]| ==> j in all[j + 1][nt]
  }

  /** The dot of c in state k moves over the symbol that e in state j has finished. */
  ghost predicate CompletedBy(T: Tables, stk: seq<seq<int>>, stj: seq<seq<int>>, k: int, e: nat, c: nat)
    requires |stk| == |stj| == |T.steps| && e < |T.steps| && c + 1 < |T.steps|
  {
    k in stj[e] && T.steps[e] == T.steps[c] - T.nts ==> forall i :: i in stk[c] ==> i in stj[c + 1]
  }

  ghost predicate Completed(T: Tables, stk: seq<seq<int>>, stj: seq<seq<int>>, k: int)
    requires |stk| == |stj| == |T.steps|
  {
    forall e, c :: 0 <= e < |T.steps| && 0 <= c && c + 1 < |T.steps| && 0 <= T.steps[c] ==> CompletedBy(T, stk, stj, k, e, c)
  }

  ghost predicate Closed(T: Tables, all: seq<seq<seq<int>>>, toks: seq<seq<nat>>) {
    && |T.starters| == T.nts && Shaped(T, all, |toks|)
    && (forall j :: 0 <= j <= |toks| ==> Predicted(T, all[j], j))
    && (forall j :: 0 <= j < |toks| ==> Scanned(T, all, toks, j))
    && (forall k, j :: 0 <= k <= j <= |toks| ==> Completed(T, all[k], all[j], k))
  }

  /** The configuration that finishes a derivation. */
  ghost function Ender(G: seq<Rule<nat>>, L: Layout, d: Deriv, nt: nat): int {
    if d.Expand? && d.rule < |G| == |L.start| then L.start[d.rule] + |G[d.rule].body| else nt
  }

  /** A closed chart has every derivation that starts where it was predicted. */
  lemma {:induction false} HasPrefixes(G: seq<Rule<nat>>, toks: seq<seq<nat>>, T: Tables, L: Layout, all: seq<seq<seq<int>>>,
                                       x: Dotted, r: nat, dot: nat, i: nat, j: nat)
    requires Fits(G, T, L) && Closed(T, all, toks) && ValidDotted(G, toks, x, r, dot, i, j) && j <= |toks|
    requires r < |G| && RuleOk(G, T, L, r) && i <= j && i in all[i][L.start[r]]
    ensures L.start[r] + dot < |T.steps| && L.rule[L.start[r] + dot] == r && L.dot[L.start[r] + dot] == dot
    ensures i in all[j][L.start[r] + dot]
    decreases x
  {
    assert RuleOk(G, T, L, r);
    if x.Start? {
    } else {
      DottedForward(G, toks, x.prev, r, dot - 1, i, x.mid);
      var nt := G[r].body[dot - 1];
      DerivForward(G, toks, x.last, nt, x.mid, j);
      HasPrefixes(G, toks, T, L, all, x.prev, r, dot - 1, i, x.mid);
      var c := L.start[r] + (dot - 1);
      assert ConfOk(G, T, L, c);
      HasDerivations(G, toks, T, L, all, x.last, nt, x.mid, j, c);
      var e := Ender(G, L, x.last, nt);
      assert SymbolOk(G, T, L, nt);
      assert Completed(T, all[x.mid], all[j], x.mid);
      assert CompletedBy(T, all[x.mid], all[j], x.mid, e, c);
    }
  }

  lemma {:induction false} HasDerivations(G: seq<Rule<nat>>, toks: seq<seq<nat>>, T: Tables, L: Layout, all: seq<seq<seq<int>>>,
                                          d: Deriv, nt: nat, k: nat, j: nat, c: nat)
    requires Fits(G, T, L) && Closed(T, all, toks) && ValidDeriv(G, toks, d, nt, k, j) && k <= j <= |toks| && nt < T.nts
    requires c < |T.steps| && T.steps[c] == nt && all[k][c] != []
    ensures var e := Ender(G, L, d, nt); e in T.enders[nt] && 0 <= e < |T.steps| && k in all[j][e]
    decreases d
  {
    assert SymbolOk(G, T, L, nt);
    if d.Token? {
      assert Scanned(T, all, toks, k);
      assert nt in T.enders[nt];
    } else {
      var r := d.rule;
      assert RuleOk(G, T, L, r);
      assert Predicted(T, all[k], k);
      assert Started(T, all[k], k, nt);
      HasPrefixes(G, toks, T, L, all, d.dotted, r, |G[r].body|, k, j);
      var e := L.start[r] + |G[r].body|;
      assert ConfOk(G, T, L, e);
      assert e in T.enders[nt];
    }
  }
}
