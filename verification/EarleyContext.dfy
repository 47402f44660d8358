/** Parses of the whole input and what occurs in them: the meaning of a pruned chart. */
module EarleyContext {
  import opened EarleyGrammar

  // ----- occurrences in a derivation

  /** Symbol nt spans i..j somewhere in the derivation of nt0 from i0 to j0. */
  ghost predicate Occurs<S>(G: seq<Rule<S>>, d: Deriv, nt0: S, i0: nat, j0: nat, nt: S, i: nat, j: nat)
    decreases d
  {
    || (nt == nt0 && i == i0 && j == j0)
    || (d.Expand? && d.rule < |G| && OccursBefore(G, d.dotted, d.rule, |G[d.rule].body|, i0, j0, nt, i, j))
  }

  ghost predicate OccursBefore<S>(G: seq<Rule<S>>, x: Dotted, r: nat, dot: nat, i0: nat, j0: nat, nt: S, i: nat, j: nat)
    decreases x
  {
    && x.Advance? && r < |G| && 0 < dot <= |G[r].body|
    && (OccursBefore(G, x.prev, r, dot - 1, i0, x.mid, nt, i, j)
        || Occurs(G, x.last, G[r].body[dot - 1], x.mid, j0, nt, i, j))
  }

  /** Symbol nt spans i..j in some parse of the goal over all tokens. */
  ghost predicate InSomeParse<S>(G: seq<Rule<S>>, toks: seq<seq<S>>, goal: S, nt: S, i: nat, j: nat) {
    exists d :: ValidDeriv(G, toks, d, goal, 0, |toks|) && Occurs(G, d, goal, 0, |toks|, nt, i, j)
  }

  /** Symbol nt ends at j in some parse of the goal over all tokens. */
  ghost predicate EndsInSomeParse<S>(G: seq<Rule<S>>, toks: seq<seq<S>>, goal: S, nt: S, j: nat) {
    exists i: nat :: InSomeParse(G, toks, goal, nt, i, j)
  }

  /** No symbol spans backward. */
  lemma NothingBackward<S>(G: seq<Rule<S>>, toks: seq<seq<S>>, goal: S, nt: S, i: nat, j: nat)
    ensures InSomeParse(G, toks, goal, nt, i, j) ==> i <= j
  {
    if InSomeParse(G, toks, goal, nt, i, j) {
      var d :| ValidDeriv(G, toks, d, goal, 0, |toks|) && Occurs(G, d, goal, 0, |toks|, nt, i, j);
      OccursForward(G, toks, d, goal, 0, |toks|, nt, i, j);
    }
  }

  lemma {:induction false} OccursForward<S>(G: seq<Rule<S>>, toks: seq<seq<S>>, d: Deriv, nt0: S, i0: nat, j0: nat,
                                            nt: S, i: nat, j: nat)
    requires ValidDeriv(G, toks, d, nt0, i0, j0) && Occurs(G, d, nt0, i0, j0, nt, i, j)
    ensures i <= j
    decreases d
  {
    DerivForward(G, toks, d, nt0, i0, j0);
    if d.Expand? && OccursBefore(G, d.dotted, d.rule, |G[d.rule].body|, i0, j0, nt, i, j) {
      BeforeForward(G, toks, d.dotted, d.rule, |G[d.rule].body|, i0, j0, nt, i, j);
    }
  }

  lemma {:induction false} BeforeForward<S>(G: seq<Rule<S>>, toks: seq<seq<S>>, x: Dotted, r: nat, dot: nat, i0: nat, j0: nat,
                                            nt: S, i: nat, j: nat)
    requires ValidDotted(G, toks, x, r, dot, i0, j0) && OccursBefore(G, x, r, dot, i0, j0, nt, i, j)
    ensures i <= j
    decreases x
  {
    if OccursBefore(G, x.prev, r, dot - 1, i0, x.mid, nt, i, j) {
      BeforeForward(G, toks, x.prev, r, dot - 1, i0, x.mid, nt, i, j);
    } else {
      OccursForward(G, toks, x.last, G[r].body[dot - 1], x.mid, j0, nt, i, j);
    }
  }

  // ----- places in a parse

  /** A parse without the derivation of one symbol: all of it, or the last symbol before a dot. */
  datatype SymbolPlace = Whole | LastOf(around: DotPlace, rule: nat, dot: nat, from: nat, prev: Dotted, mid: nat)

  /** A parse without the symbols before one dot: the rule is finished there, or one more symbol follows. */
  datatype DotPlace = AtEnd(symbol: SymbolPlace) | Before(around: DotPlace, mid: nat, last: Deriv, to: nat)

  ghost predicate ValidSymbolPlace(G: seq<Rule<nat>>, toks: seq<seq<nat>>, p: SymbolPlace, nt: nat, i: nat, j: nat)
    decreases p
  {
    match p
    case Whole => nt == 0 && i == 0 && j == |toks|
    case LastOf(around, r, dot, from, prev, mid) =>
      && r < |G| && dot < |G[r].body| && G[r].body[dot] == nt && mid == i
      && ValidDotted(G, toks, prev, r, dot, from, i) && ValidDotPlace(G, toks, around, r, dot + 1, from, j)
  }

  ghost predicate ValidDotPlace(G: seq<Rule<nat>>, toks: seq<seq<nat>>, p: DotPlace, r: nat, dot: nat, i: nat, j: nat)
    decreases p
  {
    r < |G| &&
    match p
    case AtEnd(symbol) => dot == |G[r].body| && ValidSymbolPlace(G, toks, symbol, G[r].head, i, j)
    case Before(around, mid, last, to) =>
      && dot < |G[r].body| && mid == j && ValidDeriv(G, toks, last, G[r].body[dot], j, to)
      && ValidDotPlace(G, toks, around, r, dot + 1, i, to)
  }

  function PlugSymbol(p: SymbolPlace, d: Deriv): Deriv
    decreases p
  {
    match p
    case Whole => d
    case LastOf(around, r, _, _, prev, mid) => PlugDot(around, r, Advance(prev, mid, d))
  }

  function PlugDot(p: DotPlace, r: nat, x: Dotted): Deriv
    decreases p
  {
    match p
    case AtEnd(symbol) => PlugSymbol(symbol, Expand(r, x))
    case Before(around, mid, last, _) => PlugDot(around, r, Advance(x, mid, last))
  }

  /** Filling the place gives a parse of the whole input in which all that occurred still occurs. */
  lemma {:induction false} Plugged(G: seq<Rule<nat>>, toks: seq<seq<nat>>, p: SymbolPlace, d: Deriv, nt0: nat, i0: nat, j0: nat,
                                   nt: nat, i: nat, j: nat)
    requires ValidSymbolPlace(G, toks, p, nt0, i0, j0) && ValidDeriv(G, toks, d, nt0, i0, j0)
    requires Occurs(G, d, nt0, i0, j0, nt, i, j)
    ensures ValidDeriv(G, toks, PlugSymbol(p, d), 0, 0, |toks|) && Occurs(G, PlugSymbol(p, d), 0, 0, |toks|, nt, i, j)
    decreases p
  {
    if p.LastOf? {
      var x := Advance(p.prev, p.mid, d);
      assert ValidDotted(G, toks, x, p.rule, p.dot + 1, p.from, j0);
      assert OccursBefore(G, x, p.rule, p.dot + 1, p.from, j0, nt, i, j);
      PluggedDot(G, toks, p.around, x, p.rule, p.dot + 1, p.from, j0, nt, i, j);
    }
  }

  lemma {:induction false} PluggedDot(G: seq<Rule<nat>>, toks: seq<seq<nat>>, p: DotPlace, x: Dotted, r: nat, dot: nat,
                                      i0: nat, j0: nat, nt: nat, i: nat, j: nat)
    requires ValidDotPlace(G, toks, p, r, dot, i0, j0) && ValidDotted(G, toks, x, r, dot, i0, j0)
    requires OccursBefore(G, x, r, dot, i0, j0, nt, i, j)
    ensures ValidDeriv(G, toks, PlugDot(p, r, x), 0, 0, |toks|) && Occurs(G, PlugDot(p, r, x), 0, 0, |toks|, nt, i, j)
    decreases p
  {
    if p.AtEnd? {
      var d := Expand(r, x);
      assert ValidDeriv(G, toks, d, G[r].head, i0, j0);
      Plugged(G, toks, p.symbol, d, G[r].head, i0, j0, nt, i, j);
    } else {
      var y := Advance(x, p.mid, p.last);
      assert ValidDotted(G, toks, y, r, dot + 1, i0, p.to);
      assert OccursBefore(G, y, r, dot + 1, i0, p.to, nt, i, j);
      PluggedDot(G, toks, p.around, y, r, dot + 1, i0, p.to, nt, i, j);
    }
  }

  // ----- configurations that are part of a parse

  /** What it means for a configuration with its origin to be kept: a parse has a place for it. */
  ghost predicate Used(G: seq<Rule<nat>>, toks: seq<seq<nat>>, T: Tables, L: Layout, c: int, i: int, j: int) {
    && 0 <= c < |L.rule| == |L.dot| && 0 <= i && 0 <= j
    && if c < T.nts then exists p :: ValidSymbolPlace(G, toks, p, c, i, j)
       else exists p :: ValidDotPlace(G, toks, p, L.rule[c], L.dot[c], i, j)
  }

  /** A finished configuration is used wherever its symbol has a place. */
  lemma UsedEnder(G: seq<Rule<nat>>, toks: seq<seq<nat>>, T: Tables, L: Layout, p: SymbolPlace, nt: nat, e: nat, i: nat, j: nat)
    requires Fits(G, T, L) && nt < T.nts && e in T.enders[nt] && ValidSymbolPlace(G, toks, p, nt, i, j)
    ensures Used(G, toks, T, L, e, i, j)
  {
    assert SymbolOk(G, T, L, nt);
    if e >= T.nts {
      assert ConfOk(G, T, L, e);
      assert ValidDotPlace(G, toks, AtEnd(p), L.rule[e], L.dot[e], i, j);
    }
  }

  lemma UsedGoal(G: seq<Rule<nat>>, toks: seq<seq<nat>>, T: Tables, L: Layout, e: nat)
    requires Fits(G, T, L) && 0 < T.nts && e in T.enders[0]
    ensures Used(G, toks, T, L, e, 0, |toks|)
  {
    UsedEnder(G, toks, T, L, Whole, 0, e, 0, |toks|);
  }

  /** Tracing back: the dot before the last symbol, and what finished that symbol. */
  lemma UsedBack(G: seq<Rule<nat>>, toks: seq<seq<nat>>, T: Tables, L: Layout, c: nat, e: nat, i: nat, k: nat, j: nat)
    requires Fits(G, T, L) && c + 1 < |T.steps| && 0 <= T.steps[c] < T.nts && e in T.enders[T.steps[c]]
    requires Used(G, toks, T, L, c + 1, i, j) && Item(G, toks, T, L, c, i, k) && Item(G, toks, T, L, e, k, j)
    ensures Used(G, toks, T, L, c, i, k) && Used(G, toks, T, L, e, k, j)
  {
    var nt := T.steps[c];
    StepInside(G, T, L, c);
    assert ConfOk(G, T, L, c);
    var r, dot := L.rule[c], L.dot[c];
    assert RuleOk(G, T, L, r);
    ItemEnd(G, toks, T, L, nt, e, k, j);
    var p :| ValidDotPlace(G, toks, p, r, dot + 1, i, j);
    var x :| ValidDotted(G, toks, x, r, dot, i, k);
    var d :| ValidDeriv(G, toks, d, nt, k, j);
    assert ValidDotPlace(G, toks, Before(p, k, d, j), r, dot, i, k);
    assert ValidSymbolPlace(G, toks, LastOf(p, r, dot, i, x, k), nt, k, j);
    UsedEnder(G, toks, T, L, LastOf(p, r, dot, i, x, k), nt, e, k, j);
  }

  /** What is used and derived occurs in a parse. */
  lemma UsedOccurs(G: seq<Rule<nat>>, toks: seq<seq<nat>>, T: Tables, L: Layout, nt: nat, e: nat, i: nat, j: nat)
    requires Fits(G, T, L) && nt < T.nts && e in T.enders[nt]
    requires Used(G, toks, T, L, e, i, j) && Item(G, toks, T, L, e, i, j)
    ensures InSomeParse(G, toks, 0, nt, i, j)
  {
    assert SymbolOk(G, T, L, nt);
    if e < T.nts {
      var p :| ValidSymbolPlace(G, toks, p, nt, i, j);
      assert ValidDeriv(G, toks, Token, nt, i, j);
      Plugged(G, toks, p, Token, nt, i, j, nt, i, j);
    } else {
      assert ConfOk(G, T, L, e);
      var r := L.rule[e];
      var p :| ValidDotPlace(G, toks, p, r, L.dot[e], i, j);
      var x :| ValidDotted(G, toks, x, r, L.dot[e], i, j);
      assert ValidDeriv(G, toks, Expand(r, x), nt, i, j);
      Plugged(G, toks, p.symbol, Expand(r, x), nt, i, j, nt, i, j);
    }
  }

  // ----- sets of entries that are closed under tracing back

  /** An origin of a configuration in a state. */
  datatype Entry = Entry(conf: int, origin: int, state: int)

  ghost predicate TracedEnder(forw: set<Entry>, kept: set<Entry>, prev: int, e: int, i: int, j: int) {
    forall k :: i <= k && Entry(e, k, j) in forw && Entry(prev, i, k) in forw ==>
      Entry(prev, i, k) in kept && Entry(e, k, j) in kept
  }

  ghost predicate EndersTraced(forw: set<Entry>, kept: set<Entry>, enders: seq<nat>, prev: int, i: int, j: int) {
    forall e :: e in enders ==> TracedEnder(forw, kept, prev, e, i, j)
  }

  /** All ways to derive the last symbol before the dot are kept. */
  ghost predicate Traced(T: Tables, forw: set<Entry>, kept: set<Entry>, c: int, i: int, j: int) {
    T.nts < c < |T.steps| && 0 <= T.steps[c - 1] < |T.enders| ==>
      EndersTraced(forw, kept, T.enders[T.steps[c - 1]], c - 1, i, j)
  }

  ghost predicate AllTraced(T: Tables, forw: set<Entry>, kept: set<Entry>) {
    forall c, i, j :: Entry(c, i, j) in kept ==> Traced(T, forw, kept, c, i, j)
  }

  lemma TracedMore(T: Tables, forw: set<Entry>, kept: set<Entry>, kept': set<Entry>, c: int, i: int, j: int)
    requires Traced(T, forw, kept, c, i, j) && kept <= kept'
    ensures Traced(T, forw, kept', c, i, j)
  {
    if T.nts < c < |T.steps| && 0 <= T.steps[c - 1] < |T.enders| {
      MoreEnders(forw, kept, kept', T.enders[T.steps[c - 1]], c - 1, i, j);
    }
  }

  lemma MoreEnders(forw: set<Entry>, kept: set<Entry>, kept': set<Entry>, enders: seq<nat>, prev: int, i: int, j: int)
    requires EndersTraced(forw, kept, enders, prev, i, j) && kept <= kept'
    ensures EndersTraced(forw, kept', enders, prev, i, j)
  {
    forall e | e in enders ensures TracedEnder(forw, kept', prev, e, i, j) {
      assert TracedEnder(forw, kept, prev, e, i, j);
    }
  }

  /** forw holds exactly what the finished states of the forward pass hold. */
  ghost predicate Lists(all: seq<seq<seq<int>>>, forw: set<Entry>) {
    forall c, i, j :: Entry(c, i, j) in forw <==> 0 <= j < |all| && 0 <= c < |all[j]| && i in all[j][c]
  }

  /** If what stands before the dot is kept, so is all that occurs in it. */
  lemma {:induction false} KeepsBefore(G: seq<Rule<nat>>, toks: seq<seq<nat>>, T: Tables, L: Layout, all: seq<seq<seq<int>>>,
                                       forw: set<Entry>, kept: set<Entry>, x: Dotted, r: nat, dot: nat, i0: nat, j0: nat,
                                       nt: nat, i: nat, j: nat)
    requires Fits(G, T, L) && Closed(T, all, toks) && Lists(all, forw) && AllTraced(T, forw, kept) && nt < T.nts
    requires ValidDotted(G, toks, x, r, dot, i0, j0) && i0 <= j0 <= |toks| && RuleOk(G, T, L, r)
    requires i0 in all[i0][L.start[r]] && Entry(L.start[r] + dot, i0, j0) in kept
    requires OccursBefore(G, x, r, dot, i0, j0, nt, i, j)
    ensures exists e :: e in T.enders[nt] && Entry(e, i, j) in kept
    decreases x
  {
    hide Completed, Predicted, Scanned;
    var c, k, sym := L.start[r] + (dot - 1), x.mid, G[r].body[dot - 1];
    DottedForward(G, toks, x.prev, r, dot - 1, i0, k);
    DerivForward(G, toks, x.last, sym, k, j0);
    HasPrefixes(G, toks, T, L, all, x.prev, r, dot - 1, i0, k);
    assert ConfOk(G, T, L, c);
    HasDerivations(G, toks, T, L, all, x.last, sym, k, j0, c);
    var e := Ender(G, L, x.last, sym);
    assert Traced(T, forw, kept, c + 1, i0, j0);
    assert TracedEnder(forw, kept, c, e, i0, j0);
    if OccursBefore(G, x.prev, r, dot - 1, i0, k, nt, i, j) {
      KeepsBefore(G, toks, T, L, all, forw, kept, x.prev, r, dot - 1, i0, k, nt, i, j);
    } else {
      KeepsSymbol(G, toks, T, L, all, forw, kept, x.last, sym, k, j0, c, nt, i, j);
    }
  }

  lemma {:induction false} KeepsSymbol(G: seq<Rule<nat>>, toks: seq<seq<nat>>, T: Tables, L: Layout, all: seq<seq<seq<int>>>,
                                       forw: set<Entry>, kept: set<Entry>, d: Deriv, nt0: nat, i0: nat, j0: nat, c: nat,
                                       nt: nat, i: nat, j: nat)
    requires Fits(G, T, L) && Closed(T, all, toks) && Lists(all, forw) && AllTraced(T, forw, kept) && nt < T.nts
    requires ValidDeriv(G, toks, d, nt0, i0, j0) && i0 <= j0 <= |toks| && nt0 < T.nts
    requires c < |T.steps| && T.steps[c] == nt0 && all[i0][c] != []
    requires Entry(Ender(G, L, d, nt0), i0, j0) in kept && Occurs(G, d, nt0, i0, j0, nt, i, j)
    ensures exists e :: e in T.enders[nt] && Entry(e, i, j) in kept
    decreases d
  {
    hide Completed, Scanned;
    HasDerivations(G, toks, T, L, all, d, nt0, i0, j0, c);
    if d.Expand? && OccursBefore(G, d.dotted, d.rule, |G[d.rule].body|, i0, j0, nt, i, j) {
      assert RuleOk(G, T, L, d.rule);
      assert Predicted(T, all[i0], i0);
      assert Started(T, all[i0], i0, nt0);
      KeepsBefore(G, toks, T, L, all, forw, kept, d.dotted, d.rule, |G[d.rule].body|, i0, j0, nt, i, j);
    }
  }

  /** The goal, which no rule has to predict. */
  lemma KeepsGoal(G: seq<Rule<nat>>, toks: seq<seq<nat>>, T: Tables, L: Layout, all: seq<seq<seq<int>>>,
                  forw: set<Entry>, kept: set<Entry>, nt: nat, i: nat, j: nat)
    requires Fits(G, T, L) && Closed(T, all, toks) && Lists(all, forw) && AllTraced(T, forw, kept) && nt < T.nts
    requires Started(T, all[0], 0, 0)
    requires forall e :: e in T.enders[0] && Entry(e, 0, |toks|) in forw ==> Entry(e, 0, |toks|) in kept
    requires InSomeParse(G, toks, 0, nt, i, j)
    ensures exists e :: e in T.enders[nt] && Entry(e, i, j) in kept
  {
    var n := |toks|;
    var d :| ValidDeriv(G, toks, d, 0, 0, n) && Occurs(G, d, 0, 0, n, nt, i, j);
    var e := Ender(G, L, d, 0);
    assert SymbolOk(G, T, L, 0);
    if d.Token? {
      assert Scanned(T, all, toks, 0);
      assert e in T.enders[0];
    } else {
      assert RuleOk(G, T, L, d.rule);
      HasPrefixes(G, toks, T, L, all, d.dotted, d.rule, |G[d.rule].body|, 0, n);
      assert ConfOk(G, T, L, e);
      assert e in T.enders[0];
      if OccursBefore(G, d.dotted, d.rule, |G[d.rule].body|, 0, n, nt, i, j) {
        KeepsBefore(G, toks, T, L, all, forw, kept, d.dotted, d.rule, |G[d.rule].body|, 0, n, nt, i, j);
      }
    }
  }
}
