/** How make-parser turns a grammar into the tables of the parser. */
module EarleyTables {
  import opened Common
  import opened EarleyGrammar
  import EarleyParser

  /** A definition: a head with its alternatives. */
  datatype Def<S> = Def(head: S, rules: seq<seq<S>>)

  ghost predicate Covers<S>(nts: seq<S>, body: seq<S>) {
    forall k :: 0 <= k < |body| ==> body[k] in nts
  }

  ghost predicate CoversDef<S>(nts: seq<S>, d: Def<S>) {
    d.head in nts && forall k :: 0 <= k < |d.rules| ==> Covers(nts, d.rules[k])
  }

  /** The number of a symbol. */
  function Index<S(==)>(s: S, nts: seq<S>): (i: nat)
    requires s in nts
    ensures i < |nts| && nts[i] == s
  {
    var n := |nts| - 1;
    if nts[n] == s then n else Index(s, nts[..n])
  }

  ghost function Body<S>(body: seq<S>, nts: seq<S>): (r: seq<nat>)
    requires Covers(nts, body)
    ensures |r| == |body| && forall k :: 0 <= k < |r| ==> r[k] < |nts|
  {
    seq(|body|, k requires 0 <= k < |body| => Index(body[k], nts))
  }

  /** The rules of the grammar, in order, over symbol numbers. */
  ghost function DefRules<S>(d: Def<S>, nts: seq<S>, n: nat): seq<Rule<nat>>
    requires CoversDef(nts, d) && n <= |d.rules|
  {
    if n == 0 then [] else DefRules(d, nts, n - 1) + [Rule(Index(d.head, nts), Body(d.rules[n - 1], nts))]
  }

  ghost function Rules<S>(grammar: seq<Def<S>>, nts: seq<S>): seq<Rule<nat>>
    requires forall k :: 0 <= k < |grammar| ==> CoversDef(nts, grammar[k])
  {
    if grammar == [] then []
    else
      var n := |grammar| - 1;
      Rules(grammar[..n], nts) + DefRules(grammar[n], nts, |grammar[n].rules|)
  }

  // ----- the symbols

  ghost function Flat<S>(bodies: seq<seq<S>>): seq<S> {
    if bodies == [] then [] else Flat(bodies[..|bodies| - 1]) + bodies[|bodies| - 1]
  }

  /** The symbols as the grammar lists them, repeats included. */
  ghost function Mentioned<S>(grammar: seq<Def<S>>): seq<S> {
    if grammar == [] then []
    else
      var d := grammar[|grammar| - 1];
      Mentioned(grammar[..|grammar| - 1]) + [d.head] + Flat(d.rules)
  }

  /** A list without the elements that occurred before. */
  ghost function FirstOccurrences<S>(s: seq<S>): seq<S> {
    if s == [] then []
    else
      var r, x := FirstOccurrences(s[..|s| - 1]), s[|s| - 1];
      if x in r then r else r + [x]
  }

  /** r has the elements of s, each once, in the order in which they occur first. */
  ghost predicate InOrder<S>(r: seq<S>, s: seq<S>) {
    && NoDuplicates(r)
    && (forall x :: x in r ==> x in s) && (forall x :: x in s ==> x in r)
    && (forall i, j :: 0 <= i < j < |r| ==> Before(s, r[i], r[j]))
  }

  ghost predicate Before<S>(s: seq<S>, x: S, y: S) {
    exists p :: 0 <= p < |s| && s[p] == x && y !in s[..p + 1]
  }

  lemma {:induction false} OccurrencesInOrder<S>(s: seq<S>)
    ensures InOrder(FirstOccurrences(s), s)
  {
    if s == [] {
    } else {
      OccurrencesInOrder(s[..|s| - 1]);
      assert s == s[..|s| - 1] + [s[|s| - 1]];
      InOrderMore(FirstOccurrences(s[..|s| - 1]), s[..|s| - 1], s[|s| - 1]);
    }
  }

  lemma InOrderMore<S>(r: seq<S>, s: seq<S>, x: S)
    requires InOrder(r, s)
    ensures InOrder(if x in r then r else r + [x], s + [x])
  {
    var r', s' := if x in r then r else r + [x], s + [x];
    forall i, j | 0 <= i < j < |r'| ensures Before(s', r'[i], r'[j]) {
      assert r[i] in r;
      if j < |r| {
        assert Before(s, r[i], r[j]);
      }
      var p :| 0 <= p < |s| && s[p] == r[i] && r'[j] !in s[..p + 1];
      assert s'[..p + 1] == s[..p + 1] && s'[p] == s[p];
    }
  }

  lemma OneMoreOccurrence<S>(s: seq<S>, x: S)
    ensures var r := FirstOccurrences(s); FirstOccurrences(s + [x]) == if x in r then r else r + [x]
  {
    assert (s + [x])[..|s|] == s;
  }

  method AddSymbol<S(==)>(s: S, nts0: seq<S>, ghost seen: seq<S>) returns (nts: seq<S>)
    requires nts0 == FirstOccurrences(seen)
    ensures nts == FirstOccurrences(seen + [s]) && nts0 <= nts && s in nts
    ensures nts0 == [] ==> nts == [s]
  {
    OneMoreOccurrence(seen, s);
    nts := if s in nts0 then nts0 else nts0 + [s];
  }

  lemma StillCovered<S>(nts: seq<S>, nts': seq<S>)
    requires nts <= nts'
    ensures forall body: seq<S> :: Covers(nts, body) ==> Covers(nts', body)
    ensures forall d: Def<S> :: CoversDef(nts, d) ==> CoversDef(nts', d)
  {
    assert forall s :: s in nts ==> s in nts';
  }

  /** Every symbol once, in the order of its first occurrence; the goal comes first. */
  method Symbols<S(==)>(grammar: seq<Def<S>>) returns (nts: seq<S>)
    ensures nts == FirstOccurrences(Mentioned(grammar)) && NoDuplicates(nts)
    ensures forall k :: 0 <= k < |grammar| ==> CoversDef(nts, grammar[k])
    ensures grammar != [] ==> nts != [] && nts[0] == grammar[0].head
  {
    hide FirstOccurrences, Flat, CoversDef, Mentioned;
    nts := [];
    NothingMentioned(grammar);
    for k := 0 to |grammar|
      invariant nts == FirstOccurrences(Mentioned(grammar[..k]))
      invariant forall m :: 0 <= m < k ==> CoversDef(nts, grammar[m])
      invariant if k == 0 then nts == [] else nts != [] && nts[0] == grammar[0].head
    {
      var before := nts;
      ghost var seen := Mentioned(grammar[..k]);
      nts := DefSymbols(grammar[k], nts, seen);
      StillCovered(before, nts);
      MentionedMore(grammar, k);
    }
    assert grammar[..|grammar|] == grammar;
    OccurrencesInOrder(Mentioned(grammar));
  }

  lemma NothingMentioned<S>(grammar: seq<Def<S>>)
    ensures FirstOccurrences(Mentioned(grammar[..0])) == [] && Flat<S>([]) == []
  {
  }

  lemma MentionedMore<S>(grammar: seq<Def<S>>, k: nat)
    requires k < |grammar|
    ensures Mentioned(grammar[..k + 1]) == Mentioned(grammar[..k]) + [grammar[k].head] + Flat(grammar[k].rules)
  {
    assert grammar[..k + 1][..k] == grammar[..k];
  }

  method DefSymbols<S(==)>(d: Def<S>, nts0: seq<S>, ghost seen: seq<S>) returns (nts: seq<S>)
    requires nts0 == FirstOccurrences(seen)
    ensures nts == FirstOccurrences(seen + [d.head] + Flat(d.rules))
    ensures nts0 <= nts && CoversDef(nts, d) && (nts0 == [] ==> nts != [] && nts[0] == d.head)
  {
    hide FirstOccurrences, Flat;
    nts := AddSymbol(d.head, nts0, seen);
    ghost var start := seen + [d.head];
    FlatStarts(start, d.rules);
    for r := 0 to |d.rules|
      invariant nts == FirstOccurrences(start + Flat(d.rules[..r]))
      invariant nts0 <= nts && d.head in nts && (nts0 == [] ==> nts != [] && nts[0] == d.head)
      invariant forall m :: 0 <= m < r ==> Covers(nts, d.rules[m])
    {
      var before := nts;
      nts := BodySymbols(d.rules[r], nts, start + Flat(d.rules[..r]));
      StillCovered(before, nts);
      FlatMore(start, d.rules, r);
    }
    assert d.rules[..|d.rules|] == d.rules;
  }

  lemma FlatStarts<S>(start: seq<S>, bodies: seq<seq<S>>)
    ensures start + Flat(bodies[..0]) == start
  {
  }

  lemma FlatMore<S>(start: seq<S>, bodies: seq<seq<S>>, r: nat)
    requires r < |bodies|
    ensures start + Flat(bodies[..r]) + bodies[r] == start + Flat(bodies[..r + 1])
  {
    assert bodies[..r + 1][..r] == bodies[..r];
  }

  method BodySymbols<S(==)>(body: seq<S>, nts0: seq<S>, ghost seen: seq<S>) returns (nts: seq<S>)
    requires nts0 == FirstOccurrences(seen)
    ensures nts == FirstOccurrences(seen + body) && nts0 <= nts && Covers(nts, body)
  {
    hide FirstOccurrences;
    nts := nts0;
    assert seen + body[..0] == seen;
    for i := 0 to |body|
      invariant nts == FirstOccurrences(seen + body[..i]) && nts0 <= nts && forall m :: 0 <= m < i ==> body[m] in nts
    {
      assert seen + body[..i] + [body[i]] == seen + body[..i + 1];
      ghost var before := nts;
      nts := AddSymbol(body[i], nts, seen + body[..i]);
      assert forall s :: s in before ==> s in nts;
    }
    assert body[..|body|] == body;
  }

  // ----- one more rule

  /** The tables with a rule added at the end, as the source fills them in. */
  ghost function PredictorsWith(predictors: seq<seq<nat>>, body: seq<nat>, conf: nat, n: nat): (p: seq<seq<nat>>)
    requires n <= |body| && forall k :: 0 <= k < |body| ==> body[k] < |predictors|
    ensures |p| == |predictors|
    ensures forall nt, c :: 0 <= nt < |p| ==>
              (c in p[nt] <==> c in predictors[nt] || (conf <= c < conf + n && body[c - conf] == nt))
  {
    if n == 0 then predictors
    else
      var p := PredictorsWith(predictors, body, conf, n - 1);
      p[body[n - 1] := [conf + n - 1] + p[body[n - 1]]]
  }

  ghost function WithRule(T: Tables, rule: Rule<nat>): Tables
    requires rule.head < T.nts == |T.starters| == |T.enders| == |T.predictors|
    requires forall k :: 0 <= k < |rule.body| ==> rule.body[k] < T.nts
  {
    var conf := |T.steps|;
    Tables(T.nts,
           T.starters[rule.head := [conf] + T.starters[rule.head]],
           T.enders[rule.head := [conf + |rule.body|] + T.enders[rule.head]],
           PredictorsWith(T.predictors, rule.body, conf, |rule.body|),
           T.steps + rule.body + [rule.head - T.nts])
  }

  ghost function LayoutWith(L: Layout, rule: Rule<nat>, r: nat): Layout {
    var n := |rule.body| + 1;
    Layout(L.rule + seq(n, _ => r), L.dot + seq(n, k requires 0 <= k < n => k), L.start + [|L.rule|])
  }

  /** Adding a rule keeps the tables those of the grammar. */
  lemma WithRuleFits(G: seq<Rule<nat>>, T: Tables, L: Layout, rule: Rule<nat>)
    requires Fits(G, T, L) && rule.head < T.nts && forall k :: 0 <= k < |rule.body| ==> rule.body[k] < T.nts
    ensures Fits(G + [rule], WithRule(T, rule), LayoutWith(L, rule, |G|))
  {
    var (G', T', L') := (G + [rule], WithRule(T, rule), LayoutWith(L, rule, |G|));
    var conf, n := |T.steps|, |rule.body|;
    forall c | T'.nts <= c < |T'.steps| ensures ConfOk(G', T', L', c) {
      if c < conf {
        assert ConfOk(G, T, L, c);
      }
    }
    forall nt | 0 <= nt < T'.nts ensures SymbolOk(G', T', L', nt) {
      assert SymbolOk(G, T, L, nt);
    }
    forall r | 0 <= r < |G'| ensures RuleOk(G', T', L', r) {
      if r < |G| {
        assert RuleOk(G, T, L, r);
      }
    }
  }

  // ----- filling in the tables

  /** The tables before any rule: each symbol has the configuration of its own number, finished
      as soon as a token of that category is read. */
  ghost function Blank(n: nat): Tables {
    Tables(n, seq(n, _ => []), seq(n, i requires 0 <= i < n => [i]), seq(n, _ => []), seq(n, i requires 0 <= i < n => i - n))
  }

  lemma BlankFits(n: nat)
    ensures Fits([], Blank(n), Layout(seq(n, _ => 0), seq(n, _ => 0), []))
  {
  }

  /** How many configurations the rules need. */
  ghost function Confs(G: seq<Rule<nat>>): nat {
    if G == [] then 0 else Confs(G[..|G| - 1]) + |G[|G| - 1].body| + 1
  }

  lemma IndexUnique<S>(nt: S, nts: seq<S>, i: nat)
    requires NoDuplicates(nts) && i < |nts| && nts[i] == nt
    ensures Index(nt, nts) == i
  {
  }

  /** The configurations of one rule. */
  method FillRule<S(==)>(head: S, rule: seq<S>, nts: seq<S>, starters0: seq<seq<nat>>, enders0: seq<seq<nat>>,
                         predictors0: seq<seq<nat>>, steps: array<int>, conf0: nat, ghost T: Tables)
    returns (starters: seq<seq<nat>>, enders: seq<seq<nat>>, predictors: seq<seq<nat>>, conf: nat)
    requires NoDuplicates(nts) && head in nts && Covers(nts, rule) && conf0 + |rule| < steps.Length
    requires T == Tables(|nts|, starters0, enders0, predictors0, steps[..conf0])
    requires |starters0| == |enders0| == |predictors0| == |nts|
    modifies steps
    ensures conf == conf0 + |rule| + 1
    ensures Tables(|nts|, starters, enders, predictors, steps[..conf]) ==
            WithRule(T, Rule(Index(head, nts), Body(rule, nts)))
  {
    ghost var body := Body(rule, nts);
    conf, starters, enders, predictors := conf0, starters0, enders0, predictors0;
    var h := EarleyParser.Ind(head, nts);
    IndexUnique(head, nts, h);
    starters := starters[h := [conf] + starters[h]];
    for k := 0 to |rule|
      invariant conf == conf0 + k && steps[..conf] == T.steps + body[..k]
      invariant predictors == PredictorsWith(predictors0, body, conf0, k)
    {
      var nt := EarleyParser.Ind(rule[k], nts);
      IndexUnique(rule[k], nts, nt);
      ghost var before := steps[..conf];
      steps[conf] := nt;
      assert steps[..conf + 1] == before + [nt];
      assert body[..k + 1] == body[..k] + [nt];
      predictors := predictors[nt := [conf] + predictors[nt]];
      conf := conf + 1;
    }
    assert body[..|rule|] == body;
    ghost var before := steps[..conf];
    steps[conf] := h - |nts|;
    assert steps[..conf + 1] == before + [h - |nts|];
    enders := enders[h := [conf] + enders[h]];
    conf := conf + 1;
  }

  lemma {:induction false} ConfsOfRules(G: seq<Rule<nat>>, H: seq<Rule<nat>>)
    ensures Confs(G + H) == Confs(G) + Confs(H)
  {
    if H == [] {
      assert G + H == G;
    } else {
      var n := |H| - 1;
      assert (G + H)[..|G| + n] == G + H[..n];
      ConfsOfRules(G, H[..n]);
    }
  }

  lemma ConfsOfMore(G: seq<Rule<nat>>, rule: Rule<nat>)
    ensures Confs(G + [rule]) == Confs(G) + |rule.body| + 1
  {
    assert (G + [rule])[..|G|] == G;
  }

  /** All alternatives of one definition. */
  method FillDef<S(==)>(d: Def<S>, nts: seq<S>, starters0: seq<seq<nat>>, enders0: seq<seq<nat>>,
                        predictors0: seq<seq<nat>>, steps: array<int>, conf0: nat, ghost G: seq<Rule<nat>>, ghost L0: Layout)
    returns (starters: seq<seq<nat>>, enders: seq<seq<nat>>, predictors: seq<seq<nat>>, conf: nat, ghost L: Layout)
    requires NoDuplicates(nts) && CoversDef(nts, d)
    requires conf0 + Confs(DefRules(d, nts, |d.rules|)) <= steps.Length
    requires Fits(G, Tables(|nts|, starters0, enders0, predictors0, steps[..conf0]), L0)
    modifies steps
    ensures conf == conf0 + Confs(DefRules(d, nts, |d.rules|)) <= steps.Length
    ensures Fits(G + DefRules(d, nts, |d.rules|), Tables(|nts|, starters, enders, predictors, steps[..conf]), L)
  {
    hide *;
    conf, starters, enders, predictors, L := conf0, starters0, enders0, predictors0, L0;
    NoConfs(d, nts);
    assert G + [] == G;
    for r := 0 to |d.rules|
      invariant conf == conf0 + Confs(DefRules(d, nts, r)) <= steps.Length
      invariant Fits(G + DefRules(d, nts, r), Tables(|nts|, starters, enders, predictors, steps[..conf]), L)
    {
      RoomLeft(d, nts, r);
      starters, enders, predictors, conf, L := FillAlternative(d, r, nts, starters, enders, predictors, steps, conf, G, L);
    }
  }

  method FillAlternative<S(==)>(d: Def<S>, r: nat, nts: seq<S>, starters0: seq<seq<nat>>, enders0: seq<seq<nat>>,
                                predictors0: seq<seq<nat>>, steps: array<int>, conf0: nat, ghost G: seq<Rule<nat>>,
                                ghost L0: Layout)
    returns (starters: seq<seq<nat>>, enders: seq<seq<nat>>, predictors: seq<seq<nat>>, conf: nat, ghost L: Layout)
    requires NoDuplicates(nts) && CoversDef(nts, d) && r < |d.rules|
    requires conf0 + |d.rules[r]| + 1 <= steps.Length
    requires Fits(G + DefRules(d, nts, r), Tables(|nts|, starters0, enders0, predictors0, steps[..conf0]), L0)
    modifies steps
    ensures conf == conf0 + |d.rules[r]| + 1
    ensures Fits(G + DefRules(d, nts, r + 1), Tables(|nts|, starters, enders, predictors, steps[..conf]), L)
  {
    hide *;
    ghost var done := DefRules(d, nts, r);
    ghost var T := Tables(|nts|, starters0, enders0, predictors0, steps[..conf0]);
    CoversParts(nts, d, r);
    ghost var rule := Rule(Index(d.head, nts), Body(d.rules[r], nts));
    RoomLeft(d, nts, r);
    FitsParts(G + done, T, L0);
    starters, enders, predictors, conf :=
      FillRule(d.head, d.rules[r], nts, starters0, enders0, predictors0, steps, conf0, T);
    WithRuleFits(G + done, T, L0, rule);
    L := LayoutWith(L0, rule, |G + done|);
    Regrouped(G, done, [rule]);
  }

  lemma Regrouped<T>(a: seq<T>, b: seq<T>, c: seq<T>)
    ensures (a + b) + c == a + (b + c)
  {
  }

  lemma NoConfs<S>(d: Def<S>, nts: seq<S>)
    requires CoversDef(nts, d)
    ensures DefRules(d, nts, 0) == [] && Confs(DefRules(d, nts, 0)) == 0
  {
  }

  lemma CoversParts<S>(nts: seq<S>, d: Def<S>, r: nat)
    requires CoversDef(nts, d) && r < |d.rules|
    ensures d.head in nts && Covers(nts, d.rules[r])
  {
  }

  lemma FitsParts(G: seq<Rule<nat>>, T: Tables, L: Layout)
    requires Fits(G, T, L)
    ensures |T.starters| == |T.enders| == |T.predictors| == T.nts
  {
  }

  /** The configurations of the rules still to come. */
  lemma {:induction false} RoomLeft<S>(d: Def<S>, nts: seq<S>, r: nat)
    requires CoversDef(nts, d) && r < |d.rules|
    ensures DefRules(d, nts, r + 1) == DefRules(d, nts, r) + [Rule(Index(d.head, nts), Body(d.rules[r], nts))]
    ensures Confs(DefRules(d, nts, r + 1)) == Confs(DefRules(d, nts, r)) + |d.rules[r]| + 1
    ensures Confs(DefRules(d, nts, r + 1)) <= Confs(DefRules(d, nts, |d.rules|))
    decreases |d.rules| - r
  {
    ConfsOfMore(DefRules(d, nts, r), Rule(Index(d.head, nts), Body(d.rules[r], nts)));
    if r + 1 >= |d.rules| {
    } else {
      RoomLeft(d, nts, r + 1);
    }
  }

  /** The tables of a grammar.  Every slot of the steps is filled. */
  method MakeTables<S(==)>(grammar: seq<Def<S>>) returns (nts: seq<S>, T: Tables, ghost L: Layout)
    ensures NoDuplicates(nts) && forall k :: 0 <= k < |grammar| ==> CoversDef(nts, grammar[k])
    ensures grammar != [] ==> nts != [] && nts[0] == grammar[0].head
    ensures T.nts == |nts| && Fits(Rules(grammar, nts), T, L)
  {
    hide *;
    nts := Symbols(grammar);
    var n := |nts|;
    var nbConfs := CountConfs(grammar, nts);
    var steps, starters, enders, predictors := BlankTables(n, nbConfs);
    L := Layout(seq(n, _ => 0), seq(n, _ => 0), []);
    BlankFits(n);
    NoRules(grammar, nts);
    var conf := n;
    for k := 0 to |grammar|
      invariant conf == n + Confs(Rules(grammar[..k], nts)) <= steps.Length
      invariant Fits(Rules(grammar[..k], nts), Tables(n, starters, enders, predictors, steps[..conf]), L)
    {
      ghost var G := Rules(grammar[..k], nts);
      MoreRoom(grammar, nts, k);
      MoreRules(grammar, nts, k);
      ConfsOfRules(G, DefRules(grammar[k], nts, |grammar[k].rules|));
      starters, enders, predictors, conf, L := FillDef(grammar[k], nts, starters, enders, predictors, steps, conf, G, L);
    }
    assert grammar[..|grammar|] == grammar;
    assert steps[..conf] == steps[..];
    T := Tables(n, starters, enders, predictors, steps[..]);
  }

  /** The tables before any rule: every symbol has only its final configuration. */
  method BlankTables(n: nat, nbConfs: nat)
    returns (steps: array<int>, starters: seq<seq<nat>>, enders: seq<seq<nat>>, predictors: seq<seq<nat>>)
    ensures fresh(steps) && steps.Length == n + nbConfs
    ensures Tables(n, starters, enders, predictors, steps[..n]) == Blank(n)
  {
    steps := new int[n + nbConfs];
    forall i | 0 <= i < n {
      steps[i] := i - n;
    }
    starters, predictors := seq(n, _ => []), seq(n, _ => []);
    enders := seq(n, i requires 0 <= i < n => [i]);
  }

  lemma NoRules<S>(grammar: seq<Def<S>>, nts: seq<S>)
    requires forall m :: 0 <= m < |grammar| ==> CoversDef(nts, grammar[m])
    ensures grammar[..0] == [] && Rules(grammar[..0], nts) == [] && Confs(Rules(grammar[..0], nts)) == 0
  {
  }

  /** The first pass only counts. */
  method CountConfs<S(==)>(grammar: seq<Def<S>>, ghost nts: seq<S>) returns (c: nat)
    requires forall k :: 0 <= k < |grammar| ==> CoversDef(nts, grammar[k])
    ensures c == Confs(Rules(grammar, nts))
  {
    c := 0;
    assert grammar[..0] == [];
    for k := 0 to |grammar|
      invariant c == Confs(Rules(grammar[..k], nts))
    {
      assert grammar[..k + 1][..k] == grammar[..k];
      ghost var G := Rules(grammar[..k], nts);
      ConfsOfRules(G, DefRules(grammar[k], nts, |grammar[k].rules|));
      for r := 0 to |grammar[k].rules|
        invariant c == Confs(G) + Confs(DefRules(grammar[k], nts, r))
      {
        RoomLeft(grammar[k], nts, r);
        c := c + |grammar[k].rules[r]| + 1;
      }
    }
    assert grammar[..|grammar|] == grammar;
  }

  lemma MoreRules<S>(grammar: seq<Def<S>>, nts: seq<S>, k: nat)
    requires (forall m :: 0 <= m < |grammar| ==> CoversDef(nts, grammar[m])) && k < |grammar|
    ensures Rules(grammar[..k + 1], nts) == Rules(grammar[..k], nts) + DefRules(grammar[k], nts, |grammar[k].rules|)
  {
    assert grammar[..k + 1][..k] == grammar[..k];
  }

  lemma {:induction false} MoreRoom<S>(grammar: seq<Def<S>>, nts: seq<S>, k: nat)
    requires (forall m :: 0 <= m < |grammar| ==> CoversDef(nts, grammar[m])) && k < |grammar|
    ensures Confs(Rules(grammar[..k + 1], nts)) <= Confs(Rules(grammar, nts))
    decreases |grammar| - k
  {
    if k + 1 < |grammar| {
      MoreRoom(grammar, nts, k + 1);
      assert grammar[..k + 2][..k + 1] == grammar[..k + 1];
      ConfsOfRules(Rules(grammar[..k + 1], nts), DefRules(grammar[k + 1], nts, |grammar[k + 1].rules|));
    } else {
      assert grammar[..k + 1] == grammar;
    }
  }
}
