/** The parser as a whole: a grammar and the categories of the tokens go in, and the answers come
    out in terms of the grammar's own symbols. */
module Earley {
  import opened Common
  import opened EarleyGrammar
  import opened EarleyForward
  import opened EarleyContext
  import opened EarleyTables
  import EarleyParser

  // ----- the grammar on its own symbols

  /** The first n alternatives of a definition. */
  ghost function Alternatives<S>(d: Def<S>, n: nat): (r: seq<Rule<S>>)
    requires n <= |d.rules|
    ensures |r| == n && forall k :: 0 <= k < n ==> r[k] == Rule(d.head, d.rules[k])
  {
    if n == 0 then [] else Alternatives(d, n - 1) + [Rule(d.head, d.rules[n - 1])]
  }

  ghost function AllRules<S>(grammar: seq<Def<S>>): seq<Rule<S>> {
    if grammar == [] then []
    else
      var d := grammar[|grammar| - 1];
      AllRules(grammar[..|grammar| - 1]) + Alternatives(d, |d.rules|)
  }

  /** The numbered rules are the rules of the grammar with their symbols replaced by numbers. */
  ghost predicate SameRules<S>(H: seq<Rule<S>>, G: seq<Rule<nat>>, nts: seq<S>) {
    && |H| == |G|
    && forall r :: 0 <= r < |H| ==> NumberedRule(H[r], G[r], nts)
  }

  ghost predicate NumberedRule<S>(h: Rule<S>, g: Rule<nat>, nts: seq<S>) {
    && g.head < |nts| && nts[g.head] == h.head && |g.body| == |h.body|
    && forall k :: 0 <= k < |g.body| ==> g.body[k] < |nts| && nts[g.body[k]] == h.body[k]
  }

  lemma {:induction false} BodyNumbered<S>(d: Def<S>, nts: seq<S>, n: nat)
    requires CoversDef(nts, d) && n <= |d.rules|
    ensures SameRules(Alternatives(d, n), DefRules(d, nts, n), nts)
  {
    if n == 0 {
    } else {
      BodyNumbered(d, nts, n - 1);
      var h, g := Rule(d.head, d.rules[n - 1]), Rule(Index(d.head, nts), Body(d.rules[n - 1], nts));
      assert NumberedRule(h, g, nts);
      forall r | 0 <= r < n ensures NumberedRule(Alternatives(d, n)[r], DefRules(d, nts, n)[r], nts) {
        if r < n - 1 {
          assert NumberedRule(Alternatives(d, n - 1)[r], DefRules(d, nts, n - 1)[r], nts);
        }
      }
    }
  }

  lemma {:induction false} RulesNumbered<S>(grammar: seq<Def<S>>, nts: seq<S>)
    requires forall k :: 0 <= k < |grammar| ==> CoversDef(nts, grammar[k])
    ensures SameRules(AllRules(grammar), Rules(grammar, nts), nts)
  {
    if grammar == [] {
    } else {
      var rest, d := grammar[..|grammar| - 1], grammar[|grammar| - 1];
      RulesNumbered(rest, nts);
      BodyNumbered(d, nts, |d.rules|);
      hide NumberedRule;
      var H, G := AllRules(rest), Rules(rest, nts);
      forall r | 0 <= r < |AllRules(grammar)| ensures NumberedRule(AllRules(grammar)[r], Rules(grammar, nts)[r], nts) {
        if r < |H| {
          assert NumberedRule(H[r], G[r], nts);
        } else {
          assert NumberedRule(Alternatives(d, |d.rules|)[r - |H|], DefRules(d, nts, |d.rules|)[r - |H|], nts);
        }
      }
    }
  }

  // ----- the tokens

  /** l holds the numbers of the categories of one token that the grammar knows. */
  ghost predicate Numbers<S>(tok: seq<S>, nts: seq<S>, l: seq<nat>) {
    forall c: nat :: c in l <==> c < |nts| && nts[c] in tok
  }

  method Categories<S(==)>(tok: seq<S>, nts: seq<S>) returns (l: seq<nat>)
    requires NoDuplicates(nts)
    ensures Numbers(tok, nts, l)
  {
    l := [];
    for k := 0 to |tok|
      invariant Numbers(tok[..k], nts, l)
    {
      var i := EarleyParser.Ind(tok[k], nts);
      assert tok[..k + 1] == tok[..k] + [tok[k]];
      if i >= 0 {
        l := l + [i];
      }
    }
    assert tok[..|tok|] == tok;
  }

  /** The categories, as numbers, that the tokens of the input have. */
  ghost predicate Numbered<S>(tokens: seq<seq<S>>, nts: seq<S>, toks: seq<seq<nat>>) {
    |toks| == |tokens| && forall k :: 0 <= k < |toks| ==> Numbers(tokens[k], nts, toks[k])
  }

  // ----- derivations do not depend on the numbering

  lemma {:induction false} SameDerivations<S>(H: seq<Rule<S>>, G: seq<Rule<nat>>, tokens: seq<seq<S>>, toks: seq<seq<nat>>,
                                              nts: seq<S>, d: Deriv, k: nat, i: nat, j: nat)
    requires NoDuplicates(nts) && SameRules(H, G, nts) && Numbered(tokens, nts, toks) && k < |nts|
    ensures ValidDeriv(G, toks, d, k, i, j) <==> ValidDeriv(H, tokens, d, nts[k], i, j)
    decreases d
  {
    if d.Token? {
      assert i < |toks| ==> Numbers(tokens[i], nts, toks[i]);
    } else if d.rule < |G| {
      assert NumberedRule(H[d.rule], G[d.rule], nts);
      assert H[d.rule].head == nts[k] <==> G[d.rule].head == k;
      SamePrefixes(H, G, tokens, toks, nts, d.dotted, d.rule, |G[d.rule].body|, i, j);
    }
  }

  lemma {:induction false} SamePrefixes<S>(H: seq<Rule<S>>, G: seq<Rule<nat>>, tokens: seq<seq<S>>, toks: seq<seq<nat>>,
                                           nts: seq<S>, x: Dotted, r: nat, dot: nat, i: nat, j: nat)
    requires NoDuplicates(nts) && SameRules(H, G, nts) && Numbered(tokens, nts, toks) && r < |G|
    ensures ValidDotted(G, toks, x, r, dot, i, j) <==> ValidDotted(H, tokens, x, r, dot, i, j)
    decreases x
  {
    assert NumberedRule(H[r], G[r], nts);
    if x.Advance? && 0 < dot <= |G[r].body| {
      SamePrefixes(H, G, tokens, toks, nts, x.prev, r, dot - 1, i, x.mid);
      SameDerivations(H, G, tokens, toks, nts, x.last, G[r].body[dot - 1], x.mid, j);
    }
  }

  lemma {:induction false} SameOccurrences<S>(H: seq<Rule<S>>, G: seq<Rule<nat>>, nts: seq<S>, d: Deriv, k0: nat, i0: nat, j0: nat,
                                              k: nat, i: nat, j: nat)
    requires NoDuplicates(nts) && SameRules(H, G, nts) && k0 < |nts| && k < |nts|
    ensures Occurs(G, d, k0, i0, j0, k, i, j) <==> Occurs(H, d, nts[k0], i0, j0, nts[k], i, j)
    decreases d
  {
    if d.Expand? && d.rule < |G| {
      assert NumberedRule(H[d.rule], G[d.rule], nts);
      SameOccurrencesBefore(H, G, nts, d.dotted, d.rule, |G[d.rule].body|, i0, j0, k, i, j);
    }
  }

  lemma {:induction false} SameOccurrencesBefore<S>(H: seq<Rule<S>>, G: seq<Rule<nat>>, nts: seq<S>, x: Dotted, r: nat, dot: nat,
                                                    i0: nat, j0: nat, k: nat, i: nat, j: nat)
    requires NoDuplicates(nts) && SameRules(H, G, nts) && r < |G| && k < |nts|
    ensures OccursBefore(G, x, r, dot, i0, j0, k, i, j) <==> OccursBefore(H, x, r, dot, i0, j0, nts[k], i, j)
    decreases x
  {
    assert NumberedRule(H[r], G[r], nts);
    if x.Advance? && 0 < dot <= |G[r].body| {
      SameOccurrencesBefore(H, G, nts, x.prev, r, dot - 1, i0, x.mid, k, i, j);
      SameOccurrences(H, G, nts, x.last, G[r].body[dot - 1], x.mid, j0, k, i, j);
    }
  }

  /** What occurs in a derivation is a symbol of the grammar. */
  lemma {:induction false} KnownOccurrences<S>(H: seq<Rule<S>>, G: seq<Rule<nat>>, nts: seq<S>, d: Deriv, s0: S, i0: nat, j0: nat,
                                               s: S, i: nat, j: nat)
    requires SameRules(H, G, nts) && s0 in nts && Occurs(H, d, s0, i0, j0, s, i, j)
    ensures s in nts
    decreases d
  {
    if d.Expand? && d.rule < |H| && OccursBefore(H, d.dotted, d.rule, |H[d.rule].body|, i0, j0, s, i, j) {
      KnownBefore(H, G, nts, d.dotted, d.rule, |H[d.rule].body|, i0, j0, s, i, j);
    }
  }

  lemma {:induction false} KnownBefore<S>(H: seq<Rule<S>>, G: seq<Rule<nat>>, nts: seq<S>, x: Dotted, r: nat, dot: nat,
                                          i0: nat, j0: nat, s: S, i: nat, j: nat)
    requires SameRules(H, G, nts) && OccursBefore(H, x, r, dot, i0, j0, s, i, j)
    ensures s in nts
    decreases x
  {
    assert NumberedRule(H[r], G[r], nts);
    if OccursBefore(H, x.prev, r, dot - 1, i0, x.mid, s, i, j) {
      KnownBefore(H, G, nts, x.prev, r, dot - 1, i0, x.mid, s, i, j);
    } else {
      KnownOccurrences(H, G, nts, x.last, H[r].body[dot - 1], x.mid, j0, s, i, j);
    }
  }

  /** The symbol is in a parse of the tokens exactly if its number is in one of their numbers. */
  lemma SameParses<S>(H: seq<Rule<S>>, G: seq<Rule<nat>>, tokens: seq<seq<S>>, toks: seq<seq<nat>>, nts: seq<S>,
                      s: S, i: nat, j: nat)
    requires NoDuplicates(nts) && nts != [] && SameRules(H, G, nts) && Numbered(tokens, nts, toks)
    ensures InSomeParse(H, tokens, nts[0], s, i, j) <==> s in nts && InSomeParse(G, toks, 0, Index(s, nts), i, j)
  {
    hide ValidDeriv, Occurs, SameRules, Numbered;
    var n := |toks|;
    assert n == |tokens| by {
      SameLength(tokens, nts, toks);
    }
    if InSomeParse(H, tokens, nts[0], s, i, j) {
      var d :| ValidDeriv(H, tokens, d, nts[0], 0, n) && Occurs(H, d, nts[0], 0, n, s, i, j);
      KnownOccurrences(H, G, nts, d, nts[0], 0, n, s, i, j);
      SameDerivations(H, G, tokens, toks, nts, d, 0, 0, n);
      SameOccurrences(H, G, nts, d, 0, 0, n, Index(s, nts), i, j);
      assert ValidDeriv(G, toks, d, 0, 0, n) && Occurs(G, d, 0, 0, n, Index(s, nts), i, j);
    }
    if s in nts && InSomeParse(G, toks, 0, Index(s, nts), i, j) {
      var d :| ValidDeriv(G, toks, d, 0, 0, n) && Occurs(G, d, 0, 0, n, Index(s, nts), i, j);
      SameDerivations(H, G, tokens, toks, nts, d, 0, 0, n);
      SameOccurrences(H, G, nts, d, 0, 0, n, Index(s, nts), i, j);
      assert ValidDeriv(H, tokens, d, nts[0], 0, n) && Occurs(H, d, nts[0], 0, n, s, i, j);
    }
  }

  lemma SameEnds<S>(H: seq<Rule<S>>, G: seq<Rule<nat>>, tokens: seq<seq<S>>, toks: seq<seq<nat>>, nts: seq<S>, s: S, j: nat)
    requires NoDuplicates(nts) && nts != [] && SameRules(H, G, nts) && Numbered(tokens, nts, toks)
    ensures EndsInSomeParse(H, tokens, nts[0], s, j) <==>
            s in nts && exists i: nat :: InSomeParse(G, toks, 0, Index(s, nts), i, j)
  {
    hide InSomeParse, SameRules, Numbered;
    if EndsInSomeParse(H, tokens, nts[0], s, j) {
      var i: nat :| InSomeParse(H, tokens, nts[0], s, i, j);
      SameParses(H, G, tokens, toks, nts, s, i, j);
    }
    if s in nts {
      if i: nat :| InSomeParse(G, toks, 0, Index(s, nts), i, j) {
        SameParses(H, G, tokens, toks, nts, s, i, j);
      }
    }
  }

  lemma SameLength<S>(tokens: seq<seq<S>>, nts: seq<S>, toks: seq<seq<nat>>)
    requires Numbered(tokens, nts, toks)
    ensures |toks| == |tokens|
  {
  }

  // ----- the answers

  /** What is_parsed answers.  For i <= j it is whether some parse of all tokens by the goal, the head
      of the first definition, has symbol nt span i..j.  For i > j, which no symbol spans, the read
      past the vector makes it whether some parse has nt end at j at all.  So the answer is right
      exactly if i <= j or no parse has nt end at j. */
  method Parsed<S(==)>(grammar: seq<Def<S>>, tokens: seq<seq<S>>, nt: S, i: nat, j: nat) returns (b: bool)
    requires grammar != [] && j <= |tokens|
    ensures i <= j ==> (b <==> InSomeParse(AllRules(grammar), tokens, grammar[0].head, nt, i, j))
    ensures i > j ==> (b <==> EndsInSomeParse(AllRules(grammar), tokens, grammar[0].head, nt, j))
    ensures (b <==> InSomeParse(AllRules(grammar), tokens, grammar[0].head, nt, i, j)) <==>
            i <= j || !EndsInSomeParse(AllRules(grammar), tokens, grammar[0].head, nt, j)
  {
    hide InSomeParse;
    var nts, T;
    ghost var L;
    nts, T, L := MakeTables(grammar);
    assert |T.enders| == T.nts;
    hide Fits;
    var toks: seq<seq<nat>> := [];
    for k := 0 to |tokens|
      invariant |toks| == k && forall m :: 0 <= m < k ==> Numbers(tokens[m], nts, toks[m])
    {
      var l := Categories(tokens[k], nts);
      toks := toks + [l];
    }
    forall m, c: nat | 0 <= m < |toks| && c in toks[m] ensures c < |nts| {
      assert Numbers(tokens[m], nts, toks[m]);
    }
    RulesNumbered(grammar, nts);
    SameParses(AllRules(grammar), Rules(grammar, nts), tokens, toks, nts, nt, i, j);
    SameEnds(AllRules(grammar), Rules(grammar, nts), tokens, toks, nts, nt, j);
    NothingBackward(AllRules(grammar), tokens, grammar[0].head, nt, i, j);
    ghost var P := Problem(Rules(grammar, nts), toks, T, L);
    var B := EarleyParser.Parse(T, toks, P);
    b := EarleyParser.IsParsed(nt, i, j, nts, T, B, P);
    if nt in nts && i > j {
      assert b <==> EarleyParser.HasSetFor(T, B[j], Index(nt, nts));
    }
  }

  /** One rule s -> a and the token a.  Asked for s from 2 to 1 the answer is true. */
  method ParsedBackward() returns (b: bool)
    ensures b && !InSomeParse(AllRules([Def("s", [["a"]])]), [["a"]], "s", "s", 2, 1)
  {
    var grammar, tokens := [Def("s", [["a"]])], [["a"]];
    b := Parsed(grammar, tokens, "s", 2, 1);
    ghost var d := Expand(0, Advance(Start, 0, Token));
    ghost var G := AllRules(grammar);
    assert G == [Rule("s", ["a"])] by {
      assert grammar[..0] == [];
    }
    assert ValidDotted(G, tokens, Start, 0, 0, 0, 0) && ValidDeriv(G, tokens, Token, "a", 0, 1);
    assert ValidDeriv(G, tokens, d, "s", 0, 1) && Occurs(G, d, "s", 0, 1, "s", 0, 1);
    assert InSomeParse(G, tokens, "s", "s", 0, 1);
    NothingBackward(G, tokens, "s", "s", 2, 1);
  }

  /** The goal itself, over all tokens, is parsed exactly if the grammar derives it. */
  method ParsedFully<S(==)>(grammar: seq<Def<S>>, tokens: seq<seq<S>>) returns (b: bool)
    requires grammar != []
    ensures b <==> Derives(AllRules(grammar), tokens, grammar[0].head, 0, |tokens|)
  {
    hide InSomeParse, Derives;
    b := Parsed(grammar, tokens, grammar[0].head, 0, |tokens|);
    GoalInSomeParse(AllRules(grammar), tokens, grammar[0].head);
  }

  /** The goal is in a parse of all tokens exactly if it derives them. */
  lemma GoalInSomeParse<S>(G: seq<Rule<S>>, tokens: seq<seq<S>>, goal: S)
    ensures InSomeParse(G, tokens, goal, goal, 0, |tokens|) <==> Derives(G, tokens, goal, 0, |tokens|)
  {
    if Derives(G, tokens, goal, 0, |tokens|) {
      var d :| ValidDeriv(G, tokens, d, goal, 0, |tokens|);
      assert Occurs(G, d, goal, 0, |tokens|, goal, 0, |tokens|);
    }
  }
}
