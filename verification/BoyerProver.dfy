/** The prover as a whole: lemmas are filed by the operator of their left side, a term is rewritten
    with them from the inside out, and the result is checked as a tautology.  What it proves holds
    in every model of the lemmas. */
module BoyerProver {
  import opened Common
  import opened BoyerTerms
  import opened BoyerUnify
  import opened BoyerTautology

  // ----- meaning

  /** The values of terms; nothing is known about them. */
  type Value(!new)

  datatype Interp = Interp(op: (string, seq<Value>) -> Value, num: int -> Value)

  ghost function Eval(m: Interp, env: string -> Value, term: Term): Value {
    match term
    case Num(n) => m.num(n)
    case Sym(x) => env(x)
    case App(f, args) => m.op(f, EvalAll(m, env, args))
  }

  ghost function EvalAll(m: Interp, env: string -> Value, terms: seq<Term>): (r: seq<Value>)
    ensures |r| == |terms| && forall k :: 0 <= k < |r| ==> r[k] == Eval(m, env, terms[k])
  {
    if terms == [] then [] else [Eval(m, env, terms[0])] + EvalAll(m, env, terms[1..])
  }

  /** Both sides have the same value, whatever the symbols stand for. */
  ghost predicate Equation(m: Interp, lhs: Term, rhs: Term) {
    forall env :: Eval(m, env, lhs) == Eval(m, env, rhs)
  }

  type Table = map<string, seq<Term>>

  ghost predicate TableOk(table: Table) {
    forall f, l :: f in table && l in table[f] ==> l.App? && |l.args| >= 2
  }

  /** What the lemmas rewrite to keeps the property of operators. */
  ghost predicate TableOps(p: (string, nat) -> bool, table: Table)
    requires TableOk(table)
  {
    forall f, l :: f in table && l in table[f] ==> AllOps(p, l.args[1])
  }

  ghost predicate TableDeepFormed(table: Table)
    requires TableOk(table)
  {
    TableOps(ThreeParts, table)
  }

  /** Every lemma on file is an equation of the model. */
  ghost predicate Models(m: Interp, table: Table)
    requires TableOk(table)
  {
    forall f, l :: f in table && l in table[f] ==> Equation(m, l.args[0], l.args[1])
  }

  /** The terms have the same value in every model of the lemmas. */
  ghost predicate Same(table: Table, x: Term, y: Term)
    requires TableOk(table)
  {
    forall m, env :: Models(m, table) ==> Eval(m, env, x) == Eval(m, env, y)
  }

  /** The symbols, as the substitution has them. */
  ghost function Under(m: Interp, env: string -> Value, s: Alist): string -> Value {
    x => Eval(m, env, ApplySubst(s, Sym(x)))
  }

  lemma {:induction false} EvalSubst(m: Interp, env: string -> Value, s: Alist, term: Term)
    requires SymbolsOnly(s)
    ensures Eval(m, env, ApplySubst(s, term)) == Eval(m, Under(m, env, s), term)
    decreases term
  {
    if term.App? {
      EvalSubstAll(m, env, s, term.args);
    } else if term.Num? {
      NumbersUnbound(s, term);
    }
  }

  lemma {:induction false} EvalSubstAll(m: Interp, env: string -> Value, s: Alist, terms: seq<Term>)
    requires SymbolsOnly(s)
    ensures EvalAll(m, env, ApplySubstList(s, terms)) == EvalAll(m, Under(m, env, s), terms)
    decreases terms
  {
    if terms == [] {
    } else {
      EvalSubst(m, env, s, terms[0]);
      EvalSubstAll(m, env, s, terms[1..]);
      assert ApplySubstList(s, terms)[1..] == ApplySubstList(s, terms[1..]);
    }
  }

  /** One rewriting step at the top. */
  lemma SameByLemma(table: Table, f: string, l: Term, s: Alist)
    requires TableOk(table) && f in table && l in table[f] && SymbolsOnly(s)
    ensures Same(table, ApplySubst(s, l.args[0]), ApplySubst(s, l.args[1]))
  {
    hide Eval;
    forall m, env | Models(m, table)
      ensures Eval(m, env, ApplySubst(s, l.args[0])) == Eval(m, env, ApplySubst(s, l.args[1]))
    {
      EvalSubst(m, env, s, l.args[0]);
      EvalSubst(m, env, s, l.args[1]);
      assert Equation(m, l.args[0], l.args[1]);
    }
  }

  /** Rewriting below an operator. */
  lemma SameBelow(table: Table, f: string, xs: seq<Term>, ys: seq<Term>)
    requires TableOk(table) && |xs| == |ys| && forall k :: 0 <= k < |xs| ==> Same(table, xs[k], ys[k])
    ensures Same(table, App(f, xs), App(f, ys))
  {
    forall m, env | Models(m, table) ensures Eval(m, env, App(f, xs)) == Eval(m, env, App(f, ys)) {
      assert EvalAll(m, env, xs) == EvalAll(m, env, ys);
    }
  }

  lemma SameTwice(table: Table, x: Term, y: Term, z: Term)
    requires TableOk(table) && Same(table, x, y) && Same(table, y, z)
    ensures Same(table, x, z)
  {
    hide Eval;
  }

  // ----- truth

  /** Truth and falsity are as tautologyp takes them, and if chooses. */
  ghost predicate Classical(m: Interp, truth: Value -> bool) {
    && truth(m.op("t", [])) && !truth(m.op("f", []))
    && forall vs :: |vs| >= 3 ==> (truth(m.op(IF, vs)) <==> if truth(vs[0]) then truth(vs[1]) else truth(vs[2]))
  }

  /** The term is true in every classical model of the lemmas, whatever its symbols stand for. */
  ghost predicate Theorem(table: Table, x: Term)
    requires TableOk(table)
  {
    forall m, truth, env :: Models(m, table) && Classical(m, truth) ==> truth(Eval(m, env, x))
  }

  /** The valuation for tautologyp that a model gives. */
  ghost function Valuation(m: Interp, truth: Value -> bool, env: string -> Value): Term -> bool {
    t => truth(Eval(m, env, t))
  }

  lemma {:induction false} HoldsIsTruth(m: Interp, truth: Value -> bool, env: string -> Value, x: Term)
    requires Classical(m, truth)
    ensures Holds(Valuation(m, truth, env), x) <==> truth(Eval(m, env, x))
  {
    if x == TRUE || x == FALSE {
      assert EvalAll(m, env, []) == [];
    } else if IsIf(x) && |x.args| >= 3 {
      HoldsIsTruth(m, truth, env, x.args[0]);
      HoldsIsTruth(m, truth, env, x.args[1]);
      HoldsIsTruth(m, truth, env, x.args[2]);
    }
  }

  lemma Decided(y: Term)
    requires WellFormed(y) && Normal(y)
    ensures Tautology(y, [], []) <==> forall v :: Holds(v, y)
  {
    hide Holds, Tautology;
    TautologyMeans(y, [], []);
    assert forall v :: Satisfies(v, [], []);
  }

  lemma TautologyIsTheorem(table: Table, x: Term, y: Term)
    requires TableOk(table) && Same(table, x, y)
    requires forall v :: Satisfies(v, [], []) ==> Holds(v, y)
    ensures Theorem(table, x)
  {
    hide Eval, Holds;
    forall m, truth, env | Models(m, table) && Classical(m, truth) ensures truth(Eval(m, env, x)) {
      assert Satisfies(Valuation(m, truth, env), [], []);
      HoldsIsTruth(m, truth, env, y);
    }
  }

  lemma {:induction false} DeepIsWellFormed(x: Term)
    requires DeepFormed(x)
    ensures WellFormed(x)
  {
    if !IsIf(x) {
    } else {
      assert AllOpsIn(ThreeParts, x.args);
      DeepIsWellFormed(x.args[0]);
      DeepIsWellFormed(x.args[1]);
      DeepIsWellFormed(x.args[2]);
    }
  }

  // ----- the rewriter

  /** What ADD-LEMMA takes: an equation whose left side has an operator. */
  predicate IsLemma(term: Term) {
    term.App? && term.op == "equal" && |term.args| > 0 && term.args[0].App?
  }

  function Lemmas(table: Table, f: string): seq<Term> {
    if f in table then table[f] else []
  }

  /** No substitution makes the left side of the lemma this term. */
  ghost predicate NoInstance(l: Term, x: Term)
    requires l.App? && |l.args| > 0
  {
    forall s :: SymbolsOnly(s) ==> ApplySubst(s, l.args[0]) != x
  }

  /** No lemma can rewrite the term or any part of it. */
  ghost predicate Irreducible(table: Table, x: Term)
    requires TableOk(table)
  {
    x.App? ==>
      && (forall k :: 0 <= k < |x.args| ==> Irreducible(table, x.args[k]))
      && (forall k :: 0 <= k < |Lemmas(table, x.op)| ==> Filed(table, x.op, k) && NoInstance(Lemmas(table, x.op)[k], x))
  }

  ghost predicate Filed(table: Table, f: string, k: nat)
    requires k < |Lemmas(table, f)|
  {
    var l := Lemmas(table, f)[k];
    f in table && l in table[f] && l.App? && |l.args| >= 2
  }

  lemma AllFiled(table: Table, f: string)
    requires TableOk(table)
    ensures forall k :: 0 <= k < |Lemmas(table, f)| ==> Filed(table, f, k)
  {
  }

  // ----- what rewriting is

  /** The substitution makes the left side of the lemma this term, and binds nothing else. */
  ghost predicate Matching(s: Alist, l: Term, x: Term)
    requires l.App? && |l.args| > 0
  {
    SymbolsOnly(s) && ApplySubst(s, l.args[0]) == x && BindsOnly([], s, l.args[0])
  }

  ghost predicate NoneMatches(table: Table, x: Term, n: nat)
    requires TableOk(table) && x.App? && n <= |Lemmas(table, x.op)|
  {
    forall k :: 0 <= k < n ==> Filed(table, x.op, k) && NoInstance(Lemmas(table, x.op)[k], x)
  }

  /** Lemma k is the first on file whose left side becomes this term. */
  ghost predicate FirstMatch(table: Table, x: Term, k: nat, s: Alist)
    requires TableOk(table) && x.App?
  {
    && k < |Lemmas(table, x.op)| && Filed(table, x.op, k)
    && NoneMatches(table, x, k) && Matching(s, Lemmas(table, x.op)[k], x)
  }

  /** x rewrites to y in calls nested at most n deep, c of them: an atom stays; of any other term
      the arguments are rewritten first, then the whole with the first lemma that matches, and so
      on, until none does. */
  ghost predicate Reaches(table: Table, x: Term, y: Term, n: nat, c: int)
    requires TableOk(table)
    decreases n, 0, x
  {
    n > 0 &&
    if !x.App? then y == x && c == 1
    else
      var m: nat := n - 1;
      exists args, c1: int :: ReachesAll(table, x.args, args, m, c1) && ReachesTop(table, App(x.op, args), y, m, c - 1 - c1)
  }

  ghost predicate ReachesTop(table: Table, x: Term, y: Term, n: nat, c: int)
    requires TableOk(table) && x.App?
    decreases n, 1, x
  {
    || (NoneMatches(table, x, |Lemmas(table, x.op)|) && y == x && c == 0)
    || exists k: nat, s :: FirstMatch(table, x, k, s) &&
                           Reaches(table, ApplySubst(s, Lemmas(table, x.op)[k].args[1]), y, n, c)
  }

  ghost predicate ReachesAll(table: Table, xs: seq<Term>, ys: seq<Term>, n: nat, c: int)
    requires TableOk(table)
    decreases n, 1, xs
  {
    if xs == [] then ys == [] && c == 0
    else
      ys != [] &&
      exists c1: int :: Reaches(table, xs[0], ys[0], n, c1) && ReachesAll(table, xs[1..], ys[1..], n, c - c1)
  }

  // ----- it is a function

  /** Two substitutions that make the pattern the same term do the same everywhere. */
  lemma {:induction false} SameAtoms(s: Alist, s': Alist, pattern: Term, x: Term)
    requires ApplySubst(s, pattern) == ApplySubst(s', pattern) && Occurs(x, pattern)
    ensures ApplySubst(s, x) == ApplySubst(s', x)
    decreases pattern
  {
    if pattern.App? {
      var k :| 0 <= k < |pattern.args| && Occurs(x, pattern.args[k]);
      AppliedAt(s, pattern.args, k);
      AppliedAt(s', pattern.args, k);
      SameAtoms(s, s', pattern.args[k], x);
    }
  }

  lemma {:induction false} SameApplied(s: Alist, s': Alist, term: Term)
    requires forall x: Term :: !x.App? ==> ApplySubst(s, x) == ApplySubst(s', x)
    ensures ApplySubst(s, term) == ApplySubst(s', term)
    decreases term
  {
    if term.App? {
      SameAppliedAll(s, s', term.args);
    }
  }

  lemma {:induction false} SameAppliedAll(s: Alist, s': Alist, terms: seq<Term>)
    requires forall x: Term :: !x.App? ==> ApplySubst(s, x) == ApplySubst(s', x)
    ensures ApplySubstList(s, terms) == ApplySubstList(s', terms)
    decreases terms
  {
    if terms == [] {
    } else {
      SameApplied(s, s', terms[0]);
      SameAppliedAll(s, s', terms[1..]);
    }
  }

  lemma OneMatching(s: Alist, s': Alist, l: Term, x: Term, term: Term)
    requires l.App? && |l.args| > 0 && Matching(s, l, x) && Matching(s', l, x)
    ensures ApplySubst(s, term) == ApplySubst(s', term)
  {
    forall a: Term | !a.App? ensures ApplySubst(s, a) == ApplySubst(s', a) {
      if Occurs(a, l.args[0]) {
        SameAtoms(s, s', l.args[0], a);
      }
    }
    SameApplied(s, s', term);
  }

  lemma Instance(s: Alist, l: Term, x: Term)
    requires l.App? && |l.args| > 0 && Matching(s, l, x)
    ensures !NoInstance(l, x)
  {
  }

  lemma OneFirst(table: Table, x: Term, k: nat, s: Alist, k': nat, s': Alist, term: Term)
    requires TableOk(table) && x.App? && FirstMatch(table, x, k, s) && FirstMatch(table, x, k', s')
    ensures k == k' && ApplySubst(s, term) == ApplySubst(s', term)
  {
    Instance(s, Lemmas(table, x.op)[k], x);
    Instance(s', Lemmas(table, x.op)[k'], x);
    OneMatching(s, s', Lemmas(table, x.op)[k], x, term);
  }

  /** A term rewrites to one term only, whatever depth is allowed, with one number of calls. */
  lemma {:induction false} ReachesUnique(table: Table, x: Term, y: Term, y': Term, n: nat, n': nat, c: int, c': int)
    requires TableOk(table) && Reaches(table, x, y, n, c) && Reaches(table, x, y', n', c')
    ensures y == y' && c == c'
    decreases n, 0, x
  {
    hide ReachesAll, ReachesTop;
    if x.App? {
      var m: nat := n - 1;
      var args, d: int :| ReachesAll(table, x.args, args, m, d) && ReachesTop(table, App(x.op, args), y, m, c - 1 - d);
      var m': nat := n' - 1;
      var args', d': int :|
        ReachesAll(table, x.args, args', m', d') && ReachesTop(table, App(x.op, args'), y', m', c' - 1 - d');
      ReachesAllUnique(table, x.args, args, args', n - 1, n' - 1, d, d');
      ReachesTopUnique(table, App(x.op, args), y, y', n - 1, n' - 1, c - 1 - d, c' - 1 - d');
    }
  }

  lemma {:induction false} ReachesTopUnique(table: Table, x: Term, y: Term, y': Term, n: nat, n': nat, c: int, c': int)
    requires TableOk(table) && x.App? && ReachesTop(table, x, y, n, c) && ReachesTop(table, x, y', n', c')
    ensures y == y' && c == c'
    decreases n, 1, x
  {
    var lst := Lemmas(table, x.op);
    if k: nat, s :| FirstMatch(table, x, k, s) && Reaches(table, ApplySubst(s, lst[k].args[1]), y, n, c) {
      Instance(s, lst[k], x);
      var k': nat, s' :| FirstMatch(table, x, k', s') && Reaches(table, ApplySubst(s', lst[k'].args[1]), y', n', c');
      OneFirst(table, x, k, s, k', s', lst[k].args[1]);
      ReachesUnique(table, ApplySubst(s, lst[k].args[1]), y, y', n, n', c, c');
    } else if k': nat, s' :| FirstMatch(table, x, k', s') && Reaches(table, ApplySubst(s', lst[k'].args[1]), y', n', c') {
      Instance(s', lst[k'], x);
    }
  }

  lemma {:induction false} ReachesAllUnique(table: Table, xs: seq<Term>, ys: seq<Term>, ys': seq<Term>, n: nat, n': nat,
                                            c: int, c': int)
    requires TableOk(table) && ReachesAll(table, xs, ys, n, c) && ReachesAll(table, xs, ys', n', c')
    ensures ys == ys' && c == c'
    decreases n, 1, xs
  {
    if xs == [] {
    } else {
      var d: int :| Reaches(table, xs[0], ys[0], n, d) && ReachesAll(table, xs[1..], ys[1..], n, c - d);
      var d': int :| Reaches(table, xs[0], ys'[0], n', d') && ReachesAll(table, xs[1..], ys'[1..], n', c' - d');
      ReachesUnique(table, xs[0], ys[0], ys'[0], n, n', d, d');
      ReachesAllUnique(table, xs[1..], ys[1..], ys'[1..], n, n', c - d, c' - d');
    }
  }

  /** What is reached stays within reach when more depth is allowed. */
  lemma {:induction false} ReachesDeeper(table: Table, x: Term, y: Term, n: nat, n': nat, c: int)
    requires TableOk(table) && Reaches(table, x, y, n, c) && n <= n'
    ensures Reaches(table, x, y, n', c)
    decreases n, 0, x
  {
    hide ReachesAll, ReachesTop;
    if x.App? {
      var m: nat := n - 1;
      var args, d: int :| ReachesAll(table, x.args, args, m, d) && ReachesTop(table, App(x.op, args), y, m, c - 1 - d);
      var m': nat := n' - 1;
      ReachesAllDeeper(table, x.args, args, m, m', d);
      ReachesTopDeeper(table, App(x.op, args), y, m, m', c - 1 - d);
    }
  }

  lemma {:induction false} ReachesTopDeeper(table: Table, x: Term, y: Term, n: nat, n': nat, c: int)
    requires TableOk(table) && x.App? && ReachesTop(table, x, y, n, c) && n <= n'
    ensures ReachesTop(table, x, y, n', c)
    decreases n, 1, x
  {
    hide Reaches;
    var lst := Lemmas(table, x.op);
    if k: nat, s :| FirstMatch(table, x, k, s) && Reaches(table, ApplySubst(s, lst[k].args[1]), y, n, c) {
      ReachesDeeper(table, ApplySubst(s, lst[k].args[1]), y, n, n', c);
    }
  }

  lemma {:induction false} ReachesAllDeeper(table: Table, xs: seq<Term>, ys: seq<Term>, n: nat, n': nat, c: int)
    requires TableOk(table) && ReachesAll(table, xs, ys, n, c) && n <= n'
    ensures ReachesAll(table, xs, ys, n', c)
    decreases n, 1, xs
  {
    if xs == [] {
    } else {
      var d: int :| Reaches(table, xs[0], ys[0], n, d) && ReachesAll(table, xs[1..], ys[1..], n, c - d);
      ReachesDeeper(table, xs[0], ys[0], n, n', d);
      ReachesAllDeeper(table, xs[1..], ys[1..], n, n', c - d);
    }
  }

  // ----- what it keeps

  /** The result has the same value in every model of the lemmas, and cannot be rewritten. */
  lemma {:induction false} ReachesSame(table: Table, x: Term, y: Term, n: nat, c: int)
    requires TableOk(table) && Reaches(table, x, y, n, c)
    ensures Same(table, x, y) && Irreducible(table, y)
    decreases n, 0, x
  {
    hide Same, Eval, ReachesAll, ReachesTop;
    if x.App? {
      var m: nat := n - 1;
      var args, d: int :| ReachesAll(table, x.args, args, m, d) && ReachesTop(table, App(x.op, args), y, m, c - 1 - d);
      ReachesAllSame(table, x.args, args, n - 1, d);
      SameBelow(table, x.op, x.args, args);
      ReachesTopSame(table, App(x.op, args), y, m, c - 1 - d);
      SameTwice(table, x, App(x.op, args), y);
    } else {
      SameItself(table, x);
    }
  }

  lemma {:induction false} ReachesTopSame(table: Table, x: Term, y: Term, n: nat, c: int)
    requires TableOk(table) && x.App? && ReachesTop(table, x, y, n, c)
    requires forall k :: 0 <= k < |x.args| ==> Irreducible(table, x.args[k])
    ensures Same(table, x, y) && Irreducible(table, y)
    decreases n, 1, x
  {
    hide Same, Eval, Reaches;
    var lst := Lemmas(table, x.op);
    if k: nat, s :| FirstMatch(table, x, k, s) && Reaches(table, ApplySubst(s, lst[k].args[1]), y, n, c) {
      var next := ApplySubst(s, lst[k].args[1]);
      SameByLemma(table, x.op, lst[k], s);
      ReachesSame(table, next, y, n, c);
      SameTwice(table, x, next, y);
    } else {
      SameItself(table, x);
    }
  }

  lemma {:induction false} ReachesAllSame(table: Table, xs: seq<Term>, ys: seq<Term>, n: nat, c: int)
    requires TableOk(table) && ReachesAll(table, xs, ys, n, c)
    ensures |xs| == |ys| && forall k :: 0 <= k < |xs| ==> Same(table, xs[k], ys[k]) && Irreducible(table, ys[k])
    decreases n, 1, xs
  {
    hide Same, Irreducible;
    if xs == [] {
    } else {
      var d: int :| Reaches(table, xs[0], ys[0], n, d) && ReachesAll(table, xs[1..], ys[1..], n, c - d);
      ReachesSame(table, xs[0], ys[0], n, d);
      ReachesAllSame(table, xs[1..], ys[1..], n, c - d);
    }
  }

  function Nodes(x: Term): nat {
    if x.App? then 1 + NodesOf(x.args) else 1
  }

  function NodesOf(xs: seq<Term>): nat {
    if xs == [] then 0 else Nodes(xs[0]) + NodesOf(xs[1..])
  }

  /** There are at least as many calls as parts of the term, and just as many exactly if there is
      nothing to rewrite. */
  lemma {:induction false} ReachesCalls(table: Table, x: Term, y: Term, n: nat, c: int)
    requires TableOk(table) && Reaches(table, x, y, n, c)
    ensures c >= Nodes(x) && (c == Nodes(x) <==> Irreducible(table, x)) && (Irreducible(table, x) ==> y == x)
    decreases n, 0, x
  {
    hide ReachesAll, ReachesTop, NodesOf, NoInstance;
    if x.App? {
      var m: nat := n - 1;
      var args, d: int :| ReachesAll(table, x.args, args, m, d) && ReachesTop(table, App(x.op, args), y, m, c - 1 - d);
      ReachesAllCalls(table, x.args, args, m, d);
      ReachesTopCalls(table, App(x.op, args), y, m, c - 1 - d);
      if d == NodesOf(x.args) {
        assert App(x.op, args) == x;
      }
    }
  }

  lemma {:induction false} ReachesTopCalls(table: Table, x: Term, y: Term, n: nat, c: int)
    requires TableOk(table) && x.App? && ReachesTop(table, x, y, n, c)
    ensures c >= 0 && (c == 0 ==> y == x)
    ensures c == 0 <==> forall k :: 0 <= k < |Lemmas(table, x.op)| ==> NoInstance(Lemmas(table, x.op)[k], x)
    decreases n, 1, x
  {
    hide Reaches, Irreducible;
    AllFiled(table, x.op);
    if k: nat, s :| FirstMatch(table, x, k, s) && Reaches(table, ApplySubst(s, Lemmas(table, x.op)[k].args[1]), y, n, c) {
      ReachesCalls(table, ApplySubst(s, Lemmas(table, x.op)[k].args[1]), y, n, c);
      Instance(s, Lemmas(table, x.op)[k], x);
    }
  }

  lemma {:induction false} ReachesAllCalls(table: Table, xs: seq<Term>, ys: seq<Term>, n: nat, c: int)
    requires TableOk(table) && ReachesAll(table, xs, ys, n, c)
    ensures c >= NodesOf(xs) && |xs| == |ys|
    ensures c == NodesOf(xs) <==> forall k :: 0 <= k < |xs| ==> Irreducible(table, xs[k])
    ensures c == NodesOf(xs) ==> ys == xs
    decreases n, 1, xs
  {
    hide Irreducible, Reaches;
    if xs == [] {
    } else {
      var d: int :| Reaches(table, xs[0], ys[0], n, d) && ReachesAll(table, xs[1..], ys[1..], n, c - d);
      ReachesCalls(table, xs[0], ys[0], n, d);
      ReachesAllCalls(table, xs[1..], ys[1..], n, c - d);
      assert xs == [xs[0]] + xs[1..] && ys == [ys[0]] + ys[1..];
      assert forall k :: 0 < k < |xs| ==> xs[k] == xs[1..][k - 1];
    }
  }

  /** Any property of operators that the term and the lemmas have. */
  lemma {:induction false} ReachesOps(p: (string, nat) -> bool, table: Table, x: Term, y: Term, n: nat, c: int)
    requires TableOk(table) && Reaches(table, x, y, n, c) && AllOps(p, x) && TableOps(p, table)
    ensures AllOps(p, y)
    decreases n, 0, x
  {
    if x.App? {
      var m: nat := n - 1;
      var args, d: int :| ReachesAll(table, x.args, args, m, d) && ReachesTop(table, App(x.op, args), y, m, c - 1 - d);
      ReachesAllOps(p, table, x.args, args, m, d);
      ReachesTopOps(p, table, App(x.op, args), y, m, c - 1 - d);
    }
  }

  lemma {:induction false} ReachesTopOps(p: (string, nat) -> bool, table: Table, x: Term, y: Term, n: nat, c: int)
    requires TableOk(table) && x.App? && ReachesTop(table, x, y, n, c) && AllOps(p, x) && TableOps(p, table)
    ensures AllOps(p, y)
    decreases n, 1, x
  {
    hide Reaches;
    var lst := Lemmas(table, x.op);
    if k: nat, s :| FirstMatch(table, x, k, s) && Reaches(table, ApplySubst(s, lst[k].args[1]), y, n, c) {
      NextOps(p, s, lst[k], x);
      ReachesOps(p, table, ApplySubst(s, lst[k].args[1]), y, n, c);
    }
  }

  lemma {:induction false} ReachesAllOps(p: (string, nat) -> bool, table: Table, xs: seq<Term>, ys: seq<Term>, n: nat, c: int)
    requires TableOk(table) && ReachesAll(table, xs, ys, n, c) && AllOpsIn(p, xs) && TableOps(p, table)
    ensures |xs| == |ys| && AllOpsIn(p, ys)
    decreases n, 1, xs
  {
    if xs == [] {
    } else {
      var d: int :| Reaches(table, xs[0], ys[0], n, d) && ReachesAll(table, xs[1..], ys[1..], n, c - d);
      ReachesOps(p, table, xs[0], ys[0], n, d);
      ReachesAllOps(p, table, xs[1..], ys[1..], n, c - d);
    }
  }

  lemma NextOps(p: (string, nat) -> bool, s: Alist, l: Term, x: Term)
    requires l.App? && |l.args| >= 2 && Matching(s, l, x) && AllOps(p, x) && AllOps(p, l.args[1])
    ensures AllOps(p, ApplySubst(s, l.args[1]))
  {
    forall y: Term | Assq(y, s).Some? ensures AllOps(p, Assq(y, s).value) {
      BoundOps(p, s, l.args[0], x, y);
    }
    AppliedOps(p, s, l.args[1]);
  }

  // ----- normal form

  /** The lemma that moves an if out of the test of another. */
  const IF_LEMMA: Term :=
    App("equal", [App(IF, [App(IF, [Sym("a"), Sym("b"), Sym("c")]), Sym("d"), Sym("e")]),
                  App(IF, [Sym("a"), App(IF, [Sym("b"), Sym("d"), Sym("e")]), App(IF, [Sym("c"), Sym("d"), Sym("e")])])])

  /** With it on file, what cannot be rewritten is in the normal form that tautologyp decides. */
  lemma {:induction false} IrreducibleIsNormal(table: Table, y: Term)
    requires TableOk(table) && IF_LEMMA in Lemmas(table, IF) && Irreducible(table, y) && AllOps(JustThree, y)
    ensures Normal(y)
  {
    if IsIf(y) {
      var test := y.args[0];
      assert JustThree(y.op, |y.args|) && AllOpsIn(JustThree, y.args);
      assert AllOps(JustThree, test);
      if IsIf(test) {
        var k :| 0 <= k < |Lemmas(table, IF)| && Lemmas(table, IF)[k] == IF_LEMMA;
        assert NoInstance(IF_LEMMA, y);
        IfInstance(y);
        assert false;
      }
      IrreducibleIsNormal(table, y.args[1]);
      IrreducibleIsNormal(table, y.args[2]);
    }
  }

  /** An if whose test is an if is an instance of its left side. */
  lemma IfInstance(y: Term)
    requires IsIf(y) && |y.args| == 3 && IsIf(y.args[0]) && |y.args[0].args| == 3
    ensures !NoInstance(IF_LEMMA, y)
  {
    var t := y.args[0].args;
    var (a, b, c, d, e) := (Sym("a"), Sym("b"), Sym("c"), Sym("d"), Sym("e"));
    var s1: Alist := [(e, y.args[2])];
    var s2 := [(d, y.args[1])] + s1;
    var s3 := [(c, t[2])] + s2;
    var s4 := [(b, t[1])] + s3;
    var s := [(a, t[0])] + s4;
    BoundFirst(a, t[0], s4);
    BoundFirst(b, t[1], s3);
    BoundFirst(c, t[2], s2);
    BoundFirst(d, y.args[1], s1);
    assert Assq(e, s1) == Some(y.args[2]);
    AppliedIf(s, a, b, c);
    AppliedIf(s, App(IF, [a, b, c]), d, e);
    assert ApplySubst(s, IF_LEMMA.args[0]) == App(IF, [App(IF, [t[0], t[1], t[2]]), y.args[1], y.args[2]]);
    assert SymbolsOnly(s) && y.args[0].args == [t[0], t[1], t[2]] && y.args == [y.args[0], y.args[1], y.args[2]];
  }

  lemma BoundFirst(x: Term, t: Term, rest: Alist)
    ensures forall y :: Assq(y, [(x, t)] + rest) == if y == x then Some(t) else Assq(y, rest)
  {
    assert ([(x, t)] + rest)[1..] == rest;
  }

  lemma AppliedIf(s: Alist, x: Term, y: Term, z: Term)
    ensures ApplySubst(s, App(IF, [x, y, z])) == App(IF, [ApplySubst(s, x), ApplySubst(s, y), ApplySubst(s, z)])
  {
    var xs := [x, y, z];
    AppliedAt(s, xs, 0);
    AppliedAt(s, xs, 1);
    AppliedAt(s, xs, 2);
  }

  // ----- the cases of a call

  lemma NothingReached(table: Table, x: Term)
    requires TableOk(table)
    ensures forall y, c: int :: !Reaches(table, x, y, 0, c)
  {
  }

  lemma AtomReached(table: Table, x: Term, n: nat)
    requires TableOk(table) && n > 0 && !x.App?
    ensures Reaches(table, x, x, n, 1)
  {
  }

  lemma ArgsMissed(table: Table, x: Term, n: nat, m: nat)
    requires TableOk(table) && n == m + 1 && x.App?
    requires forall args, c: int :: !ReachesAll(table, x.args, args, m, c)
    ensures forall y, c: int :: !Reaches(table, x, y, n, c)
  {
  }

  lemma ThroughLemma(table: Table, x: Term, args: seq<Term>, c1: int, k: nat, s: Alist, y: Term, n: nat, c: int)
    requires TableOk(table) && n > 0 && x.App? && ReachesAll(table, x.args, args, n - 1, c1)
    requires FirstMatch(table, App(x.op, args), k, s)
    requires Reaches(table, ApplySubst(s, Lemmas(table, x.op)[k].args[1]), y, n - 1, c - 1 - c1)
    ensures Reaches(table, x, y, n, c)
  {
    assert ReachesTop(table, App(x.op, args), y, n - 1, c - 1 - c1);
  }

  lemma LemmaMissed(table: Table, x: Term, args: seq<Term>, c1: int, k: nat, s: Alist, n: nat, m: nat,
                    next: Term)
    requires TableOk(table) && n == m + 1 && x.App? && ReachesAll(table, x.args, args, m, c1)
    requires FirstMatch(table, App(x.op, args), k, s) && next == ApplySubst(s, Lemmas(table, x.op)[k].args[1])
    requires forall y, c: int :: !Reaches(table, next, y, m, c)
    ensures forall y, c: int :: !Reaches(table, x, y, n, c)
  {
    hide *;
    forall y, c: int ensures !Reaches(table, x, y, n, c) {
      if Reaches(table, x, y, n, c) {
        OnlyFirst(table, x, args, c1, k, s, y, n, c);
      }
    }
  }

  lemma OnlyFirst(table: Table, x: Term, args: seq<Term>, c1: int, k: nat, s: Alist, y: Term, n: nat, c: int)
    requires TableOk(table) && n > 0 && x.App? && ReachesAll(table, x.args, args, n - 1, c1)
    requires FirstMatch(table, App(x.op, args), k, s) && Reaches(table, x, y, n, c)
    ensures Reaches(table, ApplySubst(s, Lemmas(table, x.op)[k].args[1]), y, n - 1, c - 1 - c1)
  {
    hide ReachesAll, ReachesTop;
    var m: nat := n - 1;
    var args', d: int :| ReachesAll(table, x.args, args', m, d) && ReachesTop(table, App(x.op, args'), y, m, c - 1 - d);
    ReachesAllUnique(table, x.args, args, args', m, m, c1, d);
    OnlyThrough(table, App(x.op, args), k, s, y, m, c - 1 - c1);
  }

  lemma OnlyThrough(table: Table, x: Term, k: nat, s: Alist, y: Term, n: nat, c: int)
    requires TableOk(table) && x.App? && FirstMatch(table, x, k, s) && ReachesTop(table, x, y, n, c)
    ensures Reaches(table, ApplySubst(s, Lemmas(table, x.op)[k].args[1]), y, n, c)
  {
    hide Reaches;
    var lst := Lemmas(table, x.op);
    Instance(s, lst[k], x);
    var k': nat, s' :| FirstMatch(table, x, k', s') && Reaches(table, ApplySubst(s', lst[k'].args[1]), y, n, c);
    OneFirst(table, x, k, s, k', s', lst[k].args[1]);
  }

  lemma NoLemma(table: Table, x: Term, args: seq<Term>, c1: int, n: nat)
    requires TableOk(table) && n > 0 && x.App? && ReachesAll(table, x.args, args, n - 1, c1)
    requires NoneMatches(table, App(x.op, args), |Lemmas(table, x.op)|)
    ensures Reaches(table, x, App(x.op, args), n, 1 + c1)
  {
    assert ReachesTop(table, App(x.op, args), App(x.op, args), n - 1, 0);
  }

  class Rewriter {
    var table: Table
    const unifier: Unifier
    var count: nat

    constructor ()
      ensures table == map[] && count == 0 && fresh(unifier)
    {
      table, count := map[], 0;
      unifier := new Unifier();
    }

    /** Files a lemma under the operator of its left side, before those already there. */
    method AddLemma(term: Term) returns (ok: bool)
      requires TableOk(table) && (IsLemma(term) ==> |term.args| >= 2)
      modifies this`table
      ensures TableOk(table)
      ensures ok <==> term.App? && term.op == "equal" && |term.args| > 0 && term.args[0].App?
      ensures forall f :: Lemmas(table, f) ==
                if ok && f == term.args[0].op then [term] + old(Lemmas(table, f)) else old(Lemmas(table, f))
    {
      if !IsLemma(term) {
        return false;
      }
      var f := term.args[0].op;
      table := table[f := [term] + Lemmas(table, f)];
      return true;
    }

    /** Rewrites the arguments and then, with the first lemma whose left side matches, the term
        itself, and so on with the result.  None means that the calls are nested deeper than the
        fuel allows. */
    method Rewrite(term: Term, fuel: nat) returns (r: Option<Term>)
      requires TableOk(table)
      modifies this`count, unifier
      ensures r.Some? ==> Reaches(table, term, r.value, fuel, count - old(count))
      ensures r.None? ==> forall y, c: int :: !Reaches(table, term, y, fuel, c)
      ensures r.Some? ==> Same(table, term, r.value) && Irreducible(table, r.value)
      decreases fuel, 0
    {
      hide Reaches, ReachesAll, ReachesTop, Same, Eval, Irreducible;
      if fuel == 0 {
        NothingReached(table, term);
        return None;
      }
      count := count + 1;
      if !term.App? {
        AtomReached(table, term, fuel);
        ReachesSame(table, term, term, fuel, 1);
        return Some(term);
      }
      var args := RewriteArgs(term.args, fuel - 1);
      if args.None? {
        ArgsMissed(table, term, fuel, fuel - 1);
        return None;
      }
      ghost var c1 := count - old(count) - 1;
      var term' := App(term.op, args.value);
      var lst := Lemmas(table, term.op);
      AllFiled(table, term.op);
      for k := 0 to |lst|
        invariant NoneMatches(table, term', k) && count == old(count) + 1 + c1
      {
        var l := lst[k];
        assert Filed(table, term.op, k);
        unifier.subst := [];
        var matched := unifier.OneWayUnify1(term', l.args[0]);
        if matched {
          assert FirstMatch(table, term', k, unifier.subst);
          ghost var s := unifier.subst;
          var next := ApplySubst(unifier.subst, l.args[1]);
          r := Rewrite(next, fuel - 1);
          if r.Some? {
            ThroughLemma(table, term, args.value, c1, k, s, r.value, fuel, count - old(count));
            ReachesSame(table, term, r.value, fuel, count - old(count));
          } else {
            LemmaMissed(table, term, args.value, c1, k, s, fuel, fuel - 1, next);
          }
          return;
        }
        forall s | SymbolsOnly(s) ensures ApplySubst(s, l.args[0]) != term' {
          assert !Matches(s, [], l.args[0], term');
        }
      }
      NoLemma(table, term, args.value, c1, fuel);
      ReachesSame(table, term, term', fuel, 1 + c1);
      return Some(term');
    }

    method RewriteArgs(lst: seq<Term>, fuel: nat) returns (r: Option<seq<Term>>)
      requires TableOk(table)
      modifies this`count, unifier
      ensures r.Some? ==> ReachesAll(table, lst, r.value, fuel, count - old(count))
      ensures r.None? ==> forall ys, c: int :: !ReachesAll(table, lst, ys, fuel, c)
      ensures r.Some? ==> |r.value| == |lst|
      ensures r.Some? ==> forall k :: 0 <= k < |lst| ==> Same(table, lst[k], r.value[k]) && Irreducible(table, r.value[k])
      decreases fuel, 1, lst
    {
      hide Reaches, Same, Irreducible;
      if lst == [] {
        return Some([]);
      }
      var first := Rewrite(lst[0], fuel);
      if first.None? {
        return None;
      }
      ghost var c1 := count - old(count);
      var rest := RewriteArgs(lst[1..], fuel);
      if rest.None? {
        forall ys, c: int ensures !ReachesAll(table, lst, ys, fuel, c) {
        }
        return None;
      }
      r := Some([first.value] + rest.value);
      assert r.value[1..] == rest.value;
      assert Reaches(table, lst[0], r.value[0], fuel, c1);
      assert ReachesAll(table, lst[1..], r.value[1..], fuel, count - old(count) - c1);
      ReachesAllSame(table, lst, r.value, fuel, count - old(count));
    }

    /** The proof of one term, with the number of rewrites left in count.  The answer true means that
        the term holds in every model of the lemmas.  Any answer is that of the tautology checker
        for the one term that the term rewrites to; and that decides its truth under all
        valuations when the lemma about nested ifs is on file. */
    method Prove(term: Term, fuel: nat) returns (answer: Option<bool>)
      requires TableOk(table) && TableDeepFormed(table) && DeepFormed(term)
      modifies this`count, unifier
      ensures answer == Some(true) ==> Theorem(table, term)
      ensures answer.None? <==> forall y, c: int :: !Reaches(table, term, y, fuel, c)
      ensures answer.Some? ==>
                exists y :: Reaches(table, term, y, fuel, count) && WellFormed(y) && (answer.value <==> Tautology(y, [], []))
                            && (Normal(y) ==> (answer.value <==> forall v :: Holds(v, y)))
      ensures answer.Some? && IF_LEMMA in Lemmas(table, IF) && AllOps(JustThree, term) && TableOps(JustThree, table) ==>
                exists y :: Reaches(table, term, y, fuel, count) && (answer.value <==> forall v :: Holds(v, y))
    {
      hide Same, Theorem, Holds, Tautology, Reaches, Irreducible, Normal;
      count := 0;
      var r := Rewrite(term, fuel);
      if r.None? {
        return None;
      }
      ReachesSame(table, term, r.value, fuel, count);
      ReachesOps(ThreeParts, table, term, r.value, fuel, count);
      DeepIsWellFormed(r.value);
      var b := Tautologyp(r.value, [], []);
      if b {
        TautologyIsTheorem(table, term, r.value);
      }
      if Normal(r.value) {
        Decided(r.value);
      }
      if IF_LEMMA in Lemmas(table, IF) && AllOps(JustThree, term) && TableOps(JustThree, table) {
        ReachesOps(JustThree, table, term, r.value, fuel, count);
        IrreducibleIsNormal(table, r.value);
      }
      return Some(b);
    }
  }

  lemma SameItself(table: Table, x: Term)
    requires TableOk(table)
    ensures Same(table, x, x)
  {
  }
}
