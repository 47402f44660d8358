/** Terms of the Boyer benchmark after translation, their equality, and substitution. */
module BoyerTerms {
  import opened Common

  /** An atom is a number or a symbol; every other term has an operator and arguments. */
  datatype Term = Num(n: int) | Sym(name: string) | App(op: string, args: seq<Term>)

  /** is-term-equal: operators are compared by identity, atoms by value. */
  function TermEqual(x: Term, y: Term): (r: bool)
    ensures r <==> x == y
  {
    if x.App? then y.App? && x.op == y.op && ArgsEqual(x.args, y.args) else x == y
  }

  function ArgsEqual(xs: seq<Term>, ys: seq<Term>): (r: bool)
    ensures r <==> xs == ys
  {
    if xs == [] then ys == []
    else if ys == [] then false
    else
      assert xs == ys <==> xs[0] == ys[0] && xs[1..] == ys[1..] by {
        assert xs == [xs[0]] + xs[1..] && ys == [ys[0]] + ys[1..];
      }
      TermEqual(xs[0], ys[0]) && ArgsEqual(xs[1..], ys[1..])
  }

  // ----- substitution

  /** An association list from atoms to terms; the first binding of an atom counts. */
  type Alist = seq<(Term, Term)>

  function Assq(x: Term, alist: Alist): Option<Term> {
    if alist == [] then None
    else if alist[0].0 == x then Some(alist[0].1)
    else Assq(x, alist[1..])
  }

  function ApplySubst(alist: Alist, term: Term): Term {
    if term.App? then App(term.op, ApplySubstList(alist, term.args))
    else
      var temp := Assq(term, alist);
      if temp.Some? then temp.value else term
  }

  function ApplySubstList(alist: Alist, terms: seq<Term>): (r: seq<Term>)
    ensures |r| == |terms|
  {
    if terms == [] then [] else [ApplySubst(alist, terms[0])] + ApplySubstList(alist, terms[1..])
  }

  /** Only symbols are bound; a number in a pattern stands for itself. */
  ghost predicate SymbolsOnly(alist: Alist) {
    forall k :: 0 <= k < |alist| ==> alist[k].0.Sym?
  }

  lemma {:induction false} NumbersUnbound(alist: Alist, x: Term)
    requires SymbolsOnly(alist) && !x.Sym?
    ensures Assq(x, alist) == None
  {
    if alist == [] {
    } else {
      NumbersUnbound(alist[1..], x);
    }
  }

  /** The symbols in a term. */
  ghost predicate Occurs(x: Term, term: Term) {
    if term.App? then exists k :: 0 <= k < |term.args| && Occurs(x, term.args[k]) else x == term
  }

  /** s agrees with what the association list binds. */
  ghost predicate Agrees(s: Alist, alist: Alist) {
    forall x: Term :: !x.App? && Assq(x, alist).Some? ==> ApplySubst(s, x) == Assq(x, alist).value
  }

  ghost predicate BindsAll(alist: Alist, term: Term) {
    forall x: Term :: x.Sym? && Occurs(x, term) ==> Assq(x, alist).Some?
  }

  ghost predicate BindsAllOf(alist: Alist, terms: seq<Term>) {
    forall k :: 0 <= k < |terms| ==> BindsAll(alist, terms[k])
  }

  /** The bindings of one list are among those of the other. */
  ghost predicate Extends(alist: Alist, alist': Alist) {
    forall x: Term :: Assq(x, alist).Some? ==> Assq(x, alist') == Assq(x, alist)
  }

  /** Bindings added later do not change what has been matched. */
  lemma {:induction false} ExtendedApply(alist: Alist, alist': Alist, term: Term)
    requires Extends(alist, alist') && BindsAll(alist, term) && SymbolsOnly(alist) && SymbolsOnly(alist')
    ensures ApplySubst(alist', term) == ApplySubst(alist, term)
    decreases term
  {
    if term.App? {
      forall k | 0 <= k < |term.args| ensures BindsAll(alist, term.args[k]) {
      }
      ExtendedApplyList(alist, alist', term.args);
    } else if term.Num? {
      NumbersUnbound(alist, term);
      NumbersUnbound(alist', term);
    } else {
      assert Occurs(term, term);
    }
  }

  lemma {:induction false} ExtendedApplyList(alist: Alist, alist': Alist, terms: seq<Term>)
    requires Extends(alist, alist') && BindsAllOf(alist, terms) && SymbolsOnly(alist) && SymbolsOnly(alist')
    ensures ApplySubstList(alist', terms) == ApplySubstList(alist, terms)
    decreases terms
  {
    if terms == [] {
    } else {
      assert BindsAll(alist, terms[0]);
      ExtendedApply(alist, alist', terms[0]);
      assert BindsAllOf(alist, terms[1..]);
      ExtendedApplyList(alist, alist', terms[1..]);
    }
  }

  /** The list binds nothing but what it did and atoms of the pattern. */
  ghost predicate BindsOnly(alist: Alist, alist': Alist, pattern: Term) {
    forall x: Term :: Assq(x, alist').Some? ==> Assq(x, alist).Some? || Occurs(x, pattern)
  }

  // ----- what holds of every operator in a term

  const IF := "if"

  /** p holds of every operator and the number of its arguments. */
  ghost predicate AllOps(p: (string, nat) -> bool, x: Term) {
    x.App? ==> p(x.op, |x.args|) && AllOpsIn(p, x.args)
  }

  ghost predicate AllOpsIn(p: (string, nat) -> bool, xs: seq<Term>) {
    forall k :: 0 <= k < |xs| ==> AllOps(p, xs[k])
  }

  /** Every if has the three parts that the code takes without looking. */
  predicate ThreeParts(op: string, args: nat) {
    op == IF ==> args >= 3
  }

  /** No if has more. */
  predicate JustThree(op: string, args: nat) {
    op == IF ==> args == 3
  }

  ghost predicate DeepFormed(x: Term) {
    AllOps(ThreeParts, x)
  }

  /** What is bound when a pattern becomes a term is a part of the term. */
  lemma {:induction false} BoundOps(p: (string, nat) -> bool, s: Alist, pattern: Term, x: Term, y: Term)
    requires ApplySubst(s, pattern) == x && AllOps(p, x) && Occurs(y, pattern)
    ensures Assq(y, s).Some? ==> AllOps(p, Assq(y, s).value)
    decreases pattern
  {
    if pattern.App? {
      var k :| 0 <= k < |pattern.args| && Occurs(y, pattern.args[k]);
      AppliedAt(s, pattern.args, k);
      BoundOps(p, s, pattern.args[k], x.args[k], y);
    }
  }

  lemma {:induction false} AppliedOps(p: (string, nat) -> bool, s: Alist, term: Term)
    requires forall y: Term :: Assq(y, s).Some? ==> AllOps(p, Assq(y, s).value)
    requires AllOps(p, term)
    ensures AllOps(p, ApplySubst(s, term))
    decreases term
  {
    if term.App? {
      AppliedOpsIn(p, s, term.args);
    }
  }

  lemma {:induction false} AppliedOpsIn(p: (string, nat) -> bool, s: Alist, terms: seq<Term>)
    requires forall y: Term :: Assq(y, s).Some? ==> AllOps(p, Assq(y, s).value)
    requires AllOpsIn(p, terms)
    ensures AllOpsIn(p, ApplySubstList(s, terms))
    decreases terms
  {
    if terms == [] {
    } else {
      AppliedOps(p, s, terms[0]);
      AppliedOpsIn(p, s, terms[1..]);
    }
  }

  lemma {:induction false} AppliedAt(alist: Alist, terms: seq<Term>, k: nat)
    requires k < |terms|
    ensures ApplySubstList(alist, terms)[k] == ApplySubst(alist, terms[k])
  {
    if k == 0 {
    } else {
      AppliedAt(alist, terms[1..], k - 1);
    }
  }
}
