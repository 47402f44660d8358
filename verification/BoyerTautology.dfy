/** The tautology checker on if-terms. */
module BoyerTautology {
  import opened BoyerTerms

  const TRUE := App("t", [])
  const FALSE := App("f", [])

  predicate IsIf(x: Term) {
    x.App? && x.op == IF
  }

  /** Every if has its three parts, which the code takes without looking. */
  ghost predicate WellFormed(x: Term) {
    IsIf(x) ==> |x.args| >= 3 && WellFormed(x.args[0]) && WellFormed(x.args[1]) && WellFormed(x.args[2])
  }

  /** The truth of a term, where v says which terms that are not ifs hold. */
  ghost predicate Holds(v: Term -> bool, x: Term) {
    if x == TRUE then true
    else if x == FALSE then false
    else if IsIf(x) && |x.args| >= 3 then (if Holds(v, x.args[0]) then Holds(v, x.args[1]) else Holds(v, x.args[2]))
    else v(x)
  }

  /** v makes every term of the one list true and every term of the other false. */
  ghost predicate Satisfies(v: Term -> bool, trueLst: seq<Term>, falseLst: seq<Term>) {
    (forall t :: t in trueLst ==> Holds(v, t)) && (forall t :: t in falseLst ==> !Holds(v, t))
  }

  ghost predicate Atomic(x: Term) {
    !IsIf(x) && x != TRUE && x != FALSE
  }

  /** No test of an if is itself an if. */
  ghost predicate Normal(x: Term) {
    IsIf(x) ==> |x.args| >= 3 && !IsIf(x.args[0]) && Normal(x.args[1]) && Normal(x.args[2])
  }

  ghost predicate Consistent(trueLst: seq<Term>, falseLst: seq<Term>) {
    (forall t :: t in trueLst ==> Atomic(t) && t !in falseLst) && (forall t :: t in falseLst ==> Atomic(t))
  }

  method IsTermMember(x: Term, lst: seq<Term>) returns (b: bool)
    ensures b <==> x in lst
  {
    for k := 0 to |lst|
      invariant x !in lst[..k]
    {
      if TermEqual(x, lst[k]) {
        return true;
      }
    }
    return false;
  }

  /** The valuation in which just the listed terms hold. */
  ghost function Only(trueLst: seq<Term>): Term -> bool {
    t => t in trueLst
  }

  lemma OnlySatisfies(trueLst: seq<Term>, falseLst: seq<Term>)
    requires Consistent(trueLst, falseLst)
    ensures Satisfies(Only(trueLst), trueLst, falseLst)
  {
  }

  /** What the checker answers for a term when the atoms of one list are taken to be true and those
      of the other to be false: an atom that is tested is tried both ways. */
  ghost predicate Tautology(x: Term, trueLst: seq<Term>, falseLst: seq<Term>)
    requires WellFormed(x)
    decreases x
  {
    if x == TRUE || x in trueLst then true
    else if x == FALSE || x in falseLst || !IsIf(x) then false
    else
      var test := x.args[0];
      if test == TRUE || test in trueLst then Tautology(x.args[1], trueLst, falseLst)
      else if test == FALSE || test in falseLst then Tautology(x.args[2], trueLst, falseLst)
      else Tautology(x.args[1], [test] + trueLst, falseLst) && Tautology(x.args[2], trueLst, [test] + falseLst)
  }

  lemma {:induction false} TautologySound(x: Term, trueLst: seq<Term>, falseLst: seq<Term>, v: Term -> bool)
    requires WellFormed(x) && Tautology(x, trueLst, falseLst) && Satisfies(v, trueLst, falseLst)
    ensures Holds(v, x)
    decreases x
  {
    if x == TRUE || x in trueLst {
    } else {
      var test := x.args[0];
      if test == TRUE || test in trueLst {
        TautologySound(x.args[1], trueLst, falseLst, v);
      } else if test == FALSE || test in falseLst {
        TautologySound(x.args[2], trueLst, falseLst, v);
      } else if Holds(v, test) {
        TautologySound(x.args[1], [test] + trueLst, falseLst, v);
      } else {
        TautologySound(x.args[2], trueLst, [test] + falseLst, v);
      }
    }
  }

  lemma {:induction false} Falsified(x: Term, trueLst: seq<Term>, falseLst: seq<Term>) returns (v: Term -> bool)
    requires WellFormed(x) && !Tautology(x, trueLst, falseLst) && Normal(x) && Consistent(trueLst, falseLst)
    ensures Satisfies(v, trueLst, falseLst) && !Holds(v, x)
    decreases x
  {
    OnlySatisfies(trueLst, falseLst);
    v := Only(trueLst);
    if x == FALSE || x in falseLst || !IsIf(x) {
    } else {
      var test := x.args[0];
      if test == TRUE || test in trueLst {
        v := Falsified(x.args[1], trueLst, falseLst);
      } else if test == FALSE || test in falseLst {
        v := Falsified(x.args[2], trueLst, falseLst);
      } else if !Tautology(x.args[1], [test] + trueLst, falseLst) {
        v := Falsified(x.args[1], [test] + trueLst, falseLst);
        assert test in [test] + trueLst && forall t :: t in trueLst ==> t in [test] + trueLst;
      } else {
        v := Falsified(x.args[2], trueLst, [test] + falseLst);
        assert test in [test] + falseLst && forall t :: t in falseLst ==> t in [test] + falseLst;
      }
    }
  }

  lemma TautologyMeans(x: Term, trueLst: seq<Term>, falseLst: seq<Term>)
    requires WellFormed(x)
    ensures Tautology(x, trueLst, falseLst) ==> forall v :: Satisfies(v, trueLst, falseLst) ==> Holds(v, x)
    ensures !Tautology(x, trueLst, falseLst) && Normal(x) && Consistent(trueLst, falseLst) ==>
              exists v :: Satisfies(v, trueLst, falseLst) && !Holds(v, x)
  {
    if Tautology(x, trueLst, falseLst) {
      forall v | Satisfies(v, trueLst, falseLst) ensures Holds(v, x) {
        TautologySound(x, trueLst, falseLst, v);
      }
    } else if Normal(x) && Consistent(trueLst, falseLst) {
      var v := Falsified(x, trueLst, falseLst);
    }
  }

  /** The answer true means that the term holds under every valuation that goes with the lists.
      The answer false, on a normal term and consistent lists of atoms, means that some such
      valuation falsifies it. */
  method Tautologyp(x0: Term, trueLst: seq<Term>, falseLst0: seq<Term>) returns (b: bool)
    requires WellFormed(x0)
    ensures b ==> forall v :: Satisfies(v, trueLst, falseLst0) ==> Holds(v, x0)
    ensures !b && Normal(x0) && Consistent(trueLst, falseLst0) ==>
              exists v :: Satisfies(v, trueLst, falseLst0) && !Holds(v, x0)
    ensures b <==> Tautology(x0, trueLst, falseLst0)
    decreases x0
  {
    TautologyMeans(x0, trueLst, falseLst0);
    var x, falseLst := x0, falseLst0;
    while true
      invariant WellFormed(x) && (x == x0 || x < x0)
      invariant Tautology(x, trueLst, falseLst) <==> Tautology(x0, trueLst, falseLst0)
      decreases x
    {
      var isTrue := IsTermMember(x, trueLst);
      if TermEqual(x, TRUE) || isTrue {
        return true;
      }
      var isFalse := IsTermMember(x, falseLst);
      if TermEqual(x, FALSE) || isFalse {
        return false;
      }
      if !x.App? || x.op != IF {
        return false;
      }
      var test := x.args[0];
      isTrue := IsTermMember(test, trueLst);
      if TermEqual(test, TRUE) || isTrue {
        x := x.args[1];
        continue;
      }
      isFalse := IsTermMember(test, falseLst);
      if TermEqual(test, FALSE) || isFalse {
        x := x.args[2];
        continue;
      }
      var whenTrue := Tautologyp(x.args[1], [test] + trueLst, falseLst);
      if !whenTrue {
        return false;
      }
      falseLst := [test] + falseLst;
      x := x.args[2];
    }
  }
}
