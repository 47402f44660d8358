/** One-way matching: the substitution is built up in a global variable, here a field. */
module BoyerUnify {
  import opened Common
  import opened BoyerTerms

  lemma AppliedAll(alist: Alist, terms: seq<Term>, results: seq<Term>)
    ensures ApplySubstList(alist, terms) == results <==>
            |terms| == |results| && forall k :: 0 <= k < |terms| ==> ApplySubst(alist, terms[k]) == results[k]
  {
    forall k | 0 <= k < |terms| ensures ApplySubstList(alist, terms)[k] == ApplySubst(alist, terms[k]) {
      AppliedAt(alist, terms, k);
    }
  }

  /** The substitution s sends the pattern to the term, and agrees with what is bound already. */
  ghost predicate Matches(s: Alist, bound: Alist, pattern: Term, term: Term) {
    SymbolsOnly(s) && Agrees(s, bound) && ApplySubst(s, pattern) == term
  }

  /** Binding a symbol that was free. */
  lemma Bound(alist: Alist, x: Term, t: Term)
    requires SymbolsOnly(alist) && x.Sym? && Assq(x, alist).None?
    ensures var alist' := [(x, t)] + alist;
            SymbolsOnly(alist') && Extends(alist, alist') && ApplySubst(alist', x) == t && BindsAll(alist', x)
    ensures forall s: Alist :: Agrees(s, alist) && ApplySubst(s, x) == t ==> Agrees(s, [(x, t)] + alist)
  {
    var alist' := [(x, t)] + alist;
    assert alist'[1..] == alist;
    assert forall y :: Assq(y, alist') == if y == x then Some(t) else Assq(y, alist);
  }

  class Unifier {
    var subst: Alist

    constructor ()
      ensures subst == []
    {
      subst := [];
    }

    /** Tries to send the pattern term2 to term1.  It succeeds exactly when some substitution
        that agrees with the bindings so far does; and the bindings it then adds are those that
        every such substitution has. */
    method OneWayUnify1(term1: Term, term2: Term) returns (r: bool)
      requires SymbolsOnly(subst)
      modifies this
      ensures SymbolsOnly(subst) && Extends(old(subst), subst)
      ensures r ==> ApplySubst(subst, term2) == term1 && BindsAll(subst, term2)
      ensures r ==> forall s :: Matches(s, old(subst), term2, term1) ==> Agrees(s, subst)
      ensures !r ==> forall s :: !Matches(s, old(subst), term2, term1)
      ensures r ==> BindsOnly(old(subst), subst, term2)
      decreases term2
    {
      if !term2.App? {
        var temp := Assq(term2, subst);
        if temp.Some? {
          return TermEqual(term1, temp.value);
        } else if term2.Num? {
          NumbersUnbound(subst, term2);
          forall s | SymbolsOnly(s) ensures ApplySubst(s, term2) == term2 {
            NumbersUnbound(s, term2);
          }
          return term1 == term2;
        } else {
          Bound(subst, term2, term1);
          subst := [(term2, term1)] + subst;
          return true;
        }
      } else if !term1.App? {
        return false;
      } else if term1.op == term2.op {
        r := UnifyArgs(term1.args, term2.args);
        forall s: Alist
          ensures ApplySubst(s, term2) == term1 <==> MatchesAll(s, term2.args, term1.args)
        {
          AppliedAll(s, term2.args, term1.args);
        }
      } else {
        return false;
      }
    }

    /** The loop over the arguments. */
    method UnifyArgs(lst1: seq<Term>, lst2: seq<Term>) returns (r: bool)
      requires SymbolsOnly(subst)
      modifies this
      ensures SymbolsOnly(subst) && Extends(old(subst), subst)
      ensures r ==> MatchesAll(subst, lst2, lst1) && BindsAllOf(subst, lst2)
      ensures r ==> forall s :: SymbolsOnly(s) && Agrees(s, old(subst)) && MatchesAll(s, lst2, lst1) ==> Agrees(s, subst)
      ensures !r ==> forall s :: !(SymbolsOnly(s) && Agrees(s, old(subst)) && MatchesAll(s, lst2, lst1))
      ensures r ==> forall x: Term :: Assq(x, subst).Some? ==> Assq(x, old(subst)).Some? || OccursIn(x, lst2)
      decreases lst2
    {
      var k := 0;
      while true
        invariant 0 <= k <= |lst1| && k <= |lst2|
        invariant SymbolsOnly(subst) && Extends(old(subst), subst)
        invariant forall x: Term :: Assq(x, subst).Some? ==> Assq(x, old(subst)).Some? || OccursIn(x, lst2)
        invariant forall j :: 0 <= j < k ==> ApplySubst(subst, lst2[j]) == lst1[j] && BindsAll(subst, lst2[j])
        invariant forall s :: SymbolsOnly(s) && Agrees(s, old(subst)) && MatchesAll(s, lst2, lst1) ==> Agrees(s, subst)
        decreases |lst1| - k
      {
        if k == |lst1| {
          return k == |lst2|;
        } else if k == |lst2| {
          return false;
        }
        ghost var before := subst;
        r := OneWayUnify1(lst1[k], lst2[k]);
        if !r {
          forall s | SymbolsOnly(s) && Agrees(s, old(subst)) ensures !MatchesAll(s, lst2, lst1) {
            assert !Matches(s, before, lst2[k], lst1[k]);
          }
          return;
        }
        forall j | 0 <= j < k ensures ApplySubst(subst, lst2[j]) == lst1[j] && BindsAll(subst, lst2[j]) {
          ExtendedApply(before, subst, lst2[j]);
        }
        k := k + 1;
      }
    }
  }

  ghost predicate OccursIn(x: Term, patterns: seq<Term>) {
    exists k :: 0 <= k < |patterns| && Occurs(x, patterns[k])
  }

  ghost predicate MatchesAll(s: Alist, patterns: seq<Term>, terms: seq<Term>) {
    |patterns| == |terms| && forall k :: 0 <= k < |patterns| ==> ApplySubst(s, patterns[k]) == terms[k]
  }

  /** From the empty substitution: the match succeeds exactly when the term is an instance of the
      pattern, and then the substitution found makes it one. */
  method Match(term1: Term, term2: Term) returns (r: bool, subst: Alist)
    ensures r <==> exists s :: SymbolsOnly(s) && ApplySubst(s, term2) == term1
    ensures r ==> ApplySubst(subst, term2) == term1
  {
    var u := new Unifier();
    r := u.OneWayUnify1(term1, term2);
    subst := u.subst;
    if r {
      assert SymbolsOnly(subst) && ApplySubst(subst, term2) == term1;
    } else {
      forall s | SymbolsOnly(s) ensures ApplySubst(s, term2) != term1 {
        assert !Matches(s, [], term2, term1);
      }
    }
  }
}
