/** The Splay benchmark itself: setting a tree up, replacing nodes, and the checks at the end.  What
    the random number generator returns is a list of keys; a run for which it is too short stops. */
module SplayBenchmark {
  import opened Arith
  import opened Common
  import opened SplayCost
  import opened SplayDraws
  import opened SplayShape
  import opened SplayTrees

  /** What is left of the keys. */
  ghost predicate Suffix(rest: seq<real>, keys: seq<real>)
    ensures Suffix(rest, keys) ==> |rest| <= |keys|
  {
    |rest| <= |keys| && rest == keys[|keys| - |rest|..]
  }

  lemma NoneAfterAll(mid: seq<real>, rest: seq<real>)
    requires Suffix(rest, mid)
    ensures mid == [] ==> rest == [] && mid[..|mid| - |rest|] == []
  {
  }

  lemma SuffixFrom(keys: seq<real>, i: nat)
    requires i <= |keys|
    ensures Suffix(keys[i..], keys) && keys[0..] == keys
  {
  }

  /** What has been drawn when mid and then rest are left. */
  lemma DrawnMore(rest: seq<real>, mid: seq<real>, keys: seq<real>)
    requires Suffix(rest, mid) && Suffix(mid, keys)
    ensures Suffix(rest, keys) && keys[..|keys| - |rest|] == keys[..|keys| - |mid|] + mid[..|mid| - |rest|]
  {
  }

  /** f shares for each of c keys. */
  ghost function Due(f: nat, c: nat, share: nat): nat {
    MulNonneg(c, share);
    f * (c * share)
  }

  /** Draws keys until one is new, and inserts it. */
  method InsertNewNode<V(0)>(tree: SplayTree<V>, keys: seq<real>, payload: real -> V)
    returns (key: Option<real>, rest: seq<real>)
    requires tree.Valid()
    modifies tree, tree.repr
    ensures tree.Valid() && fresh(tree.repr - old(tree.repr))
    ensures Suffix(rest, keys)
    ensures key.None? ==> rest == [] && tree.Model() == old(tree.Model()) && forall k :: k in keys ==> k in tree.Model()
    ensures key.Some? ==> |rest| < |keys| && key.value == keys[|keys| - |rest| - 1] && key.value !in old(tree.Model())
    ensures key.Some? ==> tree.Model() == old(tree.Model())[key.value := payload(key.value)]
    ensures key.Some? ==> forall i :: 0 <= i < |keys| - |rest| - 1 ==> keys[i] in old(tree.Model())
    ensures tree.Debt() <= old(tree.Debt()) + Due(3, |keys| - |rest|, Share(|old(tree.Model())| + 1))
  {
    hide *;
    ghost var n := |tree.Model()|;
    for i := 0 to |keys|
      invariant tree.Valid() && tree.repr == old(tree.repr) && tree.Model() == old(tree.Model())
      invariant forall j :: 0 <= j < i ==> keys[j] in old(tree.Model())
      invariant tree.Debt() <= old(tree.Debt()) + i * Share(n)
    {
      var found := tree.Find(keys[i]);
      if found == null {
        tree.Insert(keys[i], payload(keys[i]));
        InsertionShare(i, n);
        SuffixFrom(keys, i + 1);
        return Some(keys[i]), keys[i + 1..];
      }
    }
    FindShares(|keys|, n);
    SuffixFrom(keys, |keys|);
    return None, [];
  }

  /** One turn of the loop of SplayRun: a new node, and away with the one before it in order, or with
      itself if it comes first. */
  method ReplaceNode<V(0)>(tree: SplayTree<V>, keys: seq<real>, payload: real -> V)
    returns (key: Option<real>, rest: seq<real>)
    requires tree.Valid()
    modifies tree, tree.repr
    ensures tree.Valid() && fresh(tree.repr - old(tree.repr)) && |tree.Model()| == |old(tree.Model())|
    ensures Suffix(rest, keys)
    ensures key.None? ==> rest == [] && tree.Model() == old(tree.Model()) && forall k :: k in keys ==> k in tree.Model()
    ensures key.Some? ==> key.value !in old(tree.Model()) && |rest| < |keys| && key.value == keys[|keys| - |rest| - 1]
    ensures key.Some? ==>
              || (tree.Model() == old(tree.Model()) && forall k :: k in tree.Model() ==> key.value < k)
              || exists g :: GreatestBelow(old(tree.Model()), key.value, g) &&
                             tree.Model() == old(tree.Model())[key.value := payload(key.value)] - {g}
    ensures tree.Model() == Churned(old(tree.Model()), keys[..|keys| - |rest|], payload)
    ensures JustEnough(old(tree.Model()), keys[..|keys| - |rest|], 1, payload, rest == [])
    ensures tree.Debt() <= old(tree.Debt()) + Due(6, |keys| - |rest|, Share(|old(tree.Model())| + 1))
  {
    hide SplayTree.Valid, SplayTree.Model, SplayTree.Debt, Share, Log2, Churned, NewKeys, JustEnough, Replaced;
    ghost var m, n := tree.Model(), |tree.Model()|;
    key, rest := InsertNewNode(tree, keys, payload);
    ghost var c := |keys| - |rest|;
    if key == None {
      ReplaceShare(c, Share(n + 1));
      NoneDrawn(m, keys, payload);
      return;
    }
    var k := key.value;
    OneDrawn(m, keys, rest, payload);
    SizeWith(m, k, payload(k));
    var greatest := tree.FindGreatestLessThan(k);
    ReplaceShare(c, Share(n + 1));
    if greatest == null {
      NothingBelow(m, k, payload(k), tree.Model());
      ReplacedFirst(m, k, payload(k));
      var removed := tree.Remove(k);
    } else {
      SizeWithout(tree.Model(), greatest.key);
      GreatestOfOld(m, k, payload(k), tree.Model(), greatest.key);
      ReplacedBy(m, k, payload(k), greatest.key);
      var removed := tree.Remove(greatest.key);
    }
  }

  lemma NoneDrawn<V>(m: map<real, V>, keys: seq<real>, payload: real -> V)
    requires forall k :: k in keys ==> k in m
    ensures keys[..|keys| - 0] == keys && Churned(m, keys, payload) == m && JustEnough(m, keys, 1, payload, true)
  {
    NoneNew(m, keys, payload);
  }

  lemma OneDrawn<V>(m: map<real, V>, keys: seq<real>, rest: seq<real>, payload: real -> V)
    requires |rest| < |keys| && keys[|keys| - |rest| - 1] !in m
    requires forall i :: 0 <= i < |keys| - |rest| - 1 ==> keys[i] in m
    ensures var k := keys[|keys| - |rest| - 1];
            Churned(m, keys[..|keys| - |rest|], payload) == Replaced(m, k, payload(k))
    ensures JustEnough(m, keys[..|keys| - |rest|], 1, payload, rest == [])
  {
    UpToNew(m, keys[..|keys| - |rest|], payload);
  }

  /** The last key drawn had not been drawn before. */
  ghost predicate LastIsNew(drawn: seq<real>) {
    drawn == [] || drawn[|drawn| - 1] !in drawn[..|drawn| - 1]
  }

  /** A new tree of the given size; not complete when the keys run out. */
  method SplaySetup<V(0)>(size: nat, keys: seq<real>, payload: real -> V)
    returns (tree: SplayTree<V>, complete: bool, rest: seq<real>)
    ensures fresh(tree) && tree.Valid() && fresh(tree.repr)
    ensures if complete then |tree.Model()| == size else |tree.Model()| < size && rest == []
    ensures Suffix(rest, keys) && tree.Model() == Bindings(keys[..|keys| - |rest|], payload)
    ensures complete ==> LastIsNew(keys[..|keys| - |rest|])
    ensures tree.Debt() <= Due(3, |keys| - |rest|, Share(size))
  {
    hide *;
    tree := new SplayTree<V>();
    complete, rest := FillUp(tree, size, keys, payload);
  }

  method FillUp<V(0)>(tree: SplayTree<V>, size: nat, keys: seq<real>, payload: real -> V)
    returns (complete: bool, rest: seq<real>)
    requires tree.Valid() && tree.Model() == map[] && tree.Debt() == 0
    modifies tree, tree.repr
    ensures tree.Valid() && fresh(tree.repr - old(tree.repr))
    ensures if complete then |tree.Model()| == size else |tree.Model()| < size && rest == []
    ensures Suffix(rest, keys) && tree.Model() == Bindings(keys[..|keys| - |rest|], payload)
    ensures complete ==> LastIsNew(keys[..|keys| - |rest|])
    ensures tree.Debt() <= Due(3, |keys| - |rest|, Share(size))
  {
    hide *;
    ghost var s := Share(size);
    NothingDue(s);
    NothingBound(keys, payload);
    SuffixFrom(keys, 0);
    rest := keys;
    for i := 0 to size
      invariant tree.Valid() && fresh(tree.repr - old(tree.repr)) && |tree.Model()| == i
      invariant Suffix(rest, keys) && tree.Model() == Bindings(keys[..|keys| - |rest|], payload)
      invariant LastIsNew(keys[..|keys| - |rest|])
      invariant tree.Debt() <= Due(3, |keys| - |rest|, s)
    {
      ghost var m, mid := tree.Model(), rest;
      var key;
      key, rest := InsertNewNode(tree, rest, payload);
      DrawnMore(rest, mid, keys);
      BoundMore(keys, mid, rest, payload, key);
      ShareMonotone(|m| + 1, size);
      MoreShares(3, |keys| - |mid|, |mid| - |rest|, |keys| - |rest|, Share(|m| + 1), s);
      if key == None {
        return false, rest;
      }
      SizeWith(m, key.value, payload(key.value));
    }
    return true, rest;
  }

  lemma NothingBound<V>(keys: seq<real>, payload: real -> V)
    ensures keys[..0] == [] && Bindings(keys[..0], payload) == map[] && LastIsNew(keys[..0])
  {
  }

  /** What one insertion has drawn. */
  lemma BoundMore<V>(keys: seq<real>, mid: seq<real>, rest: seq<real>, payload: real -> V, key: Option<real>)
    requires Suffix(mid, keys) && Suffix(rest, mid)
    requires keys[..|keys| - |rest|] == keys[..|keys| - |mid|] + mid[..|mid| - |rest|]
    requires var m := Bindings(keys[..|keys| - |mid|], payload);
             if key.None? then rest == [] && forall k :: k in mid ==> k in m
             else
               && |rest| < |mid| && key.value == mid[|mid| - |rest| - 1] && key.value !in m
               && forall i :: 0 <= i < |mid| - |rest| - 1 ==> mid[i] in m
    ensures var m, m' := Bindings(keys[..|keys| - |mid|], payload), Bindings(keys[..|keys| - |rest|], payload);
            m' == if key.None? then m else m[key.value := payload(key.value)]
    ensures key.Some? ==> LastIsNew(keys[..|keys| - |rest|])
  {
    var a, b := keys[..|keys| - |mid|], mid[..|mid| - |rest|];
    forall i | 0 <= i < |b| - (if key.Some? then 1 else 0) ensures b[i] in a {
      assert b[i] == mid[i] && mid[i] in mid && mid[i] in Bindings(a, payload);
    }
    BindingsMore(a, b, payload);
    if key.Some? {
      var drawn := a + b;
      assert drawn[..|drawn| - 1] == a + b[..|b| - 1];
      assert forall k :: k in b[..|b| - 1] ==> k in a;
    }
  }

  /** Replaces as many nodes as it is told to, as long as there are keys; the tree stays as big as it was. */
  method SplayRun<V(0)>(tree: SplayTree<V>, modifications: nat, keys: seq<real>, payload: real -> V)
    returns (rest: seq<real>)
    requires tree.Valid()
    modifies tree, tree.repr
    ensures tree.Valid() && fresh(tree.repr - old(tree.repr)) && |tree.Model()| == |old(tree.Model())|
    ensures Suffix(rest, keys) && tree.Model() == Churned(old(tree.Model()), keys[..|keys| - |rest|], payload)
    ensures JustEnough(old(tree.Model()), keys[..|keys| - |rest|], modifications, payload, rest == [])
    ensures tree.Debt() <= old(tree.Debt()) + Due(6, |keys| - |rest|, Share(|old(tree.Model())| + 1))
  {
    hide *;
    ghost var m0, s := tree.Model(), Share(|tree.Model()| + 1);
    NothingDrawn(m0, payload, keys == []);
    assert keys[..0] == [];
    NothingDue(s);
    SuffixFrom(keys, 0);
    rest := keys;
    for i := 0 to modifications
      invariant tree.Valid() && fresh(tree.repr - old(tree.repr)) && |tree.Model()| == |old(tree.Model())|
      invariant Suffix(rest, keys) && tree.Model() == Churned(m0, keys[..|keys| - |rest|], payload)
      invariant JustEnough(m0, keys[..|keys| - |rest|], i, payload, rest == [])
      invariant tree.Debt() <= old(tree.Debt()) + Due(6, |keys| - |rest|, s)
    {
      ghost var mid := rest;
      var key;
      key, rest := ReplaceNode(tree, rest, payload);
      DrawnMore(rest, mid, keys);
      NoneAfterAll(mid, rest);
      MoreDrawn(m0, keys[..|keys| - |mid|], mid[..|mid| - |rest|], i, 1, payload, mid == [], rest == []);
      MoreShares(6, |keys| - |mid|, |mid| - |rest|, |keys| - |rest|, s, s);
    }
  }

  /** The checks at the end: whether the tree has the right size.  That its keys are sorted, which is
      checked next, never fails. */
  method SplayTearDown<V(0)>(tree: SplayTree<V>, size: nat) returns (r: Result<seq<real>>)
    requires tree.Valid()
    ensures r.Success? <==> |tree.Model()| == size
    ensures r.Success? ==> |r.value| == size && forall i, j :: 0 <= i < j < size ==> r.value[i] < r.value[j]
    ensures r.Success? ==> forall k :: k in r.value <==> k in tree.Model()
    ensures r.Failure? ==> r.message == "Splay tree has wrong size"
  {
    hide *;
    var keys := tree.ExportKeys();
    var length := |keys|;
    if length != size {
      return Failure("Splay tree has wrong size");
    }
    var i := 0;
    while i < length - 1
      invariant 0 <= i
    {
      if keys[i] >= keys[i + 1] {
        return Failure("Splay tree not sorted");
      }
      i := i + 1;
    }
    return Success(keys);
  }

  /** Any number of runs, one after the other. */
  method Rounds<V(0)>(tree: SplayTree<V>, rounds: nat, modifications: nat, keys: seq<real>, payload: real -> V)
    returns (rest: seq<real>)
    requires tree.Valid()
    modifies tree, tree.repr
    ensures tree.Valid() && fresh(tree.repr - old(tree.repr)) && |tree.Model()| == |old(tree.Model())|
    ensures Suffix(rest, keys) && tree.Model() == Churned(old(tree.Model()), keys[..|keys| - |rest|], payload)
    ensures JustEnough(old(tree.Model()), keys[..|keys| - |rest|], rounds * modifications, payload, rest == [])
    ensures tree.Debt() <= old(tree.Debt()) + Due(6, |keys| - |rest|, Share(|old(tree.Model())| + 1))
  {
    hide *;
    ghost var m0, s := tree.Model(), Share(|tree.Model()| + 1);
    NothingDrawn(m0, payload, keys == []);
    assert keys[..0] == [];
    NothingDue(s);
    SuffixFrom(keys, 0);
    rest := keys;
    for i := 0 to rounds
      invariant tree.Valid() && fresh(tree.repr - old(tree.repr)) && |tree.Model()| == |old(tree.Model())|
      invariant Suffix(rest, keys) && tree.Model() == Churned(m0, keys[..|keys| - |rest|], payload)
      invariant JustEnough(m0, keys[..|keys| - |rest|], i * modifications, payload, rest == [])
      invariant tree.Debt() <= old(tree.Debt()) + Due(6, |keys| - |rest|, s)
    {
      ghost var mid := rest;
      rest := SplayRun(tree, modifications, rest, payload);
      DrawnMore(rest, mid, keys);
      NoneAfterAll(mid, rest);
      MoreDrawn(m0, keys[..|keys| - |mid|], mid[..|mid| - |rest|], i * modifications, modifications, payload,
                mid == [], rest == []);
      Distrib(modifications, i, 1);
      MoreShares(6, |keys| - |mid|, |mid| - |rest|, |keys| - |rest|, s, s);
    }
  }

  /** The whole benchmark, with any number of runs; no result when the keys run out during the setup.
      The checks at the end never fail: the keys exported are those of the map that the drawn keys
      lead to, first as many as the setup takes and then those of all rounds.  The loop of the
      splay makes, for every key drawn, at most six times as many turns as the share of one splay
      of the largest tree. */
  method RunSplay<V(0)>(size: nat, modifications: nat, rounds: nat, keys: seq<real>, payload: real -> V)
    returns (r: Option<Result<seq<real>>>, first: nat, drawn: nat, ghost turns: nat)
    ensures first <= drawn <= |keys| && (r.None? ==> drawn == |keys|)
    ensures r.Some? ==> r.value.Success? && |r.value.value| == size
    ensures r.Some? ==> forall i, j :: 0 <= i < j < size ==> r.value.value[i] < r.value.value[j]
    ensures r.Some? ==> |Bindings(keys[..first], payload)| == size && LastIsNew(keys[..first])
    ensures r.Some? ==>
              && JustEnough(Bindings(keys[..first], payload), keys[first..drawn], rounds * modifications, payload, drawn == |keys|)
              && forall k :: k in r.value.value <==> k in Churned(Bindings(keys[..first], payload), keys[first..drawn], payload)
    ensures turns <= 6 * drawn * Share(size + 1)
  {
    hide *;
    ghost var s := Share(size + 1);
    var tree, complete, rest := SplaySetup(size, keys, payload);
    ShareMonotone(size, size + 1);
    SetupShare(|keys| - |rest|, Share(size), s);
    SuffixLength(rest, keys);
    first := |keys| - |rest|;
    if !complete {
      tree.DebtIs();
      DueIs(6, |keys|, s);
      return None, first, |keys|, tree.turns;
    }
    ghost var mid := rest;
    rest := Rounds(tree, rounds, modifications, rest, payload);
    MoreShares(6, first, |mid| - |rest|, |keys| - |rest|, s, s);
    DrawnSince(rest, mid, keys, first);
    DueIs(6, |keys| - |rest|, s);
    var checked := SplayTearDown(tree, size);
    tree.DebtIs();
    return Some(checked), first, |keys| - |rest|, tree.turns;
  }

  lemma SuffixLength(rest: seq<real>, keys: seq<real>)
    requires Suffix(rest, keys)
    ensures |rest| <= |keys|
  {
  }

  lemma DrawnSince(rest: seq<real>, mid: seq<real>, keys: seq<real>, first: nat)
    requires Suffix(rest, mid) && Suffix(mid, keys) && first == |keys| - |mid|
    ensures Suffix(rest, keys) && |rest| <= |mid|
    ensures keys[first..|keys| - |rest|] == mid[..|mid| - |rest|] && (|keys| - |rest| == |keys| <==> rest == [])
  {
  }

  lemma SizeWith<V>(m: map<real, V>, k: real, v: V)
    requires k !in m
    ensures |m[k := v]| == |m| + 1
  {
    assert m[k := v].Keys == m.Keys + {k};
  }

  lemma SizeWithout<V>(m: map<real, V>, k: real)
    requires k in m
    ensures |m - {k}| == |m| - 1
  {
    assert (m - {k}).Keys == m.Keys - {k};
  }

  lemma NothingBelow<V>(m: map<real, V>, k: real, v: V, m': map<real, V>)
    requires k !in m && m' == m[k := v] && forall j :: j in m' ==> k <= j
    ensures m' - {k} == m && forall j :: j in m ==> k < j
  {
    forall j | j in m ensures k < j {
      assert j in m';
    }
  }

  lemma GreatestOfOld<V>(m: map<real, V>, k: real, v: V, m': map<real, V>, g: real)
    requires k !in m && m' == m[k := v] && GreatestBelow(m', k, g)
    ensures GreatestBelow(m, k, g)
  {
    forall j | j in m ensures j <= g || k <= j {
      assert j in m';
    }
  }

  // ----- the shares of the operations

  lemma InsertionShare(i: nat, n: nat)
    ensures i * Share(n) + Share(n) + Share(n) + 2 * Log2(n + 2) <= Due(3, i + 1, Share(n + 1))
  {
    ShareMonotone(n, n + 1);
    Shares(i, Share(n), Share(n + 1), 2 * Log2(n + 2));
  }

  lemma Shares(i: nat, s: nat, s': nat, h: nat)
    requires s <= s' && h <= s'
    ensures i * s + s + s + h <= Due(3, i + 1, s')
  {
    MulLe(s, s', i);
    MulNonneg(i, s');
    Distrib(s', i, 1);
  }

  lemma FindShares(i: nat, n: nat)
    ensures i * Share(n) <= Due(3, i, Share(n + 1))
  {
    ShareMonotone(n, n + 1);
    MulLe(Share(n), Share(n + 1), i);
    MulNonneg(i, Share(n + 1));
  }

  lemma MoreShares(f: nat, c: nat, d: nat, e: nat, s: nat, s': nat)
    requires s <= s' && e == c + d
    ensures Due(f, c, s') + Due(f, d, s) <= Due(f, e, s')
  {
    MulLe(s, s', d);
    Distrib(s', c, d);
    MulLe(d * s, d * s', f);
    Distrib(f, c * s', d * s');
  }

  lemma NothingDue(s: nat)
    ensures Due(3, 0, s) == 0 && Due(6, 0, s) == 0
  {
  }

  lemma SetupShare(c: nat, s: nat, s': nat)
    requires s <= s'
    ensures Due(3, c, s) <= Due(6, c, s')
  {
    MulLe(s, s', c);
    MulNonneg(c, s');
  }

  lemma DueIs(f: nat, c: nat, s: nat)
    ensures Due(f, c, s) == f * c * s
  {
    Assoc(f, c, s);
  }

  lemma ReplaceShare(c: nat, s: nat)
    ensures Due(3, c, s) <= Due(6, c, s) && (c > 0 ==> Due(3, c, s) + 3 * s <= Due(6, c, s))
  {
    MulNonneg(c, s);
    if c > 0 {
      MulLe(1, c, s);
    }
  }
}
