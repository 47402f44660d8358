/** The forward pass of the Earley parser: the work on one state of the chart. */
module EarleyForward {
  import opened Common
  import opened EarleyGrammar
  import opened EarleyState

  // ----- what the work on a state keeps, on values

  /** The origins of each configuration, old and new. */
  ghost function Join(olds: seq<seq<int>>, news: seq<seq<int>>): (all: seq<seq<int>>)
    requires |olds| == |news|
    ensures |all| == |olds|
  {
    seq(|olds|, c requires 0 <= c < |olds| => olds[c] + news[c])
  }

  ghost predicate SoundSet(G: seq<Rule<nat>>, toks: seq<seq<nat>>, T: Tables, L: Layout, s: seq<int>, c: int, j: nat) {
    forall i :: i in s ==> Item(G, toks, T, L, c, i, j)
  }

  ghost predicate Sound(G: seq<Rule<nat>>, toks: seq<seq<nat>>, T: Tables, L: Layout, sets: seq<seq<int>>, j: nat) {
    forall c :: 0 <= c < |sets| ==> SoundSet(G, toks, T, L, sets[c], c, j)
  }

  /** Only new origins were added. */
  ghost predicate Grown(olds0: seq<seq<int>>, news0: seq<seq<int>>, olds: seq<seq<int>>, news: seq<seq<int>>) {
    olds == olds0 && |news| == |news0| && forall c :: 0 <= c < |news| ==> news0[c] <= news[c]
  }

  lemma JoinGrows(olds: seq<seq<int>>, news0: seq<seq<int>>, news: seq<seq<int>>)
    requires |olds| == |news0| && Grown(olds, news0, olds, news)
    ensures forall c, i :: 0 <= c < |olds| && i in Join(olds, news0)[c] ==> i in Join(olds, news)[c]
  {
    forall c, i | 0 <= c < |olds| && i in Join(olds, news0)[c] ensures i in Join(olds, news)[c] {
      if i !in olds[c] {
        assert i in news0[c];
        var k :| 0 <= k < |news0[c]| && news0[c][k] == i;
        assert news[c][k] == i;
      }
    }
  }

  // ----- the steps

  /** conf-set-get* and then conf-set-adjoin, if the origin is not there yet. */
  method Put(st: State, c: nat, i: nat)
    requires st.Valid() && c < st.sets.Length && i <= st.num
    modifies st, st.repr
    ensures st.Valid() && fresh(st.repr - old(st.repr)) && st.sets[c] != null && st.olds == old(st.olds)
    ensures |old(st.news)| == |st.olds| == st.sets.Length
    ensures st.news == if i in old(st.All(c)) then old(st.news) else old(st.news)[c := old(st.news)[c] + [i]]
    ensures old(st.Filled()) ==> st.Filled()
  {
    var a := st.Get(c);
    var present := st.Has(c, i);
    if !present {
      st.Adjoin(c, i);
    }
  }

  /** A grammar with its tables, and the categories of the tokens. */
  datatype Problem = Problem(G: seq<Rule<nat>>, toks: seq<seq<nat>>, T: Tables, L: Layout)

  ghost predicate Posed(P: Problem, T: Tables) {
    P.T == T && Fits(P.G, T, P.L)
  }

  /** A state of the chart of the problem, with only sound origins. */
  ghost predicate Ready(P: Problem, st: State)
    reads st, st.repr
  {
    && st.Valid() && st.sets.Length == |P.T.steps| && |st.olds| == |st.news| == |P.T.steps|
    && Sound(P.G, P.toks, P.T, P.L, Join(st.olds, st.news), st.num)
  }

  lemma PutSound(P: Problem, olds: seq<seq<int>>, news: seq<seq<int>>, c: nat, i: int, j: nat)
    requires |olds| == |news| && c < |olds| && Sound(P.G, P.toks, P.T, P.L, Join(olds, news), j)
    requires Item(P.G, P.toks, P.T, P.L, c, i, j)
    ensures Sound(P.G, P.toks, P.T, P.L, Join(olds, news[c := news[c] + [i]]), j)
    ensures Grown(olds, news, olds, news[c := news[c] + [i]])
    ensures i in Join(olds, news[c := news[c] + [i]])[c]
  {
    hide Item;
    var all, all' := Join(olds, news), Join(olds, news[c := news[c] + [i]]);
    forall d | 0 <= d < |all'| ensures SoundSet(P.G, P.toks, P.T, P.L, all'[d], d, j) {
      assert SoundSet(P.G, P.toks, P.T, P.L, all[d], d, j);
    }
  }

  /** A sound origin is put into configuration c. */
  method PutItem(st: State, c: nat, i: nat, ghost P: Problem)
    requires Ready(P, st) && c < |P.T.steps| && i <= st.num && Item(P.G, P.toks, P.T, P.L, c, i, st.num)
    modifies st, st.repr
    ensures Ready(P, st) && fresh(st.repr - old(st.repr)) && i in st.All(c)
    ensures Grown(old(st.olds), old(st.news), st.olds, st.news)
    ensures |old(st.olds)| == |old(st.news)| == |P.T.steps|
    ensures st.news == if i in old(st.All(c)) then old(st.news) else old(st.news)[c := old(st.news)[c] + [i]]
    ensures old(st.Filled()) ==> st.Filled()
  {
    hide Item, Good;
    PutSound(P, st.olds, st.news, c, i, st.num);
    Put(st, c, i);
  }

  /** Prediction: every rule for the symbol starts here. */
  method Predict(st: State, T: Tables, nt: nat, ghost P: Problem)
    requires Posed(P, T) && Ready(P, st) && nt < T.nts
    modifies st, st.repr
    ensures Ready(P, st) && fresh(st.repr - old(st.repr))
    ensures Grown(old(st.olds), old(st.news), st.olds, st.news)
    ensures Started(T, Join(st.olds, st.news), st.num, nt)
  {
    hide Item, Good, Sound;
    var l := T.starters[nt];
    var k := 0;
    assert SymbolOk(P.G, T, P.L, nt);
    while k < |l|
      invariant 0 <= k <= |l| && Ready(P, st) && fresh(st.repr - old(st.repr))
      invariant Grown(old(st.olds), old(st.news), st.olds, st.news)
      invariant forall m :: 0 <= m < k ==> l[m] < |P.T.steps| && st.num in Join(st.olds, st.news)[l[m]]
    {
      ghost var olds, news := st.olds, st.news;
      ItemStart(P.G, P.toks, T, P.L, nt, l[k], st.num);
      PutItem(st, l[k], st.num, P);
      JoinGrows(olds, news, st.news);
      k := k + 1;
    }
  }

  /** conf-set-union: the old origins of configuration oc of another state, or of this one, are
      put into c. */
  method Union(st: State, c: nat, other: State, oc: nat, ghost P: Problem)
    requires Ready(P, st) && c < |P.T.steps| && other.Valid() && oc < other.sets.Length && other.sets[oc] != null
    requires other == st ==> oc != c
    requires other != st ==> other !in st.repr && other.repr !! st.repr && st !in other.repr
    requires other.num <= st.num
    requires |other.olds| == other.sets.Length && forall i :: i in other.olds[oc] ==> Item(P.G, P.toks, P.T, P.L, c, i, st.num)
    modifies st, st.repr
    ensures Ready(P, st) && fresh(st.repr - old(st.repr))
    ensures Grown(old(st.olds), old(st.news), st.olds, st.news)
    ensures forall i :: i in other.olds[oc] ==> i in Join(st.olds, st.news)[c]
  {
    hide Item, Good, Sound, State.Filled;
    ghost var list, k := other.olds[oc], 0;
    other.OldHead(oc);
    other.InBounds(oc);
    var i := other.sets[oc][2];
    while i >= 0
      invariant 0 <= k <= |list| && i == (if k < |list| then list[k] else -1)
      invariant Ready(P, st) && fresh(st.repr - old(st.repr)) && other.Valid() && other.olds[oc] == list
      invariant Grown(old(st.olds), old(st.news), st.olds, st.news)
      invariant forall m :: 0 <= m < k ==> list[m] in Join(st.olds, st.news)[c]
      decreases |list| - k
    {
      ghost var olds, news := st.olds, st.news;
      other.OldLink(oc, k);
      PutItem(st, c, i, P);
      JoinGrows(olds, news, st.news);
      other.OldLink(oc, k);
      i := other.sets[oc][i + 5];
      k := k + 1;
    }
  }

  lemma SoundAt(P: Problem, st: State, c: nat, i: int)
    requires Ready(P, st) && c < |P.T.steps| && i in st.All(c)
    ensures Item(P.G, P.toks, P.T, P.L, c, i, st.num)
  {
    assert SoundSet(P.G, P.toks, P.T, P.L, Join(st.olds, st.news)[c], c, st.num);
  }

  /** The symbol after the dot of c spans k..j: the dot moves over it. */
  lemma Advanced(P: Problem, other: State, c: nat, e: nat, nt: nat, st: State)
    requires Fits(P.G, P.T, P.L) && Ready(P, other) && Ready(P, st) && nt < P.T.nts
    requires c < |P.T.steps| && P.T.steps[c] == nt && e in P.T.enders[nt] && e < |P.T.steps| && other.num in st.All(e)
    ensures c + 1 < |P.T.steps|
    ensures forall i :: i in other.olds[c] ==> Item(P.G, P.toks, P.T, P.L, c + 1, i, st.num)
  {
    StepInside(P.G, P.T, P.L, c);
    SoundAt(P, st, e, other.num);
    ItemEnd(P.G, P.toks, P.T, P.L, nt, e, other.num, st.num);
    forall i | i in other.olds[c] ensures Item(P.G, P.toks, P.T, P.L, c + 1, i, st.num) {
      SoundAt(P, other, c, i);
      ItemAdvance(P.G, P.toks, P.T, P.L, nt, c, i, other.num, st.num);
    }
  }

  /** If the symbol after the dot of c is known to derive nothing here, the dot moves over it at
      once. */
  method CompleteEmpty(st: State, T: Tables, c: nat, nt: nat, ghost P: Problem)
    requires Posed(P, T) && Ready(P, st) && nt < T.nts && c < |T.steps| && T.steps[c] == nt && st.olds[c] != []
    modifies st, st.repr
    ensures Ready(P, st) && fresh(st.repr - old(st.repr))
    ensures Grown(old(st.olds), old(st.news), st.olds, st.news)
    ensures c + 1 < |T.steps|
    ensures forall e :: e in T.enders[nt] && e < |T.steps| && st.num in old(Join(st.olds, st.news))[e] ==>
              forall i :: i in st.olds[c] ==> i in Join(st.olds, st.news)[c + 1]
  {
    hide Item, Good, Sound;
    var l := T.enders[nt];
    var k := 0;
    assert SymbolOk(P.G, T, P.L, nt);
    forall m | 0 <= m < |l| ensures l[m] < |T.steps| {
      assert l[m] in T.enders[nt];
    }
    StepInside(P.G, T, P.L, c);
    while k < |l|
      invariant 0 <= k <= |l| && Ready(P, st) && fresh(st.repr - old(st.repr))
      invariant Grown(old(st.olds), old(st.news), st.olds, st.news)
      invariant forall m :: 0 <= m < k && l[m] < |T.steps| && st.num in old(Join(st.olds, st.news))[l[m]] ==>
                  forall i :: i in st.olds[c] ==> i in Join(st.olds, st.news)[c + 1]
    {
      ghost var olds, news := st.olds, st.news;
      var present := st.Has(l[k], st.num);
      if present {
        Advanced(P, st, c, l[k], nt, st);
        var next := st.Get(c + 1);
        st.HasSet(c);
        Union(st, c + 1, st, c, P);
      }
      JoinGrows(old(st.olds), old(st.news), news);
      JoinGrows(olds, news, st.news);
      k := k + 1;
    }
  }

  // ----- completion

  /** The states up to and including j, of which only the last is being worked on. */
  ghost predicate UpTo(P: Problem, chart: seq<State>, j: nat)
    requires j < |chart|
    reads chart, set k, o | 0 <= k < |chart| && o in chart[k].repr :: o
  {
    && (forall k :: 0 <= k <= j ==> Ready(P, chart[k]) && chart[k].num == k)
    && (forall k :: 0 <= k < j ==> Disjoint(chart[k], chart[j]))
  }

  ghost predicate Disjoint(s: State, t: State)
    reads s, t
  {
    s != t && s !in t.repr && t !in s.repr && s.repr !! t.repr
  }

  /** What the old origins of c in state k are passed on to. */
  ghost predicate PassedOn(olds: seq<seq<int>>, all: seq<seq<int>>, c: nat)
    requires c + 1 < |all| && c < |olds|
  {
    forall i :: i in olds[c] ==> i in all[c + 1]
  }

  /** The configuration e is finished: for each of its new origins, the dot moves over its head
      wherever that was asked for there. */
  method CompleteOne(chart: seq<State>, j: nat, T: Tables, c: nat, e: nat, head: int, ghost o: seq<int>, ghost n: seq<int>,
                     ghost P: Problem)
    requires j < |chart| && Posed(P, T) && UpTo(P, chart, j) && c < |T.steps| && e < |T.steps|
    requires 0 <= T.steps[c] && T.steps[e] == T.steps[c] - T.nts
    requires chart[j].olds[e] == o + n && n != [] && head == n[0]
    modifies chart[j], chart[j].repr
    ensures UpTo(P, chart, j) && fresh(chart[j].repr - old(chart[j].repr))
    ensures Grown(old(chart[j].olds), old(chart[j].news), chart[j].olds, chart[j].news)
    ensures c + 1 < |T.steps|
    ensures forall k :: k in n ==> 0 <= k <= j && PassedOn(chart[k].olds, Join(chart[j].olds, chart[j].news), c)
  {
    hide Item, Good, Sound;
    var st := chart[j];
    StepInside(P.G, T, P.L, c);
    forall l | 0 <= l < |n| ensures 0 <= n[l] <= j {
      ChainAt(st, e, o, n, l);
    }
    var i := head;
    ghost var m := 0;
    while i >= 0
      invariant 0 <= m <= |n| && i == (if m < |n| then n[m] else -1)
      invariant UpTo(P, chart, j) && fresh(st.repr - old(st.repr))
      invariant Grown(old(st.olds), old(st.news), st.olds, st.news)
      invariant forall l :: 0 <= l < m ==> 0 <= n[l] <= j && PassedOn(chart[n[l]].olds, Join(st.olds, st.news), c)
      decreases |n| - m
    {
      ghost var olds, news := st.olds, st.news;
      ChainAt(st, e, o, n, m);
      CompleteFrom(chart, i, j, T, c, e, P);
      JoinGrows(olds, news, st.news);
      ChainAt(st, e, o, n, m);
      i := st.sets[e][i + 5];
      m := m + 1;
    }
  }

  /** The new origins are the end of the old list after the merge. */
  lemma ChainAt(st: State, e: nat, o: seq<int>, n: seq<int>, m: nat)
    requires st.Valid() && e < st.sets.Length == |st.olds| && st.olds[e] == o + n && m < |n|
    ensures st.sets[e] != null && st.sets[e].Length == st.num + 6 && 0 <= n[m] <= st.num
    ensures n[m] in st.All(e) && |st.news| == |st.olds|
    ensures st.sets[e][n[m] + 5] == if m + 1 < |n| then n[m + 1] else -1
  {
    st.OldLink(e, |o| + m);
    st.InBounds(e);
    assert (o + n)[|o| + m] == n[m] && (m + 1 < |n| ==> (o + n)[|o| + m + 1] == n[m + 1]);
  }

  /** One origin i of the finished configuration. */
  method CompleteFrom(chart: seq<State>, i: nat, j: nat, T: Tables, c: nat, e: nat, ghost P: Problem)
    requires i <= j < |chart| && Posed(P, T) && UpTo(P, chart, j) && c + 1 < |T.steps| && e < |T.steps|
    requires 0 <= T.steps[c] && T.steps[e] == T.steps[c] - T.nts && i in chart[j].All(e)
    modifies chart[j], chart[j].repr
    ensures UpTo(P, chart, j) && fresh(chart[j].repr - old(chart[j].repr))
    ensures Grown(old(chart[j].olds), old(chart[j].news), chart[j].olds, chart[j].news)
    ensures PassedOn(chart[i].olds, Join(chart[j].olds, chart[j].news), c)
  {
    hide Item, Good, Sound;
    var st, other := chart[j], chart[i];
    StepInside(P.G, T, P.L, c);
    StepOutside(P.G, T, P.L, e);
    if other.sets[c] != null {
      Advanced(P, other, c, e, T.steps[c], st);
      var next := st.Get(c + 1);
      Union(st, c + 1, other, c, P);
    } else {
      other.NoSet(c);
    }
  }

  // ----- the worklist loop

  /** What is old has been predicted from. */
  ghost predicate PredictedOld(T: Tables, olds: seq<seq<int>>, all: seq<seq<int>>, j: int)
    requires |olds| == |all| == |T.steps| && |T.starters| == T.nts
  {
    forall c :: 0 <= c < |olds| && olds[c] != [] && 0 <= T.steps[c] < T.nts ==> Started(T, all, j, T.steps[c])
  }

  /** The old origin k of e, finished, has moved the dot in c for the old origins of state k. */
  ghost predicate CompletedPair(T: Tables, prevs: seq<seq<seq<int>>>, olds: seq<seq<int>>, all: seq<seq<int>>, j: nat,
                                k: int, e: nat, c: nat)
    requires |olds| == |all| == |T.steps| && |prevs| == j && e < |olds| && c + 1 < |olds|
    requires forall m :: 0 <= m < j ==> |prevs[m]| == |olds|
  {
    0 <= k <= j && k in olds[e] && T.steps[e] == T.steps[c] - T.nts ==> PassedOn(if k < j then prevs[k] else olds, all, c)
  }

  ghost predicate CompletedOld(T: Tables, prevs: seq<seq<seq<int>>>, olds: seq<seq<int>>, all: seq<seq<int>>, j: nat)
    requires |olds| == |all| == |T.steps| && |prevs| == j && forall m :: 0 <= m < j ==> |prevs[m]| == |olds|
  {
    forall k, e, c :: 0 <= e < |olds| && 0 <= c && c + 1 < |olds| && 0 <= T.steps[c] ==>
      CompletedPair(T, prevs, olds, all, j, k, e, c)
  }

  ghost predicate Larger(all: seq<seq<int>>, all': seq<seq<int>>) {
    |all| == |all'| && forall c, i :: 0 <= c < |all| && i in all[c] ==> i in all'[c]
  }

  /** After the work on configuration c0, what it had new counts as old. */
  lemma PredictionsKept(T: Tables, olds: seq<seq<int>>, n: seq<int>, c0: nat, all: seq<seq<int>>, all': seq<seq<int>>, j: int)
    requires |olds| == |all| == |T.steps| && |T.starters| == T.nts && c0 < |olds|
    requires PredictedOld(T, olds, all, j) && Larger(all, all')
    requires 0 <= T.steps[c0] < T.nts ==> Started(T, all', j, T.steps[c0])
    ensures PredictedOld(T, olds[c0 := olds[c0] + n], all', j)
  {
    var olds' := olds[c0 := olds[c0] + n];
    forall c | 0 <= c < |olds'| && olds'[c] != [] && 0 <= T.steps[c] < T.nts
      ensures Started(T, all', j, T.steps[c])
    {
      if c != c0 {
        assert Started(T, all, j, T.steps[c]);
      }
    }
  }

  lemma CompletionsKept(T: Tables, prevs: seq<seq<seq<int>>>, olds: seq<seq<int>>, n: seq<int>, c0: nat, all: seq<seq<int>>,
                        all': seq<seq<int>>, j: nat)
    requires |olds| == |all| == |T.steps| && |prevs| == j && c0 < |olds|
    requires forall m :: 0 <= m < j ==> |prevs[m]| == |olds|
    requires CompletedOld(T, prevs, olds, all, j) && Larger(all, all')
    requires var olds' := olds[c0 := olds[c0] + n];
             && (T.steps[c0] >= 0 && c0 + 1 < |olds| ==>
                   forall e :: 0 <= e < |olds| && T.steps[e] == T.steps[c0] - T.nts && j in olds[e] ==>
                     PassedOn(olds', all', c0))
             && (T.steps[c0] < 0 ==>
                   forall k, c :: k in n && 0 <= k <= j && 0 <= c && c + 1 < |olds| && T.steps[c] == T.steps[c0] + T.nts ==>
                     PassedOn(if k < j then prevs[k] else olds', all', c))
    requires T.nts >= 0 && forall c :: 0 <= c < |T.steps| ==> T.steps[c] < T.nts
    ensures CompletedOld(T, prevs, olds[c0 := olds[c0] + n], all', j)
  {
    var olds' := olds[c0 := olds[c0] + n];
    forall k, e, c | 0 <= e < |olds| && 0 <= c && c + 1 < |olds| && 0 <= T.steps[c]
      ensures CompletedPair(T, prevs, olds', all', j, k, e, c)
    {
      assert CompletedPair(T, prevs, olds, all, j, k, e, c);
    }
  }

  // ----- termination

  lemma {:induction false} Pigeonhole(s: seq<int>, num: nat)
    requires NoDuplicates(s) && InRange(s, num)
    ensures |s| <= num + 1
  {
    var elems := set i | i in s;
    assert elems <= Range(num + 1);
    Count(s);
    Subset(elems, Range(num + 1));
  }

  lemma Subset(a: set<int>, b: set<int>)
    requires a <= b
    ensures |a| <= |b|
  {
    assert b == a + (b - a);
  }

  lemma {:induction false} Count(s: seq<int>)
    requires NoDuplicates(s)
    ensures |set i | i in s| == |s|
  {
    if s == [] {
    } else {
      var m := |s| - 1;
      Count(s[..m]);
      assert (set i | i in s) == (set i | i in s[..m]) + {s[m]};
      assert s[m] !in s[..m];
    }
  }

  ghost function Range(n: nat): (r: set<int>)
    ensures |r| == n && forall i :: i in r <==> 0 <= i < n
  {
    if n == 0 then {} else Range(n - 1) + {n - 1}
  }

  /** How many origins can still become old. */
  ghost function Left(olds: seq<seq<int>>, num: nat): int {
    if olds == [] then 0 else Left(olds[..|olds| - 1], num) + (num + 1 - |olds[|olds| - 1]|)
  }

  lemma {:induction false} LeftAfter(olds: seq<seq<int>>, num: nat, c: nat, s: seq<int>)
    requires c < |olds|
    ensures Left(olds[c := s], num) == Left(olds, num) + |olds[c]| - |s|
  {
    var m := |olds| - 1;
    if c < m {
      assert olds[c := s][..m] == olds[..m][c := s];
      LeftAfter(olds[..m], num, c, s);
    } else {
      assert olds[c := s][..m] == olds[..m];
    }
  }

  lemma {:induction false} LeftNonNegative(olds: seq<seq<int>>, num: nat)
    requires forall c :: 0 <= c < |olds| ==> |olds[c]| <= num + 1
    ensures Left(olds, num) >= 0
  {
    if olds == [] {
    } else {
      LeftNonNegative(olds[..|olds| - 1], num);
    }
  }

  lemma OldsBounded(st: State)
    requires st.Valid()
    ensures Left(st.olds, st.num) >= 0
  {
    forall c | 0 <= c < |st.olds| ensures |st.olds[c]| <= st.num + 1 {
      assert SetGood(st.num, st.vecs[c], st.olds[c], st.news[c]);
      Pigeonhole(st.olds[c], st.num);
    }
    LeftNonNegative(st.olds, st.num);
  }

  // ----- the forward pass on one state

  ghost function OldsBefore(chart: seq<State>, j: nat): (prevs: seq<seq<seq<int>>>)
    requires j <= |chart|
    reads chart
    ensures |prevs| == j && forall k :: 0 <= k < j ==> prevs[k] == chart[k].olds
  {
    if j == 0 then [] else OldsBefore(chart, j - 1) + [chart[j - 1].olds]
  }

  /** What is old in state j has been predicted from and completed. */
  ghost predicate Worked(P: Problem, chart: seq<State>, j: nat)
    requires j < |chart| && |P.T.starters| == P.T.nts
    reads chart, set k, o | 0 <= k < |chart| && o in chart[k].repr :: o
  {
    && UpTo(P, chart, j)
    && PredictedOld(P.T, chart[j].olds, Join(chart[j].olds, chart[j].news), j)
    && CompletedOld(P.T, OldsBefore(chart, j), chart[j].olds, Join(chart[j].olds, chart[j].news), j)
  }

  lemma JoinLarger(olds: seq<seq<int>>, news0: seq<seq<int>>, news: seq<seq<int>>)
    requires |olds| == |news0| && Grown(olds, news0, olds, news)
    ensures Larger(Join(olds, news0), Join(olds, news))
  {
    JoinGrows(olds, news0, news);
  }

  /** Merging the new origins of c into the old ones leaves all origins as they are. */
  lemma JoinMerged(olds: seq<seq<int>>, news: seq<seq<int>>, c: nat)
    requires |olds| == |news| && c < |olds|
    ensures Join(olds[c := olds[c] + news[c]], news[c := []]) == Join(olds, news)
  {
    var a, b := Join(olds[c := olds[c] + news[c]], news[c := []]), Join(olds, news);
    forall d | 0 <= d < |a| ensures a[d] == b[d] {
    }
  }

  lemma LargerTwice(a: seq<seq<int>>, b: seq<seq<int>>, c: seq<seq<int>>)
    requires Larger(a, b) && Larger(b, c)
    ensures Larger(a, c)
  {
  }

  /** Everything that waits for the head of the finished configuration e. */
  method CompleteAll(chart: seq<State>, j: nat, T: Tables, e: nat, head: int, ghost o: seq<int>, ghost n: seq<int>,
                     ghost P: Problem)
    requires j < |chart| && Posed(P, T) && UpTo(P, chart, j) && e < |T.steps| && T.steps[e] < 0
    requires chart[j].olds[e] == o + n && n != [] && head == n[0]
    modifies chart[j], chart[j].repr
    ensures UpTo(P, chart, j) && fresh(chart[j].repr - old(chart[j].repr))
    ensures Grown(old(chart[j].olds), old(chart[j].news), chart[j].olds, chart[j].news)
    ensures forall k, c :: k in n && 0 <= k <= j && 0 <= c && c + 1 < |T.steps| && T.steps[c] == T.steps[e] + T.nts ==>
              PassedOn(chart[k].olds, Join(chart[j].olds, chart[j].news), c)
  {
    hide Item, Good, Sound;
    var st := chart[j];
    StepOutside(P.G, T, P.L, e);
    assert SymbolOk(P.G, T, P.L, T.steps[e] + T.nts);
    var l := T.predictors[T.steps[e] + T.nts];
    var m := 0;
    while m < |l|
      invariant 0 <= m <= |l| && UpTo(P, chart, j) && fresh(st.repr - old(st.repr))
      invariant Grown(old(st.olds), old(st.news), st.olds, st.news)
      invariant forall q, k :: 0 <= q < m && k in n && 0 <= k <= j && l[q] + 1 < |T.steps| ==>
                  PassedOn(chart[k].olds, Join(st.olds, st.news), l[q])
    {
      ghost var olds, news := st.olds, st.news;
      assert l[m] in T.predictors[T.steps[e] + T.nts];
      CompleteOne(chart, j, T, l[m], e, head, o, n, P);
      JoinGrows(olds, news, st.news);
      m := m + 1;
    }
  }

  /** The work on a configuration with the symbol nt after its dot. */
  method PredictAndComplete(st: State, T: Tables, c: nat, nt: nat, ghost P: Problem)
    requires Posed(P, T) && Ready(P, st) && c < |T.steps| && T.steps[c] == nt && st.olds[c] != []
    modifies st, st.repr
    ensures Ready(P, st) && fresh(st.repr - old(st.repr))
    ensures Grown(old(st.olds), old(st.news), st.olds, st.news)
    ensures nt < T.nts && c + 1 < |T.steps| && Started(T, Join(st.olds, st.news), st.num, nt)
    ensures forall e :: 0 <= e < |T.steps| && T.steps[e] == nt - T.nts && st.num in st.olds[e] ==>
              PassedOn(st.olds, Join(st.olds, st.news), c)
  {
    hide Item, Good, Sound;
    StepInside(P.G, T, P.L, c);
    Predict(st, T, nt, P);
    ghost var news := st.news;
    CompleteEmpty(st, T, c, nt, P);
    JoinLarger(st.olds, news, st.news);
    StartedKept(T, Join(st.olds, news), Join(st.olds, st.news), st.num, nt);
    forall e | 0 <= e < |T.steps| && T.steps[e] == nt - T.nts && st.num in st.olds[e]
      ensures PassedOn(st.olds, Join(st.olds, st.news), c)
    {
      StepOutside(P.G, T, P.L, e);
      assert st.num in Join(st.olds, news)[e];
    }
  }

  method WorkOn(chart: seq<State>, j: nat, T: Tables, c: nat, head: int, ghost o: seq<int>, ghost n: seq<int>,
                ghost P: Problem)
    requires j < |chart| && Posed(P, T) && UpTo(P, chart, j) && c < |T.steps|
    requires chart[j].olds[c] == o + n && n != [] && head == n[0]
    modifies chart[j], chart[j].repr
    ensures UpTo(P, chart, j) && fresh(chart[j].repr - old(chart[j].repr))
    ensures Grown(old(chart[j].olds), old(chart[j].news), chart[j].olds, chart[j].news)
    ensures var (st, all) := (chart[j], Join(chart[j].olds, chart[j].news));
            && (T.steps[c] >= 0 ==>
                  && T.steps[c] < T.nts && c + 1 < |T.steps| && Started(T, all, j, T.steps[c])
                  && forall e :: 0 <= e < |T.steps| && T.steps[e] == T.steps[c] - T.nts && j in st.olds[e] ==>
                       PassedOn(st.olds, all, c))
            && (T.steps[c] < 0 ==>
                  forall k, d :: k in n && 0 <= k <= j && 0 <= d && d + 1 < |T.steps| && T.steps[d] == T.steps[c] + T.nts ==>
                    PassedOn(chart[k].olds, all, d))
  {
    hide Item, Good, Sound, Fits, PassedOn, Started;
    var step := T.steps[c];
    if step >= 0 {
      PredictAndComplete(chart[j], T, c, step, P);
    } else {
      CompleteAll(chart, j, T, c, head, o, n, P);
    }
  }

  /** One configuration is taken off the worklist and worked on. */
  method Turn(chart: seq<State>, j: nat, T: Tables, ghost P: Problem)
    requires j < |chart| && Posed(P, T) && Worked(P, chart, j) && chart[j].first >= 0
    modifies chart[j], chart[j].repr
    ensures Worked(P, chart, j) && fresh(chart[j].repr - old(chart[j].repr))
    ensures Larger(old(Join(chart[j].olds, chart[j].news)), Join(chart[j].olds, chart[j].news))
    ensures Left(chart[j].olds, j) < old(Left(chart[j].olds, j))
  {
    hide Item, Good, Sound, PredictedOld, CompletedOld, Started, SymbolOk, ConfOk, RuleOk;
    var st := chart[j];
    ghost var prevs, olds0, news0 := OldsBefore(chart, j), st.olds, st.news;
    ghost var all0 := Join(olds0, news0);
    var c, head := st.Pop();
    ghost var n := news0[c];
    JoinMerged(olds0, news0, c);
    LeftAfter(olds0, j, c, olds0[c] + n);
    ghost var news1 := st.news;
    WorkOn(chart, j, T, c, head, olds0[c], n, P);
    JoinLarger(st.olds, news1, st.news);
    AllBelow(P.G, T, P.L);
    assert OldsBefore(chart, j) == prevs;
    PredictionsKept(T, olds0, n, c, all0, Join(st.olds, st.news), j);
    CompletionsKept(T, prevs, olds0, n, c, all0, Join(st.olds, st.news), j);
  }

  lemma StartedKept(T: Tables, all: seq<seq<int>>, all': seq<seq<int>>, j: int, nt: nat)
    requires |all| == |T.steps| && nt < |T.starters| && Larger(all, all') && Started(T, all, j, nt)
    ensures Started(T, all', j, nt)
  {
  }

  lemma AllBelow(G: seq<Rule<nat>>, T: Tables, L: Layout)
    requires Fits(G, T, L)
    ensures forall c :: 0 <= c < |T.steps| ==> T.steps[c] < T.nts
  {
    forall c | 0 <= c < |T.steps| ensures T.steps[c] < T.nts {
      if T.steps[c] >= 0 {
        StepInside(G, T, L, c);
      }
    }
  }

  /** The forward pass on state j: it ends, with nothing new left, and with all that was in it. */
  method Forw(chart: seq<State>, j: nat, T: Tables, ghost P: Problem)
    requires j < |chart| && Posed(P, T) && Worked(P, chart, j)
    modifies chart[j], chart[j].repr
    ensures Worked(P, chart, j) && fresh(chart[j].repr - old(chart[j].repr)) && chart[j].first < 0
    ensures Larger(old(Join(chart[j].olds, chart[j].news)), Join(chart[j].olds, chart[j].news))
  {
    hide Item, Good, Sound, PredictedOld, CompletedOld, Started;
    var st := chart[j];
    while st.first >= 0
      invariant Worked(P, chart, j) && fresh(st.repr - old(st.repr))
      invariant Larger(old(Join(st.olds, st.news)), Join(st.olds, st.news))
      decreases Left(st.olds, j)
    {
      ghost var all := Join(st.olds, st.news);
      OldsBounded(st);
      Turn(chart, j, T, P);
      OldsBounded(st);
      LargerTwice(old(Join(st.olds, st.news)), all, Join(st.olds, st.news));
    }
  }
}
