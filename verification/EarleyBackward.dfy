/** The backward pass of the Earley parser: from the finished goal, everything that some parse of
    the whole input needs is traced back into a second chart, and nothing else. */
module EarleyBackward {
  import opened EarleyGrammar
  import opened EarleyState
  import opened EarleyForward
  import opened EarleyChart
  import opened EarleyContext

  // ----- what the two charts hold

  ghost function AllOf(st: State): seq<seq<int>>
    reads st
  {
    if |st.olds| == |st.news| then Join(st.olds, st.news) else []
  }

  /** The origins of every configuration in the first n states. */
  ghost function Sets(chart: seq<State>, n: nat): (all: seq<seq<seq<int>>>)
    requires n <= |chart|
    reads chart
    ensures |all| == n && forall k :: 0 <= k < n ==> all[k] == AllOf(chart[k])
  {
    if n == 0 then [] else Sets(chart, n - 1) + [AllOf(chart[n - 1])]
  }

  ghost predicate Idle(chart: seq<State>)
    reads chart
  {
    forall k :: 0 <= k < |chart| ==> forall c :: 0 <= c < |chart[k].news| ==> chart[k].news[c] == []
  }

  ghost predicate AllUsed(P: Problem, es: set<Entry>) {
    forall c, i, j :: Entry(c, i, j) in es ==> Used(P.G, P.toks, P.T, P.L, c, i, j)
  }

  /** Two charts of the same problem that share nothing. */
  ghost predicate TwoCharts(P: Problem, F: seq<State>, B: seq<State>)
    reads F, B, set k, o | 0 <= k < |F| && o in F[k].repr :: o, set k, o | 0 <= k < |B| && o in B[k].repr :: o
  {
    && Chart(P, F) && Chart(P, B)
    && forall k, l :: 0 <= k < |F| && 0 <= l < |B| ==> Disjoint(F[k], B[l])
  }

  /** What tracing back keeps: the entries of the forward chart stay, those kept are used by a parse. */
  ghost predicate Pruning(P: Problem, F: seq<State>, B: seq<State>, forw: set<Entry>, kept: set<Entry>)
    reads F, B, set k, o | 0 <= k < |F| && o in F[k].repr :: o, set k, o | 0 <= k < |B| && o in B[k].repr :: o
  {
    TwoCharts(P, F, B) && Idle(F) && Lists(Sets(F, |F|), forw) && Lists(Sets(B, |B|), kept) && AllUsed(P, kept)
    && AllFilled(B)
  }

  lemma ReadyParts(P: Problem, st: State)
    requires Ready(P, st)
    ensures st.Valid() && st.sets.Length == |st.olds| == |st.news| == |P.T.steps|
  {
  }

  lemma ChartsReady(P: Problem, F: seq<State>, B: seq<State>, forw: set<Entry>, kept: set<Entry>, k: nat)
    requires Pruning(P, F, B, forw, kept) && k < |B|
    ensures |F| == |B| == |P.toks| + 1 && F[k].num == k && B[k].num == k && Ready(P, F[k]) && Ready(P, B[k])
    ensures F[k].Valid() && B[k].Valid() && F[k].sets.Length == B[k].sets.Length == |P.T.steps|
    ensures |F[k].olds| == |F[k].news| == |B[k].olds| == |B[k].news| == |P.T.steps|
    ensures F[k] != B[k]
  {
    ReadyParts(P, F[k]);
    ReadyParts(P, B[k]);
    assert Disjoint(F[k], B[k]);
  }

  /** The sets after origin i was put into configuration c of state k, unless it was there. */
  ghost function With(all: seq<seq<seq<int>>>, k: nat, c: nat, i: int): seq<seq<seq<int>>>
    requires k < |all| && c < |all[k]|
  {
    if i in all[k][c] then all else all[k := all[k][c := all[k][c] + [i]]]
  }

  lemma WithLists(all: seq<seq<seq<int>>>, es: set<Entry>, k: nat, c: nat, i: int)
    requires Lists(all, es) && k < |all| && c < |all[k]|
    ensures Lists(With(all, k, c, i), es + {Entry(c, i, k)})
  {
  }

  lemma JoinPut(olds: seq<seq<int>>, news: seq<seq<int>>, news': seq<seq<int>>, c: nat, i: int)
    requires |olds| == |news| && c < |news|
    requires news' == if i in olds[c] + news[c] then news else news[c := news[c] + [i]]
    ensures Join(olds, news)[c] == olds[c] + news[c]
    ensures |news'| == |news| && Join(olds, news') ==
              if i in olds[c] + news[c] then Join(olds, news) else Join(olds, news)[c := Join(olds, news)[c] + [i]]
  {
    var a := Join(olds, news');
    var b := if i in olds[c] + news[c] then Join(olds, news) else Join(olds, news)[c := Join(olds, news)[c] + [i]];
    forall d | 0 <= d < |a| ensures a[d] == b[d] {
    }
  }

  /** Putting an origin into one state of a chart. */
  method PutInto(B: seq<State>, k: nat, c: nat, i: nat, ghost P: Problem)
    requires Chart(P, B) && k < |B| && c < |P.T.steps| && i <= k && Item(P.G, P.toks, P.T, P.L, c, i, k)
    modifies B[k], B[k].repr
    ensures Chart(P, B) && fresh(B[k].repr - old(B[k].repr)) && B[k].olds == old(B[k].olds)
    ensures |old(Sets(B, |B|))[k]| == |P.T.steps|
    ensures Sets(B, |B|) == With(old(Sets(B, |B|)), k, c, i)
    ensures old(AllFilled(B)) ==> AllFilled(B)
  {
    hide Item, Ready, Join, Good, State.Filled;
    ReadyParts(P, B[k]);
    ghost var all, news := Sets(B, |B|), B[k].news;
    forall m | 0 <= m < |B| && m != k ensures B[m] != B[k] && B[m] !in B[k].repr {
      Apart(P, B, m, k);
    }
    PutItem(B[k], c, i, P);
    ReadyParts(P, B[k]);
    assert Chart(P, B);
    hide Chart;
    JoinPut(B[k].olds, news, B[k].news, c, i);
    ghost var all' := Sets(B, |B|);
    forall m | 0 <= m < |B| ensures all'[m] == With(all, k, c, i)[m] {
      assert m != k ==> AllOf(B[m]) == all[m];
    }
  }

  lemma Apart(P: Problem, B: seq<State>, m: nat, k: nat)
    requires Chart(P, B) && m < |B| && k < |B| && m != k
    ensures Disjoint(B[m], B[k])
  {
    if m < k {
      assert Disjoint(B[m], B[k]);
    } else {
      assert Disjoint(B[k], B[m]);
    }
  }

  /** The same beside another chart, which it leaves alone. */
  method PutBeside(F: seq<State>, B: seq<State>, k: nat, c: nat, i: nat, ghost P: Problem)
    requires TwoCharts(P, F, B) && k < |B| && c < |P.T.steps| && i <= k && Item(P.G, P.toks, P.T, P.L, c, i, k)
    modifies B[k], B[k].repr
    ensures TwoCharts(P, F, B) && fresh(B[k].repr - old(B[k].repr)) && B[k].olds == old(B[k].olds)
    ensures |old(Sets(B, |B|))[k]| == |P.T.steps| && Sets(B, |B|) == With(old(Sets(B, |B|)), k, c, i)
    ensures Sets(F, |F|) == old(Sets(F, |F|)) && (old(Idle(F)) ==> Idle(F)) && (old(AllFilled(B)) ==> AllFilled(B))
  {
    hide Item, Ready, Join, Good, AllFilled;
    NotIn(P, F, B, k);
    PutInto(B, k, c, i, P);
    assert Chart(P, F);
    hide Chart;
  }

  /** An origin is kept if the forward pass had it. */
  method Keep(F: seq<State>, B: seq<State>, k: nat, c: nat, i: nat, ghost P: Problem, ghost forw: set<Entry>,
              ghost kept: set<Entry>)
    returns (b: bool, ghost kept': set<Entry>)
    requires Pruning(P, F, B, forw, kept) && k < |B| && c < |P.T.steps| && i <= k
    requires Entry(c, i, k) in forw ==> Used(P.G, P.toks, P.T, P.L, c, i, k)
    modifies B[k], B[k].repr
    ensures Pruning(P, F, B, forw, kept') && fresh(B[k].repr - old(B[k].repr)) && B[k].olds == old(B[k].olds)
    ensures b <==> Entry(c, i, k) in forw
    ensures kept' == if b then kept + {Entry(c, i, k)} else kept
  {
    hide Item, Ready, Used, Join, Good, Idle, AllFilled;
    ChartsReady(P, F, B, forw, kept, k);
    b := F[k].Has(c, i);
    JoinAt(F[k].olds, F[k].news, c);
    kept' := kept;
    if b {
      SoundAt(P, F[k], c, i);
      ghost var bs := Sets(B, |B|);
      hide TwoCharts;
      PutBeside(F, B, k, c, i, P);
      WithLists(bs, kept, k, c, i);
      kept' := kept + {Entry(c, i, k)};
    }
  }

  lemma JoinAt(olds: seq<seq<int>>, news: seq<seq<int>>, c: nat)
    requires |olds| == |news| && c < |news|
    ensures Join(olds, news)[c] == olds[c] + news[c]
  {
  }

  lemma NotIn(P: Problem, F: seq<State>, B: seq<State>, k: nat)
    requires TwoCharts(P, F, B) && k < |B|
    ensures forall m :: 0 <= m < |F| ==> Disjoint(F[m], B[k])
  {
  }

  // ----- tracing back

  /** Only entries of states up to j were added. */
  ghost predicate Extended(kept: set<Entry>, kept': set<Entry>, j: int) {
    kept <= kept' && forall c, i, m :: Entry(c, i, m) in kept' ==> Entry(c, i, m) in kept || m <= j
  }

  lemma ExtendedNot(kept: set<Entry>, j: int)
    ensures Extended(kept, kept, j)
  {
  }

  lemma ExtendedMore(kept: set<Entry>, kept': set<Entry>, j: int)
    requires Extended(kept, kept', j)
    ensures kept <= kept'
  {
  }

  lemma ExtendedTwice(a: set<Entry>, b: set<Entry>, c: set<Entry>, j: int)
    requires Extended(a, b, j) && Extended(b, c, j)
    ensures Extended(a, c, j) && b <= c
  {
  }

  lemma ForwItem(P: Problem, F: seq<State>, B: seq<State>, forw: set<Entry>, kept: set<Entry>, c: int, i: int, j: int)
    requires Pruning(P, F, B, forw, kept) && Entry(c, i, j) in forw
    ensures 0 <= j < |F| && 0 <= c < |P.T.steps| && 0 <= i <= j && Item(P.G, P.toks, P.T, P.L, c, i, j)
    ensures c < |F[j].olds| && i in F[j].olds[c]
  {
    hide Item, Used, Good;
    ChartsReady(P, F, B, forw, kept, j);
    JoinAt(F[j].olds, F[j].news, c);
    F[j].InBounds(c);
    SoundAt(P, F[j], c, i);
  }

  /** The states of a chart and all they own. */
  ghost function Region(B: seq<State>): set<object>
    reads B
  {
    (set m | 0 <= m < |B| :: B[m] as object) + set m, o | 0 <= m < |B| && o in B[m].repr :: o
  }

  /** Keep, seen from the whole chart. */
  method KeepIn(F: seq<State>, B: seq<State>, k: nat, c: nat, i: nat, ghost P: Problem, ghost forw: set<Entry>,
                ghost kept: set<Entry>)
    returns (b: bool, ghost kept': set<Entry>)
    requires Pruning(P, F, B, forw, kept) && k < |B| && c < |P.T.steps| && i <= k
    requires Entry(c, i, k) in forw ==> Used(P.G, P.toks, P.T, P.L, c, i, k)
    modifies Region(B)
    ensures Pruning(P, F, B, forw, kept') && (forall o :: o in Region(B) ==> o in old(Region(B)) || fresh(o))
    ensures forall m :: 0 <= m < |B| ==> B[m].olds == old(B[m].olds)
    ensures b <==> Entry(c, i, k) in forw
    ensures kept' == if b then kept + {Entry(c, i, k)} else kept
  {
    hide Pruning, Used;
    AllApart(P, F, B, forw, kept);
    InRegion(B, k);
    b, kept' := Keep(F, B, k, c, i, P, forw, kept);
  }

  lemma InRegion(B: seq<State>, k: nat)
    requires k < |B|
    ensures B[k] in Region(B) && B[k].repr <= Region(B)
  {
  }

  /** Both parts of one way to derive the symbols before the dot. */
  method KeepBoth(F: seq<State>, B: seq<State>, j: nat, prev: nat, e: nat, i: nat, k: nat, ghost P: Problem,
                  ghost forw: set<Entry>, ghost kept: set<Entry>)
    returns (ghost kept': set<Entry>)
    requires Fits(P.G, P.T, P.L) && Pruning(P, F, B, forw, kept) && i <= k <= j < |B| && prev + 1 < |P.T.steps|
    requires 0 <= P.T.steps[prev] < P.T.nts && e in P.T.enders[P.T.steps[prev]]
    requires Used(P.G, P.toks, P.T, P.L, prev + 1, i, j) && Entry(e, k, j) in forw
    modifies Region(B)
    ensures Pruning(P, F, B, forw, kept') && Extended(kept, kept', j)
    ensures forall o :: o in Region(B) ==> o in old(Region(B)) || fresh(o)
    ensures forall m :: 0 <= m < |B| ==> B[m].olds == old(B[m].olds)
    ensures Entry(prev, i, k) in forw ==> Entry(prev, i, k) in kept' && Entry(e, k, j) in kept'
  {
    hide Item, Used, Pruning, Fits, Region;
    ForwItem(P, F, B, forw, kept, e, k, j);
    if Entry(prev, i, k) in forw {
      ForwItem(P, F, B, forw, kept, prev, i, k);
      UsedBack(P.G, P.toks, P.T, P.L, prev, e, i, k, j);
    }
    var b;
    b, kept' := KeepIn(F, B, k, prev, i, P, forw, kept);
    if b {
      b, kept' := KeepIn(F, B, j, e, k, P, forw, kept');
    }
  }

  lemma AllApart(P: Problem, F: seq<State>, B: seq<State>, forw: set<Entry>, kept: set<Entry>)
    requires Pruning(P, F, B, forw, kept)
    ensures forall m, k :: 0 <= m < |B| && 0 <= k < |B| && m != k ==>
              B[m] != B[k] && B[m] !in B[k].repr && B[k].repr !! B[m].repr
  {
    forall m, k | 0 <= m < |B| && 0 <= k < |B| && m != k ensures Disjoint(B[m], B[k]) {
      Apart(P, B, m, k);
    }
  }

  lemma BesideAll(P: Problem, F: seq<State>, B: seq<State>, forw: set<Entry>, kept: set<Entry>, j: nat)
    requires Pruning(P, F, B, forw, kept) && j < |F|
    ensures F[j] !in Region(B)
  {
    forall m | 0 <= m < |B| ensures Disjoint(F[j], B[m]) {
    }
  }

  ghost predicate BothKept(forw: set<Entry>, kept: set<Entry>, prev: int, e: int, i: int, k: int, j: int) {
    i <= k && Entry(prev, i, k) in forw ==> Entry(prev, i, k) in kept && Entry(e, k, j) in kept
  }

  ghost predicate ListKept(forw: set<Entry>, kept: set<Entry>, prev: int, e: int, i: int, list: seq<int>, n: nat, j: int)
    requires n <= |list|
  {
    forall p :: 0 <= p < n ==> BothKept(forw, kept, prev, e, i, list[p], j)
  }

  lemma ListKeptMore(forw: set<Entry>, kept: set<Entry>, kept': set<Entry>, prev: int, e: int, i: int, list: seq<int>, n: nat,
                     j: int)
    requires n < |list| && ListKept(forw, kept, prev, e, i, list, n, j) && kept <= kept'
    requires BothKept(forw, kept', prev, e, i, list[n], j)
    ensures ListKept(forw, kept', prev, e, i, list, n + 1, j)
  {
    forall p | 0 <= p < n ensures BothKept(forw, kept', prev, e, i, list[p], j) {
      assert BothKept(forw, kept, prev, e, i, list[p], j);
    }
  }

  lemma NoneKept(forw: set<Entry>, kept: set<Entry>, prev: int, e: int, i: int, list: seq<int>, j: int)
    ensures ListKept(forw, kept, prev, e, i, list, 0, j)
  {
  }

  /** One origin k of e: of interest only if it is not before i. */
  method TraceOrigin(F: seq<State>, B: seq<State>, j: nat, prev: nat, e: nat, i: nat, k: nat, ghost P: Problem,
                     ghost forw: set<Entry>, ghost kept: set<Entry>)
    returns (ghost kept': set<Entry>)
    requires Fits(P.G, P.T, P.L) && Pruning(P, F, B, forw, kept) && k <= j < |B| <= |F| && prev + 1 < |P.T.steps|
    requires 0 <= P.T.steps[prev] < P.T.nts && e in P.T.enders[P.T.steps[prev]]
    requires Used(P.G, P.toks, P.T, P.L, prev + 1, i, j) && e < |F[j].olds| && k in F[j].olds[e]
    modifies Region(B)
    ensures Pruning(P, F, B, forw, kept') && Extended(kept, kept', j) && F[j].olds == old(F[j].olds)
    ensures forall o :: o in Region(B) ==> o in old(Region(B)) || fresh(o)
    ensures forall m :: 0 <= m < |B| ==> B[m].olds == old(B[m].olds)
    ensures BothKept(forw, kept', prev, e, i, k, j)
  {
    hide Region, Item, Used, Pruning, Fits, Good;
    BesideAll(P, F, B, forw, kept, j);
    kept' := kept;
    if k >= i {
      EntryOfOld(P, F, B, forw, kept, j, e, k);
      kept' := KeepBoth(F, B, j, prev, e, i, k, P, forw, kept);
    }
  }

  /** How the symbol finished by e may have been derived up to j after the dot of prev, for a
      derivation from i: all its origins that fit are kept with what stands before them. */
  method TraceEnder(F: seq<State>, B: seq<State>, j: nat, prev: nat, e: nat, i: nat, ghost P: Problem,
                    ghost forw: set<Entry>, ghost kept: set<Entry>)
    returns (ghost kept': set<Entry>)
    requires Fits(P.G, P.T, P.L) && Pruning(P, F, B, forw, kept) && j < |B| && prev + 1 < |P.T.steps| && e < |P.T.steps|
    requires 0 <= P.T.steps[prev] < P.T.nts && e in P.T.enders[P.T.steps[prev]]
    requires Used(P.G, P.toks, P.T, P.L, prev + 1, i, j)
    modifies Region(B)
    ensures Pruning(P, F, B, forw, kept') && Extended(kept, kept', j)
    ensures forall o :: o in Region(B) ==> o in old(Region(B)) || fresh(o)
    ensures forall m :: 0 <= m < |B| ==> B[m].olds == old(B[m].olds)
    ensures TracedEnder(forw, kept', prev, e, i, j)
  {
    hide Region, Item, Used, Pruning, Fits, Good, TracedEnder, AllOf, Disjoint, Extended, BothKept, ListKept;
    ExtendedNot(kept, j);
    ChartsReady(P, F, B, forw, kept, j);
    var st := F[j];
    kept' := kept;
    ghost var list, q := st.olds[e], 0;
    if st.sets[e] == null {
      st.NoSet(e);
      NoneKept(forw, kept, prev, e, i, list, j);
    } else {
      st.OldHead(e);
      st.InBounds(e);
      NoneKept(forw, kept, prev, e, i, list, j);
      var k := st.sets[e][2];
      while k >= 0
        invariant 0 <= q <= |list| && k == (if q < |list| then list[q] else -1)
        invariant Pruning(P, F, B, forw, kept') && Extended(kept, kept', j)
        invariant st.Valid() && st.sets.Length == |st.olds| == |P.T.steps| && st.olds[e] == list
        invariant forall o :: o in Region(B) ==> o in old(Region(B)) || fresh(o)
        invariant forall m :: 0 <= m < |B| ==> B[m].olds == old(B[m].olds)
        invariant ListKept(forw, kept', prev, e, i, list, q, j)
        decreases |list| - q
      {
        st.OldLink(e, q);
        ghost var before := kept';
        kept' := TraceOrigin(F, B, j, prev, e, i, k, P, forw, kept');
        ExtendedTwice(kept, before, kept', j);
        ListKeptMore(forw, before, kept', prev, e, i, list, q, j);
        ChartsReady(P, F, B, forw, kept', j);
        st.OldLink(e, q);
        k := st.sets[e][k + 5];
        q := q + 1;
      }
    }
    ListTraced(P, F, B, forw, kept', prev, e, i, j);
  }

  lemma ListTraced(P: Problem, F: seq<State>, B: seq<State>, forw: set<Entry>, kept: set<Entry>, prev: int, e: nat,
                   i: int, j: nat)
    requires Pruning(P, F, B, forw, kept) && j < |F| && e < |F[j].olds|
    requires ListKept(forw, kept, prev, e, i, F[j].olds[e], |F[j].olds[e]|, j)
    ensures TracedEnder(forw, kept, prev, e, i, j)
  {
    hide Pruning;
    forall k | i <= k && Entry(e, k, j) in forw && Entry(prev, i, k) in forw
      ensures Entry(prev, i, k) in kept && Entry(e, k, j) in kept
    {
      ForwItem(P, F, B, forw, kept, e, k, j);
      var p :| 0 <= p < |F[j].olds[e]| && F[j].olds[e][p] == k;
      assert BothKept(forw, kept, prev, e, i, F[j].olds[e][p], j);
    }
  }

  lemma EntryOfOld(P: Problem, F: seq<State>, B: seq<State>, forw: set<Entry>, kept: set<Entry>, j: nat, e: nat, k: int)
    requires Pruning(P, F, B, forw, kept) && j < |B| <= |F| && e < |F[j].olds| && k in F[j].olds[e]
    ensures Entry(e, k, j) in forw
  {
    ChartsReady(P, F, B, forw, kept, j);
    JoinAt(F[j].olds, F[j].news, e);
  }

  /** All ways in which the last symbol before the dot of conf may have been derived. */
  method Trace(F: seq<State>, B: seq<State>, j: nat, T: Tables, conf: nat, i: nat, ghost P: Problem,
               ghost forw: set<Entry>, ghost kept: set<Entry>)
    returns (ghost kept': set<Entry>)
    requires Posed(P, T) && Pruning(P, F, B, forw, kept) && j < |B| && conf < |T.steps| && T.nts > 0
    requires Used(P.G, P.toks, T, P.L, conf, i, j)
    modifies Region(B)
    ensures Pruning(P, F, B, forw, kept') && Extended(kept, kept', j)
    ensures forall o :: o in Region(B) ==> o in old(Region(B)) || fresh(o)
    ensures forall m :: 0 <= m < |B| ==> B[m].olds == old(B[m].olds)
    ensures Traced(T, forw, kept', conf, i, j)
  {
    hide Region, Item, Used, Pruning, Good, TracedEnder, EndersTraced, Extended, SymbolOk, ConfOk, RuleOk;
    ExtendedNot(kept, j);
    kept' := kept;
    if conf < T.nts || T.steps[conf - 1] < 0 {
      return;
    }
    var prev := conf - 1;
    StepInside(P.G, T, P.L, prev);
    var l := T.enders[T.steps[prev]];
    EndersInside(P, T.steps[prev]);
    hide Fits;
    NoEnders(forw, kept, l, prev, i, j);
    for m := 0 to |l|
      invariant Pruning(P, F, B, forw, kept') && Extended(kept, kept', j)
      invariant forall o :: o in Region(B) ==> o in old(Region(B)) || fresh(o)
      invariant forall m :: 0 <= m < |B| ==> B[m].olds == old(B[m].olds)
      invariant EndersTraced(forw, kept', l[..m], prev, i, j)
    {
      assert l[m] in l;
      ghost var before := kept';
      kept' := TraceEnder(F, B, j, prev, l[m], i, P, forw, kept');
      ExtendedTwice(kept, before, kept', j);
      OneEnderMore(forw, before, kept', l, m, prev, i, j);
    }
    assert l[..|l|] == l;
  }

  lemma EndersInside(P: Problem, nt: nat)
    requires Fits(P.G, P.T, P.L) && nt < P.T.nts
    ensures forall e :: e in P.T.enders[nt] ==> e < |P.T.steps|
  {
    assert SymbolOk(P.G, P.T, P.L, nt);
  }

  lemma NoEnders(forw: set<Entry>, kept: set<Entry>, l: seq<nat>, prev: int, i: int, j: int)
    ensures EndersTraced(forw, kept, l[..0], prev, i, j)
  {
  }

  lemma OneEnderMore(forw: set<Entry>, kept: set<Entry>, kept': set<Entry>, l: seq<nat>, m: nat, prev: int, i: int, j: int)
    requires m < |l| && EndersTraced(forw, kept, l[..m], prev, i, j) && kept <= kept'
    requires TracedEnder(forw, kept', prev, l[m], i, j)
    ensures EndersTraced(forw, kept', l[..m + 1], prev, i, j)
  {
    hide TracedEnder;
    MoreEnders(forw, kept, kept', l[..m], prev, i, j);
    assert l[..m + 1] == l[..m] + [l[m]];
  }

  /** The origins o of c in state j are traced. */
  ghost predicate OriginsTraced(T: Tables, forw: set<Entry>, kept: set<Entry>, c: int, o: seq<int>, j: int) {
    forall i :: i in o ==> Traced(T, forw, kept, c, i, j)
  }

  lemma OriginsMore(T: Tables, forw: set<Entry>, kept: set<Entry>, kept': set<Entry>, c: int, o: seq<int>, j: int)
    requires OriginsTraced(T, forw, kept, c, o, j) && kept <= kept'
    ensures OriginsTraced(T, forw, kept', c, o, j)
  {
    hide Traced;
    forall i | i in o ensures Traced(T, forw, kept', c, i, j) {
      TracedMore(T, forw, kept, kept', c, i, j);
    }
  }

  lemma OneOriginMore(T: Tables, forw: set<Entry>, kept: set<Entry>, kept': set<Entry>, c: int, o: seq<int>, m: nat, j: int)
    requires m < |o| && OriginsTraced(T, forw, kept, c, o[..m], j) && kept <= kept' && Traced(T, forw, kept', c, o[m], j)
    ensures OriginsTraced(T, forw, kept', c, o[..m + 1], j)
  {
    hide Traced;
    OriginsMore(T, forw, kept, kept', c, o[..m], j);
    assert o[..m + 1] == o[..m] + [o[m]];
  }

  lemma UsedOrigin(P: Problem, F: seq<State>, B: seq<State>, forw: set<Entry>, kept: set<Entry>, c: nat, i: int, j: nat)
    requires Pruning(P, F, B, forw, kept) && j < |B| && c < |P.T.steps| && c < |B[j].olds| && i in B[j].olds[c]
    ensures Used(P.G, P.toks, P.T, P.L, c, i, j) && i >= 0 && Entry(c, i, j) in kept
  {
    hide Used;
    ChartsReady(P, F, B, forw, kept, j);
    JoinAt(B[j].olds, B[j].news, c);
    B[j].InBounds(c);
  }

  /** The new origins of a configuration that was kept are traced back. */
  method TraceAll(F: seq<State>, B: seq<State>, j: nat, T: Tables, conf: nat, head: int, ghost o: seq<int>, ghost n: seq<int>,
                  ghost P: Problem, ghost forw: set<Entry>, ghost kept: set<Entry>)
    returns (ghost kept': set<Entry>)
    requires Posed(P, T) && Pruning(P, F, B, forw, kept) && j < |B| && conf < |T.steps| && T.nts > 0
    requires conf < |B[j].olds| && B[j].olds[conf] == o + n && n != [] && head == n[0]
    modifies Region(B)
    ensures Pruning(P, F, B, forw, kept') && Extended(kept, kept', j)
    ensures forall o :: o in Region(B) ==> o in old(Region(B)) || fresh(o)
    ensures forall m :: 0 <= m < |B| ==> B[m].olds == old(B[m].olds)
    ensures OriginsTraced(T, forw, kept', conf, n, j)
  {
    hide Region, Item, Used, Pruning, Good, Traced, OriginsTraced, Extended, Fits;
    ExtendedNot(kept, j);
    kept' := kept;
    var st := B[j];
    ChartsReady(P, F, B, forw, kept, j);
    NoOrigins(T, forw, kept, conf, n, j);
    var i := head;
    ghost var m := 0;
    while i >= 0
      invariant 0 <= m <= |n| && i == (if m < |n| then n[m] else -1)
      invariant Pruning(P, F, B, forw, kept') && Extended(kept, kept', j)
      invariant forall o :: o in Region(B) ==> o in old(Region(B)) || fresh(o)
      invariant forall m :: 0 <= m < |B| ==> B[m].olds == old(B[m].olds)
      invariant OriginsTraced(T, forw, kept', conf, n[..m], j)
      decreases |n| - m
    {
      assert n[m] in o + n;
      UsedOrigin(P, F, B, forw, kept', conf, i, j);
      ghost var before := kept';
      kept' := Trace(F, B, j, T, conf, i, P, forw, kept');
      ExtendedTwice(kept, before, kept', j);
      OneOriginMore(T, forw, before, kept', conf, n, m, j);
      ChartsReady(P, F, B, forw, kept', j);
      ChainAt(st, conf, o, n, m);
      i := st.sets[conf][i + 5];
      m := m + 1;
    }
    OriginsNatural(P, F, B, forw, kept', conf, o, n, j);
    assert n[..|n|] == n;
  }

  lemma OriginsNatural(P: Problem, F: seq<State>, B: seq<State>, forw: set<Entry>, kept: set<Entry>, c: nat, o: seq<int>,
                       n: seq<int>, j: nat)
    requires Pruning(P, F, B, forw, kept) && j < |B| && c < |P.T.steps| && c < |B[j].olds| && B[j].olds[c] == o + n
    ensures forall m :: 0 <= m < |n| ==> n[m] >= 0
  {
    hide Pruning, Used;
    forall m | 0 <= m < |n| ensures n[m] >= 0 {
      assert n[m] in o + n;
      UsedOrigin(P, F, B, forw, kept, c, n[m], j);
    }
  }

  lemma NoOrigins(T: Tables, forw: set<Entry>, kept: set<Entry>, c: int, o: seq<int>, j: int)
    ensures OriginsTraced(T, forw, kept, c, o[..0], j)
  {
  }

  // ----- the work on one state

  /** Every old origin in state j is traced. */
  ghost predicate OldsTraced(T: Tables, forw: set<Entry>, kept: set<Entry>, olds: seq<seq<int>>, j: int) {
    forall c :: 0 <= c < |olds| ==> OriginsTraced(T, forw, kept, c, olds[c], j)
  }

  lemma OldsTracedAfter(T: Tables, forw: set<Entry>, kept: set<Entry>, kept': set<Entry>, olds: seq<seq<int>>, c: nat,
                        n: seq<int>, j: int)
    requires c < |olds| && OldsTraced(T, forw, kept, olds, j) && kept <= kept' && OriginsTraced(T, forw, kept', c, n, j)
    ensures OldsTraced(T, forw, kept', olds[c := olds[c] + n], j)
  {
    hide Traced;
    var olds' := olds[c := olds[c] + n];
    forall d | 0 <= d < |olds'| ensures OriginsTraced(T, forw, kept', d, olds'[d], j) {
      OriginsMore(T, forw, kept, kept', d, olds[d], j);
    }
  }

  /** All entries of the states from j on are traced. */
  ghost predicate TracedFrom(T: Tables, forw: set<Entry>, kept: set<Entry>, j: int) {
    forall c, i, m :: Entry(c, i, m) in kept && m >= j ==> Traced(T, forw, kept, c, i, m)
  }

  lemma TracedFromMore(T: Tables, forw: set<Entry>, kept: set<Entry>, kept': set<Entry>, j: int)
    requires TracedFrom(T, forw, kept, j + 1) && Extended(kept, kept', j)
    ensures TracedFrom(T, forw, kept', j + 1)
  {
    hide Traced;
    forall c, i, m | Entry(c, i, m) in kept' && m >= j + 1 ensures Traced(T, forw, kept', c, i, m) {
      TracedMore(T, forw, kept, kept', c, i, m);
    }
  }

  /** With nothing new in state j, its entries are the old origins. */
  lemma StateTraced(P: Problem, F: seq<State>, B: seq<State>, forw: set<Entry>, kept: set<Entry>, j: nat)
    requires Pruning(P, F, B, forw, kept) && j < |B| && B[j].first < 0
    requires OldsTraced(P.T, forw, kept, B[j].olds, j) && TracedFrom(P.T, forw, kept, j + 1)
    ensures TracedFrom(P.T, forw, kept, j)
  {
    hide Traced, Used, Good;
    ChartsReady(P, F, B, forw, kept, j);
    B[j].Idle();
    forall c, i, m | Entry(c, i, m) in kept && m >= j ensures Traced(P.T, forw, kept, c, i, m) {
      if m == j {
        JoinAt(B[j].olds, B[j].news, c);
        assert OriginsTraced(P.T, forw, kept, c, B[j].olds[c], j);
      }
    }
  }

  /** The next configuration of the worklist; its new origins n become old, and no entry changes. */
  method PopFrom(F: seq<State>, B: seq<State>, j: nat, ghost P: Problem, ghost forw: set<Entry>, ghost kept: set<Entry>)
    returns (c: nat, head: int, ghost n: seq<int>)
    requires Pruning(P, F, B, forw, kept) && j < |B| && B[j].first >= 0
    modifies B[j], B[j].repr
    ensures Pruning(P, F, B, forw, kept) && B[j].repr == old(B[j].repr)
    ensures c < |P.T.steps| && c < |old(B[j].olds)| && n != [] && head == n[0]
    ensures B[j].olds == old(B[j].olds)[c := old(B[j].olds)[c] + n]
    ensures forall m :: 0 <= m < |B| && m != j ==> unchanged(B[m])
  {
    hide Item, Used, Good, Ready, AllUsed, Join, AllFilled;
    NotIn(P, F, B, j);
    c, head, n := PopIn(B, j, P);
    assert Chart(P, F);
    hide Chart;
  }

  /** The same for one chart alone. */
  method PopIn(B: seq<State>, j: nat, ghost P: Problem) returns (c: nat, head: int, ghost n: seq<int>)
    requires Chart(P, B) && j < |B| && B[j].first >= 0
    modifies B[j], B[j].repr
    ensures Chart(P, B) && B[j].repr == old(B[j].repr) && Sets(B, |B|) == old(Sets(B, |B|))
    ensures old(AllFilled(B)) ==> AllFilled(B)
    ensures c < |P.T.steps| && c < |old(B[j].olds)| && n != [] && head == n[0]
    ensures B[j].olds == old(B[j].olds)[c := old(B[j].olds)[c] + n]
    ensures forall m :: 0 <= m < |B| && m != j ==> unchanged(B[m])
  {
    hide Item, Ready, Join, Good, State.Filled;
    ghost var all := Sets(B, |B|);
    forall m | 0 <= m < |B| && m != j ensures B[m] != B[j] && B[m] !in B[j].repr {
      Apart(P, B, m, j);
    }
    c, head, n := PopReady(B[j], P);
    assert Chart(P, B);
    hide Chart;
    ghost var all' := Sets(B, |B|);
    forall m | 0 <= m < |B| ensures all'[m] == all[m] {
      assert m != j ==> AllOf(B[m]) == all[m];
    }
  }

  method PopReady(st: State, ghost P: Problem) returns (c: nat, head: int, ghost n: seq<int>)
    requires Ready(P, st) && st.first >= 0
    modifies st, st.repr
    ensures Ready(P, st) && st.repr == old(st.repr) && AllOf(st) == old(AllOf(st)) && (old(st.Filled()) ==> st.Filled())
    ensures c < |P.T.steps| && c < |old(st.olds)| && n != [] && head == n[0]
    ensures st.olds == old(st.olds)[c := old(st.olds)[c] + n]
  {
    hide Item, Good, Sound, Join;
    ghost var olds, news := st.olds, st.news;
    c, head := st.Pop();
    n := news[c];
    JoinMerged(olds, news, c);
  }

  /** One configuration of the worklist of state j. */
  method PruneOne(F: seq<State>, B: seq<State>, j: nat, T: Tables, ghost P: Problem, ghost forw: set<Entry>,
                  ghost kept: set<Entry>)
    returns (ghost kept': set<Entry>)
    requires Posed(P, T) && Pruning(P, F, B, forw, kept) && j < |B| && T.nts > 0 && B[j].first >= 0
    requires OldsTraced(T, forw, kept, B[j].olds, j)
    modifies Region(B)
    ensures Pruning(P, F, B, forw, kept') && Extended(kept, kept', j) && OldsTraced(T, forw, kept', B[j].olds, j)
    ensures forall o :: o in Region(B) ==> o in old(Region(B)) || fresh(o)
    ensures forall m :: 0 <= m < |B| && m != j ==> B[m].olds == old(B[m].olds)
    ensures 0 <= Left(B[j].olds, j) < old(Left(B[j].olds, j))
  {
    hide Item, Used, Pruning, Good, OldsTraced, OriginsTraced, Extended, Fits;
    InRegion(B, j);
    ghost var olds := B[j].olds;
    ghost var n;
    var c, head;
    c, head, n := PopFrom(F, B, j, P, forw, kept);
    LeftAfter(olds, j, c, olds[c] + n);
    kept' := TraceAll(F, B, j, T, c, head, olds[c], n, P, forw, kept);
    ExtendedMore(kept, kept', j);
    OldsTracedAfter(T, forw, kept, kept', olds, c, n, j);
    ChartsReady(P, F, B, forw, kept', j);
    OldsBounded(B[j]);
  }

  /** The worklist of state j of the pruned chart is worked off. */
  method Prune(F: seq<State>, B: seq<State>, j: nat, T: Tables, ghost P: Problem, ghost forw: set<Entry>,
               ghost kept: set<Entry>)
    returns (ghost kept': set<Entry>)
    requires Posed(P, T) && Pruning(P, F, B, forw, kept) && j < |B| && T.nts > 0
    requires OldsTraced(T, forw, kept, B[j].olds, j) && TracedFrom(T, forw, kept, j + 1)
    modifies Region(B)
    ensures Pruning(P, F, B, forw, kept') && Extended(kept, kept', j) && TracedFrom(T, forw, kept', j)
    ensures forall o :: o in Region(B) ==> o in old(Region(B)) || fresh(o)
    ensures forall m :: 0 <= m < |B| && m != j ==> B[m].olds == old(B[m].olds)
  {
    hide Region, Item, Used, Pruning, Good, OldsTraced, TracedFrom, Extended, Fits;
    ExtendedNot(kept, j);
    kept' := kept;
    var st := B[j];
    while st.first >= 0
      invariant Pruning(P, F, B, forw, kept') && Extended(kept, kept', j) && OldsTraced(T, forw, kept', B[j].olds, j)
      invariant forall o :: o in Region(B) ==> o in old(Region(B)) || fresh(o)
      invariant forall m :: 0 <= m < |B| && m != j ==> B[m].olds == old(B[m].olds)
      decreases Left(st.olds, j)
    {
      ghost var before := kept';
      kept' := PruneOne(F, B, j, T, P, forw, kept');
      ExtendedTwice(kept, before, kept', j);
    }
    TracedFromMore(T, forw, kept, kept', j);
    StateTraced(P, F, B, forw, kept', j);
  }

  // ----- the whole pass

  /** Nothing is old yet in the states up to n. */
  ghost predicate NoOlds(B: seq<State>, n: int)
    reads B
  {
    forall m :: 0 <= m < |B| && m <= n ==> forall c :: 0 <= c < |B[m].olds| ==> B[m].olds[c] == []
  }

  /** The states of the pruned chart are worked off from the last to the first. */
  method PruneAll(F: seq<State>, B: seq<State>, T: Tables, n: nat, ghost P: Problem, ghost forw: set<Entry>,
                  ghost kept: set<Entry>)
    returns (ghost kept': set<Entry>)
    requires Posed(P, T) && Pruning(P, F, B, forw, kept) && n == |P.toks| && T.nts > 0 && NoOlds(B, n)
    modifies Region(B)
    ensures Pruning(P, F, B, forw, kept') && kept <= kept' && AllTraced(T, forw, kept')
    ensures forall o :: o in Region(B) ==> o in old(Region(B)) || fresh(o)
  {
    AsLong(P, F, B, forw, kept);
    hide Region, Item, Used, Pruning, Good, TracedFrom, Extended, Fits, Traced, OldsTraced;
    kept' := kept;
    NothingBeyond(P, F, B, forw, kept);
    var i: int := n;
    while i >= 0
      invariant -1 <= i <= n && Pruning(P, F, B, forw, kept') && kept <= kept'
      invariant NoOlds(B, i) && TracedFrom(T, forw, kept', i + 1)
      invariant forall o :: o in Region(B) ==> o in old(Region(B)) || fresh(o)
    {
      ghost var before := kept';
      NoOldsTraced(T, forw, kept', B, i);
      kept' := Prune(F, B, i, T, P, forw, kept');
      ExtendedMore(before, kept', i);
      i := i - 1;
    }
    EverythingTraced(P, F, B, forw, kept');
  }

  lemma AsLong(P: Problem, F: seq<State>, B: seq<State>, forw: set<Entry>, kept: set<Entry>)
    requires Pruning(P, F, B, forw, kept)
    ensures |F| == |B| == |P.toks| + 1
  {
  }

  lemma NothingBeyond(P: Problem, F: seq<State>, B: seq<State>, forw: set<Entry>, kept: set<Entry>)
    requires Pruning(P, F, B, forw, kept)
    ensures TracedFrom(P.T, forw, kept, |P.toks| + 1)
  {
    hide Traced, Used;
  }

  lemma NoOldsTraced(T: Tables, forw: set<Entry>, kept: set<Entry>, B: seq<State>, j: nat)
    requires NoOlds(B, j) && j < |B|
    ensures OldsTraced(T, forw, kept, B[j].olds, j)
  {
  }

  lemma EverythingTraced(P: Problem, F: seq<State>, B: seq<State>, forw: set<Entry>, kept: set<Entry>)
    requires Pruning(P, F, B, forw, kept) && TracedFrom(P.T, forw, kept, 0)
    ensures AllTraced(P.T, forw, kept)
  {
    hide Traced, Used;
  }

  /** The finished goal configurations that span all tokens. */
  method KeepGoal(F: seq<State>, B: seq<State>, T: Tables, n: nat, ghost P: Problem, ghost forw: set<Entry>,
                  ghost kept: set<Entry>)
    returns (ghost kept': set<Entry>)
    requires Pruning(P, F, B, forw, kept) && Posed(P, T) && T.nts > 0 && n == |P.toks| && NoOlds(B, n)
    modifies Region(B)
    ensures Pruning(P, F, B, forw, kept') && NoOlds(B, n) && GoalKept(forw, kept', T.enders[0], n)
    ensures forall o :: o in Region(B) ==> o in old(Region(B)) || fresh(o)
  {
    var l := T.enders[0];
    NoGoalYet(forw, kept, l, n);
    hide *;
    kept' := kept;
    for k := 0 to |l|
      invariant Pruning(P, F, B, forw, kept') && NoOlds(B, n) && GoalKept(forw, kept', l[..k], n)
      invariant forall o :: o in Region(B) ==> o in old(Region(B)) || fresh(o)
    {
      kept' := KeepGoalEntry(F, B, T, n, k, P, forw, kept');
    }
    assert l[..|l|] == l;
  }

  method KeepGoalEntry(F: seq<State>, B: seq<State>, T: Tables, n: nat, k: nat, ghost P: Problem, ghost forw: set<Entry>,
                       ghost kept: set<Entry>)
    returns (ghost kept': set<Entry>)
    requires Pruning(P, F, B, forw, kept) && Posed(P, T) && T.nts > 0 && n == |P.toks| && NoOlds(B, n) && k < |T.enders[0]|
    requires GoalKept(forw, kept, T.enders[0][..k], n)
    modifies Region(B)
    ensures Pruning(P, F, B, forw, kept') && NoOlds(B, n) && GoalKept(forw, kept', T.enders[0][..k + 1], n)
    ensures forall o :: o in Region(B) ==> o in old(Region(B)) || fresh(o)
  {
    AsLong(P, F, B, forw, kept);
    EndersInside(P, 0);
    var e := T.enders[0][k];
    UsedGoal(P.G, P.toks, T, P.L, e);
    hide Region, Pruning, Used, Fits, Posed, GoalKept, SymbolOk, ConfOk, RuleOk;
    var b;
    b, kept' := KeepIn(F, B, n, e, 0, P, forw, kept);
    OneGoalMore(forw, kept, kept', T.enders[0], k, n);
  }

  /** The goal's entries for all tokens are kept as far as the forward pass has them. */
  ghost predicate GoalKept(forw: set<Entry>, kept: set<Entry>, l: seq<nat>, n: int) {
    forall e :: e in l && Entry(e, 0, n) in forw ==> Entry(e, 0, n) in kept
  }

  lemma OneGoalMore(forw: set<Entry>, kept: set<Entry>, kept': set<Entry>, l: seq<nat>, k: nat, n: int)
    requires k < |l| && GoalKept(forw, kept, l[..k], n)
    requires kept' == if Entry(l[k], 0, n) in forw then kept + {Entry(l[k], 0, n)} else kept
    ensures GoalKept(forw, kept', l[..k + 1], n)
  {
    assert l[..k + 1] == l[..k] + [l[k]];
  }

  lemma NoGoalYet(forw: set<Entry>, kept: set<Entry>, l: seq<nat>, n: int)
    ensures GoalKept(forw, kept, l[..0], n)
  {
  }

  /** The pruned chart: every entry is used by some parse of the whole input, it has the goal's
      entries of the forward chart, and all ways to derive what it has are in it too. */
  method BackwardPass(F: seq<State>, T: Tables, n: nat, ghost P: Problem, ghost forw: set<Entry>)
    returns (B: seq<State>, ghost kept: set<Entry>)
    requires Chart(P, F) && Idle(F) && Lists(Sets(F, |F|), forw) && Posed(P, T) && T.nts > 0 && n == |P.toks|
    ensures Chart(P, B) && Lists(Sets(B, |B|), kept) && AllUsed(P, kept) && AllTraced(T, forw, kept) && AllFilled(B)
    ensures GoalKept(forw, kept, T.enders[0], n)
  {
    assert 0 < |T.enders|;
    ghost var l := T.enders[0];
    hide *;
    B := BlankBeside(F, T, n, P, forw);
    kept := KeepGoal(F, B, T, n, P, forw, {});
    ghost var goal := kept;
    kept := PruneAll(F, B, T, n, P, forw, kept);
    GoalStays(forw, goal, kept, l, n);
    PrunedChart(P, F, B, forw, kept);
  }

  /** A blank chart to prune into. */
  method BlankBeside(F: seq<State>, T: Tables, n: nat, ghost P: Problem, ghost forw: set<Entry>) returns (B: seq<State>)
    requires Chart(P, F) && Idle(F) && Lists(Sets(F, |F|), forw) && Posed(P, T) && n == |P.toks|
    ensures Pruning(P, F, B, forw, {}) && NoOlds(B, n) && forall o :: o in Region(B) ==> fresh(o)
  {
    hide Item, Ready, Fits;
    B := MakeStates(n, |T.steps|, P);
    assert TwoCharts(P, F, B);
    BlankPruning(P, F, B, forw);
    hide Pruning, TwoCharts, Chart, Blank;
  }

  lemma GoalStays(forw: set<Entry>, kept: set<Entry>, kept': set<Entry>, l: seq<nat>, n: int)
    requires GoalKept(forw, kept, l, n) && kept <= kept'
    ensures GoalKept(forw, kept', l, n)
  {
  }

  lemma PrunedChart(P: Problem, F: seq<State>, B: seq<State>, forw: set<Entry>, kept: set<Entry>)
    requires Pruning(P, F, B, forw, kept)
    ensures Chart(P, B) && Lists(Sets(B, |B|), kept) && AllUsed(P, kept) && AllFilled(B)
  {
  }

  lemma BlankPruning(P: Problem, F: seq<State>, B: seq<State>, forw: set<Entry>)
    requires TwoCharts(P, F, B) && Idle(F) && Lists(Sets(F, |F|), forw)
    requires AllFilled(B) && forall k :: 0 <= k < |B| ==> Blank(B[k])
    ensures Pruning(P, F, B, forw, {}) && NoOlds(B, |P.toks|)
  {
    hide Used, Ready;
    var all := Sets(B, |B|);
    forall j, c | 0 <= j < |all| && 0 <= c < |all[j]| ensures all[j][c] == [] {
      JoinAt(B[j].olds, B[j].news, c);
    }
  }
}
