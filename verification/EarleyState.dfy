/** One state of the Earley chart.  For each configuration (a rule with a dot in it) it has a
    vector, the conf set, in which two linked lists of origins are threaded through the slots
    from 5 on: the origins already worked on and the new ones. */
module EarleyState {
  import opened Common

  /** What the source writes as false in a slot. */
  const ABSENT := -2

  ghost predicate InRange(s: seq<int>, num: nat) {
    forall k :: 0 <= k < |s| ==> 0 <= s[k] <= num
  }

  function Next(s: seq<int>, k: nat): int
    requires k < |s|
  {
    if k + 1 < |s| then s[k + 1] else -1
  }

  function Head(s: seq<int>): int {
    if s == [] then -1 else s[0]
  }

  function Tail(s: seq<int>, none: int): int {
    if s == [] then none else s[|s| - 1]
  }

  ghost predicate Link(v: seq<int>, s: seq<int>, k: nat)
    requires k < |s|
  {
    0 <= s[k] < |v| - 5 && v[s[k] + 5] == Next(s, k)
  }

  ghost predicate Linked(v: seq<int>, s: seq<int>) {
    forall k :: 0 <= k < |s| ==> Link(v, s, k)
  }

  ghost predicate Present(v: seq<int>, o: seq<int>, n: seq<int>) {
    forall i :: 0 <= i < |v| - 5 ==> (v[i + 5] == ABSENT <==> i !in o && i !in n)
  }

  /** The vector v of state num holds the old origins o and the new origins n: slots 1 and 2
      have the tail and the head of the old list, 3 and 4 those of the new one, and the slot of
      an origin is absent exactly when it is in neither. */
  ghost predicate Encodes(v: seq<int>, num: nat, o: seq<int>, n: seq<int>) {
    && |v| == num + 6 && InRange(o, num) && InRange(n, num)
    && NoDuplicates(o) && NoDuplicates(n) && (forall i :: i in o ==> i !in n)
    && v[1] == Tail(o, -3) && v[2] == Head(o) && v[3] == Tail(n, -1) && v[4] == Head(n)
    && Linked(v, o) && Linked(v, n) && Present(v, o, n)
  }

  /** A new, empty conf set. */
  method NewSet(num: nat) returns (a: array<int>)
    ensures fresh(a) && Encodes(a[..], num, [], [])
  {
    a := new int[num + 6](_ => ABSENT);
    a[1], a[2], a[3], a[4] := -3, -1, -1, -1;
  }

  function Merged(v: seq<int>): seq<int>
    requires |v| >= 6 && 0 <= v[1] + 5 < |v|
  {
    v[v[1] + 5 := v[4]][1 := v[3]][3 := -1][4 := -1]
  }

  /** Linking the old tail to the new head makes one list of the two. */
  lemma MergedLinks(v: seq<int>, num: nat, o: seq<int>, n: seq<int>)
    requires Encodes(v, num, o, n) && n != []
    ensures Linked(Merged(v), o + n)
  {
    forall k | 0 <= k < |o + n| ensures Link(Merged(v), o + n, k) {
      if k < |o| {
        MergedOldLink(v, num, o, n, k);
      } else {
        MergedNewLink(v, num, o, n, k - |o|);
      }
    }
  }

  lemma LinkAt(v: seq<int>, s: seq<int>, k: nat)
    requires Linked(v, s) && k < |s|
    ensures 0 <= s[k] < |v| - 5 && v[s[k] + 5] == Next(s, k)
  {
    assert Link(v, s, k);
  }

  lemma NextInBoth(o: seq<int>, n: seq<int>, k: nat)
    requires k < |o + n|
    ensures Next(o + n, k) ==
            if k < |o| then (if k + 1 < |o| then Next(o, k) else Head(n)) else Next(n, k - |o|)
  {
  }

  lemma LastIsOther(s: seq<int>, k: nat)
    requires NoDuplicates(s) && k + 1 < |s|
    ensures s[k] != Tail(s, -1)
  {
  }

  lemma MergedAt(v: seq<int>, p: int)
    requires |v| >= 6 && 0 <= v[1] + 5 < |v| && 5 <= p < |v|
    ensures Merged(v)[p] == if p == v[1] + 5 then v[4] else v[p]
  {
  }

  lemma MergedOldLink(v: seq<int>, num: nat, o: seq<int>, n: seq<int>, k: nat)
    requires Encodes(v, num, o, n) && n != [] && k < |o|
    ensures Merged(v)[o[k] + 5] == Next(o + n, k)
  {
    LinkAt(v, o, k);
    NextInBoth(o, n, k);
    if k + 1 < |o| {
      LastIsOther(o, k);
    }
    hide Merged, Present, Linked, Next, NoDuplicates;
    MergedAt(v, o[k] + 5);
  }

  lemma MergedNewLink(v: seq<int>, num: nat, o: seq<int>, n: seq<int>, k: nat)
    requires Encodes(v, num, o, n) && n != [] && k < |n|
    ensures Merged(v)[n[k] + 5] == Next(o + n, |o| + k)
  {
    LinkAt(v, n, k);
    NextInBoth(o, n, |o| + k);
    hide Merged, Present, Linked, Next, NoDuplicates;
    assert n[k] in n;
    if o != [] {
      assert o[|o| - 1] in o;
    }
    MergedAt(v, n[k] + 5);
  }

  lemma MergeEncodes(v: seq<int>, num: nat, o: seq<int>, n: seq<int>)
    requires Encodes(v, num, o, n) && n != []
    ensures Encodes(Merged(v), num, o + n, [])
  {
    MergedLinks(v, num, o, n);
    MergedPresence(v, num, o, n);
    hide Linked, Present;
    Concatenated(o, n, num);
    hide NoDuplicates, InRange;
    assert Linked(Merged(v), []) by {
      NoLinks(Merged(v));
    }
  }

  lemma NoLinks(v: seq<int>)
    ensures Linked(v, [])
  {
  }

  lemma MergedPresence(v: seq<int>, num: nat, o: seq<int>, n: seq<int>)
    requires Encodes(v, num, o, n) && n != []
    ensures Present(Merged(v), o + n, [])
  {
    hide Linked, NoDuplicates;
    assert n[0] in n && v[4] == n[0];
    if o != [] {
      assert o[|o| - 1] in o;
    }
  }

  lemma Concatenated(o: seq<int>, n: seq<int>, num: nat)
    requires NoDuplicates(o) && NoDuplicates(n) && (forall i :: i in o ==> i !in n) && InRange(o, num) && InRange(n, num)
    ensures NoDuplicates(o + n) && InRange(o + n, num)
    ensures n != [] ==> Head(o + n) == (if o == [] then n[0] else o[0]) && Tail(o + n, -3) == n[|n| - 1]
  {
    var all := o + n;
    forall i, j | 0 <= i < j < |all| ensures all[i] != all[j] {
      if i < |o| <= j {
        assert all[i] in o && all[j] in n;
      }
    }
  }

  /** The new origins are appended to the old ones.  With no old origins the write through the
      old tail, -3, goes to slot 2, the head. */
  method MergeNew(a: array<int>, num: nat, ghost o: seq<int>, ghost n: seq<int>)
    requires Encodes(a[..], num, o, n) && n != []
    modifies a
    ensures Encodes(a[..], num, o + n, []) && a[0] == old(a[0])
  {
    TailInVector(a[..], num, o, n);
    MergeEncodes(a[..], num, o, n);
    hide *;
    ghost var v := a[..];
    a[a[1] + 5] := a[4];
    a[1] := a[3];
    a[3] := -1;
    a[4] := -1;
    MergedIs(v, a[..]);
  }

  lemma MergedIs(v: seq<int>, v': seq<int>)
    requires |v| >= 6 && 2 <= v[1] + 5 < |v| && v[1] + 5 !in {3, 4}
    requires v' == v[v[1] + 5 := v[4]][1 := v[3]][3 := -1][4 := -1]
    ensures v' == Merged(v)
  {
  }

  lemma TailInVector(v: seq<int>, num: nat, o: seq<int>, n: seq<int>)
    requires Encodes(v, num, o, n)
    ensures |v| >= 6 && 2 <= v[1] + 5 < |v| && v[1] + 5 !in {3, 4} && 4 <= v[3] + 5 < |v|
  {
  }

  function Appended(v: seq<int>, i: int): seq<int>
    requires |v| >= 6 && 0 <= v[3] + 5 < |v| && 0 <= i < |v| - 5
  {
    v[i + 5 := -1][v[3] + 5 := i][3 := i]
  }

  lemma AppendedLinks(v: seq<int>, num: nat, i: int, o: seq<int>, n: seq<int>)
    requires Encodes(v, num, o, n) && 0 <= i <= num && i !in o && i !in n
    ensures Linked(Appended(v, i), o) && Linked(Appended(v, i), n + [i])
  {
    TailElsewhere(o, n, num);
    forall k | 0 <= k < |o| ensures Link(Appended(v, i), o, k) {
      AppendedOldLink(v, num, i, o, Tail(n, -1), k);
    }
    forall k | 0 <= k < |n + [i]| ensures Link(Appended(v, i), n + [i], k) {
      AppendedNewLink(v, num, i, n, k);
    }
  }

  lemma TailElsewhere(o: seq<int>, n: seq<int>, num: nat)
    requires InRange(o, num) && InRange(n, num) && (forall i :: i in o ==> i !in n)
    ensures -1 <= Tail(n, -1) <= num && Tail(n, -1) !in o
  {
    if n != [] {
      assert n[|n| - 1] in n;
    }
  }

  lemma AppendedAt(v: seq<int>, i: int, p: int)
    requires |v| >= 6 && 4 <= v[3] + 5 < |v| && 0 <= i < |v| - 5 && 5 <= p < |v|
    ensures Appended(v, i)[p] == if p == v[3] + 5 then i else if p == i + 5 then -1 else v[p]
  {
  }

  lemma AppendedOldLink(v: seq<int>, num: nat, i: int, o: seq<int>, tail: int, k: nat)
    requires |v| == num + 6 && InRange(o, num) && Linked(v, o) && k < |o| && 0 <= i <= num && i !in o
    requires v[3] == tail && -1 <= tail <= num && tail !in o
    ensures Appended(v, i)[o[k] + 5] == Next(o, k)
  {
    hide Appended, Next;
    LinkAt(v, o, k);
    assert o[k] in o;
    AppendedAt(v, i, o[k] + 5);
  }

  lemma AppendedNewLink(v: seq<int>, num: nat, i: int, n: seq<int>, k: nat)
    requires |v| == num + 6 && InRange(n, num) && Linked(v, n) && k <= |n| && 0 <= i <= num && i !in n
    requires v[3] == Tail(n, -1) && NoDuplicates(n)
    ensures Appended(v, i)[(n + [i])[k] + 5] == Next(n + [i], k)
  {
    NextInBoth(n, [i], k);
    if k == |n| {
      LastOfNew(v, i, n);
    } else {
      LinkAt(v, n, k);
      if k + 1 < |n| {
        LastIsOther(n, k);
      }
      hide Appended, Next, Linked, NoDuplicates;
      assert n[k] in n;
      AppendedAt(v, i, n[k] + 5);
    }
  }

  lemma LastOfNew(v: seq<int>, i: int, n: seq<int>)
    requires |v| >= 6 && 0 <= i < |v| - 5 && i !in n && v[3] == Tail(n, -1) && 4 <= v[3] + 5 < |v|
    ensures Appended(v, i)[i + 5] == -1 && Next([i], 0) == -1
  {
    if n != [] {
      assert n[|n| - 1] in n;
    }
    AppendedAt(v, i, i + 5);
  }

  lemma AppendEncodes(v: seq<int>, num: nat, i: int, o: seq<int>, n: seq<int>)
    requires Encodes(v, num, o, n) && 0 <= i <= num && i !in o && i !in n
    ensures Encodes(Appended(v, i), num, o, n + [i])
  {
    AppendedLinks(v, num, i, o, n);
    AppendedPresence(v, num, i, o, n);
    hide Linked, Present;
    Concatenated(n, [i], num);
  }

  lemma AppendedPresence(v: seq<int>, num: nat, i: int, o: seq<int>, n: seq<int>)
    requires Encodes(v, num, o, n) && 0 <= i <= num && i !in o && i !in n
    ensures Present(Appended(v, i), o, n + [i])
  {
    hide Linked, NoDuplicates;
    if n != [] {
      assert n[|n| - 1] in n;
    }
  }

  /** A new origin at the end of the new list; with no new origins yet the write through the
      tail, -1, goes to slot 4, the head. */
  method Append(a: array<int>, num: nat, i: int, ghost o: seq<int>, ghost n: seq<int>)
    requires Encodes(a[..], num, o, n) && 0 <= i <= num && i !in o && i !in n
    modifies a
    ensures Encodes(a[..], num, o, n + [i]) && a[0] == old(a[0])
  {
    TailInVector(a[..], num, o, n);
    AppendEncodes(a[..], num, i, o, n);
    ghost var v := a[..];
    hide Encodes;
    var tail := a[3];
    a[i + 5] := -1;
    a[tail + 5] := i;
    a[3] := i;
    assert a[..] == Appended(v, i);
  }

  lemma SlotZeroFree(v: seq<int>, num: nat, o: seq<int>, n: seq<int>, x: int)
    requires Encodes(v, num, o, n)
    ensures Encodes(v[0 := x], num, o, n)
  {
    var v' := v[0 := x];
    forall k | 0 <= k < |o| ensures Link(v', o, k) {
      LinkAt(v, o, k);
    }
    forall k | 0 <= k < |n| ensures Link(v', n, k) {
      LinkAt(v, n, k);
    }
  }

  // ----- a whole state, on values

  ghost predicate SetGood(num: nat, v: seq<int>, o: seq<int>, n: seq<int>) {
    if v == [] then o == [] && n == [] else Encodes(v, num, o, n)
  }

  /** The configurations with new origins are chained through slot 0 of their conf sets. */
  ghost predicate Chain(vecs: seq<seq<int>>, work: seq<int>, k: nat)
    requires k < |work|
  {
    0 <= work[k] < |vecs| && vecs[work[k]] != [] && vecs[work[k]][0] == Next(work, k)
  }

  ghost predicate Worklist(vecs: seq<seq<int>>, news: seq<seq<int>>, work: seq<int>) {
    && NoDuplicates(work) && |news| == |vecs|
    && (forall k :: 0 <= k < |work| ==> Chain(vecs, work, k))
    && (forall c :: 0 <= c < |news| ==> (c in work <==> news[c] != []))
  }

  ghost predicate Good(num: nat, vecs: seq<seq<int>>, olds: seq<seq<int>>, news: seq<seq<int>>, work: seq<int>, first: int) {
    && |vecs| == |olds| == |news| && first == Head(work) && Worklist(vecs, news, work)
    && (forall c :: 0 <= c < |vecs| ==> SetGood(num, vecs[c], olds[c], news[c]))
  }

  /** Making the conf set of c. */
  lemma GetGood(num: nat, vecs: seq<seq<int>>, olds: seq<seq<int>>, news: seq<seq<int>>, work: seq<int>, first: int,
                c: nat, v: seq<int>)
    requires Good(num, vecs, olds, news, work, first) && c < |vecs| && vecs[c] == [] && Encodes(v, num, [], [])
    ensures Good(num, vecs[c := v], olds, news, work, first)
  {
    hide Encodes, NoDuplicates;
    var vecs' := vecs[c := v];
    assert SetGood(num, vecs[c], olds[c], news[c]);
    forall k | 0 <= k < |work| ensures Chain(vecs', work, k) {
      assert Chain(vecs, work, k);
    }
    forall d | 0 <= d < |vecs'| ensures SetGood(num, vecs'[d], olds[d], news[d]) {
      assert SetGood(num, vecs[d], olds[d], news[d]);
    }
  }

  /** Adding a new origin of c; the first one puts c on the worklist. */
  lemma AdjoinGood(num: nat, vecs: seq<seq<int>>, olds: seq<seq<int>>, news: seq<seq<int>>, work: seq<int>, first: int,
                   c: nat, i: int, v: seq<int>)
    requires Good(num, vecs, olds, news, work, first) && c < |vecs| && Encodes(v, num, olds[c], news[c] + [i])
    requires v[0] == (if news[c] == [] then first else vecs[c][0]) && (news[c] != [] ==> vecs[c] != [])
    ensures var work' := if news[c] == [] then [c] + work else work;
            Good(num, vecs[c := v], olds, news[c := news[c] + [i]], work', Head(work'))
  {
    hide Encodes, Next;
    var work' := if news[c] == [] then [c] + work else work;
    var vecs', news' := vecs[c := v], news[c := news[c] + [i]];
    EncodesNotEmpty(v, num, olds[c], news[c] + [i]);
    forall k | 0 <= k < |work'| ensures Chain(vecs', work', k) {
      if news[c] == [] {
        assert c !in work;
        NextInBoth([c], work, k);
        if k > 0 {
          assert Chain(vecs, work, k - 1) && work'[k] == work[k - 1] && work[k - 1] in work;
        } else {
          AloneNext(c);
        }
      } else {
        assert Chain(vecs, work, k);
      }
    }
    forall d | 0 <= d < |vecs'| ensures SetGood(num, vecs'[d], olds[d], news'[d]) {
      assert SetGood(num, vecs[d], olds[d], news[d]);
    }
    Longer(work, c);
  }

  lemma AloneNext(c: int)
    ensures Next([c], 0) == -1
  {
  }

  lemma Longer(work: seq<int>, c: int)
    requires NoDuplicates(work)
    ensures c !in work ==> NoDuplicates([c] + work)
    ensures forall d :: d in [c] + work <==> d == c || d in work
  {
  }

  /** Taking the first configuration off the worklist and merging its lists. */
  lemma PopGood(num: nat, vecs: seq<seq<int>>, olds: seq<seq<int>>, news: seq<seq<int>>, work: seq<int>, first: int, v: seq<int>)
    requires Good(num, vecs, olds, news, work, first) && first >= 0
    requires 0 <= first < |vecs| ==> Encodes(v, num, olds[first] + news[first], [])
    ensures work != [] && first == work[0] && 0 <= first < |vecs| && vecs[first] != [] && news[first] != []
    ensures vecs[first][0] == Head(work[1..])
    ensures Good(num, vecs[first := v], olds[first := olds[first] + news[first]], news[first := []], work[1..],
                 Head(work[1..]))
  {
    hide Encodes;
    assert Chain(vecs, work, 0) && first in work;
    var rest, vecs', news' := work[1..], vecs[first := v], news[first := []];
    forall k | 0 <= k < |rest| ensures Chain(vecs', rest, k) {
      assert Chain(vecs, work, k + 1);
    }
    forall d | 0 <= d < |vecs'|
      ensures SetGood(num, vecs'[d], olds[first := olds[first] + news[first]][d], news'[d])
    {
      assert SetGood(num, vecs[d], olds[d], news[d]);
      if d == first {
        EncodesNotEmpty(v, num, olds[first] + news[first], []);
      }
    }
    assert forall d :: d in work <==> d == first || d in rest;
  }

  lemma EncodesNotEmpty(v: seq<int>, num: nat, o: seq<int>, n: seq<int>)
    requires Encodes(v, num, o, n)
    ensures v != []
  {
  }

  lemma WorkHead(vecs: seq<seq<int>>, news: seq<seq<int>>, work: seq<int>)
    requires Worklist(vecs, news, work)
    ensures work != [] ==> Head(work) >= 0
  {
    if work != [] {
      assert Chain(vecs, work, 0);
    }
  }

  // ----- a whole state, on the heap

  class State {
    const num: nat
    const sets: array<array?<int>>
    var first: int
    ghost var vecs: seq<seq<int>>
    ghost var olds: seq<seq<int>>
    ghost var news: seq<seq<int>>
    ghost var work: seq<int>
    ghost var repr: set<object>

    /** vecs mirrors the vectors of the state, which are all different. */
    ghost predicate Mirrored()
      reads this, repr
    {
      && sets in repr && this !in repr && |vecs| == sets.Length
      && (forall c :: 0 <= c < |vecs| && sets[c] != null ==> sets[c] in repr && vecs[c] == sets[c][..] && vecs[c] != [])
      && (forall c :: 0 <= c < |vecs| && sets[c] == null ==> vecs[c] == [])
      && (forall c, d :: 0 <= c < d < |vecs| && sets[c] != null ==> sets[c] != sets[d])
    }

    ghost predicate Valid()
      reads this, repr
    {
      Mirrored() && Good(num, vecs, olds, news, work, first)
    }

    /** The origins of a configuration, old and new. */
    ghost function All(c: int): seq<int>
      requires 0 <= c < |olds| == |news|
      reads this
    {
      olds[c] + news[c]
    }

    /** Every conf set that was made has an origin. */
    ghost predicate Filled()
      reads this
    {
      |olds| == |news| == |vecs| && forall c :: 0 <= c < |vecs| && vecs[c] != [] ==> olds[c] + news[c] != []
    }

    constructor (num: nat, confs: nat)
      ensures Valid() && fresh(repr) && this.num == num && sets.Length == confs && work == []
      ensures forall c :: 0 <= c < confs ==> olds[c] == [] && news[c] == []
      ensures Filled()
    {
      this.num := num;
      first := -1;
      var s := new array?<int>[confs](_ => null);
      sets := s;
      vecs, olds, news := seq(confs, _ => []), seq(confs, _ => []), seq(confs, _ => []);
      work := [];
      repr := {s};
    }

    /** The conf set of c, made when it is first needed. */
    method Get(c: nat) returns (a: array<int>)
      requires Valid() && c < sets.Length
      modifies this, repr
      ensures Valid() && fresh(repr - old(repr)) && a == sets[c]
      ensures olds == old(olds) && news == old(news) && work == old(work) && first == old(first)
      ensures forall d :: 0 <= d < sets.Length && old(sets[d]) != null ==> sets[d] == old(sets[d])
      ensures |vecs| == |old(vecs)| && forall d :: 0 <= d < |vecs| && d != c ==> vecs[d] == old(vecs)[d]
    {
      if sets[c] != null {
        return sets[c];
      }
      a := NewSet(num);
      GetGood(num, vecs, olds, news, work, first, c, a[..]);
      EncodesNotEmpty(a[..], num, [], []);
      hide Good;
      sets[c] := a;
      vecs := vecs[c := a[..]];
      repr := repr + {a};
    }

    /** conf-set-adjoin: i becomes the last new origin of c. */
    method Adjoin(c: nat, i: nat)
      requires Valid() && c < sets.Length && sets[c] != null && i <= num && i !in All(c)
      modifies this, repr
      ensures Valid() && repr == old(repr)
      ensures olds == old(olds) && news == old(news)[c := old(news)[c] + [i]]
      ensures |vecs| == |old(vecs)| && forall d :: 0 <= d < |vecs| && d != c ==> vecs[d] == old(vecs)[d]
    {
      var a := sets[c];
      SetAt(c);
      var tail := a[3];
      Append(a, num, i, olds[c], news[c]);
      if tail < 0 {
        SlotZeroFree(a[..], num, olds[c], news[c] + [i], first);
        a[0] := first;
        first := c;
      }
      EncodesNotEmpty(a[..], num, olds[c], news[c] + [i]);
      AdjoinGood(num, vecs, olds, news, work, old(first), c, i, a[..]);
      work := if news[c] == [] then [c] + work else work;
      vecs, news := vecs[c := a[..]], news[c := news[c] + [i]];
    }

    lemma SetAt(c: nat)
      requires Valid() && c < sets.Length && sets[c] != null
      ensures Encodes(sets[c][..], num, olds[c], news[c]) && |olds| == |news| == sets.Length && sets[c] in repr
      ensures vecs[c] == sets[c][..]
    {
      assert SetGood(num, vecs[c], olds[c], news[c]);
    }

    /** Takes the first configuration off the worklist; its new origins become old ones. */
    method Pop() returns (c: nat, head: int)
      requires Valid() && first >= 0
      modifies this, repr
      ensures Valid() && repr == old(repr) && c == old(first) && c < sets.Length && sets[c] != null
      ensures old(news)[c] != [] && head == old(news)[c][0]
      ensures olds == old(olds)[c := old(olds)[c] + old(news)[c]] && news == old(news)[c := []]
      ensures old(Filled()) ==> Filled()
    {
      ghost var c0 := first;
      PopStart();
      c := first;
      var a := sets[c];
      SetAt(c);
      head := a[4];
      first := a[0];
      ghost var o, n := olds[c], news[c];
      MergeNew(a, num, o, n);
      EncodesNotEmpty(a[..], num, o + n, []);
      PopGood(num, vecs, olds, news, work, c0, a[..]);
      vecs, olds, news := vecs[c := a[..]], olds[c := o + n], news[c := []];
      work := work[1..];
    }

    lemma PopStart()
      requires Valid() && first >= 0
      ensures 0 <= first < sets.Length && sets[first] != null && news[first] != [] && |news| == |olds| == sets.Length
    {
      assert Chain(vecs, work, 0) && first in work;
    }

    /** Whether i is an origin of c.  Reading past the end of the vector gives undefined, which
        is not false: for i > num the answer is whether there is a conf set at all. */
    method Has(c: nat, i: nat) returns (b: bool)
      requires Valid() && c < sets.Length
      ensures i <= num ==> (b <==> i in All(c))
      ensures i > num ==> (b <==> sets[c] != null)
    {
      var a := sets[c];
      if a == null {
        assert SetGood(num, vecs[c], olds[c], news[c]);
        return false;
      }
      SetAt(c);
      return i > num || a[i + 5] != ABSENT;
    }

    /** The links of the old list. */
    lemma OldLink(c: nat, k: nat)
      requires Valid() && c < sets.Length && k < |olds[c]|
      ensures sets[c] != null && sets[c].Length == num + 6 && 0 <= olds[c][k] <= num
      ensures sets[c][olds[c][k] + 5] == Next(olds[c], k)
    {
      assert SetGood(num, vecs[c], olds[c], news[c]);
      LinkAt(vecs[c], olds[c], k);
    }

    /** With an empty worklist nothing is new. */
    lemma Idle()
      requires Valid() && first < 0
      ensures |news| == |olds| == sets.Length && forall c :: 0 <= c < |news| ==> news[c] == []
    {
      WorkHead(vecs, news, work);
    }

    lemma InBounds(c: nat)
      requires Valid() && c < sets.Length
      ensures |olds| == |news| == sets.Length && forall i :: i in All(c) ==> 0 <= i <= num
      ensures forall k :: 0 <= k < |olds[c]| ==> 0 <= olds[c][k] <= num
    {
      assert SetGood(num, vecs[c], olds[c], news[c]);
    }

    lemma OldHead(c: nat)
      requires Valid() && c < sets.Length && sets[c] != null
      ensures sets[c].Length == num + 6 && sets[c][2] == Head(olds[c])
    {
      SetAt(c);
    }

    lemma HasSet(c: nat)
      requires Valid() && c < sets.Length && |olds| == sets.Length
      ensures olds[c] != [] ==> sets[c] != null
    {
      assert SetGood(num, vecs[c], olds[c], news[c]);
    }

    /** A conf set is there exactly if it has an origin. */
    lemma SetHasOrigin(c: nat)
      requires Valid() && Filled() && c < sets.Length
      ensures |olds| == |news| == sets.Length && (sets[c] != null <==> All(c) != [])
    {
      if sets[c] == null {
        NoSet(c);
      }
    }

    lemma NoSet(c: nat)
      requires Valid() && c < sets.Length && sets[c] == null
      ensures All(c) == [] && olds[c] == [] && news[c] == []
    {
      assert SetGood(num, vecs[c], olds[c], news[c]);
    }
  }
}
