/** What the Splay benchmark does to the map that the tree stands for, as a function of the keys that
    are drawn. */
module SplayDraws {

  /** The greatest key of a map below the given one, if there is one. */
  ghost predicate GreatestBelow<V>(m: map<real, V>, key: real, g: real) {
    g in m && g < key && forall k :: k in m ==> k <= g || key <= k
  }

  /** A new node, and away with the one before it in order, or with itself if it comes first. */
  ghost function Replaced<V>(m: map<real, V>, key: real, v: V): map<real, V> {
    if exists g :: GreatestBelow(m, key, g) then
      var g :| GreatestBelow(m, key, g);
      m[key := v] - {g}
    else m
  }

  /** The map after the keys have been drawn in turn: those that are bound are passed over. */
  ghost function Churned<V>(m: map<real, V>, drawn: seq<real>, payload: real -> V): map<real, V> {
    if drawn == [] then m
    else
      var m', key := Churned(m, drawn[..|drawn| - 1], payload), drawn[|drawn| - 1];
      if key in m' then m' else Replaced(m', key, payload(key))
  }

  /** How many of the keys were new when they were drawn. */
  ghost function NewKeys<V>(m: map<real, V>, drawn: seq<real>, payload: real -> V): nat {
    if drawn == [] then 0
    else
      var rest, key := drawn[..|drawn| - 1], drawn[|drawn| - 1];
      NewKeys(m, rest, payload) + if key in Churned(m, rest, payload) then 0 else 1
  }

  /** The keys drawn are as many as it takes to have n new ones, the last of them new; or all there
      are, and too few. */
  ghost predicate JustEnough<V>(m: map<real, V>, drawn: seq<real>, n: nat, payload: real -> V, all: bool) {
    var c := NewKeys(m, drawn, payload);
    if c == n then drawn == [] || NewKeys(m, drawn[..|drawn| - 1], payload) < n else c < n && all
  }

  /** The map that binds just the keys drawn. */
  ghost function Bindings<V>(drawn: seq<real>, payload: real -> V): map<real, V> {
    map k | k in drawn :: payload(k)
  }

  // ----- what a replacement is

  /** A key that comes first goes again. */
  lemma ReplacedFirst<V>(m: map<real, V>, key: real, v: V)
    requires forall k :: k in m ==> key < k
    ensures Replaced(m, key, v) == m
  {
  }

  /** Any other takes the place of the greatest key below it. */
  lemma ReplacedBy<V>(m: map<real, V>, key: real, v: V, g: real)
    requires g in m && g < key && forall k :: k in m ==> k <= g || key < k
    ensures Replaced(m, key, v) == m[key := v] - {g}
  {
    assert GreatestBelow(m, key, g);
    OneGreatest(m, key);
  }

  /** One of the two is the case. */
  lemma FirstOrGreatest<V>(m: map<real, V>, key: real)
    requires key !in m
    ensures (forall k :: k in m ==> key < k) || exists g :: g in m && g < key && forall k :: k in m ==> k <= g || key < k
  {
    if k :| k in m && k <= key {
      assert k < key;
      var g := Greatest(m, key, m.Keys);
    }
  }

  lemma OneGreatest<V>(m: map<real, V>, key: real)
    ensures forall g, g' :: GreatestBelow(m, key, g) && GreatestBelow(m, key, g') ==> g == g'
  {
  }

  /** Of the keys of a map in a set, the greatest below the given one. */
  lemma Greatest<V>(m: map<real, V>, key: real, s: set<real>) returns (g: real)
    requires exists k :: k in s && k < key
    ensures g in s && g < key && forall k :: k in s ==> k <= g || key <= k
    decreases |s|
  {
    g :| g in s && g < key;
    var s' := s - {g};
    if exists k :: k in s' && k < key {
      var h := Greatest(m, key, s');
      if h > g {
        g := h;
      }
    }
    forall k | k in s ensures k <= g || key <= k {
      assert k in s' || k !in s';
    }
  }

  // ----- drawing on

  lemma {:induction false} ChurnedMore<V>(m: map<real, V>, a: seq<real>, b: seq<real>, payload: real -> V)
    ensures Churned(m, a + b, payload) == Churned(Churned(m, a, payload), b, payload)
    ensures NewKeys(m, a + b, payload) == NewKeys(m, a, payload) + NewKeys(Churned(m, a, payload), b, payload)
  {
    if b == [] {
      assert a + b == a;
    } else {
      ChurnedMore(m, a, b[..|b| - 1], payload);
      assert (a + b)[..|a + b| - 1] == a + b[..|b| - 1];
    }
  }

  lemma {:induction false} NoneNew<V>(m: map<real, V>, drawn: seq<real>, payload: real -> V)
    requires forall k :: k in drawn ==> k in m
    ensures Churned(m, drawn, payload) == m && NewKeys(m, drawn, payload) == 0
  {
    if drawn == [] {
    } else {
      NoneNew(m, drawn[..|drawn| - 1], payload);
    }
  }

  /** The keys up to the first new one. */
  lemma UpToNew<V>(m: map<real, V>, drawn: seq<real>, payload: real -> V)
    requires drawn != [] && drawn[|drawn| - 1] !in m && forall i :: 0 <= i < |drawn| - 1 ==> drawn[i] in m
    ensures Churned(m, drawn, payload) == Replaced(m, drawn[|drawn| - 1], payload(drawn[|drawn| - 1]))
    ensures NewKeys(m, drawn, payload) == 1 && NewKeys(m, drawn[..|drawn| - 1], payload) == 0
  {
    NoneNew(m, drawn[..|drawn| - 1], payload);
  }

  lemma NothingDrawn<V>(m: map<real, V>, payload: real -> V, all: bool)
    ensures Churned(m, [], payload) == m && JustEnough(m, [], 0, payload, all)
  {
  }

  /** The keys that one more replacement, or one more round of them, has drawn. */
  lemma MoreDrawn<V>(m: map<real, V>, a: seq<real>, b: seq<real>, n: nat, n': nat, payload: real -> V, all: bool, all': bool)
    requires JustEnough(m, a, n, payload, all) && JustEnough(Churned(m, a, payload), b, n', payload, all')
    requires all ==> b == [] && all'
    ensures JustEnough(m, a + b, n + n', payload, all')
    ensures Churned(m, a + b, payload) == Churned(Churned(m, a, payload), b, payload)
  {
    ChurnedMore(m, a, b, payload);
    if b == [] {
      assert a + b == a;
    } else {
      ChurnedMore(m, a, b[..|b| - 1], payload);
      assert (a + b)[..|a + b| - 1] == a + b[..|b| - 1];
    }
  }

  lemma BindingsMore<V>(a: seq<real>, b: seq<real>, payload: real -> V)
    requires forall i :: 0 <= i < |b| - 1 ==> b[i] in a
    ensures b != [] ==> Bindings(a + b, payload) == Bindings(a, payload)[b[|b| - 1] := payload(b[|b| - 1])]
    ensures (b == [] || b[|b| - 1] in a) ==> Bindings(a + b, payload) == Bindings(a, payload)
  {
    if b != [] {
      assert b[|b| - 1] in b;
    }
    forall k | k in a + b ensures k in a || (b != [] && k == b[|b| - 1]) {
      if k !in a {
        var i :| 0 <= i < |b| && b[i] == k;
      }
    }
  }
}
