/** The shape of a splay tree and the top-down splay as a function on shapes.  A shape names the
    nodes it is made of, so that SplayTree.dfy can say which part of the heap it describes; the
    key and the value of a node never change. */
module SplayShape {

  class Node<V> {
    const key: real
    const value: V
    var left: Node?<V>
    var right: Node?<V>

    constructor (key: real, value: V)
      ensures this.key == key && this.value == value && left == null && right == null
    {
      this.key, this.value, left, right := key, value, null, null;
    }
  }

  datatype Shape<V> = Empty | Tree(node: Node<V>, left: Shape<V>, right: Shape<V>)

  /** A path of linked nodes, last one outermost, each with the subtree on its other side. */
  datatype Spine<V> = Top | Link(up: Spine<V>, node: Node<V>, side: Shape<V>)

  ghost function Inorder<V>(t: Shape<V>): seq<Node<V>> {
    match t
    case Empty => []
    case Tree(n, l, r) => Inorder(l) + [n] + Inorder(r)
  }

  /** In order, what lies to the left of the hole of a left spine. */
  ghost function InorderL<V>(s: Spine<V>): seq<Node<V>> {
    match s
    case Top => []
    case Link(up, n, side) => InorderL(up) + Inorder(side) + [n]
  }

  /** In order, what lies to the right of the hole of a right spine. */
  ghost function InorderR<V>(s: Spine<V>): seq<Node<V>> {
    match s
    case Top => []
    case Link(up, n, side) => [n] + Inorder(side) + InorderR(up)
  }

  ghost predicate Sorted<V>(ns: seq<Node<V>>) {
    forall i, j :: 0 <= i < j < |ns| ==> ns[i].key < ns[j].key
  }

  ghost predicate AllBelow<V>(ns: seq<Node<V>>, key: real) {
    forall i :: 0 <= i < |ns| ==> ns[i].key < key
  }

  ghost predicate AllAbove<V>(ns: seq<Node<V>>, key: real) {
    forall i :: 0 <= i < |ns| ==> key < ns[i].key
  }

  // ----- the splay

  /** Where the descent for a key ends: two spines and the tree between them. */
  ghost function Descend<V>(l: Spine<V>, t: Shape<V>, r: Spine<V>, key: real): (Spine<V>, Shape<V>, Spine<V>)
    requires t.Tree?
    decreases t
  {
    if key < t.node.key then
      if t.left.Empty? then (l, t, r)
      else if key < t.left.node.key then
        var t1 := RotateRight(t);
        if t1.left.Empty? then (l, t1, r) else Descend(l, t1.left, Link(r, t1.node, t1.right), key)
      else Descend(l, t.left, Link(r, t.node, t.right), key)
    else if key > t.node.key then
      if t.right.Empty? then (l, t, r)
      else if key > t.right.node.key then
        var t1 := RotateLeft(t);
        if t1.right.Empty? then (l, t1, r) else Descend(Link(l, t1.node, t1.left), t1.right, r, key)
      else Descend(Link(l, t.node, t.left), t.right, r, key)
    else (l, t, r)
  }

  ghost function RotateRight<V>(t: Shape<V>): Shape<V>
    requires t.Tree? && t.left.Tree?
  {
    Tree(t.left.node, t.left.left, Tree(t.node, t.left.right, t.right))
  }

  ghost function RotateLeft<V>(t: Shape<V>): Shape<V>
    requires t.Tree? && t.right.Tree?
  {
    Tree(t.right.node, Tree(t.node, t.left, t.right.left), t.right.right)
  }

  /** The left tree with x in its hole. */
  ghost function FillL<V>(s: Spine<V>, x: Shape<V>): Shape<V> {
    match s
    case Top => x
    case Link(up, n, side) => FillL(up, Tree(n, side, x))
  }

  ghost function FillR<V>(s: Spine<V>, x: Shape<V>): Shape<V> {
    match s
    case Top => x
    case Link(up, n, side) => FillR(up, Tree(n, x, side))
  }

  ghost function Splayed<V>(t: Shape<V>, key: real): Shape<V>
    requires t.Tree?
  {
    var (l, t', r) := Descend(Top, t, Top, key);
    if t'.Tree? then Tree(t'.node, FillL(l, t'.left), FillR(r, t'.right)) else Empty
  }

  // ----- what it keeps

  lemma FillRegroup<T>(a: seq<T>, b: seq<T>, x: T, c: seq<T>)
    ensures (a + b + [x]) + c == a + (b + [x] + c)
  {
  }

  lemma {:induction false} FillInorder<V>(s: Spine<V>, x: Shape<V>)
    ensures Inorder(FillL(s, x)) == InorderL(s) + Inorder(x)
    ensures Inorder(FillR(s, x)) == Inorder(x) + InorderR(s)
  {
    match s {
      case Top =>
      case Link(up, n, side) =>
        FillInorder(up, Tree(n, side, x));
        FillInorder(up, Tree(n, x, side));
        FillRegroup(InorderL(up), Inorder(side), n, Inorder(x));
        FillRegroup(Inorder(x), [], n, Inorder(side) + InorderR(up));
    }
  }

  ghost predicate SameOrder<V>(l: Spine<V>, t: Shape<V>, r: Spine<V>, l': Spine<V>, t': Shape<V>, r': Spine<V>) {
    InorderL(l) + Inorder(t) + InorderR(r) == InorderL(l') + Inorder(t') + InorderR(r')
  }

  lemma Regroup<T>(a: seq<T>, x: T, b: seq<T>, y: T, c: seq<T>)
    ensures (a + [x] + b) + [y] + c == a + [x] + (b + [y] + c)
  {
  }

  lemma InorderTree<V>(n: Node<V>, l: Shape<V>, r: Shape<V>)
    ensures Inorder(Tree(n, l, r)) == Inorder(l) + [n] + Inorder(r)
  {
  }

  lemma RotateOrder<V>(t: Shape<V>)
    requires t.Tree?
    ensures t.left.Tree? ==> Inorder(RotateRight(t)) == Inorder(t)
    ensures t.right.Tree? ==> Inorder(RotateLeft(t)) == Inorder(t)
  {
    hide Inorder;
    InorderTree(t.node, t.left, t.right);
    if t.left.Tree? {
      var u := t.left;
      InorderTree(u.node, u.left, u.right);
      InorderTree(t.node, u.right, t.right);
      InorderTree(u.node, u.left, Tree(t.node, u.right, t.right));
      Regroup(Inorder(u.left), u.node, Inorder(u.right), t.node, Inorder(t.right));
    }
    if t.right.Tree? {
      var u := t.right;
      InorderTree(u.node, u.left, u.right);
      InorderTree(t.node, t.left, u.left);
      InorderTree(u.node, Tree(t.node, t.left, u.left), u.right);
      Regroup(Inorder(t.left), t.node, Inorder(u.left), u.node, Inorder(u.right));
    }
  }

  lemma LinkRegroup<T>(a: seq<T>, b: seq<T>, x: T, c: seq<T>, d: seq<T>)
    ensures a + (b + [x] + c) + d == a + b + ([x] + c + d)
    ensures a + (b + [x] + c) + d == (a + b + [x]) + c + d
    ensures (a + b) + [x] + (c + d) == a + (b + [x] + c) + d
  {
  }

  lemma LinkOrder<V>(l: Spine<V>, t: Shape<V>, r: Spine<V>)
    requires t.Tree?
    ensures SameOrder(l, t, r, l, t.left, Link(r, t.node, t.right))
    ensures SameOrder(l, t, r, Link(l, t.node, t.left), t.right, r)
  {
    LinkRegroup(InorderL(l), Inorder(t.left), t.node, Inorder(t.right), InorderR(r));
  }

  /** The descent only moves nodes between the three parts; their order stays. */
  lemma {:induction false} DescendOrder<V>(l: Spine<V>, t: Shape<V>, r: Spine<V>, key: real)
    requires t.Tree?
    ensures var (l', t', r') := Descend(l, t, r, key); t'.Tree? && SameOrder(l, t, r, l', t', r')
    decreases t
  {
    RotateOrder(t);
    LinkOrder(l, t, r);
    if key < t.node.key && t.left.Tree? {
      if key < t.left.node.key {
        var t1 := RotateRight(t);
        LinkOrder(l, t1, r);
        if t1.left.Tree? {
          DescendOrder(l, t1.left, Link(r, t1.node, t1.right), key);
        }
      } else {
        DescendOrder(l, t.left, Link(r, t.node, t.right), key);
      }
    } else if key > t.node.key && t.right.Tree? {
      if key > t.right.node.key {
        var t1 := RotateLeft(t);
        LinkOrder(l, t1, r);
        if t1.right.Tree? {
          DescendOrder(Link(l, t1.node, t1.left), t1.right, r, key);
        }
      } else {
        DescendOrder(Link(l, t.node, t.left), t.right, r, key);
      }
    }
  }

  /** Splaying keeps the in-order sequence of nodes. */
  lemma SplayKeepsOrder<V>(t: Shape<V>, key: real)
    requires t.Tree?
    ensures Splayed(t, key).Tree? && Inorder(Splayed(t, key)) == Inorder(t)
  {
    DescendOrder(Top, t, Top, key);
    var (l, t', r) := Descend(Top, t, Top, key);
    FillInorder(l, t'.left);
    FillInorder(r, t'.right);
    InorderTree(t'.node, FillL(l, t'.left), FillR(r, t'.right));
    InorderTree(t'.node, t'.left, t'.right);
    assert InorderL<V>(Top) + Inorder(t) + InorderR<V>(Top) == Inorder(t);
    hide Inorder, InorderL, InorderR, Descend;
    LinkRegroup(InorderL(l), Inorder(t'.left), t'.node, Inorder(t'.right), InorderR(r));
  }

  // ----- where it ends

  lemma SortedParts<V>(a: seq<Node<V>>, n: Node<V>, b: seq<Node<V>>)
    requires Sorted(a + [n] + b)
    ensures Sorted(a) && Sorted(b) && AllBelow(a, n.key) && AllAbove(b, n.key)
  {
    var all := a + [n] + b;
    assert all[|a|] == n;
    assert forall i :: 0 <= i < |a| ==> all[i] == a[i];
    assert forall i :: 0 <= i < |b| ==> all[|a| + 1 + i] == b[i];
  }

  /** The node at which the descent stops is next to the key, or has it. */
  ghost predicate Stopped<V>(t: Shape<V>, key: real) {
    t.Tree? && (t.node.key == key || (key < t.node.key && t.left.Empty?) || (t.node.key < key && t.right.Empty?))
  }

  lemma BelowLink<V>(s: Spine<V>, t: Shape<V>, key: real)
    requires t.Tree? && Sorted(Inorder(t)) && AllBelow(InorderL(s), key) && t.node.key < key
    ensures AllBelow(InorderL(Link(s, t.node, t.left)), key) && Sorted(Inorder(t.right))
  {
    SortedParts(Inorder(t.left), t.node, Inorder(t.right));
  }

  lemma AboveLink<V>(s: Spine<V>, t: Shape<V>, key: real)
    requires t.Tree? && Sorted(Inorder(t)) && AllAbove(InorderR(s), key) && key < t.node.key
    ensures AllAbove(InorderR(Link(s, t.node, t.right)), key) && Sorted(Inorder(t.left))
  {
    SortedParts(Inorder(t.left), t.node, Inorder(t.right));
  }

  /** The left spine collects smaller keys, the right spine greater ones. */
  lemma {:induction false} DescendSplits<V>(l: Spine<V>, t: Shape<V>, r: Spine<V>, key: real)
    requires t.Tree? && Sorted(Inorder(t)) && AllBelow(InorderL(l), key) && AllAbove(InorderR(r), key)
    ensures var (l', t', r') := Descend(l, t, r, key);
            Stopped(t', key) && AllBelow(InorderL(l'), key) && AllAbove(InorderR(r'), key)
    decreases t
  {
    RotateOrder(t);
    if key < t.node.key && t.left.Tree? {
      if key < t.left.node.key {
        var t1 := RotateRight(t);
        AboveLink(r, t1, key);
        if t1.left.Tree? {
          DescendSplits(l, t1.left, Link(r, t1.node, t1.right), key);
        }
      } else {
        AboveLink(r, t, key);
        DescendSplits(l, t.left, Link(r, t.node, t.right), key);
      }
    } else if key > t.node.key && t.right.Tree? {
      if key > t.right.node.key {
        var t1 := RotateLeft(t);
        BelowLink(l, t1, key);
        if t1.right.Tree? {
          DescendSplits(Link(l, t1.node, t1.left), t1.right, r, key);
        }
      } else {
        BelowLink(l, t, key);
        DescendSplits(Link(l, t.node, t.left), t.right, r, key);
      }
    }
  }

  /** After a splay the root has the key; or it is the key's successor, with only smaller keys
      on its left; or it is the key's predecessor, with only greater keys on its right. */
  lemma SplayRoot<V>(t: Shape<V>, key: real)
    requires t.Tree? && Sorted(Inorder(t))
    ensures var s := Splayed(t, key);
            && s.Tree? && Sorted(Inorder(s)) && Inorder(s) == Inorder(t)
            && AllBelow(Inorder(s.left), s.node.key) && AllAbove(Inorder(s.right), s.node.key)
            && (s.node.key == key
                || (key < s.node.key && AllBelow(Inorder(s.left), key))
                || (s.node.key < key && AllAbove(Inorder(s.right), key)))
            && ((exists n :: n in Inorder(t) && n.key == key) <==> s.node.key == key)
  {
    SplayKeepsOrder(t, key);
    DescendSplits(Top, t, Top, key);
    var (l, t', r) := Descend(Top, t, Top, key);
    var s := Splayed(t, key);
    FillInorder(l, t'.left);
    FillInorder(r, t'.right);
    SortedParts(Inorder(s.left), s.node, Inorder(s.right));
    RootOrAbsent(s, key);
  }

  lemma RootOrAbsent<V>(s: Shape<V>, key: real)
    requires s.Tree? && AllBelow(Inorder(s.left), s.node.key) && AllAbove(Inorder(s.right), s.node.key)
    requires s.node.key == key || (key < s.node.key && AllBelow(Inorder(s.left), key))
             || (s.node.key < key && AllAbove(Inorder(s.right), key))
    ensures (exists n :: n in Inorder(s) && n.key == key) <==> s.node.key == key
  {
    if s.node.key == key {
      assert s.node in Inorder(s);
    }
  }

  /** Splaying on a key greater than all others leaves an empty right child at the root. */
  lemma SplayMaximum<V>(t: Shape<V>, key: real)
    requires t.Tree? && Sorted(Inorder(t)) && AllBelow(Inorder(t), key)
    ensures Splayed(t, key).Tree? && Splayed(t, key).right.Empty?
  {
    SplayRoot(t, key);
    var s := Splayed(t, key);
    InorderTree(s.node, s.left, s.right);
    BelowEverywhere(Inorder(s.left), s.node, Inorder(s.right), key);
    Nothing(Inorder(s.right), key);
    if s.right.Tree? {
      InorderTree(s.right.node, s.right.left, s.right.right);
    }
  }

  lemma BelowEverywhere<V>(a: seq<Node<V>>, n: Node<V>, b: seq<Node<V>>, key: real)
    requires AllBelow(a + [n] + b, key)
    ensures n.key < key && AllBelow(b, key)
  {
    var all := a + [n] + b;
    assert all[|a|] == n;
    assert forall i :: 0 <= i < |b| ==> all[|a| + 1 + i] == b[i];
  }

  lemma Nothing<V>(ns: seq<Node<V>>, key: real)
    requires AllAbove(ns, key) && AllBelow(ns, key)
    ensures ns == []
  {
    if ns != [] {
      First(ns, key);
    }
  }

  lemma First<V>(ns: seq<Node<V>>, key: real)
    requires ns != [] && AllAbove(ns, key)
    ensures !AllBelow(ns, key)
  {
    assert key < ns[0].key;
  }

  // ----- the map a tree stands for

  ghost function Contents<V>(ns: seq<Node<V>>): map<real, V>
    requires Sorted(ns)
  {
    map n | n in ns :: n.key := n.value
  }

  ghost function Keys<V>(ns: seq<Node<V>>): seq<real> {
    seq(|ns|, i requires 0 <= i < |ns| => ns[i].key)
  }

  lemma SortedWithout<V>(a: seq<Node<V>>, n: Node<V>, b: seq<Node<V>>)
    requires Sorted(a + [n] + b)
    ensures Sorted(a + b)
  {
    var all, rest := a + [n] + b, a + b;
    forall i, j | 0 <= i < j < |rest| ensures rest[i].key < rest[j].key {
      assert rest[i] == all[if i < |a| then i else i + 1] && rest[j] == all[if j < |a| then j else j + 1];
    }
  }

  lemma SortedWith<V>(a: seq<Node<V>>, n: Node<V>, b: seq<Node<V>>)
    requires Sorted(a + b) && AllBelow(a, n.key) && AllAbove(b, n.key)
    ensures Sorted(a + [n] + b)
  {
    var all, rest := a + [n] + b, a + b;
    forall i, j | 0 <= i < j < |all| ensures all[i].key < all[j].key {
      if i != |a| && j != |a| {
        assert all[i] == rest[if i < |a| then i else i - 1] && all[j] == rest[if j < |a| then j else j - 1];
      }
    }
  }

  /** One node more or less in the sequence is one binding more or less in the map. */
  lemma OneBinding<V>(a: seq<Node<V>>, n: Node<V>, b: seq<Node<V>>)
    requires Sorted(a + [n] + b) && Sorted(a + b)
    ensures n.key !in Contents(a + b)
    ensures Contents(a + [n] + b) == Contents(a + b)[n.key := n.value]
    ensures Contents(a + b) == Contents(a + [n] + b) - {n.key}
  {
    hide Sorted;
    var all, rest := a + [n] + b, a + b;
    assert n in all && (forall m :: m in rest ==> m in all) && (forall m :: m in all ==> m in rest || m == n);
    Bound(all, n);
    NotBound(a, n, b);
    SubBindings(rest, all);
    Remaining(all, n, rest);
    MapWith(Contents(all), Contents(rest), n.key, n.value);
  }

  lemma MapWith<K, V>(all: map<K, V>, rest: map<K, V>, k: K, v: V)
    requires k in all && all[k] == v && k !in rest
    requires forall j :: j in rest ==> j in all && all[j] == rest[j]
    requires forall j :: j in all && j != k ==> j in rest
    ensures all == rest[k := v] && rest == all - {k}
  {
  }

  lemma NotBound<V>(a: seq<Node<V>>, n: Node<V>, b: seq<Node<V>>)
    requires Sorted(a + [n] + b) && Sorted(a + b)
    ensures n.key !in Contents(a + b)
  {
    SortedParts(a, n, b);
    forall m | m in a + b ensures m.key != n.key {
      assert m in a || m in b;
    }
  }

  lemma SubBindings<V>(ns: seq<Node<V>>, all: seq<Node<V>>)
    requires Sorted(ns) && Sorted(all) && forall m :: m in ns ==> m in all
    ensures forall k :: k in Contents(ns) ==> k in Contents(all) && Contents(all)[k] == Contents(ns)[k]
  {
    hide Sorted;
    forall k | k in Contents(ns) ensures k in Contents(all) && Contents(all)[k] == Contents(ns)[k] {
      var m := Binding(ns, k);
      Bound(all, m);
    }
  }

  lemma Remaining<V>(all: seq<Node<V>>, n: Node<V>, ns: seq<Node<V>>)
    requires Sorted(ns) && Sorted(all) && forall m :: m in all ==> m in ns || m == n
    ensures forall k :: k in Contents(all) && k != n.key ==> k in Contents(ns)
  {
    hide Sorted;
    forall k | k in Contents(all) && k != n.key ensures k in Contents(ns) {
      var m := Binding(all, k);
      Bound(ns, m);
    }
  }

  lemma Bound<V>(ns: seq<Node<V>>, n: Node<V>)
    requires Sorted(ns) && n in ns
    ensures n.key in Contents(ns) && Contents(ns)[n.key] == n.value
  {
  }

  lemma Binding<V>(ns: seq<Node<V>>, key: real) returns (n: Node<V>)
    requires Sorted(ns) && key in Contents(ns)
    ensures n in ns && n.key == key && Contents(ns)[key] == n.value
  {
    n :| n in ns && n.key == key;
    Bound(ns, n);
  }

  /** The last node has the greatest key. */
  lemma LastIsGreatest<V>(ns: seq<Node<V>>)
    requires Sorted(ns) && ns != []
    ensures ns[|ns| - 1].key in Contents(ns) && forall k :: k in Contents(ns) ==> k <= ns[|ns| - 1].key
  {
    var last := ns[|ns| - 1];
    assert last in ns;
    forall k | k in Contents(ns) ensures k <= last.key {
      var n :| n in ns && n.key == k;
      var i :| 0 <= i < |ns| && ns[i] == n;
    }
  }
}
