/** The splay tree on the heap: nodes are moved by rewriting their left and right pointers, and
    every operation but findMax and the traversal splays first. */
module SplayTrees {
  import opened SplayCost
  import opened SplayShape

  datatype Result<T> = Success(value: T) | Failure(message: string)

  // ----- shapes in the heap

  ghost function Nodes<V>(t: Shape<V>): set<Node<V>> {
    match t
    case Empty => {}
    case Tree(n, l, r) => Nodes(l) + {n} + Nodes(r)
  }

  ghost function SpineNodes<V>(s: Spine<V>): set<Node<V>> {
    match s
    case Top => {}
    case Link(up, n, side) => SpineNodes(up) + {n} + Nodes(side)
  }

  /** The subtree at n has the shape t. */
  ghost predicate Holds<V>(n: Node?<V>, t: Shape<V>)
    reads Nodes(t)
  {
    match t
    case Empty => n == null
    case Tree(m, l, r) => n == m && Holds(m.left, l) && Holds(m.right, r)
  }

  /** The node whose pointer is the hole; at the top it is the dummy's. */
  ghost function Last<V>(s: Spine<V>, dummy: Node<V>): Node<V> {
    if s.Top? then dummy else s.node
  }

  ghost predicate HoldsL<V>(s: Spine<V>, dummy: Node<V>)
    reads dummy`right, SpineNodes(s)
  {
    match s
    case Top => true
    case Link(up, n, side) =>
      HoldsL(up, dummy) && Holds(n.left, side) && (if up.Top? then dummy.right == n else up.node.right == n)
  }

  ghost predicate HoldsR<V>(s: Spine<V>, dummy: Node<V>)
    reads dummy`left, SpineNodes(s)
  {
    match s
    case Top => true
    case Link(up, n, side) =>
      HoldsR(up, dummy) && Holds(n.right, side) && (if up.Top? then dummy.left == n else up.node.left == n)
  }

  /** No node occurs twice. */
  ghost predicate Proper<V>(t: Shape<V>) {
    match t
    case Empty => true
    case Tree(n, l, r) => n !in Nodes(l) && n !in Nodes(r) && Nodes(l) !! Nodes(r) && Proper(l) && Proper(r)
  }

  ghost predicate ProperSpine<V>(s: Spine<V>) {
    match s
    case Top => true
    case Link(up, n, side) =>
      && n !in SpineNodes(up) && n !in Nodes(side) && SpineNodes(up) !! Nodes(side)
      && ProperSpine(up) && Proper(side)
  }

  lemma {:induction false} NodesInOrder<V>(t: Shape<V>)
    ensures Nodes(t) == set n | n in Inorder(t)
  {
    if t.Empty? {
    } else {
      NodesInOrder(t.left);
      NodesInOrder(t.right);
    }
  }

  lemma Member<V>(ns: seq<Node<V>>, n: Node<V>, key: real)
    requires n in ns
    ensures AllBelow(ns, key) ==> n.key < key
    ensures AllAbove(ns, key) ==> key < n.key
  {
    var i :| 0 <= i < |ns| && ns[i] == n;
  }

  /** A strictly sorted tree cannot hold a node twice. */
  lemma {:induction false} SortedIsProper<V>(t: Shape<V>)
    requires Sorted(Inorder(t))
    ensures Proper(t)
  {
    if t.Empty? {
    } else {
      SortedParts(Inorder(t.left), t.node, Inorder(t.right));
      SortedIsProper(t.left);
      SortedIsProper(t.right);
      NodesInOrder(t.left);
      NodesInOrder(t.right);
      forall n | n in Nodes(t.left) ensures n.key < t.node.key {
        Member(Inorder(t.left), n, t.node.key);
      }
      forall n | n in Nodes(t.right) ensures t.node.key < n.key {
        Member(Inorder(t.right), n, t.node.key);
      }
    }
  }

  /** Filling the hole of a spine: the dummy's pointer then leads to the whole tree. */
  lemma {:induction false} FilledL<V>(s: Spine<V>, x: Shape<V>, dummy: Node<V>)
    requires HoldsL(s, dummy) && Holds(Last(s, dummy).right, x)
    ensures Holds(dummy.right, FillL(s, x))
  {
    if s.Top? {
    } else {
      FilledL(s.up, Tree(s.node, s.side, x), dummy);
    }
  }

  lemma {:induction false} FilledR<V>(s: Spine<V>, x: Shape<V>, dummy: Node<V>)
    requires HoldsR(s, dummy) && Holds(Last(s, dummy).left, x)
    ensures Holds(dummy.left, FillR(s, x))
  {
    if s.Top? {
    } else {
      FilledR(s.up, Tree(s.node, x, s.side), dummy);
    }
  }

  lemma {:induction false} FilledNodes<V>(s: Spine<V>, x: Shape<V>)
    ensures Nodes(FillL(s, x)) == SpineNodes(s) + Nodes(x) == Nodes(FillR(s, x))
  {
    if s.Top? {
    } else {
      FilledNodes(s.up, Tree(s.node, s.side, x));
      FilledNodes(s.up, Tree(s.node, x, s.side));
    }
  }

  /** The parts of a descent are apart from each other and from the dummy. */
  ghost predicate Apart<V>(l: Spine<V>, t: Shape<V>, r: Spine<V>, dummy: Node<V>) {
    && SpineNodes(l) !! Nodes(t) && SpineNodes(l) !! SpineNodes(r) && Nodes(t) !! SpineNodes(r)
    && dummy !in SpineNodes(l) && dummy !in Nodes(t) && dummy !in SpineNodes(r)
    && ProperSpine(l) && Proper(t) && ProperSpine(r)
  }

  /** The heap holds the three parts. */
  ghost predicate InHeap<V>(l: Spine<V>, current: Node?<V>, t: Shape<V>, r: Spine<V>, dummy: Node<V>)
    reads dummy, SpineNodes(l), Nodes(t), SpineNodes(r)
  {
    HoldsL(l, dummy) && Holds(current, t) && HoldsR(r, dummy)
  }

  method LinkRight<V>(right: Node<V>, current: Node<V>, ghost l: Spine<V>, ghost t: Shape<V>, ghost r: Spine<V>,
                      ghost dummy: Node<V>)
    requires t.Tree? && Apart(l, t, r, dummy) && InHeap(l, current, t, r, dummy) && right == Last(r, dummy)
    modifies right`left
    ensures InHeap(l, current.left, t.left, Link(r, current, t.right), dummy)
    ensures Apart(l, t.left, Link(r, current, t.right), dummy) && current == t.node
  {
    right.left := current;
  }

  method LinkLeft<V>(left: Node<V>, current: Node<V>, ghost l: Spine<V>, ghost t: Shape<V>, ghost r: Spine<V>,
                     ghost dummy: Node<V>)
    requires t.Tree? && Apart(l, t, r, dummy) && InHeap(l, current, t, r, dummy) && left == Last(l, dummy)
    modifies left`right
    ensures InHeap(Link(l, current, t.left), current.right, t.right, r, dummy)
    ensures Apart(Link(l, current, t.left), t.right, r, dummy) && current == t.node
  {
    left.right := current;
  }

  /** Lifts the left child above current. */
  method LiftLeft<V>(current: Node<V>, ghost l: Spine<V>, ghost t: Shape<V>, ghost r: Spine<V>, ghost dummy: Node<V>)
    returns (tmp: Node<V>)
    requires t.Tree? && t.left.Tree? && Apart(l, t, r, dummy) && InHeap(l, current, t, r, dummy)
    modifies t.node`left, t.left.node`right
    ensures InHeap(l, tmp, RotateRight(t), r, dummy) && Apart(l, RotateRight(t), r, dummy)
    ensures Nodes(RotateRight(t)) == Nodes(t)
  {
    ghost var u, low := t.left, Tree(t.node, t.left.right, t.right);
    assert Holds(current.left, u) && Proper(u) && Nodes(u) == Nodes(u.left) + {u.node} + Nodes(u.right);
    assert Nodes(low) == Nodes(u.right) + {t.node} + Nodes(t.right);
    tmp := current.left;
    current.left := tmp.right;
    tmp.right := current;
    assert Holds(current, low) && Proper(low);
  }

  method LiftRight<V>(current: Node<V>, ghost l: Spine<V>, ghost t: Shape<V>, ghost r: Spine<V>, ghost dummy: Node<V>)
    returns (tmp: Node<V>)
    requires t.Tree? && t.right.Tree? && Apart(l, t, r, dummy) && InHeap(l, current, t, r, dummy)
    modifies t.node`right, t.right.node`left
    ensures InHeap(l, tmp, RotateLeft(t), r, dummy) && Apart(l, RotateLeft(t), r, dummy)
    ensures Nodes(RotateLeft(t)) == Nodes(t)
  {
    ghost var u, low := t.right, Tree(t.node, t.left, t.right.left);
    assert Holds(current.right, u) && Proper(u) && Nodes(u) == Nodes(u.left) + {u.node} + Nodes(u.right);
    assert Nodes(low) == Nodes(t.left) + {t.node} + Nodes(u.left);
    tmp := current.right;
    current.right := tmp.left;
    tmp.left := current;
    assert Holds(current, low) && Proper(low);
  }

  /** The key is smaller than the current one: go left, two steps at once where possible. */
  method GoLeft<V>(key: real, right0: Node<V>, current0: Node<V>, ghost l: Spine<V>, ghost t0: Shape<V>, ghost r0: Spine<V>,
                   ghost dummy: Node<V>)
    returns (done: bool, right: Node<V>, current: Node<V>, ghost t: Shape<V>, ghost r: Spine<V>)
    requires t0.Tree? && key < t0.node.key && Apart(l, t0, r0, dummy) && InHeap(l, current0, t0, r0, dummy)
    requires right0 == Last(r0, dummy)
    modifies right0, Nodes(t0)
    ensures t.Tree? && InHeap(l, current, t, r, dummy) && Apart(l, t, r, dummy) && right == Last(r, dummy)
    ensures Descend(l, t0, r0, key) == if done then (l, t, r) else Descend(l, t, r, key)
    ensures Turns(t0, key) == if done then 1 else 1 + Turns(t, key)
    ensures !done ==> t == t0.left || (t0.left.Tree? && t == t0.left.left)
    ensures Nodes(t) + SpineNodes(r) == Nodes(t0) + SpineNodes(r0)
  {
    hide HoldsL, HoldsR, ProperSpine, SpineNodes;
    right, current, t, r := right0, current0, t0, r0;
    assert Holds(current.left, t.left);
    if current.left == null {
      return true, right, current, t, r;
    }
    if key < current.left.key {
      current := LiftLeft(current, l, t, r, dummy);
      t := RotateRight(t);
      assert Holds(current.left, t.left);
      if current.left == null {
        return true, right, current, t, r;
      }
    }
    assert Holds(current, t);
    LinkRight(right, current, l, t, r, dummy);
    LinkNodes(t, r);
    r := Link(r, current, t.right);
    right := current;
    current := current.left;
    t := t.left;
    done := false;
  }

  lemma LinkNodes<V>(t: Shape<V>, s: Spine<V>)
    requires t.Tree?
    ensures Nodes(t.left) + SpineNodes(Link(s, t.node, t.right)) == Nodes(t) + SpineNodes(s)
    ensures Nodes(t.right) + SpineNodes(Link(s, t.node, t.left)) == Nodes(t) + SpineNodes(s)
  {
  }

  method GoRight<V>(key: real, left0: Node<V>, current0: Node<V>, ghost l0: Spine<V>, ghost t0: Shape<V>, ghost r: Spine<V>,
                    ghost dummy: Node<V>)
    returns (done: bool, left: Node<V>, current: Node<V>, ghost l: Spine<V>, ghost t: Shape<V>)
    requires t0.Tree? && key > t0.node.key && Apart(l0, t0, r, dummy) && InHeap(l0, current0, t0, r, dummy)
    requires left0 == Last(l0, dummy)
    modifies left0, Nodes(t0)
    ensures t.Tree? && InHeap(l, current, t, r, dummy) && Apart(l, t, r, dummy) && left == Last(l, dummy)
    ensures Descend(l0, t0, r, key) == if done then (l, t, r) else Descend(l, t, r, key)
    ensures Turns(t0, key) == if done then 1 else 1 + Turns(t, key)
    ensures !done ==> t == t0.right || (t0.right.Tree? && t == t0.right.right)
    ensures Nodes(t) + SpineNodes(l) == Nodes(t0) + SpineNodes(l0)
  {
    hide HoldsL, HoldsR, ProperSpine, SpineNodes;
    left, current, l, t := left0, current0, l0, t0;
    assert Holds(current.right, t.right);
    if current.right == null {
      return true, left, current, l, t;
    }
    if key > current.right.key {
      current := LiftRight(current, l, t, r, dummy);
      t := RotateLeft(t);
      assert Holds(current.right, t.right);
      if current.right == null {
        return true, left, current, l, t;
      }
    }
    assert Holds(current, t);
    LinkLeft(left, current, l, t, r, dummy);
    LinkNodes(t, l);
    l := Link(l, current, t.left);
    left := current;
    current := current.right;
    t := t.right;
    done := false;
  }

  /** The loop of the splay: the path to the key is taken apart into a left and a right tree.  The
      turns that it makes are counted. */
  method Separate<V>(root: Node<V>, key: real, dummy: Node<V>, ghost t0: Shape<V>)
    returns (left: Node<V>, current: Node<V>, right: Node<V>, ghost l: Spine<V>, ghost t: Shape<V>, ghost r: Spine<V>,
             ghost turns: nat)
    requires t0.Tree? && Holds(root, t0) && Proper(t0) && dummy !in Nodes(t0)
    modifies dummy, Nodes(t0)
    ensures t.Tree? && (l, t, r) == Descend(Top, t0, Top, key) && turns == Turns(t0, key)
    ensures InHeap(l, current, t, r, dummy) && Apart(l, t, r, dummy)
    ensures left == Last(l, dummy) && right == Last(r, dummy)
    ensures SpineNodes(l) + Nodes(t) + SpineNodes(r) == Nodes(t0)
    ensures (left == dummy || left in Nodes(t0)) && (right == dummy || right in Nodes(t0)) && current in Nodes(t0)
  {
    left, right, current := dummy, dummy, root;
    l, t, r, turns := Top, t0, Top, 0;
    var done := false;
    assert InHeap(l, current, t, r, dummy) && Apart(l, t, r, dummy);
    hide Proper, HoldsL, HoldsR, ProperSpine;
    while !done
      invariant t.Tree? && (if done then (l, t, r) else Descend(l, t, r, key)) == Descend(Top, t0, Top, key)
      invariant turns + (if done then 0 else Turns(t, key)) == Turns(t0, key)
      invariant InHeap(l, current, t, r, dummy) && Apart(l, t, r, dummy)
      invariant left == Last(l, dummy) && right == Last(r, dummy)
      invariant SpineNodes(l) + Nodes(t) + SpineNodes(r) == Nodes(t0)
      decreases !done, t
    {
      turns := turns + 1;
      if key < current.key {
        done, right, current, t, r := GoLeft(key, right, current, l, t, r, dummy);
      } else if key > current.key {
        done, left, current, l, t := GoRight(key, left, current, l, t, r, dummy);
      } else {
        done := true;
      }
    }
  }

  lemma SplayedParts<V>(t0: Shape<V>, key: real, l: Spine<V>, t: Shape<V>, r: Spine<V>)
    requires t0.Tree? && t.Tree? && (l, t, r) == Descend(Top, t0, Top, key)
    ensures Splayed(t0, key) == Tree(t.node, FillL(l, t.left), FillR(r, t.right))
  {
  }

  lemma AssembledNodes<V>(l: Spine<V>, t: Shape<V>, r: Spine<V>)
    requires t.Tree?
    ensures Nodes(Tree(t.node, FillL(l, t.left), FillR(r, t.right))) == SpineNodes(l) + Nodes(t) + SpineNodes(r)
  {
    FilledNodes(l, t.left);
    FilledNodes(r, t.right);
  }

  /** The two outer trees get the subtrees of current. */
  method Close<V>(left: Node<V>, current: Node<V>, right: Node<V>, dummy: Node<V>,
                  ghost l: Spine<V>, ghost t: Shape<V>, ghost r: Spine<V>)
    requires t.Tree? && InHeap(l, current, t, r, dummy) && Apart(l, t, r, dummy)
    requires left == Last(l, dummy) && right == Last(r, dummy)
    modifies left`right, right`left
    ensures Holds(dummy.right, FillL(l, t.left)) && Holds(dummy.left, FillR(r, t.right))
    ensures current !in Nodes(FillL(l, t.left)) && current !in Nodes(FillR(r, t.right)) && current == t.node
    ensures dummy != current
  {
    left.right := current.left;
    right.left := current.right;
    FilledL(l, t.left, dummy);
    FilledR(r, t.right, dummy);
    FilledNodes(l, t.left);
    FilledNodes(r, t.right);
  }

  /** The two outer trees are completed and put below current. */
  method Assemble<V>(left: Node<V>, current: Node<V>, right: Node<V>, dummy: Node<V>,
                     ghost l: Spine<V>, ghost t: Shape<V>, ghost r: Spine<V>)
    requires t.Tree? && InHeap(l, current, t, r, dummy) && Apart(l, t, r, dummy)
    requires left == Last(l, dummy) && right == Last(r, dummy)
    modifies left`right, right`left, current
    ensures current == t.node && Holds(current, Tree(current, FillL(l, t.left), FillR(r, t.right)))
  {
    Close(left, current, right, dummy, l, t, r);
    current.left := dummy.right;
    current.right := dummy.left;
  }

  /** The splay on the nodes of t0. */
  method Restructure<V>(root: Node<V>, key: real, dummy: Node<V>, ghost t0: Shape<V>)
    returns (current: Node<V>, ghost turns: nat)
    requires t0.Tree? && Holds(root, t0) && Proper(t0) && dummy !in Nodes(t0)
    modifies dummy, Nodes(t0)
    ensures Holds(current, Splayed(t0, key)) && Nodes(Splayed(t0, key)) == Nodes(t0) && turns == Turns(t0, key)
  {
    hide *;
    var left, right;
    ghost var l, t, r;
    left, current, right, l, t, r, turns := Separate(root, key, dummy, t0);
    SplayedParts(t0, key, l, t, r);
    AssembledNodes(l, t, r);
    Assemble(left, current, right, dummy, l, t, r);
  }

  /** The root of a tree splayed on a key separates the smaller keys from the greater. */
  ghost predicate Split<V>(s: Shape<V>, key: real) {
    && s.Tree? && Sorted(Inorder(s))
    && AllBelow(Inorder(s.left), s.node.key) && AllAbove(Inorder(s.right), s.node.key)
    && (s.node.key < key ==> AllAbove(Inorder(s.right), key))
    && (key < s.node.key ==> AllBelow(Inorder(s.left), key))
  }

  lemma RootBinding<V>(s: Shape<V>, key: real)
    requires Split(s, key)
    ensures key in Contents(Inorder(s)) <==> s.node.key == key
    ensures key in Contents(Inorder(s)) ==> Contents(Inorder(s))[key] == s.node.value
  {
    RootOrAbsent(s, key);
    assert s.node in Inorder(s);
    Bound(Inorder(s), s.node);
    if key in Contents(Inorder(s)) {
      var n := Binding(Inorder(s), key);
    }
  }

  /** The order of the nodes when a splayed tree is hung under a new root. */
  lemma HungOrder<V>(s: Shape<V>, node: Node<V>)
    requires s.Tree?
    ensures var (l, r) := (Inorder(s.left), Inorder(s.right));
            && Inorder(s) == (l + [s.node]) + r == l + ([s.node] + r)
            && Inorder(Tree(node, Tree(s.node, s.left, Empty), s.right)) == (l + [s.node]) + [node] + r
            && Inorder(Tree(node, s.left, Tree(s.node, Empty, s.right))) == l + [node] + ([s.node] + r)
  {
    var l, r, nil := Inorder(s.left), Inorder(s.right), Inorder<V>(Empty);
    assert nil == [];
    hide Inorder;
    InorderTree(s.node, s.left, s.right);
    InorderTree(s.node, s.left, Empty);
    InorderTree(s.node, Empty, s.right);
    InorderTree(node, Tree(s.node, s.left, Empty), s.right);
    InorderTree(node, s.left, Tree(s.node, Empty, s.right));
    Rejoin(l, s.node, r);
  }

  lemma Rejoin<T>(l: seq<T>, x: T, r: seq<T>)
    ensures l + [x] + [] == l + [x] && [] + [x] + r == [x] + r && (l + [x]) + r == l + ([x] + r)
  {
  }

  lemma NodesHung<V>(s: Shape<V>, node: Node<V>)
    requires s.Tree?
    ensures Nodes(Tree(node, Tree(s.node, s.left, Empty), s.right)) == Nodes(s) + {node}
    ensures Nodes(Tree(node, s.left, Tree(s.node, Empty, s.right))) == Nodes(s) + {node}
  {
  }

  /** The new node goes on top; the tree, without its greater keys, becomes its left child. */
  method HangAbove<V>(node: Node<V>, root: Node<V>, ghost s: Shape<V>)
    requires s.Tree? && Holds(root, s) && Proper(s) && node !in Nodes(s)
    modifies node, root`right
    ensures root == s.node && Holds(node, Tree(node, Tree(root, s.left, Empty), s.right))
  {
    node.left := root;
    node.right := root.right;
    root.right := null;
    assert Holds(root, Tree(root, s.left, Empty));
  }

  method HangBelow<V>(node: Node<V>, root: Node<V>, ghost s: Shape<V>)
    requires s.Tree? && Holds(root, s) && Proper(s) && node !in Nodes(s)
    modifies node, root`left
    ensures root == s.node && Holds(node, Tree(node, s.left, Tree(root, Empty, s.right)))
  {
    node.right := root;
    node.left := root.left;
    root.left := null;
    assert Holds(root, Tree(root, Empty, s.right));
  }

  lemma HungBounds<V>(s: Shape<V>, key: real)
    requires Split(s, key)
    ensures s.node.key < key ==> AllBelow(Inorder(s.left) + [s.node], key) && AllAbove(Inorder(s.right), key)
    ensures key < s.node.key ==> AllBelow(Inorder(s.left), key) && AllAbove([s.node] + Inorder(s.right), key)
  {
    hide Inorder, Sorted;
  }

  /** A splayed tree hung to the left of a new root, but for its greater keys. */
  lemma InsertAbove<V>(s: Shape<V>, node: Node<V>)
    requires Split(s, node.key) && s.node.key < node.key
    ensures var u := Tree(node, Tree(s.node, s.left, Empty), s.right);
            Sorted(Inorder(u)) && Contents(Inorder(u)) == Contents(Inorder(s))[node.key := node.value]
  {
    hide Inorder, Contents, Sorted, AllBelow, AllAbove;
    HungOrder(s, node);
    HungBounds(s, node.key);
    SortedWith(Inorder(s.left) + [s.node], node, Inorder(s.right));
    OneBinding(Inorder(s.left) + [s.node], node, Inorder(s.right));
  }

  lemma InsertBelow<V>(s: Shape<V>, node: Node<V>)
    requires Split(s, node.key) && node.key < s.node.key
    ensures var u := Tree(node, s.left, Tree(s.node, Empty, s.right));
            Sorted(Inorder(u)) && Contents(Inorder(u)) == Contents(Inorder(s))[node.key := node.value]
  {
    hide Inorder, Contents, Sorted, AllBelow, AllAbove;
    HungOrder(s, node);
    HungBounds(s, node.key);
    SortedWith(Inorder(s.left), node, [s.node] + Inorder(s.right));
    OneBinding(Inorder(s.left), node, [s.node] + Inorder(s.right));
  }

  lemma LastNode<V>(u: Shape<V>)
    requires u.Tree?
    ensures Inorder(u) != []
    ensures u.right.Empty? ==> Inorder(u)[|Inorder(u)| - 1] == u.node
    ensures u.right.Tree? ==>
              Inorder(u.right) != [] && Inorder(u)[|Inorder(u)| - 1] == Inorder(u.right)[|Inorder(u.right)| - 1]
  {
  }

  /** The pointers from a node determine the shape. */
  lemma {:induction false} HoldsOnce<V>(n: Node?<V>, s: Shape<V>, t: Shape<V>)
    requires Holds(n, s) && Holds(n, t)
    ensures s == t
  {
    match s
    case Empty =>
    case Tree(m, l, r) =>
      HoldsOnce(m.left, l, t.left);
      HoldsOnce(m.right, r, t.right);
  }

  /** The subtree at any node of a tree in order is in order. */
  lemma {:induction false} SubtreeSorted<V>(n: Node?<V>, s: Shape<V>, c: Node?<V>, t: Shape<V>)
    requires Holds(n, s) && Sorted(Inorder(s)) && Holds(c, t) && (c != null ==> c in Nodes(s))
    ensures Sorted(Inorder(t))
  {
    if c == null {
    } else if c == s.node {
      HoldsOnce(c, s, t);
    } else {
      SortedParts(Inorder(s.left), s.node, Inorder(s.right));
      if c in Nodes(s.left) {
        SubtreeSorted(s.node.left, s.left, c, t);
      } else {
        SubtreeSorted(s.node.right, s.right, c, t);
      }
    }
  }

  /** What is next below the key in a splayed tree. */
  lemma Neighbours<V>(s: Shape<V>, key: real)
    requires Split(s, key)
    ensures var (m, l) := (Contents(Inorder(s)), Inorder(s.left));
            && s.node.key in m && m[s.node.key] == s.node.value
            && (s.node.key < key ==> forall k :: k in m ==> k <= s.node.key || key <= k)
            && (key <= s.node.key && l == [] ==> forall k :: k in m ==> key <= k)
            && (key <= s.node.key && l != [] ==>
                  var last := l[|l| - 1];
                  last.key in m && m[last.key] == last.value && last.key < key &&
                  forall k :: k in m ==> k <= last.key || key <= k)
    ensures s.left.Empty? <==> Inorder(s.left) == []
  {
    var m, l, r := Contents(Inorder(s)), Inorder(s.left), Inorder(s.right);
    assert s.node in Inorder(s);
    Bound(Inorder(s), s.node);
    if l != [] {
      assert l[|l| - 1] in Inorder(s);
      Bound(Inorder(s), l[|l| - 1]);
    }
    SortedParts(l, s.node, r);
    forall k | k in m
      ensures s.node.key < key ==> k <= s.node.key || key <= k
      ensures key <= s.node.key && l == [] ==> key <= k
      ensures key <= s.node.key && l != [] ==> k <= l[|l| - 1].key || key <= k
    {
      var n := Binding(Inorder(s), k);
      assert n in l || n == s.node || n in r;
    }
  }

  lemma KeysOfModel<V>(ns: seq<Node<V>>, keys: seq<real>)
    requires Sorted(ns) && keys == Keys(ns)
    ensures forall i, j :: 0 <= i < j < |keys| ==> keys[i] < keys[j]
    ensures forall k :: k in keys <==> k in Contents(ns)
  {
    forall k | k in Contents(ns) ensures k in keys {
      var n := Binding(ns, k);
      var i :| 0 <= i < |ns| && ns[i] == n;
      assert keys[i] == k;
    }
    forall k | k in keys ensures k in Contents(ns) {
      var i :| 0 <= i < |keys| && keys[i] == k;
      Bound(ns, ns[i]);
    }
  }

  /** Visits the nodes in order, adding each key to the end of the list: a recursive call for
      the left subtree, a loop for the right. */
  method Traverse<V>(node: Node<V>, ghost t: Shape<V>, ghost repr: set<Node<V>>, keys0: seq<real>)
    returns (keys: seq<real>)
    requires Holds(node, t) && Nodes(t) <= repr
    ensures keys == keys0 + Keys(Inorder(t))
    decreases t
  {
    keys := keys0;
    var current: Node?<V> := node;
    ghost var u := t;
    while current != null
      invariant Holds(current, u) && Nodes(u) <= repr && keys + Keys(Inorder(u)) == keys0 + Keys(Inorder(t))
      invariant u == t || u < t
      decreases u
    {
      assert u.Tree? && current == u.node && Holds(u.node.left, u.left) && Holds(u.node.right, u.right);
      ghost var k0 := keys;
      var left := current.left;
      if left != null {
        keys := Traverse(left, u.left, repr, keys);
      }
      keys := keys + [current.key];
      VisitOrder(k0, u);
      current := current.right;
      u := u.right;
    }
  }

  lemma VisitOrder<V>(keys: seq<real>, u: Shape<V>)
    requires u.Tree?
    ensures keys + Keys(Inorder(u)) == (keys + Keys(Inorder(u.left)) + [u.node.key]) + Keys(Inorder(u.right))
    ensures u.left.Empty? ==> Keys(Inorder(u.left)) == []
  {
    hide Inorder, Keys;
    var l, r := Inorder(u.left), Inorder(u.right);
    InorderTree(u.node, u.left, u.right);
    KeysAround(l, u.node, r);
    Prepended(keys, Keys(l), u.node.key, Keys(r));
    NoKeys(u.left);
  }

  lemma KeysAround<V>(l: seq<Node<V>>, n: Node<V>, r: seq<Node<V>>)
    ensures Keys(l + [n] + r) == Keys(l) + [n.key] + Keys(r)
  {
  }

  lemma Prepended<T>(a: seq<T>, b: seq<T>, x: T, c: seq<T>)
    ensures a + (b + [x] + c) == (a + b + [x]) + c
  {
  }

  lemma NoKeys<V>(u: Shape<V>)
    ensures u.Empty? ==> Keys(Inorder(u)) == []
  {
  }

  lemma RemoveParts<V>(s: Shape<V>)
    requires s.Tree? && Split(s, s.node.key) && Proper(s)
    ensures Sorted(Inorder(s.left)) && Sorted(Inorder(s.right))
    ensures Nodes(s.left) <= Nodes(s) && Nodes(s.right) <= Nodes(s) && Nodes(s.left) !! Nodes(s.right)
    ensures s.left.Empty? ==> Contents(Inorder(s.right)) == Contents(Inorder(s)) - {s.node.key}
  {
    var l, r := Inorder(s.left), Inorder(s.right);
    SortedParts(l, s.node, r);
    SortedWithout(l, s.node, r);
    OneBinding(l, s.node, r);
    if s.left.Empty? {
      assert l + r == r;
    }
  }

  /** The left part splayed on a key above all of its own, with the right part put under it. */
  lemma JoinParts<V>(s: Shape<V>, key: real)
    requires Split(s, key) && s.node.key == key && s.left.Tree?
    ensures Sorted(Inorder(s.left)) && Splayed(s.left, key).Tree? && Splayed(s.left, key).right.Empty?
    ensures var u := Splayed(s.left, key);
            var j := Tree(u.node, u.left, s.right);
            Sorted(Inorder(j)) && Contents(Inorder(j)) == Contents(Inorder(s)) - {key}
  {
    var l, r, u := Inorder(s.left), Inorder(s.right), Splayed(s.left, key);
    SortedParts(l, s.node, r);
    SplayMaximum(s.left, key);
    SplayKeepsOrder(s.left, key);
    assert Inorder(u) == Inorder(u.left) + [u.node] + [];
    assert Inorder(Tree(u.node, u.left, s.right)) == l + r;
    SortedWithout(l, s.node, r);
    OneBinding(l, s.node, r);
  }

  /** What the second splay of a removal, with what was right of the key put under it, may cost. */
  lemma JoinDebt<V>(s: Shape<V>, key: real)
    requires Split(s, key) && s.Tree? && s.node.key == key && s.left.Tree?
    ensures Splayed(s.left, key).Tree?
    ensures var u := Splayed(s.left, key);
            Turns(s.left, key) + 2 * Potential(Tree(u.node, u.left, s.right)) <= 2 * Potential(s) + Share(Size(s))
  {
    hide *;
    JoinParts(s, key);
    AmortisedSplay(s.left, key);
    JoinCost(s, Splayed(s.left, key));
  }

  class SplayTree<V(0)> {
    var root: Node?<V>
    ghost var shape: Shape<V>
    ghost var repr: set<Node<V>>
    /** The turns that the loop of the splay has made since the tree was made. */
    ghost var turns: nat

    /** The pointers from the root make up the tree shape, with strictly increasing keys. */
    ghost predicate Valid()
      reads this, repr
    {
      repr == Nodes(shape) && Holds(root, shape) && Sorted(Inorder(shape))
    }

    constructor ()
      ensures Valid() && repr == {} && Model() == map[] && turns == 0 && Debt() == 0
    {
      root, shape, repr, turns := null, Empty, {}, 0;
      new;
      EmptyModel();
    }

    predicate IsEmpty()
      reads this
    {
      root == null
    }

    /** The tree on the heap becomes the splayed shape. */
    method Splay(key: real)
      requires Valid()
      modifies this, repr
      ensures Valid() && repr == old(repr)
      ensures shape == if old(shape).Tree? then Splayed(old(shape), key) else Empty
      ensures turns == old(turns) + if old(shape).Tree? then Turns(old(shape), key) else 0
    {
      hide Turns, Splayed, Contents, Sorted, Inorder, Nodes, Holds, Proper;
      Parts();
      if IsEmpty() {
        return;
      }
      hide *;
      var nothing: V := *;
      var dummy := new Node(0.0, nothing);
      SplayKeepsOrder(shape, key);
      ghost var n;
      root, n := Restructure(root, key, dummy, shape);
      turns := turns + n;
      shape := Splayed(shape, key);
      Settled();
    }

    lemma Parts()
      requires Valid()
      ensures Holds(root, shape) && Proper(shape) && repr == Nodes(shape) && Sorted(Inorder(shape))
      ensures Model() == Contents(Inorder(shape)) && (if root == null then shape.Empty? else shape.Tree? && root in repr)
    {
      SortedIsProper(shape);
    }

    lemma Settled()
      requires repr == Nodes(shape) && Holds(root, shape) && Sorted(Inorder(shape))
      ensures Valid() && Model() == Contents(Inorder(shape))
    {
    }

    /** The finite map that the tree stands for. */
    ghost function Model(): map<real, V>
      requires Valid()
      reads this, repr
    {
      Contents(Inorder(shape))
    }

    /** The turns so far, and what the tree has in store: no operation adds more to it than its
        share, so the turns of all operations together are at most the sum of their shares. */
    ghost function Debt(): nat
      reads this
    {
      turns + 2 * Potential(shape)
    }

    lemma DebtIs()
      ensures Debt() == turns + 2 * Potential(shape)
    {
    }

    lemma SplayDebt(key: real)
      requires Valid() && shape.Tree?
      ensures Size(shape) == |Model()| && Size(Splayed(shape, key)) == Size(shape)
      ensures Turns(shape, key) + 2 * Potential(Splayed(shape, key)) <= 2 * Potential(shape) + Share(|Model()|)
    {
      AmortisedSplay(shape, key);
      ModelSize(shape);
    }

    /** After a splay of a tree that is not empty: the map is the same, and the root has the key
        exactly when the map does. */
    method SplayAt(key: real) returns (ghost s: Shape<V>)
      requires Valid() && root != null
      modifies this, repr
      ensures Valid() && repr == old(repr) && Model() == old(Model()) && Inorder(shape) == old(Inorder(shape))
      ensures s == shape && s.Tree? && root == s.node && root.left == (if s.left.Empty? then null else s.left.node)
      ensures Split(s, key) && (key in Model() <==> s.node.key == key)
      ensures key in Model() ==> Model()[key] == s.node.value
      ensures Debt() <= old(Debt()) + Share(|Model()|) && Size(s) == |Model()|
    {
      ghost var t := shape;
      SplayDebt(key);
      Parts();
      SplayRoot(shape, key);
      RootBinding(Splayed(shape, key), key);
      hide Inorder, Splayed, Nodes, Sorted, Potential, Turns, Size, Share;
      Splay(key);
      s := shape;
      assert Holds(root.left, s.left);
    }

    lemma FirstNode(n: Node<V>)
      requires n.left == null && n.right == null
      ensures var t := Tree(n, Empty, Empty);
              && Nodes(t) == {n} && Holds(n, t) && Sorted(Inorder(t)) && Contents(Inorder(t)) == map[n.key := n.value]
              && Potential(t) == Potential<V>(Empty) + Log2(0 + 2)
    {
      assert Inorder(Tree(n, Empty, Empty)) == [n];
    }

    method InsertFirst(key: real, value: V)
      requires Valid() && root == null
      modifies this
      ensures Valid() && fresh(repr)
      ensures Model() == old(Model())[key := value] && old(Model()) == map[]
      ensures Debt() <= old(Debt()) + Share(|old(Model())|) + 2 * Log2(|old(Model())| + 2)
    {
      EmptyModel();
      hide *;
      DebtIs();
      root := new Node(key, value);
      FirstNode(root);
      shape := Tree(root, Empty, Empty);
      repr := {root};
      Settled();
      DebtIs();
    }

    method Insert(key: real, value: V)
      requires Valid()
      modifies this, repr
      ensures Valid() && fresh(repr - old(repr))
      ensures Model() == if key in old(Model()) then old(Model()) else old(Model())[key := value]
      ensures Debt() <= old(Debt()) + Share(|old(Model())|) + 2 * Log2(|old(Model())| + 2)
    {
      hide Share, Log2, Potential, Contents, Sorted, Inorder, Nodes, Holds;
      if IsEmpty() {
        InsertFirst(key, value);
        return;
      }
      hide *;
      ghost var s := SplayAt(key);
      if root.key == key {
        return;
      }
      Parts();
      var node := new Node(key, value);
      PutOnTop(node, s);
    }

    /** The new node becomes the root above the two halves of the splayed tree. */
    method PutOnTop(node: Node<V>, ghost s: Shape<V>)
      requires Valid() && s == shape && s.Tree? && Split(s, node.key) && root == s.node && root.key != node.key && node !in repr
      modifies this, node, root
      ensures Valid() && repr == old(repr) + {node}
      ensures Model() == old(Model())[node.key := node.value]
      ensures Debt() <= old(Debt()) + 2 * Log2(Size(s) + 2)
    {
      hide *;
      HungCost(s, node, s.left, s.right, Size(s));
      DebtIs();
      Parts();
      if node.key > root.key {
        InsertAbove(s, node);
        NodesHung(s, node);
        HangAbove(node, root, s);
        shape := Tree(node, Tree(root, s.left, Empty), s.right);
      } else {
        InsertBelow(s, node);
        NodesHung(s, node);
        HangBelow(node, root, s);
        shape := Tree(node, s.left, Tree(root, Empty, s.right));
      }
      root := node;
      repr := repr + {node};
      Settled();
      DebtIs();
    }

    /** The node with the key, or null if there is none. */
    method Find(key: real) returns (r: Node?<V>)
      requires Valid()
      modifies this, repr
      ensures Valid() && repr == old(repr) && Model() == old(Model())
      ensures r != null <==> key in Model()
      ensures r != null ==> r in repr && r.key == key && r.value == Model()[key]
      ensures Debt() <= old(Debt()) + Share(|old(Model())|)
    {
      if IsEmpty() {
        EmptyModel();
        return null;
      }
      hide *;
      ghost var s := SplayAt(key);
      Parts();
      return if root.key == key then root else null;
    }

    /** The node with the greatest key in the subtree at start, or in the whole tree. */
    method FindMax(start: Node?<V>, ghost t: Shape<V>) returns (r: Node?<V>)
      requires Valid() && Nodes(t) <= repr && Holds(if start == null then root else start, t)
      ensures r == if Inorder(t) == [] then null else Inorder(t)[|Inorder(t)| - 1]
      ensures Sorted(Inorder(t)) && (r == null <==> Contents(Inorder(t)) == map[])
      ensures r != null ==> r.key in Contents(Inorder(t)) && forall k :: k in Contents(Inorder(t)) ==> k <= r.key
      ensures start == null ==> Contents(Inorder(t)) == Model()
    {
      GreatestBelow(start, t);
      if IsEmpty() {
        assert t == Empty;
        return null;
      }
      var current: Node<V> := if start != null then start else root;
      ghost var u := t;
      LastNode(u);
      hide Inorder, Nodes, Sorted, Contents;
      while current.right != null
        invariant u.Tree? && Holds(current, u) && Inorder(t)[|Inorder(t)| - 1] == Inorder(u)[|Inorder(u)| - 1]
        decreases u
      {
        assert Holds(current.right, u.right);
        LastNode(u);
        u := u.right;
        current := current.right;
      }
      assert Holds(current.right, u.right);
      LastNode(u);
      return current;
    }

    /** In the subtree at start the last node has the greatest key. */
    lemma GreatestBelow(start: Node?<V>, t: Shape<V>)
      requires Valid() && Nodes(t) <= repr && Holds(if start == null then root else start, t)
      ensures Sorted(Inorder(t)) && (Inorder(t) == [] <==> Contents(Inorder(t)) == map[])
      ensures var ns := Inorder(t); ns != [] ==>
                ns[|ns| - 1].key in Contents(ns) && forall k :: k in Contents(ns) ==> k <= ns[|ns| - 1].key
      ensures start == null ==> Contents(Inorder(t)) == Model()
    {
      if start == null {
        HoldsOnce(root, shape, t);
      }
      SubtreeSorted(root, shape, if start == null then root else start, t);
      if Inorder(t) != [] {
        LastIsGreatest(Inorder(t));
      }
    }

    /** The node with the greatest key below the given one. */
    method FindGreatestLessThan(key: real) returns (r: Node?<V>)
      requires Valid()
      modifies this, repr
      ensures Valid() && repr == old(repr) && Model() == old(Model())
      ensures r != null ==> r.key in Model() && r.value == Model()[r.key] && r.key < key
      ensures r != null ==> forall k :: k in Model() ==> k <= r.key || key <= k
      ensures r == null ==> forall k :: k in Model() ==> key <= k
      ensures Debt() <= old(Debt()) + Share(|old(Model())|)
    {
      if IsEmpty() {
        EmptyModel();
        return null;
      }
      hide *;
      ghost var s := SplayAt(key);
      Parts();
      Neighbours(s, key);
      if root.key < key {
        return root;
      } else if root.left != null {
        Subtree();
        r := FindMax(root.left, s.left);
      } else {
        return null;
      }
    }

    lemma Subtree()
      requires Valid() && shape.Tree?
      ensures root == shape.node && Holds(root.left, shape.left) && Nodes(shape.left) <= repr
    {
    }

    /** All keys, in increasing order. */
    method ExportKeys() returns (keys: seq<real>)
      requires Valid()
      ensures forall i, j :: 0 <= i < j < |keys| ==> keys[i] < keys[j]
      ensures |keys| == |Model()| && forall k :: k in keys <==> k in Model()
    {
      ContentsSize(Inorder(shape));
      keys := [];
      if !IsEmpty() {
        keys := Traverse(root, shape, repr, keys);
      }
      KeysOfModel(Inorder(shape), keys);
    }

    /** Takes the node with the key out of the tree. */
    method Remove(key: real) returns (r: Result<Node<V>>)
      requires Valid()
      modifies this, repr
      ensures Valid() && repr <= old(repr)
      ensures r.Success? <==> key in old(Model())
      ensures r.Success? ==> r.value.key == key && r.value.value == old(Model())[key] && Model() == old(Model()) - {key}
      ensures r.Failure? ==> Model() == old(Model())
      ensures Debt() <= old(Debt()) + 2 * Share(|old(Model())|)
    {
      if IsEmpty() {
        EmptyModel();
        return Failure("Key not found");
      }
      hide *;
      ghost var s := SplayAt(key);
      if root.key != key {
        return Failure("Key not found");
      }
      var removed := root;
      TakeOff(key, s);
      return Success(removed);
    }

    /** The root goes; what was left of it is splayed once more to make room for the rest. */
    method TakeOff(key: real, ghost s: Shape<V>)
      requires Valid() && s == shape && root != null && root == s.node && root.key == key && Split(s, key)
      modifies this, repr
      ensures Valid() && repr <= old(repr) && Model() == old(Model()) - {key}
      ensures Debt() <= old(Debt()) + Share(Size(s))
    {
      Parts();
      RemoveParts(s);
      assert Holds(root.left, s.left) && Holds(root.right, s.right);
      hide *;
      if root.left == null {
        root := root.right;
        shape := s.right;
        repr := Nodes(s.right);
        Settled();
      } else {
        var right := root.right;
        root := root.left;
        shape := s.left;
        repr := Nodes(s.left);
        Settled();
        JoinRight(key, right, s, Nodes(s.right));
      }
    }

    lemma EmptyModel()
      requires Valid() && root == null
      ensures Model() == map[] && shape == Empty
    {
      assert Inorder(shape) == [];
    }

    /** The new root has an empty right child, where the greater keys go. */
    method JoinRight(key: real, right: Node?<V>, ghost s: Shape<V>, ghost rest: set<Node<V>>)
      requires Valid() && s.Tree? && s.left.Tree? && shape == s.left && Split(s, key) && s.node.key == key
      requires Holds(right, s.right) && Proper(s) && rest == Nodes(s.right)
      modifies this, repr
      ensures Valid() && repr == old(repr) + rest
      ensures Model() == Contents(Inorder(s)) - {key}
      ensures Debt() <= old(turns) + 2 * Potential(s) + Share(Size(s))
    {
      hide *;
      JoinDebt(s, key);
      JoinParts(s, key);
      Halves(s);
      Parts();
      Splay(key);
      Parts();
      ghost var u := shape;
      PutRight(root, right, u, s.right);
      JoinNodes(u, s.right);
      shape := Tree(u.node, u.left, s.right);
      repr := repr + rest;
      Settled();
      DebtIs();
    }
  }

  lemma Halves<V>(s: Shape<V>)
    requires s.Tree? && Proper(s)
    ensures Nodes(s.left) !! Nodes(s.right)
  {
  }

  method PutRight<V>(root: Node<V>, right: Node?<V>, ghost u: Shape<V>, ghost t: Shape<V>)
    requires u.Tree? && Holds(root, u) && Proper(u) && Holds(right, t) && Nodes(u) !! Nodes(t)
    modifies root`right
    ensures Holds(root, Tree(u.node, u.left, t))
  {
    root.right := right;
  }

  lemma JoinNodes<V>(u: Shape<V>, t: Shape<V>)
    requires u.Tree? && u.right.Empty?
    ensures Nodes(Tree(u.node, u.left, t)) == Nodes(u) + Nodes(t)
  {
  }
}
