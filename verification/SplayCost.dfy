/** What splaying costs: the loop makes logarithmically many turns in the amortised sense.  The
    potential of a tree is the sum, over its nodes, of the binary logarithm of the number of nodes
    below, rounded down; with weight two it pays for the long descents. */
module SplayCost {
  import opened SplayShape

  ghost function Size<V>(t: Shape<V>): nat {
    match t
    case Empty => 0
    case Tree(_, l, r) => Size(l) + Size(r) + 1
  }

  /** The binary logarithm, rounded down. */
  ghost function Log2(n: nat): nat
    requires n > 0
  {
    if n == 1 then 0 else 1 + Log2(n / 2)
  }

  ghost function Rank<V>(t: Shape<V>): nat {
    Log2(Size(t) + 1)
  }

  ghost function Potential<V>(t: Shape<V>): nat {
    match t
    case Empty => 0
    case Tree(_, l, r) => Rank(t) + Potential(l) + Potential(r)
  }

  /** The turns that the loop of the descent makes, the last one included. */
  ghost function Turns<V>(t: Shape<V>, key: real): nat
    requires t.Tree?
    decreases t
  {
    if key < t.node.key && t.left.Tree? then
      if key < t.left.node.key then
        if t.left.left.Empty? then 1 else 1 + Turns(t.left.left, key)
      else 1 + Turns(t.left, key)
    else if key > t.node.key && t.right.Tree? then
      if key > t.right.node.key then
        if t.right.right.Empty? then 1 else 1 + Turns(t.right.right, key)
      else 1 + Turns(t.right, key)
    else 1
  }

  ghost function Links<V>(s: Spine<V>): nat {
    match s
    case Top => 0
    case Link(up, _, _) => 1 + Links(up)
  }

  /** Every turn but the last links one node into one of the side trees. */
  lemma {:induction false} TurnsAreLinks<V>(l: Spine<V>, t: Shape<V>, r: Spine<V>, key: real)
    requires t.Tree?
    ensures var (l', _, r') := Descend(l, t, r, key); Links(l') + Links(r') + 1 == Links(l) + Links(r) + Turns(t, key)
    decreases t
  {
    if key < t.node.key && t.left.Tree? {
      if key < t.left.node.key {
        var t1 := RotateRight(t);
        if t1.left.Tree? {
          TurnsAreLinks(l, t1.left, Link(r, t1.node, t1.right), key);
        }
      } else {
        TurnsAreLinks(l, t.left, Link(r, t.node, t.right), key);
      }
    } else if key > t.node.key && t.right.Tree? {
      if key > t.right.node.key {
        var t1 := RotateLeft(t);
        if t1.right.Tree? {
          TurnsAreLinks(Link(l, t1.node, t1.left), t1.right, r, key);
        }
      } else {
        TurnsAreLinks(Link(l, t.node, t.left), t.right, r, key);
      }
    }
  }

  // ----- logarithms

  lemma {:induction false} Log2Monotone(a: nat, b: nat)
    requires 0 < a <= b
    ensures Log2(a) <= Log2(b)
  {
    if a == 1 {
    } else {
      Log2Monotone(a / 2, b / 2);
    }
  }

  /** Two numbers cannot both have the logarithm of their sum. */
  lemma Log2Sum(a: nat, b: nat)
    requires a > 0 && b > 0
    ensures Log2(a) + Log2(b) + 1 <= 2 * Log2(a + b)
  {
    var c := if a <= b then a else b;
    assert Log2(2 * c) == 1 + Log2(c);
    Log2Monotone(2 * c, a + b);
    Log2Monotone(a, a + b);
    Log2Monotone(b, a + b);
  }

  lemma RankMonotone<V>(s: Shape<V>, t: Shape<V>)
    requires Size(s) <= Size(t)
    ensures Rank(s) <= Rank(t)
  {
    Log2Monotone(Size(s) + 1, Size(t) + 1);
  }

  lemma RankSum<V>(s: Shape<V>, u: Shape<V>, t: Shape<V>)
    requires Size(s) + Size(u) < Size(t)
    ensures Rank(s) + Rank(u) + 1 <= 2 * Rank(t)
  {
    var a, b, c := Size(s) + 1, Size(u) + 1, Size(t) + 1;
    hide Size, Log2;
    Log2Sum(a, b);
    Log2Monotone(a + b, c);
  }

  // ----- the two outer trees

  /** The left tree that the descent leaves, complete. */
  ghost function LeftPart<V>(t: Shape<V>, key: real): Shape<V>
    requires t.Tree?
    decreases t
  {
    if key < t.node.key && t.left.Tree? then
      if key < t.left.node.key then
        if t.left.left.Empty? then Empty else LeftPart(t.left.left, key)
      else LeftPart(t.left, key)
    else if key > t.node.key && t.right.Tree? then
      if key > t.right.node.key then
        var t1 := RotateLeft(t);
        if t1.right.Empty? then t1.left else Tree(t1.node, t1.left, LeftPart(t1.right, key))
      else Tree(t.node, t.left, LeftPart(t.right, key))
    else t.left
  }

  /** The right tree that the descent leaves, complete. */
  ghost function RightPart<V>(t: Shape<V>, key: real): Shape<V>
    requires t.Tree?
    decreases t
  {
    if key < t.node.key && t.left.Tree? then
      if key < t.left.node.key then
        var t1 := RotateRight(t);
        if t1.left.Empty? then t1.right else Tree(t1.node, RightPart(t1.left, key), t1.right)
      else Tree(t.node, RightPart(t.left, key), t.right)
    else if key > t.node.key && t.right.Tree? then
      if key > t.right.node.key then
        if t.right.right.Empty? then Empty else RightPart(t.right.right, key)
      else RightPart(t.right, key)
    else t.right
  }

  /** They are the spines of the descent with the subtrees of the middle in their holes. */
  lemma {:induction false} DescendParts<V>(l: Spine<V>, t: Shape<V>, r: Spine<V>, key: real)
    requires t.Tree?
    ensures var (l', t', r') := Descend(l, t, r, key);
            t'.Tree? && FillL(l', t'.left) == FillL(l, LeftPart(t, key)) && FillR(r', t'.right) == FillR(r, RightPart(t, key))
    decreases t
  {
    if key < t.node.key && t.left.Tree? {
      if key < t.left.node.key {
        var t1 := RotateRight(t);
        if t1.left.Tree? {
          DescendParts(l, t1.left, Link(r, t1.node, t1.right), key);
        }
      } else {
        DescendParts(l, t.left, Link(r, t.node, t.right), key);
      }
    } else if key > t.node.key && t.right.Tree? {
      if key > t.right.node.key {
        var t1 := RotateLeft(t);
        if t1.right.Tree? {
          DescendParts(Link(l, t1.node, t1.left), t1.right, r, key);
        }
      } else {
        DescendParts(Link(l, t.node, t.left), t.right, r, key);
      }
    }
  }

  lemma {:induction false} PartSizes<V>(t: Shape<V>, key: real)
    requires t.Tree?
    ensures Size(LeftPart(t, key)) + Size(RightPart(t, key)) + 1 == Size(t)
    decreases t
  {
    if key < t.node.key && t.left.Tree? {
      if key < t.left.node.key {
        if t.left.left.Tree? {
          PartSizes(t.left.left, key);
        }
      } else {
        PartSizes(t.left, key);
      }
    } else if key > t.node.key && t.right.Tree? {
      if key > t.right.node.key {
        if t.right.right.Tree? {
          PartSizes(t.right.right, key);
        }
      } else {
        PartSizes(t.right, key);
      }
    }
  }

  // ----- the amortised cost

  /** What the two outer trees of a descent may weigh, with its turns. */
  ghost predicate Paid<V>(t: Shape<V>, key: real)
    requires t.Tree?
  {
    Turns(t, key) + 2 * (Potential(LeftPart(t, key)) + Potential(RightPart(t, key))) <= 2 * Potential(t) + 4 * Rank(t) + 2
  }

  /** A rotation pays for its turn: the subtrees on both sides of the node that comes up cannot both
      have the rank of the whole. */
  lemma StraightLeft<V>(t: Shape<V>, key: real)
    requires t.Tree? && key < t.node.key && t.left.Tree? && key < t.left.node.key
    requires t.left.left.Tree? ==> Paid(t.left.left, key)
    ensures Paid(t, key)
  {
    var t1 := RotateRight(t);
    PartSizes(t, key);
    RankMonotone(RightPart(t, key), t);
    RankMonotone(t1.right, t);
    if t1.left.Tree? {
      RankMonotone(t1.left, t.left);
      RankMonotone(t1.left, t);
      RankSum(t1.left, t1.right, t);
    }
  }

  lemma StraightRight<V>(t: Shape<V>, key: real)
    requires t.Tree? && key > t.node.key && t.right.Tree? && key > t.right.node.key
    requires t.right.right.Tree? ==> Paid(t.right.right, key)
    ensures Paid(t, key)
  {
    var t1 := RotateLeft(t);
    PartSizes(t, key);
    RankMonotone(LeftPart(t, key), t);
    RankMonotone(t1.left, t);
    if t1.right.Tree? {
      RankMonotone(t1.right, t.right);
      RankMonotone(t1.right, t);
      RankSum(t1.right, t1.left, t);
    }
  }

  /** A change of direction pays for its two turns: the two outer trees cannot both have the rank of
      the whole. */
  lemma BentLeft<V>(t: Shape<V>, key: real)
    requires t.Tree? && key < t.node.key && t.left.Tree? && key >= t.left.node.key
    requires var y := t.left; key > y.node.key && y.right.Tree? ==>
               if key <= y.right.node.key then Paid(y.right, key)
               else y.right.right.Tree? ==> Paid(y.right.right, key)
    ensures Paid(t, key)
  {
    var y := t.left;
    PartSizes(t, key);
    RankMonotone(RightPart(t, key), t);
    if key > y.node.key && y.right.Tree? {
      RankSum(LeftPart(t, key), RightPart(t, key), t);
      RankMonotone(y, t);
      RankMonotone(y.right, y);
      if key > y.right.node.key {
        var t1 := RotateLeft(y);
        RankMonotone(t1.left, y);
        RankMonotone(t1.right, y.right);
        assert Turns(t, key) == 1 + Turns(y, key) && LeftPart(t, key) == LeftPart(y, key);
        assert Potential(y) == Rank(y) + Potential(y.left) + Potential(y.right);
        assert Potential(t1.left) == Rank(t1.left) + Potential(y.left) + Potential(y.right.left);
      }
    }
  }

  lemma BentRight<V>(t: Shape<V>, key: real)
    requires t.Tree? && key > t.node.key && t.right.Tree? && key <= t.right.node.key
    requires var y := t.right; key < y.node.key && y.left.Tree? ==>
               if key >= y.left.node.key then Paid(y.left, key)
               else y.left.left.Tree? ==> Paid(y.left.left, key)
    ensures Paid(t, key)
  {
    var y := t.right;
    PartSizes(t, key);
    RankMonotone(LeftPart(t, key), t);
    if key < y.node.key && y.left.Tree? {
      RankSum(RightPart(t, key), LeftPart(t, key), t);
      RankMonotone(y, t);
      RankMonotone(y.left, y);
      if key < y.left.node.key {
        var t1 := RotateRight(y);
        RankMonotone(t1.right, y);
        RankMonotone(t1.left, y.left);
        assert Turns(t, key) == 1 + Turns(y, key) && RightPart(t, key) == RightPart(y, key);
        assert Potential(y) == Rank(y) + Potential(y.left) + Potential(y.right);
        assert Potential(t1.right) == Rank(t1.right) + Potential(y.right) + Potential(y.left.right);
      }
    }
  }

  lemma {:induction false} SplayPaid<V>(t: Shape<V>, key: real)
    requires t.Tree?
    ensures Paid(t, key)
    decreases t
  {
    hide Paid;
    if key < t.node.key && t.left.Tree? {
      if key < t.left.node.key {
        if t.left.left.Tree? {
          SplayPaid(t.left.left, key);
        }
        StraightLeft(t, key);
      } else {
        if key > t.left.node.key && t.left.right.Tree? {
          SplayPaid(t.left.right, key);
          if t.left.right.right.Tree? {
            SplayPaid(t.left.right.right, key);
          }
        }
        BentLeft(t, key);
      }
    } else if key > t.node.key && t.right.Tree? {
      if key > t.right.node.key {
        if t.right.right.Tree? {
          SplayPaid(t.right.right, key);
        }
        StraightRight(t, key);
      } else {
        if key < t.right.node.key && t.right.left.Tree? {
          SplayPaid(t.right.left, key);
          if t.right.left.left.Tree? {
            SplayPaid(t.right.left.left, key);
          }
        }
        BentRight(t, key);
      }
    } else {
      Stopped(t, key);
    }
  }

  lemma Stopped<V>(t: Shape<V>, key: real)
    requires t.Tree? && !(key < t.node.key && t.left.Tree?) && !(key > t.node.key && t.right.Tree?)
    ensures Paid(t, key)
  {
  }

  /** What one splay of a tree with n nodes may cost. */
  ghost function Share(n: nat): nat {
    6 * Log2(n + 1) + 2
  }

  lemma ShareMonotone(m: nat, n: nat)
    requires m <= n
    ensures Share(m) <= Share(n)
  {
    Log2Monotone(m + 1, n + 1);
  }

  /** The turns of a splay, and what it adds to twice the potential, are together within its share. */
  lemma AmortisedSplay<V>(t: Shape<V>, key: real)
    requires t.Tree?
    ensures Splayed(t, key).Tree? && Size(Splayed(t, key)) == Size(t)
    ensures Turns(t, key) + 2 * Potential(Splayed(t, key)) <= 2 * Potential(t) + Share(Size(t))
  {
    DescendParts(Top, t, Top, key);
    PartSizes(t, key);
    SplayPaid(t, key);
    var (l, t', r) := Descend(Top, t, Top, key);
    assert Splayed(t, key) == Tree(t'.node, LeftPart(t, key), RightPart(t, key));
  }

  // ----- in terms of the map

  lemma {:induction false} InorderSize<V>(t: Shape<V>)
    ensures |Inorder(t)| == Size(t)
  {
    match t
    case Empty =>
    case Tree(_, l, r) =>
      InorderSize(l);
      InorderSize(r);
  }

  lemma {:induction false} ContentsSize<V>(ns: seq<Node<V>>)
    requires Sorted(ns)
    ensures |Contents(ns)| == |ns|
  {
    if ns == [] {
      assert Contents(ns) == map[];
    } else {
      var rest, last := ns[..|ns| - 1], ns[|ns| - 1];
      assert ns == rest + [last] + [] && rest + [] == rest;
      SortedParts(rest, last, []);
      OneBinding(rest, last, []);
      ContentsSize(rest);
      hide Contents, Sorted;
    }
  }

  lemma ModelSize<V>(t: Shape<V>)
    requires Sorted(Inorder(t))
    ensures |Contents(Inorder(t))| == Size(t)
  {
    ContentsSize(Inorder(t));
    InorderSize(t);
  }

  lemma NothingWeighs<V>()
    ensures Size<V>(Empty) == 0 && Potential<V>(Empty) == 0
  {
  }

  lemma TreePotential<V>(n: Node<V>, l: Shape<V>, r: Shape<V>, size: nat)
    requires size == Size(l) + Size(r) + 1
    ensures Size(Tree(n, l, r)) == size && Potential(Tree(n, l, r)) == Log2(size + 1) + Potential(l) + Potential(r)
  {
  }

  /** A new root above a splayed tree, of which l and r are the subtrees. */
  lemma HungCost<V>(s: Shape<V>, node: Node<V>, l: Shape<V>, r: Shape<V>, n: nat)
    requires s.Tree? && s == Tree(s.node, l, r) && n == Size(s)
    ensures Potential(Tree(node, Tree(s.node, l, Empty), r)) <= Potential(s) + Log2(n + 2)
    ensures Potential(Tree(node, l, Tree(s.node, Empty, r))) <= Potential(s) + Log2(n + 2)
  {
    hide *;
    TreePotential(s.node, l, r, Size(l) + Size(r) + 1);
    NothingWeighs<V>();
    var ll, rr := Tree(s.node, l, Empty), Tree(s.node, Empty, r);
    var p := Potential(s);
    assert p == Log2(n + 1) + Potential(l) + Potential(r) by {
      TreePotential(s.node, l, r, n);
    }
    assert Potential(ll) <= Log2(n + 1) + Potential(l) && Size(ll) == Size(l) + 1 by {
      TreePotential(s.node, l, Empty, Size(l) + 1);
      Log2Monotone(Size(l) + 2, n + 1);
    }
    assert Potential(rr) <= Log2(n + 1) + Potential(r) && Size(rr) == Size(r) + 1 by {
      TreePotential(s.node, Empty, r, Size(r) + 1);
      Log2Monotone(Size(r) + 2, n + 1);
    }
    TreePotential(node, ll, r, n + 1);
    TreePotential(node, l, rr, n + 1);
  }

  /** The root goes, and what is left of it, splayed to u, takes over what was right of it. */
  lemma JoinCost<V>(s: Shape<V>, u: Shape<V>)
    requires s.Tree? && u.Tree? && Size(u) == Size(s.left) && u.right.Empty?
    ensures Potential(Tree(u.node, u.left, s.right)) + Potential(s.left) <= Potential(s) + Potential(u)
    ensures Share(Size(s.left)) <= Share(Size(s))
  {
    ShareMonotone(Size(s.left), Size(s));
    RankMonotone(Tree(u.node, u.left, s.right), s);
  }
}
